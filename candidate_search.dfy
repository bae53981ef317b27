/** The donor search of `I2GDataset`: `total_euclidean_distance` between two
    landmark arrays and `search_similar_face`, which draws 50 frame names,
    drops those of the background's own video, and keeps the closest one. */
module CandidateSearch {
  import opened Common
  import opened LandmarkCache

  /** `sample_num`: how many frame names one search draws. */
  const SampleNum: nat := 50

  /** The initial `min_dist`: a candidate must come closer than this. */
  const Sentinel: real := 99999999.0

  /** What the model uses of `np.linalg.norm` on one row (x, y): a length is
      non-negative, zero only for the zero vector, and the same for a vector
      and its opposite. */
  ghost predicate IsNorm(norm: (real, real) -> real) {
    forall x: real, y: real ::
      && 0.0 <= norm(x, y)
      && (norm(x, y) == 0.0 <==> x == 0.0 && y == 0.0)
      && norm(-x, -y) == norm(x, y)
  }

  function Sub(p: Point, q: Point): Point {
    Point(p.x - q.x, p.y - q.y)
  }

  /** Row `i` of `a - b` reads row 0 of an operand with a single row. */
  function Row(a: Landmarks, i: nat): Point
    requires |a| == 1 || i < |a|
  {
    if |a| == 1 then a[0] else a[i]
  }

  /** `a - b` on two (n, 2) arrays under numpy broadcasting: equal row counts
      pair up, a single row is repeated, anything else raises. */
  function Difference(a: Landmarks, b: Landmarks): Result<seq<Point>> {
    if |a| != |b| && |a| != 1 && |b| != 1 then Failure(ShapeMismatch)
    else
      var n := if |a| == 1 then |b| else |a|;
      Success(seq(n, i requires 0 <= i < n => Sub(Row(a, i), Row(b, i))))
  }

  /** `np.sum(np.linalg.norm(d, axis=1))`. */
  function NormSum(d: seq<Point>, norm: (real, real) -> real): (s: real)
    requires IsNorm(norm)
    ensures 0.0 <= s
  {
    if d == [] then 0.0 else norm(d[0].x, d[0].y) + NormSum(d[1..], norm)
  }

  /** `total_euclidean_distance(a, b)`: the sum over rows of the length of
      `a[i] - b[i]`; it raises when the shapes do not broadcast. */
  function TotalDistance(a: Landmarks, b: Landmarks, norm: (real, real) -> real): (r: Result<real>)
    requires IsNorm(norm)
    ensures r.Failure? <==> |a| != |b| && |a| != 1 && |b| != 1
    ensures r.Failure? ==> r.error == ShapeMismatch
    ensures r.Success? ==> 0.0 <= r.value
  {
    var d :- Difference(a, b);
    Success(NormSum(d, norm))
  }

  lemma {:induction false} NormSumOpposite(d: seq<Point>, e: seq<Point>, norm: (real, real) -> real)
    requires IsNorm(norm)
    requires |d| == |e|
    requires forall i :: 0 <= i < |d| ==> e[i] == Point(-d[i].x, -d[i].y)
    ensures NormSum(d, norm) == NormSum(e, norm)
  {
    if d != [] {
      assert norm(-d[0].x, -d[0].y) == norm(d[0].x, d[0].y);
      NormSumOpposite(d[1..], e[1..], norm);
    }
  }

  /** The distance does not depend on the order of its operands. */
  lemma TotalDistanceSymmetric(a: Landmarks, b: Landmarks, norm: (real, real) -> real)
    requires IsNorm(norm)
    ensures TotalDistance(a, b, norm) == TotalDistance(b, a, norm)
  {
    var ab := Difference(a, b);
    var ba := Difference(b, a);
    if ab.Success? {
      NormSumOpposite(ab.value, ba.value, norm);
    }
  }

  lemma {:induction false} NormSumZero(d: seq<Point>, norm: (real, real) -> real)
    requires IsNorm(norm)
    ensures NormSum(d, norm) == 0.0 <==> forall i :: 0 <= i < |d| ==> d[i] == Point(0.0, 0.0)
  {
    if d != [] {
      assert norm(d[0].x, d[0].y) == 0.0 <==> d[0] == Point(0.0, 0.0);
      NormSumZero(d[1..], norm);
      assert forall i :: 1 <= i < |d| ==> d[i] == d[1..][i - 1];
    }
  }

  /** Two landmark arrays of the same length are at distance zero exactly
      when they are equal. */
  lemma TotalDistanceZero(a: Landmarks, b: Landmarks, norm: (real, real) -> real)
    requires IsNorm(norm)
    requires |a| == |b|
    ensures TotalDistance(a, b, norm) == Success(0.0) <==> a == b
  {
    var d := Difference(a, b).value;
    NormSumZero(d, norm);
    if TotalDistance(a, b, norm) == Success(0.0) {
      forall i | 0 <= i < |a| ensures a[i] == b[i] {
        assert d[i] == Sub(a[i], b[i]);
      }
    }
  }

  /** `path.split('_')[0]`: the video a frame name belongs to, the text
      before its first underscore. */
  function Session(path: string): (p: string)
    ensures p <= path && '_' !in p
    ensures |p| < |path| ==> path[|p|] == '_'
  {
    if path == [] || path[0] == '_' then [] else [path[0]] + Session(path[1..])
  }

  /** A frame name made of a video name, an underscore and anything else
      belongs to that video. */
  lemma {:induction false} SessionOfFrame(video: string, rest: string)
    requires '_' !in video
    ensures Session(video + "_" + rest) == video
  {
    if video != [] {
      assert (video + "_" + rest)[1..] == video[1..] + "_" + rest;
      SessionOfFrame(video[1..], rest);
    }
  }

  /** The `filter` of the search: the drawn names not from the background's video, in draw order. */
  function Survivors(cands: seq<string>, background: string): (s: seq<string>)
    ensures |s| <= |cands|
    ensures forall x :: x in s <==> x in cands && Session(x) != Session(background)
  {
    if cands == [] then []
    else
      (if Session(cands[0]) != Session(background) then [cands[0]] else [])
        + Survivors(cands[1..], background)
  }

  /** Every position moved up by one. */
  function Shift(idx: seq<nat>): (r: seq<nat>)
    ensures |r| == |idx| && forall k :: 0 <= k < |idx| ==> r[k] == idx[k] + 1
  {
    seq(|idx|, k requires 0 <= k < |idx| => idx[k] + 1)
  }

  /** The positions in `cands` of the names the filter keeps, in order. */
  function KeptPositions(cands: seq<string>, background: string): (idx: seq<nat>)
    ensures |idx| <= |cands|
    ensures forall k :: 0 <= k < |idx| ==> idx[k] < |cands|
  {
    if cands == [] then []
    else
      (if Session(cands[0]) != Session(background) then [0] else [])
        + Shift(KeptPositions(cands[1..], background))
  }

  /** The survivors are the candidates at the kept positions. */
  lemma {:induction false} SurvivorsAtKept(cands: seq<string>, background: string)
    ensures var s, idx := Survivors(cands, background), KeptPositions(cands, background);
      && |idx| == |s|
      && forall k :: 0 <= k < |s| ==> s[k] == cands[idx[k]]
  {
    if cands != [] {
      var tail := cands[1..];
      SurvivorsAtKept(tail, background);
      var rest, sRest := Shift(KeptPositions(tail, background)), Survivors(tail, background);
      var s, idx := Survivors(cands, background), KeptPositions(cands, background);
      var n := if Session(cands[0]) != Session(background) then 1 else 0;
      assert s == cands[..n] + sRest;
      assert idx == (if n == 1 then [0] else []) + rest;
      forall k | n <= k < |s|
        ensures s[k] == cands[idx[k]]
      {
        assert s[k] == sRest[k - n] == tail[idx[k] - 1];
      }
    }
  }

  predicate Increasing(idx: seq<nat>) {
    forall k, l :: 0 <= k < l < |idx| ==> idx[k] < idx[l]
  }

  /** The kept positions strictly increase: the filter keeps draw order. */
  lemma {:induction false} KeptIncreasing(cands: seq<string>, background: string)
    ensures Increasing(KeptPositions(cands, background))
  {
    if cands != [] {
      var tailIdx := KeptPositions(cands[1..], background);
      KeptIncreasing(cands[1..], background);
      var rest := Shift(tailIdx);
      var idx := KeptPositions(cands, background);
      var n := if Session(cands[0]) != Session(background) then 1 else 0;
      assert idx == (if n == 1 then [0] else []) + rest;
      forall k, l | 0 <= k < l < |idx|
        ensures idx[k] < idx[l]
      {
        assert idx[l] == rest[l - n] == tailIdx[l - n] + 1;
        if k >= n {
          assert idx[k] == rest[k - n] == tailIdx[k - n] + 1;
        }
      }
    }
  }

  /** A position is kept exactly when its session differs from the background's. */
  lemma {:induction false} KeptExactly(cands: seq<string>, background: string)
    ensures var idx := KeptPositions(cands, background);
      forall j :: 0 <= j < |cands| ==> (j in idx <==> Session(cands[j]) != Session(background))
  {
    if cands != [] {
      var tail := cands[1..];
      KeptExactly(tail, background);
      var rest := KeptPositions(tail, background);
      var shifted := Shift(rest);
      var head: seq<nat> := if Session(cands[0]) != Session(background) then [0] else [];
      var idx := KeptPositions(cands, background);
      forall j | 0 <= j < |cands|
        ensures j in idx <==> Session(cands[j]) != Session(background)
      {
        assert j in idx <==> j in head || j in shifted;
        if j == 0 {
          assert 0 !in shifted;
        } else {
          assert cands[j] == tail[j - 1];
          if j in shifted {
            var k :| 0 <= k < |shifted| && shifted[k] == j;
            assert rest[k] == j - 1;
          }
          if j - 1 in rest {
            var k :| 0 <= k < |rest| && rest[k] == j - 1;
            assert shifted[k] == j;
          }
        }
      }
    }
  }

  /** The filter is an order-preserving subsequence: the survivors are the
      candidates at strictly increasing positions, and those positions are
      exactly the ones whose session differs from the background's. */
  lemma SurvivorsInOrder(cands: seq<string>, background: string)
    ensures var s, idx := Survivors(cands, background), KeptPositions(cands, background);
      && |idx| == |s|
      && (forall k :: 0 <= k < |s| ==> s[k] == cands[idx[k]])
      && Increasing(idx)
      && (forall j :: 0 <= j < |cands| ==> (j in idx <==> Session(cands[j]) != Session(background)))
  {
    SurvivorsAtKept(cands, background);
    KeptIncreasing(cands, background);
    KeptExactly(cands, background);
  }

  /** The distances of the candidates to the target, in candidate order, or
      a failure when one of them does not broadcast. */
  function Distances(paths: seq<string>, record: map<string, Landmarks>, target: Landmarks,
                     norm: (real, real) -> real): (r: Result<seq<real>>)
    requires forall p :: p in paths ==> p in record
    requires IsNorm(norm)
    ensures r.Success? ==> |r.value| == |paths|
    ensures r.Success? ==> forall i :: 0 <= i < |paths| ==>
      TotalDistance(record[paths[i]], target, norm) == Success(r.value[i])
    ensures r.Failure? <==> exists i :: 0 <= i < |paths| && TotalDistance(record[paths[i]], target, norm).Failure?
  {
    if paths == [] then Success([])
    else
      var init := paths[..|paths| - 1];
      assert forall i :: 0 <= i < |init| ==> init[i] == paths[i];
      var ds :- Distances(init, record, target, norm);
      var d :- TotalDistance(record[paths[|paths| - 1]], target, norm);
      Success(ds + [d])
  }

  /** One more candidate extends the distances by its own distance. */
  lemma DistancesStep(cands: seq<string>, k: nat, record: map<string, Landmarks>, target: Landmarks,
                      norm: (real, real) -> real, ds: seq<real>)
    requires k < |cands| && forall p :: p in cands ==> p in record
    requires IsNorm(norm)
    requires Distances(cands[..k], record, target, norm) == Success(ds)
    requires TotalDistance(record[cands[k]], target, norm).Success?
    ensures Distances(cands[..k + 1], record, target, norm) ==
      Success(ds + [TotalDistance(record[cands[k]], target, norm).value])
  {
    assert cands[..k + 1][..k] == cands[..k];
  }

  /** `ds[i]` is below `bound` and is the first occurrence of the minimum of `ds`. */
  ghost predicate IsFirstMin(ds: seq<real>, i: int, bound: real) {
    && 0 <= i < |ds|
    && ds[i] < bound
    && (forall j :: 0 <= j < |ds| ==> ds[i] <= ds[j])
    && (forall j :: 0 <= j < i ==> ds[i] < ds[j])
  }

  /** At most one position is the first minimum. */
  lemma FirstMinUnique(ds: seq<real>, i: int, k: int, bound: real)
    requires IsFirstMin(ds, i, bound) && IsFirstMin(ds, k, bound)
    ensures i == k
  {
  }

  /** A first minimum below `bound` exists exactly when some value is below `bound`. */
  lemma {:induction false} FirstMinExists(ds: seq<real>, bound: real)
    ensures (exists i :: IsFirstMin(ds, i, bound)) <==> exists j :: 0 <= j < |ds| && ds[j] < bound
  {
    if exists j :: 0 <= j < |ds| && ds[j] < bound {
      var init := ds[..|ds| - 1];
      var last := ds[|ds| - 1];
      if exists j :: 0 <= j < |init| && init[j] < bound {
        FirstMinExists(init, bound);
        var i :| IsFirstMin(init, i, bound);
        if last < init[i] {
          assert IsFirstMin(ds, |ds| - 1, bound);
        } else {
          assert IsFirstMin(ds, i, bound);
        }
      } else {
        assert last < bound;
        assert IsFirstMin(ds, |ds| - 1, bound);
      }
    }
  }

  /** The state of the argmin loop after the distances `ds`: `best` is the
      first minimum below the sentinel and `minDist` its distance, or `best`
      is -1 and nothing came below the sentinel. */
  ghost predicate Tracks(ds: seq<real>, best: int, minDist: real) {
    && (best == -1 ==> minDist == Sentinel && forall j :: 0 <= j < |ds| ==> ds[j] >= Sentinel)
    && (best != -1 ==> IsFirstMin(ds, best, Sentinel) && minDist == ds[best])
  }

  /** One more distance: keep the best so far unless the new one is strictly smaller. */
  lemma TracksStep(ds: seq<real>, best: int, minDist: real, d: real)
    requires Tracks(ds, best, minDist)
    ensures d < minDist ==> Tracks(ds + [d], |ds|, d)
    ensures !(d < minDist) ==> Tracks(ds + [d], best, minDist)
  {
    var ds' := ds + [d];
    assert forall j :: 0 <= j < |ds| ==> ds'[j] == ds[j];
  }

  /** The loop of `search_similar_face` over the surviving candidates: keep
      a candidate when it is strictly closer than the best so far, starting
      from the sentinel. `minPath` is `None` when no candidate was kept. */
  method ArgminLoop(cands: seq<string>, record: map<string, Landmarks>, thisLandmark: Landmarks,
                    norm: (real, real) -> real)
    returns (r: Result<Option<string>>, ghost ds: seq<real>, ghost best: int)
    requires forall p :: p in cands ==> p in record
    requires IsNorm(norm)
    ensures r.Failure? <==> Distances(cands, record, thisLandmark, norm).Failure?
    ensures r.Failure? ==> r.error == ShapeMismatch
    ensures r.Success? ==>
      && Distances(cands, record, thisLandmark, norm) == Success(ds)
      && (r.value.None? <==> best == -1)
      && (exists minDist :: Tracks(ds, best, minDist))
      && (r.value.Some? ==> 0 <= best < |cands| && r.value.value == cands[best])
  {
    var minDist := Sentinel;
    var minPath: Option<string> := None;
    ds := [];
    best := -1;
    for k := 0 to |cands|
      invariant Distances(cands[..k], record, thisLandmark, norm) == Success(ds)
      invariant Tracks(ds, best, minDist)
      invariant minPath.Some? <==> best != -1
      invariant minPath.Some? ==> best < k && minPath.value == cands[best]
    {
      var d := TotalDistance(record[cands[k]], thisLandmark, norm);
      if d.Failure? {
        assert Distances(cands, record, thisLandmark, norm).Failure?;
        return Failure(d.error), ds, best;
      }
      DistancesStep(cands, k, record, thisLandmark, norm, ds);
      TracksStep(ds, best, minDist, d.value);
      if d.value < minDist {
        minDist := d.value;
        minPath := Some(cands[k]);
        best := |ds|;
      }
      ds := ds + [d.value];
    }
    assert cands[..|cands|] == cands;
    return Success(minPath), ds, best;
  }

  /** The outcome of the search loop: a failing distance raises, no kept
      candidate leaves `min_path` unbound, and otherwise the kept candidate
      is the first closest one below the sentinel. */
  method Closest(cands: seq<string>, record: map<string, Landmarks>, thisLandmark: Landmarks,
                 norm: (real, real) -> real)
    returns (r: Result<string>)
    requires forall p :: p in cands ==> p in record
    requires IsNorm(norm)
    ensures r.Failure? ==> r.error == ShapeMismatch || r.error == NoCandidate
    ensures var ds := Distances(cands, record, thisLandmark, norm);
      && (r == Failure(ShapeMismatch) <==> ds.Failure?)
      && (r == Failure(NoCandidate) <==> ds.Success? && forall j :: 0 <= j < |ds.value| ==> ds.value[j] >= Sentinel)
      && (r.Success? ==> exists i :: 0 <= i < |cands| && cands[i] == r.value && IsFirstMin(ds.value, i, Sentinel))
  {
    var scanned, ds, best := ArgminLoop(cands, record, thisLandmark, norm);
    if scanned.Failure? {
      return Failure(scanned.error);
    }
    if scanned.value.None? {
      return Failure(NoCandidate);
    }
    return Success(scanned.value.value);
  }

  /** `search_similar_face`: draw 50 names from `dataList` (the draw given
      as `picks`), drop those of the background's video and return the
      closest survivor. With fewer than 50 names the draw raises. */
  method SearchSimilarFace(record: map<string, Landmarks>, dataList: seq<string>, thisLandmark: Landmarks,
                           background: string, picks: seq<nat>, norm: (real, real) -> real)
    returns (r: Result<string>)
    requires forall p :: p in dataList ==> p in record
    requires IsNorm(norm)
    requires SampleNum <= |dataList| ==> IsSampleOutcome(picks, |dataList|, SampleNum)
    ensures |dataList| < SampleNum <==> r == Failure(SampleLargerThanPopulation)
    ensures r.Failure? ==> r.error == SampleLargerThanPopulation || r.error == ShapeMismatch || r.error == NoCandidate
    ensures |dataList| >= SampleNum ==>
      var cands := Survivors(RandomSample(dataList, SampleNum, picks).value, background);
      var ds := Distances(cands, record, thisLandmark, norm);
      && (r == Failure(ShapeMismatch) <==> ds.Failure?)
      && (r == Failure(NoCandidate) <==> ds.Success? && forall j :: 0 <= j < |ds.value| ==> ds.value[j] >= Sentinel)
      && (r.Success? ==> exists i :: 0 <= i < |cands| && cands[i] == r.value && IsFirstMin(ds.value, i, Sentinel))
    ensures r.Success? ==> r.value in dataList && Session(r.value) != Session(background)
  {
    var sample :- RandomSample(dataList, SampleNum, picks);
    var cands := Survivors(sample, background);
    r := Closest(cands, record, thisLandmark, norm);
  }
}
