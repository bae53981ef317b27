/** Shared vocabulary of the forgery-sample generator: the errors the Python
    code raises, a Result type standing in for them, and two-dimensional grids
    with the row-major index list that `np.where(mask != 0)` produces. */
module Common {

  /** Each constructor is one way the Python code stops with an exception. */
  datatype Error =
    | NotADirectory(dir: string)   // `assert os.path.isdir(dir)` fails
    | ReshapeMismatch(path: string) // `np.reshape(face_hull, [point_num, 2])` cannot reshape
    | SampleLargerThanPopulation   // `random.sample` asked for more items than there are
    | NegativeSampleSize           // `random.sample` asked for a negative count
    | ShapeMismatch                // `a - b` on landmark arrays that do not broadcast
    | NoCandidate                  // `return min_path` with `min_path` never bound
    | EmptyMask                    // `np.max` over the coordinates of an empty mask
    | ZeroFeather                  // feather amount 0: the weights divide by zero
    | MissingOption(name: string)  // an option attribute read while it does not exist
    | IndexOutOfBounds             // a mask position outside an image it indexes
    | FileNotFound(path: string)   // `io.imread` on a path with no readable image
    | NegativeDimensions           // `np.ones` asked for a negative shape

  datatype Result<+T> = Success(value: T) | Failure(error: Error) {
    predicate IsFailure() { Failure? }
    function PropagateFailure<U>(): Result<U>
      requires Failure?
    {
      Failure(error)
    }
    function Extract(): T
      requires Success?
    {
      value
    }
  }

  datatype Option<+T> = None | Some(value: T)

  /** A rectangular field of values, indexed `[row][column]`. */
  type Grid<T> = seq<seq<T>>

  ghost predicate IsGrid<T>(g: Grid<T>, height: nat, width: nat) {
    |g| == height && forall i :: 0 <= i < |g| ==> |g[i]| == width
  }

  /** A pixel of an RGB `uint8` image: one value per channel. */
  type Pixel = seq<int>

  /** An image, indexed `[row][column]`. */
  type Image = Grid<Pixel>

  const Channels: nat := 3

  /** A value of numpy's `uint8` type. */
  predicate IsByte(v: int) {
    0 <= v < 256
  }

  /** Every pixel of `img` holds three `uint8` values. */
  ghost predicate IsRgb(img: Image) {
    forall i, j :: 0 <= i < |img| && 0 <= j < |img[i]| ==> IsRgbPixel(img[i][j])
  }

  ghost predicate IsRgbPixel(p: Pixel) {
    |p| == Channels && forall ch :: 0 <= ch < Channels ==> IsByte(p[ch])
  }

  /** A pixel position: row (numpy axis 0) and column (numpy axis 1). */
  datatype Pos = Pos(row: nat, col: nat)

  ghost predicate InGrid<T>(g: Grid<T>, p: Pos) {
    p.row < |g| && p.col < |g[p.row]|
  }

  /** True when `p` comes strictly before `q` in row-major order. */
  predicate Before(p: Pos, q: Pos) {
    p.row < q.row || (p.row == q.row && p.col < q.col)
  }

  ghost predicate StrictlyRowMajor(ps: seq<Pos>) {
    forall i, j :: 0 <= i < j < |ps| ==> Before(ps[i], ps[j])
  }

  /** Positions `(r, c)`, `c >= from`, where `row` is non-zero, left to right. */
  function WhereInRow(row: seq<real>, r: nat, from: nat): (ps: seq<Pos>)
    requires from <= |row|
    decreases |row| - from
  {
    if from == |row| then []
    else (if row[from] != 0.0 then [Pos(r, from)] else []) + WhereInRow(row, r, from + 1)
  }

  /** Non-zero positions of the rows `from..` of `mask`, in row-major order. */
  function WhereFrom(mask: Grid<real>, from: nat): (ps: seq<Pos>)
    decreases |mask| - from
  {
    if from >= |mask| then []
    else WhereInRow(mask[from], from, 0) + WhereFrom(mask, from + 1)
  }

  /** The index list of `np.where(mask != 0)`, paired up position by position. */
  function Where(mask: Grid<real>): (ps: seq<Pos>) {
    WhereFrom(mask, 0)
  }

  lemma {:induction false} WhereInRowMembers(row: seq<real>, r: nat, from: nat, p: Pos)
    requires from <= |row|
    ensures p in WhereInRow(row, r, from) <==> p.row == r && from <= p.col < |row| && row[p.col] != 0.0
    ensures forall q :: q in WhereInRow(row, r, from) ==> q.row == r && from <= q.col
    decreases |row| - from
  {
    if from < |row| {
      var head := if row[from] != 0.0 then [Pos(r, from)] else [];
      var rest := WhereInRow(row, r, from + 1);
      assert WhereInRow(row, r, from) == head + rest;
      WhereInRowMembers(row, r, from + 1, p);
      assert p in head + rest <==> p in head || p in rest;
    }
  }

  lemma {:induction false} WhereFromMembers(mask: Grid<real>, from: nat, p: Pos)
    ensures p in WhereFrom(mask, from) <==> from <= p.row && InGrid(mask, p) && mask[p.row][p.col] != 0.0
    decreases |mask| - from
  {
    if from < |mask| {
      var head := WhereInRow(mask[from], from, 0);
      var rest := WhereFrom(mask, from + 1);
      assert WhereFrom(mask, from) == head + rest;
      WhereInRowMembers(mask[from], from, 0, p);
      WhereFromMembers(mask, from + 1, p);
      assert p in head + rest <==> p in head || p in rest;
    }
  }

  /** `np.where(mask != 0)` lists exactly the non-zero cells of the mask. */
  lemma WhereMembers(mask: Grid<real>, p: Pos)
    ensures p in Where(mask) <==> InGrid(mask, p) && mask[p.row][p.col] != 0.0
  {
    WhereFromMembers(mask, 0, p);
  }

  lemma {:induction false} WhereInRowOrdered(row: seq<real>, r: nat, from: nat)
    requires from <= |row|
    ensures StrictlyRowMajor(WhereInRow(row, r, from))
    decreases |row| - from
  {
    if from < |row| {
      var rest := WhereInRow(row, r, from + 1);
      WhereInRowOrdered(row, r, from + 1);
      forall q | q in rest ensures Before(Pos(r, from), q) {
        WhereInRowMembers(row, r, from + 1, q);
      }
    }
  }

  lemma {:induction false} WhereFromOrdered(mask: Grid<real>, from: nat)
    ensures StrictlyRowMajor(WhereFrom(mask, from))
    ensures forall q :: q in WhereFrom(mask, from) ==> from <= q.row
    decreases |mask| - from
  {
    if from < |mask| {
      var head := WhereInRow(mask[from], from, 0);
      var rest := WhereFrom(mask, from + 1);
      WhereInRowOrdered(mask[from], from, 0);
      WhereFromOrdered(mask, from + 1);
      forall q | q in head ensures q.row == from {
        WhereInRowMembers(mask[from], from, 0, q);
      }
      var all := head + rest;
      forall i, j | 0 <= i < j < |all| ensures Before(all[i], all[j]) {
        if j < |head| {
        } else if i >= |head| {
          assert all[i] == rest[i - |head|] && all[j] == rest[j - |head|];
        } else {
          assert all[i] in head && all[j] in rest;
        }
      }
    }
  }

  /** The positions come in strictly increasing row-major order, hence are distinct. */
  lemma WhereOrdered(mask: Grid<real>)
    ensures StrictlyRowMajor(Where(mask))
  {
    WhereFromOrdered(mask, 0);
  }

  /** No value occurs twice. */
  ghost predicate Distinct<T>(s: seq<T>) {
    forall i, j :: 0 <= i < j < |s| ==> s[i] != s[j]
  }

  /** `picks` is a possible outcome of `random.sample` drawing `k` of `n`
      items: `k` distinct positions of the population, in draw order. */
  ghost predicate IsSampleOutcome(picks: seq<nat>, n: nat, k: nat) {
    && |picks| == k
    && (forall i :: 0 <= i < k ==> picks[i] < n)
    && (forall i, j :: 0 <= i < j < k ==> picks[i] != picks[j])
  }

  /** `random.sample(population, k)`, the random draw given as `picks`. It
      raises for a negative `k` and for a `k` larger than the population. */
  function RandomSample<T>(population: seq<T>, k: int, picks: seq<nat>): (r: Result<seq<T>>)
    requires 0 <= k <= |population| ==> IsSampleOutcome(picks, |population|, k)
    ensures r.Failure? <==> k < 0 || k > |population|
    ensures k < 0 ==> r == Failure(NegativeSampleSize)
    ensures 0 <= k ==> (k > |population| <==> r == Failure(SampleLargerThanPopulation))
    ensures r.Success? ==> |r.value| == k && forall x :: x in r.value ==> x in population
  {
    if k < 0 then Failure(NegativeSampleSize)
    else if k > |population| then Failure(SampleLargerThanPopulation)
    else Success(seq(k, i requires 0 <= i < k => population[picks[i]]))
  }

  /** Drawing from a list without repetitions gives a list without repetitions. */
  lemma SampleDistinct<T>(population: seq<T>, k: int, picks: seq<nat>)
    requires 0 <= k <= |population| ==> IsSampleOutcome(picks, |population|, k)
    requires Distinct(population)
    ensures RandomSample(population, k, picks).Success? ==> Distinct(RandomSample(population, k, picks).value)
  {
  }
}
