/** The two pixel operations of `I2GDataset` that paste the donor face onto
    the background: `colorTransfer`, a per-channel mean shift of the masked
    pixels, and `blendImages`, a feathered convex combination of the masked
    pixels. Both copy the destination image and overwrite only the pixels
    the mask marks, in the order `np.where` lists them. */
module Blending {
  import opened Common

  /** Every listed position indexes a pixel of `img` (numpy raises an
      IndexError otherwise). */
  predicate Inside(ps: seq<Pos>, img: Image) {
    forall k :: 0 <= k < |ps| ==> ps[k].row < |img| && ps[k].col < |img[ps[k].row]|
  }

  /** `img` and `out` have the same rows of the same lengths. */
  ghost predicate SameShape<T, U>(img: Grid<T>, out: Grid<U>) {
    |out| == |img| && forall r :: 0 <= r < |img| ==> |out[r]| == |img[r]|
  }

  /** `out = np.copy(img); out[rows, cols] = vals`: the pixels at the listed
      positions take the listed values, every other pixel is copied. */
  method Scatter(img: Image, ps: seq<Pos>, vals: seq<Pixel>) returns (out: Image)
    requires |vals| == |ps|
    requires Inside(ps, img)
    requires StrictlyRowMajor(ps)
    ensures SameShape(img, out)
    ensures forall k :: 0 <= k < |ps| ==> out[ps[k].row][ps[k].col] == vals[k]
    ensures forall r, c :: 0 <= r < |img| && 0 <= c < |img[r]| && Pos(r, c) !in ps ==> out[r][c] == img[r][c]
  {
    out := img;
    for i := 0 to |ps|
      invariant SameShape(img, out)
      invariant forall k :: 0 <= k < i ==> out[ps[k].row][ps[k].col] == vals[k]
      invariant forall r, c :: 0 <= r < |img| && 0 <= c < |img[r]| && Pos(r, c) !in ps[..i] ==> out[r][c] == img[r][c]
    {
      var p := ps[i];
      assert forall k :: 0 <= k < i ==> Before(ps[k], p);
      out := out[p.row := out[p.row][p.col := vals[i]]];
      assert ps[..i + 1] == ps[..i] + [p];
    }
    assert ps[..|ps|] == ps;
  }

  /** `np.clip(v, lo, hi)`. */
  function Clip(v: real, lo: real, hi: real): (c: real)
    requires lo <= hi
    ensures lo <= c <= hi
    ensures lo <= v <= hi ==> c == v
    ensures v < lo ==> c == lo
    ensures v > hi ==> c == hi
  {
    if v < lo then lo else if v > hi then hi else v
  }

  /** Sum of channel `ch` over the listed pixels. */
  function ChannelSum(img: Image, ps: seq<Pos>, ch: nat): real
    requires Inside(ps, img) && IsRgb(img) && ch < Channels
  {
    if ps == [] then 0.0
    else
      var p := ps[|ps| - 1];
      ChannelSum(img, ps[..|ps| - 1], ch) + img[p.row][p.col][ch] as real
  }

  /** `np.mean(img[rows, cols], axis=0)`: the mean of each channel over the
      listed pixels. */
  function Means(img: Image, ps: seq<Pos>): (m: seq<real>)
    requires Inside(ps, img) && IsRgb(img) && ps != []
    ensures |m| == Channels
  {
    seq(Channels, ch requires 0 <= ch < Channels => ChannelSum(img, ps, ch) / |ps| as real)
  }

  /** One channel of `colorTransfer`: shifted from the destination mean to
      the source mean, clipped to [0, 255], and truncated into `uint8`. */
  function TransferValue(d: int, meanSrc: real, meanDst: real): (v: int)
    ensures IsByte(v)
    ensures var shifted := d as real - meanDst + meanSrc;
      0.0 <= shifted <= 255.0 ==> v as real <= shifted < v as real + 1.0
    ensures d as real - meanDst + meanSrc < 0.0 ==> v == 0
    ensures d as real - meanDst + meanSrc > 255.0 ==> v == 255
  {
    Clip(d as real - meanDst + meanSrc, 0.0, 255.0).Floor
  }

  function TransferPixel(d: Pixel, meanSrc: seq<real>, meanDst: seq<real>): (p: Pixel)
    requires |d| == Channels && |meanSrc| == Channels && |meanDst| == Channels
    ensures IsRgbPixel(p)
  {
    seq(Channels, ch requires 0 <= ch < Channels => TransferValue(d[ch], meanSrc[ch], meanDst[ch]))
  }

  /** What `colorTransfer` leaves at position (r, c) of `dst`: the
      transferred pixel where the mask is non-zero, the old one elsewhere. */
  ghost predicate TransferredAt(src: Image, dst: Image, mask: Grid<real>, out: Image, r: nat, c: nat)
    requires Inside(Where(mask), src) && Inside(Where(mask), dst) && IsRgb(src) && IsRgb(dst)
    requires r < |dst| && c < |dst[r]| && SameShape(dst, out)
  {
    var ps := Where(mask);
    WhereMembers(mask, Pos(r, c));
    if InGrid(mask, Pos(r, c)) && mask[r][c] != 0.0 then
      out[r][c] == TransferPixel(dst[r][c], Means(src, ps), Means(dst, ps))
    else
      out[r][c] == dst[r][c]
  }

  /** `colorTransfer(src, dst, mask)`. The masked pixels of `dst` are moved
      from their own mean colour to the mean colour of the same pixels in
      `src`; the others are copied. An empty mask leaves `dst` as it is. */
  method ColorTransfer(src: Image, dst: Image, mask: Grid<real>) returns (r: Result<Image>)
    requires IsRgb(src) && IsRgb(dst)
    ensures r.Failure? <==> !(Inside(Where(mask), src) && Inside(Where(mask), dst))
    ensures r.Failure? ==> r.error == IndexOutOfBounds
    ensures r.Success? ==> SameShape(dst, r.value) && IsRgb(r.value)
    ensures r.Success? ==> forall i, j :: 0 <= i < |dst| && 0 <= j < |dst[i]| ==>
      TransferredAt(src, dst, mask, r.value, i, j)
  {
    var ps := Where(mask);
    if !Inside(ps, src) || !Inside(ps, dst) {
      return Failure(IndexOutOfBounds);
    }
    if ps == [] {
      forall i, j | 0 <= i < |dst| && 0 <= j < |dst[i]| ensures TransferredAt(src, dst, mask, dst, i, j) {
        WhereMembers(mask, Pos(i, j));
      }
      return Success(dst);
    }
    var meanSrc := Means(src, ps);
    var meanDst := Means(dst, ps);
    var vals := seq(|ps|, k requires 0 <= k < |ps| =>
      TransferPixel(dst[ps[k].row][ps[k].col], meanSrc, meanDst));
    WhereOrdered(mask);
    var out := Scatter(dst, ps, vals);
    forall i, j | 0 <= i < |dst| && 0 <= j < |dst[i]|
      ensures TransferredAt(src, dst, mask, out, i, j) && IsRgbPixel(out[i][j])
    {
      WhereMembers(mask, Pos(i, j));
      if Pos(i, j) in ps {
        var k :| 0 <= k < |ps| && ps[k] == Pos(i, j);
        assert out[i][j] == vals[k];
      }
    }
    return Success(out);
  }

  /** Over pixels where two images agree, their channel sums agree. */
  lemma {:induction false} ChannelSumAgree(src: Image, dst: Image, ps: seq<Pos>, ch: nat)
    requires Inside(ps, src) && Inside(ps, dst) && IsRgb(src) && IsRgb(dst) && ch < Channels
    requires forall k :: 0 <= k < |ps| ==> src[ps[k].row][ps[k].col] == dst[ps[k].row][ps[k].col]
    ensures ChannelSum(src, ps, ch) == ChannelSum(dst, ps, ch)
  {
    if ps != [] {
      ChannelSumAgree(src, dst, ps[..|ps| - 1], ch);
    }
  }

  /** When source and destination agree on the mask, the transfer keeps
      every masked pixel: the two means coincide and the shift is zero. */
  lemma TransferKeepsAgreeingPixels(src: Image, dst: Image, ps: seq<Pos>, k: nat)
    requires Inside(ps, src) && Inside(ps, dst) && IsRgb(src) && IsRgb(dst) && k < |ps|
    requires forall k :: 0 <= k < |ps| ==> src[ps[k].row][ps[k].col] == dst[ps[k].row][ps[k].col]
    ensures var d := dst[ps[k].row][ps[k].col];
      TransferPixel(d, Means(src, ps), Means(dst, ps)) == d
  {
    var d := dst[ps[k].row][ps[k].col];
    forall ch | 0 <= ch < Channels ensures TransferValue(d[ch], Means(src, ps)[ch], Means(dst, ps)[ch]) == d[ch] {
      ChannelSumAgree(src, dst, ps, ch);
    }
  }

  /** Before clipping, the shift adds the difference of the two means to
      every masked value of a channel. */
  lemma {:induction false} ShiftedSum(dst: Image, ps: seq<Pos>, ch: nat, meanSrc: real, meanDst: real)
    requires Inside(ps, dst) && IsRgb(dst) && ch < Channels
    ensures ShiftedChannelSum(dst, ps, ch, meanSrc, meanDst)
      == ChannelSum(dst, ps, ch) + (|ps| as real) * (meanSrc - meanDst)
  {
    if ps != [] {
      ShiftedSum(dst, ps[..|ps| - 1], ch, meanSrc, meanDst);
    }
  }

  /** Sum of channel `ch` of the listed pixels after the mean shift, before clipping. */
  function ShiftedChannelSum(dst: Image, ps: seq<Pos>, ch: nat, meanSrc: real, meanDst: real): real
    requires Inside(ps, dst) && IsRgb(dst) && ch < Channels
  {
    if ps == [] then 0.0
    else
      var p := ps[|ps| - 1];
      ShiftedChannelSum(dst, ps[..|ps| - 1], ch, meanSrc, meanDst) + (dst[p.row][p.col][ch] as real - meanDst + meanSrc)
  }

  /** After the shift by the two means, the masked pixels of a channel
      have the source mean. */
  lemma ShiftedMeanIsSourceMean(src: Image, dst: Image, ps: seq<Pos>, ch: nat)
    requires Inside(ps, src) && Inside(ps, dst) && IsRgb(src) && IsRgb(dst) && ch < Channels && ps != []
    ensures ShiftedChannelSum(dst, ps, ch, Means(src, ps)[ch], Means(dst, ps)[ch]) / |ps| as real == Means(src, ps)[ch]
  {
    var n := |ps| as real;
    var ms := Means(src, ps)[ch];
    var md := Means(dst, ps)[ch];
    ShiftedSum(dst, ps, ch, ms, md);
    assert md * n == ChannelSum(dst, ps, ch);
    assert ms * n == ChannelSum(src, ps, ch);
  }

  /** The default `featherAmount` of `blendImages`. */
  const FeatherRatio: real := 0.2

  /** Largest and smallest value of a non-empty list. */
  function MaxOf(xs: seq<int>): (m: int)
    requires xs != []
    ensures m in xs && forall x :: x in xs ==> x <= m
  {
    if |xs| == 1 then xs[0]
    else
      var rest := MaxOf(xs[1..]);
      assert forall x :: x in xs ==> x == xs[0] || x in xs[1..];
      if xs[0] >= rest then xs[0] else rest
  }

  function MinOf(xs: seq<int>): (m: int)
    requires xs != []
    ensures m in xs && forall x :: x in xs ==> m <= x
  {
    if |xs| == 1 then xs[0]
    else
      var rest := MinOf(xs[1..]);
      assert forall x :: x in xs ==> x == xs[0] || x in xs[1..];
      if xs[0] <= rest then xs[0] else rest
  }

  function Cols(ps: seq<Pos>): (cs: seq<int>)
    ensures |cs| == |ps| && forall k :: 0 <= k < |ps| ==> cs[k] == ps[k].col
  {
    seq(|ps|, k requires 0 <= k < |ps| => ps[k].col as int)
  }

  function Rows(ps: seq<Pos>): (rs: seq<int>)
    ensures |rs| == |ps| && forall k :: 0 <= k < |ps| ==> rs[k] == ps[k].row
  {
    seq(|ps|, k requires 0 <= k < |ps| => ps[k].row as int)
  }

  /** `np.max(faceSize)`: the larger side of the bounding box of the mask
      points, measured as `max - min` along each axis. */
  function Extent(ps: seq<Pos>): (e: int)
    requires ps != []
    ensures 0 <= e
    ensures forall k, l :: 0 <= k < |ps| && 0 <= l < |ps| ==>
      ps[k].col - ps[l].col <= e && ps[k].row - ps[l].row <= e
    ensures exists k, l ::
      && 0 <= k < |ps| && 0 <= l < |ps|
      && (e == ps[k].col - ps[l].col || e == ps[k].row - ps[l].row)
  {
    var cs, rs := Cols(ps), Rows(ps);
    assert forall k :: 0 <= k < |ps| ==> cs[k] in cs && rs[k] in rs;
    var w := MaxOf(cs) - MinOf(cs);
    var h := MaxOf(rs) - MinOf(rs);
    var kc :| 0 <= kc < |ps| && cs[kc] == MaxOf(cs);
    var lc :| 0 <= lc < |ps| && cs[lc] == MinOf(cs);
    var kr :| 0 <= kr < |ps| && rs[kr] == MaxOf(rs);
    var lr :| 0 <= lr < |ps| && rs[lr] == MinOf(rs);
    assert w == ps[kc].col - ps[lc].col && h == ps[kr].row - ps[lr].row;
    if w >= h then w else h
  }

  /** `featherAmount * np.max(faceSize)`. */
  function Feather(ps: seq<Pos>): (f: real)
    requires ps != []
    ensures 0.0 <= f
  {
    FeatherRatio * Extent(ps) as real
  }

  /** The feather is zero exactly for a one-pixel mask: `np.where` lists
      distinct positions, and two distinct positions span a non-empty box. */
  lemma FeatherZero(ps: seq<Pos>)
    requires ps != [] && StrictlyRowMajor(ps)
    ensures Feather(ps) == 0.0 <==> |ps| == 1
  {
    if |ps| == 1 {
      assert Cols(ps) == [ps[0].col] && Rows(ps) == [ps[0].row];
    } else {
      assert Before(ps[0], ps[1]);
      assert Extent(ps) > 0;
    }
  }

  /** The mask point `(x, y)` of a position: column first, as `np.hstack`
      pairs them. */
  function MaskPoint(p: Pos): (int, int) {
    (p.col, p.row)
  }

  function MaskPoints(ps: seq<Pos>): (pts: seq<(int, int)>)
    ensures |pts| == |ps| && forall k :: 0 <= k < |ps| ==> pts[k] == MaskPoint(ps[k])
  {
    seq(|ps|, k requires 0 <= k < |ps| => MaskPoint(ps[k]))
  }

  /** `np.clip(dist / featherAmount, 0, 1)`. */
  function Weight(dist: real, feather: real): (w: real)
    requires feather != 0.0
    ensures 0.0 <= w <= 1.0
    ensures 0.0 <= dist / feather <= 1.0 ==> w == dist / feather
    ensures dist / feather < 0.0 ==> w == 0.0
    ensures dist / feather > 1.0 ==> w == 1.0
  {
    Clip(dist / feather, 0.0, 1.0)
  }

  lemma NonNegativeProduct(a: real, b: real)
    requires 0.0 <= a && 0.0 <= b
    ensures 0.0 <= a * b
  {
  }

  /** `w * a + (1 - w) * b`. */
  function Mix(w: real, a: real, b: real): real {
    w * a + (1.0 - w) * b
  }

  /** A convex combination of two values lies between them. */
  lemma ConvexBetween(w: real, a: real, b: real)
    requires 0.0 <= w <= 1.0
    ensures a <= b ==> a <= Mix(w, a, b) <= b
    ensures b <= a ==> b <= Mix(w, a, b) <= a
  {
    assert Mix(w, a, b) == b + w * (a - b);
    assert w * (a - b) + (1.0 - w) * (a - b) == a - b;
    if b <= a {
      NonNegativeProduct(w, a - b);
      NonNegativeProduct(1.0 - w, a - b);
    } else {
      NonNegativeProduct(w, b - a);
      NonNegativeProduct(1.0 - w, b - a);
      assert w * (b - a) == -(w * (a - b));
      assert (1.0 - w) * (b - a) == -((1.0 - w) * (a - b));
    }
  }

  lemma FloorBetween(x: real, lo: int, hi: int)
    requires lo as real <= x <= hi as real
    ensures lo <= x.Floor <= hi
  {
  }

  /** One channel of `blendImages`: `w * src + (1 - w) * dst`, truncated into `uint8`. */
  function BlendValue(w: real, s: int, d: int): (v: int)
    requires 0.0 <= w <= 1.0
    ensures (if s <= d then s else d) <= v <= (if s <= d then d else s)
    ensures v as real <= Mix(w, s as real, d as real) < v as real + 1.0
  {
    var x := Mix(w, s as real, d as real);
    ConvexBetween(w, s as real, d as real);
    if s <= d then FloorBetween(x, s, d); x.Floor
    else FloorBetween(x, d, s); x.Floor
  }

  /** A masked pixel of `blendImages`; each channel lies between the source's and the destination's. */
  function BlendPixel(s: Pixel, d: Pixel, w: real): (p: Pixel)
    requires |s| == Channels && |d| == Channels && 0.0 <= w <= 1.0
    ensures |p| == Channels
    ensures forall ch :: 0 <= ch < Channels ==>
      (if s[ch] <= d[ch] then s[ch] else d[ch]) <= p[ch] <= (if s[ch] <= d[ch] then d[ch] else s[ch])
  {
    seq(Channels, ch requires 0 <= ch < Channels => BlendValue(w, s[ch], d[ch]))
  }

  /** Blending two bytes gives a byte, and blending a pixel with itself gives the pixel back. */
  lemma BlendPixelBounds(s: Pixel, d: Pixel, w: real)
    requires IsRgbPixel(s) && IsRgbPixel(d) && 0.0 <= w <= 1.0
    ensures IsRgbPixel(BlendPixel(s, d, w))
    ensures s == d ==> BlendPixel(s, d, w) == d
  {
    var p := BlendPixel(s, d, w);
    forall ch | 0 <= ch < Channels ensures IsByte(p[ch]) && (s == d ==> p[ch] == d[ch]) {
    }
  }

  /** What `blendImages` leaves at position (r, c) of `dst`. */
  ghost predicate BlendedAt(src: Image, dst: Image, mask: Grid<real>,
                            distance: (seq<(int, int)>, (int, int)) -> real, out: Image, r: nat, c: nat)
    requires Inside(Where(mask), src) && Inside(Where(mask), dst) && IsRgb(src) && IsRgb(dst)
    requires Where(mask) != [] && Feather(Where(mask)) != 0.0
    requires r < |dst| && c < |dst[r]| && SameShape(dst, out)
  {
    var ps := Where(mask);
    WhereMembers(mask, Pos(r, c));
    if InGrid(mask, Pos(r, c)) && mask[r][c] != 0.0 then
      out[r][c] == BlendPixel(src[r][c], dst[r][c], Weight(distance(MaskPoints(ps), (c, r)), Feather(ps)))
    else
      out[r][c] == dst[r][c]
  }

  /** The masked pixels written by `blendImages`, one per listed position. */
  ghost predicate BlendValues(src: Image, dst: Image, mask: Grid<real>,
                              distance: (seq<(int, int)>, (int, int)) -> real, vals: seq<Pixel>)
    requires Inside(Where(mask), src) && Inside(Where(mask), dst) && IsRgb(src) && IsRgb(dst)
    requires Where(mask) != [] && Feather(Where(mask)) != 0.0
  {
    var ps := Where(mask);
    && |vals| == |ps|
    && forall k :: 0 <= k < |ps| ==>
      vals[k] == BlendPixel(src[ps[k].row][ps[k].col], dst[ps[k].row][ps[k].col],
                            Weight(distance(MaskPoints(ps), MaskPoint(ps[k])), Feather(ps)))
  }

  /** Scattering the blended values over a copy of `dst` gives the result
      `BlendedAt` describes at every position. */
  lemma BlendedEverywhere(src: Image, dst: Image, mask: Grid<real>,
                          distance: (seq<(int, int)>, (int, int)) -> real, vals: seq<Pixel>, out: Image)
    requires Inside(Where(mask), src) && Inside(Where(mask), dst) && IsRgb(src) && IsRgb(dst)
    requires Where(mask) != [] && Feather(Where(mask)) != 0.0
    requires BlendValues(src, dst, mask, distance, vals)
    requires SameShape(dst, out)
    requires forall k :: 0 <= k < |Where(mask)| ==> out[Where(mask)[k].row][Where(mask)[k].col] == vals[k]
    requires forall r, c :: 0 <= r < |dst| && 0 <= c < |dst[r]| && Pos(r, c) !in Where(mask) ==> out[r][c] == dst[r][c]
    ensures IsRgb(out)
    ensures forall i, j :: 0 <= i < |dst| && 0 <= j < |dst[i]| ==> BlendedAt(src, dst, mask, distance, out, i, j)
  {
    var ps := Where(mask);
    forall i, j | 0 <= i < |dst| && 0 <= j < |dst[i]|
      ensures BlendedAt(src, dst, mask, distance, out, i, j) && IsRgbPixel(out[i][j])
    {
      WhereMembers(mask, Pos(i, j));
      if Pos(i, j) in ps {
        var k :| 0 <= k < |ps| && ps[k] == Pos(i, j);
        assert out[i][j] == vals[k];
        BlendPixelBounds(src[i][j], dst[i][j], Weight(distance(MaskPoints(ps), (j, i)), Feather(ps)));
      }
    }
  }

  /** The `dists` loop of `blendImages`: a zero-filled array whose entry `i`
      becomes the signed distance of mask point `i` to the hull of all mask points. */
  method HullDistances(pts: seq<(int, int)>, distance: (seq<(int, int)>, (int, int)) -> real)
    returns (ds: seq<real>)
    ensures |ds| == |pts|
    ensures forall k :: 0 <= k < |pts| ==> ds[k] == distance(pts, pts[k])
  {
    var dists := new real[|pts|](_ => 0.0);
    for i := 0 to |pts|
      invariant forall k :: 0 <= k < i ==> dists[k] == distance(pts, pts[k])
    {
      dists[i] := distance(pts, pts[i]);
    }
    ds := dists[..];
  }

  /** `blendImages(src, dst, mask)`. `distance(pts, p)` is
      `cv2.pointPolygonTest` of `p` against the convex hull of `pts`. An
      empty mask makes `np.max` raise; a one-pixel mask has feather 0,
      whose weights numpy computes as NaN. */
  method BlendImages(src: Image, dst: Image, mask: Grid<real>, distance: (seq<(int, int)>, (int, int)) -> real)
    returns (r: Result<Image>)
    requires IsRgb(src) && IsRgb(dst)
    ensures r == Failure(EmptyMask) <==> Where(mask) == []
    ensures r.Failure? ==> r.error == EmptyMask || r.error == ZeroFeather || r.error == IndexOutOfBounds
    ensures r == Failure(ZeroFeather) <==> Where(mask) != [] && Feather(Where(mask)) == 0.0
    ensures r == Failure(IndexOutOfBounds) <==>
      Where(mask) != [] && Feather(Where(mask)) != 0.0 && !(Inside(Where(mask), src) && Inside(Where(mask), dst))
    ensures r.Success? ==>
      && Where(mask) != [] && Feather(Where(mask)) != 0.0
      && Inside(Where(mask), src) && Inside(Where(mask), dst)
      && SameShape(dst, r.value) && IsRgb(r.value)
      && forall i, j :: 0 <= i < |dst| && 0 <= j < |dst[i]| ==> BlendedAt(src, dst, mask, distance, r.value, i, j)
  {
    var ps := Where(mask);
    if ps == [] {
      return Failure(EmptyMask);
    }
    var feather := Feather(ps);
    var pts := MaskPoints(ps);
    var ds := HullDistances(pts, distance);
    if feather == 0.0 {
      return Failure(ZeroFeather);
    }
    if !Inside(ps, src) || !Inside(ps, dst) {
      return Failure(IndexOutOfBounds);
    }
    var vals := seq(|ps|, k requires 0 <= k < |ps| =>
      BlendPixel(src[ps[k].row][ps[k].col], dst[ps[k].row][ps[k].col], Weight(ds[k], feather)));
    assert BlendValues(src, dst, mask, distance, vals);
    WhereOrdered(mask);
    var out := Scatter(dst, ps, vals);
    BlendedEverywhere(src, dst, mask, distance, vals, out);
    return Success(out);
  }
}
