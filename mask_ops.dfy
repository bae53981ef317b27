/** The mask helpers of `I2GDataset`: `random_get_hull`, which picks one of
    four face-hull constructors and scales its 0..255 mask to 0..1, and
    `random_erode_dilate`, which erodes or dilates a mask with a square
    kernel of odd size. The hull constructors and the morphology operators
    are library code and come in as functions. */
module MaskOps {
  import opened Common
  import opened BlendUtils
  import opened LandmarkCache

  /** The four mask constructors `random_get_hull` chooses from. */
  datatype HullKind = DflFull | Extended | Components | FaceHull

  /** `hull_type` of `random.choice([0, 1, 2, 3])` names a constructor. */
  function HullKindOf(hullType: int): (k: HullKind)
    requires 0 <= hullType <= 3
  {
    match hullType
    case 0 => DflFull
    case 1 => Extended
    case 2 => Components
    case _ => FaceHull
  }

  /** The four choices name four different constructors. */
  lemma HullKindOfInjective(t1: int, t2: int)
    requires 0 <= t1 <= 3 && 0 <= t2 <= 3
    ensures HullKindOf(t1) == HullKindOf(t2) <==> t1 == t2
  {
  }

  /** A landmark point cast with `astype('int32')`: each coordinate truncated toward zero. */
  function IntPoint(p: Point): (q: (int, int)) {
    (TruncateToInt(p.x), TruncateToInt(p.y))
  }

  /** The landmark array cast to `int32`. */
  function IntLandmarks(landmark: Landmarks): (pts: seq<(int, int)>)
    ensures |pts| == |landmark|
  {
    seq(|landmark|, i requires 0 <= i < |landmark| => IntPoint(landmark[i]))
  }

  /** `mask / 255` on an integer mask. */
  function Scale(m: Grid<int>): (r: Grid<real>)
    ensures |r| == |m|
    ensures forall i :: 0 <= i < |m| ==> |r[i]| == |m[i]|
  {
    seq(|m|, i requires 0 <= i < |m| => seq(|m[i]|, j requires 0 <= j < |m[i]| => m[i][j] as real / 255.0))
  }

  /** Every value of `m` is a byte. */
  ghost predicate ByteGrid(m: Grid<int>) {
    forall i, j :: 0 <= i < |m| && 0 <= j < |m[i]| ==> IsByte(m[i][j])
  }

  /** Every value of `m` lies in [0, 1]. */
  ghost predicate UnitGrid(m: Grid<real>) {
    forall i, j :: 0 <= i < |m| && 0 <= j < |m[i]| ==> 0.0 <= m[i][j] <= 1.0
  }

  /** Scaling a byte mask by 1/255 gives a mask in [0, 1] that is zero
      exactly where the byte mask is zero. */
  lemma ScaleUnit(m: Grid<int>)
    requires ByteGrid(m)
    ensures UnitGrid(Scale(m))
    ensures forall i, j :: 0 <= i < |m| && 0 <= j < |m[i]| ==> (Scale(m)[i][j] == 0.0 <==> m[i][j] == 0)
  {
  }

  /** `random_get_hull(landmark, img1)` with the draw `hullType`: the mask of
      the chosen constructor, built from the integer landmarks and the face,
      divided by 255. */
  function RandomGetHull(landmark: Landmarks, face: Image, hullType: int,
                         hull: (HullKind, seq<(int, int)>, Image) -> Grid<int>): (m: Grid<real>)
    requires 0 <= hullType <= 3
    ensures var built := hull(HullKindOf(hullType), IntLandmarks(landmark), face);
      && |m| == |built|
      && (forall i :: 0 <= i < |m| ==> |m[i]| == |built[i]|)
      && forall i, j :: 0 <= i < |m| && 0 <= j < |built[i]| ==> j < |m[i]| && m[i][j] * 255.0 == built[i][j] as real
  {
    Scale(hull(HullKindOf(hullType), IntLandmarks(landmark), face))
  }

  /** The largest kernel size `random_erode_dilate` draws for erosion and for dilation. */
  const MaxErodeSize: int := 21
  const MaxDilateSize: int := 5

  predicate Odd(n: int) {
    n % 2 == 1
  }

  /** The kernel size of `random_erode_dilate`: the caller's `ksize` or the
      draw, made odd by adding one to an even size. */
  function KernelSize(ksize: Option<int>, draw: int): (k: int)
    ensures Odd(k)
    ensures k == (if ksize.Some? then ksize.value else draw) || k == (if ksize.Some? then ksize.value else draw) + 1
  {
    var size := if ksize.Some? then ksize.value else draw;
    if size % 2 == 0 then size + 1 else size
  }

  /** An even size is bumped by exactly one; an odd size is kept. */
  lemma KernelSizeParity(ksize: int, draw: int)
    ensures ksize % 2 == 0 ==> KernelSize(Some(ksize), draw) == ksize + 1
    ensures ksize % 2 != 0 ==> KernelSize(Some(ksize), draw) == ksize
  {
  }

  /** A drawn size in [1, hi], hi odd, gives an odd kernel size in [1, hi]. */
  lemma KernelSizeDrawn(draw: int, hi: int)
    requires 1 <= draw <= hi && Odd(hi)
    ensures 1 <= KernelSize(None, draw) <= hi && Odd(KernelSize(None, draw))
  {
  }

  /** The erosion branch is taken when the coin from `random.random()` is above one half. */
  predicate Erodes(coin: real) {
    coin > 0.5
  }

  /** `np.array(mask).astype(np.uint8) * 255`: each value truncated into a
      byte, then multiplied by 255 with `uint8` wrap-around. */
  function MaskBytes(mask: Grid<real>): (b: Grid<int>)
    ensures |b| == |mask| && forall i :: 0 <= i < |b| ==> |b[i]| == |mask[i]|
    ensures ByteGrid(b)
  {
    seq(|mask|, i requires 0 <= i < |mask| =>
      seq(|mask[i]|, j requires 0 <= j < |mask[i]| => (TruncateToInt(mask[i][j]) % 256) * 255 % 256))
  }

  /** A mask with values in [0, 1) turns into 0 and a mask value of 1 into 255. */
  lemma MaskBytesBinary(mask: Grid<real>, i: nat, j: nat)
    requires i < |mask| && j < |mask[i]|
    ensures 0.0 <= mask[i][j] < 1.0 ==> MaskBytes(mask)[i][j] == 0
    ensures mask[i][j] == 1.0 ==> MaskBytes(mask)[i][j] == 255
  {
  }

  /** `random_erode_dilate(mask, ksize)` with the coin of `random.random()`
      and the size drawn by `random.randint` (1..21 for erosion, 1..5 for
      dilation); it returns the new mask and the kernel size used. A
      negative kernel size makes `np.ones` raise. */
  function RandomErodeDilate(mask: Grid<real>, ksize: Option<int>, coin: real, draw: int,
                             erode: (Grid<int>, int) -> Grid<int>,
                             dilate: (Grid<int>, int) -> Grid<int>): (r: Result<(Grid<real>, int)>)
    requires ksize.None? && Erodes(coin) ==> 1 <= draw <= MaxErodeSize
    requires ksize.None? && !Erodes(coin) ==> 1 <= draw <= MaxDilateSize
    ensures r.Failure? <==> ksize.Some? && ksize.value < 0
    ensures r.Failure? ==> r.error == NegativeDimensions
    ensures r.Success? ==> Odd(r.value.1) && 1 <= r.value.1
    ensures ksize.None? && Erodes(coin) ==> r.Success? && r.value.1 <= MaxErodeSize
    ensures ksize.None? && !Erodes(coin) ==> r.Success? && r.value.1 <= MaxDilateSize
    ensures r.Success? && ksize.Some? ==> r.value.1 == ksize.value || r.value.1 == ksize.value + 1
    ensures r.Success? ==>
      r.value.0 == Scale(if Erodes(coin) then erode(MaskBytes(mask), r.value.1) else dilate(MaskBytes(mask), r.value.1))
  {
    var k := KernelSize(ksize, draw);
    if k < 0 then Failure(NegativeDimensions)
    else if Erodes(coin) then Success((Scale(erode(MaskBytes(mask), k)), k))
    else Success((Scale(dilate(MaskBytes(mask), k)), k))
  }

  /** With byte-valued operators the new mask lies in [0, 1]. */
  lemma RandomErodeDilateUnit(mask: Grid<real>, ksize: Option<int>, coin: real, draw: int,
                              erode: (Grid<int>, int) -> Grid<int>,
                              dilate: (Grid<int>, int) -> Grid<int>)
    requires ksize.None? && Erodes(coin) ==> 1 <= draw <= MaxErodeSize
    requires ksize.None? && !Erodes(coin) ==> 1 <= draw <= MaxDilateSize
    requires forall g, k :: ByteGrid(erode(g, k)) && ByteGrid(dilate(g, k))
    ensures var r := RandomErodeDilate(mask, ksize, coin, draw, erode, dilate);
      r.Success? ==> UnitGrid(r.value.0)
  {
    var r := RandomErodeDilate(mask, ksize, coin, draw, erode, dilate);
    if r.Success? {
      ScaleUnit(if Erodes(coin) then erode(MaskBytes(mask), r.value.1) else dilate(MaskBytes(mask), r.value.1));
    }
  }
}
