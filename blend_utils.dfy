/** The landmark helpers of `data/processing/blend_utils/utils.py`: the table of
    face regions of the 68-point layout, the dlib-rectangle to (x, y, w, h)
    conversion, and the copy of a detector's shape into a 68 x 2 coordinate
    array. */
module BlendUtils {
  import opened Common

  /** The number of points of the 68-point landmark layout. */
  const PointCount: nat := 68

  /** One entry of the region table: a name and a half-open index range. */
  datatype Region = Region(name: string, start: nat, end: nat)

  /** `FACIAL_LANDMARKS_IDXS`, in the insertion order of the OrderedDict. */
  const FacialLandmarksIdxs: seq<Region> := [
    Region("mouth", 48, 68),
    Region("right_eyebrow", 17, 22),
    Region("left_eyebrow", 22, 27),
    Region("right_eye", 36, 42),
    Region("left_eye", 42, 48),
    Region("nose", 27, 36),
    Region("jaw", 0, 17)
  ]

  /** Point `i` belongs to region `k` of the table. */
  predicate InRegion(k: nat, i: int)
    requires k < |FacialLandmarksIdxs|
  {
    FacialLandmarksIdxs[k].start <= i < FacialLandmarksIdxs[k].end
  }

  /** `i` is an index of the 68-point layout. */
  predicate IsLayoutIndex(i: int) {
    0 <= i < PointCount
  }

  /** Some region of the table contains `i`. */
  ghost predicate Covered(i: int) {
    exists k :: 0 <= k < |FacialLandmarksIdxs| && InRegion(k, i)
  }

  /** The set of point indices that region `k` names. */
  function RegionPoints(k: nat): (s: set<int>)
    requires k < |FacialLandmarksIdxs|
    ensures forall i :: i in s <==> InRegion(k, i)
  {
    set i | FacialLandmarksIdxs[k].start <= i < FacialLandmarksIdxs[k].end && InRegion(k, i)
  }

  /** The region a landmark index falls in (the regions do not overlap, so
      there is at most one), or none when the index is outside the layout. */
  function RegionOf(i: int): (k: Option<nat>)
    ensures k.Some? ==> k.value < |FacialLandmarksIdxs| && InRegion(k.value, i)
    ensures k.None? ==> forall k' :: 0 <= k' < |FacialLandmarksIdxs| ==> !InRegion(k', i)
  {
    if 0 <= i < 17 then Some(6)
    else if 17 <= i < 22 then Some(1)
    else if 22 <= i < 27 then Some(2)
    else if 27 <= i < 36 then Some(5)
    else if 36 <= i < 42 then Some(3)
    else if 42 <= i < 48 then Some(4)
    else if 48 <= i < 68 then Some(0)
    else None
  }

  /** Every region of the table is a non-empty half-open range. */
  lemma RegionsNonEmpty()
    ensures forall k :: 0 <= k < |FacialLandmarksIdxs| ==>
      FacialLandmarksIdxs[k].start < FacialLandmarksIdxs[k].end
  {
  }

  /** No landmark index lies in two regions. */
  lemma RegionsDisjoint()
    ensures forall k1, k2, i :: 0 <= k1 < k2 < |FacialLandmarksIdxs| ==>
      !(InRegion(k1, i) && InRegion(k2, i))
  {
  }

  /** The regions together cover exactly the indices 0 .. 67. */
  lemma {:induction false} RegionsCoverLayout()
    ensures forall i :: IsLayoutIndex(i) <==> Covered(i)
  {
    forall i ensures IsLayoutIndex(i) <==> Covered(i) {
      var k := RegionOf(i);
      if k.Some? {
        assert InRegion(k.value, i);
      }
    }
  }

  /** The union of the seven region sets. */
  function AllRegionPoints(): set<int> {
    RegionPoints(0) + RegionPoints(1) + RegionPoints(2) + RegionPoints(3)
      + RegionPoints(4) + RegionPoints(5) + RegionPoints(6)
  }

  /** The union of the seven region sets is the set {0, ..., 67}. */
  lemma {:induction false} RegionUnionIsLayout()
    ensures forall i :: i in AllRegionPoints() <==> IsLayoutIndex(i)
  {
    RegionsCoverLayout();
    forall i ensures i in AllRegionPoints() <==> Covered(i) {
      if Covered(i) {
        var k :| 0 <= k < |FacialLandmarksIdxs| && InRegion(k, i);
        assert i in RegionPoints(k);
      }
    }
  }

  /** The table keeps its insertion order: mouth first, jaw last, and the
      names are those of the seven regions, each once. */
  lemma RegionOrder()
    ensures |FacialLandmarksIdxs| == 7
    ensures FacialLandmarksIdxs[0].name == "mouth"
    ensures FacialLandmarksIdxs[|FacialLandmarksIdxs| - 1].name == "jaw"
    ensures forall k1, k2 :: 0 <= k1 < k2 < |FacialLandmarksIdxs| ==>
      FacialLandmarksIdxs[k1].name != FacialLandmarksIdxs[k2].name
  {
  }

  /** A dlib rectangle, given by its four edges. */
  datatype Rect = Rect(left: int, top: int, right: int, bottom: int)

  /** An OpenCV-style box: top-left corner, width and height. */
  datatype BoundingBox = BoundingBox(x: int, y: int, w: int, h: int)

  /** `rect_to_bb`: the box keeps the top-left corner and spans to the
      rectangle's right and bottom edges. */
  function RectToBb(rect: Rect): (bb: BoundingBox)
    ensures bb.x == rect.left && bb.y == rect.top
    ensures bb.x + bb.w == rect.right && bb.y + bb.h == rect.bottom
    ensures bb.w >= 0 <==> rect.right >= rect.left
    ensures bb.h >= 0 <==> rect.bottom >= rect.top
  {
    BoundingBox(rect.left, rect.top, rect.right - rect.left, rect.bottom - rect.top)
  }

  /** The rectangle whose edges a box describes. */
  function BbToRect(bb: BoundingBox): (rect: Rect)
    ensures rect.right - rect.left == bb.w && rect.bottom - rect.top == bb.h
  {
    Rect(bb.x, bb.y, bb.x + bb.w, bb.y + bb.h)
  }

  /** Converting to a box loses nothing: both round trips are the identity. */
  lemma RectBbRoundTrip(rect: Rect, bb: BoundingBox)
    ensures BbToRect(RectToBb(rect)) == rect
    ensures RectToBb(BbToRect(bb)) == bb
  {
  }

  /** A point of a dlib full_object_detection: integer pixel coordinates. */
  datatype DlibPoint = DlibPoint(x: int, y: int)

  /** What `shape_to_np` may receive: an ndarray already (its rows), or a dlib
      shape, seen only through `shape.part(i)`. */
  datatype LandmarkShape =
    | NdArray(rows: seq<seq<real>>)
    | DlibShape(part: int -> DlibPoint)

  /** numpy's cast of a float to an integer type: truncation toward zero. */
  function TruncateToInt(v: real): (n: int)
    ensures 0.0 <= v ==> 0 <= n && n as real <= v < n as real + 1.0
    ensures v < 0.0 ==> n <= 0 && n as real - 1.0 < v <= n as real
  {
    if v >= 0.0 then v.Floor else -((-v).Floor)
  }

  /** `shape_to_np` with the default integer dtype. An ndarray is only cast,
      element by element, keeping its shape; a dlib shape is copied into a
      fresh 68 x 2 array whose row `i` holds `part(i).x, part(i).y`. */
  method ShapeToNp(shape: LandmarkShape) returns (coords: seq<seq<int>>)
    ensures shape.NdArray? ==>
      |coords| == |shape.rows| &&
      forall i :: 0 <= i < |coords| ==>
        |coords[i]| == |shape.rows[i]| &&
        forall j :: 0 <= j < |coords[i]| ==> coords[i][j] == TruncateToInt(shape.rows[i][j])
    ensures shape.DlibShape? ==>
      IsGrid(coords, PointCount, 2) &&
      forall i :: 0 <= i < PointCount ==> coords[i] == [shape.part(i).x, shape.part(i).y]
  {
    if shape.NdArray? {
      var rows := shape.rows;
      coords := seq(|rows|, i requires 0 <= i < |rows| =>
        seq(|rows[i]|, j requires 0 <= j < |rows[i]| => TruncateToInt(rows[i][j])));
      return;
    }
    var a := new int[PointCount, 2];
    for i := 0 to PointCount
      invariant forall k :: 0 <= k < i ==> a[k, 0] == shape.part(k).x && a[k, 1] == shape.part(k).y
    {
      a[i, 0], a[i, 1] := shape.part(i).x, shape.part(i).y;
    }
    coords := seq(PointCount, i requires 0 <= i < PointCount reads a => [a[i, 0], a[i, 1]]);
  }
}
