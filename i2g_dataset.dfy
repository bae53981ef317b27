/** The `I2GDataset` of data/I2G_dataset.py: construction (landmark cache,
    capped frame list, pipelines), the synthetic forgery of
    `get_blended_face`, and the sample assembly of `gen_datapoint_from`.
    Randomness comes in as the outcomes of the draws, and library code
    (image reading, resizing, JPEG, elastic deformation, hull geometry) as
    functions. */
module I2GDataset {
  import opened Common
  import opened LandmarkCache
  import opened Transforms
  import opened CandidateSearch
  import opened MaskOps
  import opened Blending

  /** The library functions the dataset calls. */
  datatype Library = Library(
    readImage: string -> Option<Image>,                       // io.imread; None when it raises
    hull: (HullKind, seq<(int, int)>, Image) -> Grid<int>,    // the DeepFakeMask constructors' `.mask`
    norm: (real, real) -> real,                               // np.linalg.norm of one row
    distance: (seq<(int, int)>, (int, int)) -> real,          // cv2.convexHull + cv2.pointPolygonTest
    deform: Grid<real> -> Grid<real>,                         // elasticdeform + cv2.GaussianBlur
    resizeImage: (Image, nat) -> Image,                       // PIL bilinear resize to size x size
    resizeMask: (Grid<real>, nat) -> Grid<real>,              // the same on a float mask
    jpeg: (Image, int) -> Image)                              // cv2.imencode + cv2.imdecode

  ghost predicate ValidLibrary(lib: Library) {
    && IsNorm(lib.norm)
    && forall path :: lib.readImage(path).Some? ==> IsRgb(lib.readImage(path).value)
  }

  /** The outcomes of the `random` calls of one sample. */
  datatype Draws = Draws(
    realCoin: int,        // random.randint(0, 1) choosing real or fake
    picks: seq<nat>,      // random.sample of the 50 candidates, as positions in the frame list
    hullType: int,        // random.choice([0, 1, 2, 3])
    jpegCoin: int,        // random.randint(0, 1) choosing the JPEG round trip
    quality: int,         // random.randint(60, 100)
    flipCoin: int)        // random.randint(0, 1) choosing the flip

  ghost predicate ValidDraws(d: Draws, population: nat) {
    && 0 <= d.realCoin <= 1 && 0 <= d.jpegCoin <= 1 && 0 <= d.flipCoin <= 1
    && 0 <= d.hullType <= 3
    && 60 <= d.quality <= 100
    && (SampleNum <= population ==> IsSampleOutcome(d.picks, population, SampleNum))
  }

  /** The fields `__init__` sets and the sample generator reads. */
  datatype Dataset = Dataset(
    dirReal: string,
    record: map<string, Landmarks>,
    dataList: seq<string>,
    dataSize: nat,
    transform: seq<Step>,
    maskTransform: seq<Step>,
    opt: Options)

  /** Every frame of the list has landmarks. */
  ghost predicate ValidDataset(ds: Dataset) {
    && ds.dataSize == |ds.dataList|
    && Distinct(ds.dataList)
    && forall p :: p in ds.dataList ==> p in ds.record
  }

  /** The cap of `__init__`: more keys than `max_dataset_size` are replaced
      by a random sample of that many (`picks`); `random.sample` raises for
      a negative size. */
  function CapDataList(keys: seq<string>, maxSize: int, picks: seq<nat>): (r: Result<seq<string>>)
    requires 0 <= maxSize < |keys| ==> IsSampleOutcome(picks, |keys|, maxSize)
    ensures r.Failure? <==> maxSize < 0
    ensures r.Failure? ==> r.error == NegativeSampleSize
    ensures r.Success? ==> |r.value| <= maxSize
    ensures r.Success? ==> forall x :: x in r.value ==> x in keys
    ensures |keys| <= maxSize ==> r == Success(keys)
    ensures 0 <= maxSize < |keys| ==> r.Success? && |r.value| == maxSize
  {
    if |keys| > maxSize then RandomSample(keys, maxSize, picks) else Success(keys)
  }

  /** A capped list of distinct keys has no repetitions. */
  lemma CapDataListDistinct(keys: seq<string>, maxSize: int, picks: seq<nat>)
    requires 0 <= maxSize < |keys| ==> IsSampleOutcome(picks, |keys|, maxSize)
    requires Distinct(keys)
    ensures CapDataList(keys, maxSize, picks).Success? ==> Distinct(CapDataList(keys, maxSize, picks).value)
  {
    if |keys| > maxSize {
      SampleDistinct(keys, maxSize, picks);
    }
  }

  /** Every cache file on disk holds a well-formed dict (pickle keeps one). */
  ghost predicate ValidDisk(disk: Disk) {
    forall c :: c in disk.caches ==> ValidRecord(disk.caches[c])
  }

  /** `I2GDataset(opt, dir_real, is_val)`: build or find the landmark cache,
      load it, take its keys as the frame list, cap the list, and set up the
      image and mask pipelines. `sampleDraw(n)` is the outcome of
      `random.sample` over a population of `n` keys. */
  method Init(opt: Options, dirReal: string, isVal: bool, disk: Disk, walk: seq<WalkEntry>,
              isImage: string -> bool, detect: string -> Option<Detection>, sampleDraw: nat -> seq<nat>)
    returns (r: Result<(Dataset, Disk)>)
    requires ValidDisk(disk)
    requires forall n: nat :: 0 <= opt.maxDatasetSize < n ==> IsSampleOutcome(sampleDraw(n), n, opt.maxDatasetSize)
    ensures r.Success? ==> ValidDataset(r.value.0) && ValidDisk(r.value.1)
    ensures r.Success? ==> r.value.0.dataSize <= opt.maxDatasetSize
    ensures r.Success? ==> CachePath(dirReal) in r.value.1.caches && r.value.1.dirs == disk.dirs
    ensures r.Success? ==> r.value.0.record == r.value.1.caches[CachePath(dirReal)].points
    ensures r.Success? ==> var rec := r.value.1.caches[CachePath(dirReal)];
      && (|rec.keys| <= opt.maxDatasetSize ==> r.value.0.dataList == rec.keys)
      && (|rec.keys| > opt.maxDatasetSize ==> |r.value.0.dataList| == opt.maxDatasetSize)
    ensures r.Success? && CachePath(dirReal) in disk.caches ==> r.value.1 == disk
    ensures r.Success? ==> r.value.0.maskTransform == [Resize(opt.loadSize), CenterCrop(opt.fineSize), ToTensor]
    ensures r.Success? && !isVal ==> r.value.0.transform == [Resize(opt.loadSize), CenterCrop(opt.fineSize), ToTensor]
    ensures dirReal !in disk.dirs ==> r == Failure(NotADirectory(dirReal))
    ensures dirReal in disk.dirs ==>
      (r.Failure? <==>
        || (CachePath(dirReal) !in disk.caches && RecordFrom(Files(walk), isImage, detect).Failure?)
        || opt.maxDatasetSize < 0
        || (isVal && LevelMissing(opt)))
    ensures r.Success? && CachePath(dirReal) !in disk.caches ==>
      r.value.1 == disk.(caches := disk.caches[CachePath(dirReal) := RecordFrom(Files(walk), isImage, detect).value])
    ensures r.Success? && isVal ==>
      var t := r.value.0.transform;
      && !LevelMissing(opt)
      && |t| == 3 + EnabledCount(opt)
      && t[..2] == [Resize(opt.loadSize), CenterCrop(opt.loadSize)]
      && TestAugmentationsFor(opt, t[2..|t| - 1])
      && EndsInToTensor(t)
  {
    var generated := GenerateLandmarkFile(dirReal, disk, walk, isImage, detect);
    if generated.Failure? {
      return Failure(generated.error);
    }
    var (cache, disk') := generated.value;
    if cache !in disk.caches {
      RecordFromValid(Files(walk), isImage, detect);
    }
    var rec := disk'.caches[cache];
    assert ValidRecord(rec);
    var picks := sampleDraw(|rec.keys|);
    var dataList :- CapDataList(rec.keys, opt.maxDatasetSize, picks);
    CapDataListDistinct(rec.keys, opt.maxDatasetSize, picks);
    var transform :- GetTransform(opt, isVal);
    var maskTransform := GetMaskTransform(opt, isVal);
    return Success((Dataset(dirReal, rec.points, dataList, |dataList|, transform, maskTransform, opt), disk'));
  }

  /** `mask * 255` on a mask with values in [0, 1]. */
  function Times255(m: Grid<real>): (r: Grid<real>)
    ensures SameShape(m, r)
    ensures forall i, j :: 0 <= i < |m| && 0 <= j < |m[i]| ==> (r[i][j] == 0.0 <==> m[i][j] == 0.0)
  {
    seq(|m|, i requires 0 <= i < |m| => seq(|m[i]|, j requires 0 <= j < |m[i]| => m[i][j] * 255.0))
  }

  /** The donor `search_similar_face` returns: among the survivors of the
      draw, the first one at the smallest distance below the sentinel. */
  ghost predicate ClosestDonor(ds: Dataset, path: string, lib: Library, draws: Draws, donor: string)
    requires ValidDataset(ds) && ValidLibrary(lib) && ValidDraws(draws, |ds.dataList|)
    requires path in ds.record && SampleNum <= |ds.dataList|
  {
    var cands := Survivors(RandomSample(ds.dataList, SampleNum, draws.picks).value, path);
    var dists := Distances(cands, ds.record, ds.record[path], lib.norm);
    && dists.Success?
    && exists i :: 0 <= i < |cands| && cands[i] == donor && IsFirstMin(dists.value, i, Sentinel)
  }

  /** At most one frame is the closest donor: the first minimum is unique. */
  lemma ClosestDonorUnique(ds: Dataset, path: string, lib: Library, draws: Draws, d1: string, d2: string)
    requires ValidDataset(ds) && ValidLibrary(lib) && ValidDraws(draws, |ds.dataList|)
    requires path in ds.record && SampleNum <= |ds.dataList|
    requires ClosestDonor(ds, path, lib, draws, d1) && ClosestDonor(ds, path, lib, draws, d2)
    ensures d1 == d2
  {
    var cands := Survivors(RandomSample(ds.dataList, SampleNum, draws.picks).value, path);
    var dists := Distances(cands, ds.record, ds.record[path], lib.norm);
    var i1 :| 0 <= i1 < |cands| && cands[i1] == d1 && IsFirstMin(dists.value, i1, Sentinel);
    var i2 :| 0 <= i2 < |cands| && cands[i2] == d2 && IsFirstMin(dists.value, i2, Sentinel);
    FirstMinUnique(dists.value, i1, i2, Sentinel);
  }

  /** When `search_similar_face` raises on a frame list of at least 50: a
      landmark array that does not broadcast, or no survivor closer than
      the sentinel, which leaves `min_path` unbound. */
  ghost predicate SearchFails(ds: Dataset, path: string, lib: Library, draws: Draws)
    requires ValidDataset(ds) && ValidLibrary(lib) && ValidDraws(draws, |ds.dataList|)
    requires path in ds.record && SampleNum <= |ds.dataList|
  {
    var cands := Survivors(RandomSample(ds.dataList, SampleNum, draws.picks).value, path);
    var dists := Distances(cands, ds.record, ds.record[path], lib.norm);
    || dists.Failure?
    || forall j :: 0 <= j < |dists.value| ==> dists.value[j] >= Sentinel
  }

  /** When the steps after the search raise for a given donor: its frame
      cannot be read, or the image steps raise on the hull mask of the
      background. */
  ghost predicate DonorFails(ds: Dataset, path: string, lib: Library, draws: Draws, background: Image, donor: string)
    requires ValidDraws(draws, |ds.dataList|) && path in ds.record
  {
    var read := lib.readImage(Join(ds.dirReal, donor));
    || read.None?
    || ForgeFails(background, read.value, RandomGetHull(ds.record[path], background, draws.hullType, lib.hull))
  }

  /** When `get_blended_face(path)` raises, in the order of its steps. */
  ghost predicate BlendFails(ds: Dataset, path: string, lib: Library, draws: Draws)
    requires ValidDataset(ds) && ValidLibrary(lib) && ValidDraws(draws, |ds.dataList|)
    requires path in ds.record
  {
    var read := lib.readImage(Join(ds.dirReal, path));
    || read.None?
    || |ds.dataList| < SampleNum
    || SearchFails(ds, path, lib, draws)
    || exists donor :: ClosestDonor(ds, path, lib, draws, donor) && DonorFails(ds, path, lib, draws, read.value, donor)
  }

  /** The two image steps of `get_blended_face` on a background, a donor
      face and the scaled hull mask: `colorTransfer` moves the donor's masked
      pixels to the background's mean colour (`corrected`), and
      `blendImages` feathers the corrected donor into the background
      (`blended`). */
  ghost predicate Forged(background: Image, foreground: Image, scaled: Grid<real>,
                         distance: (seq<(int, int)>, (int, int)) -> real, corrected: Image, blended: Image)
  {
    && IsRgb(background) && IsRgb(foreground)
    && Inside(Where(scaled), background) && Inside(Where(scaled), foreground)
    && SameShape(foreground, corrected) && IsRgb(corrected)
    && (forall i, j :: 0 <= i < |foreground| && 0 <= j < |foreground[i]| ==>
          TransferredAt(background, foreground, scaled, corrected, i, j))
    && Where(scaled) != [] && Feather(Where(scaled)) != 0.0 && Inside(Where(scaled), corrected)
    && SameShape(background, blended) && IsRgb(blended)
    && (forall i, j :: 0 <= i < |background| && 0 <= j < |background[i]| ==>
          BlendedAt(corrected, background, scaled, distance, blended, i, j))
  }

  /** `out` has the background's shape and equals it wherever `mask` is zero
      or has no entry. */
  ghost predicate KeepsBackground(background: Image, mask: Grid<real>, out: Image) {
    && SameShape(background, out)
    && forall i, j :: 0 <= i < |background| && 0 <= j < |background[i]| ==>
         !(InGrid(mask, Pos(i, j)) && mask[i][j] != 0.0) ==> out[i][j] == background[i][j]
  }

  /** When the image steps of `get_blended_face` raise: the scaled hull mask
      is empty (`np.max` in `blendImages`), covers a single pixel (a zero
      feather), or lists a position outside the background or the donor. */
  predicate ForgeFails(background: Image, foreground: Image, mask: Grid<real>) {
    var ps := Where(Times255(mask));
    || ps == []
    || Feather(ps) == 0.0
    || !(Inside(ps, background) && Inside(ps, foreground))
  }

  /** The image steps of `get_blended_face`: `colorTransfer` and then
      `blendImages`, both with the hull mask times 255. Pixels outside the
      hull mask keep the background's value. */
  method ForgeFace(background: Image, foreground: Image, mask: Grid<real>,
                   distance: (seq<(int, int)>, (int, int)) -> real)
    returns (r: Result<Image>, ghost corrected: Image)
    requires IsRgb(background) && IsRgb(foreground)
    ensures r.Failure? <==> ForgeFails(background, foreground, mask)
    ensures r.Failure? ==> r.error == IndexOutOfBounds || r.error == EmptyMask || r.error == ZeroFeather
    ensures r.Success? ==> Forged(background, foreground, Times255(mask), distance, corrected, r.value)
    ensures r.Success? ==> KeepsBackground(background, mask, r.value)
  {
    var scaled := Times255(mask);
    var transferred := ColorTransfer(background, foreground, scaled);
    if transferred.Failure? {
      return Failure(transferred.error), [];
    }
    corrected := transferred.value;
    assert Inside(Where(scaled), corrected);
    var blended := BlendImages(transferred.value, background, scaled, distance);
    if blended.Failure? {
      return Failure(blended.error), corrected;
    }
    forall i, j | 0 <= i < |background| && 0 <= j < |background[i]|
      ensures !(InGrid(mask, Pos(i, j)) && mask[i][j] != 0.0) ==> blended.value[i][j] == background[i][j]
    {
      assert BlendedAt(corrected, background, scaled, distance, blended.value, i, j);
    }
    r := Success(blended.value);
  }

  /** What one forgery is made of: the donor frame, its image, the donor
      after colour transfer, the blended face and the deformed mask. */
  datatype Forgery = Forgery(donor: string, foreground: Image, corrected: Image, blended: Image, mask: Grid<real>)

  /** `f` is the forgery `get_blended_face` builds for `path`: the background
      and the donor were read, the donor is the closest survivor of the draw,
      the images are related by `Forged` through the scaled hull mask, and
      the returned mask is the deformed hull mask. */
  ghost predicate IsForgery(ds: Dataset, path: string, lib: Library, draws: Draws, f: Forgery)
    requires ValidDataset(ds) && ValidLibrary(lib) && ValidDraws(draws, |ds.dataList|)
    requires path in ds.record
  {
    var read := lib.readImage(Join(ds.dirReal, path));
    && read.Some?
    && SampleNum <= |ds.dataList|
    && ClosestDonor(ds, path, lib, draws, f.donor)
    && f.donor in ds.dataList && Session(f.donor) != Session(path)
    && lib.readImage(Join(ds.dirReal, f.donor)) == Some(f.foreground)
    && var hullMask := RandomGetHull(ds.record[path], read.value, draws.hullType, lib.hull);
      && Forged(read.value, f.foreground, Times255(hullMask), lib.distance, f.corrected, f.blended)
      && f.mask == lib.deform(hullMask)
  }

  /** `self.search_similar_face(background_landmark, background_face_path)`
      on the dataset: fails exactly as `SearchFails` says (or on a list of
      fewer than 50 frames), and otherwise returns the closest donor. */
  method FindDonor(ds: Dataset, path: string, lib: Library, draws: Draws) returns (r: Result<string>)
    requires ValidDataset(ds) && ValidLibrary(lib) && ValidDraws(draws, |ds.dataList|)
    requires path in ds.record
    ensures |ds.dataList| < SampleNum ==> r == Failure(SampleLargerThanPopulation)
    ensures SampleNum <= |ds.dataList| ==> (r.Failure? <==> SearchFails(ds, path, lib, draws))
    ensures r.Success? ==> SampleNum <= |ds.dataList| && ClosestDonor(ds, path, lib, draws, r.value)
    ensures r.Success? ==> r.value in ds.dataList && Session(r.value) != Session(path)
    ensures r.Failure? ==> r.error == SampleLargerThanPopulation || r.error == ShapeMismatch || r.error == NoCandidate
  {
    r := SearchSimilarFace(ds.record, ds.dataList, ds.record[path], path, draws.picks, lib.norm);
  }

  /** The steps of `get_blended_face` after the search, for the donor it
      found: read the donor, build the hull mask on the background, and run
      the image steps. */
  method BlendDonor(ds: Dataset, path: string, lib: Library, draws: Draws, background: Image, donor: string)
    returns (r: Result<(Image, Grid<real>)>, ghost f: Forgery)
    requires ValidDataset(ds) && ValidLibrary(lib) && ValidDraws(draws, |ds.dataList|)
    requires path in ds.record && lib.readImage(Join(ds.dirReal, path)) == Some(background)
    requires SampleNum <= |ds.dataList| && ClosestDonor(ds, path, lib, draws, donor)
    requires donor in ds.dataList && Session(donor) != Session(path)
    ensures r.Failure? <==> DonorFails(ds, path, lib, draws, background, donor)
    ensures r.Failure? && r.error.FileNotFound? ==> lib.readImage(r.error.path).None?
    ensures r.Success? ==> IsForgery(ds, path, lib, draws, f) && r.value == (f.blended, f.mask)
    ensures r.Success? ==>
      KeepsBackground(background, RandomGetHull(ds.record[path], background, draws.hullType, lib.hull), r.value.0)
  {
    f := Forgery(donor, [], [], [], []);
    var donorRead := lib.readImage(Join(ds.dirReal, donor));
    if donorRead.None? {
      return Failure(FileNotFound(Join(ds.dirReal, donor))), f;
    }
    var foreground := donorRead.value;
    var mask := RandomGetHull(ds.record[path], background, draws.hullType, lib.hull);
    var blended, corrected := ForgeFace(background, foreground, mask, lib.distance);
    if blended.Failure? {
      return Failure(blended.error), f;
    }
    f := Forgery(donor, foreground, corrected, blended.value, lib.deform(mask));
    return Success((blended.value, lib.deform(mask))), f;
  }

  /** `get_blended_face(background_face_path)`: read the background, find a
      donor frame of another video with close landmarks, read it, build a
      random hull mask from the background's landmarks, colour-correct the
      donor to the background inside the mask, blend the donor into the
      background, and deform and blur the mask. It raises exactly as
      `BlendFails` says. The blended face differs from the background only
      where the hull mask is non-zero. */
  method GetBlendedFace(ds: Dataset, path: string, lib: Library, draws: Draws)
    returns (r: Result<(Image, Grid<real>)>, ghost f: Forgery)
    requires ValidDataset(ds) && ValidLibrary(lib) && ValidDraws(draws, |ds.dataList|)
    requires path in ds.record
    ensures lib.readImage(Join(ds.dirReal, path)).None? ==> r == Failure(FileNotFound(Join(ds.dirReal, path)))
    ensures lib.readImage(Join(ds.dirReal, path)).Some? && |ds.dataList| < SampleNum ==>
      r == Failure(SampleLargerThanPopulation)
    ensures r.Failure? <==> BlendFails(ds, path, lib, draws)
    ensures r.Failure? && r.error.FileNotFound? ==> lib.readImage(r.error.path).None?
    ensures r.Success? ==> IsForgery(ds, path, lib, draws, f) && r.value == (f.blended, f.mask)
    ensures r.Success? ==>
      var background := lib.readImage(Join(ds.dirReal, path)).value;
      KeepsBackground(background, RandomGetHull(ds.record[path], background, draws.hullType, lib.hull), r.value.0)
  {
    f := Forgery(path, [], [], [], []);
    var read := lib.readImage(Join(ds.dirReal, path));
    if read.None? {
      return Failure(FileNotFound(Join(ds.dirReal, path))), f;
    }
    var background := read.value;
    var found := FindDonor(ds, path, lib, draws);
    if found.Failure? {
      return Failure(found.error), f;
    }
    r, f := BlendDonor(ds, path, lib, draws, background, found.value);
    forall donor | ClosestDonor(ds, path, lib, draws, donor)
      ensures donor == found.value
    {
      ClosestDonorUnique(ds, path, lib, draws, donor, found.value);
    }
  }

  /** `np.flip(g, 1)`: every row reversed. */
  function FlipColumns<T>(g: Grid<T>): (f: Grid<T>)
    ensures SameShape(g, f)
    ensures forall i, j :: 0 <= i < |g| && 0 <= j < |g[i]| ==> f[i][j] == g[i][|g[i]| - 1 - j]
  {
    seq(|g|, i requires 0 <= i < |g| => seq(|g[i]|, j requires 0 <= j < |g[i]| => g[i][|g[i]| - 1 - j]))
  }

  /** Flipping twice gives the grid back. */
  lemma FlipInvolution<T>(g: Grid<T>)
    ensures FlipColumns(FlipColumns(g)) == g
  {
    var ff := FlipColumns(FlipColumns(g));
    forall i | 0 <= i < |g| ensures ff[i] == g[i] {
      assert |ff[i]| == |g[i]|;
    }
  }

  /** `np.ones((size, size))`. */
  function Ones(size: nat): (m: Grid<real>)
    ensures IsGrid(m, size, size)
    ensures forall i, j :: 0 <= i < size && 0 <= j < size ==> m[i][j] == 1.0
  {
    seq(size, i requires 0 <= i < size => seq(size, j requires 0 <= j < size => 1.0))
  }

  /** An all-ones mask is its own mirror image. */
  lemma FlipOnes(size: nat)
    ensures FlipColumns(Ones(size)) == Ones(size)
  {
    var f := FlipColumns(Ones(size));
    forall i | 0 <= i < size ensures f[i] == Ones(size)[i] {
    }
  }

  /** `1 - mask`. */
  function OneMinus(m: Grid<real>): (r: Grid<real>)
    ensures SameShape(m, r)
    ensures forall i, j :: 0 <= i < |m| && 0 <= j < |m[i]| ==> r[i][j] + m[i][j] == 1.0
  {
    seq(|m|, i requires 0 <= i < |m| => seq(|m[i]|, j requires 0 <= j < |m[i]| => 1.0 - m[i][j]))
  }

  /** A training sample: the face, its mask and its label. */
  datatype Sample = Sample(image: Image, mask: Grid<real>, labelBit: int)

  /** The label of `gen_datapoint_from`: `int(data_type == 'real')`. */
  function Label(realCoin: int): (l: int)
    ensures l == 0 || l == 1
  {
    if realCoin != 0 then 1 else 0
  }

  /** The mirror step: both or neither of face and mask are flipped. */
  function MaybeFlip<T>(flipCoin: int, g: Grid<T>): Grid<T> {
    if flipCoin != 0 then FlipColumns(g) else g
  }

  /** The optional JPEG round trip after the forgery pipeline. */
  function MaybeJpeg(lib: Library, draws: Draws, img: Image): Image {
    if draws.jpegCoin != 0 then lib.jpeg(img, draws.quality) else img
  }

  /** `gen_datapoint_from(background_face_path, size)`. A real sample is the
      frame itself, resized, with an all-ones mask; a fake sample is the
      blended face, resized, with one minus the resized blending mask. Then
      the face may go through a JPEG round trip, and face and mask are
      mirrored together. The label is 1 for a real sample. A real sample
      fails exactly when its frame cannot be read; a fake one exactly when
      `get_blended_face` raises, as `BlendFails` says. */
  method GenDatapointFrom(ds: Dataset, path: string, size: nat, lib: Library, draws: Draws)
    returns (r: Result<Sample>, ghost face: Image, ghost mask: Grid<real>, ghost forgery: Forgery)
    requires ValidDataset(ds) && ValidLibrary(lib) && ValidDraws(draws, |ds.dataList|)
    requires path in ds.record
    ensures r.Success? ==> r.value.labelBit == Label(draws.realCoin)
    ensures r.Success? ==> r.value.image == MaybeFlip(draws.flipCoin, face) && r.value.mask == MaybeFlip(draws.flipCoin, mask)
    ensures lib.readImage(Join(ds.dirReal, path)).None? ==> r == Failure(FileNotFound(Join(ds.dirReal, path)))
    ensures draws.realCoin != 0 ==> (r.Failure? <==> lib.readImage(Join(ds.dirReal, path)).None?)
    ensures draws.realCoin == 0 ==> (r.Failure? <==> BlendFails(ds, path, lib, draws))
    ensures draws.realCoin != 0 && r.Success? ==>
      && r.value.labelBit == 1 && mask == Ones(size) && r.value.mask == Ones(size)
      && face == MaybeJpeg(lib, draws, lib.resizeImage(lib.readImage(Join(ds.dirReal, path)).value, size))
    ensures draws.realCoin == 0 && r.Success? ==>
      && r.value.labelBit == 0
      && IsForgery(ds, path, lib, draws, forgery)
      && face == MaybeJpeg(lib, draws, lib.resizeImage(forgery.blended, size))
      && mask == OneMinus(lib.resizeMask(forgery.mask, size))
  {
    forgery := Forgery(path, [], [], [], []);
    var image: Image;
    var m: Grid<real>;
    if draws.realCoin == 0 {
      var blended;
      blended, forgery := GetBlendedFace(ds, path, lib, draws);
      if blended.Failure? {
        return Failure(blended.error), [], [], forgery;
      }
      image := lib.resizeImage(blended.value.0, size);
      m := OneMinus(lib.resizeMask(blended.value.1, size));
    } else {
      var read := lib.readImage(Join(ds.dirReal, path));
      if read.None? {
        return Failure(FileNotFound(Join(ds.dirReal, path))), [], [], forgery;
      }
      image := lib.resizeImage(read.value, size);
      m := Ones(size);
    }
    if draws.jpegCoin != 0 {
      image := lib.jpeg(image, draws.quality);
    }
    face, mask := image, m;
    if draws.flipCoin != 0 {
      image := FlipColumns(image);
      m := FlipColumns(m);
      FlipOnes(size);
    }
    r := Success(Sample(image, m, Label(draws.realCoin)));
  }
}
