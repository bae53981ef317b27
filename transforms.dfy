/** `data/transforms.py`: the option-driven assembly of the image and mask
    pipelines. Only which steps are appended, with which parameters and in
    which order, is modelled; what each step does to an image is not. */
module Transforms {
  import opened Common

  /** One step of a torchvision `Compose` list. */
  datatype Step =
    | Resize(size: int)           // transforms.Resize(size, interpolation=LANCZOS)
    | CenterCrop(size: int)       // transforms.CenterCrop(size)
    | HorizontalFlip              // transforms.RandomHorizontalFlip(p=1.0)
    | JpegCompression(level: int) // JPEGCompression(opt.compression)
    | Blur(level: int)            // Blur(opt.blur)
    | Gamma(level: int)           // Gamma(opt.gamma)
    | ToTensor                    // transforms.ToTensor()
    | Normalize                   // transforms.Normalize, which the pipeline leaves commented out

  /** The options the pipelines read. A flag or level the option object does
      not have at all is `None` (`hasattr` is false). */
  datatype Options = Options(
    loadSize: int,
    fineSize: int,
    testFlip: Option<bool>,
    testCompression: Option<bool>,
    testBlur: Option<bool>,
    testGamma: Option<bool>,
    compression: Option<int>,
    blur: Option<int>,
    gamma: Option<int>,
    maxDatasetSize: int)

  /** `hasattr(opt, name) and opt.name`. */
  predicate Enabled(flag: Option<bool>) {
    flag == Some(true)
  }

  /** A test-time augmentation step, one that only the validation pipeline may hold. */
  predicate IsTestAugmentation(s: Step) {
    s.HorizontalFlip? || s.JpegCompression? || s.Blur? || s.Gamma?
  }

  /** The fixed position of each test-time augmentation: flip, JPEG, blur, gamma. */
  function AugmentationRank(s: Step): nat {
    match s
    case HorizontalFlip => 0
    case JpegCompression(_) => 1
    case Blur(_) => 2
    case Gamma(_) => 3
    case _ => 4
  }

  /** How many of the four test flags are set. */
  function EnabledCount(opt: Options): (n: nat)
    ensures n <= 4
  {
    (if Enabled(opt.testFlip) then 1 else 0) + (if Enabled(opt.testCompression) then 1 else 0)
      + (if Enabled(opt.testBlur) then 1 else 0) + (if Enabled(opt.testGamma) then 1 else 0)
  }

  /** A test flag is set but the level its step reads is missing. */
  predicate LevelMissing(opt: Options) {
    || (Enabled(opt.testCompression) && opt.compression.None?)
    || (Enabled(opt.testBlur) && opt.blur.None?)
    || (Enabled(opt.testGamma) && opt.gamma.None?)
  }

  /** The properties every pipeline of `get_transform` has: it ends in
      `ToTensor`, which appears nowhere else, and never normalises. */
  ghost predicate EndsInToTensor(steps: seq<Step>) {
    && |steps| > 0
    && steps[|steps| - 1] == ToTensor
    && (forall i :: 0 <= i < |steps| - 1 ==> steps[i] != ToTensor)
    && Normalize !in steps
  }

  /** What the validation part of `get_transform` promises about the steps it
      inserts between the crop and the tensor step: one per enabled flag, each
      carrying its option's level, in the order flip, JPEG, blur, gamma. */
  ghost predicate TestAugmentationsFor(opt: Options, aug: seq<Step>)
    requires !LevelMissing(opt)
  {
    && |aug| == EnabledCount(opt)
    && (forall i :: 0 <= i < |aug| ==> IsTestAugmentation(aug[i]))
    && (forall i, j :: 0 <= i < j < |aug| ==> AugmentationRank(aug[i]) < AugmentationRank(aug[j]))
    && (HorizontalFlip in aug <==> Enabled(opt.testFlip))
    && (forall l :: JpegCompression(l) in aug <==> Enabled(opt.testCompression) && opt.compression == Some(l))
    && (forall l :: Blur(l) in aug <==> Enabled(opt.testBlur) && opt.blur == Some(l))
    && (forall l :: Gamma(l) in aug <==> Enabled(opt.testGamma) && opt.gamma == Some(l))
  }

  /** The step a flag contributes: itself when the flag is set, else nothing. */
  function StepIf(on: bool, s: Step): (part: seq<Step>)
    ensures |part| == (if on then 1 else 0)
    ensures forall x :: x in part <==> on && x == s
  {
    if on then [s] else []
  }

  /** The level an option holds, or 0 where it is missing (never read then). */
  function LevelOr(level: Option<int>): int {
    if level.Some? then level.value else 0
  }

  /** The four optional steps, each present or not, in flip, JPEG, blur, gamma order. */
  function Optional(flip: bool, jpeg: bool, blur: bool, gamma: bool, c: int, b: int, g: int): seq<Step> {
    StepIf(flip, HorizontalFlip) + StepIf(jpeg, JpegCompression(c)) + StepIf(blur, Blur(b)) + StepIf(gamma, Gamma(g))
  }

  lemma OptionalOrdered(flip: bool, jpeg: bool, blur: bool, gamma: bool, c: int, b: int, g: int)
    ensures var aug := Optional(flip, jpeg, blur, gamma, c, b, g);
      && (forall i :: 0 <= i < |aug| ==> IsTestAugmentation(aug[i]))
      && (forall i, j :: 0 <= i < j < |aug| ==> AugmentationRank(aug[i]) < AugmentationRank(aug[j]))
  {
  }

  lemma OptionalMembers(flip: bool, jpeg: bool, blur: bool, gamma: bool, c: int, b: int, g: int)
    ensures var aug := Optional(flip, jpeg, blur, gamma, c, b, g);
      && (HorizontalFlip in aug <==> flip)
      && (forall l :: JpegCompression(l) in aug <==> jpeg && l == c)
      && (forall l :: Blur(l) in aug <==> blur && l == b)
      && (forall l :: Gamma(l) in aug <==> gamma && l == g)
  {
  }

  /** The test-time augmentation steps in the order `get_transform` appends them. */
  function TestAugmentations(opt: Options): seq<Step> {
    Optional(Enabled(opt.testFlip), Enabled(opt.testCompression), Enabled(opt.testBlur),
      Enabled(opt.testGamma), LevelOr(opt.compression), LevelOr(opt.blur), LevelOr(opt.gamma))
  }

  /** The appended steps meet the validation promise. */
  lemma TestAugmentationsShape(opt: Options)
    requires !LevelMissing(opt)
    ensures TestAugmentationsFor(opt, TestAugmentations(opt))
  {
    var args := (Enabled(opt.testFlip), Enabled(opt.testCompression), Enabled(opt.testBlur),
      Enabled(opt.testGamma), LevelOr(opt.compression), LevelOr(opt.blur), LevelOr(opt.gamma));
    OptionalOrdered(args.0, args.1, args.2, args.3, args.4, args.5, args.6);
    OptionalMembers(args.0, args.1, args.2, args.3, args.4, args.5, args.6);
  }

  /** Resizing and cropping steps, then test-time augmentations, then the
      tensor step: such a list ends in its only `ToTensor` and never normalises. */
  lemma {:induction false} EndsInToTensorAfter(head: seq<Step>, aug: seq<Step>)
    requires forall i :: 0 <= i < |head| ==> head[i].Resize? || head[i].CenterCrop?
    requires forall i :: 0 <= i < |aug| ==> IsTestAugmentation(aug[i])
    ensures EndsInToTensor(head + aug + [ToTensor])
  {
    var steps := head + aug + [ToTensor];
    forall i | 0 <= i < |steps| - 1 ensures steps[i] != ToTensor && steps[i] != Normalize {
      if i < |head| {
        assert steps[i] == head[i];
      } else {
        assert steps[i] == aug[i - |head|];
      }
    }
    assert steps[|steps| - 1] == ToTensor;
  }

  /** The whole validation pipeline keeps the validation promise. */
  lemma ValidationPipelineShape(opt: Options)
    requires !LevelMissing(opt)
    ensures var steps := [Resize(opt.loadSize), CenterCrop(opt.loadSize)] + TestAugmentations(opt) + [ToTensor];
      && EndsInToTensor(steps)
      && |steps| == 3 + EnabledCount(opt)
      && steps[..2] == [Resize(opt.loadSize), CenterCrop(opt.loadSize)]
      && TestAugmentationsFor(opt, steps[2..|steps| - 1])
  {
    var aug := TestAugmentations(opt);
    var steps := [Resize(opt.loadSize), CenterCrop(opt.loadSize)] + aug + [ToTensor];
    TestAugmentationsShape(opt);
    EndsInToTensorAfter([Resize(opt.loadSize), CenterCrop(opt.loadSize)], aug);
    assert steps[2..|steps| - 1] == aug;
  }

  /** The validation part of `get_transform`: append the step of each set
      test flag, in the order flip, JPEG, blur, gamma, reading its level;
      a missing level raises. */
  method AppendTestAugmentations(opt: Options, list: seq<Step>) returns (r: Result<seq<Step>>)
    ensures r.Failure? <==> LevelMissing(opt)
    ensures r.Failure? && Enabled(opt.testCompression) && opt.compression.None? ==>
      r.error == MissingOption("compression")
    ensures r.Failure? && !(Enabled(opt.testCompression) && opt.compression.None?) && Enabled(opt.testBlur) && opt.blur.None? ==>
      r.error == MissingOption("blur")
    ensures r.Failure? && !(Enabled(opt.testCompression) && opt.compression.None?) && !(Enabled(opt.testBlur) && opt.blur.None?) ==>
      r.error == MissingOption("gamma")
    ensures r.Failure? ==>
      r.error == MissingOption("compression") || r.error == MissingOption("blur") || r.error == MissingOption("gamma")
    ensures r.Success? ==> r.value == list + TestAugmentations(opt)
  {
    var steps := list;
    ghost var extra: seq<Step> := [];
    if Enabled(opt.testFlip) {
      steps := steps + [HorizontalFlip];
    }
    extra := extra + StepIf(Enabled(opt.testFlip), HorizontalFlip);
    assert steps == list + extra;
    if Enabled(opt.testCompression) {
      if opt.compression.None? {
        return Failure(MissingOption("compression"));
      }
      steps := steps + [JpegCompression(opt.compression.value)];
    }
    extra := extra + StepIf(Enabled(opt.testCompression), JpegCompression(LevelOr(opt.compression)));
    assert steps == list + extra;
    if Enabled(opt.testBlur) {
      if opt.blur.None? {
        return Failure(MissingOption("blur"));
      }
      steps := steps + [Blur(opt.blur.value)];
    }
    extra := extra + StepIf(Enabled(opt.testBlur), Blur(LevelOr(opt.blur)));
    assert steps == list + extra;
    if Enabled(opt.testGamma) {
      if opt.gamma.None? {
        return Failure(MissingOption("gamma"));
      }
      steps := steps + [Gamma(opt.gamma.value)];
    }
    extra := extra + StepIf(Enabled(opt.testGamma), Gamma(LevelOr(opt.gamma)));
    assert steps == list + extra;
    return Success(steps);
  }

  /** `get_transform`: for training, resize to `loadSize`, crop to `fineSize`,
      make a tensor. For validation, resize and crop to `loadSize`, then the
      enabled test-time augmentations in the fixed order flip, JPEG, blur,
      gamma, then the tensor step. Reading a missing level raises. */
  method GetTransform(opt: Options, forVal: bool) returns (r: Result<seq<Step>>)
    ensures r.Failure? <==> forVal && LevelMissing(opt)
    ensures r.Failure? && Enabled(opt.testCompression) && opt.compression.None? ==>
      r.error == MissingOption("compression")
    ensures r.Failure? && !(Enabled(opt.testCompression) && opt.compression.None?) && Enabled(opt.testBlur) && opt.blur.None? ==>
      r.error == MissingOption("blur")
    ensures r.Failure? && !(Enabled(opt.testCompression) && opt.compression.None?) && !(Enabled(opt.testBlur) && opt.blur.None?) ==>
      r.error == MissingOption("gamma")
    ensures r.Failure? ==>
      r.error == MissingOption("compression") || r.error == MissingOption("blur") || r.error == MissingOption("gamma")
    ensures !forVal ==> r == Success([Resize(opt.loadSize), CenterCrop(opt.fineSize), ToTensor])
    ensures r.Success? ==> EndsInToTensor(r.value)
    ensures forVal && r.Success? ==>
      && |r.value| == 3 + EnabledCount(opt)
      && r.value[..2] == [Resize(opt.loadSize), CenterCrop(opt.loadSize)]
      && TestAugmentationsFor(opt, r.value[2..|r.value| - 1])
  {
    var list: seq<Step> := [];
    if forVal {
      list := list + [Resize(opt.loadSize)];
      list := list + [CenterCrop(opt.loadSize)];
      assert list == [Resize(opt.loadSize), CenterCrop(opt.loadSize)];
      var extended := AppendTestAugmentations(opt, list);
      if extended.Failure? {
        return Failure(extended.error);
      }
      list := extended.value;
      ValidationPipelineShape(opt);
    } else {
      list := list + [Resize(opt.loadSize)];
      list := list + [CenterCrop(opt.fineSize)];
      assert list + [ToTensor] == [Resize(opt.loadSize), CenterCrop(opt.fineSize)] + [] + [ToTensor];
      assert list + [ToTensor] == [Resize(opt.loadSize), CenterCrop(opt.fineSize), ToTensor];
      EndsInToTensorAfter([Resize(opt.loadSize), CenterCrop(opt.fineSize)], []);
    }
    list := list + [ToTensor];
    r := Success(list);
  }

  /** `get_mask_transform`: resize, crop to `fineSize`, tensor, whatever
      `forVal` says. */
  method GetMaskTransform(opt: Options, forVal: bool) returns (steps: seq<Step>)
    ensures steps == [Resize(opt.loadSize), CenterCrop(opt.fineSize), ToTensor]
    ensures EndsInToTensor(steps)
    ensures forall i :: 0 <= i < |steps| ==> !IsTestAugmentation(steps[i])
  {
    EndsInToTensorAfter([Resize(opt.loadSize), CenterCrop(opt.fineSize)], []);
    var list: seq<Step> := [];
    list := list + [Resize(opt.loadSize)];
    list := list + [CenterCrop(opt.fineSize)];
    list := list + [ToTensor];
    steps := list;
  }
}
