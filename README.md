# I2G synthetic-forgery generator, modelled in Dafny

This project models I2G, the inconsistency image generator that builds the
training set of a deepfake detector. The generator takes a real face frame and, on a coin
flip, either returns it with an all-ones mask (a real sample) or forges a fake
sample:

- it finds a donor frame of another video whose facial landmarks are closest;
- it builds a random hull mask from the background's landmarks;
- it moves the donor's colours to the background's mean colour inside the mask;
- it feathers the donor into the background;
- it returns the forgery with one minus the deformed mask.

Both kinds of sample may go through a JPEG round trip and are mirrored
together with their masks on the flip coin. Around this sit:

- the landmark cache: a dict from frame file name to landmark array, built
  once per directory and stored next to it;
- the capping of the frame list to `max_dataset_size`;
- `random_erode_dilate`, a mask helper that nothing in the generator calls;
- the 68-point landmark region table, `rect_to_bb` and `shape_to_np`;
- the option-driven assembly of the image and mask transform pipelines, as
  lists of tagged steps.

Modules, one per concern, all under this directory:

| file | module | models |
|---|---|---|
| `common.dfy` | `Common` | errors, `Result`, grids and images, `np.where`, `random.sample` |
| `blend_utils.dfy` | `BlendUtils` | data/processing/blend_utils/utils.py |
| `transforms.dfy` | `Transforms` | data/transforms.py |
| `landmark_cache.dfy` | `LandmarkCache` | `generate_landmark_file` |
| `candidate_search.dfy` | `CandidateSearch` | `total_euclidean_distance`, `search_similar_face` |
| `mask_ops.dfy` | `MaskOps` | `random_get_hull`, `random_erode_dilate` |
| `blending.dfy` | `Blending` | `colorTransfer`, `blendImages` |
| `i2g_dataset.dfy` | `I2GDataset` | `__init__`, `get_blended_face`, `gen_datapoint_from` |

How the model stands in for the running system:

- **Randomness.** Every `random.*` call is replaced by its outcome, passed in
  as a parameter: the real/fake, JPEG and flip coins, the JPEG quality, the
  hull type, the kernel-size draw, and the positions drawn by `random.sample`.
  `IsSampleOutcome` states what `random.sample` may return: `k` distinct
  positions.
- **Library calls.** Each is a function parameter: image reading, the four
  DeepFakeMask hull constructors, `np.linalg.norm` of one row, the convex
  hull with `pointPolygonTest`, erosion and dilation, the PIL resizes, the
  JPEG round trip, and the elastic deformation with its blur.
- **The filesystem.** `Disk` holds the set of directories and the pickled
  caches; the `os.walk` listing is a parameter.
- **Exceptions.** A Python exception is a `Failure` carrying an `Error`.
  Image reading returns no image for a path `io.imread` cannot read, and the
  model fails with `FileNotFound` there. The cache keys are bare file names
  while the walk is recursive, so a frame found in a subdirectory is looked
  up at the wrong path; this is how that failure arises.
- **Images.** An image is a grid of integer pixels of three channels. A mask
  is a grid of reals.
- **Means and weights** are `real` numbers. Assigning a float into a `uint8`
  array truncates, which is `Floor` on the non-negative values involved.

## Model

| member | source | states |
|---|---|---|
| Common.WhereMembers | data/I2G_dataset.py:142 | a position is listed by `np.where(mask != 0)` iff it lies in the mask and its value is non-zero |
| Common.WhereOrdered | data/I2G_dataset.py:142 | the listed positions come in strictly increasing row-major order, so none repeats |
| Common.RandomSample | data/I2G_dataset.py:258 | `random.sample` fails iff `k` is negative (`NegativeSampleSize`) or larger than the population (`SampleLargerThanPopulation`); otherwise it returns exactly `k` members of the population |
| Common.SampleDistinct | data/I2G_dataset.py:258 | a sample of a duplicate-free population has no duplicates |
| BlendUtils.RegionPoints | data/processing/blend_utils/utils.py:10-18 | the points of a region are exactly the indices of its half-open range |
| BlendUtils.RegionOf | data/processing/blend_utils/utils.py:10-18 | the region found for an index contains it; no region found means no region contains it |
| BlendUtils.RegionsNonEmpty | data/processing/blend_utils/utils.py:10-18 | every range has start < end |
| BlendUtils.RegionsDisjoint | data/processing/blend_utils/utils.py:10-18 | no index lies in two regions |
| BlendUtils.RegionsCoverLayout | data/processing/blend_utils/utils.py:10-18 | an index is in some region iff it is one of the 68 layout indices 0..67 |
| BlendUtils.RegionUnionIsLayout | data/processing/blend_utils/utils.py:10-18 | the union of the seven region sets is exactly {0, ..., 67} |
| BlendUtils.RegionOrder | data/processing/blend_utils/utils.py:10-18 | there are seven regions in insertion order, mouth first and jaw last, with pairwise different names |
| BlendUtils.RectToBb | data/processing/blend_utils/utils.py:46-55 | `(x, y)` is the top-left corner, `x + w == right`, `y + h == bottom`, and `w`, `h` are non-negative iff the rectangle is not inverted |
| BlendUtils.RectBbRoundTrip | data/processing/blend_utils/utils.py:46-55 | `rect_to_bb` and its inverse undo each other in both directions |
| BlendUtils.TruncateToInt | data/processing/blend_utils/utils.py:59 | the cast to int truncates toward zero: within one of the value and no farther from zero |
| BlendUtils.ShapeToNp | data/processing/blend_utils/utils.py:57-68 | an ndarray keeps its shape and has each value cast; a dlib shape becomes a 68 x 2 array whose row i is `(part(i).x, part(i).y)` |
| Transforms.StepIf | data/transforms.py:18-25 | a guarded append adds the one step iff its flag is set |
| Transforms.OptionalOrdered | data/transforms.py:18-25 | the optional steps are test-time augmentations, in the order flip, JPEG, blur, gamma |
| Transforms.OptionalMembers | data/transforms.py:18-25 | each optional step, with its level, appears iff its flag is set |
| Transforms.TestAugmentationsShape | data/transforms.py:18-25 | the appended steps are one per enabled flag, carry their option's level, and come in the fixed order |
| Transforms.EndsInToTensorAfter | data/transforms.py:31-33 | resize and crop steps, then augmentations, then `ToTensor` end in their only `ToTensor` and hold no `Normalize` |
| Transforms.ValidationPipelineShape | data/transforms.py:10-31 | the validation list has 3 + (enabled flags) steps, starts `Resize(loadSize), CenterCrop(loadSize)`, and ends in `ToTensor` |
| Transforms.AppendTestAugmentations | data/transforms.py:18-25 | the guarded appends fail iff a set flag's level is missing; the error names the first missing level in the order compression, blur, gamma; otherwise they add exactly the test-time augmentations |
| Transforms.GetTransform | data/transforms.py:7-37 | training gives exactly `[Resize(loadSize), CenterCrop(fineSize), ToTensor]`; validation fails iff a level is missing, naming the first missing level in the order compression, blur, gamma; otherwise it begins with resize and crop to `loadSize`, holds the enabled augmentations in order, has length 3 + enabled flags, and ends in `ToTensor` |
| Transforms.GetMaskTransform | data/transforms.py:39-47 | the mask pipeline is `[Resize(loadSize), CenterCrop(fineSize), ToTensor]` whatever `for_val` is, with no test-time augmentation |
| LandmarkCache.RStripSlashes | data/I2G_dataset.py:36 | `rstrip('/')` returns a prefix, removes only slashes, and leaves no trailing slash |
| LandmarkCache.CachePathShape | data/I2G_dataset.py:36 | the cache path ends in `_landmark.pkl`; the text before the suffix is the directory less its trailing slashes; a directory without one is kept whole |
| LandmarkCache.CachePathIgnoresTrailingSlashes | data/I2G_dataset.py:36 | adding any number of trailing slashes to the directory does not change the cache path |
| LandmarkCache.Reshape | data/I2G_dataset.py:47-48 | `np.reshape(face_hull, [point_num, 2])` succeeds iff there are exactly two values per point, and then gives `point_num` points |
| LandmarkCache.FlattenAt | data/I2G_dataset.py:47-48 | point i of the array is held at flat positions 2i and 2i+1 |
| LandmarkCache.ReshapeRoundTrip | data/I2G_dataset.py:47-48 | reshaping the flattened points gives them back, and flattening a reshaped detection gives the detector's values |
| LandmarkCache.Store | data/I2G_dataset.py:50 | `images_list[fname] = face_hull` sets that entry; a new key is appended to the key order, an existing one keeps its place |
| LandmarkCache.StoreValid | data/I2G_dataset.py:50 | storing keeps the keys distinct and equal to the entries |
| LandmarkCache.EntryFiles | data/I2G_dataset.py:38-39 | one directory of the walk contributes its file names, in order, each with its root |
| LandmarkCache.RecordFromFails | data/I2G_dataset.py:40-50 | building the dict fails iff some image file's detection does not reshape into points |
| LandmarkCache.RecordFromKeys | data/I2G_dataset.py:40-50 | the dict has an entry for a name iff some image file of that name had a face detected; files without a face leave no entry |
| LandmarkCache.RecordFromLastWins | data/I2G_dataset.py:38-50 | the entry under a name comes from the last file of that name with a detected face, so a same-named file in a later directory overwrites an earlier one |
| LandmarkCache.AddFileKeeps | data/I2G_dataset.py:40-50 | a file that is not a face of the given name leaves that name's entry as it was |
| LandmarkCache.LastFaceAtSnoc | data/I2G_dataset.py:38-50 | the last face of a name stays the last when a file of another name or without a face is walked |
| LandmarkCache.RecordFromSnoc | data/I2G_dataset.py:39-50 | walking one more file is one more step of the inner loop, after a failure nothing changes |
| LandmarkCache.FilesPrefix | data/I2G_dataset.py:38-39 | the files of the first directories of the walk are a prefix of all its files |
| LandmarkCache.AddFileCases | data/I2G_dataset.py:40-50 | a non-image file and a file without a face leave the dict alone; a face is reshaped and stored under the bare file name, or the reshape's error is raised |
| LandmarkCache.FilesSnoc | data/I2G_dataset.py:38-39 | one more directory of the walk appends its files |
| LandmarkCache.BuildRecord | data/I2G_dataset.py:38-50 | the nested loop over the walk builds the dict the file-by-file definition gives, or raises its error |
| LandmarkCache.ScanEntry | data/I2G_dataset.py:39-50 | the loop over one directory's files extends the dict built so far by that directory's files |
| LandmarkCache.ScanFile | data/I2G_dataset.py:40-50 | the body of the inner loop is one step of the file-by-file definition |
| LandmarkCache.RecordFromValid | data/I2G_dataset.py:50 | a built dict has distinct keys, exactly those with entries |
| LandmarkCache.RecordFromFailurePersists | data/I2G_dataset.py:38-50 | once a file raises, walking more files gives the same error |
| LandmarkCache.GenerateLandmarkFile | data/I2G_dataset.py:31-53 | a missing directory fails the assertion; an existing cache is returned untouched; otherwise the built dict is written to the cache path, or its error raised; the directories never change |
| LandmarkCache.GenerateTwice | data/I2G_dataset.py:36-53 | a second call after a successful one returns the same path and disk: the cache is built at most once |
| CandidateSearch.NormSum | data/I2G_dataset.py:100 | a sum of row lengths is non-negative |
| CandidateSearch.TotalDistance | data/I2G_dataset.py:98-100 | the distance fails, with a shape error, iff the row counts neither match nor broadcast; otherwise it is non-negative |
| CandidateSearch.NormSumOpposite | data/I2G_dataset.py:100 | negating every row leaves the sum of lengths unchanged |
| CandidateSearch.TotalDistanceSymmetric | data/I2G_dataset.py:98-100 | the distance from a to b equals the distance from b to a, failures included |
| CandidateSearch.NormSumZero | data/I2G_dataset.py:100 | the sum of lengths is zero iff every row is the zero vector |
| CandidateSearch.TotalDistanceZero | data/I2G_dataset.py:98-100 | two landmark arrays of the same length are at distance zero iff they are equal |
| CandidateSearch.Session | data/I2G_dataset.py:261 | `path.split('_')[0]` is the prefix before the first underscore: a prefix of the path, without underscore, followed by one if shorter |
| CandidateSearch.SessionOfFrame | data/I2G_dataset.py:261 | a name built as video, underscore, rest has that video as its session |
| CandidateSearch.Survivors | data/I2G_dataset.py:261-262 | the filter keeps exactly the drawn names whose session differs from the background's |
| CandidateSearch.SurvivorsAtKept | data/I2G_dataset.py:261-262 | the survivors are the candidates at the kept positions, one for one |
| CandidateSearch.KeptIncreasing | data/I2G_dataset.py:261-262 | the kept positions strictly increase |
| CandidateSearch.KeptExactly | data/I2G_dataset.py:261-262 | a position is kept iff its session differs from the background's |
| CandidateSearch.SurvivorsInOrder | data/I2G_dataset.py:261-262 | the filter is an order-preserving subsequence: survivors sit at strictly increasing positions, exactly those whose session differs |
| CandidateSearch.Distances | data/I2G_dataset.py:265-269 | the distances of the candidates, in order, each the candidate's total distance; failure iff one of them fails |
| CandidateSearch.DistancesStep | data/I2G_dataset.py:265-269 | one more candidate appends its own distance |
| CandidateSearch.FirstMinUnique | data/I2G_dataset.py:270-272 | at most one position is the first minimum below the sentinel |
| CandidateSearch.FirstMinExists | data/I2G_dataset.py:253-272 | a first minimum below the sentinel exists iff some distance is below the sentinel |
| CandidateSearch.TracksStep | data/I2G_dataset.py:270-272 | a strictly smaller distance becomes the new first minimum; an equal or larger one keeps the earlier |
| CandidateSearch.ArgminLoop | data/I2G_dataset.py:253-272 | the loop fails iff some distance fails; otherwise it keeps the first minimum below the 99999999 sentinel, or none when no distance is below it |
| CandidateSearch.Closest | data/I2G_dataset.py:253-274 | the result is the first candidate of minimal distance below the sentinel; with none below it (no survivor included) `min_path` is unbound and the call fails |
| CandidateSearch.SearchSimilarFace | data/I2G_dataset.py:252-274 | the search fails iff fewer than 50 names exist (sample) or as `Closest` says, and with no other error; a found donor is in the frame list and from another video |
| MaskOps.HullKindOfInjective | data/I2G_dataset.py:103-119 | the four hull types name four different constructors |
| MaskOps.IntLandmarks | data/I2G_dataset.py:105 | the `int32` cast keeps the number of points |
| MaskOps.ScaleUnit | data/I2G_dataset.py:107 | dividing a byte mask by 255 gives values in [0, 1], zero exactly where the byte mask is zero |
| MaskOps.RandomGetHull | data/I2G_dataset.py:102-119 | the mask has the chosen constructor's mask's shape, row by row, and is that mask, built from the truncated landmarks and the face, divided by 255 |
| MaskOps.KernelSize | data/I2G_dataset.py:123-126 | the kernel size is odd and is the given or drawn size, or one more |
| MaskOps.KernelSizeParity | data/I2G_dataset.py:125-126 | an even given size is bumped by exactly one, an odd one is kept |
| MaskOps.KernelSizeDrawn | data/I2G_dataset.py:124-126 | a drawn size in [1, hi], hi odd, gives an odd kernel in [1, hi] |
| MaskOps.MaskBytes | data/I2G_dataset.py:127 | `astype(uint8) * 255` gives byte values |
| MaskOps.MaskBytesBinary | data/I2G_dataset.py:127 | a value in [0, 1) becomes 0 and a value of 1 becomes 255 |
| MaskOps.RandomErodeDilate | data/I2G_dataset.py:121-138 | a negative caller `ksize` fails (`np.ones` with a negative shape), and nothing else does; the kernel is odd, in [1, 21] when eroding and [1, 5] when dilating a drawn size, the given size or one more otherwise; the mask is the eroded or dilated byte mask over 255 |
| MaskOps.RandomErodeDilateUnit | data/I2G_dataset.py:121-138 | with byte-valued morphology a successful new mask lies in [0, 1] |
| Blending.Scatter | data/I2G_dataset.py:157-159 | fancy-index assignment on a copy: listed positions get their values, every other pixel is kept, the shape is kept |
| Blending.Clip | data/I2G_dataset.py:178 | `np.clip` leaves values inside the range alone and saturates values below or above it to the nearer end |
| Blending.Means | data/I2G_dataset.py:173-174 | one mean per channel |
| Blending.TransferValue | data/I2G_dataset.py:176-180 | the shifted value is clipped to a byte: inside [0, 255] it is the truncated shifted value, below it 0, above it 255 |
| Blending.TransferPixel | data/I2G_dataset.py:176-180 | a transferred pixel is an RGB byte pixel |
| Blending.ColorTransfer | data/I2G_dataset.py:165-182 | fails iff a masked index lies outside an image; otherwise unmasked pixels equal `dst` and masked ones are `dst - meanDst + meanSrc`, clipped, per channel |
| Blending.ChannelSumAgree | data/I2G_dataset.py:173-174 | images agreeing on the mask have equal channel sums there |
| Blending.TransferKeepsAgreeingPixels | data/I2G_dataset.py:165-182 | when `src` and `dst` agree on the mask, masked pixels are unchanged |
| Blending.ShiftedSum | data/I2G_dataset.py:176-177 | the shift adds `n * (meanSrc - meanDst)` to a channel sum |
| Blending.ShiftedMeanIsSourceMean | data/I2G_dataset.py:173-177 | before clipping, the shifted pixels have the source's mean |
| Blending.MaxOf | data/I2G_dataset.py:146 | `np.max` is a member and bounds every member |
| Blending.MinOf | data/I2G_dataset.py:146 | `np.min` is a member and is bounded by every member |
| Blending.Extent | data/I2G_dataset.py:146-147 | the result bounds the difference of every pair of rows and of every pair of columns, and equals one such difference |
| Blending.Feather | data/I2G_dataset.py:147 | the feather amount is non-negative |
| Blending.FeatherZero | data/I2G_dataset.py:146-147 | the feather amount is zero iff the mask has a single pixel |
| Blending.MaskPoints | data/I2G_dataset.py:144-145 | `maskPts` pairs column then row for each listed position |
| Blending.Weight | data/I2G_dataset.py:155 | every weight lies in [0, 1]: it is `dist / feather` when that does, 0 below, 1 above |
| Blending.ConvexBetween | data/I2G_dataset.py:158-159 | `w * a + (1 - w) * b` lies between a and b |
| Blending.BlendValue | data/I2G_dataset.py:158-159 | a blended channel lies between the two inputs and is the truncated convex combination |
| Blending.BlendPixel | data/I2G_dataset.py:158-159 | every channel of a blended pixel lies between the two inputs |
| Blending.BlendPixelBounds | data/I2G_dataset.py:158-159 | a blend of byte pixels is a byte pixel, and equal inputs give that input |
| Blending.BlendedEverywhere | data/I2G_dataset.py:157-161 | scattering the blended values gives the blend at masked pixels and `dst` elsewhere |
| Blending.HullDistances | data/I2G_dataset.py:149-153 | `dists[i]` is the signed distance of mask point i to the hull of all mask points |
| Blending.BlendImages | data/I2G_dataset.py:140-161 | an empty mask fails (`np.max`); feather zero fails, and only then with `ZeroFeather`; out-of-range indices fail, and with no other error; otherwise unmasked pixels equal `dst` and masked ones are `w * src + (1 - w) * dst`, truncated |
| I2GDataset.CapDataList | data/I2G_dataset.py:62-65 | a list longer than `max_dataset_size` becomes a sample of exactly that size from the keys; a shorter one is kept whole; a negative size fails |
| I2GDataset.CapDataListDistinct | data/I2G_dataset.py:62-65 | the capped list has no duplicates |
| I2GDataset.Init | data/I2G_dataset.py:57-76 | a missing directory fails; otherwise construction fails exactly when building a missing cache raises, `max_dataset_size` is negative, or a validation level is missing; a newly built cache is the record of the walk, written at the cache path, and an existing one leaves the disk as it is; the frames' landmarks are the cache's; `data_size == len(data_list) <= max_dataset_size`, the list is duplicate-free with landmarks for every frame and is all keys when not capped; the training image pipeline and the mask pipeline are the fixed three steps, and the validation pipeline has the resize-crop prefix, the enabled augmentations in order, and ends in `ToTensor` |
| I2GDataset.Times255 | data/I2G_dataset.py:235 | `mask * 255` keeps the shape and the zero positions |
| I2GDataset.ForgeFace | data/I2G_dataset.py:234-242 | colour transfer then blending with the hull mask times 255: the corrected donor satisfies `colorTransfer`'s per-pixel relation, the result `blendImages`'s, and pixels outside the mask keep the background; it fails exactly when the scaled mask is empty, has a zero feather, or lists a position outside either image, with only those errors |
| I2GDataset.FindDonor | data/I2G_dataset.py:224-227 | the search on the dataset fails exactly on a list under 50 or as `SearchFails` says, and otherwise returns the closest survivor, listed and from another video |
| I2GDataset.ClosestDonorUnique | data/I2G_dataset.py:264-272 | the closest survivor is unique: the first minimum has one position |
| I2GDataset.BlendDonor | data/I2G_dataset.py:228-242 | after the search: fails exactly when the donor cannot be read or the image steps fail on it; on success the result is the forgery of that donor and keeps the background off the hull mask |
| I2GDataset.GetBlendedFace | data/I2G_dataset.py:221-250 | fails exactly as `BlendFails` lists the raising steps in order (unreadable background, list under 50, failed search, then an unreadable closest donor or failing image steps); an unreadable background fails first, then a frame list under 50 fails; a `FileNotFound` names an unreadable path; on success the donor is the first closest survivor of the draw, read from disk, the forged face is the donor colour-corrected and blended into the background through the hull mask, equal to the background wherever that mask is zero, and the mask is the deformed hull mask |
| I2GDataset.FlipColumns | data/I2G_dataset.py:215-217 | `np.flip(g, 1)` mirrors every row |
| I2GDataset.FlipInvolution | data/I2G_dataset.py:215-217 | flipping twice gives the grid back |
| I2GDataset.Ones | data/I2G_dataset.py:205 | the real mask is size x size, all ones |
| I2GDataset.FlipOnes | data/I2G_dataset.py:205-217 | the all-ones mask is its own mirror image |
| I2GDataset.OneMinus | data/I2G_dataset.py:195 | `1 - mask` adds up with the mask to one everywhere |
| I2GDataset.GenDatapointFrom | data/I2G_dataset.py:184-219 | the fake path fails exactly when `get_blended_face` does (`BlendFails`); label 1 exactly on the real path, which fails iff its frame cannot be read and has an all-ones size x size mask; the fake face is the forgery of `get_blended_face`, resized, the fake mask one minus its resized mask; both faces take the JPEG round trip on the coin; image and mask are mirrored both or neither |

## Left out

- `drawLandmark` and the `images` list of `generate_landmark_file`: drawing, and a list that is never read.
- `__len__` and `__getitem__`: torch `Dataset` plumbing and PIL/tensor conversions. `__getitem__` stores the label of `gen_datapoint_from` under the key `'label'` from a variable named `is_forgery`, although 1 means real; the model keeps 1 for real.
- `self.distortion` and `self.blender`: constructed and never used.
- `mkdir_p`, `files` and the two frame-processing command-line scripts: filesystem I/O only.
- The file system, pickle and `Image.open`/`io.imread` are parameters.
- LandmarkCache.GenerateLandmarkFile: `Image.open` on a walked file with an image extension that does not decode raises; the model's detector is total and does not carry that failure.
- Transforms.GetTransform: the `print` and `logging` of the composed pipeline are output only and are not modelled.
- LandmarkCache.BuildRecord: the walk's order is the one `sorted(os.walk(...))` gives, passed in.
- The DeepFakeMask hull constructors, `cv2.convexHull`/`pointPolygonTest`, `cv2.erode`/`dilate`, the resizes, the JPEG round trip, `elasticdeform` and the Gaussian blur: library code, modelled as uninterpreted functions.
- CandidateSearch.TotalDistance: `np.linalg.norm` is abstracted to a norm that is non-negative, zero only on the zero vector and symmetric under negation. The Euclidean formula and float32 rounding are not modelled, nor is the `len(a.shape) == 2` assertion, which holds for every reshaped entry.
- Blending.ColorTransfer and Blending.BlendImages: the masks of `random_get_hull` have three equal channels. `np.where` then repeats each position once per channel, which leaves the means, extents, distances and written values unchanged, so the mask is modelled with one channel.
- Blending.ColorTransfer: with an empty mask numpy averages nothing to NaN and assigns nothing; the model returns `dst`, which is what the assignment leaves.
- Blending.BlendImages: a one-pixel mask has feather 0, and numpy's weights become NaN; the model fails with `ZeroFeather` instead of producing NaN pixels. Floating-point rounding of weights and means is not modelled: they are exact reals, and the `uint8` store is `Floor`.
- MaskOps.RandomErodeDilate: `random_erode_dilate` is never called by the generator, so it stands alone.
- I2GDataset.GetBlendedFace: the `size` argument is unused by the source and is dropped. Only the first channel of the mask is deformed, as in the source, so the model's one-channel mask is deformed directly. The PIL conversion of a float mask in `gen_datapoint_from` is taken as the `resizeMask` function.
- BlendUtils.ShapeToNp: only the default integer `dtype` is modelled.
- I2GDataset.GetBlendedFace and I2GDataset.GenDatapointFrom: an image that `io.imread` does read is taken to be a three-channel 8-bit image; grey-scale or RGBA frames are not modelled.
