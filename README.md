# neural_canvas 2D runner, modelled in Dafny

This project models `RunnerINRF2D`, the runner that drives an implicit
neural representation (`INRF2D`) to produce images. It covers the runner
and the utilities it depends on:

- The constructor chooses the save prefix.
- `run_frames` samples latents, generates and reshapes each frame,
  converts it to bytes and skips blank frames. With autosave on, it
  writes a PNG and a TIFF carrying a metadata record for every frame
  it keeps.
- `reinit_model_from_metadata` rebuilds the model from a metadata
  dictionary or from a saved TIFF.
- `regen_frames` reproduces saved TIFFs at a new output shape.
- `fit` trains the model epoch by epoch, recording each epoch's loss and
  writing its frames; the runner's model is then the trained one.
- `lerp` interpolates between two latent states.
- `write_image` and `image_colormaps` decide which colour variants are
  written, and under which file names.
- `load_tif_metadata` reads a TIFF's metadata block and normalises it
  into a dictionary. Legacy keys are tolerated.

How the model is built:

- **Exceptions.** A Python exception is an `Err` of `Python.PyError`.
- **The filesystem.** It is a `Storage.Disk` object whose `nodes` map
  records each file's content.
- **Writes.** Every write is a `(name, content)` pair. The effect of a
  call is `ApplyWrites` of the writes it made before it returned or
  raised, so files written before an exception stay written.
- **The network.** It is a datatype of functions. These stand for
  sampling, generation, the metadata record and one epoch of training.
- **Imperative code.** Each method of the runner is an imperative
  method. It is proved equal to a function in `RunnerSpec` that states
  the call's result and its writes. The properties the runner promises
  are lemmas about those functions.
- **Step-by-step updates.** `lerp`, `image_colormaps` and
  `load_tif_metadata` fill a list or dictionary one entry at a time. They
  are methods too, proved against functions.

Several behaviours of the code are modelled as written, and their
consequences are proved:

- `reinit_model_from_metadata` returns `metadata['latent']`. A
  dictionary read by `load_tif_metadata` never holds that key, because
  the decoder stores the latents under `latents`. Reinitialising from a
  file therefore always raises: `KeyError('latent')` once the new model
  is bound, or an earlier error (`RunnerSpec.ReinitFromFile`).
- `regen_frames` consequently never returns (`RunnerSpec.RegenNeverReturns`):
  - it raises at the first input not already reproduced;
  - when every input is skipped, or there is none, it raises
    `UnboundLocalError` on `frames`;
  - a path that is neither a file nor a directory reaches the loop with
    `image_paths` unbound, because its `ValueError` is built but never
    raised.
- The "already reproduced" check looks for `{save_fn}_0_rgb.png`. Without
  colormaps the save loop writes `{save_fn}_0.png` instead
  (`RunnerSpec.SaveFramesMissMarker`).
- The `endswith('reproduce')` strip never applies to a `.tif` name
  (`RunnerSpec.TifNameNotStripped`).
- `write_video` is called with a `save_name` argument it does not accept,
  which raises `TypeError`.
- `astype(np.uint8)` truncates toward zero and wraps modulo 256. A value
  outside the activation's range therefore wraps
  (`RunnerSpec.OutOfRangeWraps`).
- `cv2.imwrite` of a `None` entry raises. An unknown colormap name makes
  `write_image` fail after writing the entries before it.
- `cv2.cvtColor` refuses a frame whose channel count does not suit the
  conversion. A frame with four channels, say, makes `write_image` with
  colormaps raise before anything is written
  (`Images.ColormapsErrorChannels`).

## Model

| member | source | states |
|---|---|---|
| Python.Trunc | neural_canvas/runners/runner2d.py:108-112 | the integer part of a real, rounded toward zero, as the float-to-integer cast takes it |
| Python.IntOf | neural_canvas/utils/utils.py:211-216 | `int(v)` succeeds exactly on booleans, numbers (floats truncated toward zero) and strings whose whitespace-stripped text is an optionally signed run of decimal digits, single underscores allowed between digits, giving that integer; a string that does not parse raises `ValueError`, any other value `TypeError` |
| Python.FloatOf | neural_canvas/utils/utils.py:213 | `float(v)` succeeds exactly on booleans, numbers (keeping their value) and strings whose stripped text is a signed decimal with optional point and exponent, giving its value; a string that does not parse raises `ValueError`, any other value `TypeError` |
| Python.Strip | neural_canvas/utils/utils.py:211-216 | the text `int()` and `float()` read has no whitespace at either end |
| Python.StripPadded | neural_canvas/utils/utils.py:211-216 | whitespace around a text that neither starts nor ends with whitespace is removed, and the text is kept whole |
| Python.ParseDigits | neural_canvas/utils/utils.py:211-216 | a digit string is read exactly when it is digits with single underscores between digits |
| Python.ParseInt | neural_canvas/utils/utils.py:211-216 | an integer text is read exactly when what follows the optional sign is such a digit string |
| Python.NatTextIsDigitGroups | neural_canvas/utils/utils.py:211-216 | the decimal text of a natural number is a digit string that reads back as the number |
| Python.IntOfIntText | neural_canvas/utils/utils.py:211-216 | `int()` of any integer's decimal text, surrounded by whitespace, gives the integer back |
| Python.FloatOfIntText | neural_canvas/utils/utils.py:213 | `float()` of any integer's decimal text, surrounded by whitespace, gives that integer as a number |
| Python.FloatOfText | neural_canvas/utils/utils.py:213 | `float()` of a string gives the value its stripped text reads as |
| Python.FloatOfPointText | neural_canvas/utils/utils.py:213 | `float(' 1.5\n')` is 1.5 |
| Python.FloatOfScientificText | neural_canvas/utils/utils.py:213 | `float()` of the text `{m}e{e}` is m times ten to the e, for every natural m and integer e |
| Python.IntOfRejects | neural_canvas/utils/utils.py:211 | `int('1.5')` raises `ValueError`; 'x' and '1__0' are rejected too |
| Python.FloatOfRejects | neural_canvas/utils/utils.py:213 | `float('.')` raises `ValueError`; '1e' is rejected too |
| Python.Dims | neural_canvas/utils/utils.py:241-246 | a number has no dimensions; a list that a tensor can be built from has its length first, followed by the dimensions its items share; `None`, a string or a tensor has none |
| Python.MatrixDims | neural_canvas/utils/utils.py:241-246 | n rows of k numbers each have the dimensions [n, k] |
| Python.RowDims | neural_canvas/utils/utils.py:241-246 | a list of k numbers has the dimensions [k] |
| Python.RaggedDims | neural_canvas/utils/utils.py:241-246 | rows of different lengths have no dimensions |
| Python.TensorOf | neural_canvas/utils/utils.py:243 | `torch.Tensor(v)` succeeds exactly on a list with dimensions, a tensor (returned as it is) or a non-negative int; a negative int raises `RuntimeError`, any other list `ValueError`, anything else `TypeError` |
| Python.NewTensorOf | neural_canvas/utils/utils.py:246 | `torch.tensor(v)` succeeds exactly on a number, a list with dimensions or a tensor; `None` raises `RuntimeError`, any other list `ValueError`, anything else `TypeError` |
| Text.NatToString | neural_canvas/runners/runner2d.py:120 | the decimal text of an index is a nonempty string of digits, with one digit exactly for numbers below ten |
| Text.DigitsValueOfNatToString | neural_canvas/runners/runner2d.py:120 | reading the printed digits back gives the number |
| Text.NatToStringInjective | neural_canvas/runners/runner2d.py:120 | distinct indices print as distinct text, so the save names of distinct samples differ |
| Text.IntToString | neural_canvas/runners/runner2d.py:39 | the text of a negative integer is '-' followed by the digits of its magnitude; a non-negative one prints as its digits |
| Text.Lower | neural_canvas/utils/utils.py:163 | lower-casing keeps the length and maps each ASCII capital to its small letter, leaving other characters alone |
| Text.DropLast | neural_canvas/runners/runner2d.py:198 | `s[:-k]` is a prefix of `s`, `k` characters shorter, or empty when `s` is shorter than `k` |
| Text.SplitHead | neural_canvas/runners/runner2d.py:197 | `s.split(sep)[0]` is the prefix of `s` before the first occurrence of `sep`, or all of `s` when `sep` does not occur |
| Text.Basename | neural_canvas/runners/runner2d.py:195 | the basename is a suffix of the path without '/', preceded in the path by '/' when it is not the whole path |
| Text.Join | neural_canvas/runners/runner2d.py:198 | POSIX two-argument `os.path.join`: an absolute second part replaces the first; otherwise a '/' is inserted only when the first part is nonempty and does not end in '/' |
| Storage.ApplyWrites | neural_canvas/utils/utils.py:146-156 | after a sequence of writes the filesystem holds the old names plus the written ones, and a name never written keeps its old content |
| Storage.ApplyWritesAppend | neural_canvas/runners/runner2d.py:216-218 | writing two batches one after the other is writing their concatenation |
| Storage.WritesElsewhere | neural_canvas/runners/runner2d.py:216-218 | writes to other names leave a file's content as it was |
| Storage.LastWriteWins | neural_canvas/utils/utils.py:155-156 | a name holds the content of the last write to it |
| Storage.Disk.WriteAll | neural_canvas/utils/utils.py:146-156 | the disk after writing a batch is `ApplyWrites` of the disk before |
| Interpolation.Lerp | neural_canvas/utils/utils.py:19-28 | for n >= 0 the append loop builds n + 2 states, each with z1's sample shape; it starts at z1, ends exactly at z2 and advances by the same step (z2 - z1) / (n + 1) between neighbours; for n <= -2 `range` is empty and no state is built |
| Interpolation.LerpStartsAtZ1 | neural_canvas/utils/utils.py:24 | state 0 is z1 |
| Interpolation.LerpEndsAtZ2 | neural_canvas/utils/utils.py:20-24 | state n + 1 is z2: the n + 1 steps add up to z2 - z1 |
| Interpolation.LerpEvenlySpaced | neural_canvas/utils/utils.py:20-24 | consecutive states differ by the step (z2 - z1) / (n + 1) |
| Interpolation.LerpStateCoordinate | neural_canvas/utils/utils.py:20-24 | coordinate k of state i is the affine combination z1 + (z2 - z1) * i / (n + 1) |
| Images.LowerKeysHoldsLoweredNames | neural_canvas/utils/utils.py:163 | the comprehension's keys are the lower-cased requested names |
| Images.ImageColormaps | neural_canvas/utils/utils.py:161-189 | raises the `cv2.cvtColor` error exactly when `ColormapsError` says a conversion refuses the frame; otherwise filling the dictionary in place, key by key, gives the dictionary `Colormaps` describes |
| Images.FillFromRgb | neural_canvas/utils/utils.py:164-175 | for a frame whose last dimension is 3, the first requested conversion raises unless OpenCV reads the frame as three channels; otherwise the conditional assignments turn the comprehension into `Colormaps` |
| Images.FillFromGray | neural_canvas/utils/utils.py:176-188 | for any other frame, the grey-to-RGB conversion raises before any assignment unless OpenCV reads the frame as one channel; otherwise the frame is the 'gray' entry and the conditional assignments, converting from its RGB version, turn the comprehension into `Colormaps` |
| Images.ConvertFromRgb | neural_canvas/utils/utils.py:166-175 | one conditional conversion of the three-channel branch raises exactly when the dict holds its key and OpenCV does not read the frame as three channels; otherwise it is the conditional assignment `SetIfPresent` |
| Images.SetIfPresent | neural_canvas/utils/utils.py:166-188 | a conditional assignment keeps the dict's keys and order, and a key the dict holds gets the new value |
| Images.RgbRaises | neural_canvas/utils/utils.py:163-175 | a requested conversion of a frame not read as three channels is the error `image_colormaps` raises |
| Images.RgbNotRaising | neural_canvas/utils/utils.py:163-175 | when no conversion is requested, or the frame is read as three channels, `image_colormaps` does not raise |
| Images.RgbFilled | neural_canvas/utils/utils.py:165-175 | the five conditional assignments of the three-channel branch, after 'rgb' is stored, give `Colormaps` |
| Images.GrayFilled | neural_canvas/utils/utils.py:177-188 | the five conditional assignments of the grey branch, after 'gray' is stored, give `Colormaps` |
| Images.SettleKey | neural_canvas/utils/utils.py:166-175 | one conditional assignment settles its key and leaves the other entries and the key order unchanged |
| Images.AfterAddedKey | neural_canvas/utils/utils.py:165 | once the added key is stored, the only entries still to settle are those of the other known colormaps |
| Images.ImageColormapsKeys | neural_canvas/utils/utils.py:161-189 | the keys are exactly the lower-cased requested names plus 'rgb' or 'gray', in first-request order, with the added key last unless it was requested |
| Images.ImageColormapsKeepsInput | neural_canvas/utils/utils.py:164-178 | the added key maps to the input frame, unchanged |
| Images.ImageColormapsUnknownStayNone | neural_canvas/utils/utils.py:163-188 | a requested name stays `None` exactly when it is not one of rgb, hsv, gray, lab, hls, luv |
| Images.WriteEntries | neural_canvas/utils/utils.py:144-147 | the colormap loop writes entry j as `path_{key}.{suffix}` in key order; it completes exactly when no entry is `None`, and otherwise stops at the first `None` entry with the files before it written |
| Images.WriteImageSuffixCheck | neural_canvas/utils/utils.py:140 | `write_image` raises `AssertionError` exactly for a suffix outside jpg, png, bmp, jpeg, tif, and then writes nothing |
| Images.WriteImagePlain | neural_canvas/utils/utils.py:148-151 | without colormaps a raster suffix writes the single file `path.suffix` holding the frame |
| Images.WriteImageColormaps | neural_canvas/utils/utils.py:141-147 | with colormaps a raster suffix first builds the dictionary: a refused conversion raises before anything is written; otherwise the call succeeds exactly when every requested name is a known colormap, writing one file `path_{cmap}.{suffix}` per colormap key, and fails only with the imwrite error |
| Images.ColormapsErrorChannels | neural_canvas/utils/utils.py:163-177 | a non-empty height x width frame with one or three channels never makes `image_colormaps` raise; one with any other number of channels always does |
| Images.WrittenNames | neural_canvas/utils/utils.py:144-147 | a colormap loop that completes writes exactly one file per key |
| Images.NamesOfWrites | neural_canvas/utils/utils.py:144-147 | writes named after the keys, one per key, write exactly the files of those keys |
| Images.WriteImageTif | neural_canvas/utils/utils.py:152-156 | the TIFF branch writes `path.tif` with the frame and the metadata block, and warns exactly when no metadata is given |
| Images.WriteImageNamedAfter | neural_canvas/utils/utils.py:138-158 | every file `write_image` writes is named `path` followed by '.' or '_' |
| Images.EntriesNamedAfter | neural_canvas/utils/utils.py:144-147 | every file the colormap loop writes is named `path_...` |
| TifMetadata.Get | neural_canvas/utils/utils.py:211 | `d[k]` succeeds exactly when `k` is a key, and otherwise raises `KeyError(k)` |
| TifMetadata.Latents | neural_canvas/utils/utils.py:241-250 | the latents step adds the key `latents`, holding the value the tensor constructor built, and leaves every other field as it was |
| TifMetadata.Normalise | neural_canvas/utils/utils.py:252-255 | the normalisations need both keys present; afterwards `input_encoding_dim` is never `None`, `activations` is never 'basic', and every other field is unchanged |
| TifMetadata.Missing | neural_canvas/utils/utils.py:226-228 | an optional-key loop issues at most one warning per key, each about a missing key |
| TifMetadata.ConvertErrors | neural_canvas/utils/utils.py:211-216 | a conversion fails only for an integer or float field, with `ValueError` for a string that does not parse and `TypeError` for any other value |
| TifMetadata.RequiredErrors | neural_canvas/utils/utils.py:210-218 | the dict literal of required fields fails only with a decoding error: `KeyError`, `TypeError`, `ValueError` or `RuntimeError` |
| TifMetadata.OptionalErrors | neural_canvas/utils/utils.py:223-240 | an optional-key loop fails only with a decoding error: a present value that does not convert |
| TifMetadata.DecodeErrors | neural_canvas/utils/utils.py:210-255 | decoding a block fails only with `KeyError`, `TypeError`, `ValueError` or `RuntimeError` |
| TifMetadata.LatentsErrors | neural_canvas/utils/utils.py:241-250 | building the latents tensor fails only with a decoding error; for a `latents` value, a negative int raises `RuntimeError`, a list without dimensions `ValueError`, any other value `TypeError` |
| TifMetadata.MissingExactly | neural_canvas/utils/utils.py:226-228 | a loop warns about a key exactly when the key is one of its own and the block lacks it |
| TifMetadata.OptionalOk | neural_canvas/utils/utils.py:223-240 | an optional-key loop fails exactly when a present value does not convert; a missing key is tolerated |
| TifMetadata.OptionalKeys | neural_canvas/utils/utils.py:223-240 | a successful loop adds exactly its own keys |
| TifMetadata.OptionalFields | neural_canvas/utils/utils.py:223-240 | a successful loop stores each of its keys converted from the block, or `None` when the block lacks it |
| TifMetadata.OptionalKeeps | neural_canvas/utils/utils.py:223-240 | a successful loop leaves every other field as it was |
| TifMetadata.OptionalWarnings | neural_canvas/utils/utils.py:223-240 | a successful loop warns once per missing key, in key order |
| TifMetadata.RequiredOk | neural_canvas/utils/utils.py:210-218 | the required fields succeed exactly when every key is present and converts |
| TifMetadata.RequiredFields | neural_canvas/utils/utils.py:210-218 | with distinct keys, the result holds exactly the required fields, each the converted value from the block |
| TifMetadata.RequiredKeeps | neural_canvas/utils/utils.py:210-218 | a field the literal does not name keeps its value |
| TifMetadata.DecodeKeys | neural_canvas/utils/utils.py:210-256 | a decoded dictionary has exactly the fixed key set, which never includes the legacy `latent` |
| TifMetadata.LatentNotDecoded | neural_canvas/utils/utils.py:210-250 | `latent` is none of the keys the decoder stores |
| TifMetadata.RequiredKeysDistinct | neural_canvas/utils/utils.py:210-218 | the required keys are distinct, with `x_dim` fourth |
| TifMetadata.DecodeRequiredFields | neural_canvas/utils/utils.py:210-218 | every required field of a decoded dictionary is the block's value, converted |
| TifMetadata.DecodeZDim | neural_canvas/utils/utils.py:219-222 | `z_dim` is the block's `z_dim`, or its `x_dim` when absent, as an integer |
| TifMetadata.DecodeOptionalFields | neural_canvas/utils/utils.py:223-240 | each optional field, except the two normalised ones, is the block's value converted, or `None` when absent |
| TifMetadata.DecodeNormalised | neural_canvas/utils/utils.py:223-255 | `input_encoding_dim` is the block's value as an integer, or 1 when absent; `activations` is the block's value, or `None`, with 'basic' read as 'fixed' |
| TifMetadata.NormaliseValues | neural_canvas/utils/utils.py:252-255 | what the two normalisations store, given both keys |
| TifMetadata.DecodeLatents | neural_canvas/utils/utils.py:241-250 | `latents` is `torch.Tensor` of the block's `latents`, else `torch.tensor` of its legacy `latent`, else `None`; the legacy warning is issued exactly when only `latent` is present |
| TifMetadata.AfterZDimOk | neural_canvas/utils/utils.py:223-256 | everything after `z_dim` succeeds exactly when every present optional numeric field converts and the latents tensor can be built |
| TifMetadata.AfterIntsOk | neural_canvas/utils/utils.py:229-256 | everything after the integer loop succeeds exactly when every present float field converts and the latents tensor can be built |
| TifMetadata.AfterFloatsOk | neural_canvas/utils/utils.py:235-256 | the string loop and the normalisations cannot fail: what follows the float loop succeeds exactly when the latents tensor can be built |
| TifMetadata.DecodeSucceeds | neural_canvas/utils/utils.py:210-256 | a block decodes exactly when every required field is present and converts, `z_dim` (or `x_dim`) converts to an integer, every present optional numeric field converts, and `latents` (or the legacy `latent`) builds a tensor |
| TifMetadata.LoadTifMetadata | neural_canvas/utils/utils.py:201-256 | the method is `LoadSpec`: `AssertionError` exactly when the path is not a file; a file that is not a TIFF with a metadata block gives `(None, None)` with a warning; any other error is `KeyError`, `TypeError`, `ValueError` or `RuntimeError`; image and metadata are present together |
| TifMetadata.DecodeBlock | neural_canvas/utils/utils.py:210-255 | filling the dictionary key by key in loops gives `Decode` of the block |
| RunnerSpec.Schedule | neural_canvas/runners/runner2d.py:90-97 | the i-th schedule entry when a schedule is given and long enough, the default without one, and `IndexError` past its end |
| RunnerSpec.ReshapedShape | neural_canvas/runners/runner2d.py:102-105 | the reshape succeeds exactly when x*y*c is positive and divides the element count; the shape then ends in (x, y, c), keeps the element count, and has no leading dimension exactly when the count is x*y*c |
| RunnerSpec.ToUint8 | neural_canvas/runners/runner2d.py:107-112 | a value whose truncation lies in [0, 255] becomes that byte |
| RunnerSpec.FrameAt | neural_canvas/runners/runner2d.py:90-112 | a generated frame has at least three dimensions |
| RunnerSpec.Max | neural_canvas/runners/runner2d.py:115 | `frame.max()` is an element no smaller than any other |
| RunnerSpec.Min | neural_canvas/runners/runner2d.py:115 | `frame.min()` is an element no larger than any other |
| RunnerSpec.Blank | neural_canvas/runners/runner2d.py:114-117 | a frame is blank exactly when any two of its bytes differ by less than 15; an empty frame raises `ValueError` |
| RunnerSpec.SavePrefix | neural_canvas/runners/runner2d.py:38-41 | 'gen_image' without `save_verbose`; with it and no model, `AttributeError`; otherwise a nonempty relative name |
| RunnerSpec.SavePathFromStem | neural_canvas/runners/runner2d.py:120 | `save_fn` is the call's stem followed by the sample index |
| RunnerSpec.SavePathInOutputDir | neural_canvas/runners/runner2d.py:120 | with a relative prefix, every save name lies inside the output directory |
| RunnerSpec.OwnerUnique | neural_canvas/runners/runner2d.py:120-124 | a file name belongs to at most one sample of a call |
| RunnerSpec.DistinctSamplesDistinctFiles | neural_canvas/runners/runner2d.py:120-124 | distinct samples of one call never write to the same file |
| RunnerSpec.RunOf | neural_canvas/runners/runner2d.py:89-125 | after n iterations there are as many frames as metadata records, and no more than n |
| RunnerSpec.RunFramesSpec | neural_canvas/runners/runner2d.py:58-126 | without a model the call raises `AssertionError` and writes nothing; a call that returns gives as many frames as metadata records, at most `num_samples` |
| RunnerSpec.RunErrorSticks | neural_canvas/runners/runner2d.py:89-125 | an exception ends the loop: later iterations change nothing |
| RunnerSpec.RunKeptIncreasing | neural_canvas/runners/runner2d.py:89-125 | the retained samples are loop indices, in increasing order |
| RunnerSpec.RunStep | neural_canvas/runners/runner2d.py:118-125 | an iteration that writes appends its files, and the loop goes on exactly when the sample is retained |
| RunnerSpec.RunKeptExactly | neural_canvas/runners/runner2d.py:89-125 | a loop that completes had no failing iteration and retained exactly the samples not skipped |
| RunnerSpec.RunAligned | neural_canvas/runners/runner2d.py:118-125 | frame j and metadata record j were retained together, by the same sample |
| RunnerSpec.RunKeepsEverySample | neural_canvas/runners/runner2d.py:89-125 | with no sample skipped, a loop that completes retains every sample in order |
| RunnerSpec.RunWritesNothing | neural_canvas/runners/runner2d.py:89-125 | a loop whose iterations write nothing writes nothing |
| RunnerSpec.SampleOutcomeFacts | neural_canvas/runners/runner2d.py:98-124 | a sample is skipped exactly when it generates and fails the blank check; a retained sample produced its frame and metadata; without `skip_blank_generations` nothing is skipped; without autosave nothing is written |
| RunnerSpec.RunFramesAligned | neural_canvas/runners/runner2d.py:89-126 | `frames[j]` and `metadata[j]` are the frame and metadata record of one sample that passed the blank check |
| RunnerSpec.RunFramesRetainsExactly | neural_canvas/runners/runner2d.py:89-126 | a call that returns generated every sample and retained exactly those that passed the blank check |
| RunnerSpec.RunFramesCount | neural_canvas/runners/runner2d.py:89-126 | without `skip_blank_generations`, a call that returns has one frame per sample, in sample order |
| RunnerSpec.RunFramesWithoutAutosave | neural_canvas/runners/runner2d.py:119 | with autosave off, `run_frames` writes nothing |
| RunnerSpec.AutosaveWrites | neural_canvas/runners/runner2d.py:119-124 | every autosave file is named after `save_fn`, and a completed autosave ends with the TIFF holding the frame and its metadata |
| RunnerSpec.RunSavesRetained | neural_canvas/runners/runner2d.py:89-125 | when every sample writes only its own files, each retained frame's TIFF survives the loop |
| RunnerSpec.RetainedStep | neural_canvas/runners/runner2d.py:118-125 | a retained sample keeps the earlier TIFFs and adds its own |
| RunnerSpec.SavedAfter | neural_canvas/runners/runner2d.py:119-124 | appending one sample's files, the last being its TIFF, keeps the earlier samples' TIFFs and adds its own |
| RunnerSpec.OthersUntouched | neural_canvas/runners/runner2d.py:119-124 | one sample's files leave every earlier sample's TIFF as it was |
| RunnerSpec.NotOverwritten | neural_canvas/runners/runner2d.py:119-124 | a file owned by one sample is never another sample's TIFF |
| RunnerSpec.RetainedAutosave | neural_canvas/runners/runner2d.py:119-124 | with autosave, a retained sample completed its autosave and wrote exactly its files |
| RunnerSpec.AutosaveOwnFiles | neural_canvas/runners/runner2d.py:119-124 | with autosave, each sample writes only files named after its own `save_fn`, the last being its TIFF |
| RunnerSpec.RunFramesSavesEachFrame | neural_canvas/runners/runner2d.py:58-126 | with autosave, after a call that returns, `{save_fn}.tif` of every returned frame holds that frame and its metadata record |
| RunnerSpec.RunFramesReload | neural_canvas/runners/runner2d.py:119-124 | `load_tif_metadata` of a returned frame's TIFF gives back the frame and the decoded metadata, and fails exactly when the record does not decode |
| RunnerSpec.SigmoidInRange | neural_canvas/runners/runner2d.py:107-108 | a sigmoid output in [0, 1] becomes a byte in [0, 255] without wrapping |
| RunnerSpec.TanhInRange | neural_canvas/runners/runner2d.py:109-110 | a tanh output in [-1, 1] becomes a byte in [0, 255] without wrapping |
| RunnerSpec.OtherActivationScaledAsSigmoid | neural_canvas/runners/runner2d.py:107-112 | any final activation other than tanh is scaled as the sigmoid is |
| RunnerSpec.OutOfRangeWraps | neural_canvas/runners/runner2d.py:107-112 | values just outside the range wrap: 256.0 becomes 0 and -1 becomes 255 |
| RunnerSpec.FirstMissing | neural_canvas/runners/runner2d.py:143-156 | the position of the first model field missing from the metadata, all earlier ones being present |
| RunnerSpec.Lookup | neural_canvas/runners/runner2d.py:143-156 | the lookups succeed exactly when every field is present, giving their values in order; otherwise `KeyError` names the first missing field |
| RunnerSpec.ReinitSpec | neural_canvas/runners/runner2d.py:128-158 | a shape without three entries raises and leaves the model as it was; a changed model is bound only with a valid shape; a call that returns has bound a model |
| RunnerSpec.LookupModelKeys | neural_canvas/runners/runner2d.py:143-156 | the lookups succeed exactly when every model field is present, and then give `ModelFields` |
| RunnerSpec.ReinitFromMetadata | neural_canvas/runners/runner2d.py:138-158 | given metadata, the call returns exactly when the shape has three entries and the metadata holds every model field and `latent`, and then returns `metadata['latent']`; with all fields and a valid shape the new model is bound even when `latent` is missing; a missing field raises `KeyError` on the first one and keeps the old model |
| RunnerSpec.ModelKeysDecoded | neural_canvas/runners/runner2d.py:143-156 | every field the model is built from is a key the decoder stores |
| RunnerSpec.LoadedKeys | neural_canvas/utils/utils.py:201-256 | a dictionary read from a file has exactly the decoded keys |
| RunnerSpec.ReinitFromFile | neural_canvas/runners/runner2d.py:138-158 | reinitialising from a file always raises: the read error; a subscript of `None` for a file without metadata; or, for one that decodes with a valid shape, `KeyError('latent')` after binding the model built from it |
| RunnerSpec.TifNameNotStripped | neural_canvas/runners/runner2d.py:195-198 | for a `.tif` input, `save_fn` is the output directory joined with the basename minus its extension plus `_reproduce` |
| RunnerSpec.TifBasenameKept | neural_canvas/runners/runner2d.py:196-197 | the `reproduce` strip leaves a `.tif` basename as it is |
| RunnerSpec.SameLastChar | neural_canvas/runners/runner2d.py:196 | strings that end with one another share their last character |
| RunnerSpec.RegenLoopStops | neural_canvas/runners/runner2d.py:194-221 | when the first k inputs leave the state unchanged and input k raises, the loop ends in the state input k leaves |
| RunnerSpec.RegenLoopNext | neural_canvas/runners/runner2d.py:194-221 | a loop that has not raised takes one more input by one step |
| RunnerSpec.RegenOfNext | neural_canvas/runners/runner2d.py:194-221 | the loop over the inputs advances one input by `RegenStep` |
| RunnerSpec.RegenOfErrorSticks | neural_canvas/runners/runner2d.py:194-221 | the loop over the inputs stops at the first input that raises |
| RunnerSpec.RegenLoopErrorSticks | neural_canvas/runners/runner2d.py:194-221 | an exception ends the loop: later inputs are never visited |
| RunnerSpec.RegenSpec | neural_canvas/runners/runner2d.py:187 | a path that does not exist raises the `AssertionError`, writes nothing and keeps the model |
| RunnerSpec.SaveFramesKeepsEach | neural_canvas/runners/runner2d.py:216-218 | a save loop that completes leaves `{save_fn}_{i}.tif` holding frame i and its metadata, for every frame |
| RunnerSpec.GenerationWritesNothing | neural_canvas/runners/runner2d.py:206-211 | the `run_frames` call of `regen_frames` writes nothing |
| RunnerSpec.ReproduceNoFrames | neural_canvas/runners/runner2d.py:212-214 | when generation yields no frame, nothing is written and `frames` stays `[]` |
| RunnerSpec.AfterGenerationSaves | neural_canvas/runners/runner2d.py:212-221 | with `save_video` the input never reaches `frames = None`; when it does reach it, every generated frame's TIFF holds that frame and its metadata |
| RunnerSpec.ReproduceSavesEachFrame | neural_canvas/runners/runner2d.py:206-221 | the same, for the frames `run_frames` generates after the reinitialisation |
| RunnerSpec.RunAvoids | neural_canvas/runners/runner2d.py:216-218 | a name no iteration writes is not written by the loop |
| RunnerSpec.SaveFramesMissMarker | neural_canvas/runners/runner2d.py:199-218 | without colormaps, the save loop never writes `{save_fn}_0_rgb.png`, the file the skip check looks for |
| RunnerSpec.FirstUndone | neural_canvas/runners/runner2d.py:194-201 | the position of the first input that is not done, all earlier ones being done |
| RunnerSpec.FirstUnskipped | neural_canvas/runners/runner2d.py:194-201 | the position of the first input not already reproduced, all earlier ones being reproduced |
| RunnerSpec.StepSkips | neural_canvas/runners/runner2d.py:199-201 | an input already reproduced is skipped and leaves the state as it was |
| RunnerSpec.StepFails | neural_canvas/runners/runner2d.py:205 | any other input raises in the reinitialisation, keeping the model the reinitialisation leaves |
| RunnerSpec.RegenOfStops | neural_canvas/runners/runner2d.py:194-221 | the loop skips inputs already reproduced and raises at the first other input; nothing is written and `frames` is never bound |
| RunnerSpec.RegenNeverReturns | neural_canvas/runners/runner2d.py:160-222 | `regen_frames` always raises and writes nothing; for an existing path whose inputs can be listed, the result is `RegenOutcome` of those inputs |
| RunnerSpec.FitOf | neural_canvas/runners/runner2d.py:256-270 | after n epochs there are n losses, the e-th being epoch e's loss |
| RunnerSpec.FitSpec | neural_canvas/runners/runner2d.py:224-272 | `fit` returns exactly when a model with a convolutional map is bound, otherwise raising `AssertionError` before writing anything; it returns one loss per epoch, in order |
| RunnerSpec.EpochWritesAre | neural_canvas/runners/runner2d.py:267-270 | one epoch writes `fit_{e}.png`, `fit_{e}.tif`, `fit_{e}_test.png` and `fit_{e}_test.tif`, in that order, with the epoch's frames |
| RunnerSpec.EpochOwnsWrites | neural_canvas/runners/runner2d.py:267-270 | every file of epoch e is named after `fit_{e}` |
| RunnerSpec.EpochLeavesOthers | neural_canvas/runners/runner2d.py:267-270 | no file of epoch e is a TIFF of another epoch |
| RunnerSpec.EpochKeepsOwnTiff | neural_canvas/runners/runner2d.py:267-270 | the epoch's test files do not overwrite its frame TIFF; after the epoch both TIFFs hold its frames |
| RunnerSpec.FitSavesEachEpoch | neural_canvas/runners/runner2d.py:256-270 | after `fit`, each epoch's TIFF and test TIFF hold that epoch's frames: no later epoch overwrites them |
| RunnerSpec.EpochSaved | neural_canvas/runners/runner2d.py:267-270 | writing epoch n keeps the earlier epochs' TIFFs and adds its own |
| RunnerSpec.EpochKeepsEarlier | neural_canvas/runners/runner2d.py:267-270 | epoch n's files leave an earlier epoch's two TIFFs as they were |
| RunnerSpec.FitTiffsNotReloadable | neural_canvas/runners/runner2d.py:267-270 | a TIFF written by `fit` has no metadata, so `load_tif_metadata` reads it as `(None, None)` |
| Runner2D.Runner.constructor | neural_canvas/runners/runner2d.py:35-45 | the runner holds the given model, output directory, flags and colormaps, and the save prefix `SavePrefix` gives |
| Runner2D.Runner.Create | neural_canvas/runners/runner2d.py:35-45 | construction fails with `AttributeError` exactly when `save_verbose` is set without a model; otherwise the new runner holds the arguments and 'gen_image' or the verbose prefix |
| Runner2D.Runner.GenerateFrame | neural_canvas/runners/runner2d.py:90-112 | one iteration's frame and sample are `Sampled` |
| Runner2D.Runner.SaveSample | neural_canvas/runners/runner2d.py:119-124 | the autosave's result is `Autosave`, and the disk gains exactly its writes |
| Runner2D.Runner.Sample | neural_canvas/runners/runner2d.py:90-124 | iteration i's outcome is `SampleOutcomeAt`, and the disk gains exactly its writes |
| Runner2D.Runner.RunNext | neural_canvas/runners/runner2d.py:90-125 | one iteration takes the loop state after i samples to the state after i + 1 |
| Runner2D.Runner.RunFrames | neural_canvas/runners/runner2d.py:58-126 | the result is `RunFramesSpec`'s, and the disk gains exactly its writes |
| Runner2D.Runner.RunSamples | neural_canvas/runners/runner2d.py:89-125 | the loop ends in the state `RunOf` gives after `num_samples` iterations, and the disk gains exactly its writes |
| Runner2D.Runner.MetadataFor | neural_canvas/runners/runner2d.py:138-139 | the metadata given, or the one `load_tif_metadata` reads from `path` |
| Runner2D.Runner.ReinitModelFromMetadata | neural_canvas/runners/runner2d.py:128-158 | the bound model and the result are `ReinitSpec`'s; the runner's other settings are unchanged |
| Runner2D.Runner.SaveReproduced | neural_canvas/runners/runner2d.py:216-218 | the save loop's error and writes are `SaveFrames`', and the disk gains exactly those writes |
| Runner2D.Runner.SaveNext | neural_canvas/runners/runner2d.py:217-218 | one iteration of the save loop takes its state after i frames to the state after i + 1 |
| Runner2D.Runner.RegenOne | neural_canvas/runners/runner2d.py:194-221 | one input takes the loop state to `RegenStep`'s, on the disk that the earlier inputs left |
| Runner2D.Runner.ReproduceFrom | neural_canvas/runners/runner2d.py:206-221 | generation, the save loop and the ending are `Reproduce`'s, and the disk gains exactly its writes |
| Runner2D.Runner.RegenFrames | neural_canvas/runners/runner2d.py:160-222 | the bound model, the result and the writes are `RegenSpec`'s, and the settings are unchanged |
| Runner2D.Runner.RegenPaths | neural_canvas/runners/runner2d.py:194-221 | the loop over the inputs ends in `RegenOf`'s state, and the disk gains exactly its writes |
| Runner2D.Runner.RegenNext | neural_canvas/runners/runner2d.py:194-221 | one input takes the state after i inputs to the state after i + 1 |
| Runner2D.Runner.WriteEpoch | neural_canvas/runners/runner2d.py:267-270 | the disk gains exactly the epoch's four files |
| Runner2D.Runner.TrainEpoch | neural_canvas/runners/runner2d.py:256-270 | one epoch trains the model in place, one more epoch past the weights it had, returns that epoch's loss and writes its four files; the other fields stay as they were |
| Runner2D.Runner.TrainEpochs | neural_canvas/runners/runner2d.py:256-270 | the loop returns the losses of epochs 0 to n-1 in order, the disk gains exactly their files, and the model ends trained for n epochs |
| Runner2D.Runner.Fit | neural_canvas/runners/runner2d.py:224-272 | the result is `FitSpec`'s, and the disk gains exactly its writes; the runner's model becomes `FitModel`'s, trained in place for every epoch, and its other fields stay as they were |
| RunnerSpec.FitKeepsSettings | neural_canvas/runners/runner2d.py:242-258 | training touches only the weights: after `fit` the runner has a model exactly when it had one, the save prefix and the outcome of a later `fit`'s assertions are unchanged, and a `fit` that raises or runs no epoch leaves the model as it was |

## Left out

- Randomness is a parameter, not a draw. `randID` in `run_frames` is passed in. The draws of `init_latent_inputs` are a function of the sample index, and training is a function of the epoch index.
- The neural network is not interpreted. Sampling, generation, the metadata record (`_metadata`) and one epoch of `model.fit` are fields of the model datatype. The weights that `fit` leaves behind are named by the history of `fit` calls, through the field `retrain`. The constructor with `init_map_fn` is the parameter `build`. The optimiser, the learning-rate scheduler, `LossModule`, `torch.no_grad` and devices are not modelled.
- Floating point is exact real arithmetic. Rounding, NaN and infinities are not modelled.
- Tensors are flat sequences. `torch.Tensor` and `torch.tensor` of the latents check the value's shape and wrap it; its elements are not converted.
- Encoders are not interpreted. `cv2.imwrite` and `tifffile.imwrite` record what they were handed, and `cv2.cvtColor` records the conversion it applied. Its one modelled failure is a frame whose channel count does not suit the conversion, or with more than three dimensions or an empty one. Other encoder failures, such as an unsupported pixel depth, are not modelled. The `os.path.isfile` checks after each write always hold in the model.
- `tifffile` reading and writing are not interpreted. A file holds a metadata block only when a TIFF was written with one; any other file reads as `(None, None)`. The metadata is stored and read back as the value written: `tifffile`'s JSON encoding of the block is not modelled, so the `shape` key it adds, tuples coming back as lists, and the error it raises at write time for a value JSON cannot encode are not captured.
- `write_video` is not interpreted. The model has only the `TypeError` its `save_name` keyword raises.
- `glob` is not interpreted. The list of `*.tif` paths in a directory is a parameter of `regen_frames`.
- Logging, `print`, `warnings.warn` and `tqdm` are left out as I/O. The warnings of `load_tif_metadata` and `write_image` are recorded as data.
- The `isinstance(model, INRF2D)` check of the constructor is a type, not a check. `backup_pyfiles`, `slerp`, the lemniscate and spline schedules, `unnormalize_and_numpy` and the other utilities are not part of this model.
- Text.Lower: lower-cases ASCII letters only, not the rest of Unicode.
- Python.IntOf: reads ASCII digits and ASCII whitespace only. Other Unicode digits and spaces, which Python also accepts, are rejected.
- Python.FloatOf: rejects 'inf', 'nan' and 'infinity' with `ValueError`, since reals cannot hold them. Parsing is exact: no rounding and no overflow to infinity.
- Python.TensorOf: a list element that is itself a tensor, and `torch.Tensor` of a bool, are rejected. A list whose leaves are not numbers raises `ValueError` here, where torch may raise `TypeError`.
- Interpolation.Lerp: requires n != -1. There the source divides a tensor by zero, and the one state it returns is NaN or infinite, which reals cannot represent.
- Images.ImageColormaps: requires a frame with at least one dimension. The 0-d case raises `IndexError` in `WriteImage` before the dictionary is built.
- RunnerSpec.FrameAt: the `frame.reshape` of a generated tensor is modelled on its element count. The tensor's own shape and the `splits` argument do not enter the checks.
- RunnerSpec.ToUint8: states the cast's value only inside [0, 255]. Outside that range the cast is truncate-and-wrap, which matches common platforms; NumPy leaves it undefined.
