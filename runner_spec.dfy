/** What `RunnerINRF2D` (neural_canvas/runners/runner2d.py) computes, as
    functions: the model it drives, the straight-line frame pipeline of
    `run_frames`, the save names, and the effect of its four loops. The
    class in `Runner2D` is proved against these functions; the properties
    the runner promises are lemmas about them. */
module RunnerSpec {
  import opened Python
  import opened Text
  import opened Storage
  import opened Images
  import opened TifMetadata

  /** A zoom or pan value. */
  type Pair = (real, real)

  /** What `init_latent_inputs` returns: the latents handed to the
      generator, the coordinate inputs, and the latents recorded in the
      frame's metadata. */
  datatype Sample = Sample(latents: PyValue, inputs: PyValue, metaLatents: PyValue)

  /** What one call of the model's `fit` returns: the frame at the training
      resolution, the frame at the test resolution, and the loss. */
  datatype FitStep = FitStep(frame: Frame, testFrame: Frame, loss: real)

  /** The arguments of `RunnerINRF2D.fit` that are handed on to the model. */
  datatype FitArgs = FitArgs(target: PyValue, outputShape: seq<int>, lossWeights: map<string, real>,
                             itersPerEpoch: int, lr: real, weightDecay: real)

  /** An `INRF2D` model as the runner sees it. Its network is not
      interpreted: sampling, generation, the metadata record and one epoch
      of training are functions. The random draws of `init_latent_inputs`
      are a function of the sample index, and training of the epoch index:
      `fitEpoch(args, e)` is epoch `e` of a `fit` started from this model's
      weights. The weights are named by the `fit` calls that trained them,
      `training`, and `retrain` gives the behaviour of the weights any such
      history leaves behind. */
  datatype Inrf2d = Inrf2d(
    xDim: nat, yDim: nat, cDim: nat,
    latentDim: int,
    latentScaleRepr: string,   // `str()` of the float `latent_scale`
    seed: int,
    finalActivation: PyValue,  // `map_fn.final_activation`
    convMap: bool,             // `map_fn` is an `INRConvMap`
    initLatentInputs: (Option<PyValue>, Pair, Pair, nat) -> Sample,
    generate: (Sample, int) -> seq<real>,
    metadataOf: PyValue -> Block,
    fitEpoch: (FitArgs, nat) -> FitStep,
    training: seq<(FitArgs, nat)>,
    retrain: seq<(FitArgs, nat)> -> Weights)

  /** What a model's weights decide: generation and further training. */
  datatype Weights = Weights(generate: (Sample, int) -> seq<real>, fitEpoch: (FitArgs, nat) -> FitStep)

  /** Number of iterations of `range(n)`. */
  function Iterations(n: int): nat {
    if n > 0 then n else 0
  }

  // ---------------------------------------------------------------------
  // The frame pipeline of one sample

  /** `zoom_schedule[i]` when a schedule is given, else the default. */
  function Schedule(s: Option<seq<Pair>>, i: nat, default: Pair): (r: Result<Pair, PyError>)
    ensures s.None? ==> r == Ok(default)
    ensures s.Some? && i < |s.value| ==> r == Ok(s.value[i])
    ensures s.Some? && i >= |s.value| ==> r == Err(IndexError(i))
  {
    if s.None? then Ok(default)
    else if i < |s.value| then Ok(s.value[i])
    else Err(IndexError(i))
  }

  function Product(shape: seq<nat>): nat {
    if shape == [] then 1 else shape[0] * Product(shape[1..])
  }

  /** The shape of `frame.reshape(-1, x, y, c)` for a tensor of `count`
      elements, after a leading dimension of 1 is dropped. The reshape
      fails when `x*y*c` is zero or does not divide `count`. */
  function ReshapedShape(count: nat, x: nat, y: nat, c: nat): (r: Result<seq<nat>, PyError>)
    ensures r.Ok? <==> x * y * c > 0 && count % (x * y * c) == 0
    ensures r.Err? ==> r.error.RuntimeError?
    ensures r.Ok? ==> Product(r.value) == count
    ensures r.Ok? ==> |r.value| >= 3 && r.value[|r.value| - 3..] == [x, y, c]
    ensures r.Ok? ==> (r.value == [x, y, c] <==> count == x * y * c)
  {
    var s := x * y * c;
    if s == 0 || count % s != 0 then Err(RuntimeError("shape is invalid for input size"))
    else
      assert count == (count / s) * s;
      assert Product([x, y, c]) == s by {
        assert [x, y, c][1..] == [y, c];
        assert [y, c][1..] == [c];
        assert Product([c]) == c;
        assert x * y * c == x * (y * c);
      }
      if count / s == 1 then Ok([x, y, c])
      else
        assert [count / s, x, y, c][1..] == [x, y, c];
        Ok([count / s, x, y, c])
  }

  /** The scaling applied before the cast to uint8, chosen by the final
      activation of the model's map. */
  function Denormalise(activation: PyValue, v: real): real {
    if activation == PyStr("sigmoid") then v * 255.0
    else if activation == PyStr("tanh") then (v + 1.0) * 127.5
    else v * 255.0
  }

  /** `astype(np.uint8)` of a float: truncation toward zero, then
      wrap-around modulo 256. */
  function ToUint8(v: real): (b: byte)
    ensures 0 <= Trunc(v) < 256 ==> b as int == Trunc(v)
  {
    (Trunc(v) % 256) as byte
  }

  function Quantise(activation: PyValue, values: seq<real>): seq<byte> {
    seq(|values|, k requires 0 <= k < |values| => ToUint8(Denormalise(activation, values[k])))
  }

  /** One sample: zoom and pan from the schedules or the defaults (.5, .5)
      and (2, 2), sampling, generation, reshape and conversion to bytes.
      Returns the frame and the sample it was generated from. */
  function FrameAt(m: Inrf2d, latents: Option<PyValue>, zoom: Option<seq<Pair>>, pan: Option<seq<Pair>>,
                   splits: int, i: nat): (r: Result<(Frame, Sample), PyError>)
    ensures r.Ok? ==> |r.value.0.shape| >= 3
  {
    var z :- Schedule(zoom, i, (0.5, 0.5));
    var p :- Schedule(pan, i, (2.0, 2.0));
    var s := m.initLatentInputs(latents, z, p, i);
    var values := m.generate(s, splits);
    var shape :- ReshapedShape(|values|, m.xDim, m.yDim, m.cDim);
    Ok((Frame(shape, Quantise(m.finalActivation, values)), s))
  }

  function Max(s: seq<byte>): (m: byte)
    requires |s| > 0
    ensures m in s && forall k :: 0 <= k < |s| ==> s[k] <= m
  {
    if |s| == 1 then s[0]
    else
      var rest := Max(s[1..]);
      assert forall k :: 1 <= k < |s| ==> s[k] == s[1..][k - 1];
      if s[0] > rest then s[0] else rest
  }

  function Min(s: seq<byte>): (m: byte)
    requires |s| > 0
    ensures m in s && forall k :: 0 <= k < |s| ==> m <= s[k]
  {
    if |s| == 1 then s[0]
    else
      var rest := Min(s[1..]);
      assert forall k :: 1 <= k < |s| ==> s[k] == s[1..][k - 1];
      if s[0] < rest then s[0] else rest
  }

  /** `abs(frame.max() - frame.min()) < 15`; the reductions raise on an
      empty frame. */
  function Blank(f: Frame): (r: Result<bool, PyError>)
    ensures r.Err? <==> |f.pixels| == 0
    ensures r.Err? ==> r.error.ValueError?
    ensures r.Ok? ==> (r.value <==> forall k, l :: 0 <= k < |f.pixels| && 0 <= l < |f.pixels| ==>
                                          f.pixels[k] as int - f.pixels[l] as int < 15)
  {
    if |f.pixels| == 0 then Err(ValueError("zero-size array to reduction operation maximum which has no identity"))
    else Ok(Max(f.pixels) as int - Min(f.pixels) as int < 15)
  }

  // ---------------------------------------------------------------------
  // Save names

  /** `save_prefix`: 'gen_image', or with `save_verbose` a name built from
      the model's latent size, latent scale and seed (which fails when no
      model is given). */
  function SavePrefix(model: Option<Inrf2d>, saveVerbose: bool): (r: Result<string, PyError>)
    ensures !saveVerbose ==> r == Ok("gen_image")
    ensures r.Err? <==> saveVerbose && model.None?
    ensures r.Err? ==> r.error.AttributeError?
    ensures r.Ok? ==> |r.value| > 0 && r.value[0] != '/'
  {
    if !saveVerbose then Ok("gen_image")
    else if model.None? then Err(AttributeError("'NoneType' object has no attribute 'latent_dim'"))
    else
      var m := model.value;
      Ok("z-" + IntToString(m.latentDim) + "_scale-" + m.latentScaleRepr + "-" + IntToString(m.seed))
  }

  /** `os.path.join(output_dir, f'{save_prefix}_{randID}_{i}')`. */
  function SavePath(outputDir: string, prefix: string, randId: nat, i: nat): string {
    Join(outputDir, prefix + "_" + NatToString(randId) + "_" + NatToString(i))
  }

  /** The part of every save name of one `run_frames` call that does not
      depend on the sample index. */
  function SaveStem(outputDir: string, prefix: string, randId: nat): string {
    Join(outputDir, prefix + "_" + NatToString(randId) + "_")
  }

  lemma JoinAppend(a: string, b: string, c: string)
    requires |b| > 0
    ensures Join(a, b + c) == Join(a, b) + c
  {
    assert (b + c)[0] == b[0];
    if b[0] == '/' {
    } else if a == [] || a[|a| - 1] == '/' {
      assert a + (b + c) == (a + b) + c;
    } else {
      assert a + "/" + (b + c) == (a + "/" + b) + c;
    }
  }

  lemma SavePathFromStem(outputDir: string, prefix: string, randId: nat, i: nat)
    ensures SavePath(outputDir, prefix, randId, i) == SaveStem(outputDir, prefix, randId) + NatToString(i)
  {
    JoinAppend(outputDir, prefix + "_" + NatToString(randId) + "_", NatToString(i));
  }

  /** A save name stays inside the output directory when the prefix is
      relative, as both forms of `save_prefix` are. */
  lemma SavePathInOutputDir(outputDir: string, prefix: string, randId: nat, i: nat)
    requires |prefix| > 0 && prefix[0] != '/'
    ensures outputDir <= SavePath(outputDir, prefix, randId, i)
  {
    var b := prefix + "_" + NatToString(randId) + "_" + NatToString(i);
    assert b[0] == prefix[0];
  }

  /** Path `p` is one of the files written for sample `i`: the stem, the
      digits of `i`, then '.' or '_'. */
  predicate OwnedBy(p: string, stem: string, i: nat) {
    NamedAfter(p, stem + NatToString(i))
  }

  /** A file name belongs to at most one sample index. */
  lemma OwnerUnique(p: string, stem: string, i: nat, j: nat)
    requires OwnedBy(p, stem, i) && OwnedBy(p, stem, j)
    ensures i == j
  {
    OwnerDigitsNotShorter(p, stem, i, j);
    OwnerDigitsNotShorter(p, stem, j, i);
    var a, b := NatToString(i), NatToString(j);
    assert a == (stem + a)[|stem|..] == p[..|stem| + |a|][|stem|..] == (stem + b)[|stem|..] == b;
    NatToStringInjective(i, j);
  }

  /** The digits of the owner end where the name says they end. */
  lemma OwnerDigitsNotShorter(p: string, stem: string, i: nat, j: nat)
    requires OwnedBy(p, stem, i) && OwnedBy(p, stem, j)
    ensures |NatToString(j)| <= |NatToString(i)|
  {
  }

  /** Distinct samples of one call never write to the same file. */
  lemma DistinctSamplesDistinctFiles(stem: string, i: nat, j: nat, x: string, y: string)
    requires |x| > 0 && (x[0] == '.' || x[0] == '_') && |y| > 0 && (y[0] == '.' || y[0] == '_')
    requires i != j
    ensures stem + NatToString(i) + x != stem + NatToString(j) + y
  {
    NamedAfterBy(stem + NatToString(i), x);
    NamedAfterBy(stem + NatToString(j), y);
    DistinctOwners(stem + NatToString(i) + x, stem + NatToString(j) + y, stem, i, j);
  }

  lemma DistinctOwners(p: string, q: string, stem: string, i: nat, j: nat)
    requires OwnedBy(p, stem, i) && OwnedBy(q, stem, j)
    ensures p == q ==> i == j
  {
    if p == q {
      OwnerUnique(p, stem, i, j);
    }
  }

  // ---------------------------------------------------------------------
  // run_frames

  /** The runner's fields other than its model: the ones `run_frames` and
      `regen_frames` read, and `save_verbose`, which only the constructor
      reads. */
  datatype Settings = Settings(outputDir: string, savePrefix: string, skipBlank: bool, colormaps: Option<seq<string>>,
                               saveVerbose: bool)

  datatype RunArgs = RunArgs(latents: Option<PyValue>, numSamples: int, zoom: Option<seq<Pair>>,
                             pan: Option<seq<Pair>>, splits: int, autosave: bool)

  /** The state of the `run_frames` loop: the two result lists, the sample
      index of each retained frame, the files written so far, and the
      exception that ended the loop. */
  datatype Run = Run(frames: seq<Frame>, metadata: seq<Block>, kept: seq<nat>,
                     writes: seq<(string, FileData)>, error: Option<PyError>)

  /** A call's result and the files it wrote before returning or raising. */
  datatype Outcome<T> = Outcome(result: Result<T, PyError>, writes: seq<(string, FileData)>)

  function Sampled(m: Inrf2d, a: RunArgs, i: nat): Result<(Frame, Sample), PyError> {
    FrameAt(m, a.latents, a.zoom, a.pan, a.splits, i)
  }

  /** The two `write_image` calls of an autosave: the PNG (with the
      runner's colormaps), then the TIFF carrying the metadata. */
  function Autosave(path: string, f: Frame, meta: Block, colormaps: Option<seq<string>>): WriteReport
  {
    var png := WriteImage(path, f, "png", None, colormaps);
    if png.error.Some? then png
    else
      var tif := WriteImage(path, f, "tif", Some(meta), None);
      WriteReport(png.writes + tif.writes, png.warned || tif.warned, tif.error)
  }

  /** Whether a generated frame is retained: always without
      `skip_blank_generations`, else when it is not blank. */
  function Keep(st: Settings, f: Frame): Result<bool, PyError> {
    if !st.skipBlank then Ok(true)
    else
      var blank :- Blank(f);
      Ok(!blank)
  }

  /** What iteration `i` of the loop does: it raises (after writing some
      files), skips a blank frame, or retains the frame and its metadata
      (after writing the autosave files). */
  datatype SampleOutcome =
    | Failed(error: PyError, written: seq<(string, FileData)>)
    | Skipped
    | Retained(frame: Frame, meta: Block, written: seq<(string, FileData)>)

  function SampleOutcomeAt(m: Inrf2d, st: Settings, a: RunArgs, randId: nat, i: nat): (o: SampleOutcome)
    ensures o.Retained? ==> |o.frame.shape| >= 3
  {
    match Sampled(m, a, i)
    case Err(e) => Failed(e, [])
    case Ok((f, s)) =>
      match Keep(st, f)
      case Err(e) => Failed(e, [])
      case Ok(keep) =>
        if !keep then Skipped
        else
          var meta := m.metadataOf(s.metaLatents);
          var w := if a.autosave then Autosave(SavePath(st.outputDir, st.savePrefix, randId, i), f, meta, st.colormaps)
                   else WriteReport([], false, None);
          if w.error.Some? then Failed(w.error.value, w.writes) else Retained(f, meta, w.writes)
  }

  function Outcomes(m: Inrf2d, st: Settings, a: RunArgs, randId: nat): nat -> SampleOutcome {
    (i: nat) => SampleOutcomeAt(m, st, a, randId, i)
  }

  /** The loop state after the first `n` iterations (or after the one that
      raised), for any per-iteration behaviour `o`. */
  function RunOf(o: nat -> SampleOutcome, n: nat): (r: Run)
    ensures |r.frames| == |r.metadata| == |r.kept| <= n
  {
    if n == 0 then Run([], [], [], [], None)
    else
      var r := RunOf(o, n - 1);
      if r.error.Some? then r
      else
        match o(n - 1)
        case Failed(e, ws) => r.(writes := r.writes + ws, error := Some(e))
        case Skipped => r
        case Retained(f, meta, ws) => Run(r.frames + [f], r.metadata + [meta], r.kept + [n - 1], r.writes + ws, None)
  }

  /** `run_frames(latents, num_samples, zoom_schedule, pan_schedule,
      splits, autosave)` with `randID` drawn as `randId`. */
  function RunFramesSpec(model: Option<Inrf2d>, st: Settings, a: RunArgs, randId: nat): (o: Outcome<(seq<Frame>, seq<Block>)>)
    ensures model.None? ==> o.result.Err? && o.result.error.AssertionError? && o.writes == []
    ensures o.result.Ok? ==> |o.result.value.0| == |o.result.value.1| <= Iterations(a.numSamples)
  {
    if model.None? then Outcome(Err(AssertionError("Must provide a model to generate from")), [])
    else
      var r := RunOf(Outcomes(model.value, st, a, randId), Iterations(a.numSamples));
      Outcome(if r.error.Some? then Err(r.error.value) else Ok((r.frames, r.metadata)), r.writes)
  }

  // Properties of the loop, for any per-iteration behaviour.

  /** An exception ends the loop: later iterations change nothing. */
  lemma {:induction false} RunErrorSticks(o: nat -> SampleOutcome, k: nat, n: nat)
    requires k <= n
    requires RunOf(o, k).error.Some?
    ensures RunOf(o, n) == RunOf(o, k)
    decreases n
  {
    if k < n {
      RunErrorSticks(o, k, n - 1);
    }
  }

  /** The samples retained are indices of the loop, in increasing order. */
  lemma {:induction false} RunKeptIncreasing(o: nat -> SampleOutcome, n: nat)
    ensures forall j :: 0 <= j < |RunOf(o, n).kept| ==> RunOf(o, n).kept[j] < n
    ensures forall j, k :: 0 <= j < k < |RunOf(o, n).kept| ==> RunOf(o, n).kept[j] < RunOf(o, n).kept[k]
  {
    if n > 0 {
      RunKeptIncreasing(o, n - 1);
    }
  }

  /** One iteration that writes files: it appends them, and the loop goes
      on exactly when the sample is retained. */
  lemma RunStep(o: nat -> SampleOutcome, i: nat)
    requires RunOf(o, i).error.None? && !o(i).Skipped?
    ensures RunOf(o, i + 1).writes == RunOf(o, i).writes + o(i).written
    ensures RunOf(o, i + 1).error.None? <==> o(i).Retained?
  {
  }

  /** A loop that completes retained every sample that is not skipped. */
  lemma {:induction false} RunKeptExactly(o: nat -> SampleOutcome, n: nat)
    requires RunOf(o, n).error.None?
    ensures forall i :: 0 <= i < n ==> !o(i).Failed? && (i in RunOf(o, n).kept <==> o(i).Retained?)
  {
    if n > 0 {
      var r := RunOf(o, n - 1);
      RunKeptExactly(o, n - 1);
      RunKeptIncreasing(o, n - 1);
      assert n - 1 !in r.kept;
    }
  }

  /** Frame `j` and metadata entry `j` were retained together, by sample
      `kept[j]`. */
  lemma {:induction false} RunAligned(o: nat -> SampleOutcome, n: nat)
    ensures forall j :: 0 <= j < |RunOf(o, n).kept| ==>
              && o(RunOf(o, n).kept[j]).Retained?
              && o(RunOf(o, n).kept[j]).frame == RunOf(o, n).frames[j]
              && o(RunOf(o, n).kept[j]).meta == RunOf(o, n).metadata[j]
  {
    if n > 0 {
      RunAligned(o, n - 1);
    }
  }

  /** When no sample is skipped, a loop that completes retained every
      sample, in order. */
  lemma {:induction false} RunKeepsEverySample(o: nat -> SampleOutcome, n: nat)
    requires forall i :: 0 <= i < n ==> !o(i).Skipped?
    requires RunOf(o, n).error.None?
    ensures |RunOf(o, n).frames| == n
    ensures forall j :: 0 <= j < n ==> RunOf(o, n).kept[j] == j
  {
    if n > 0 {
      RunKeepsEverySample(o, n - 1);
    }
  }

  /** The files written are those of the iterations, in order. */
  lemma {:induction false} RunWritesNothing(o: nat -> SampleOutcome, n: nat)
    requires forall i :: 0 <= i < n ==> !o(i).Skipped? ==> o(i).written == []
    ensures RunOf(o, n).writes == []
  {
    if n > 0 {
      RunWritesNothing(o, n - 1);
    }
  }

  // Properties of `run_frames` itself.

  /** The loop state `run_frames` ends in, for a bound model. */
  function RunResult(m: Inrf2d, st: Settings, a: RunArgs, randId: nat): Run {
    RunOf(Outcomes(m, st, a, randId), Iterations(a.numSamples))
  }

  /** `f` and `meta` are what sample `i` produced, and `f` passed the
      blank check. */
  predicate Generated(m: Inrf2d, st: Settings, a: RunArgs, i: nat, f: Frame, meta: Block) {
    && Sampled(m, a, i).Ok?
    && Sampled(m, a, i).value.0 == f
    && meta == m.metadataOf(Sampled(m, a, i).value.1.metaLatents)
    && Keep(st, f) == Ok(true)
  }

  lemma SampleOutcomeFacts(m: Inrf2d, st: Settings, a: RunArgs, randId: nat, i: nat)
    ensures SampleOutcomeAt(m, st, a, randId, i).Retained? ==>
              Generated(m, st, a, i, SampleOutcomeAt(m, st, a, randId, i).frame, SampleOutcomeAt(m, st, a, randId, i).meta)
    ensures SampleOutcomeAt(m, st, a, randId, i).Skipped? <==>
              Sampled(m, a, i).Ok? && Keep(st, Sampled(m, a, i).value.0) == Ok(false)
    ensures !SampleOutcomeAt(m, st, a, randId, i).Failed? ==>
              Sampled(m, a, i).Ok? && Keep(st, Sampled(m, a, i).value.0).Ok?
    ensures !st.skipBlank ==> !SampleOutcomeAt(m, st, a, randId, i).Skipped?
    ensures !a.autosave && !SampleOutcomeAt(m, st, a, randId, i).Skipped? ==> SampleOutcomeAt(m, st, a, randId, i).written == []
  {
  }

  /** `frames[j]` and `metadata[j]` are the frame and the metadata record
      of the same sample, one that passed the blank check; the sample
      indices increase with `j`. */
  lemma RunFramesAligned(m: Inrf2d, st: Settings, a: RunArgs, randId: nat)
    ensures forall j :: 0 <= j < |RunResult(m, st, a, randId).kept| ==>
              Generated(m, st, a, RunResult(m, st, a, randId).kept[j],
                        RunResult(m, st, a, randId).frames[j], RunResult(m, st, a, randId).metadata[j])
  {
    var o := Outcomes(m, st, a, randId);
    var n := Iterations(a.numSamples);
    RunAligned(o, n);
    forall j | 0 <= j < |RunOf(o, n).kept|
      ensures Generated(m, st, a, RunOf(o, n).kept[j], RunOf(o, n).frames[j], RunOf(o, n).metadata[j])
    {
      SampleOutcomeFacts(m, st, a, randId, RunOf(o, n).kept[j]);
    }
  }

  /** A call that returns generated every sample, and retained exactly
      those that pass the blank check. */
  lemma RunFramesRetainsExactly(m: Inrf2d, st: Settings, a: RunArgs, randId: nat)
    requires RunResult(m, st, a, randId).error.None?
    ensures forall i :: 0 <= i < Iterations(a.numSamples) ==>
              && Sampled(m, a, i).Ok?
              && Keep(st, Sampled(m, a, i).value.0).Ok?
              && (i in RunResult(m, st, a, randId).kept <==> Keep(st, Sampled(m, a, i).value.0).value)
  {
    var o := Outcomes(m, st, a, randId);
    var n := Iterations(a.numSamples);
    RunKeptExactly(o, n);
    forall i | 0 <= i < n
      ensures Sampled(m, a, i).Ok? && Keep(st, Sampled(m, a, i).value.0).Ok?
              && (i in RunOf(o, n).kept <==> Keep(st, Sampled(m, a, i).value.0).value)
    {
      assert o(i) == SampleOutcomeAt(m, st, a, randId, i);
      assert !o(i).Failed? && (i in RunOf(o, n).kept <==> o(i).Retained?);
      SampleOutcomeFacts(m, st, a, randId, i);
    }
  }

  /** Without `skip_blank_generations`, a call that returns has one frame
      (and one metadata record) per sample, in sample order. */
  lemma RunFramesCount(m: Inrf2d, st: Settings, a: RunArgs, randId: nat)
    requires !st.skipBlank
    requires RunResult(m, st, a, randId).error.None?
    ensures |RunResult(m, st, a, randId).frames| == Iterations(a.numSamples)
    ensures forall j :: 0 <= j < Iterations(a.numSamples) ==> RunResult(m, st, a, randId).kept[j] == j
  {
    var o := Outcomes(m, st, a, randId);
    forall i | 0 <= i < Iterations(a.numSamples) ensures !o(i).Skipped? {
      SampleOutcomeFacts(m, st, a, randId, i);
    }
    RunKeepsEverySample(o, Iterations(a.numSamples));
  }

  /** With `autosave` off, `run_frames` writes nothing. */
  lemma RunFramesWithoutAutosave(model: Option<Inrf2d>, st: Settings, a: RunArgs, randId: nat)
    requires !a.autosave
    ensures RunFramesSpec(model, st, a, randId).writes == []
  {
    if model.Some? {
      var o := Outcomes(model.value, st, a, randId);
      forall i | 0 <= i < Iterations(a.numSamples) ensures !o(i).Skipped? ==> o(i).written == [] {
        SampleOutcomeFacts(model.value, st, a, randId, i);
      }
      RunWritesNothing(o, Iterations(a.numSamples));
    }
  }

  /** Every file an autosave writes is named after the save name, and
      when it completes its last file is the TIFF holding the frame and
      the metadata. */
  lemma AutosaveWrites(path: string, f: Frame, meta: Block, colormaps: Option<seq<string>>)
    ensures forall k :: 0 <= k < |Autosave(path, f, meta, colormaps).writes| ==>
              NamedAfter(Autosave(path, f, meta, colormaps).writes[k].0, path)
    ensures Autosave(path, f, meta, colormaps).error.None? ==>
              && |Autosave(path, f, meta, colormaps).writes| > 0
              && Autosave(path, f, meta, colormaps).writes[|Autosave(path, f, meta, colormaps).writes| - 1]
                 == (path + ".tif", TiffFile(f, Some(meta)))
  {
    WriteImageNamedAfter(path, f, "png", None, colormaps);
    WriteImageNamedAfter(path, f, "tif", Some(meta), None);
    WriteImageTif(path, f, Some(meta), None);
  }

  /** The TIFF a retained sample writes last. */
  function TiffPath(stem: string, i: nat): string {
    stem + NatToString(i) + ".tif"
  }

  /** A retained sample `i` wrote only files of its own, the last being
      its TIFF. */
  predicate SavesOwnFiles(o: nat -> SampleOutcome, stem: string, i: nat) {
    o(i).Retained? ==>
      && |o(i).written| > 0
      && o(i).written[|o(i).written| - 1] == (TiffPath(stem, i), TiffFile(o(i).frame, Some(o(i).meta)))
      && forall k :: 0 <= k < |o(i).written| ==> OwnedBy(o(i).written[k].0, stem, i)
  }

  /** The TIFF of every sample in `kept` holds the frame and metadata
      retained with it. */
  predicate TiffsAt(disk: Nodes, stem: string, kept: seq<nat>, frames: seq<Frame>, metas: seq<Block>)
    requires |kept| == |frames| == |metas|
  {
    forall j :: 0 <= j < |kept| ==>
      && TiffPath(stem, kept[j]) in disk
      && disk[TiffPath(stem, kept[j])] == File(TiffFile(frames[j], Some(metas[j])))
  }

  /** After `n` iterations the TIFF of every retained frame holds that
      frame and its metadata. */
  predicate TiffsSaved(o: nat -> SampleOutcome, n: nat, nodes: Nodes, stem: string) {
    TiffsAt(ApplyWrites(nodes, RunOf(o, n).writes), stem, RunOf(o, n).kept, RunOf(o, n).frames, RunOf(o, n).metadata)
  }

  /** When every sample writes only files of its own, the TIFF of every
      retained frame is on disk after the loop, holding that frame and
      its metadata: no later sample overwrites it. */
  lemma {:induction false} RunSavesRetained(o: nat -> SampleOutcome, n: nat, nodes: Nodes, stem: string)
    requires forall i :: 0 <= i < n ==> SavesOwnFiles(o, stem, i)
    requires RunOf(o, n).error.None?
    ensures TiffsSaved(o, n, nodes, stem)
  {
    if n > 0 {
      RunSavesRetained(o, n - 1, nodes, stem);
      if o(n - 1).Retained? {
        assert SavesOwnFiles(o, stem, n - 1);
        RetainedStep(o, n, nodes, stem);
      }
    }
  }

  /** The step of `RunSavesRetained` for a retained sample `n - 1`. */
  lemma RetainedStep(o: nat -> SampleOutcome, n: nat, nodes: Nodes, stem: string)
    requires n > 0 && o(n - 1).Retained? && SavesOwnFiles(o, stem, n - 1)
    requires RunOf(o, n - 1).error.None?
    requires TiffsSaved(o, n - 1, nodes, stem)
    ensures TiffsSaved(o, n, nodes, stem)
  {
    var r := RunOf(o, n - 1);
    var out := o(n - 1);
    assert RunOf(o, n) == Run(r.frames + [out.frame], r.metadata + [out.meta], r.kept + [n - 1], r.writes + out.written, None);
    RunKeptIncreasing(o, n - 1);
    SavedAfter(nodes, r.writes, o(n - 1).written, stem, n - 1, r.kept, r.frames, r.metadata, o(n - 1).frame, o(n - 1).meta);
  }

  /** Appending the files of sample `i`, the last its TIFF, keeps the
      TIFFs of the earlier samples and adds its own. */
  lemma SavedAfter(nodes: Nodes, writes: seq<(string, FileData)>, ws: seq<(string, FileData)>, stem: string, i: nat,
                   kept: seq<nat>, frames: seq<Frame>, metas: seq<Block>, f: Frame, meta: Block)
    requires |kept| == |frames| == |metas|
    requires forall j :: 0 <= j < |kept| ==> kept[j] < i
    requires |ws| > 0 && ws[|ws| - 1] == (TiffPath(stem, i), TiffFile(f, Some(meta)))
    requires forall k :: 0 <= k < |ws| ==> OwnedBy(ws[k].0, stem, i)
    requires TiffsAt(ApplyWrites(nodes, writes), stem, kept, frames, metas)
    ensures TiffsAt(ApplyWrites(nodes, writes + ws), stem, kept + [i], frames + [f], metas + [meta])
  {
    OthersUntouched(nodes, writes, ws, stem, i, kept);
    LastWriteWins(nodes, writes + ws);
    assert (writes + ws)[|writes + ws| - 1] == ws[|ws| - 1];
  }

  /** Appending the files of sample `i` leaves the TIFF of every earlier
      sample as it was. */
  lemma OthersUntouched(nodes: Nodes, writes: seq<(string, FileData)>, ws: seq<(string, FileData)>,
                        stem: string, i: nat, kept: seq<nat>)
    requires forall j :: 0 <= j < |kept| ==> kept[j] < i
    requires forall k :: 0 <= k < |ws| ==> OwnedBy(ws[k].0, stem, i)
    ensures forall j :: 0 <= j < |kept| && TiffPath(stem, kept[j]) in ApplyWrites(nodes, writes) ==>
              && TiffPath(stem, kept[j]) in ApplyWrites(nodes, writes + ws)
              && ApplyWrites(nodes, writes + ws)[TiffPath(stem, kept[j])] == ApplyWrites(nodes, writes)[TiffPath(stem, kept[j])]
  {
    forall j | 0 <= j < |kept| && TiffPath(stem, kept[j]) in ApplyWrites(nodes, writes)
      ensures TiffPath(stem, kept[j]) in ApplyWrites(nodes, writes + ws)
      ensures ApplyWrites(nodes, writes + ws)[TiffPath(stem, kept[j])] == ApplyWrites(nodes, writes)[TiffPath(stem, kept[j])]
    {
      NotOverwritten(ws, stem, i, kept[j]);
      WritesElsewhere(nodes, writes, ws, TiffPath(stem, kept[j]));
    }
  }

  /** Files owned by sample `i` are not the TIFF of another sample. */
  lemma NotOverwritten(ws: seq<(string, FileData)>, stem: string, i: nat, other: nat)
    requires other != i
    requires forall k :: 0 <= k < |ws| ==> OwnedBy(ws[k].0, stem, i)
    ensures forall w :: w in ws ==> w.0 != TiffPath(stem, other)
  {
    NamedAfterBy(stem + NatToString(other), ".tif");
    forall w | w in ws ensures w.0 != TiffPath(stem, other) {
      var k :| 0 <= k < |ws| && ws[k] == w;
      DistinctOwners(w.0, TiffPath(stem, other), stem, i, other);
    }
  }

  /** A retained sample of an autosaving call wrote exactly its autosave
      files, and the autosave completed. */
  lemma RetainedAutosave(m: Inrf2d, st: Settings, a: RunArgs, randId: nat, i: nat)
    requires a.autosave && SampleOutcomeAt(m, st, a, randId, i).Retained?
    ensures var o := SampleOutcomeAt(m, st, a, randId, i);
            && Autosave(SavePath(st.outputDir, st.savePrefix, randId, i), o.frame, o.meta, st.colormaps).error.None?
            && o.written == Autosave(SavePath(st.outputDir, st.savePrefix, randId, i), o.frame, o.meta, st.colormaps).writes
  {
  }

  /** With `autosave`, every sample writes only files named after its
      own `save_fn`, the last being its TIFF. */
  lemma AutosaveOwnFiles(m: Inrf2d, st: Settings, a: RunArgs, randId: nat, i: nat)
    requires a.autosave
    ensures SavesOwnFiles(Outcomes(m, st, a, randId), SaveStem(st.outputDir, st.savePrefix, randId), i)
  {
    var o := Outcomes(m, st, a, randId);
    assert o(i) == SampleOutcomeAt(m, st, a, randId, i);
    if o(i).Retained? {
      var path := SavePath(st.outputDir, st.savePrefix, randId, i);
      RetainedAutosave(m, st, a, randId, i);
      AutosaveWrites(path, o(i).frame, o(i).meta, st.colormaps);
      SavePathFromStem(st.outputDir, st.savePrefix, randId, i);
    }
  }

  /** With `autosave`, a call that returns leaves on disk, for every frame
      it returns, the TIFF `{save_fn}.tif` holding that frame and its
      metadata record: no other sample of the call overwrites it. */
  lemma RunFramesSavesEachFrame(m: Inrf2d, st: Settings, a: RunArgs, randId: nat, nodes: Nodes)
    requires a.autosave
    requires RunResult(m, st, a, randId).error.None?
    ensures forall j :: 0 <= j < |RunResult(m, st, a, randId).kept| ==>
              && SavePath(st.outputDir, st.savePrefix, randId, RunResult(m, st, a, randId).kept[j]) + ".tif"
                 in ApplyWrites(nodes, RunResult(m, st, a, randId).writes)
              && ApplyWrites(nodes, RunResult(m, st, a, randId).writes)
                   [SavePath(st.outputDir, st.savePrefix, randId, RunResult(m, st, a, randId).kept[j]) + ".tif"]
                 == File(TiffFile(RunResult(m, st, a, randId).frames[j], Some(RunResult(m, st, a, randId).metadata[j])))
  {
    var o := Outcomes(m, st, a, randId);
    var n := Iterations(a.numSamples);
    var stem := SaveStem(st.outputDir, st.savePrefix, randId);
    forall i | 0 <= i < n ensures SavesOwnFiles(o, stem, i) {
      AutosaveOwnFiles(m, st, a, randId, i);
    }
    RunSavesRetained(o, n, nodes, stem);
    forall j | 0 <= j < |RunOf(o, n).kept|
      ensures SavePath(st.outputDir, st.savePrefix, randId, RunOf(o, n).kept[j]) + ".tif" == TiffPath(stem, RunOf(o, n).kept[j])
    {
      SavePathFromStem(st.outputDir, st.savePrefix, randId, RunOf(o, n).kept[j]);
    }
  }

  /** Reading back the TIFF of a returned frame with `load_tif_metadata`
      gives that frame, and decodes its metadata record; the read fails
      exactly when the record does not decode. */
  lemma RunFramesReload(m: Inrf2d, st: Settings, a: RunArgs, randId: nat, nodes: Nodes, j: nat)
    requires a.autosave
    requires RunResult(m, st, a, randId).error.None?
    requires j < |RunResult(m, st, a, randId).kept|
    ensures LoadSpec(ApplyWrites(nodes, RunResult(m, st, a, randId).writes),
                     SavePath(st.outputDir, st.savePrefix, randId, RunResult(m, st, a, randId).kept[j]) + ".tif")
            == (if Decode(RunResult(m, st, a, randId).metadata[j]).Ok?
                then Ok(Loaded(Some(RunResult(m, st, a, randId).frames[j]),
                               Some(Decode(RunResult(m, st, a, randId).metadata[j]).value.metadata),
                               Decode(RunResult(m, st, a, randId).metadata[j]).value.warnings))
                else Err(Decode(RunResult(m, st, a, randId).metadata[j]).error))
  {
    RunFramesSavesEachFrame(m, st, a, randId, nodes);
  }

  // ---------------------------------------------------------------------
  // Ranges of the byte conversion

  /** A sigmoid output in [0, 1] lands in [0, 255] and is not wrapped. */
  lemma SigmoidInRange(v: real)
    requires 0.0 <= v <= 1.0
    ensures 0 <= Trunc(Denormalise(PyStr("sigmoid"), v)) <= 255
    ensures ToUint8(Denormalise(PyStr("sigmoid"), v)) as int == Trunc(v * 255.0)
  {
  }

  /** A tanh output in [-1, 1] lands in [0, 255] and is not wrapped. */
  lemma TanhInRange(v: real)
    requires -1.0 <= v <= 1.0
    ensures 0 <= Trunc(Denormalise(PyStr("tanh"), v)) <= 255
    ensures ToUint8(Denormalise(PyStr("tanh"), v)) as int == Trunc((v + 1.0) * 127.5)
  {
  }

  /** Any other final activation is scaled as the sigmoid is. */
  lemma OtherActivationScaledAsSigmoid(activation: PyValue, v: real)
    requires activation != PyStr("tanh")
    ensures Denormalise(activation, v) == Denormalise(PyStr("sigmoid"), v)
  {
  }

  /** A value just past the range wraps: 256.0 becomes 0, and -1.0
      truncates to -1 and wraps to 255. */
  lemma OutOfRangeWraps()
    ensures ToUint8(Denormalise(PyStr("sigmoid"), 256.0 / 255.0)) == 0
    ensures ToUint8(Denormalise(PyStr("tanh"), -1.0 - 1.0 / 127.5)) == 255
  {
  }

  // ---------------------------------------------------------------------
  // reinit_model_from_metadata

  /** The metadata fields `reinit_model_from_metadata` hands to the
      `INRF2D` constructor and to `init_map_fn`, in the order it reads them. */
  const ModelKeys: seq<string> :=
    ["latent_dim", "latent_scale", "seed", "mlp_layer_width", "activations", "final_activation",
     "weight_init", "weight_init_mean", "weight_init_std", "weight_init_max", "weight_init_min",
     "graph_topology", "num_graph_nodes", "graph"]

  /** What a new model is built from: the output shape, the output
      directory and the values of `ModelKeys`. */
  datatype ModelConfig = ModelConfig(outputShape: seq<int>, outputDir: string, fields: seq<PyValue>)

  /** Index of the first of `keys` missing from `md`, or `|keys|`. */
  function FirstMissing(md: Metadata, keys: seq<string>): (i: nat)
    ensures i <= |keys|
    ensures forall j :: 0 <= j < i ==> keys[j] in md
    ensures i < |keys| ==> keys[i] !in md
  {
    if keys == [] || keys[0] !in md then 0 else 1 + FirstMissing(md, keys[1..])
  }

  /** The lookups `metadata[k]` for each of `keys` in order. */
  function Lookup(md: Metadata, keys: seq<string>): (r: Result<seq<PyValue>, PyError>)
    ensures r.Ok? <==> FirstMissing(md, keys) == |keys|
    ensures r.Ok? ==> |r.value| == |keys| && forall j :: 0 <= j < |keys| ==> r.value[j] == md[keys[j]]
    ensures r.Err? ==> r.error == KeyError(keys[FirstMissing(md, keys)])
  {
    if keys == [] then Ok([])
    else
      var v :- Get(md, keys[0]);
      var rest :- Lookup(md, keys[1..]);
      Ok([v] + rest)
  }

  /** The runner's model after a call and what the call returned. */
  datatype Reinit = Reinit(model: Option<Inrf2d>, result: Result<PyValue, PyError>)

  /** The metadata `reinit_model_from_metadata` works from: the one given,
      else the one `load_tif_metadata(path)` returns. */
  function MetadataSource(nodes: Nodes, path: Option<string>, metadata: Option<Metadata>): Result<Option<Metadata>, PyError> {
    if metadata.Some? then Ok(metadata)
    else if path.None? then Err(TypeError("stat: path should be string, bytes, os.PathLike or integer, not NoneType"))
    else
      var l :- LoadSpec(nodes, path.value);
      Ok(l.metadata)
  }

  /** `reinit_model_from_metadata(output_shape, path, metadata)`: without
      metadata it is loaded from `path`; the shape is checked; the new
      model is built from the metadata (`build` stands for the `INRF2D`
      constructor and `init_map_fn`) and bound; then `metadata['latent']`
      is returned. */
  function ReinitSpec(current: Option<Inrf2d>, outputDir: string, build: ModelConfig -> Inrf2d, nodes: Nodes,
                     outputShape: seq<int>, path: Option<string>, metadata: Option<Metadata>): (r: Reinit)
    ensures |outputShape| != 3 ==> r.result.Err? && r.model == current
    ensures r.model != current ==> r.model.Some? && |outputShape| == 3
    ensures r.result.Ok? ==> r.model.Some?
  {
    var loaded := MetadataSource(nodes, path, metadata);
    if loaded.Err? then Reinit(current, Err(loaded.error))
    else if |outputShape| != 3 then Reinit(current, Err(AssertionError("Invalid output shape")))
    else if loaded.value.None? then Reinit(current, Err(TypeError("'NoneType' object is not subscriptable")))
    else
      var md := loaded.value.value;
      match Lookup(md, ModelKeys)
      case Err(e) => Reinit(current, Err(e))
      case Ok(fields) => Reinit(Some(build(ModelConfig(outputShape, outputDir, fields))), Get(md, "latent"))
  }

  /** The values of the model fields of `md`, in order. */
  function ModelFields(md: Metadata): seq<PyValue>
    requires forall k :: k in ModelKeys ==> k in md
  {
    seq(|ModelKeys|, j requires 0 <= j < |ModelKeys| => md[ModelKeys[j]])
  }

  /** The lookups succeed exactly when every model field is present. */
  lemma LookupModelKeys(md: Metadata)
    ensures Lookup(md, ModelKeys).Ok? <==> forall k :: k in ModelKeys ==> k in md
    ensures Lookup(md, ModelKeys).Ok? ==> Lookup(md, ModelKeys).value == ModelFields(md)
  {
    var fields := Lookup(md, ModelKeys);
    if forall k :: k in ModelKeys ==> k in md {
      assert fields.value == ModelFields(md);
    } else {
      var k :| k in ModelKeys && k !in md;
      var j :| 0 <= j < |ModelKeys| && ModelKeys[j] == k;
      assert fields.Err?;
    }
  }

  /** With metadata given, the call succeeds exactly when the shape has
      three entries and the metadata holds every model field and `latent`;
      it then returns the latent. Once the fields are all there and the
      shape is right, the model built from them is bound, even when
      `latent` is missing. */
  lemma ReinitFromMetadata(current: Option<Inrf2d>, outputDir: string, build: ModelConfig -> Inrf2d, nodes: Nodes,
                           outputShape: seq<int>, path: Option<string>, md: Metadata)
    ensures ReinitSpec(current, outputDir, build, nodes, outputShape, path, Some(md)).result.Ok?
            <==> |outputShape| == 3 && (forall k :: k in ModelKeys ==> k in md) && "latent" in md
    ensures ReinitSpec(current, outputDir, build, nodes, outputShape, path, Some(md)).result.Ok? ==>
              ReinitSpec(current, outputDir, build, nodes, outputShape, path, Some(md)).result.value == md["latent"]
    ensures |outputShape| == 3 && (forall k :: k in ModelKeys ==> k in md) ==>
              ReinitSpec(current, outputDir, build, nodes, outputShape, path, Some(md)).model
              == Some(build(ModelConfig(outputShape, outputDir, ModelFields(md))))
    ensures |outputShape| == 3 && !(forall k :: k in ModelKeys ==> k in md) ==>
              ReinitSpec(current, outputDir, build, nodes, outputShape, path, Some(md))
              == Reinit(current, Err(KeyError(ModelKeys[FirstMissing(md, ModelKeys)])))
  {
    LookupModelKeys(md);
  }

  /** Every model field is among the keys a decoded block holds. */
  lemma ModelKeysDecoded()
    ensures forall k :: k in ModelKeys ==> k in DecodedKeys()
  {
    assert ModelKeys == [RequiredKeys[1].0, RequiredKeys[2].0, RequiredKeys[0].0, IntKeys[0], StrKeys[0], StrKeys[2],
                         StrKeys[3], FloatKeys[0], FloatKeys[1], FloatKeys[2], FloatKeys[3], StrKeys[4], IntKeys[3], StrKeys[1]];
    assert RequiredKeys[0] in RequiredKeys && RequiredKeys[1] in RequiredKeys && RequiredKeys[2] in RequiredKeys;
  }

  /** A metadata dictionary read from a file has exactly the decoded keys. */
  lemma LoadedKeys(nodes: Nodes, path: string)
    requires LoadSpec(nodes, path).Ok? && LoadSpec(nodes, path).value.metadata.Some?
    ensures LoadSpec(nodes, path).value.metadata.value.Keys == DecodedKeys()
  {
    DecodeKeys(nodes[path].data.block.value);
  }

  /** Reinitialising from a file never returns: a file that cannot be read
      raises as `load_tif_metadata` does; one without metadata fails on
      the subscript; and one that decodes binds the model built from it
      and then raises `KeyError('latent')`, because the decoded dictionary
      holds `latents` and never `latent`. */
  lemma ReinitFromFile(current: Option<Inrf2d>, outputDir: string, build: ModelConfig -> Inrf2d, nodes: Nodes,
                       outputShape: seq<int>, path: string)
    ensures ReinitSpec(current, outputDir, build, nodes, outputShape, Some(path), None).result.Err?
    ensures LoadSpec(nodes, path).Err? ==>
              ReinitSpec(current, outputDir, build, nodes, outputShape, Some(path), None)
              == Reinit(current, Err(LoadSpec(nodes, path).error))
    ensures LoadSpec(nodes, path).Ok? && LoadSpec(nodes, path).value.metadata.Some? && |outputShape| == 3 ==>
              && (forall k :: k in ModelKeys ==> k in LoadSpec(nodes, path).value.metadata.value)
              && ReinitSpec(current, outputDir, build, nodes, outputShape, Some(path), None)
                 == Reinit(Some(build(ModelConfig(outputShape, outputDir, ModelFields(LoadSpec(nodes, path).value.metadata.value)))),
                           Err(KeyError("latent")))
  {
    if LoadSpec(nodes, path).Ok? && LoadSpec(nodes, path).value.metadata.Some? {
      var md := LoadSpec(nodes, path).value.metadata.value;
      LoadedKeys(nodes, path);
      ModelKeysDecoded();
      LatentNotDecoded();
      LookupModelKeys(md);
    }
  }

  // ---------------------------------------------------------------------
  // regen_frames

  datatype RegenArgs = RegenArgs(outputShape: seq<int>, numSamples: int, splits: int,
                                 zoom: Option<seq<Pair>>, pan: Option<seq<Pair>>, saveVideo: bool)

  /** The basename with a trailing `_reproduce...` cut off when it ends
      in 'reproduce'. */
  function StripReproduce(b: string): string {
    if EndsWith(b, "reproduce") then SplitHead(b, "_reproduce") else b
  }

  /** `save_fn` for an input file: the basename without its last four
      characters, then `_reproduce`, in the output directory. */
  function RegenName(outputDir: string, p: string): string {
    Join(outputDir, DropLast(StripReproduce(Basename(p)), 4) + "_reproduce")
  }

  /** The file whose existence marks an input as already reproduced. */
  function Marker(saveFn: string): string {
    saveFn + "_0_rgb.png"
  }

  /** A TIFF name, as `glob` returns them, never ends in 'reproduce': the
      strip never applies, so reproducing an output again stacks a second
      `_reproduce`. */
  lemma TifNameNotStripped(outputDir: string, p: string)
    requires EndsWith(p, ".tif")
    ensures RegenName(outputDir, p) == Join(outputDir, Basename(p)[..|Basename(p)| - 4] + "_reproduce")
  {
    TifBasenameKept(p);
    var b := Basename(p);
    assert DropLast(StripReproduce(b), 4) == b[..|b| - 4];
  }

  /** The basename of a `.tif` path ends in `f`, so the `reproduce`
      suffix is never stripped from it. */
  lemma TifBasenameKept(p: string)
    requires EndsWith(p, ".tif")
    ensures StripReproduce(Basename(p)) == Basename(p)
  {
    var b := Basename(p);
    assert p[|p| - 1] == ".tif"[3];
    assert |b| > 0;
    SameLastChar(p, b);
    SameLastChar(b, "reproduce");
    assert StripReproduce(b) == b;
  }

  lemma SameLastChar(s: string, t: string)
    requires |s| > 0 && |t| > 0
    ensures EndsWith(s, t) ==> s[|s| - 1] == t[|t| - 1]
  {
    if EndsWith(s, t) {
      assert s[|s| - |t|..][|t| - 1] == s[|s| - 1];
    }
  }

  /** `latents` as handed to `run_frames`: Python's `None` means none given. */
  function LatentsArg(v: PyValue): Option<PyValue> {
    if v.PyNone? then None else Some(v)
  }

  /** What saving frame `i` as `{stem}{i}` does. */
  function SavedAt(stem: string, f: Frame, meta: Block, colormaps: Option<seq<string>>, i: nat): SampleOutcome {
    var w := Autosave(stem + NatToString(i), f, meta, colormaps);
    if w.error.Some? then Failed(w.error.value, w.writes) else Retained(f, meta, w.writes)
  }

  /** The iterations of the loop over `zip(frames, metadata)` that saves
      each frame as `{save_fn}_{i}`. */
  function SavedOutcomes(saveFn: string, frames: seq<Frame>, metas: seq<Block>, colormaps: Option<seq<string>>): nat -> SampleOutcome {
    (i: nat) => if i < |frames| && i < |metas| then SavedAt(saveFn + "_", frames[i], metas[i], colormaps, i) else Skipped
  }

  /** Number of pairs `zip` yields. */
  function ZipLength<A, B>(a: seq<A>, b: seq<B>): nat {
    if |a| <= |b| then |a| else |b|
  }

  /** The save loop of `regen_frames`. */
  function SaveFrames(saveFn: string, frames: seq<Frame>, metas: seq<Block>, colormaps: Option<seq<string>>): Run {
    RunOf(SavedOutcomes(saveFn, frames, metas, colormaps), ZipLength(frames, metas))
  }

  /** Lines after the model is reinitialised: generate without autosave,
      give up on no frames (`frames` stays `[]`), save every frame as
      `{save_fn}_{i}`, then `write_video` (which rejects its `save_name`
      argument) or `frames = None`. The value is what `frames` is bound to. */
  function Reproduce(m: Inrf2d, st: Settings, a: RegenArgs, saveFn: string, latent: PyValue): Outcome<Option<seq<Frame>>> {
    AfterGeneration(Generation(m, st, a, latent), st.colormaps, a.saveVideo, saveFn)
  }

  /** The `run_frames` call of `regen_frames`: no autosave. */
  function Generation(m: Inrf2d, st: Settings, a: RegenArgs, latent: PyValue): Outcome<(seq<Frame>, seq<Block>)> {
    RunFramesSpec(Some(m), st, RunArgs(LatentsArg(latent), a.numSamples, a.zoom, a.pan, a.splits, false), 0)
  }

  function AfterGeneration(run: Outcome<(seq<Frame>, seq<Block>)>, colormaps: Option<seq<string>>, saveVideo: bool,
                           saveFn: string): Outcome<Option<seq<Frame>>>
  {
    if run.result.Err? then Outcome(Err(run.result.error), run.writes)
    else
      var frames := run.result.value.0;
      if |frames| == 0 then Outcome(Ok(Some([])), run.writes)
      else
        var w := SaveFrames(saveFn, frames, run.result.value.1, colormaps);
        if w.error.Some? then Outcome(Err(w.error.value), run.writes + w.writes)
        else if saveVideo then
          Outcome(Err(TypeError("write_video() got an unexpected keyword argument 'save_name'")), run.writes + w.writes)
        else Outcome(Ok(None), run.writes + w.writes)
  }

  /** The local `frames` of `regen_frames`: unbound until an input gets as
      far as `run_frames`. */
  datatype FramesVar = Unbound | Bound(value: Option<seq<Frame>>)

  /** The state of the loop over the input files. */
  datatype RegenState = RegenState(model: Option<Inrf2d>, frames: FramesVar, writes: seq<(string, FileData)>,
                                   error: Option<PyError>)

  /** The runner's settings, the model builder and the arguments. */
  datatype RegenEnv = RegenEnv(st: Settings, build: ModelConfig -> Inrf2d, a: RegenArgs)

  /** One iteration, for input `p`, on the filesystem as the earlier
      iterations left it. */
  function RegenStep(env: RegenEnv, nodes: Nodes, s: RegenState, p: string): RegenState {
    var saveFn := RegenName(env.st.outputDir, p);
    var disk := ApplyWrites(nodes, s.writes);
    if Marker(saveFn) in disk then s
    else
      var re := ReinitSpec(s.model, env.st.outputDir, env.build, disk, env.a.outputShape, Some(p), None);
      if re.result.Err? then RegenState(re.model, s.frames, s.writes, Some(re.result.error))
      else
        var out := Reproduce(re.model.value, env.st, env.a, saveFn, re.result.value);
        match out.result
        case Err(e) => RegenState(re.model, s.frames, s.writes + out.writes, Some(e))
        case Ok(v) => RegenState(re.model, Bound(v), s.writes + out.writes, None)
  }

  /** The loop state after the first `n` inputs (or the one that raised),
      for any per-input behaviour `step`. */
  function RegenLoop(step: (RegenState, string) -> RegenState, s0: RegenState, paths: seq<string>, n: nat): RegenState
    requires n <= |paths|
  {
    if n == 0 then s0
    else
      var s := RegenLoop(step, s0, paths, n - 1);
      if s.error.Some? then s else step(s, paths[n - 1])
  }

  function RegenOf(env: RegenEnv, current: Option<Inrf2d>, nodes: Nodes, paths: seq<string>, n: nat): RegenState
    requires n <= |paths|
  {
    RegenLoop((s, p) => RegenStep(env, nodes, s, p), RegenState(current, Unbound, [], None), paths, n)
  }

  /** When the first `k` inputs leave the state as it is and input `k`
      raises, the loop ends in the state input `k` leaves. */
  lemma {:induction false} RegenLoopStops(step: (RegenState, string) -> RegenState, s0: RegenState, paths: seq<string>, n: nat, k: nat)
    requires n <= |paths| && k <= |paths| && s0.error.None?
    requires forall j :: 0 <= j < k ==> step(s0, paths[j]) == s0
    requires k < |paths| ==> step(s0, paths[k]).error.Some?
    ensures n <= k ==> RegenLoop(step, s0, paths, n) == s0
    ensures n > k ==> RegenLoop(step, s0, paths, n) == step(s0, paths[k])
  {
    if n > 0 {
      RegenLoopStops(step, s0, paths, n - 1, k);
    }
  }

  /** One more input of a loop that has not raised. */
  lemma RegenLoopNext(step: (RegenState, string) -> RegenState, s0: RegenState, paths: seq<string>, i: nat)
    requires i < |paths| && RegenLoop(step, s0, paths, i).error.None?
    ensures RegenLoop(step, s0, paths, i + 1) == step(RegenLoop(step, s0, paths, i), paths[i])
  {
  }

  /** `RegenOf` one input further: the step applied to the state so far. */
  lemma RegenOfNext(env: RegenEnv, current: Option<Inrf2d>, nodes: Nodes, paths: seq<string>, i: nat)
    requires i < |paths| && RegenOf(env, current, nodes, paths, i).error.None?
    ensures RegenOf(env, current, nodes, paths, i + 1) == RegenStep(env, nodes, RegenOf(env, current, nodes, paths, i), paths[i])
  {
    RegenLoopNext((s, p) => RegenStep(env, nodes, s, p), RegenState(current, Unbound, [], None), paths, i);
  }

  /** `RegenOf` stops at the first input that raises. */
  lemma RegenOfErrorSticks(env: RegenEnv, current: Option<Inrf2d>, nodes: Nodes, paths: seq<string>, k: nat)
    requires k <= |paths| && RegenOf(env, current, nodes, paths, k).error.Some?
    ensures RegenOf(env, current, nodes, paths, |paths|) == RegenOf(env, current, nodes, paths, k)
  {
    RegenLoopErrorSticks((s, p) => RegenStep(env, nodes, s, p), RegenState(current, Unbound, [], None), paths, k, |paths|);
  }

  /** An exception ends the loop over the inputs: later inputs are never
      visited. */
  lemma {:induction false} RegenLoopErrorSticks(step: (RegenState, string) -> RegenState, s0: RegenState,
                                                paths: seq<string>, k: nat, n: nat)
    requires k <= n <= |paths|
    requires RegenLoop(step, s0, paths, k).error.Some?
    ensures RegenLoop(step, s0, paths, n) == RegenLoop(step, s0, paths, k)
    decreases n
  {
    if k < n {
      RegenLoopErrorSticks(step, s0, paths, k, n - 1);
    }
  }

  /** The call's effect: the runner's model afterwards, what it returned
      or raised, and the files it wrote. */
  datatype Regen = Regen(model: Option<Inrf2d>, result: Result<Option<seq<Frame>>, PyError>, writes: seq<(string, FileData)>)

  /** The inputs: the `*.tif` files of a directory (`listing` is what
      `glob` returns), or the file itself; anything else leaves
      `image_paths` unbound, because the `ValueError` is built but not
      raised. */
  function InputPaths(nodes: Nodes, path: string, listing: seq<string>): Result<seq<string>, PyError>
    requires path in nodes
  {
    match nodes[path]
    case Directory => Ok(listing)
    case File(_) => Ok([path])
    case Special => Err(UnboundLocalError("image_paths"))
  }

  /** `regen_frames(path, output_shape, num_samples, splits, zoom_schedule,
      pan_schedule, save_video)`. */
  function RegenSpec(env: RegenEnv, current: Option<Inrf2d>, nodes: Nodes, path: string, listing: seq<string>): (r: Regen)
    ensures path !in nodes ==> r == Regen(current, Err(AssertionError("Must provide existing path to image, or directory")), [])
  {
    if path !in nodes then Regen(current, Err(AssertionError("Must provide existing path to image, or directory")), [])
    else
      match InputPaths(nodes, path, listing)
      case Err(e) => Regen(current, Err(e), [])
      case Ok(paths) =>
        var s := RegenOf(env, current, nodes, paths, |paths|);
        Regen(s.model,
              if s.error.Some? then Err(s.error.value)
              else if s.frames.Unbound? then Err(UnboundLocalError("frames"))
              else Ok(s.frames.value),
              s.writes)
  }

  /** When the save loop completes, the TIFF `{save_fn}_{i}.tif` holds
      frame `i` and its metadata record, for every frame. */
  lemma SaveFramesKeepsEach(saveFn: string, frames: seq<Frame>, metas: seq<Block>, colormaps: Option<seq<string>>, nodes: Nodes)
    requires |frames| == |metas|
    requires SaveFrames(saveFn, frames, metas, colormaps).error.None?
    ensures forall i :: 0 <= i < |frames| ==>
              && saveFn + "_" + NatToString(i) + ".tif" in ApplyWrites(nodes, SaveFrames(saveFn, frames, metas, colormaps).writes)
              && ApplyWrites(nodes, SaveFrames(saveFn, frames, metas, colormaps).writes)[saveFn + "_" + NatToString(i) + ".tif"]
                 == File(TiffFile(frames[i], Some(metas[i])))
  {
    var o := SavedOutcomes(saveFn, frames, metas, colormaps);
    var n := |frames|;
    var stem := saveFn + "_";
    forall i | 0 <= i < n ensures SavesOwnFiles(o, stem, i) && !o(i).Skipped? {
      assert o(i) == SavedAt(stem, frames[i], metas[i], colormaps, i);
      AutosaveWrites(stem + NatToString(i), frames[i], metas[i], colormaps);
    }
    RunKeepsEverySample(o, n);
    RunAligned(o, n);
    RunSavesRetained(o, n, nodes, stem);
    forall i | 0 <= i < n
      ensures saveFn + "_" + NatToString(i) + ".tif" == TiffPath(stem, RunOf(o, n).kept[i])
      ensures RunOf(o, n).frames[i] == frames[i] && RunOf(o, n).metadata[i] == metas[i]
    {
      assert o(i) == SavedAt(stem, frames[i], metas[i], colormaps, i);
    }
  }

  /** Generation in `regen_frames` writes nothing. */
  lemma GenerationWritesNothing(m: Inrf2d, st: Settings, a: RegenArgs, latent: PyValue)
    ensures Generation(m, st, a, latent).writes == []
  {
    RunFramesWithoutAutosave(Some(m), st, RunArgs(LatentsArg(latent), a.numSamples, a.zoom, a.pan, a.splits, false), 0);
  }

  /** When generation yields no frame nothing is written and `frames`
      stays `[]`. */
  lemma ReproduceNoFrames(m: Inrf2d, st: Settings, a: RegenArgs, saveFn: string, latent: PyValue)
    requires Generation(m, st, a, latent).result.Ok? && |Generation(m, st, a, latent).result.value.0| == 0
    ensures Reproduce(m, st, a, saveFn, latent) == Outcome(Ok(Some([])), [])
  {
    GenerationWritesNothing(m, st, a, latent);
  }

  /** Once the frames are saved, `{save_fn}_{i}.tif` holds frame `i` and
      its metadata, for every frame generated; with `save_video` the call
      never gets as far as `frames = None`. */
  lemma AfterGenerationSaves(run: Outcome<(seq<Frame>, seq<Block>)>, colormaps: Option<seq<string>>, saveVideo: bool,
                             saveFn: string, nodes: Nodes)
    requires run.writes == []
    requires run.result.Ok? ==> |run.result.value.0| == |run.result.value.1|
    ensures saveVideo ==> AfterGeneration(run, colormaps, saveVideo, saveFn).result != Ok(None)
    ensures AfterGeneration(run, colormaps, saveVideo, saveFn).result == Ok(None) ==>
              && run.result.Ok?
              && forall i :: 0 <= i < |run.result.value.0| ==>
                   && saveFn + "_" + NatToString(i) + ".tif" in ApplyWrites(nodes, AfterGeneration(run, colormaps, saveVideo, saveFn).writes)
                   && ApplyWrites(nodes, AfterGeneration(run, colormaps, saveVideo, saveFn).writes)[saveFn + "_" + NatToString(i) + ".tif"]
                      == File(TiffFile(run.result.value.0[i], Some(run.result.value.1[i])))
  {
    if run.result.Ok? && |run.result.value.0| > 0 {
      var w := SaveFrames(saveFn, run.result.value.0, run.result.value.1, colormaps);
      if w.error.None? {
        assert [] + w.writes == w.writes;
        SaveFramesKeepsEach(saveFn, run.result.value.0, run.result.value.1, colormaps, nodes);
      }
    }
  }

  /** `regen_frames` after reinitialisation: with the frames saved,
      `{save_fn}_{i}.tif` holds frame `i` of the generation and its
      metadata; with `save_video` it never gets as far as `frames = None`. */
  lemma ReproduceSavesEachFrame(m: Inrf2d, st: Settings, a: RegenArgs, saveFn: string, latent: PyValue, nodes: Nodes)
    ensures a.saveVideo ==> Reproduce(m, st, a, saveFn, latent).result != Ok(None)
    ensures Reproduce(m, st, a, saveFn, latent).result == Ok(None) ==>
              && Generation(m, st, a, latent).result.Ok?
              && forall i :: 0 <= i < |Generation(m, st, a, latent).result.value.0| ==>
                   && saveFn + "_" + NatToString(i) + ".tif" in ApplyWrites(nodes, Reproduce(m, st, a, saveFn, latent).writes)
                   && ApplyWrites(nodes, Reproduce(m, st, a, saveFn, latent).writes)[saveFn + "_" + NatToString(i) + ".tif"]
                      == File(TiffFile(Generation(m, st, a, latent).result.value.0[i], Some(Generation(m, st, a, latent).result.value.1[i])))
  {
    GenerationWritesNothing(m, st, a, latent);
    AfterGenerationSaves(Generation(m, st, a, latent), st.colormaps, a.saveVideo, saveFn, nodes);
  }

  /** A name no iteration writes is not written by the loop. */
  lemma {:induction false} RunAvoids(o: nat -> SampleOutcome, n: nat, p: string)
    requires forall i :: 0 <= i < n && !o(i).Skipped? ==> forall w :: w in o(i).written ==> w.0 != p
    ensures forall w :: w in RunOf(o, n).writes ==> w.0 != p
  {
    if n > 0 {
      RunAvoids(o, n - 1, p);
    }
  }

  /** Without colormaps, saving the frames never writes the file the skip
      check looks for: `{save_fn}_0.png` is written, `{save_fn}_0_rgb.png`
      is not, so such an input is reproduced again on every call. */
  lemma SaveFramesMissMarker(saveFn: string, frames: seq<Frame>, metas: seq<Block>)
    ensures forall w :: w in SaveFrames(saveFn, frames, metas, None).writes ==> w.0 != Marker(saveFn)
  {
    var o := SavedOutcomes(saveFn, frames, metas, None);
    var stem := saveFn + "_";
    var marker := Marker(saveFn);
    assert marker == stem + NatToString(0) + "_rgb.png";
    NamedAfterBy(stem + NatToString(0), "_rgb.png");
    forall i | 0 <= i < ZipLength(frames, metas) && !o(i).Skipped? ensures forall w :: w in o(i).written ==> w.0 != marker {
      assert o(i) == SavedAt(stem, frames[i], metas[i], None, i);
      var path := stem + NatToString(i);
      WriteImagePlain(path, frames[i], "png", None);
      WriteImageTif(path, frames[i], Some(metas[i]), None);
      NamedAfterBy(path, ".png");
      NamedAfterBy(path, ".tif");
      DistinctOwners(path + ".png", marker, stem, i, 0);
      DistinctOwners(path + ".tif", marker, stem, i, 0);
      assert (path + ".png")[|path|] == '.' && (path + ".tif")[|path|] == '.';
    }
    RunAvoids(o, ZipLength(frames, metas), marker);
  }

  /** Whether input `p` counts as already reproduced. */
  predicate Reproduced(outputDir: string, nodes: Nodes, p: string) {
    Marker(RegenName(outputDir, p)) in nodes
  }

  /** Index of the first input for which `done` is false, or `|paths|`. */
  function FirstUndone(done: string -> bool, paths: seq<string>): (k: nat)
    ensures k <= |paths|
    ensures forall j :: 0 <= j < k ==> done(paths[j])
    ensures k < |paths| ==> !done(paths[k])
  {
    if paths == [] || !done(paths[0]) then 0
    else 1 + FirstUndone(done, paths[1..])
  }

  /** The first input of `paths` not yet reproduced, or `|paths|`. */
  function FirstUnskipped(outputDir: string, nodes: Nodes, paths: seq<string>): (k: nat)
    ensures k <= |paths|
    ensures forall j :: 0 <= j < k ==> Reproduced(outputDir, nodes, paths[j])
    ensures k < |paths| ==> !Reproduced(outputDir, nodes, paths[k])
  {
    FirstUndone(p => Reproduced(outputDir, nodes, p), paths)
  }

  /** What reinitialising from input `p` does inside `regen_frames`. */
  function ReinitFor(env: RegenEnv, current: Option<Inrf2d>, nodes: Nodes, p: string): Reinit {
    ReinitSpec(current, env.st.outputDir, env.build, nodes, env.a.outputShape, Some(p), None)
  }

  /** An input already reproduced is skipped. */
  lemma StepSkips(env: RegenEnv, nodes: Nodes, s: RegenState, p: string)
    requires s.writes == [] && Reproduced(env.st.outputDir, nodes, p)
    ensures RegenStep(env, nodes, s, p) == s
  {
  }

  /** For any other input the reinitialisation raises. */
  lemma StepFails(env: RegenEnv, nodes: Nodes, s: RegenState, p: string)
    requires s.writes == [] && !Reproduced(env.st.outputDir, nodes, p)
    ensures ReinitFor(env, s.model, nodes, p).result.Err?
    ensures RegenStep(env, nodes, s, p)
            == RegenState(ReinitFor(env, s.model, nodes, p).model, s.frames, [], Some(ReinitFor(env, s.model, nodes, p).result.error))
  {
    ReinitFromFile(s.model, env.st.outputDir, env.build, nodes, env.a.outputShape, p);
  }

  /** The loop skips the inputs already reproduced and stops at the first
      other one: reinitialising from it raises (binding a new model when
      the file decodes). Nothing is written and `frames` is never bound. */
  lemma RegenOfStops(env: RegenEnv, current: Option<Inrf2d>, nodes: Nodes, paths: seq<string>)
    ensures FirstUnskipped(env.st.outputDir, nodes, paths) == |paths| ==>
              RegenOf(env, current, nodes, paths, |paths|) == RegenState(current, Unbound, [], None)
    ensures FirstUnskipped(env.st.outputDir, nodes, paths) < |paths| ==>
              && ReinitFor(env, current, nodes, paths[FirstUnskipped(env.st.outputDir, nodes, paths)]).result.Err?
              && RegenOf(env, current, nodes, paths, |paths|)
                 == RegenState(ReinitFor(env, current, nodes, paths[FirstUnskipped(env.st.outputDir, nodes, paths)]).model, Unbound, [],
                               Some(ReinitFor(env, current, nodes, paths[FirstUnskipped(env.st.outputDir, nodes, paths)]).result.error))
  {
    var k := FirstUnskipped(env.st.outputDir, nodes, paths);
    var step := (s, p) => RegenStep(env, nodes, s, p);
    var s0 := RegenState(current, Unbound, [], None);
    forall j | 0 <= j < k ensures step(s0, paths[j]) == s0 {
      StepSkips(env, nodes, s0, paths[j]);
    }
    if k < |paths| {
      StepFails(env, nodes, s0, paths[k]);
    }
    RegenLoopStops(step, s0, paths, |paths|, k);
  }

  /** The final state of the loop over `paths`. */
  function RegenFinal(env: RegenEnv, current: Option<Inrf2d>, nodes: Nodes, paths: seq<string>): RegenState {
    RegenOf(env, current, nodes, paths, |paths|)
  }

  /** `regen_frames` never returns: it raises at the first input not yet
      reproduced, with the runner's model rebound when that file decoded,
      or with `UnboundLocalError` on `frames` when every input was skipped
      or there was none. It writes nothing. */
  lemma RegenNeverReturns(env: RegenEnv, current: Option<Inrf2d>, nodes: Nodes, path: string, listing: seq<string>)
    ensures RegenSpec(env, current, nodes, path, listing).result.Err?
    ensures RegenSpec(env, current, nodes, path, listing).writes == []
    ensures path in nodes && InputPaths(nodes, path, listing).Ok? ==>
              RegenSpec(env, current, nodes, path, listing) == RegenOutcome(env, current, nodes, InputPaths(nodes, path, listing).value)
  {
    if path in nodes && InputPaths(nodes, path, listing).Ok? {
      var paths := InputPaths(nodes, path, listing).value;
      RegenOfStops(env, current, nodes, paths);
    }
  }

  /** The outcome `RegenNeverReturns` describes for a list of inputs. */
  function RegenOutcome(env: RegenEnv, current: Option<Inrf2d>, nodes: Nodes, paths: seq<string>): Regen {
    var k := FirstUnskipped(env.st.outputDir, nodes, paths);
    if k == |paths| then Regen(current, Err(UnboundLocalError("frames")), [])
    else
      var r := ReinitFor(env, current, nodes, paths[k]);
      Regen(r.model, Err(if r.result.Err? then r.result.error else KeyError("latent")), [])
  }

  // ---------------------------------------------------------------------
  // fit

  /** `f'{output_dir}/fit_{epoch}'`. */
  function FitPath(outputDir: string, e: nat): string {
    outputDir + "/fit_" + NatToString(e)
  }

  /** The four `write_image` calls of one epoch: the frame as PNG and as
      TIFF (without metadata), then the test frame likewise under
      `_test`. */
  function EpochWrites(outputDir: string, e: nat, step: FitStep): seq<(string, FileData)> {
    var p := FitPath(outputDir, e);
    WriteImage(p, step.frame, "png", None, None).writes + WriteImage(p, step.frame, "tif", None, None).writes
    + WriteImage(p + "_test", step.testFrame, "png", None, None).writes
    + WriteImage(p + "_test", step.testFrame, "tif", None, None).writes
  }

  /** The losses and the files of the first `n` epochs. */
  datatype Fitted = Fitted(losses: seq<real>, writes: seq<(string, FileData)>)

  function FitOf(m: Inrf2d, outputDir: string, args: FitArgs, n: nat): (r: Fitted)
    ensures |r.losses| == n
    ensures forall e :: 0 <= e < n ==> r.losses[e] == m.fitEpoch(args, e).loss
  {
    if n == 0 then Fitted([], [])
    else
      var r := FitOf(m, outputDir, args, n - 1);
      var step := m.fitEpoch(args, n - 1);
      Fitted(r.losses + [step.loss], r.writes + EpochWrites(outputDir, n - 1, step))
  }

  /** `fit(target, output_shape, loss_weights, num_epochs, ...)`: one loss
      per epoch, in order, with the epoch's frames written as it goes. */
  function FitSpec(model: Option<Inrf2d>, outputDir: string, args: FitArgs, numEpochs: int): (o: Outcome<seq<real>>)
    ensures o.result.Ok? <==> model.Some? && model.value.convMap
    ensures o.result.Err? ==> o.result.error.AssertionError? && o.writes == []
    ensures o.result.Ok? ==> |o.result.value| == Iterations(numEpochs)
    ensures o.result.Ok? ==> forall e :: 0 <= e < Iterations(numEpochs) ==> o.result.value[e] == model.value.fitEpoch(args, e).loss
  {
    if model.None? then Outcome(Err(AssertionError("Must initialize model before fitting")), [])
    else if !model.value.convMap then Outcome(Err(AssertionError("Must initialize model with INRConvMap to fit")), [])
    else
      var r := FitOf(model.value, outputDir, args, Iterations(numEpochs));
      Outcome(Ok(r.losses), r.writes)
  }

  /** The model after `n` epochs of training: the optimizer updates the
      weights of `map_fn` in place, so generation and any further training
      are those of the weights `n` more epochs with `args` leave behind,
      while the shape, the latent settings, the seed, the kind of map, the
      sampling of latents and the metadata record stay this model's. */
  function Trained(m: Inrf2d, args: FitArgs, n: nat): Inrf2d {
    if n == 0 then m
    else
      var h := m.training + [(args, n)];
      var w := m.retrain(h);
      m.(generate := w.generate, fitEpoch := w.fitEpoch, training := h)
  }

  /** The runner's model after `fit`: trained for every epoch when `fit`
      gets past its two assertions, and untouched when it raises. */
  function FitModel(model: Option<Inrf2d>, args: FitArgs, numEpochs: int): Option<Inrf2d> {
    if model.Some? && model.value.convMap then Some(Trained(model.value, args, Iterations(numEpochs)))
    else model
  }

  /** Training changes the weights only: after `fit` the runner still has
      a model exactly when it had one, with the same save prefix and the
      same `INRConvMap`, so `fit` can be called again with the same
      outcome of its assertions, and `save_verbose` names its files as
      before. Without epochs the model is untouched. */
  lemma FitKeepsSettings(model: Option<Inrf2d>, args: FitArgs, numEpochs: int, saveVerbose: bool,
                         outputDir: string, args2: FitArgs, numEpochs2: int)
    ensures FitModel(model, args, numEpochs).Some? <==> model.Some?
    ensures SavePrefix(FitModel(model, args, numEpochs), saveVerbose) == SavePrefix(model, saveVerbose)
    ensures FitSpec(FitModel(model, args, numEpochs), outputDir, args2, numEpochs2).result.Ok?
            <==> FitSpec(model, outputDir, args2, numEpochs2).result.Ok?
    ensures Iterations(numEpochs) == 0 ==> FitModel(model, args, numEpochs) == model
    ensures FitSpec(model, outputDir, args, numEpochs).result.Err? ==> FitModel(model, args, numEpochs) == model
  {
  }

  /** The files of one epoch, by name. */
  lemma EpochWritesAre(outputDir: string, e: nat, step: FitStep)
    ensures EpochWrites(outputDir, e, step)
            == [(FitPath(outputDir, e) + ".png", RasterFile(Plain(step.frame))),
                (FitPath(outputDir, e) + ".tif", TiffFile(step.frame, None)),
                (FitPath(outputDir, e) + "_test.png", RasterFile(Plain(step.testFrame))),
                (FitPath(outputDir, e) + "_test.tif", TiffFile(step.testFrame, None))]
  {
    var p := FitPath(outputDir, e);
    WriteImagePlain(p, step.frame, "png", None);
    WriteImageTif(p, step.frame, None, None);
    WriteImagePlain(p + "_test", step.testFrame, "png", None);
    WriteImageTif(p + "_test", step.testFrame, None, None);
    assert p + "_test" + "." + "png" == p + "_test.png";
    assert p + "_test" + ".tif" == p + "_test.tif";
    assert p + "." + "png" == p + ".png";
  }

  /** After `n` epochs, each epoch's two TIFFs hold its frames, without
      metadata. */
  predicate FitTiffsSaved(m: Inrf2d, outputDir: string, args: FitArgs, n: nat, nodes: Nodes) {
    EpochTiffsAt(ApplyWrites(nodes, FitOf(m, outputDir, args, n).writes), m, outputDir, args, n)
  }

  /** The two TIFFs of every epoch before `n` hold that epoch's frames. */
  predicate EpochTiffsAt(disk: Nodes, m: Inrf2d, outputDir: string, args: FitArgs, n: nat) {
    forall e :: 0 <= e < n ==>
      && FitPath(outputDir, e) + ".tif" in disk
      && disk[FitPath(outputDir, e) + ".tif"] == File(TiffFile(m.fitEpoch(args, e).frame, None))
      && FitPath(outputDir, e) + "_test.tif" in disk
      && disk[FitPath(outputDir, e) + "_test.tif"] == File(TiffFile(m.fitEpoch(args, e).testFrame, None))
  }

  /** Every file of epoch `e` belongs to epoch `e`. */
  lemma EpochOwnsWrites(outputDir: string, e: nat, step: FitStep)
    ensures forall k :: 0 <= k < |EpochWrites(outputDir, e, step)| ==>
              OwnedBy(EpochWrites(outputDir, e, step)[k].0, outputDir + "/fit_", e)
  {
    var p := FitPath(outputDir, e);
    EpochWritesAre(outputDir, e, step);
    NamedAfterBy(p, ".png");
    NamedAfterBy(p, ".tif");
    NamedAfterBy(p, "_test.png");
    NamedAfterBy(p, "_test.tif");
  }

  /** No file of epoch `e` is a TIFF of another epoch. */
  lemma EpochLeavesOthers(outputDir: string, e: nat, step: FitStep, other: nat)
    requires other != e
    ensures forall w :: w in EpochWrites(outputDir, e, step) ==>
              w.0 != FitPath(outputDir, other) + ".tif" && w.0 != FitPath(outputDir, other) + "_test.tif"
  {
    var stem := outputDir + "/fit_";
    var q := FitPath(outputDir, other);
    EpochOwnsWrites(outputDir, e, step);
    NamedAfterBy(q, ".tif");
    NamedAfterBy(q, "_test.tif");
    forall w | w in EpochWrites(outputDir, e, step)
      ensures w.0 != q + ".tif" && w.0 != q + "_test.tif"
    {
      var k :| 0 <= k < |EpochWrites(outputDir, e, step)| && EpochWrites(outputDir, e, step)[k] == w;
      DistinctOwners(w.0, q + ".tif", stem, e, other);
      DistinctOwners(w.0, q + "_test.tif", stem, e, other);
    }
  }

  /** Within one epoch the frame's TIFF is not overwritten by the test
      files written after it. */
  lemma EpochKeepsOwnTiff(nodes: Nodes, ws: seq<(string, FileData)>, outputDir: string, e: nat, step: FitStep)
    ensures FitPath(outputDir, e) + ".tif" in ApplyWrites(nodes, ws + EpochWrites(outputDir, e, step))
    ensures ApplyWrites(nodes, ws + EpochWrites(outputDir, e, step))[FitPath(outputDir, e) + ".tif"]
            == File(TiffFile(step.frame, None))
    ensures FitPath(outputDir, e) + "_test.tif" in ApplyWrites(nodes, ws + EpochWrites(outputDir, e, step))
    ensures ApplyWrites(nodes, ws + EpochWrites(outputDir, e, step))[FitPath(outputDir, e) + "_test.tif"]
            == File(TiffFile(step.testFrame, None))
  {
    var p := FitPath(outputDir, e);
    var ew := EpochWrites(outputDir, e, step);
    EpochWritesAre(outputDir, e, step);
    var first, rest := ws + ew[..2], ew[2..];
    assert ws + ew == first + rest;
    LastWriteWins(nodes, first);
    assert first[|first| - 1] == (p + ".tif", TiffFile(step.frame, None));
    assert (p + "_test.png")[|p|] == '_' && (p + "_test.tif")[|p|] == '_' && (p + ".tif")[|p|] == '.';
    WritesElsewhere(nodes, first, rest, p + ".tif");
    LastWriteWins(nodes, ws + ew);
  }

  /** After `fit`, each epoch's TIFF and test TIFF hold that epoch's
      frames: no later epoch overwrites them. */
  lemma {:induction false} FitSavesEachEpoch(m: Inrf2d, outputDir: string, args: FitArgs, n: nat, nodes: Nodes)
    ensures FitTiffsSaved(m, outputDir, args, n, nodes)
  {
    if n > 0 {
      FitSavesEachEpoch(m, outputDir, args, n - 1, nodes);
      var prev := FitOf(m, outputDir, args, n - 1).writes;
      var step := m.fitEpoch(args, n - 1);
      var ew := EpochWrites(outputDir, n - 1, step);
      assert FitOf(m, outputDir, args, n).writes == prev + ew;
      EpochSaved(nodes, prev, m, outputDir, args, n - 1);
      assert EpochTiffsAt(ApplyWrites(nodes, prev + ew), m, outputDir, args, n);
    }
  }

  /** Writing the files of epoch `n` keeps the TIFFs of the earlier
      epochs and adds its own. */
  lemma EpochSaved(nodes: Nodes, prev: seq<(string, FileData)>, m: Inrf2d, outputDir: string, args: FitArgs, n: nat)
    requires EpochTiffsAt(ApplyWrites(nodes, prev), m, outputDir, args, n)
    ensures EpochTiffsAt(ApplyWrites(nodes, prev + EpochWrites(outputDir, n, m.fitEpoch(args, n))), m, outputDir, args, n + 1)
  {
    var step := m.fitEpoch(args, n);
    var before, after := ApplyWrites(nodes, prev), ApplyWrites(nodes, prev + EpochWrites(outputDir, n, step));
    EpochKeepsOwnTiff(nodes, prev, outputDir, n, step);
    forall e | 0 <= e < n + 1
      ensures FitPath(outputDir, e) + ".tif" in after
      ensures after[FitPath(outputDir, e) + ".tif"] == File(TiffFile(m.fitEpoch(args, e).frame, None))
      ensures FitPath(outputDir, e) + "_test.tif" in after
      ensures after[FitPath(outputDir, e) + "_test.tif"] == File(TiffFile(m.fitEpoch(args, e).testFrame, None))
    {
      if e < n {
        var q := FitPath(outputDir, e);
        assert q + ".tif" in before && before[q + ".tif"] == File(TiffFile(m.fitEpoch(args, e).frame, None));
        assert q + "_test.tif" in before && before[q + "_test.tif"] == File(TiffFile(m.fitEpoch(args, e).testFrame, None));
        EpochKeepsEarlier(nodes, prev, outputDir, n, step, e);
      } else {
        assert e == n;
      }
    }
  }

  /** The files of epoch `n` leave the two TIFFs of an earlier epoch `e`
      as they were. */
  lemma EpochKeepsEarlier(nodes: Nodes, prev: seq<(string, FileData)>, outputDir: string, n: nat, step: FitStep, e: nat)
    requires e < n
    requires FitPath(outputDir, e) + ".tif" in ApplyWrites(nodes, prev)
    requires FitPath(outputDir, e) + "_test.tif" in ApplyWrites(nodes, prev)
    ensures FitPath(outputDir, e) + ".tif" in ApplyWrites(nodes, prev + EpochWrites(outputDir, n, step))
    ensures ApplyWrites(nodes, prev + EpochWrites(outputDir, n, step))[FitPath(outputDir, e) + ".tif"]
            == ApplyWrites(nodes, prev)[FitPath(outputDir, e) + ".tif"]
    ensures FitPath(outputDir, e) + "_test.tif" in ApplyWrites(nodes, prev + EpochWrites(outputDir, n, step))
    ensures ApplyWrites(nodes, prev + EpochWrites(outputDir, n, step))[FitPath(outputDir, e) + "_test.tif"]
            == ApplyWrites(nodes, prev)[FitPath(outputDir, e) + "_test.tif"]
  {
    var ew := EpochWrites(outputDir, n, step);
    EpochLeavesOthers(outputDir, n, step, e);
    WritesElsewhere(nodes, prev, ew, FitPath(outputDir, e) + ".tif");
    WritesElsewhere(nodes, prev, ew, FitPath(outputDir, e) + "_test.tif");
  }

  /** A TIFF written by `fit` holds no metadata, so `load_tif_metadata`
      cannot reproduce it. */
  lemma FitTiffsNotReloadable(m: Inrf2d, outputDir: string, args: FitArgs, numEpochs: int, nodes: Nodes, e: nat)
    requires m.convMap && e < Iterations(numEpochs)
    ensures LoadSpec(ApplyWrites(nodes, FitSpec(Some(m), outputDir, args, numEpochs).writes), FitPath(outputDir, e) + ".tif")
            == Ok(Loaded(None, None, [CouldNotLoad(FitPath(outputDir, e) + ".tif")]))
  {
    FitSavesEachEpoch(m, outputDir, args, Iterations(numEpochs), nodes);
  }
}
