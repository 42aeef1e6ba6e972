/** `RunnerINRF2D` (neural_canvas/runners/runner2d.py): a runner holding a
    model and its output settings, whose methods generate frames, rebuild
    the model from a saved TIFF, regenerate saved frames at a new shape and
    fit the model to a target. Each method is proved against the function
    in `RunnerSpec` that states its effect; the filesystem is a `Disk`. */
module Runner2D {
  import opened Python
  import opened Text
  import opened Storage
  import opened Images
  import opened TifMetadata
  import opened RunnerSpec

  class Runner {
    var model: Option<Inrf2d>
    var savePrefix: string
    var saveVerbose: bool
    var skipBlankGenerations: bool
    var colormaps: Option<seq<string>>
    var outputDir: string

    /** The fields other than the model. */
    function Config(): Settings
      reads this
    {
      Settings(outputDir, savePrefix, skipBlankGenerations, colormaps, saveVerbose)
    }

    /** `RunnerINRF2D(model, output_dir, save_verbose, skip_blank_generations,
        colormaps)` when the save prefix can be formed; `Create` covers the
        case where it cannot. */
    constructor (model: Option<Inrf2d>, outputDir: string, saveVerbose: bool, skipBlankGenerations: bool,
                 colormaps: Option<seq<string>>)
      requires SavePrefix(model, saveVerbose).Ok?
      ensures this.model == model && this.outputDir == outputDir && this.saveVerbose == saveVerbose
      ensures this.skipBlankGenerations == skipBlankGenerations && this.colormaps == colormaps
      ensures savePrefix == SavePrefix(model, saveVerbose).value
    {
      this.model := model;
      if saveVerbose {
        var m := model.value;
        savePrefix := "z-" + IntToString(m.latentDim) + "_scale-" + m.latentScaleRepr + "-" + IntToString(m.seed);
      } else {
        savePrefix := "gen_image";
      }
      this.saveVerbose := saveVerbose;
      this.skipBlankGenerations := skipBlankGenerations;
      this.colormaps := colormaps;
      this.outputDir := outputDir;
    }

    /** The constructor as called from Python: with `save_verbose` and no
        model, forming the prefix raises `AttributeError`. */
    static method Create(model: Option<Inrf2d>, outputDir: string, saveVerbose: bool, skipBlankGenerations: bool,
                         colormaps: Option<seq<string>>) returns (r: Result<Runner, PyError>)
      ensures r.Err? <==> saveVerbose && model.None?
      ensures r.Err? ==> r.error.AttributeError?
      ensures r.Ok? ==> fresh(r.value) && r.value.model == model && r.value.outputDir == outputDir
      ensures r.Ok? ==> r.value.savePrefix == (if saveVerbose then SavePrefix(model, true).value else "gen_image")
      ensures r.Ok? ==> r.value.skipBlankGenerations == skipBlankGenerations && r.value.colormaps == colormaps
    {
      if saveVerbose && model.None? {
        return Err(AttributeError("'NoneType' object has no attribute 'latent_dim'"));
      }
      var runner := new Runner(model, outputDir, saveVerbose, skipBlankGenerations, colormaps);
      return Ok(runner);
    }

    /** Lines 90-112 of one iteration: zoom and pan from the schedules or
        their defaults, sampling, generation, reshape and byte conversion. */
    static method GenerateFrame(m: Inrf2d, a: RunArgs, i: nat) returns (r: Result<(Frame, Sample), PyError>)
      ensures r == Sampled(m, a, i)
    {
      var zoom: Pair;
      if a.zoom.Some? {
        if i >= |a.zoom.value| {
          return Err(IndexError(i));
        }
        zoom := a.zoom.value[i];
      } else {
        zoom := (0.5, 0.5);
      }
      var pan: Pair;
      if a.pan.Some? {
        if i >= |a.pan.value| {
          return Err(IndexError(i));
        }
        pan := a.pan.value[i];
      } else {
        pan := (2.0, 2.0);
      }
      var s := m.initLatentInputs(a.latents, zoom, pan, i);
      var values := m.generate(s, a.splits);
      var shape := ReshapedShape(|values|, m.xDim, m.yDim, m.cDim);
      if shape.Err? {
        return Err(shape.error);
      }
      return Ok((Frame(shape.value, Quantise(m.finalActivation, values)), s));
    }

    /** The autosave of one frame: `write_image` of the PNG with the
        runner's colormaps, then of the TIFF with the metadata. */
    method SaveSample(path: string, frame: Frame, meta: Block, disk: Disk) returns (w: WriteReport)
      modifies disk
      ensures w == Autosave(path, frame, meta, colormaps)
      ensures disk.nodes == ApplyWrites(old(disk.nodes), w.writes)
    {
      var png := WriteImage(path, frame, "png", None, colormaps);
      disk.WriteAll(png.writes);
      if png.error.Some? {
        return png;
      }
      var tif := WriteImage(path, frame, "tif", Some(meta), None);
      disk.WriteAll(tif.writes);
      ApplyWritesAppend(old(disk.nodes), png.writes, tif.writes);
      return WriteReport(png.writes + tif.writes, png.warned || tif.warned, tif.error);
    }

    /** Iteration `i` of the `run_frames` loop: the frame, the blank
        check, the metadata record and the autosave. */
    method Sample(m: Inrf2d, a: RunArgs, randId: nat, i: nat, disk: Disk) returns (out: SampleOutcome)
      modifies disk
      ensures out == SampleOutcomeAt(m, Config(), a, randId, i)
      ensures disk.nodes == ApplyWrites(old(disk.nodes), if out.Skipped? then [] else out.written)
    {
      var g := GenerateFrame(m, a, i);
      if g.Err? {
        return Failed(g.error, []);
      }
      var (frame, s) := g.value;
      if skipBlankGenerations {
        var blank := Blank(frame);
        if blank.Err? {
          return Failed(blank.error, []);
        }
        if blank.value {
          return Skipped;
        }
      }
      var meta := m.metadataOf(s.metaLatents);
      var w := WriteReport([], false, None);
      if a.autosave {
        w := SaveSample(SavePath(outputDir, savePrefix, randId, i), frame, meta, disk);
      }
      if w.error.Some? {
        return Failed(w.error.value, w.writes);
      }
      return Retained(frame, meta, w.writes);
    }

    /** One iteration of the `run_frames` loop with its effect on the two
        result lists: the loop state after `i + 1` samples from the state
        after `i`. */
    method RunNext(m: Inrf2d, a: RunArgs, randId: nat, i: nat, ghost st: Settings, ghost o: nat -> SampleOutcome,
                   frames: seq<Frame>, metadata: seq<Block>, ghost kept: seq<nat>,
                   ghost writes: seq<(string, FileData)>, ghost start: Nodes, disk: Disk)
      returns (framesAfter: seq<Frame>, metadataAfter: seq<Block>, ghost keptAfter: seq<nat>,
               ghost writesAfter: seq<(string, FileData)>, err: Option<PyError>)
      requires st == Config() && o == Outcomes(m, st, a, randId)
      requires RunOf(o, i) == Run(frames, metadata, kept, writes, None)
      requires disk.nodes == ApplyWrites(start, writes)
      modifies disk
      ensures RunOf(o, i + 1) == Run(framesAfter, metadataAfter, keptAfter, writesAfter, err)
      ensures disk.nodes == ApplyWrites(start, writesAfter)
    {
      var out := Sample(m, a, randId, i, disk);
      assert out == o(i);
      match out {
        case Failed(e, ws) =>
          ApplyWritesAppend(start, writes, ws);
          return frames, metadata, kept, writes + ws, Some(e);
        case Skipped =>
          return frames, metadata, kept, writes, None;
        case Retained(frame, meta, ws) =>
          ApplyWritesAppend(start, writes, ws);
          return frames + [frame], metadata + [meta], kept + [i], writes + ws, None;
      }
    }

    /** `run_frames(latents, num_samples, zoom_schedule, pan_schedule,
        splits, autosave)`, with the random `randID` passed in. */
    method RunFrames(latents: Option<PyValue>, numSamples: int, zoom: Option<seq<Pair>>, pan: Option<seq<Pair>>,
                     splits: int, autosave: bool, randId: nat, disk: Disk)
      returns (r: Result<(seq<Frame>, seq<Block>), PyError>)
      requires randId < 99999999
      modifies disk
      ensures r == RunFramesSpec(model, Config(), RunArgs(latents, numSamples, zoom, pan, splits, autosave), randId).result
      ensures disk.nodes == ApplyWrites(old(disk.nodes),
                                        RunFramesSpec(model, Config(), RunArgs(latents, numSamples, zoom, pan, splits, autosave), randId).writes)
    {
      if model.None? {
        return Err(AssertionError("Must provide a model to generate from"));
      }
      var m := model.value;
      var a := RunArgs(latents, numSamples, zoom, pan, splits, autosave);
      ghost var o := Outcomes(m, Config(), a, randId);
      var frames, metadata, err;
      ghost var kept, writes;
      frames, metadata, kept, writes, err := RunSamples(m, a, randId, Config(), o, disk);
      if err.Some? {
        return Err(err.value);
      }
      return Ok((frames, metadata));
    }

    /** The loop of lines 89-125 over the `num_samples` iterations, which
        stops at the first exception. */
    method RunSamples(m: Inrf2d, a: RunArgs, randId: nat, ghost st: Settings, ghost o: nat -> SampleOutcome, disk: Disk)
      returns (frames: seq<Frame>, metadata: seq<Block>, ghost kept: seq<nat>,
               ghost writes: seq<(string, FileData)>, err: Option<PyError>)
      requires st == Config() && o == Outcomes(m, st, a, randId)
      modifies disk
      ensures RunOf(o, Iterations(a.numSamples)) == Run(frames, metadata, kept, writes, err)
      ensures disk.nodes == ApplyWrites(old(disk.nodes), writes)
    {
      ghost var start := disk.nodes;
      var n := Iterations(a.numSamples);
      frames, metadata, kept, writes := [], [], [], [];
      for i := 0 to n
        invariant RunOf(o, i) == Run(frames, metadata, kept, writes, None)
        invariant disk.nodes == ApplyWrites(start, writes)
      {
        frames, metadata, kept, writes, err := RunNext(m, a, randId, i, st, o, frames, metadata, kept, writes, start, disk);
        if err.Some? {
          RunErrorSticks(o, i + 1, n);
          return;
        }
      }
      err := None;
    }

    /** Lines 138-139: the metadata given, else the one read from `path`. */
    static method MetadataFor(nodes: Nodes, path: Option<string>, metadata: Option<Metadata>)
      returns (r: Result<Option<Metadata>, PyError>)
      ensures r == MetadataSource(nodes, path, metadata)
    {
      if metadata.Some? {
        return Ok(metadata);
      }
      if path.None? {
        return Err(TypeError("stat: path should be string, bytes, os.PathLike or integer, not NoneType"));
      }
      var loaded := LoadTifMetadata(nodes, path.value);
      if loaded.Err? {
        return Err(loaded.error);
      }
      return Ok(loaded.value.metadata);
    }

    /** `reinit_model_from_metadata(output_shape, path, metadata)`; `build`
        stands for the `INRF2D` constructor followed by `init_map_fn`. */
    method ReinitModelFromMetadata(outputShape: seq<int>, path: Option<string>, metadata: Option<Metadata>,
                                   build: ModelConfig -> Inrf2d, disk: Disk) returns (r: Result<PyValue, PyError>)
      modifies this
      ensures model == ReinitSpec(old(model), outputDir, build, disk.nodes, outputShape, path, metadata).model
      ensures r == ReinitSpec(old(model), outputDir, build, disk.nodes, outputShape, path, metadata).result
      ensures Config() == old(Config())
    {
      var md := MetadataFor(disk.nodes, path, metadata);
      if md.Err? {
        return Err(md.error);
      }
      if |outputShape| != 3 {
        return Err(AssertionError("Invalid output shape"));
      }
      if md.value.None? {
        return Err(TypeError("'NoneType' object is not subscriptable"));
      }
      var fields := Lookup(md.value.value, ModelKeys);
      if fields.Err? {
        return Err(fields.error);
      }
      model := Some(build(ModelConfig(outputShape, outputDir, fields.value)));
      r := Get(md.value.value, "latent");
    }

    /** The save loop of `regen_frames` (lines 216-218): each frame and its
        metadata record as `{save_fn}_{i}`, PNG then TIFF. */
    method SaveReproduced(saveFn: string, frames: seq<Frame>, metas: seq<Block>, disk: Disk)
      returns (err: Option<PyError>, ghost written: seq<(string, FileData)>)
      modifies disk
      ensures err == SaveFrames(saveFn, frames, metas, colormaps).error
      ensures written == SaveFrames(saveFn, frames, metas, colormaps).writes
      ensures disk.nodes == ApplyWrites(old(disk.nodes), written)
    {
      ghost var cm := colormaps;
      ghost var o := SavedOutcomes(saveFn, frames, metas, cm);
      ghost var start := disk.nodes;
      var n := ZipLength(frames, metas);
      written := [];
      for i := 0 to n
        invariant RunOf(o, i).error.None? && RunOf(o, i).writes == written
        invariant disk.nodes == ApplyWrites(start, written)
      {
        err, written := SaveNext(saveFn, frames, metas, i, cm, o, written, start, disk);
        if err.Some? {
          RunErrorSticks(o, i + 1, n);
          return;
        }
      }
      err := None;
    }

    /** One iteration of the save loop: frame `i` saved as `{save_fn}_{i}`. */
    method SaveNext(saveFn: string, frames: seq<Frame>, metas: seq<Block>, i: nat, ghost cm: Option<seq<string>>,
                    ghost o: nat -> SampleOutcome, ghost written: seq<(string, FileData)>, ghost start: Nodes, disk: Disk)
      returns (err: Option<PyError>, ghost writtenAfter: seq<(string, FileData)>)
      requires cm == colormaps && o == SavedOutcomes(saveFn, frames, metas, cm)
      requires i < |frames| && i < |metas|
      requires RunOf(o, i).error.None? && RunOf(o, i).writes == written
      requires disk.nodes == ApplyWrites(start, written)
      modifies disk
      ensures RunOf(o, i + 1).error == err && RunOf(o, i + 1).writes == writtenAfter
      ensures disk.nodes == ApplyWrites(start, writtenAfter)
    {
      var w := SaveSample(saveFn + "_" + NatToString(i), frames[i], metas[i], disk);
      assert o(i) == SavedAt(saveFn + "_", frames[i], metas[i], cm, i);
      RunStep(o, i);
      ApplyWritesAppend(start, written, w.writes);
      return w.error, written + w.writes;
    }

    /** One input of `regen_frames` (lines 194-221), on the filesystem that
        `nodes` and the earlier inputs' `writes` leave. `frames` is the
        local `frames` before the input; `err` is what the input raised. */
    method RegenOne(p: string, a: RegenArgs, build: ModelConfig -> Inrf2d, frames: FramesVar, ghost env: RegenEnv,
                    ghost nodes: Nodes, ghost writes: seq<(string, FileData)>, disk: Disk)
      returns (framesAfter: FramesVar, err: Option<PyError>, ghost written: seq<(string, FileData)>)
      requires env == RegenEnv(Config(), build, a)
      requires disk.nodes == ApplyWrites(nodes, writes)
      modifies this, disk
      ensures RegenStep(env, nodes, RegenState(old(model), frames, writes, None), p)
              == RegenState(model, framesAfter, writes + written, err)
      ensures disk.nodes == ApplyWrites(nodes, writes + written)
      ensures Config() == old(Config())
    {
      var basename := Basename(p);
      if EndsWith(basename, "reproduce") {
        basename := SplitHead(basename, "_reproduce");
      }
      var saveFn := Join(outputDir, DropLast(basename, 4) + "_reproduce");
      assert saveFn == RegenName(outputDir, p);
      if saveFn + "_0_rgb.png" in disk.nodes {
        assert writes + [] == writes;
        return frames, None, [];
      }
      var latent := ReinitModelFromMetadata(a.outputShape, Some(p), None, build, disk);
      if latent.Err? {
        assert writes + [] == writes;
        return frames, Some(latent.error), [];
      }
      var out;
      ghost var produced;
      out, produced := ReproduceFrom(saveFn, a, latent.value, disk);
      ApplyWritesAppend(nodes, writes, produced);
      if out.Err? {
        return frames, Some(out.error), produced;
      }
      return Bound(out.value), None, produced;
    }

    /** Lines 206-221, once the model is rebuilt: generation without
        autosave, the check for no frames, the save loop, then
        `write_video` or `frames = None`. */
    method ReproduceFrom(saveFn: string, a: RegenArgs, latent: PyValue, disk: Disk)
      returns (r: Result<Option<seq<Frame>>, PyError>, ghost written: seq<(string, FileData)>)
      requires model.Some?
      modifies disk
      ensures Outcome(r, written) == Reproduce(model.value, Config(), a, saveFn, latent)
      ensures disk.nodes == ApplyWrites(old(disk.nodes), written)
    {
      var run := RunFrames(LatentsArg(latent), a.numSamples, a.zoom, a.pan, a.splits, false, 0, disk);
      written := Generation(model.value, Config(), a, latent).writes;
      if run.Err? {
        return Err(run.error), written;
      }
      var (frames, metas) := run.value;
      if |frames| == 0 {
        return Ok(Some(frames)), written;
      }
      var saveErr;
      ghost var saved;
      saveErr, saved := SaveReproduced(saveFn, frames, metas, disk);
      ApplyWritesAppend(old(disk.nodes), written, saved);
      written := written + saved;
      if saveErr.Some? {
        return Err(saveErr.value), written;
      }
      if a.saveVideo {
        return Err(TypeError("write_video() got an unexpected keyword argument 'save_name'")), written;
      }
      return Ok(None), written;
    }

    /** `regen_frames(path, output_shape, num_samples, splits, zoom_schedule,
        pan_schedule, save_video)`; `listing` is what `glob` returns for a
        directory. */
    method RegenFrames(path: string, outputShape: seq<int>, numSamples: int, splits: int,
                       zoom: Option<seq<Pair>>, pan: Option<seq<Pair>>, saveVideo: bool,
                       listing: seq<string>, build: ModelConfig -> Inrf2d, disk: Disk)
      returns (r: Result<Option<seq<Frame>>, PyError>)
      modifies this, disk
      ensures model == RegenSpec(RegenEnv(old(Config()), build, RegenArgs(outputShape, numSamples, splits, zoom, pan, saveVideo)),
                                 old(model), old(disk.nodes), path, listing).model
      ensures r == RegenSpec(RegenEnv(old(Config()), build, RegenArgs(outputShape, numSamples, splits, zoom, pan, saveVideo)),
                             old(model), old(disk.nodes), path, listing).result
      ensures disk.nodes == ApplyWrites(old(disk.nodes),
                                        RegenSpec(RegenEnv(old(Config()), build, RegenArgs(outputShape, numSamples, splits, zoom, pan, saveVideo)),
                                                  old(model), old(disk.nodes), path, listing).writes)
      ensures Config() == old(Config())
    {
      if path !in disk.nodes {
        return Err(AssertionError("Must provide existing path to image, or directory"));
      }
      var paths: seq<string>;
      match disk.nodes[path] {
        case Directory => paths := listing;
        case File(_) => paths := [path];
        case Special => return Err(UnboundLocalError("image_paths"));
      }
      var args := RegenArgs(outputShape, numSamples, splits, zoom, pan, saveVideo);
      var frames, err;
      ghost var written;
      frames, err, written := RegenPaths(paths, args, build, disk, RegenEnv(Config(), build, args), model, disk.nodes);
      if err.Some? {
        return Err(err.value);
      }
      if frames.Unbound? {
        return Err(UnboundLocalError("frames"));
      }
      return Ok(frames.value);
    }

    /** The loop of `regen_frames` over its inputs (lines 194-221), ending
        with the local `frames` or the exception an input raised; `env`,
        `current` and `nodes` are the settings, model and filesystem on
        entry. */
    method RegenPaths(paths: seq<string>, args: RegenArgs, build: ModelConfig -> Inrf2d, disk: Disk,
                      ghost env: RegenEnv, ghost current: Option<Inrf2d>, ghost nodes: Nodes)
      returns (frames: FramesVar, err: Option<PyError>, ghost writes: seq<(string, FileData)>)
      requires env == RegenEnv(Config(), build, args) && current == model && nodes == disk.nodes
      modifies this, disk
      ensures RegenOf(env, current, nodes, paths, |paths|) == RegenState(model, frames, writes, err)
      ensures disk.nodes == ApplyWrites(nodes, writes)
      ensures Config() == env.st
    {
      frames := Unbound;
      writes := [];
      for i := 0 to |paths|
        invariant RegenOf(env, current, nodes, paths, i) == RegenState(model, frames, writes, None)
        invariant disk.nodes == ApplyWrites(nodes, writes)
        invariant Config() == env.st
      {
        var after;
        ghost var written;
        after, err, written := RegenNext(paths, i, args, build, frames, env, current, nodes, writes, disk);
        if err.Some? {
          RegenOfErrorSticks(env, current, nodes, paths, i + 1);
          return after, err, writes + written;
        }
        frames := after;
        writes := writes + written;
      }
      return frames, None, writes;
    }

    /** One iteration of the loop of `RegenPaths`: input `paths[i]` taken
        from the state the first `i` inputs left. */
    method RegenNext(paths: seq<string>, i: nat, args: RegenArgs, build: ModelConfig -> Inrf2d, frames: FramesVar,
                     ghost env: RegenEnv, ghost current: Option<Inrf2d>, ghost nodes: Nodes,
                     ghost writes: seq<(string, FileData)>, disk: Disk)
      returns (after: FramesVar, err: Option<PyError>, ghost written: seq<(string, FileData)>)
      requires i < |paths|
      requires env == RegenEnv(Config(), build, args)
      requires RegenOf(env, current, nodes, paths, i) == RegenState(model, frames, writes, None)
      requires disk.nodes == ApplyWrites(nodes, writes)
      modifies this, disk
      ensures RegenOf(env, current, nodes, paths, i + 1) == RegenState(model, after, writes + written, err)
      ensures disk.nodes == ApplyWrites(nodes, writes + written)
      ensures Config() == old(Config())
    {
      RegenOfNext(env, current, nodes, paths, i);
      after, err, written := RegenOne(paths[i], args, build, frames, env, nodes, writes, disk);
    }

    /** One iteration of the loop of `fit`: the model's `fit` trains it in
        place for one more epoch and returns the epoch's loss and frames,
        which are then written. */
    method TrainEpoch(m: Inrf2d, args: FitArgs, epoch: nat, disk: Disk) returns (loss: real)
      requires model == Some(Trained(m, args, epoch))
      modifies this, disk
      ensures loss == m.fitEpoch(args, epoch).loss
      ensures disk.nodes == ApplyWrites(old(disk.nodes), EpochWrites(outputDir, epoch, m.fitEpoch(args, epoch)))
      ensures model == Some(Trained(m, args, epoch + 1))
      ensures Config() == old(Config())
    {
      var step := m.fitEpoch(args, epoch);
      model := Some(Trained(m, args, epoch + 1));
      WriteEpoch(epoch, step, disk);
      loss := step.loss;
    }

    /** The files of one epoch (lines 267-270): the frame as `fit_{epoch}`
        and the test frame as `fit_{epoch}_test`, each as PNG then TIFF. */
    method WriteEpoch(e: nat, step: FitStep, disk: Disk)
      modifies disk
      ensures disk.nodes == ApplyWrites(old(disk.nodes), EpochWrites(outputDir, e, step))
    {
      var p := outputDir + "/fit_" + NatToString(e);
      var w1 := WriteImage(p, step.frame, "png", None, None);
      disk.WriteAll(w1.writes);
      var w2 := WriteImage(p, step.frame, "tif", None, None);
      disk.WriteAll(w2.writes);
      var w3 := WriteImage(p + "_test", step.testFrame, "png", None, None);
      disk.WriteAll(w3.writes);
      var w4 := WriteImage(p + "_test", step.testFrame, "tif", None, None);
      disk.WriteAll(w4.writes);
      ApplyWritesAppend(old(disk.nodes), w1.writes, w2.writes);
      ApplyWritesAppend(old(disk.nodes), w1.writes + w2.writes, w3.writes);
      ApplyWritesAppend(old(disk.nodes), w1.writes + w2.writes + w3.writes, w4.writes);
    }

    /** `fit(target, output_shape, loss_weights, num_epochs,
        num_iters_per_epoch, lr, weight_decay)`: after its two assertions,
        the epochs of training. */
    method Fit(target: PyValue, outputShape: seq<int>, lossWeights: map<string, real>, numEpochs: int,
               itersPerEpoch: int, lr: real, weightDecay: real, disk: Disk) returns (r: Result<seq<real>, PyError>)
      modifies this, disk
      ensures r == FitSpec(old(model), outputDir, FitArgs(target, outputShape, lossWeights, itersPerEpoch, lr, weightDecay), numEpochs).result
      ensures disk.nodes == ApplyWrites(old(disk.nodes),
                                        FitSpec(old(model), outputDir, FitArgs(target, outputShape, lossWeights, itersPerEpoch, lr, weightDecay), numEpochs).writes)
      ensures model == FitModel(old(model), FitArgs(target, outputShape, lossWeights, itersPerEpoch, lr, weightDecay), numEpochs)
      ensures Config() == old(Config())
    {
      if model.None? {
        return Err(AssertionError("Must initialize model before fitting"));
      }
      if !model.value.convMap {
        return Err(AssertionError("Must initialize model with INRConvMap to fit"));
      }
      var args := FitArgs(target, outputShape, lossWeights, itersPerEpoch, lr, weightDecay);
      var losses := TrainEpochs(model.value, args, Iterations(numEpochs), disk);
      return Ok(losses);
    }

    /** The loop of `fit` over `n` epochs, from the model `m`: each epoch
        trains the model in place, records its loss and writes its frames. */
    method TrainEpochs(m: Inrf2d, args: FitArgs, n: nat, disk: Disk) returns (losses: seq<real>)
      requires model == Some(m)
      modifies this, disk
      ensures losses == FitOf(m, outputDir, args, n).losses
      ensures disk.nodes == ApplyWrites(old(disk.nodes), FitOf(m, outputDir, args, n).writes)
      ensures model == Some(Trained(m, args, n))
      ensures Config() == old(Config())
    {
      losses := [];
      ghost var writes: seq<(string, FileData)> := [];
      for epoch := 0 to n
        invariant FitOf(m, outputDir, args, epoch) == Fitted(losses, writes)
        invariant disk.nodes == ApplyWrites(old(disk.nodes), writes)
        invariant model == Some(Trained(m, args, epoch))
        invariant Config() == old(Config())
      {
        var loss := TrainEpoch(m, args, epoch, disk);
        ApplyWritesAppend(old(disk.nodes), writes, EpochWrites(outputDir, epoch, m.fitEpoch(args, epoch)));
        losses := losses + [loss];
        writes := writes + EpochWrites(outputDir, epoch, m.fitEpoch(args, epoch));
      }
    }
  }
}
