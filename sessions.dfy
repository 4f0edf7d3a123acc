/**
 * Sessions: what keyOut's frame loop delivers over a whole run, for a video input, for a
 * still image input and when Escape is pressed, and what keyOut reports when the media
 * types do not fit together.
 */
module Sessions {
  import opened Wrappers
  import opened Frames
  import opened Storage
  import opened MediaTypes
  import opened Keying
  import MediaSource
  import MediaFactory
  import VideoReader
  import opened ChromaKeying

  /** Escape is not pressed at any keystroke from the cursor's count on. */
  ghost predicate NoEscapeFrom(keys: seq<int>, count: nat)
  {
    forall j: nat :: count <= j ==> LowByte(KeyAt(keys, j)) != Escape
  }

  /** The background the k-th pass works with: the k-th replayed background frame, resized
      to the size of the input frame it is keyed behind. */
  function BackgroundFor(bg: MediaSource.SourceState, k: nat, fg: Frame, cfg: Config): Frame
    requires MediaSource.Replayable(bg, cfg.env)
  {
    var b := MediaSource.LoopedFrameAt(bg, cfg.env, k);
    Resize(b, fg.size, ChooseInterpolation(b.size, fg.size), cfg.resample)
  }

  /** `shown` is what keying the video frames from `pos` on gives, each over the matching
      replayed background frame of `bg`. */
  ghost predicate VideoShows(shown: seq<Frame>, fs: seq<Image>, pos: nat, bg: MediaSource.SourceState, cfg: Config)
    requires pos <= |fs| && MediaSource.Replayable(bg, cfg.env)
  {
    && |shown| == |fs| - pos
    && forall k :: 0 <= k < |shown| ==>
         shown[k] == KeyedFrame(fs[pos + k], BackgroundFor(bg, k, fs[pos + k], cfg), cfg.keyHsv, cfg.params, cfg.kernels)
  }

  /** One pass over a video positioned before its end: the frame at `pos` is keyed over the
      first replayed background frame, and the cursor moves on to `pos + 1` and to the
      background that replays from its second frame. */
  lemma VideoPass(c: Cursor, cfg: Config)
    requires c.input.VideoState? && !c.input.looped && c.input.cap.Opened? && c.input.cap.pos < |c.input.cap.frames|
    requires MediaSource.Replayable(c.background, cfg.env) && LowByte(c.key) != Escape
    ensures var fs, pos := c.input.cap.frames, c.input.cap.pos;
            var t := Step(c, cfg);
            && t.Emit?
            && t.frame == KeyedFrame(fs[pos], BackgroundFor(c.background, 0, fs[pos], cfg), cfg.keyHsv, cfg.params, cfg.kernels)
            && t.next.input == MediaSource.VideoState(c.input.path, false, VideoReader.Opened(fs, pos + 1))
            && MediaSource.Replayable(t.next.background, cfg.env)
            && (forall k: nat :: MediaSource.LoopedFrameAt(t.next.background, cfg.env, k) == MediaSource.LoopedFrameAt(c.background, cfg.env, k + 1))
            && t.next.key == KeyAt(cfg.keys, c.count) && t.next.count == c.count + 1
  {
    var fs, pos := c.input.cap.frames, c.input.cap.pos;
    var input' := MediaSource.VideoState(c.input.path, false, VideoReader.Opened(fs, pos + 1));
    assert MediaSource.Step(c.input, cfg.env, c.inputFrame) == Success((input', Fetch(true, fs[pos])));
    MediaSource.ReplayableStep(c.background, cfg.env, c.backgroundFrame);
    var bgStep := MediaSource.Step(c.background, cfg.env, c.backgroundFrame).value;
    StepEmits(c, cfg, input', Fetch(true, fs[pos]), bgStep.0, bgStep.1);
  }

  /** Putting the keyed frame at `pos` in front of what the rest of the video shows gives
      what the video shows from `pos`. */
  lemma VideoShowsCons(frame: Frame, rest: seq<Frame>, fs: seq<Image>, pos: nat,
                       bg: MediaSource.SourceState, bg': MediaSource.SourceState, cfg: Config)
    requires pos < |fs| && MediaSource.Replayable(bg, cfg.env) && MediaSource.Replayable(bg', cfg.env)
    requires forall k: nat :: MediaSource.LoopedFrameAt(bg', cfg.env, k) == MediaSource.LoopedFrameAt(bg, cfg.env, k + 1)
    requires frame == KeyedFrame(fs[pos], BackgroundFor(bg, 0, fs[pos], cfg), cfg.keyHsv, cfg.params, cfg.kernels)
    requires VideoShows(rest, fs, pos + 1, bg', cfg)
    ensures VideoShows([frame] + rest, fs, pos, bg, cfg)
  {
    var s := [frame] + rest;
    forall k | 0 <= k < |s|
      ensures s[k] == KeyedFrame(fs[pos + k], BackgroundFor(bg, k, fs[pos + k], cfg), cfg.keyHsv, cfg.params, cfg.kernels)
    {
      if k > 0 {
        assert s[k] == rest[k - 1];
        assert MediaSource.LoopedFrameAt(bg', cfg.env, k - 1) == MediaSource.LoopedFrameAt(bg, cfg.env, k);
      }
    }
  }

  /** A non-looped video positioned at `pos` over a replayable background, with Escape never
      pressed: the loop keys every remaining frame, in order, each over the next background
      frame, and ends normally. */
  lemma {:induction false} VideoSession(c: Cursor, cfg: Config)
    requires c.input.VideoState? && !c.input.looped && c.input.cap.Opened? && c.input.cap.pos <= |c.input.cap.frames|
    requires MediaSource.Replayable(c.background, cfg.env)
    requires LowByte(c.key) != Escape && NoEscapeFrom(cfg.keys, c.count)
    ensures Run(c, cfg).outcome == Pass
    ensures VideoShows(Run(c, cfg).shown, c.input.cap.frames, c.input.cap.pos, c.background, cfg)
    decreases |c.input.cap.frames| - c.input.cap.pos
  {
    var fs, pos := c.input.cap.frames, c.input.cap.pos;
    if pos == |fs| {
      StepEnds(c, cfg);
      assert Run(c, cfg) == Session(Pass, []);
    } else {
      VideoPass(c, cfg);
      var t := Step(c, cfg);
      VideoSession(t.next, cfg);
      RunEmits(c, cfg);
      VideoShowsCons(t.frame, Run(t.next, cfg).shown, fs, pos, c.background, t.next.background, cfg);
    }
  }

  /** A still image input that does not decode raises on the first read: nothing is shown. */
  lemma UndecodableImageSession(c: Cursor, cfg: Config)
    requires c.input.ImageState? && !c.input.looped && c.input.cache.None?
    requires Imread(cfg.env, c.input.path).None?
    ensures Run(c, cfg) == Session(Fail(AssertionFailed("!frame.empty()")), [])
  {
    StepFails(c, cfg);
  }

  /** A still image input that decodes, over a replayable background and without Escape on
      the first pass: exactly one frame, the picture keyed over the background, is shown,
      and the loop ends normally on the second read. */
  lemma ImageSession(c: Cursor, cfg: Config)
    requires c.input.ImageState? && !c.input.looped && c.input.cache.None?
    requires Imread(cfg.env, c.input.path).Some?
    requires MediaSource.Replayable(c.background, cfg.env) && LowByte(c.key) != Escape
    ensures var picture := Imread(cfg.env, c.input.path).value;
            Run(c, cfg) == Session(Pass, [KeyedFrame(picture, BackgroundFor(c.background, 0, picture, cfg),
                                                     cfg.keyHsv, cfg.params, cfg.kernels)])
  {
    var picture := Imread(cfg.env, c.input.path).value;
    var input' := MediaSource.ImageState(c.input.path, false, Some(picture));
    assert MediaSource.Step(c.input, cfg.env, c.inputFrame) == Success((input', Fetch(true, picture)));
    MediaSource.ReplayableStep(c.background, cfg.env, c.backgroundFrame);
    var bgStep := MediaSource.Step(c.background, cfg.env, c.backgroundFrame).value;
    StepEmits(c, cfg, input', Fetch(true, picture), bgStep.0, bgStep.1);
    var next := Step(c, cfg).next;
    assert MediaSource.Step(next.input, cfg.env, next.inputFrame).value.1.ok == false;
    StepEnds(next, cfg);
    RunEmits(c, cfg);
  }

  /** When the previous key was Escape the loop ends before it reads the background:
      nothing more is shown. */
  lemma EscapeStopsAtOnce(c: Cursor, cfg: Config)
    requires !c.input.looped && LowByte(c.key) == Escape
    ensures Run(c, cfg).shown == []
  {
    if MediaSource.Step(c.input, cfg.env, c.inputFrame).Failure? {
      StepFails(c, cfg);
    } else {
      StepEnds(c, cfg);
    }
  }

  /** Escape pressed while the frame with index j is on screen ends the loop: at most the
      frames up to and including that one are shown. */
  lemma {:induction false} EscapeBound(c: Cursor, cfg: Config, j: nat)
    requires !c.input.looped && c.count <= j && LowByte(KeyAt(cfg.keys, j)) == Escape
    ensures |Run(c, cfg).shown| <= j - c.count + 1
    decreases j - c.count
  {
    var t := Step(c, cfg);
    if t.Emit? {
      RunEmits(c, cfg);
      if j == c.count {
        EscapeStopsAtOnce(t.next, cfg);
      } else {
        EscapeBound(t.next, cfg, j);
      }
    }
  }

  /** keyOut with media types that do not fit together raises before any frame is read or
      written, with the check's message. */
  lemma KeyOutMismatch(inputFile: string, backgroundFile: string, outputFile: string,
                       color: Bgr8, params: Params, inputFrame: Frame, backgroundFrame: Frame,
                       env: Env, keys: seq<int>, kernels: Kernels, resample: Resampler)
    requires Sources(inputFile, backgroundFile, env).Success? && MediaFactory.WriterType(outputFile, env).Success?
    requires var (inSt, bgSt) := Sources(inputFile, backgroundFile, env).value;
             !Compatible(inSt.MediaType(), bgSt.MediaType(), MediaFactory.WriterType(outputFile, env).value)
    ensures var (inSt, bgSt) := Sources(inputFile, backgroundFile, env).value;
            var check := CheckMediaTypes(inSt.MediaType(), bgSt.MediaType(), MediaFactory.WriterType(outputFile, env).value);
            && check.Fail?
            && KeyOutSpec(inputFile, backgroundFile, outputFile, color, params, inputFrame, backgroundFrame,
                          env, keys, kernels, resample) == Report(check, [], [])
  {
  }

  /** A background that was created looping and whose file decodes, as a picture or as a
      non-empty stream, replays forever. */
  lemma InitialReplayable(backgroundFile: string, env: Env)
    requires MediaFactory.ReaderState(backgroundFile, true, env).Success?
    requires var bgSt := MediaFactory.ReaderState(backgroundFile, true, env).value;
             && (bgSt.ImageState? ==> Imread(env, backgroundFile).Some?)
             && (bgSt.VideoState? ==> |OpenStream(env, backgroundFile).value| > 0)
    ensures MediaSource.Replayable(MediaFactory.ReaderState(backgroundFile, true, env).value, env)
  {
  }

  /** keyOut on a video input over a background that decodes, with Escape never pressed:
      the run ends normally after showing every frame of the input stream, in order, each
      keyed over the matching replayed background frame, and the same frames are written
      unless the output is the dummy sink. */
  lemma KeyOutVideo(inputFile: string, backgroundFile: string, outputFile: string,
                    color: Bgr8, params: Params, inputFrame: Frame, backgroundFrame: Frame,
                    env: Env, keys: seq<int>, kernels: Kernels, resample: Resampler)
    requires Setup(inputFile, backgroundFile, outputFile, env).Success?
    requires var (inSt, bgSt, _) := Setup(inputFile, backgroundFile, outputFile, env).value;
             && inSt.VideoState?
             && (bgSt.ImageState? ==> Imread(env, backgroundFile).Some?)
             && (bgSt.VideoState? ==> |OpenStream(env, backgroundFile).value| > 0)
    requires NoEscapeFrom(keys, 0)
    ensures var (inSt, bgSt, sinkType) := Setup(inputFile, backgroundFile, outputFile, env).value;
            var rep := KeyOutSpec(inputFile, backgroundFile, outputFile, color, params, inputFrame, backgroundFrame,
                                  env, keys, kernels, resample);
            var cfg := Config(env, keys, kernels.toHsv(Normalize(color)), params, kernels, resample);
            && MediaSource.Replayable(bgSt, env)
            && rep.outcome == Pass
            && VideoShows(rep.shown, OpenStream(env, inputFile).value, 0, bgSt, cfg)
            && rep.written == (if sinkType == SinkType.Dummy then [] else rep.shown)
  {
    var (inSt, bgSt, sinkType) := Setup(inputFile, backgroundFile, outputFile, env).value;
    SetupSound(inputFile, backgroundFile, outputFile, env);
    InitialReplayable(backgroundFile, env);
    var cfg := Config(env, keys, kernels.toHsv(Normalize(color)), params, kernels, resample);
    VideoSession(Cursor(inSt, bgSt, inputFrame, backgroundFrame, 0, 0), cfg);
  }
}
