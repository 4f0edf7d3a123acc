/**
 * ChromaKeying: the ChromaKeyer object. Its keyOutFrame turns the current input and
 * background frames into the composited output through its matrix buffers; its keyOut
 * opens the input (not looped), the background (looped) and the output, checks that
 * their media types fit together, and then runs the frame loop until the input is used
 * up or Escape was pressed.
 */
module ChromaKeying {
  import opened Wrappers
  import opened Frames
  import opened Storage
  import opened MediaTypes
  import opened Keying
  import Matrices
  import MediaSource
  import MediaSink
  import MediaFactory

  /** The interpolation cv::resize is asked for. */
  datatype Interpolation = InterArea | InterCubic

  /** A background with more pixels than the input is shrunk with area interpolation;
      otherwise it is enlarged (or kept) with bicubic interpolation. */
  function ChooseInterpolation(src: Size, dst: Size): (m: Interpolation)
    ensures m == InterArea <==> src.Area() > dst.Area()
    ensures m == InterCubic <==> src.Area() <= dst.Area()
  {
    if src.Area() > dst.Area() then InterArea else InterCubic
  }

  /** The resampling kernel of cv::resize, which this model leaves abstract: the pixel at
      one index of the target grid, given the source frame, the target size and the method. */
  type Resampler = (Frame, Size, Interpolation, nat) -> Bgr8

  /** cv::resize to an explicit target size: a well-formed frame of exactly that size. */
  function Resize(src: Frame, dsize: Size, interpolation: Interpolation, resample: Resampler): (r: Frame)
    ensures r.Valid() && r.size == dsize
  {
    Frame(dsize, seq(dsize.Area(), i requires 0 <= i < dsize.Area() => resample(src, dsize, interpolation, i)))
  }

  /** cv::EVENT_LBUTTONUP */
  const LeftButtonUp: int := 4

  /** The key code of Escape. */
  const Escape: int := 27

  /** `key & 0xFF` on a two's complement int. */
  function LowByte(key: int): int { key % 256 }

  /** The low byte ignores modifier bits above the first eight, and the -1 that cv::waitKey
      returns when no key was pressed never reads as Escape. */
  lemma LowByteOfKeys(key: int, flags: int)
    ensures LowByte(key + 256 * flags) == LowByte(key)
    ensures LowByte(-1) == 255 != Escape
  {
    ModMultiple(key, flags);
  }

  lemma ModMultiple(a: int, q: int)
    ensures (a + 256 * q) % 256 == a % 256
  {
    var r := a % 256;
    assert a == (a / 256) * 256 + r;
    assert a + 256 * q == (a / 256 + q) * 256 + r;
  }

  /** What cv::waitKey returns after the frame with the given index was shown: the key pressed,
      or -1 once the recorded keystrokes run out. */
  function KeyAt(keys: seq<int>, i: nat): int
  {
    if i < |keys| then keys[i] else -1
  }

  /** The media types keyOut accepts: a video input needs a video or no output; an image input
      needs an image background and an image or no output. Other inputs are not checked. */
  predicate Compatible(input: SourceType, background: SourceType, sink: SinkType)
    ensures sink == SinkType.Dummy ==>
              (Compatible(input, background, sink) <==> (input == SourceType.ImageFile ==> background == SourceType.ImageFile))
    ensures input == SourceType.VideoFile ==> (Compatible(input, background, sink) <==> sink != SinkType.ImageFile)
  {
    && (input == SourceType.VideoFile ==> sink == SinkType.VideoFile || sink == SinkType.Dummy)
    && (input == SourceType.ImageFile ==> background == SourceType.ImageFile)
    && (input == SourceType.ImageFile ==> sink == SinkType.ImageFile || sink == SinkType.Dummy)
  }

  /** The errors the media type check raises. */
  const VideoOutputMismatch: Error := RuntimeError("Mismatching media types: the input file is a video, but the output is not.")
  const BackgroundNotImage: Error := RuntimeError("Background must be an image.")
  const ImageOutputMismatch: Error := RuntimeError("Mismatching media types: the input file is an image, but the output is not.")

  /** The media type check at the start of keyOut, with its messages, in the order they are tested. */
  function CheckMediaTypes(input: SourceType, background: SourceType, sink: SinkType): (r: Outcome<Error>)
    ensures r.Pass? <==> Compatible(input, background, sink)
    ensures input == SourceType.VideoFile && r.Fail? ==>
              r.error == VideoOutputMismatch
    ensures input == SourceType.ImageFile && background != SourceType.ImageFile ==>
              r == Fail(BackgroundNotImage)
    ensures input == SourceType.ImageFile && background == SourceType.ImageFile && r.Fail? ==>
              r.error == ImageOutputMismatch
  {
    if input == SourceType.VideoFile then
      if sink != SinkType.VideoFile && sink != SinkType.Dummy then
        Fail(VideoOutputMismatch)
      else Pass
    else if input == SourceType.ImageFile then
      if background != SourceType.ImageFile then
        Fail(BackgroundNotImage)
      else if sink != SinkType.ImageFile && sink != SinkType.Dummy then
        Fail(ImageOutputMismatch)
      else Pass
    else Pass
  }

  /** What stays fixed while the frame loop runs: the environment, the recorded keystrokes,
      the key colour in HSV, the parameters and the library kernels. */
  datatype Config = Config(env: Env, keys: seq<int>, keyHsv: Hsv, params: Params, kernels: Kernels, resample: Resampler)

  /** Where the frame loop stands: both sources, the frames last left in inputFrameBGR and
      backgroundBGR, the last key code and the number of frames processed. */
  datatype Cursor = Cursor(input: MediaSource.SourceState, background: MediaSource.SourceState,
                           inputFrame: Frame, backgroundFrame: Frame, key: int, count: nat)

  /** How a run ends and the frames it produced, in order. */
  datatype Session = Session(outcome: Outcome<Error>, shown: seq<Frame>)

  /** What one pass of the loop leads to: the loop ends with an outcome, or a keyed frame
      is produced and the loop goes on from the next cursor. */
  datatype Turn = Stop(outcome: Outcome<Error>) | Emit(frame: Frame, next: Cursor)

  /** One pass of the loop: read the input (stop when the read reports false or the previous
      key was Escape), read the looped background, resize it to the input's size, key out.
      Any exception ends the loop. */
  function Step(c: Cursor, cfg: Config): (t: Turn)
    requires !c.input.looped
    ensures t.Emit? ==> && t.frame.Valid() && !t.next.input.looped
                        && MediaSource.Remaining(t.next.input) < MediaSource.Remaining(c.input)
                        && t.next.key == KeyAt(cfg.keys, c.count) && t.next.count == c.count + 1
  {
    match MediaSource.Step(c.input, cfg.env, c.inputFrame)
    case Failure(e) => Stop(Fail(e))
    case Success((input', fetch)) =>
      if !fetch.ok || LowByte(c.key) == Escape then Stop(Pass)
      else
        match MediaSource.Step(c.background, cfg.env, c.backgroundFrame)
        case Failure(e) => Stop(Fail(e))
        case Success((background', bgFetch)) =>
          MediaSource.DeliveredIsImage(c.input, cfg.env, c.inputFrame);
          MediaSource.NonLoopedProgress(c.input, cfg.env, c.inputFrame);
          var fg := fetch.frame;
          var bg := Resize(bgFetch.frame, fg.size, ChooseInterpolation(bgFetch.frame.size, fg.size), cfg.resample);
          Emit(KeyedFrame(fg, bg, cfg.keyHsv, cfg.params, cfg.kernels),
               Cursor(input', background', fg, bg, KeyAt(cfg.keys, c.count), c.count + 1))
  }

  /** The frame loop of keyOut from a cursor: passes until one of them stops it, with the
      frames they produced in order. */
  function Run(c: Cursor, cfg: Config): (s: Session)
    requires !c.input.looped
    decreases MediaSource.Remaining(c.input)
    ensures |s.shown| <= MediaSource.Remaining(c.input)
    ensures forall k :: 0 <= k < |s.shown| ==> s.shown[k].Valid()
  {
    match Step(c, cfg)
    case Stop(outcome) => Session(outcome, [])
    case Emit(frame, next) =>
      var rest := Run(next, cfg);
      Session(rest.outcome, [frame] + rest.shown)
  }

  /** The four ways a pass can go, each from what the two reads return. */
  lemma StepFails(c: Cursor, cfg: Config)
    requires !c.input.looped && MediaSource.Step(c.input, cfg.env, c.inputFrame).Failure?
    ensures Step(c, cfg) == Stop(Fail(MediaSource.Step(c.input, cfg.env, c.inputFrame).error))
  {
  }

  lemma StepEnds(c: Cursor, cfg: Config)
    requires !c.input.looped && MediaSource.Step(c.input, cfg.env, c.inputFrame).Success?
    requires !MediaSource.Step(c.input, cfg.env, c.inputFrame).value.1.ok || LowByte(c.key) == Escape
    ensures Step(c, cfg) == Stop(Pass)
  {
  }

  lemma StepBackgroundFails(c: Cursor, cfg: Config)
    requires !c.input.looped && MediaSource.Step(c.input, cfg.env, c.inputFrame).Success?
    requires MediaSource.Step(c.input, cfg.env, c.inputFrame).value.1.ok && LowByte(c.key) != Escape
    requires MediaSource.Step(c.background, cfg.env, c.backgroundFrame).Failure?
    ensures Step(c, cfg) == Stop(Fail(MediaSource.Step(c.background, cfg.env, c.backgroundFrame).error))
  {
  }

  lemma StepEmits(c: Cursor, cfg: Config, input': MediaSource.SourceState, fetch: Fetch,
                  background': MediaSource.SourceState, bgFetch: Fetch)
    requires !c.input.looped && LowByte(c.key) != Escape
    requires MediaSource.Step(c.input, cfg.env, c.inputFrame) == Success((input', fetch)) && fetch.ok
    requires MediaSource.Step(c.background, cfg.env, c.backgroundFrame) == Success((background', bgFetch))
    ensures fetch.frame.Valid()
    ensures var bg := Resize(bgFetch.frame, fetch.frame.size, ChooseInterpolation(bgFetch.frame.size, fetch.frame.size), cfg.resample);
            Step(c, cfg) == Emit(KeyedFrame(fetch.frame, bg, cfg.keyHsv, cfg.params, cfg.kernels),
                                 Cursor(input', background', fetch.frame, bg, KeyAt(cfg.keys, c.count), c.count + 1))
  {
    MediaSource.DeliveredIsImage(c.input, cfg.env, c.inputFrame);
  }

  /** A pass that produces a frame puts it in front of the rest of the run. */
  lemma RunEmits(c: Cursor, cfg: Config)
    requires !c.input.looped && Step(c, cfg).Emit?
    ensures var t := Step(c, cfg);
            var rest := Run(t.next, cfg);
            Run(c, cfg) == Session(rest.outcome, [t.frame] + rest.shown)
  {
  }

  lemma AppendAssociative<T>(a: seq<T>, b: seq<T>, c: seq<T>)
    ensures a + (b + c) == (a + b) + c
  {
  }

  /** The readers keyOut creates, in order: the input (not looped), then the background
      (looped); the first error ends it. */
  function Sources(inputFile: string, backgroundFile: string, env: Env)
    : Result<(MediaSource.SourceState, MediaSource.SourceState), Error>
  {
    match MediaFactory.ReaderState(inputFile, false, env)
    case Failure(e) => Failure(e)
    case Success(inSt) =>
      match MediaFactory.ReaderState(backgroundFile, true, env)
      case Failure(e) => Failure(e)
      case Success(bgSt) => Success((inSt, bgSt))
  }

  /** The opening phase of keyOut: the two readers, then the writer, then the media type
      check, the first error ending it. */
  function Setup(inputFile: string, backgroundFile: string, outputFile: string, env: Env)
    : (r: Result<(MediaSource.SourceState, MediaSource.SourceState, SinkType), Error>)
    ensures Sources(inputFile, backgroundFile, env).Failure? ==> r == Failure(Sources(inputFile, backgroundFile, env).error)
    ensures Sources(inputFile, backgroundFile, env).Success? && MediaFactory.WriterType(outputFile, env).Failure? ==>
              r == Failure(MediaFactory.WriterType(outputFile, env).error)
    ensures Sources(inputFile, backgroundFile, env).Success? && MediaFactory.WriterType(outputFile, env).Success? ==>
              var (inSt, bgSt) := Sources(inputFile, backgroundFile, env).value;
              var sinkType := MediaFactory.WriterType(outputFile, env).value;
              && (r.Success? <==> Compatible(inSt.MediaType(), bgSt.MediaType(), sinkType))
              && (r.Success? ==> r.value == (inSt, bgSt, sinkType))
              && (r.Failure? ==> Fail(r.error) == CheckMediaTypes(inSt.MediaType(), bgSt.MediaType(), sinkType))
  {
    match Sources(inputFile, backgroundFile, env)
    case Failure(e) => Failure(e)
    case Success((inSt, bgSt)) =>
      match MediaFactory.WriterType(outputFile, env)
      case Failure(e) => Failure(e)
      case Success(sinkType) =>
        match CheckMediaTypes(inSt.MediaType(), bgSt.MediaType(), sinkType)
        case Fail(e) => Failure(e)
        case Pass => Success((inSt, bgSt, sinkType))
  }

  /** The two readers of keyOut, freshly allocated and apart from each other, in the states
      Sources describes, or the error that ends keyOut. */
  method OpenSources(inputFile: string, backgroundFile: string, env: Env)
    returns (r: Result<(MediaSource.Source, MediaSource.Source), Error>)
    ensures match Sources(inputFile, backgroundFile, env)
            case Failure(e) => r == Failure(e)
            case Success((inSt, bgSt)) =>
              && r.Success?
              && fresh(r.value.0.Repr()) && fresh(r.value.1.Repr())
              && r.value.0.Repr() !! r.value.1.Repr()
              && r.value.0.State() == inSt && r.value.1.State() == bgSt
  {
    var input := MediaFactory.CreateReader(inputFile, false, env);
    if input.Failure? {
      return Failure(input.error);
    }
    var srcIn := input.value;
    ghost var inSt := srcIn.State();
    assert MediaFactory.ReaderState(inputFile, false, env) == Success(inSt);
    label BeforeBackground:
    var background := MediaFactory.CreateReader(backgroundFile, true, env);
    if background.Failure? {
      return Failure(background.error);
    }
    var srcBg := background.value;
    ghost var bgSt := srcBg.State();
    assert MediaFactory.ReaderState(backgroundFile, true, env) == Success(bgSt);
    assert Sources(inputFile, backgroundFile, env) == Success((inSt, bgSt));
    MediaSource.StateFramed@BeforeBackground(srcIn);
    assert srcIn.Repr() !! srcBg.Repr();
    r := Success((srcIn, srcBg));
  }

  /** The first part of keyOut: the sources and the sink Setup describes, freshly allocated
      and apart from each other, or the error that ends keyOut. */
  method Open(inputFile: string, backgroundFile: string, outputFile: string, frameSize: Size, env: Env)
    returns (r: Result<(MediaSource.Source, MediaSource.Source, MediaSink.Sink), Error>)
    ensures match Setup(inputFile, backgroundFile, outputFile, env)
            case Failure(e) => r == Failure(e)
            case Success((inSt, bgSt, sinkType)) =>
              && r.Success?
              && fresh(r.value.0.Repr()) && fresh(r.value.1.Repr()) && fresh(r.value.2)
              && r.value.0.Repr() !! r.value.1.Repr()
              && r.value.2 !in r.value.0.Repr() && r.value.2 !in r.value.1.Repr()
              && r.value.0.State() == inSt && r.value.1.State() == bgSt
              && r.value.2.mediaType == sinkType && r.value.2.received == []
  {
    var sources := OpenSources(inputFile, backgroundFile, env);
    if sources.Failure? {
      return Failure(sources.error);
    }
    var (srcIn, srcBg) := sources.value;
    ghost var inSt, bgSt := srcIn.State(), srcBg.State();
    label BeforeWriter:
    var created := MediaFactory.CreateWriter(outputFile, frameSize, env);
    if created.Failure? {
      return Failure(created.error);
    }
    var sink := created.value;
    MediaSource.StateFramed@BeforeWriter(srcIn);
    MediaSource.StateFramed@BeforeWriter(srcBg);
    var check := CheckMediaTypes(srcIn.State().MediaType(), srcBg.State().MediaType(), sink.mediaType);
    if check.Fail? {
      return Failure(check.error);
    }
    return Success((srcIn, srcBg, sink));
  }

  /** A successful opening phase is made of successful steps whose media types fit together. */
  lemma SetupSound(inputFile: string, backgroundFile: string, outputFile: string, env: Env)
    ensures var r := Setup(inputFile, backgroundFile, outputFile, env);
            r.Success? ==>
              && MediaFactory.ReaderState(inputFile, false, env) == Success(r.value.0)
              && MediaFactory.ReaderState(backgroundFile, true, env) == Success(r.value.1)
              && MediaFactory.WriterType(outputFile, env) == Success(r.value.2)
              && Compatible(r.value.0.MediaType(), r.value.1.MediaType(), r.value.2)
  {
  }

  /** A freshly created input can deliver one picture, or every frame of its stream. */
  lemma InitialRemaining(inputFile: string, env: Env)
    ensures var r := MediaFactory.ReaderState(inputFile, false, env);
            r.Success? ==>
              MediaSource.Remaining(r.value) == if r.value.ImageState? then 1 else |OpenStream(env, inputFile).value|
  {
  }

  /** The observable result of keyOut: how it ends, the frames displayed, and the frames
      handed to a file writer. */
  datatype Report = Report(outcome: Outcome<Error>, shown: seq<Frame>, written: seq<Frame>)

  /** keyOut as a function of the keyer's state: the readers and the writer are created in
      order (the writer for the frame size left by the set-up phase), the media types are
      checked, and the frame loop runs. */
  function KeyOutSpec(inputFile: string, backgroundFile: string, outputFile: string,
                      color: Bgr8, params: Params, inputFrame: Frame, backgroundFrame: Frame,
                      env: Env, keys: seq<int>, kernels: Kernels, resample: Resampler): (rep: Report)
    ensures rep.written == rep.shown || rep.written == []
    ensures MediaFactory.WriterType(outputFile, env) == Success(SinkType.Dummy) ==> rep.written == []
    ensures MediaFactory.WriterType(outputFile, env).Success? && MediaFactory.WriterType(outputFile, env).value != SinkType.Dummy ==>
              rep.written == rep.shown
    ensures (MediaFactory.ReaderState(inputFile, false, env).Success? &&
             MediaFactory.ReaderState(inputFile, false, env).value.ImageState?) ==> |rep.shown| <= 1
    ensures (MediaFactory.ReaderState(inputFile, false, env).Success? &&
             MediaFactory.ReaderState(inputFile, false, env).value.VideoState?) ==>
              |rep.shown| <= |OpenStream(env, inputFile).value|
  {
    SetupSound(inputFile, backgroundFile, outputFile, env);
    InitialRemaining(inputFile, env);
    match Setup(inputFile, backgroundFile, outputFile, env)
    case Failure(e) => Report(Fail(e), [], [])
    case Success((inSt, bgSt, sinkType)) =>
      var cfg := Config(env, keys, kernels.toHsv(Normalize(color)), params, kernels, resample);
      var s := Run(Cursor(inSt, bgSt, inputFrame, backgroundFrame, 0, 0), cfg);
      Report(s.outcome, s.shown, if sinkType == SinkType.Dummy then [] else s.shown)
  }

  /** The row-major index of the pixel in row y and column x lies inside the frame. */
  lemma PixelIndexInBounds(size: Size, x: nat, y: nat)
    requires x < size.cols && y < size.rows
    ensures y * size.cols + x < size.Area()
  {
    assert y * size.cols + x < (y + 1) * size.cols;
    assert (y + 1) * size.cols <= size.rows * size.cols by {
      assert size.rows * size.cols == (y + 1) * size.cols + (size.rows - y - 1) * size.cols;
      NonNegativeProduct(size.rows - y - 1, size.cols);
    }
  }

  lemma NonNegativeProduct(a: nat, b: nat)
    ensures a * b >= 0
  {
  }

  class ChromaKeyer {
    const windowName: string
    var paramsSet: bool
    var tolerance: int
    var softness: int
    var defringe: int
    var color: Bgr8

    // The matrices kept between calls.
    var inputFrame: Frame
    var background: Frame
    var outputFrame: Frame
    var inputF: seq<BgrF>
    var backgroundF: seq<BgrF>
    var inputHsv: seq<Hsv>
    var maskB: seq<byte>
    var maskF: seq<real>
    var mask3F: seq<BgrF>

    /** A keyer with the default parameters and no colour chosen yet. */
    constructor (windowName: string)
      ensures this.windowName == windowName && !paramsSet
      ensures tolerance == 12 && softness == 2 && defringe == 40
      ensures inputFrame == EmptyFrame && background == EmptyFrame && outputFrame == EmptyFrame
    {
      this.windowName := windowName;
      paramsSet := false;
      tolerance := 12;
      softness := 2;
      defringe := 40;
      color := Bgr8(0, 0, 0);
      inputFrame := EmptyFrame;
      background := EmptyFrame;
      outputFrame := EmptyFrame;
      inputF := [];
      backgroundF := [];
      inputHsv := [];
      maskB := [];
      maskF := [];
      mask3F := [];
    }

    function Parameters(): Params
      reads this
    {
      Keying.Params(tolerance, softness, defringe)
    }

    /** The mouse callback: releasing the left button picks the key colour under the cursor
        from the frame on display and marks the parameters as set; other events change nothing. */
    method OnMouse(event: int, x: nat, y: nat)
      requires event == LeftButtonUp ==> inputFrame.Valid() && x < inputFrame.size.cols && y < inputFrame.size.rows
      modifies this
      ensures event == LeftButtonUp ==>
                && paramsSet
                && y * inputFrame.size.cols + x < |inputFrame.pixels|
                && color == inputFrame.pixels[y * inputFrame.size.cols + x]
      ensures event != LeftButtonUp ==> paramsSet == old(paramsSet) && color == old(color)
      ensures inputFrame == old(inputFrame) && Parameters() == old(Parameters())
    {
      if event == LeftButtonUp {
        PixelIndexInBounds(inputFrame.size, x, y);
        color := inputFrame.pixels[y * inputFrame.size.cols + x];
        paramsSet := true;
      }
    }

    /** keyOut: the input, the background and the output are opened and their media types
        checked; then every input frame is keyed over the next background frame, resized to
        the input's size, and handed to the sink, until the input is used up or Escape was
        pressed. The frames displayed and the frames written are returned with the outcome. */
    method KeyOut(inputFile: string, backgroundFile: string, outputFile: string, env: Env,
                  keys: seq<int>, kernels: Kernels, resample: Resampler)
      returns (r: Outcome<Error>, shown: seq<Frame>, written: seq<Frame>)
      requires paramsSet && Parameters().Valid()
      modifies this
      ensures Report(r, shown, written) ==
              KeyOutSpec(inputFile, backgroundFile, outputFile, old(color), old(Parameters()),
                         old(inputFrame), old(background), env, keys, kernels, resample)
      ensures Parameters() == old(Parameters()) && color == old(color) && paramsSet
    {
      shown, written := [], [];
      var setup := Open(inputFile, backgroundFile, outputFile, inputFrame.size, env);
      if setup.Failure? {
        return Fail(setup.error), shown, written;
      }
      var (srcIn, srcBg, sink) := setup.value;
      var keyHsv := kernels.toHsv(Normalize(color));
      r, shown := FrameLoop(srcIn, srcBg, sink, env, keys, keyHsv, kernels, resample);
      written := sink.received;
    }

    /** The frame loop of keyOut, from the state the opened sources and the keyer are in. */
    method FrameLoop(srcIn: MediaSource.Source, srcBg: MediaSource.Source, sink: MediaSink.Sink, env: Env,
                     keys: seq<int>, keyHsv: Hsv, kernels: Kernels, resample: Resampler)
      returns (r: Outcome<Error>, shown: seq<Frame>)
      requires srcIn.Repr() !! srcBg.Repr() && this !in srcIn.Repr() && this !in srcBg.Repr()
      requires sink !in srcIn.Repr() && sink !in srcBg.Repr()
      requires !srcIn.State().looped && Parameters().Valid() && sink.received == []
      modifies this, srcIn.Repr(), srcBg.Repr(), sink
      ensures Session(r, shown) ==
              Run(Cursor(old(srcIn.State()), old(srcBg.State()), old(inputFrame), old(background), 0, 0),
                  Config(env, keys, keyHsv, old(Parameters()), kernels, resample))
      ensures sink.received == if sink.mediaType == SinkType.Dummy then [] else shown
      ensures Parameters() == old(Parameters()) && color == old(color) && paramsSet == old(paramsSet)
    {
      ghost var cfg := Config(env, keys, keyHsv, Parameters(), kernels, resample);
      ghost var start := Cursor(srcIn.State(), srcBg.State(), inputFrame, background, 0, 0);
      shown := [];
      var key := 0;
      var count := 0;
      while true
        invariant !srcIn.State().looped
        invariant Parameters() == cfg.params && color == old(color) && paramsSet == old(paramsSet)
        invariant sink.received == if sink.mediaType == SinkType.Dummy then [] else shown
        invariant var now := Run(Cursor(srcIn.State(), srcBg.State(), inputFrame, background, key, count), cfg);
                  Run(start, cfg) == Session(now.outcome, shown + now.shown)
        decreases MediaSource.Remaining(srcIn.State())
      {
        ghost var before := Cursor(srcIn.State(), srcBg.State(), inputFrame, background, key, count);
        var round := Round(srcIn, srcBg, sink, env, key, keyHsv, kernels, resample, keys, count);
        if round.Failure? {
          return Fail(round.error), shown;
        }
        if round.value.None? {
          assert shown + [] == shown;
          break;
        }
        var frame := round.value.value;
        ghost var next := Step(before, cfg).next;
        RunEmits(before, cfg);
        ghost var rest := Run(next, cfg);
        AppendAssociative(shown, [frame], rest.shown);
        shown := shown + [frame];
        key := KeyAt(keys, count);
        count := count + 1;
        assert Cursor(srcIn.State(), srcBg.State(), inputFrame, background, key, count) == next;
      }
      r := Pass;
    }

    /** One pass of the loop: read the input and test the previous key; unless the loop ends
        there, read the background, resize it to the input's size, key out and write. The
        keyed frame is returned, or None when the loop ends. */
    method Round(srcIn: MediaSource.Source, srcBg: MediaSource.Source, sink: MediaSink.Sink, env: Env,
                 key: int, keyHsv: Hsv, kernels: Kernels, resample: Resampler, ghost keys: seq<int>, ghost count: nat)
      returns (r: Result<Option<Frame>, Error>)
      requires srcIn.Repr() !! srcBg.Repr() && this !in srcIn.Repr() && this !in srcBg.Repr()
      requires sink !in srcIn.Repr() && sink !in srcBg.Repr()
      requires !srcIn.State().looped && Parameters().Valid()
      modifies this, srcIn.Repr(), srcBg.Repr(), sink
      ensures Parameters() == old(Parameters()) && color == old(color) && paramsSet == old(paramsSet)
      ensures match Step(Cursor(old(srcIn.State()), old(srcBg.State()), old(inputFrame), old(background), key, count),
                         Config(env, keys, keyHsv, Parameters(), kernels, resample))
              case Stop(Fail(e)) => r == Failure(e) && sink.received == old(sink.received)
              case Stop(Pass) => r == Success(None) && sink.received == old(sink.received)
              case Emit(out, next) =>
                && r == Success(Some(out))
                && srcIn.State() == next.input && srcBg.State() == next.background
                && inputFrame == next.inputFrame && background == next.backgroundFrame
                && sink.received == old(sink.received) + (if sink.mediaType == SinkType.Dummy then [] else [out])
    {
      ghost var c := Cursor(srcIn.State(), srcBg.State(), inputFrame, background, key, count);
      ghost var cfg := Config(env, keys, keyHsv, Parameters(), kernels, resample);
      var goOn := ReadInput(srcIn, env, key);
      if goOn.Failure? {
        StepFails(c, cfg);
        return Failure(goOn.error);
      }
      if !goOn.value {
        StepEnds(c, cfg);
        return Success(None);
      }
      ghost var input', fetch := srcIn.State(), MediaSource.Step(c.input, env, c.inputFrame).value.1;
      label ReadIn:
      var out := KeyBackground(srcBg, sink, env, keyHsv, kernels, resample);
      if out.Failure? {
        StepBackgroundFails(c, cfg);
        return Failure(out.error);
      }
      MediaSource.StateFramed@ReadIn(srcIn);
      ghost var bgStep := MediaSource.Step(c.background, env, c.backgroundFrame).value;
      StepEmits(c, cfg, input', fetch, bgStep.0, bgStep.1);
      r := Success(Some(out.value));
    }

    /** The input half of a pass: read the input into inputFrameBGR and test the previous key.
        True when the loop goes on. */
    method ReadInput(srcIn: MediaSource.Source, env: Env, key: int) returns (r: Result<bool, Error>)
      requires this !in srcIn.Repr()
      modifies this, srcIn.Repr()
      ensures background == old(background)
      ensures Parameters() == old(Parameters()) && color == old(color) && paramsSet == old(paramsSet)
      ensures match MediaSource.Step(old(srcIn.State()), env, old(inputFrame))
              case Failure(e) => r == Failure(e)
              case Success((input', fetch)) =>
                && r == Success(fetch.ok && LowByte(key) != Escape)
                && srcIn.State() == input' && inputFrame == fetch.frame
    {
      var got := MediaSource.ReadNext(srcIn, env, inputFrame);
      if got.Failure? {
        return Failure(got.error);
      }
      inputFrame := got.value.frame;
      return Success(got.value.ok && LowByte(key) != Escape);
    }

    /** The background half of a pass: read the background, resize it to the input's size,
        key out and hand the result to the sink. */
    method KeyBackground(srcBg: MediaSource.Source, sink: MediaSink.Sink, env: Env,
                         keyHsv: Hsv, kernels: Kernels, resample: Resampler) returns (r: Result<Frame, Error>)
      requires this !in srcBg.Repr() && sink !in srcBg.Repr()
      requires Parameters().Valid() && inputFrame.Valid()
      modifies this, srcBg.Repr(), sink
      ensures inputFrame == old(inputFrame)
      ensures Parameters() == old(Parameters()) && color == old(color) && paramsSet == old(paramsSet)
      ensures match MediaSource.Step(old(srcBg.State()), env, old(background))
              case Failure(e) => r == Failure(e) && sink.received == old(sink.received)
              case Success((background', bgFetch)) =>
                var bg := Resize(bgFetch.frame, inputFrame.size, ChooseInterpolation(bgFetch.frame.size, inputFrame.size), resample);
                var out := KeyedFrame(inputFrame, bg, keyHsv, Parameters(), kernels);
                && r == Success(out)
                && srcBg.State() == background' && background == bg
                && sink.received == old(sink.received) + (if sink.mediaType == SinkType.Dummy then [] else [out])
    {
      var got := MediaSource.ReadNext(srcBg, env, background);
      if got.Failure? {
        return Failure(got.error);
      }
      background := Resize(got.value.frame, inputFrame.size, ChooseInterpolation(got.value.frame.size, inputFrame.size), resample);
      label Resized:
      var res := KeyOutFrame(keyHsv, kernels);
      assert res.Success?;
      sink.Write(res.value);
      MediaSource.StateFramed@Resized(srcBg);
      r := Success(res.value);
    }

    /** keyOutFrame: the input and the background frames are composited through the key mask
        into outputFrame, which is returned; frames of different sizes raise. */
    method KeyOutFrame(keyHsv: Hsv, kernels: Kernels) returns (r: Result<Frame, Error>)
      requires Parameters().Valid()
      requires inputFrame.Valid() && background.Valid()
      modifies this
      ensures inputFrame == old(inputFrame) && background == old(background)
      ensures Parameters() == old(Parameters()) && color == old(color) && paramsSet == old(paramsSet)
      ensures inputFrame.size != background.size ==>
                r == Failure(AssertionFailed("this->inputFrameBGR.size() == this->backgroundBGR.size()"))
      ensures inputFrame.size == background.size ==>
                && r == Success(outputFrame)
                && outputFrame == KeyedFrame(inputFrame, background, keyHsv, Parameters(), kernels)
    {
      if inputFrame.size != background.size {
        return Failure(AssertionFailed("this->inputFrameBGR.size() == this->backgroundBGR.size()"));
      }
      PrepareMask(keyHsv, kernels);

      // background times mask, plus foreground times the inverted mask
      ghost var mask, fore, back := maskF, inputF, backgroundF;
      mask3F := Matrices.Merge3(maskF);
      backgroundF := Matrices.Multiply(backgroundF, mask3F);
      mask3F := Matrices.Invert(mask3F);
      inputF := Matrices.Multiply(inputF, mask3F);
      inputF := Matrices.Add(inputF, backgroundF);
      outputFrame := Matrices.ToBytes(inputFrame.size, inputF);
      CompositeStage(inputFrame, background, mask, fore, back);
      r := Success(outputFrame);
    }

    /** The first half of keyOutFrame: the float buffers, the HSV input and the mask after
        the optional softening. */
    method PrepareMask(keyHsv: Hsv, kernels: Kernels)
      requires inputFrame.Valid() && background.Valid() && inputFrame.size == background.size
      modifies this
      ensures inputFrame == old(inputFrame) && background == old(background)
      ensures Parameters() == old(Parameters()) && color == old(color) && paramsSet == old(paramsSet)
      ensures inputF == Matrices.ToFloat(inputFrame) && backgroundF == Matrices.ToFloat(background)
      ensures inputHsv == HsvOf(inputFrame, kernels.toHsv)
      ensures maskF == FrameMask(inputFrame, keyHsv.h, Parameters(), kernels)
    {
      // values from 0..255 to 0..1, and the input in HSV
      inputF := Matrices.ToFloat(inputFrame);
      backgroundF := Matrices.ToFloat(background);
      inputHsv := Matrices.ToHsv(inputF, kernels.toHsv);
      HsvStage(inputFrame, kernels.toHsv);

      // the primary band, then the band for hues wrapping around the circle
      HueMask(keyHsv.h);
      ghost var binary := maskF;

      // softening
      Soften(kernels);
      assert maskF == SoftenedMask(binary, inputFrame.size, softness, kernels.dilate, kernels.blur);
    }

    /** The key mask of keyOutFrame before softening: inRange on the primary hue band, or-ed
        with the wrapped band when there is one, scaled to 0..1. */
    method HueMask(keyHue: real)
      modifies this
      ensures inputFrame == old(inputFrame) && background == old(background)
      ensures Parameters() == old(Parameters()) && color == old(color) && paramsSet == old(paramsSet)
      ensures inputF == old(inputF) && backgroundF == old(backgroundF) && inputHsv == old(inputHsv)
      ensures maskF == BinaryMask(inputHsv, keyHue, tolerance, defringe)
    {
      var lower := LowerBound(keyHue, tolerance, defringe);
      var upper := UpperBound(keyHue, tolerance);
      maskB := Matrices.InRange(inputHsv, lower, upper);
      if lower.h < 0.0 && upper.h < HueRange {
        lower := lower.(h := lower.h + HueRange);
        upper := upper.(h := HueRange);
        assert WrapBand(keyHue, tolerance, defringe) == Some((lower, upper));
        var orMask := Matrices.InRange(inputHsv, lower, upper);
        maskB := Matrices.BitwiseOr(maskB, orMask);
        WrappedMaskStage(inputHsv, keyHue, tolerance, defringe);
      } else if lower.h > 0.0 && upper.h > HueRange {
        lower := lower.(h := 0.0);
        upper := upper.(h := upper.h - HueRange);
        assert WrapBand(keyHue, tolerance, defringe) == Some((lower, upper));
        var orMask := Matrices.InRange(inputHsv, lower, upper);
        maskB := Matrices.BitwiseOr(maskB, orMask);
        WrappedMaskStage(inputHsv, keyHue, tolerance, defringe);
      } else {
        assert WrapBand(keyHue, tolerance, defringe).None?;
        PrimaryMaskStage(inputHsv, keyHue, tolerance, defringe);
      }
      maskF := Matrices.ToUnit(maskB);
    }

    /** The softening of keyOutFrame: a dilation and then a Gaussian blur of the mask, both
        with a square kernel of side 2·softness + 1, when softness is positive. */
    method Soften(kernels: Kernels)
      modifies this
      ensures inputFrame == old(inputFrame) && background == old(background)
      ensures Parameters() == old(Parameters()) && color == old(color) && paramsSet == old(paramsSet)
      ensures inputF == old(inputF) && backgroundF == old(backgroundF) && inputHsv == old(inputHsv)
      ensures maskF == SoftenedMask(old(maskF), inputFrame.size, softness, kernels.dilate, kernels.blur)
    {
      if softness > 0 {
        var ksize := KernelSide(softness);
        maskF := ApplyFilter(maskF, inputFrame.size, ksize, kernels.dilate);
        maskF := ApplyFilter(maskF, inputFrame.size, ksize, kernels.blur);
      }
    }
  }

  /** The buffers converted to float and then to HSV hold the frame's HSV pixels. */
  lemma HsvStage(f: Frame, toHsv: BgrF -> Hsv)
    ensures Matrices.ToHsv(Matrices.ToFloat(f), toHsv) == HsvOf(f, toHsv)
  {
  }

  /** Without a wrap band, the scaled inRange mask is the binary key mask. */
  lemma PrimaryMaskStage(hsv: seq<Hsv>, keyHue: real, tolerance: int, defringe: int)
    requires WrapBand(keyHue, tolerance, defringe).None?
    ensures Matrices.ToUnit(Matrices.InRange(hsv, LowerBound(keyHue, tolerance, defringe), UpperBound(keyHue, tolerance)))
            == BinaryMask(hsv, keyHue, tolerance, defringe)
  {
  }

  /** With a wrap band, the scaled or of both inRange masks is the binary key mask. */
  lemma WrappedMaskStage(hsv: seq<Hsv>, keyHue: real, tolerance: int, defringe: int)
    requires WrapBand(keyHue, tolerance, defringe).Some?
    ensures var band := WrapBand(keyHue, tolerance, defringe).value;
            var primary := Matrices.InRange(hsv, LowerBound(keyHue, tolerance, defringe), UpperBound(keyHue, tolerance));
            Matrices.ToUnit(Matrices.BitwiseOr(primary, Matrices.InRange(hsv, band.0, band.1)))
            == BinaryMask(hsv, keyHue, tolerance, defringe)
  {
    var band := WrapBand(keyHue, tolerance, defringe).value;
    var primary := Matrices.InRange(hsv, LowerBound(keyHue, tolerance, defringe), UpperBound(keyHue, tolerance));
    var wrapped := Matrices.InRange(hsv, band.0, band.1);
    forall i | 0 <= i < |hsv|
      ensures Matrices.BitwiseOr(primary, wrapped)[i] == if Matches(hsv[i], keyHue, tolerance, defringe) then 255 else 0
    {
      Matrices.OrOfMaskValues(primary[i], wrapped[i]);
    }
  }

  /** The multiply, invert and add steps on the float buffers, scaled back to bytes, give the
      composite of the two frames. */
  lemma CompositeStage(fg: Frame, bg: Frame, mask: seq<real>, fore: seq<BgrF>, back: seq<BgrF>)
    requires fg.Valid() && bg.Valid() && bg.size == fg.size && |mask| == |fg.pixels|
    requires fore == Matrices.ToFloat(fg) && back == Matrices.ToFloat(bg)
    ensures var m3 := Matrices.Merge3(mask);
            var fgPart := Matrices.Multiply(fore, Matrices.Invert(m3));
            var bgPart := Matrices.Multiply(back, m3);
            Matrices.ToBytes(fg.size, Matrices.Add(fgPart, bgPart)) == Composite(fg, bg, mask)
  {
    var m3 := Matrices.Merge3(mask);
    var sum := Matrices.Add(Matrices.Multiply(fore, Matrices.Invert(m3)), Matrices.Multiply(back, m3));
    forall i | 0 <= i < |sum|
      ensures sum[i] == BlendPixel(Normalize(fg.pixels[i]), Normalize(bg.pixels[i]), mask[i])
    {
      CompositePixel(fg, bg, mask, fore, back, i);
    }
    assert Matrices.ToBytes(fg.size, sum).pixels == Composite(fg, bg, mask).pixels;
  }

  /** One pixel of the composite: the two weighted buffers add up to the blend. */
  lemma CompositePixel(fg: Frame, bg: Frame, mask: seq<real>, fore: seq<BgrF>, back: seq<BgrF>, i: nat)
    requires fg.Valid() && bg.Valid() && bg.size == fg.size && |mask| == |fg.pixels| && i < |fg.pixels|
    requires fore == Matrices.ToFloat(fg) && back == Matrices.ToFloat(bg)
    ensures var m3 := Matrices.Merge3(mask);
            var sum := Matrices.Add(Matrices.Multiply(fore, Matrices.Invert(m3)), Matrices.Multiply(back, m3));
            sum[i] == BlendPixel(Normalize(fg.pixels[i]), Normalize(bg.pixels[i]), mask[i])
  {
    var m3 := Matrices.Merge3(mask);
    var inv := Matrices.Invert(m3);
    var fgPart := Matrices.Multiply(fore, inv);
    var bgPart := Matrices.Multiply(back, m3);
    var f, b, m := fore[i], back[i], mask[i];
    assert f == Normalize(fg.pixels[i]) && b == Normalize(bg.pixels[i]);
    assert m3[i] == BgrF(m, m, m);
    assert inv[i] == BgrF(1.0 - m, 1.0 - m, 1.0 - m);
    assert fgPart[i] == BgrF(f.b * (1.0 - m), f.g * (1.0 - m), f.r * (1.0 - m));
    assert bgPart[i] == BgrF(b.b * m, b.g * m, b.r * m);
    assert Matrices.Add(fgPart, bgPart)[i] == BgrF(f.b * (1.0 - m) + b.b * m, f.g * (1.0 - m) + b.g * m, f.r * (1.0 - m) + b.r * m);
    SumIsBlend(f, b, m);
  }

  lemma SumIsBlend(f: BgrF, b: BgrF, m: real)
    ensures BgrF(f.b * (1.0 - m) + b.b * m, f.g * (1.0 - m) + b.g * m, f.r * (1.0 - m) + b.r * m) == BlendPixel(f, b, m)
  {
  }
}
