/**
 * MediaSource: the closed set of media sources (an image file or a video file)
 * behind one readNext/reset interface, with the abstract state the frame loop
 * reasons about.
 */
module MediaSource {
  import opened Wrappers
  import opened Frames
  import opened Storage
  import opened MediaTypes
  import ImageReader
  import VideoReader

  /** The observable state of a source: its path, its loop flag and its cache or capture. */
  datatype SourceState =
    | ImageState(path: string, looped: bool, cache: Option<Image>)
    | VideoState(path: string, looped: bool, cap: VideoReader.Capture)
  {
    function MediaType(): SourceType
    {
      if ImageState? then SourceType.ImageFile else SourceType.VideoFile
    }
  }

  /** readNext on the state: the new state and what the caller gets back, or the error raised. */
  function Step(st: SourceState, env: Env, frame: Frame): (r: Result<(SourceState, Fetch), Error>)
    ensures r.Success? ==> r.value.0.path == st.path && r.value.0.looped == st.looped
    ensures r.Success? ==> r.value.0.MediaType() == st.MediaType()
  {
    match st
    case ImageState(path, looped, cache) =>
      (match ImageReader.Next(cache, looped, Imread(env, path), frame)
       case Failure(e) => Failure(e)
       case Success((cache', fetch)) => Success((ImageState(path, looped, cache'), fetch)))
    case VideoState(path, looped, cap) =>
      (match VideoReader.Next(cap, looped, path, env)
       case Failure(e) => Failure(e)
       case Success((cap', fetch)) => Success((VideoState(path, looped, cap'), fetch)))
  }

  /** How many more successful reads a non-looped source can deliver. */
  function Remaining(st: SourceState): nat
  {
    match st
    case ImageState(_, _, cache) => if cache.None? then 1 else 0
    case VideoState(_, _, cap) =>
      if cap.Opened? && cap.pos < |cap.frames| then |cap.frames| - cap.pos else 0
  }

  /** Every successful read of a non-looped source uses up one of its remaining frames. */
  lemma NonLoopedProgress(st: SourceState, env: Env, frame: Frame)
    requires !st.looped
    requires Step(st, env, frame).Success? && Step(st, env, frame).value.1.ok
    ensures Remaining(Step(st, env, frame).value.0) < Remaining(st)
  {
  }

  /** A looped source never reports exhaustion: a read either raises or delivers a decoded frame. */
  lemma LoopedDelivers(st: SourceState, env: Env, frame: Frame)
    requires st.looped && Step(st, env, frame).Success?
    ensures Step(st, env, frame).value.1.ok
    ensures Step(st, env, frame).value.1.frame.Valid() && !Step(st, env, frame).value.1.frame.IsEmpty()
  {
  }

  /** A non-looped source reports exhaustion exactly when nothing remains. */
  lemma NonLoopedExhaustion(st: SourceState, env: Env, frame: Frame)
    requires !st.looped && Step(st, env, frame).Success?
    ensures !Step(st, env, frame).value.1.ok <==> Remaining(st) == 0
  {
  }

  /** A read that reports success hands back a decoded, well-formed, non-empty frame. */
  lemma DeliveredIsImage(st: SourceState, env: Env, frame: Frame)
    requires Step(st, env, frame).Success? && Step(st, env, frame).value.1.ok
    ensures Step(st, env, frame).value.1.frame.Valid() && !Step(st, env, frame).value.1.frame.IsEmpty()
  {
  }

  /** A looped source that can serve forever: an image that is cached or decodes, or a
      capture on the file's non-empty stream. */
  predicate Replayable(st: SourceState, env: Env)
  {
    && st.looped
    && match st
       case ImageState(path, _, cache) => cache.Some? || Imread(env, path).Some?
       case VideoState(path, _, cap) =>
         && OpenStream(env, path).Some? && |OpenStream(env, path).value| > 0
         && cap.Opened? && cap.frames == OpenStream(env, path).value && cap.pos <= |cap.frames|
  }

  /** The frame the k-th read from now delivers: the one picture of an image, or the video's
      frames in order from the cursor, starting over after the last one. */
  function LoopedFrameAt(st: SourceState, env: Env, k: nat): Image
    requires Replayable(st, env)
  {
    match st
    case ImageState(path, _, cache) => if cache.Some? then cache.value else Imread(env, path).value
    case VideoState(_, _, cap) => cap.frames[(cap.pos + k) % |cap.frames|]
  }

  /** One read of a replayable source succeeds with its next frame, whatever frame it is
      handed, and leaves a replayable source whose frames are the remaining ones. */
  lemma ReplayableStep(st: SourceState, env: Env, frame: Frame)
    requires Replayable(st, env)
    ensures Step(st, env, frame).Success?
    ensures Step(st, env, frame).value.1 == Fetch(true, LoopedFrameAt(st, env, 0))
    ensures Replayable(Step(st, env, frame).value.0, env)
    ensures forall k: nat :: LoopedFrameAt(Step(st, env, frame).value.0, env, k) == LoopedFrameAt(st, env, k + 1)
  {
    if st.VideoState? {
      VideoReplayableStep(st, env, frame);
    }
  }

  lemma VideoReplayableStep(st: SourceState, env: Env, frame: Frame)
    requires Replayable(st, env) && st.VideoState?
    ensures Step(st, env, frame).Success?
    ensures Step(st, env, frame).value.1 == Fetch(true, LoopedFrameAt(st, env, 0))
    ensures Replayable(Step(st, env, frame).value.0, env)
    ensures forall k: nat :: LoopedFrameAt(Step(st, env, frame).value.0, env, k) == LoopedFrameAt(st, env, k + 1)
  {
    var frames := st.cap.frames;
    var pos := st.cap.pos;
    if pos < |frames| {
      VideoStepWithin(st, env, frame);
      VideoReader.ModUnique(pos, |frames|, 0, pos);
    } else {
      VideoStepWrapping(st, env, frame);
      VideoReader.ModShift(0, |frames|);
      var next := Step(st, env, frame).value.0;
      forall k: nat ensures LoopedFrameAt(next, env, k) == LoopedFrameAt(st, env, k + 1) {
        VideoReader.ModShift(k + 1, |frames|);
      }
    }
  }

  lemma VideoStepWithin(st: SourceState, env: Env, frame: Frame)
    requires Replayable(st, env) && st.VideoState? && st.cap.pos < |st.cap.frames|
    ensures Step(st, env, frame) == Success((VideoState(st.path, true, VideoReader.Opened(st.cap.frames, st.cap.pos + 1)), Fetch(true, st.cap.frames[st.cap.pos])))
  {
  }

  lemma VideoStepWrapping(st: SourceState, env: Env, frame: Frame)
    requires Replayable(st, env) && st.VideoState? && st.cap.pos == |st.cap.frames|
    ensures Step(st, env, frame) == Success((VideoState(st.path, true, VideoReader.Opened(st.cap.frames, 1)), Fetch(true, st.cap.frames[0])))
  {
  }

  /** One source object of either kind. */
  datatype Source = ImageSource(image: ImageReader.ImageFileReader) | VideoSource(video: VideoReader.VideoFileReader)
  {
    function Repr(): set<object>
    {
      if ImageSource? then {image} else {video}
    }

    function State(): SourceState
      reads Repr()
    {
      match this
      case ImageSource(r) => ImageState(r.path, r.looped, r.cache)
      case VideoSource(r) => VideoState(r.path, r.looped, r.cap)
    }
  }

  /** A source whose reader object was left alone is in the state it was in. */
  twostate lemma StateFramed(src: Source)
    requires src.ImageSource? ==> unchanged(src.image)
    requires src.VideoSource? ==> unchanged(src.video)
    ensures src.State() == old(src.State())
  {
  }

  method ReadNext(src: Source, env: Env, frame: Frame) returns (r: Result<Fetch, Error>)
    modifies src.Repr()
    ensures match Step(old(src.State()), env, frame)
            case Success((st, fetch)) => r == Success(fetch) && src.State() == st
            case Failure(e) =>
              && r == Failure(e)
              && src.State() == match old(src.State())
                                case ImageState(_, _, _) => old(src.State())
                                case VideoState(path, looped, _) =>
                                  VideoState(path, looped, VideoReader.ReadFrame(VideoReader.OpenCapture(env, path)).0)
  {
    match src
    case ImageSource(reader) => r := reader.ReadNext(env, frame);
    case VideoSource(reader) => r := reader.ReadNext(env);
  }

  /** The state reset gives: an emptied cache, or a capture reopened on the file. */
  function ResetState(st: SourceState, env: Env): SourceState
  {
    match st
    case ImageState(path, looped, _) => ImageState(path, looped, None)
    case VideoState(path, looped, _) => VideoState(path, looped, VideoReader.OpenCapture(env, path))
  }

  method Reset(src: Source, env: Env) returns (r: Outcome<Error>)
    modifies src.Repr()
    ensures src.State() == ResetState(old(src.State()), env)
    ensures r.Fail? <==> src.State().VideoState? && src.State().cap.Closed?
  {
    match src
    case ImageSource(reader) =>
      reader.Reset();
      r := Pass;
    case VideoSource(reader) =>
      r := reader.Reset(env);
  }

  /** After a reset the next read starts again from the first frame of the file. */
  lemma ResetRewinds(st: SourceState, env: Env, frame: Frame, first: Image)
    requires st.ImageState? ==> Imread(env, st.path) == Some(first)
    requires st.VideoState? ==> OpenStream(env, st.path).Some? && |OpenStream(env, st.path).value| > 0
                                && OpenStream(env, st.path).value[0] == first
    ensures Step(ResetState(st, env), env, frame).Success?
    ensures Step(ResetState(st, env), env, frame).value.1 == Fetch(true, first)
  {
  }
}
