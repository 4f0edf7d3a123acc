/**
 * VideoFileReader: a video file served as a media source through a capture
 * cursor. A looped source that runs out of frames closes the capture, opens the
 * file again and returns its first frame; a non-looped one reports exhaustion.
 */
module VideoReader {
  import opened Wrappers
  import opened Frames
  import opened Storage
  import opened MediaTypes

  /** The state of a cv::VideoCapture: closed, or open on a stream with a read cursor. */
  datatype Capture = Closed | Opened(frames: seq<Image>, pos: nat)

  /** VideoCapture::open(path): the stream positioned at its first frame, or closed when it cannot be opened. */
  function OpenCapture(env: Env, path: string): (cap: Capture)
    ensures cap.Opened? <==> OpenStream(env, path).Some?
    ensures cap.Opened? ==> cap.frames == OpenStream(env, path).value && cap.pos == 0
  {
    match OpenStream(env, path)
    case None => Closed
    case Some(frames) => Opened(frames, 0)
  }

  /** VideoCapture::read: the frame under the cursor and the advanced cursor, or false and an
      emptied frame when the capture is closed or at the end of the stream. */
  function ReadFrame(cap: Capture): (res: (Capture, Fetch))
    ensures res.1.ok <==> cap.Opened? && cap.pos < |cap.frames|
    ensures res.1.ok ==> && res.0.Opened? && res.0.frames == cap.frames && res.0.pos == cap.pos + 1
                         && res.1.frame == cap.frames[cap.pos]
    ensures !res.1.ok ==> res.0 == cap && res.1.frame == EmptyFrame
  {
    if cap.Opened? && cap.pos < |cap.frames| then
      (Opened(cap.frames, cap.pos + 1), Fetch(true, cap.frames[cap.pos]))
    else
      (cap, Fetch(false, EmptyFrame))
  }

  const ReadFailed: Error := RuntimeError("Failed to read the input file.")

  /** The checks of the constructor: the file exists and the capture opened on it. */
  function Construct(videoFile: string, env: Env): (r: Result<Capture, Error>)
    ensures r.Success? <==> Exists(env, videoFile) && OpenStream(env, videoFile).Some?
    ensures r.Success? ==> r.value == Opened(OpenStream(env, videoFile).value, 0)
    ensures !Exists(env, videoFile) ==> r == Failure(RuntimeError("Input video doesn't exist: " + videoFile))
  {
    if !Exists(env, videoFile) then Failure(RuntimeError("Input video doesn't exist: " + videoFile))
    else
      var cap := OpenCapture(env, videoFile);
      if cap.Closed? then Failure(AssertionFailed("cap.isOpened()")) else Success(cap)
  }

  /** One readNext: the new capture and what the caller gets back, or the error raised. */
  function Next(cap: Capture, looped: bool, path: string, env: Env): (r: Result<(Capture, Fetch), Error>)
    ensures !looped ==> r == Success(ReadFrame(cap))
    ensures r.Failure? <==> looped && !ReadFrame(cap).1.ok && !ReadFrame(OpenCapture(env, path)).1.ok
    ensures r.Failure? ==> r.error == ReadFailed
    ensures looped && r.Success? ==> r.value.1.ok
    ensures r.Success? && r.value.1.ok ==> r.value.1.frame.Valid() && !r.value.1.frame.IsEmpty()
  {
    var (cap1, fetch1) := ReadFrame(cap);
    if fetch1.ok then Success((cap1, fetch1))
    else if looped then
      var reopened := OpenCapture(env, path);
      var (cap2, fetch2) := ReadFrame(reopened);
      if reopened.Closed? || !fetch2.ok then Failure(ReadFailed) else Success((cap2, fetch2))
    else Success((cap1, fetch1))
  }

  /** `n` successive reads. */
  function Reads(cap: Capture, looped: bool, path: string, env: Env, n: nat): Result<(Capture, seq<Fetch>), Error>
    decreases n
  {
    if n == 0 then Success((cap, []))
    else match Next(cap, looped, path, env)
      case Failure(e) => Failure(e)
      case Success((cap', fetch)) =>
        match Reads(cap', looped, path, env, n - 1)
        case Failure(e) => Failure(e)
        case Success((last, fetches)) => Success((last, [fetch] + fetches))
  }

  class VideoFileReader {
    const path: string
    const looped: bool
    var cap: Capture

    function MediaType(): SourceType { SourceType.VideoFile }

    /** The member initialisation of the constructor (the capture opens the file);
        its checks are made by Open. */
    constructor (videoFile: string, looped: bool, env: Env)
      ensures path == videoFile && this.looped == looped && cap == OpenCapture(env, videoFile)
    {
      path := videoFile;
      this.looped := looped;
      cap := OpenCapture(env, videoFile);
    }

    method ReadNext(env: Env) returns (r: Result<Fetch, Error>)
      modifies this
      ensures match Next(old(cap), looped, path, env)
              case Success((cap', fetch)) => r == Success(fetch) && cap == cap'
              case Failure(e) => r == Failure(e) && cap == ReadFrame(OpenCapture(env, path)).0
    {
      var step := ReadFrame(cap);
      cap := step.0;
      if step.1.ok {
        return Success(step.1);
      }
      if looped {
        cap := Closed;                      // release
        cap := OpenCapture(env, path);
        var isOpen := cap.Opened?;
        step := ReadFrame(cap);
        cap := step.0;
        if !isOpen || !step.1.ok {
          return Failure(ReadFailed);
        }
        return Success(step.1);
      }
      return Success(step.1);
    }

    /** Rewinds to the first frame by reopening the file; raises when it cannot be reopened. */
    method Reset(env: Env) returns (r: Outcome<Error>)
      modifies this
      ensures cap == OpenCapture(env, path)
      ensures r == if cap.Closed? then Fail(AssertionFailed("cap.open(getMediaPath())")) else Pass
    {
      cap := Closed;
      cap := OpenCapture(env, path);
      if cap.Closed? {
        return Fail(AssertionFailed("cap.open(getMediaPath())"));
      }
      return Pass;
    }
  }

  /** The constructor with its checks: a missing file or a capture that fails to open raises. */
  method Open(videoFile: string, looped: bool, env: Env) returns (r: Result<VideoFileReader, Error>)
    ensures match Construct(videoFile, env)
            case Failure(e) => r == Failure(e)
            case Success(cap) =>
              && r.Success? && fresh(r.value)
              && r.value.path == videoFile && r.value.looped == looped && r.value.cap == cap
  {
    if !Exists(env, videoFile) {
      return Failure(RuntimeError("Input video doesn't exist: " + videoFile));
    }
    var reader := new VideoFileReader(videoFile, looped, env);
    if reader.cap.Closed? {
      return Failure(AssertionFailed("cap.isOpened()"));
    }
    return Success(reader);
  }

  /** A non-looped source positioned at `pos` returns true exactly for the frames left,
      in order, and false afterwards, never rewinding. */
  lemma {:induction false} NonLoopedReads(frames: seq<Image>, pos: nat, path: string, env: Env, n: nat)
    requires pos <= |frames|
    ensures var r := Reads(Opened(frames, pos), false, path, env, n);
            && r.Success? && |r.value.1| == n
            && r.value.0 == Opened(frames, if pos + n <= |frames| then pos + n else |frames|)
            && (forall k :: 0 <= k < n ==> (r.value.1[k].ok <==> pos + k < |frames|))
            && (forall k :: 0 <= k < n && pos + k < |frames| ==> r.value.1[k].frame == frames[pos + k])
    decreases n
  {
    if n > 0 {
      var next := if pos < |frames| then pos + 1 else pos;
      NonLoopedReads(frames, next, path, env, n - 1);
      var rest := Reads(Opened(frames, next), false, path, env, n - 1);
      var r := Reads(Opened(frames, pos), false, path, env, n);
      assert r.value.1 == [ReadFrame(Opened(frames, pos)).1] + rest.value.1;
      forall k | 0 <= k < n
        ensures (r.value.1[k].ok <==> pos + k < |frames|)
        ensures pos + k < |frames| ==> r.value.1[k].frame == frames[pos + k]
      {
        if k > 0 {
          assert r.value.1[k] == rest.value.1[k - 1];
        }
      }
    }
  }

  /** A non-looped video of F frames returns true exactly F times, then false. */
  lemma NonLoopedCount(frames: seq<Image>, path: string, env: Env, n: nat)
    ensures var r := Reads(Opened(frames, 0), false, path, env, n);
            && r.Success? && |r.value.1| == n
            && (forall k :: 0 <= k < n ==> (r.value.1[k].ok <==> k < |frames|))
            && (forall k :: 0 <= k < n && k < |frames| ==> r.value.1[k].frame == frames[k])
  {
    NonLoopedReads(frames, 0, path, env, n);
  }

  lemma MulAtLeast(d: int, m: int)
    requires d >= 1 && m > 0
    ensures d * m >= m
  {
    assert d * m == (d - 1) * m + m;
    assert (d - 1) * m >= 0;
  }

  lemma ModUnique(x: int, m: int, q: int, r: int)
    requires m > 0 && 0 <= r < m && x == q * m + r
    ensures x % m == r
  {
    var q', r' := x / m, x % m;
    assert x == q' * m + r';
    assert q * m - q' * m == r' - r;
    assert (q - q') * m == q * m - q' * m;
    if q > q' {
      MulAtLeast(q - q', m);
    } else if q < q' {
      MulAtLeast(q' - q, m);
    }
  }

  /** Advancing by a whole cycle does not change the position in the cycle. */
  lemma ModShift(a: nat, m: nat)
    requires m >= 1
    ensures (m + a) % m == a % m
  {
    assert a == (a / m) * m + a % m;
    assert m + a == (a / m + 1) * m + a % m;
    ModUnique(m + a, m, a / m + 1, a % m);
  }

  /** The position a looped read leaves the cursor at: one further on, or just past the
      first frame after a reopen at the end. */
  function LoopedNext(pos: nat, f: nat): nat
  {
    if pos < f then pos + 1 else 1
  }

  /** One looped read at `pos` delivers frame pos mod F. */
  lemma LoopedStep(frames: seq<Image>, pos: nat, path: string, env: Env)
    requires OpenStream(env, path) == Some(frames) && |frames| >= 1
    requires pos <= |frames|
    ensures Next(Opened(frames, pos), true, path, env) ==
            Success((Opened(frames, LoopedNext(pos, |frames|)), Fetch(true, frames[pos % |frames|])))
  {
    if pos == |frames| {
      ModShift(0, |frames|);
    } else {
      ModUnique(pos, |frames|, 0, pos);
    }
  }

  /** Reading on from the next position is reading on from `pos` shifted by one. */
  lemma LoopedShift(pos: nat, f: nat, k: nat)
    requires f >= 1 && pos <= f && k >= 1
    ensures (LoopedNext(pos, f) + (k - 1)) % f == (pos + k) % f
  {
    if pos == f {
      ModShift(k, f);
    }
  }

  /** A looped source over a stream of F ≥ 1 frames, positioned at `pos`, yields frame
      (pos + k) mod F on its k-th read and never fails. */
  lemma {:induction false} LoopedReads(frames: seq<Image>, pos: nat, path: string, env: Env, n: nat)
    requires OpenStream(env, path) == Some(frames) && |frames| >= 1
    requires pos <= |frames|
    ensures var r := Reads(Opened(frames, pos), true, path, env, n);
            && r.Success? && |r.value.1| == n
            && (forall k :: 0 <= k < n ==> r.value.1[k] == Fetch(true, frames[(pos + k) % |frames|]))
    decreases n
  {
    if n > 0 {
      var f := |frames|;
      var next := LoopedNext(pos, f);
      LoopedReads(frames, next, path, env, n - 1);
      LoopedStep(frames, pos, path, env);
      var rest := Reads(Opened(frames, next), true, path, env, n - 1).value.1;
      var all := Reads(Opened(frames, pos), true, path, env, n).value.1;
      assert all == [Fetch(true, frames[pos % f])] + rest;
      forall k | 0 <= k < n
        ensures all[k] == Fetch(true, frames[(pos + k) % f])
      {
        if k > 0 {
          assert all[k] == rest[k - 1];
          LoopedShift(pos, f, k);
        }
      }
    }
  }

  /** A freshly opened looped source of F ≥ 1 frames yields frame k mod F on its k-th read. */
  lemma LoopedCycle(frames: seq<Image>, path: string, env: Env, n: nat)
    requires OpenStream(env, path) == Some(frames) && |frames| >= 1
    ensures var r := Reads(OpenCapture(env, path), true, path, env, n);
            && r.Success? && |r.value.1| == n
            && (forall k :: 0 <= k < n ==> r.value.1[k] == Fetch(true, frames[k % |frames|]))
  {
    LoopedReads(frames, 0, path, env, n);
  }

  /** An exhausted looped source over a stream that has become empty or unopenable raises
      instead of reporting exhaustion. */
  lemma LoopedExhaustedFails(cap: Capture, path: string, env: Env)
    requires !ReadFrame(cap).1.ok
    requires OpenStream(env, path).None? || OpenStream(env, path) == Some([])
    ensures Next(cap, true, path, env) == Failure(ReadFailed)
  {
  }
}
