/**
 * ImageFileReader: a still image served as a media source. The first read after
 * construction or reset decodes the file and caches the picture; later reads
 * replay the cache when the source is looped and report exhaustion otherwise.
 */
module ImageReader {
  import opened Wrappers
  import opened Frames
  import opened Storage
  import opened MediaTypes

  /** The checks of the constructor: the file exists and a decoder recognises it.
      On success the reader starts with an empty cache. */
  function Construct(imageFile: string, env: Env): (r: Result<Option<Image>, Error>)
    ensures r.Success? <==> Exists(env, imageFile) && HaveImageReader(env, imageFile)
    ensures r.Success? ==> r.value == None
    ensures !Exists(env, imageFile) ==> r == Failure(RuntimeError("Input image doesn't exist: " + imageFile))
  {
    if !Exists(env, imageFile) then Failure(RuntimeError("Input image doesn't exist: " + imageFile))
    else if !HaveImageReader(env, imageFile) then Failure(RuntimeError("No decoder for this image file: " + imageFile))
    else Success(None)
  }

  /** One readNext with cache `cache` when the file decodes to `decoded` and the caller
      passes `frame`: the new cache and what the caller gets back, or the error raised. */
  function Next(cache: Option<Image>, looped: bool, decoded: Option<Image>, frame: Frame): (r: Result<(Option<Image>, Fetch), Error>)
    ensures r.Failure? <==> cache.None? && decoded.None?
    ensures r.Failure? ==> r.error == AssertionFailed("!frame.empty()")
    ensures r.Success? ==> r.value.0 == if cache.Some? then cache else decoded
    ensures r.Success? ==> (r.value.1.ok <==> cache.None? || looped)
    ensures r.Success? && r.value.1.ok ==> r.value.1.frame == r.value.0.value
    ensures r.Success? && !r.value.1.ok ==> r.value.1.frame == frame
  {
    match cache
    case None =>
      (match decoded
       case None => Failure(AssertionFailed("!frame.empty()"))
       case Some(picture) => Success((Some(picture), Fetch(true, picture))))
    case Some(cached) =>
      if looped then Success((cache, Fetch(true, cached)))
      else Success((cache, Fetch(false, frame)))
  }

  /** `n` successive reads, each handed the frame the previous one left behind. */
  function Reads(cache: Option<Image>, looped: bool, decoded: Option<Image>, frame: Frame, n: nat): Result<(Option<Image>, seq<Fetch>), Error>
    decreases n
  {
    if n == 0 then Success((cache, []))
    else match Next(cache, looped, decoded, frame)
      case Failure(e) => Failure(e)
      case Success((cache', fetch)) =>
        match Reads(cache', looped, decoded, fetch.frame, n - 1)
        case Failure(e) => Failure(e)
        case Success((last, fetches)) => Success((last, [fetch] + fetches))
  }

  class ImageFileReader {
    const path: string
    const looped: bool
    var cache: Option<Image>

    function MediaType(): SourceType { SourceType.ImageFile }

    /** The member initialisation of the constructor; its checks are made by Open. */
    constructor (imageFile: string, looped: bool)
      ensures path == imageFile && this.looped == looped && cache == None
    {
      path := imageFile;
      this.looped := looped;
      cache := None;
    }

    method ReadNext(env: Env, frame: Frame) returns (r: Result<Fetch, Error>)
      modifies this
      ensures match Next(old(cache), looped, Imread(env, path), frame)
              case Success((cache', fetch)) => r == Success(fetch) && cache == cache'
              case Failure(e) => r == Failure(e) && cache == old(cache)
    {
      if cache.None? {
        var decoded := Imread(env, path);
        if decoded.None? {
          return Failure(AssertionFailed("!frame.empty()"));
        }
        cache := decoded;
        return Success(Fetch(true, decoded.value));
      } else if looped {
        return Success(Fetch(true, cache.value));
      } else {
        return Success(Fetch(false, frame));
      }
    }

    /** Releasing the cache forces the next read to decode the file again. */
    method Reset()
      modifies this
      ensures cache == None
    {
      cache := None;
    }
  }

  /** The constructor with its checks: a missing file or a missing decoder raises. */
  method Open(imageFile: string, looped: bool, env: Env) returns (r: Result<ImageFileReader, Error>)
    ensures match Construct(imageFile, env)
            case Failure(e) => r == Failure(e)
            case Success(cache) =>
              && r.Success? && fresh(r.value)
              && r.value.path == imageFile && r.value.looped == looped && r.value.cache == cache
  {
    if !Exists(env, imageFile) {
      return Failure(RuntimeError("Input image doesn't exist: " + imageFile));
    }
    if !HaveImageReader(env, imageFile) {
      return Failure(RuntimeError("No decoder for this image file: " + imageFile));
    }
    var reader := new ImageFileReader(imageFile, looped);
    return Success(reader);
  }

  /** With a filled cache and no looping every read fails and hands the caller's frame back. */
  lemma {:induction false} CachedNotLoopedReads(cached: Image, decoded: Option<Image>, frame: Frame, n: nat)
    ensures Reads(Some(cached), false, decoded, frame, n) == Success((Some(cached), seq(n, k => Fetch(false, frame))))
    decreases n
  {
    if n == 0 {
      assert seq(n, k => Fetch(false, frame)) == [];
    } else {
      CachedNotLoopedReads(cached, decoded, frame, n - 1);
      assert [Fetch(false, frame)] + seq(n - 1, k => Fetch(false, frame)) == seq(n, k => Fetch(false, frame));
    }
  }

  /** A non-looped image source yields exactly one successful read, the decoded picture,
      and then fails until it is reset. */
  lemma OneShot(picture: Image, frame: Frame, n: nat)
    requires n >= 1
    ensures var r := Reads(None, false, Some(picture), frame, n);
            && r.Success? && r.value.0 == Some(picture) && |r.value.1| == n
            && (forall k :: 0 <= k < n ==> (r.value.1[k].ok <==> k == 0))
            && (forall k :: 0 <= k < n ==> r.value.1[k].frame == picture)
  {
    CachedNotLoopedReads(picture, Some(picture), picture, n - 1);
  }

  /** With a filled cache a looped source returns the cached picture on every read,
      whatever the file holds now. */
  lemma {:induction false} CachedLoopedReads(cached: Image, decoded: Option<Image>, frame: Frame, n: nat)
    ensures Reads(Some(cached), true, decoded, frame, n) == Success((Some(cached), seq(n, k => Fetch(true, cached))))
    decreases n
  {
    if n == 0 {
      assert seq(n, k => Fetch(true, cached)) == [];
    } else {
      CachedLoopedReads(cached, decoded, cached, n - 1);
      assert [Fetch(true, cached)] + seq(n - 1, k => Fetch(true, cached)) == seq(n, k => Fetch(true, cached));
    }
  }

  /** A looped still image returns pixel-identical frames on any number of consecutive reads. */
  lemma LoopedIdentical(picture: Image, frame: Frame, n: nat)
    requires n >= 1
    ensures Reads(None, true, Some(picture), frame, n) == Success((Some(picture), seq(n, k => Fetch(true, picture))))
  {
    CachedLoopedReads(picture, Some(picture), picture, n - 1);
    assert [Fetch(true, picture)] + seq(n - 1, k => Fetch(true, picture)) == seq(n, k => Fetch(true, picture));
  }

  /** A file that does not decode makes the first read after construction or reset raise. */
  lemma UndecodableFails(looped: bool, frame: Frame, n: nat)
    requires n >= 1
    ensures Reads(None, looped, None, frame, n) == Failure(AssertionFailed("!frame.empty()"))
  {
  }
}
