/**
 * MediaFactory: picks the media source or sink for a path from its lower-cased
 * extension, using one fixed allow-list of image extensions and one of video
 * extensions.
 */
module MediaFactory {
  import opened Wrappers
  import opened Frames
  import opened Storage
  import opened MediaTypes
  import ImageReader
  import VideoReader
  import opened MediaSource
  import MediaSink

  const Images: set<string> := {".jpg", ".jpeg", ".png", ".bmp"}
  const Video: set<string> := {".mp4", ".avi"}

  /** The two allow-lists share no extension, so at most one branch of a dispatch applies. */
  lemma AllowListsDisjoint()
    ensures Images !! Video
  {
  }

  /** The position of the last occurrence of `c` in `s`. */
  function LastIndexOf(s: string, c: char): (r: Option<nat>)
    ensures r.Some? ==> r.value < |s| && s[r.value] == c && c !in s[r.value + 1..]
    ensures r.None? ==> c !in s
    decreases |s|
  {
    if s == [] then None
    else if s[|s| - 1] == c then Some(|s| - 1)
    else LastIndexOf(s[..|s| - 1], c)
  }

  /** The last occurrence is the only one with no further occurrence after it. */
  lemma LastIndexAt(s: string, c: char, i: nat)
    requires i < |s| && s[i] == c && c !in s[i + 1..]
    ensures LastIndexOf(s, c) == Some(i)
  {
    NoneAfter(s, c, i);
    var r := LastIndexOf(s, c);
    if r.Some? {
      NoneAfter(s, c, r.value);
    }
  }

  lemma NoneAfter(s: string, c: char, i: nat)
    requires i < |s| && c !in s[i + 1..]
    ensures forall j :: i < j < |s| ==> s[j] != c
  {
    forall j | i < j < |s| ensures s[j] != c {
      assert s[i + 1..][j - i - 1] == s[j];
    }
  }

  /** The last component of a path: what follows its last '/'. */
  function FileName(p: string): string
  {
    match LastIndexOf(p, '/')
    case None => p
    case Some(i) => p[i + 1..]
  }

  /** std::filesystem::path::extension: the file name from its last '.' on, or empty when the
      name has no '.', is "." or "..", or has its only '.' in front. */
  function Extension(p: string): (e: string)
    ensures FileName(p) == "." || FileName(p) == ".." ==> e == ""
    ensures e != "" ==> e[0] == '.' && '.' !in e[1..]
  {
    var name := FileName(p);
    if name == "." || name == ".." then ""
    else match LastIndexOf(name, '.')
      case None => ""
      case Some(i) => if i == 0 then "" else name[i..]
  }

  /** std::tolower in the "C" locale. */
  function LowerChar(c: char): char
  {
    if 'A' <= c <= 'Z' then (c as int - 'A' as int + 'a' as int) as char else c
  }

  function ToLower(s: string): string
  {
    seq(|s|, i requires 0 <= i < |s| => LowerChar(s[i]))
  }

  /** The extension of a path, lower-cased. */
  function GetFileExtension(fileName: string): (ext: string)
    ensures forall i :: 0 <= i < |ext| ==> !('A' <= ext[i] <= 'Z')
  {
    ToLower(Extension(fileName))
  }

  /** An extension is empty or a '.' followed by no further '.' or '/', taken from the end
      of the path after a non-empty stem. */
  lemma ExtensionShape(p: string)
    ensures var ext := Extension(p);
            && |ext| <= |p| && ext == p[|p| - |ext|..]
            && (ext == "" || (ext[0] == '.' && '.' !in ext[1..] && '/' !in ext && |ext| < |FileName(p)|))
  {
    var name := FileName(p);
    assert '/' !in name && name == p[|p| - |name|..];
    var ext := Extension(p);
    if ext != "" {
      var i := LastIndexOf(name, '.').value;
      assert ext == name[i..];
      assert ext[1..] == name[i + 1..];
      assert p[|p| - |ext|..] == name[i..];
    }
  }

  lemma FileNameAfterDirectory(dir: string, name: string)
    requires dir == "" || dir[|dir| - 1] == '/'
    requires '/' !in name
    ensures FileName(dir + name) == name
  {
    var p := dir + name;
    if dir == "" {
      assert p == name;
    } else {
      assert p[|dir| - 1] == '/';
      assert p[|dir|..] == name;
      LastIndexAt(p, '/', |dir| - 1);
    }
  }

  lemma LastDotOfSuffix(stem: string, e: string)
    requires '.' !in e
    ensures LastIndexOf(stem + "." + e, '.') == Some(|stem|)
  {
    var s := stem + "." + e;
    assert s[|stem|] == '.';
    assert s[|stem| + 1..] == e;
    LastIndexAt(s, '.', |stem|);
  }

  /** Splitting a file name into a non-empty stem and a final ".e" gives back ".e": the
      extension of dir/stem.e is .e. */
  lemma ExtensionOf(dir: string, stem: string, e: string)
    requires dir == "" || dir[|dir| - 1] == '/'
    requires stem != "" && '/' !in stem
    requires '.' !in e && '/' !in e
    requires !(stem == "." && e == "")
    ensures Extension(dir + stem + "." + e) == "." + e
  {
    var name := stem + "." + e;
    var p := dir + stem + "." + e;
    assert p == dir + name;
    SuffixHasNoSlash(stem, e);
    FileNameAfterDirectory(dir, name);
    LastDotOfSuffix(stem, e);
    NotDotOrDotDot(stem, e);
    ExtensionAt(p, name, |stem|);
    DotSuffix(stem, e);
  }

  lemma DotSuffix(stem: string, e: string)
    ensures (stem + "." + e)[|stem|..] == "." + e
  {
    assert stem + "." + e == stem + ("." + e);
  }

  lemma SuffixHasNoSlash(stem: string, e: string)
    requires '/' !in stem && '/' !in e
    ensures '/' !in stem + "." + e
  {
    var name := stem + "." + e;
    forall k | 0 <= k < |name| ensures name[k] != '/' {
      if k < |stem| { assert name[k] == stem[k]; }
      else if k > |stem| { assert name[k] == e[k - |stem| - 1]; }
    }
  }

  lemma NotDotOrDotDot(stem: string, e: string)
    requires stem != "" && !(stem == "." && e == "")
    ensures stem + "." + e != "." && stem + "." + e != ".."
  {
    var name := stem + "." + e;
    assert |name| >= 2;
    if |name| == 2 {
      assert |stem| == 1 && e == [];
      assert name[0] == stem[0];
    }
  }

  lemma ExtensionAt(p: string, name: string, i: nat)
    requires FileName(p) == name && name != "." && name != ".."
    requires LastIndexOf(name, '.') == Some(i) && i != 0
    ensures Extension(p) == name[i..]
  {
  }

  /** A file name without a '.' has no extension. */
  lemma NoDotNoExtension(p: string)
    requires '.' !in FileName(p)
    ensures Extension(p) == ""
  {
  }

  /** A dot-file whose only '.' is its first character has no extension. */
  lemma DotFileNoExtension(dir: string, e: string)
    requires dir == "" || dir[|dir| - 1] == '/'
    requires '.' !in e && '/' !in e
    ensures Extension(dir + "." + e) == ""
  {
    var name := "" + "." + e;
    assert name == "." + e;
    assert dir + "." + e == dir + name;
    SuffixHasNoSlash("", e);
    FileNameAfterDirectory(dir, name);
    LastDotOfSuffix("", e);
    ExtensionLeadingDot(dir + name, name);
  }

  /** The parent-directory entry ".." has no extension. */
  lemma DotDotNoExtension(dir: string)
    requires dir == "" || dir[|dir| - 1] == '/'
    ensures Extension(dir + "..") == ""
  {
    FileNameAfterDirectory(dir, "..");
  }

  lemma ExtensionLeadingDot(p: string, name: string)
    requires FileName(p) == name && LastIndexOf(name, '.') == Some(0)
    ensures Extension(p) == ""
  {
  }

  lemma LowerCharFixes(c: char)
    ensures LowerChar(c) == '/' <==> c == '/'
    ensures LowerChar(c) == '.' <==> c == '.'
    ensures LowerChar(LowerChar(c)) == LowerChar(c)
  {
  }

  /** Lower-casing moves no '/' and no '.'. */
  lemma LastIndexLower(s: string, c: char)
    requires c == '/' || c == '.'
    ensures LastIndexOf(ToLower(s), c) == LastIndexOf(s, c)
  {
    var ls := ToLower(s);
    forall j | 0 <= j < |s| ensures ls[j] == c <==> s[j] == c {
      LowerCharFixes(s[j]);
    }
    match LastIndexOf(s, c)
    case None =>
      forall j | 0 <= j < |ls| ensures ls[j] != c {
        assert s[j] in s;
      }
    case Some(i) =>
      NoneAfter(s, c, i);
      var tail := ls[i + 1..];
      forall k | 0 <= k < |tail| ensures tail[k] != c {
        assert tail[k] == ls[i + 1 + k];
      }
      LastIndexAt(ls, c, i);
  }

  lemma ToLowerIdempotent(s: string)
    ensures ToLower(ToLower(s)) == ToLower(s)
  {
    forall i | 0 <= i < |s| ensures ToLower(ToLower(s))[i] == ToLower(s)[i] {
      LowerCharFixes(s[i]);
    }
  }

  lemma ExtensionLower(p: string)
    ensures Extension(ToLower(p)) == ToLower(Extension(p))
  {
    var name := FileName(p);
    FileNameLower(p);
    var lname := ToLower(name);
    LastIndexLower(name, '.');
    DotNamesLower(name);
    if LastIndexOf(name, '.').Some? {
      SliceLower(name, LastIndexOf(name, '.').value);
    }
  }

  lemma FileNameLower(p: string)
    ensures FileName(ToLower(p)) == ToLower(FileName(p))
  {
    LastIndexLower(p, '/');
    if LastIndexOf(p, '/').Some? {
      SliceLower(p, LastIndexOf(p, '/').value + 1);
    }
  }

  lemma SliceLower(s: string, i: nat)
    requires i <= |s|
    ensures ToLower(s)[i..] == ToLower(s[i..])
  {
  }

  lemma DotNamesLower(name: string)
    ensures ToLower(name) == "." <==> name == "."
    ensures ToLower(name) == ".." <==> name == ".."
  {
    if |name| == 1 { LowerCharFixes(name[0]); }
    if |name| == 2 { LowerCharFixes(name[0]); LowerCharFixes(name[1]); }
  }

  /** Dispatch is case-insensitive: lower-casing the path does not change its extension. */
  lemma ExtensionCaseInsensitive(p: string)
    ensures GetFileExtension(ToLower(p)) == GetFileExtension(p)
  {
    ExtensionLower(p);
    ToLowerIdempotent(Extension(p));
  }

  /** What createReader builds for a path: the initial state of an image or video source,
      or the error its dispatch or its constructor raises. */
  function ReaderState(input: string, loop: bool, env: Env): (r: Result<SourceState, Error>)
    ensures var ext := GetFileExtension(input);
            && (ext !in Images + Video ==> r == Failure(RuntimeError("Input file type is not supported: " + ext)))
            && (r.Success? ==> r.value.path == input && r.value.looped == loop)
            && (r.Success? ==> (r.value.ImageState? <==> ext in Images) && (r.value.VideoState? <==> ext in Video))
            && (ext in Images ==> (r.Success? <==> HaveImageReader(env, input)))
            && (ext in Video ==> (r.Success? <==> Exists(env, input) && OpenStream(env, input).Some?))
            && (r.Success? && r.value.ImageState? ==> r.value.cache == None)
            && (r.Success? && r.value.VideoState? ==> r.value.cap == VideoReader.Opened(OpenStream(env, input).value, 0))
  {
    var ext := GetFileExtension(input);
    if ext in Images then
      match ImageReader.Construct(input, env)
      case Failure(e) => Failure(e)
      case Success(cache) => Success(ImageState(input, loop, cache))
    else if ext in Video then
      match VideoReader.Construct(input, env)
      case Failure(e) => Failure(e)
      case Success(cap) => Success(VideoState(input, loop, cap))
    else Failure(RuntimeError("Input file type is not supported: " + ext))
  }

  method CreateReader(input: string, loop: bool, env: Env) returns (r: Result<Source, Error>)
    ensures match ReaderState(input, loop, env)
            case Failure(e) => r == Failure(e)
            case Success(st) => r.Success? && fresh(r.value.Repr()) && r.value.State() == st
  {
    var ext := GetFileExtension(input);
    if ext in Images {
      var reader :- ImageReader.Open(input, loop, env);
      return Success(ImageSource(reader));
    } else if ext in Video {
      var reader :- VideoReader.Open(input, loop, env);
      return Success(VideoSource(reader));
    } else {
      return Failure(RuntimeError("Input file type is not supported: " + ext));
    }
  }

  /** The kind of sink createWriter builds for a path, or the error it raises. */
  function WriterType(output: string, env: Env): (r: Result<SinkType, Error>)
    ensures output == "" ==> r == Success(SinkType.Dummy)
    ensures var ext := GetFileExtension(output);
            && (output != "" && ext in Images ==>
                  r == if HaveImageWriter(env, output) then Success(SinkType.ImageFile)
                       else Failure(RuntimeError("No encoder for this image file: " + output)))
            && (output != "" && ext in Video ==> r == Success(SinkType.VideoFile))
            && (output != "" && ext !in Images + Video ==> r == Failure(RuntimeError("Output file type is not supported: " + ext)))
  {
    if output == "" then Success(SinkType.Dummy)
    else
      var ext := GetFileExtension(output);
      if ext in Images then
        if HaveImageWriter(env, output) then Success(SinkType.ImageFile)
        else Failure(RuntimeError("No encoder for this image file: " + output))
      else if ext in Video then Success(SinkType.VideoFile)
      else Failure(RuntimeError("Output file type is not supported: " + ext))
  }

  const VideoCodec: string := "mp4v"
  const VideoFps: real := 30.0

  method CreateWriter(output: string, frameSize: Size, env: Env) returns (r: Result<MediaSink.Sink, Error>)
    ensures match WriterType(output, env)
            case Failure(e) => r == Failure(e)
            case Success(t) =>
              && r.Success? && fresh(r.value) && r.value.mediaType == t && r.value.received == []
              && (t == SinkType.Dummy ==> r.value.path == "")
              && (t != SinkType.Dummy ==> r.value.path == output && r.value.frameSize == frameSize)
              && (t == SinkType.VideoFile ==> r.value.fourcc == VideoCodec && r.value.fps == VideoFps)
  {
    if output == "" {
      var sink := new MediaSink.Sink.Dummy();
      return Success(sink);
    }
    var ext := GetFileExtension(output);
    if ext in Images {
      r := MediaSink.OpenImageWriter(output, frameSize, env);
    } else if ext in Video {
      var sink := new MediaSink.Sink.VideoWriter(output, frameSize, VideoCodec, VideoFps);
      return Success(sink);
    } else {
      return Failure(RuntimeError("Output file type is not supported: " + ext));
    }
  }
}
