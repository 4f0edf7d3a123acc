/**
 * MediaSink: the closed set of sinks (image file writer, video file writer and
 * the dummy writer that discards everything). The sink records the frames it is
 * handed; how a file writer encodes them is not part of this model.
 */
module MediaSink {
  import opened Wrappers
  import opened Frames
  import opened Storage
  import opened MediaTypes

  class Sink {
    const mediaType: SinkType
    const path: string
    const frameSize: Size
    const fourcc: string
    const fps: real
    /** The frames handed to the encoder so far. */
    var received: seq<Frame>

    /** DummyWriter: no destination at all. */
    constructor Dummy()
      ensures mediaType == SinkType.Dummy && path == "" && received == []
    {
      mediaType := SinkType.Dummy;
      path := "";
      frameSize := Size(0, 0);
      fourcc := "";
      fps := 0.0;
      received := [];
    }

    /** The member initialisation of ImageFileWriter; its encoder check is made by OpenImageWriter. */
    constructor ImageWriter(imageFile: string, frameSize: Size)
      ensures mediaType == SinkType.ImageFile && path == imageFile && this.frameSize == frameSize && received == []
    {
      mediaType := SinkType.ImageFile;
      path := imageFile;
      this.frameSize := frameSize;
      fourcc := "";
      fps := 0.0;
      received := [];
    }

    /** VideoFileWriter with the given codec and frame rate. */
    constructor VideoWriter(videoFile: string, frameSize: Size, fourcc: string, fps: real)
      ensures mediaType == SinkType.VideoFile && path == videoFile && received == []
      ensures this.frameSize == frameSize && this.fourcc == fourcc && this.fps == fps
    {
      mediaType := SinkType.VideoFile;
      path := videoFile;
      this.frameSize := frameSize;
      this.fourcc := fourcc;
      this.fps := fps;
      received := [];
    }

    /** A file writer takes the frame; the dummy writer discards it. */
    method Write(frame: Frame)
      modifies this
      ensures received == if mediaType == SinkType.Dummy then old(received) else old(received) + [frame]
    {
      if mediaType != SinkType.Dummy {
        received := received + [frame];
      }
    }
  }

  /** ImageFileWriter's constructor: it raises when no encoder handles the file. */
  method OpenImageWriter(imageFile: string, frameSize: Size, env: Env) returns (r: Result<Sink, Error>)
    ensures !HaveImageWriter(env, imageFile) ==> r == Failure(RuntimeError("No encoder for this image file: " + imageFile))
    ensures HaveImageWriter(env, imageFile) ==>
              && r.Success? && fresh(r.value) && r.value.mediaType == SinkType.ImageFile
              && r.value.path == imageFile && r.value.frameSize == frameSize && r.value.received == []
  {
    if !HaveImageWriter(env, imageFile) {
      return Failure(RuntimeError("No encoder for this image file: " + imageFile));
    }
    var sink := new Sink.ImageWriter(imageFile, frameSize);
    return Success(sink);
  }
}
