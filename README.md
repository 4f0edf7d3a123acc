# Chroma keying in Dafny

This project models the green-screen keyer of the chroma-keying program. The user picks a
key colour and sets three parameters: tolerance and defringe in percent, and softness as a
kernel radius. `ChromaKeyer::keyOut` then opens three media, each created from its path by
the media factory:

- the input, not looped;
- the background, looped;
- the output.

It checks that the three media types fit together, and then runs the frame loop. Each pass
of the loop:

1. reads the next input frame; the loop stops there if the read reports false, or if the low
   byte of the previous key was Escape;
2. reads the next background frame;
3. resizes the background to the input's size;
4. keys the input out over it (`keyOutFrame`);
5. hands the result to the sink and shows it.

`keyOutFrame` works in normalized float space:

- a pixel is key-coloured when its HSV value lies in the hue band `key ± tolerance·3.6` or in
  the one extra band that folds the part of the band outside 0..360 back onto the circle,
  with saturation and value at least `defringe/100`;
- the 0/1 mask is optionally dilated and blurred;
- the output is `bg·m + fg·(1−m)`, brought back to bytes.

The media sources are small state machines:

- a still image decodes once into a cache, which a looped source replays;
- a video is a cursor over its frames, which a looped source rewinds by reopening the file.

## Module layout

- `wrappers.dfy`: `Option`, `Result` and `Outcome`.
- `frames.dfy`: frames as a size and row-major BGR pixels, plus byte ↔ 0..1 conversion with
  cvRound and saturation.
- `storage.dfy`: the file system and the codec registry as one value, `Env`, and the
  exceptions as `Error`.
- `mediatypes.dfy`: the two media type enums.
- `imagefilereader.dfy`, `videofilereader.dfy`: the reader classes. Each has a pure step
  function, a `ReadNext` method proved against it, and lemmas about sequences of reads.
- `mediasource.dfy`: the closed set of sources behind one `readNext`/`reset` interface, and
  the abstract state the loop reasons about.
- `mediasink.dfy`: the sink class, including the dummy writer.
- `mediafactory.dfy`: extension extraction, the allow-lists, and `createReader` /
  `createWriter`.
- `keying.dfy`: the keying rule, the masks and the compositing, as functions with their
  properties.
- `matrices.dfy`: the element-wise matrix operations `keyOutFrame` applies.
- `chromakeyer.dfy`:
  - the `ChromaKeyer` class, whose methods update its matrix buffers in place;
  - the pure specification of the frame loop (`Step`, `Run`) and of the whole of keyOut
    (`KeyOutSpec`).
- `sessions.dfy`: what whole runs deliver.

Values that are inputs to the model:

- The OpenCV kernels (BGR→HSV conversion, dilation, Gaussian blur, the resize resampler)
  are function-valued parameters.
- The keystrokes that `cv::waitKey` returns are a sequence `keys`. After the frame with
  index i is shown the key is `keys[i]`, or -1 once the sequence runs out.
- Files and codecs are the value `Env`, constant during one run.

## Model

| member | source | states |
|---|---|---|
| Frames.RoundHalfEven | chromakeyer.cpp:185 | the rounding inside convertTo to 8 bits lands within one half of its argument |
| Frames.Saturate | chromakeyer.cpp:185 | saturation to a byte keeps 0..255, and clamps below to 0 and above to 255 |
| Frames.QuantizeUnitInterval | chromakeyer.cpp:184-185 | a channel in 0..1 is not saturated: its byte is the nearest integer to 255·x |
| Frames.QuantizeUnit | chromakeyer.cpp:121-122 | scaling a byte by 1/255 and back by 255 returns it exactly |
| Frames.QuantizeNormalize | chromakeyer.cpp:121-122 | the same round trip for a whole BGR pixel |
| ImageReader.Construct | imagefilereader.cpp:8-13 | construction succeeds exactly when the file exists and has a decoder, with an empty cache; a missing file raises "Input image doesn't exist: " + path |
| ImageReader.Next | imagefilereader.cpp:15-33 | a read raises exactly when the cache is empty and the file does not decode; otherwise the cache ends filled (with the decoded picture if it was empty), the read reports true exactly on a decode or a looped replay and then hands back the cached picture, and reports false with the caller's frame untouched |
| ImageReader.ImageFileReader.constructor | imagefilereader.cpp:8-9 | path and loop flag fixed at construction, cache empty |
| ImageReader.Open | imagefilereader.cpp:8-13 | the constructor with its checks: fails as Construct says, or gives a fresh reader with that path, loop flag and empty cache |
| ImageReader.ImageFileReader.ReadNext | imagefilereader.cpp:15-33 | the read and the new cache follow the state machine Next; an empty cache whose file does not decode raises the !frame.empty() assertion and leaves the cache empty |
| ImageReader.ImageFileReader.Reset | imagefilereader.cpp:35-38 | the cache is released |
| ImageReader.CachedNotLoopedReads | imagefilereader.cpp:31 | with a filled cache and no looping, every read returns false and hands back the caller's frame untouched |
| ImageReader.OneShot | imagefilereader.cpp:15-33 | a non-looped image gives exactly one successful read (the first), the picture, and false afterwards |
| ImageReader.CachedLoopedReads | imagefilereader.cpp:26-30 | a filled cache, looped, returns the cached picture on every read whatever the file holds |
| ImageReader.LoopedIdentical | imagefilereader.cpp:17-30 | a looped still image returns pixel-identical frames on any number of reads |
| ImageReader.UndecodableFails | imagefilereader.cpp:19-20 | a file that does not decode makes the first read raise |
| VideoReader.OpenCapture | videofilereader.cpp:8 | the capture opens exactly when the stream can be opened, positioned at its first frame |
| VideoReader.ReadFrame | videofilereader.cpp:15 | cap.read succeeds exactly on an open capture before its end, returning the frame under the cursor and advancing it; otherwise the capture is unchanged and the frame emptied |
| VideoReader.Next | videofilereader.cpp:13-28 | a non-looped read is one cap.read; a read raises "Failed to read the input file." exactly when it is looped and both the read and the read after reopening fail; a looped read that does not raise reports true; a true read delivers a well-formed, non-empty frame |
| VideoReader.Construct | videofilereader.cpp:6-11 | construction succeeds exactly when the file exists and the capture opens; a missing file raises "Input video doesn't exist: " + path |
| VideoReader.VideoFileReader.constructor | videofilereader.cpp:6-8 | path and loop flag fixed, the capture opened on the file |
| VideoReader.Open | videofilereader.cpp:6-11 | the constructor with its checks, as Construct says |
| VideoReader.VideoFileReader.ReadNext | videofilereader.cpp:13-28 | the read and the new capture follow Next: the next frame, else a rewind when looped, else false; a failed reopen raises "Failed to read the input file." |
| VideoReader.VideoFileReader.Reset | videofilereader.cpp:30-34 | the capture is reopened on the file; raises when it does not open |
| VideoReader.NonLoopedReads | videofilereader.cpp:15-27 | from position pos a non-looped video returns true exactly for the frames left, in order, then false, and never rewinds |
| VideoReader.NonLoopedCount | videofilereader.cpp:13-28 | a non-looped video of F frames returns true exactly F times, with its frames in order, then false |
| VideoReader.LoopedStep | videofilereader.cpp:15-25 | one looped read at pos delivers frame pos mod F and moves on, rewinding at the end |
| VideoReader.LoopedReads | videofilereader.cpp:13-28 | a looped video of F ≥ 1 frames, at pos, yields frame (pos + k) mod F on its k-th read and never fails |
| VideoReader.LoopedCycle | videofilereader.cpp:13-28 | a freshly opened looped video yields frame k mod F on its k-th read |
| VideoReader.LoopedExhaustedFails | videofilereader.cpp:18-23 | an exhausted looped video whose stream can no longer be opened or is empty raises rather than returning false |
| MediaSource.Step | mediasource.h:21-25 | a read keeps the path, the loop flag and the media type of the source |
| MediaSource.NonLoopedProgress | mediasource.h:25 | every successful read of a non-looped source uses up one remaining frame |
| MediaSource.LoopedDelivers | videofilereader.cpp:18-25 | a looped source never reports exhaustion; a read that does not raise delivers a decoded frame |
| MediaSource.NonLoopedExhaustion | mediasource.h:25 | a non-looped read reports false exactly when nothing remains |
| MediaSource.DeliveredIsImage | imagefilereader.cpp:19-20 | a read that reports true hands back a well-formed, non-empty frame |
| MediaSource.ReplayableStep | chromakeyer.cpp:91-94 | a replayable looped source reads successfully with its next looped frame and stays replayable, shifted by one |
| MediaSource.VideoStepWithin | videofilereader.cpp:15-16 | a video read before the end returns the frame under the cursor and advances it |
| MediaSource.VideoStepWrapping | videofilereader.cpp:18-25 | a looped video read at the end reopens the file and returns its first frame |
| MediaSource.ReadNext | mediasource.h:25 | dispatches to the reader; the result and the new state are those of Step; a raising read leaves an image cache as it was and a video capture as the failed reopen left it |
| MediaSource.Reset | mediasource.h:27 | the new state is ResetState; it fails exactly when a video capture does not reopen |
| MediaSource.ResetRewinds | videofilereader.cpp:30-34 | after a reset the next read returns the file's first frame again |
| MediaSink.Sink.Dummy | dummywriter.h:11 | the dummy sink has type Dummy and an empty path |
| MediaSink.Sink.ImageWriter | imagefilewriter.h:16-18 | an image sink for the path and frame size |
| MediaSink.Sink.VideoWriter | videofilewriter.h:15-17 | a video sink for the path, frame size, codec and frame rate |
| MediaSink.OpenImageWriter | imagefilewriter.h:16-18 | without an encoder it raises "No encoder for this image file: " + path, else an image sink |
| MediaSink.Sink.Write | dummywriter.h:18 | a file sink takes the frame; the dummy sink discards it |
| MediaFactory.AllowListsDisjoint | mediafactory.cpp:12-13 | the image and video allow-lists share no extension |
| MediaFactory.GetFileExtension | mediafactory.cpp:17-22 | the extension it returns has no upper-case letter |
| MediaFactory.ExtensionShape | mediafactory.cpp:19 | an extension is empty, or a suffix of the path that starts with its only '.', holds no '/', and is shorter than the file name |
| MediaFactory.FileNameAfterDirectory | mediafactory.cpp:19 | the file name of dir/name is name |
| MediaFactory.Extension | mediafactory.cpp:19 | the names "." and ".." have no extension; a non-empty extension starts with its only '.' |
| MediaFactory.DotDotNoExtension | mediafactory.cpp:19 | the parent-directory entry ".." has no extension |
| MediaFactory.ExtensionOf | mediafactory.cpp:19 | the extension of dir/stem.e is ".e" for a non-empty stem |
| MediaFactory.NoDotNoExtension | mediafactory.cpp:19 | a file name without '.' has no extension |
| MediaFactory.DotFileNoExtension | mediafactory.cpp:19 | a name whose only '.' is its first character has no extension |
| MediaFactory.ExtensionLower | mediafactory.cpp:19-20 | lower-casing the path and taking the extension commute |
| MediaFactory.ToLowerIdempotent | mediafactory.cpp:20 | lower-casing twice is lower-casing once |
| MediaFactory.ExtensionCaseInsensitive | mediafactory.cpp:17-22 | a path and its lower-cased form have the same extension, so dispatch ignores case |
| MediaFactory.ReaderState | mediafactory.cpp:24-38 | an image extension gives an image source and a video extension a video source, with the path and loop flag passed through; they succeed exactly when their constructor checks hold; any other extension, the empty one included, raises "Input file type is not supported: " + ext |
| MediaFactory.CreateReader | mediafactory.cpp:24-38 | fails as ReaderState says, or gives a fresh source in that state |
| MediaFactory.WriterType | mediafactory.cpp:41-58 | the empty path gives Dummy before any extension is looked at; an image extension gives an image sink when there is an encoder; a video extension gives a video sink; anything else raises "Output file type is not supported: " + ext |
| MediaFactory.CreateWriter | mediafactory.cpp:41-58 | a fresh, empty sink of that type; file sinks carry the path and frame size, and video sinks "mp4v" at 30 fps |
| Keying.MatchSound | chromakeyer.cpp:133-157 | every matched pixel is within tolerance·3.6 of the key hue around the circle, and above the saturation and value floors |
| Keying.LowerBound | chromakeyer.cpp:136 | the lower bound's saturation and value are defringe/100; for a tolerance in 0..100 its hue lies at most 360 below the key hue |
| Keying.UpperBound | chromakeyer.cpp:137 | the upper bound's saturation and value are 1; for a tolerance in 0..100 its hue lies at most 360 above the key hue |
| Keying.WrapBand | chromakeyer.cpp:141-157 | a primary band inside 0..360 gets no extra band; an extra band keeps the defringe floors and the upper limits of 1; for a key hue in 0..360 and a tolerance in 0..100 it lies inside 0..360 |
| Keying.Matches | chromakeyer.cpp:139-157 | a matched pixel is above the saturation and value floors |
| Keying.BinaryMask | chromakeyer.cpp:139-160 | one mask value per pixel, each in 0..1 |
| Keying.MatchComplete | chromakeyer.cpp:133-157 | every pixel above the floors whose hue is strictly closer than tolerance·3.6 around the circle is matched |
| Keying.BoundaryHueUnmatched | chromakeyer.cpp:144-157 | completeness is strict only: key 270 with tolerance 25 leaves hue 0 unmatched, though hue 180, at the same distance, matches |
| Keying.WrapExamples | chromakeyer.cpp:141-157 | key 355 with tolerance 50 matches hue 10; key 5 with tolerance 100 matches hue 359 |
| Keying.ZeroTolerance | chromakeyer.cpp:136-139 | tolerance 0 matches exactly the key hue, above the floors |
| Keying.FullTolerance | chromakeyer.cpp:136-139 | tolerance 100 passes every hue; the floors alone decide |
| Keying.BinaryMaskValues | chromakeyer.cpp:139-160 | before softening every mask value is 0 or 1, and 1 exactly on matched pixels |
| Keying.KernelSide | chromakeyer.cpp:165 | the softening kernel side is 2·softness + 1, odd and at least 3 |
| Keying.SoftenedMask | chromakeyer.cpp:162-168 | softening keeps the mask's length and leaves it unchanged when softness is not positive |
| Keying.BlendEndpoints | chromakeyer.cpp:175-182 | mask 0 yields the foreground channel, mask 1 the background channel |
| Keying.BlendBounds | chromakeyer.cpp:175-182 | channels and mask in 0..1 blend to a value in 0..1, between the two inputs |
| Keying.Composite | chromakeyer.cpp:170-185 | the composite is a well-formed frame of the foreground's size |
| Keying.CompositeChannels | chromakeyer.cpp:175-185 | each of the three output channels (b, g and r) is within one half of 255·(bg·m + fg·(1−m)), the blend lying in 0..1 |
| Keying.KeyedFrame | chromakeyer.cpp:115-188 | the keyed frame has exactly the foreground's size |
| Keying.KeyedHardEdges | chromakeyer.cpp:159-185 | without softening every key-coloured pixel becomes the background pixel, and every other pixel keeps its foreground value exactly |
| Keying.CompositeNoMatch | chromakeyer.cpp:170-185 | a mask of zeros reproduces the foreground exactly |
| Keying.CompositeFullMatch | chromakeyer.cpp:170-185 | a mask of ones reproduces the background exactly |
| Matrices.OrOfMaskValues | chromakeyer.cpp:149 | on mask bytes 0/255 the bitwise or is 255 exactly when either is |
| Matrices.ToFloat | chromakeyer.cpp:121-122 | one float pixel per byte pixel, each channel in 0..1, and scaling back by 255 returns the byte pixel |
| Matrices.ToHsv | chromakeyer.cpp:125 | one HSV pixel per float pixel, the conversion applied to each |
| Matrices.InRange | chromakeyer.cpp:139 | one byte per pixel, 0 or 255, and 255 exactly where every channel lies within the bounds |
| Matrices.BitwiseOr | chromakeyer.cpp:149 | on masks of 0/255 each output byte is 255 exactly when either input byte is |
| Matrices.ToUnit | chromakeyer.cpp:160 | every mask value scaled into 0..1; 0 exactly for byte 0 and 1 exactly for byte 255 |
| Matrices.Merge3 | chromakeyer.cpp:171 | every merged pixel carries the mask value in all three channels |
| Matrices.MultiplyByMask | chromakeyer.cpp:175-179 | multiplying by a mask pixel of ones keeps the pixel, by one of zeros clears it |
| Matrices.InvertPixel | chromakeyer.cpp:178 | 1 − x keeps a pixel inside 0..1 exactly when it was inside, and swaps exactly the all-zero and all-one mask pixels |
| Matrices.InvertInvolution | chromakeyer.cpp:178 | inverting twice gives the matrix back |
| Matrices.AddZero | chromakeyer.cpp:182 | adding a zero pixel leaves the other operand's pixel |
| Matrices.AddCommutes | chromakeyer.cpp:182 | the sum of the two weighted buffers does not depend on their order |
| Matrices.ToBytes | chromakeyer.cpp:185 | the byte frame has the given size and is well formed exactly when the pixel count is its area; channels in 0..1 become bytes within one half of 255·x |
| ChromaKeying.ChooseInterpolation | chromakeyer.cpp:97-98 | INTER_AREA exactly when the background has more pixels than the input, INTER_CUBIC otherwise |
| ChromaKeying.Compatible | chromakeyer.cpp:61-79 | with the dummy sink only an image input over a non-image background is refused; a video input is refused exactly with an image sink |
| ChromaKeying.Resize | chromakeyer.cpp:97-98 | the resized background is a well-formed frame of exactly the requested size |
| ChromaKeying.LowByteOfKeys | chromakeyer.cpp:89 | the Escape test ignores bits above the low byte, and waitKey's -1 is never Escape |
| ChromaKeying.CheckMediaTypes | chromakeyer.cpp:61-79 | passes exactly for compatible types: a video input needs a video or dummy sink; an image input needs an image background and an image or dummy sink; each violation raises its own message, in the order tested |
| ChromaKeying.Step | chromakeyer.cpp:89-110 | a pass that produces a frame produces a well-formed one, uses up one input frame, and records the key read after it |
| ChromaKeying.Run | chromakeyer.cpp:89-110 | the loop shows at most as many frames as the input can deliver, all well-formed |
| ChromaKeying.StepFails | chromakeyer.cpp:89 | the input is read before the key is tested: a failing input read raises even when Escape was pressed |
| ChromaKeying.StepEnds | chromakeyer.cpp:89 | an input read that reports false, or a previous key of Escape, ends the loop normally before the background is read |
| ChromaKeying.StepBackgroundFails | chromakeyer.cpp:94 | a failing background read raises and ends the loop |
| ChromaKeying.StepEmits | chromakeyer.cpp:94-104 | otherwise the pass keys the input frame over the background, resized to its size with the interpolation chosen by pixel count, and moves both sources on |
| ChromaKeying.RunEmits | chromakeyer.cpp:89-110 | a pass that produces a frame puts it in front of the frames of the rest of the run |
| ChromaKeying.OpenSources | chromakeyer.cpp:54-55 | the input, not looped, then the background, looped, fresh and apart, or the first error |
| ChromaKeying.Open | chromakeyer.cpp:54-79 | the two sources and the sink for the set-up frame size, fresh and apart, with the media types checked before any frame is read, or the first error |
| ChromaKeying.Setup | chromakeyer.cpp:54-79 | a failing reader creation, then a failing writer creation, raises its own error first; after both succeed the set-up succeeds exactly for compatible types, with those sources and that sink, and otherwise raises the media type check's message |
| ChromaKeying.SetupSound | chromakeyer.cpp:54-79 | a successful opening phase consists of successful reader and writer creations whose types are compatible |
| ChromaKeying.InitialRemaining | chromakeyer.cpp:54 | a fresh input can deliver one picture, or every frame of its stream |
| ChromaKeying.KeyOutSpec | chromakeyer.cpp:50-113 | a file sink receives exactly the frames shown and the dummy sink none; an image input shows at most one frame; a video input shows at most its frame count |
| ChromaKeying.PixelIndexInBounds | chromakeyer.cpp:45 | the pixel under a cursor inside the frame lies inside the pixel buffer |
| ChromaKeying.ChromaKeyer.constructor | chromakeyer.h:11-31 | the default parameters 12, 2 and 40, no colour chosen yet, empty frames |
| ChromaKeying.ChromaKeyer.OnMouse | chromakeyer.cpp:38-48 | releasing the left button picks the colour of the pixel under the cursor and marks the parameters set; other events change nothing |
| ChromaKeying.ChromaKeyer.KeyOut | chromakeyer.cpp:50-113 | the outcome, the frames shown and the frames written are those of KeyOutSpec, from the keyer's state at the call |
| ChromaKeying.ChromaKeyer.FrameLoop | chromakeyer.cpp:88-110 | the loop's outcome and shown frames are Run from the opened sources; the sink received exactly the shown frames, or none when it is the dummy |
| ChromaKeying.ChromaKeyer.Round | chromakeyer.cpp:89-110 | one pass does what Step says: it raises, ends, or writes exactly one keyed frame to the sink after exactly one background read |
| ChromaKeying.ChromaKeyer.ReadInput | chromakeyer.cpp:89 | the input is read into inputFrameBGR, then the previous key is tested |
| ChromaKeying.ChromaKeyer.KeyBackground | chromakeyer.cpp:94-104 | the background is read, resized into backgroundBGR, keyed and written to the sink |
| ChromaKeying.ChromaKeyer.KeyOutFrame | chromakeyer.cpp:115-188 | frames of different sizes raise the size assertion; otherwise outputFrameBGR becomes the keyed frame and is returned |
| ChromaKeying.ChromaKeyer.PrepareMask | chromakeyer.cpp:119-168 | the float buffers, the HSV input and the softened mask of the input frame |
| ChromaKeying.ChromaKeyer.HueMask | chromakeyer.cpp:133-160 | the primary band or-ed with the wrap band give the 0/1 mask of the keying rule |
| ChromaKeying.ChromaKeyer.Soften | chromakeyer.cpp:162-168 | dilation then blur with side 2·softness + 1, only when softness is positive |
| ChromaKeying.HsvStage | chromakeyer.cpp:121-125 | the float conversion followed by cvtColor gives the frame's HSV pixels |
| ChromaKeying.PrimaryMaskStage | chromakeyer.cpp:139 | with no wrap band, inRange scaled to 0..1 is the binary key mask |
| ChromaKeying.WrappedMaskStage | chromakeyer.cpp:143-157 | with a wrap band, the or of both inRange masks scaled to 0..1 is the binary key mask |
| ChromaKeying.CompositeStage | chromakeyer.cpp:170-185 | merge, multiply, invert, multiply, add and scale give the composite of the two frames |
| ChromaKeying.CompositePixel | chromakeyer.cpp:175-182 | one pixel of that buffer arithmetic is bg·m + fg·(1−m) per channel |
| Sessions.VideoPass | chromakeyer.cpp:89-104 | a pass over a video before its end keys frame pos over the first replayed background frame and moves both sources on by one |
| Sessions.VideoSession | chromakeyer.cpp:89-110 | a non-looped video from pos, over a replayable background, with Escape never pressed: every remaining frame is keyed, in order, over the matching replayed background frame, and the loop ends normally |
| Sessions.UndecodableImageSession | chromakeyer.cpp:89 | an input image that does not decode raises on the first read, with nothing shown |
| Sessions.ImageSession | chromakeyer.cpp:89-110 | an input image that decodes shows exactly one frame, the picture keyed over the background, and the loop ends normally |
| Sessions.EscapeStopsAtOnce | chromakeyer.cpp:89 | after Escape the loop shows nothing more |
| Sessions.EscapeBound | chromakeyer.cpp:89-110 | Escape pressed after frame j leaves at most the frames up to j shown |
| Sessions.KeyOutMismatch | chromakeyer.cpp:61-79 | incompatible media types raise the check's message before any frame is read or written |
| Sessions.InitialReplayable | chromakeyer.cpp:55 | a looped background whose picture decodes, or whose stream is non-empty, replays forever |
| Sessions.KeyOutVideo | chromakeyer.cpp:50-113 | keyOut on a video of F frames over a background that decodes, with Escape never pressed, ends normally after keying all F frames in order; the same frames are written unless the sink is the dummy |

## Left out

- The OpenCV kernels are parameters of the model, not definitions: cvtColor BGR→HSV, dilate, GaussianBlur and the resize resampler. They contribute only their shapes.
- Keying.SoftenedMask: does not state that the softened mask stays in 0..1. That depends on dilate and GaussianBlur, which are abstract here.
- Floating point: normalized values are `real`. The final conversion to bytes is modelled as cvRound (half to even) followed by saturation. float32 rounding is not modelled, so the exact reproduction of foreground and background is a statement about reals.
- The conversion of the key colour to HSV (chromakeyer.cpp:83-86) is the same abstract `toHsv`, applied to the normalized colour.
- setUp, the window, trackbars, imshow, destroyWindow and the destructor are not modelled: they are GUI plumbing. cv::waitKey becomes the keystroke sequence `keys`, and its delay (10 ms, or 0 for an image input) is not modelled.
- File I/O and codecs are the value `Env`: existence, decoders, encoders, decoded pictures and the frame sequence of each stream. They do not change during a run.
- The frames a file writer encodes are not modelled; the sink records the frames it is handed. imagefilewriter.cpp and videofilewriter.cpp are not part of this model. VideoFileWriter is not checked for an opened writer, as its header does not check it either.
- Webcam is declared in the source enum but has no reader. The media type check passes for it, as the code's empty else branch does.
- main.cpp's argument handling and repeat loop, and submission.cpp, are not part of this model.
- The mouse callback's data pointer and its null assertion become the method's receiver.
- `keyOut` is entered with the parameters set and in range; its `assert(this->paramsSet)` and the range assertions of keyOutFrame are preconditions.
- ChromaKeying.ChromaKeyer.KeyOutFrame: holds the matrix buffers as sequences rather than cv::Mat objects that share storage. The model cannot express aliasing between them, although the source does not rely on it.

## Behaviour at the edges

- The extra hue band is added only under the paired conditions the code tests: lower < 0 with upper < 360, or lower > 0 with upper > 360. A band that ends exactly at 0 or 360 gets no wrap band. Keying.BoundaryHueUnmatched shows the consequence.
- Escape is tested only after the next input read, not right after the frame on which it was pressed. That read still happens and can raise (ChromaKeying.StepFails).
