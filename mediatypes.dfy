/** The media kinds of the source and sink interfaces. */
module MediaTypes {

  /** MediaSource::MediaType. Webcam is declared by the interface but has no implementation. */
  datatype SourceType = ImageFile | VideoFile | Webcam

  /** MediaSink::MediaType. */
  datatype SinkType = ImageFile | VideoFile | Dummy
}
