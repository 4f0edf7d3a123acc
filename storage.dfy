/**
 * Storage: the file system and codec registry the media classes consult.
 * The model treats it as a value handed to every operation that touches a file;
 * it does not change during one run.
 */
module Storage {
  import opened Wrappers
  import opened Frames

  /** What the libraries would find behind one existing path. */
  datatype FileEntry = FileEntry(
    imageDecoder: bool,          // cv::haveImageReader: a decoder recognises the file
    image: Option<Image>,        // cv::imread: the decoded picture, None for an empty result
    video: Option<seq<Image>>    // cv::VideoCapture::open: the frames of the stream, None if it cannot be opened
  )

  datatype Env = Env(files: map<string, FileEntry>, imageEncoders: set<string>)

  /** The exceptions the core raises: std::runtime_error and failed CV_Assert checks. */
  datatype Error = RuntimeError(message: string) | AssertionFailed(expression: string)

  /** std::filesystem::exists */
  predicate Exists(env: Env, path: string) { path in env.files }

  /** cv::haveImageReader */
  predicate HaveImageReader(env: Env, path: string) { path in env.files && env.files[path].imageDecoder }

  /** cv::haveImageWriter */
  predicate HaveImageWriter(env: Env, path: string) { path in env.imageEncoders }

  /** cv::imread(path, IMREAD_COLOR); None stands for the empty matrix it returns on failure. */
  function Imread(env: Env, path: string): Option<Image>
  {
    if path in env.files then env.files[path].image else None
  }

  /** The frames a freshly opened cv::VideoCapture delivers, or None when opening fails. */
  function OpenStream(env: Env, path: string): Option<seq<Image>>
  {
    if path in env.files then env.files[path].video else None
  }
}
