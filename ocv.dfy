/**
 * CheckFrame: whether an OpenCV frame fits the stream options.  A cv::Mat is
 * reduced to what the check looks at: emptiness, columns, rows and type.
 */
module Ocv {
  import opened Common
  import StreamOptions

  datatype Mat = Mat(empty: bool, cols: int, rows: int, matType: int)

  /** CV_8UC1, CV_8UC3 and CV_8UC4: CV_MAKETYPE(CV_8U, cn) == (cn - 1) << 3. */
  const CV_8UC1: int := 0
  const CV_8UC3: int := 16
  const CV_8UC4: int := 24

  /** The int to uint32_t conversion of `frame.cols != options.width`. */
  function AsU32(x: int): u32
  {
    x % U32Mod
  }

  /** The Mat type required for a channel count, when there is one. */
  function TypeForChannels(channels: u32): Option<int>
  {
    if channels == 1 then Some(CV_8UC1)
    else if channels == 3 then Some(CV_8UC3)
    else if channels == 4 then Some(CV_8UC4)
    else None
  }

  /**
   * CheckFrame: true exactly when the frame is not empty, has the options'
   * size and has the 8-bit type of the options' channel count, which must be
   * 1, 3 or 4.
   */
  function CheckFrame(frame: Mat, options: StreamOptions.Options): (ok: bool)
    ensures ok <==> !frame.empty && AsU32(frame.cols) == options.width && AsU32(frame.rows) == options.height &&
                    TypeForChannels(options.channels) == Some(frame.matType)
    ensures frame.empty ==> !ok
    ensures options.channels != 1 && options.channels != 3 && options.channels != 4 ==> !ok
  {
    if frame.empty then false
    else if AsU32(frame.cols) != options.width || AsU32(frame.rows) != options.height then false
    else if options.channels == 3 && frame.matType != CV_8UC3 then false
    else if options.channels == 1 && frame.matType != CV_8UC1 then false
    else if options.channels == 4 && frame.matType != CV_8UC4 then false
    else if options.channels != 1 && options.channels != 3 && options.channels != 4 then false
    else true
  }

  /** For a frame of non-negative size the comparisons are the plain ones. */
  lemma CheckFrameSize(frame: Mat, options: StreamOptions.Options)
    requires 0 <= frame.cols < U32Mod && 0 <= frame.rows < U32Mod
    ensures CheckFrame(frame, options) ==> frame.cols == options.width && frame.rows == options.height
  {
  }
}
