/**
 * BaseStreamProcessor: the options a stream processor was initialised with
 * and whether it is streaming.
 */
module BaseStreamProcessor {
  import opened Common
  import StreamUri
  import StreamOptions

  class BaseStreamProcessor {
    var isStreaming: bool
    var options: StreamOptions.Options

    /**
     * The defaulted constructor: is_streaming_ is left uninitialised and the
     * options are a default StreamOptions (whose own unassigned fields are
     * parameters too).
     */
    constructor (streaming: bool, protocol: StreamUri.StreamProtocolType, platform: StreamOptions.StreamPlatformType)
      ensures isStreaming == streaming && options == StreamOptions.DefaultOptions(protocol, platform)
    {
      isStreaming := streaming;
      options := StreamOptions.DefaultOptions(protocol, platform);
    }

    /** Init stores a copy of the options and succeeds. */
    method Init(opts: StreamOptions.Options) returns (ok: bool)
      modifies this
      ensures ok && options == opts && isStreaming == old(isStreaming)
    {
      options := opts;
      return true;
    }

    /** Open starts streaming and succeeds. */
    method Open() returns (ok: bool)
      modifies this
      ensures ok && isStreaming && options == old(options)
    {
      isStreaming := true;
      return true;
    }

    /** Close stops streaming. */
    method Close()
      modifies this
      ensures !isStreaming && options == old(options)
    {
      isStreaming := false;
    }

    function IsStreaming(): bool
      reads this
    {
      isStreaming
    }

    function GetWidth(): u32
      reads this
    {
      options.width
    }

    function GetHeight(): u32
      reads this
    {
      options.height
    }

    /** The float frame rate converted to uint32_t, defined for 0 <= rate < 2^32. */
    function GetFrameRate(): (r: u32)
      reads this
      requires 0.0 <= options.frameRate < U32Mod as real
      ensures r as real <= options.frameRate < r as real + 1.0
    {
      options.frameRate.Floor
    }

    function GetResource(): StreamUri.Uri
      reads this
    {
      options.resource
    }

    function GetOptions(): StreamOptions.Options
      reads this
    {
      options
    }
  }

  /** The getters read back what Init stored, and IsStreaming follows the last Open or Close. */
  method InitOpenClose(p: BaseStreamProcessor, opts: StreamOptions.Options) returns (afterOpen: bool, afterClose: bool)
    modifies p
    ensures afterOpen && !afterClose
    ensures p.GetWidth() == opts.width && p.GetHeight() == opts.height && p.GetResource() == opts.resource
    ensures p.GetOptions() == opts
  {
    var ok := p.Init(opts);
    ok := p.Open();
    afterOpen := p.IsStreaming();
    p.Close();
    afterClose := p.IsStreaming();
  }
}
