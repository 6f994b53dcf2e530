/**
 * The option enumerations of a stream with their name codecs (every
 * *ToStr switch and the *FromStr search over ordinals that inverts it), and
 * the StreamOptions record with the values its constructor gives it.
 */
module StreamOptions {
  import opened Common
  import StreamUri

  // ---------------------------------------------------------------------
  // StreamIoType
  // ---------------------------------------------------------------------

  datatype StreamIoType = IoInput | IoOutput

  function IoTypes(): seq<StreamIoType> { [IoInput, IoOutput] }

  /** static_cast<int>: the ordinal of a value. */
  function IoTypeOrdinal(t: StreamIoType): (n: nat)
    ensures n < |IoTypes()| && IoTypes()[n] == t
  {
    match t case IoInput => 0 case IoOutput => 1
  }

  function IoTypeToStr(t: StreamIoType): string
  {
    match t case IoInput => "input" case IoOutput => "output"
  }

  function IoTypeOf(str: Option<string>): StreamIoType
  {
    FromStr(str, IoTypes(), IoTypeToStr, IoInput)
  }

  /** StreamIoTypeFromStr. */
  method IoTypeFromStr(str: Option<string>) returns (t: StreamIoType)
    ensures t == IoTypeOf(str)
  {
    if str.None? {
      return IoInput;
    }
    var n := SearchByName(str.value, IoTypes(), IoTypeToStr);
    if n.Some? {
      return IoTypes()[n.value];
    }
    return IoInput;
  }

  lemma IoTypeNamesDistinct()
    ensures forall i, j :: 0 <= i < j < |IoTypes()| ==> Distinguished(IoTypeToStr(IoTypes()[i]), IoTypeToStr(IoTypes()[j]))
  {
    var names := ["input", "output"];
    assert forall i :: 0 <= i < 2 ==> IoTypeToStr(IoTypes()[i]) == names[i];
  }

  /** Every I/O type survives ToStr then FromStr. */
  lemma IoTypeRoundTrip(t: StreamIoType)
    ensures IoTypeOf(Some(IoTypeToStr(t))) == t
  {
    IoTypeNamesDistinct();
    FromStrOfName(IoTypes(), IoTypeToStr, IoInput, IoTypeOrdinal(t));
  }

  // ---------------------------------------------------------------------
  // StreamIoMethod
  // ---------------------------------------------------------------------

  datatype StreamIoMethod = IoMethodUnknown | IoMethodRead | IoMethodMmap | IoMethodUserptr

  function IoMethods(): seq<StreamIoMethod> { [IoMethodUnknown, IoMethodRead, IoMethodMmap, IoMethodUserptr] }

  function IoMethodOrdinal(t: StreamIoMethod): (n: nat)
    ensures n < |IoMethods()| && IoMethods()[n] == t
  {
    match t case IoMethodUnknown => 0 case IoMethodRead => 1 case IoMethodMmap => 2 case IoMethodUserptr => 3
  }

  function IoMethodToStr(t: StreamIoMethod): string
  {
    match t
    case IoMethodUnknown => "unknown"
    case IoMethodRead => "read"
    case IoMethodMmap => "mmap"
    case IoMethodUserptr => "userptr"
  }

  /**
   * StreamIoMethodFromStr as written: the search loop has no return after
   * it, so an unmatched string reaches the end of a function returning a
   * value (None here: no value is defined).
   */
  function IoMethodOfAsWritten(str: Option<string>): (r: Option<StreamIoMethod>)
    ensures str.None? ==> r == Some(IoMethodUnknown)
    ensures str.Some? ==> (r.None? <==> FirstMatch(str.value, IoMethods(), IoMethodToStr, 0).None?)
  {
    if str.None? then Some(IoMethodUnknown)
    else match FirstMatch(str.value, IoMethods(), IoMethodToStr, 0)
      case None => None
      case Some(n) => Some(IoMethods()[n])
  }

  /** A name of no I/O method, such as "dmabuf", leaves the as-written function without a result. */
  lemma IoMethodFallsOffEnd()
    ensures IoMethodOfAsWritten(Some("dmabuf")).None?
  {
    forall j | 0 <= j < |IoMethods()|
      ensures !EqualsIgnoreCase("dmabuf", IoMethodToStr(IoMethods()[j]))
    {
      DistinguishedApart("dmabuf", IoMethodToStr(IoMethods()[j]));
    }
  }

  /** StreamIoMethodFromStr as intended: IO_METHOD_UNKNOWN for nullptr and for no match. */
  function IoMethodOf(str: Option<string>): StreamIoMethod
  {
    FromStr(str, IoMethods(), IoMethodToStr, IoMethodUnknown)
  }

  /** The intended function agrees with the as-written one wherever that one has a result. */
  lemma IoMethodOfExtendsAsWritten(str: Option<string>)
    ensures IoMethodOfAsWritten(str).Some? ==> IoMethodOfAsWritten(str).value == IoMethodOf(str)
    ensures IoMethodOfAsWritten(str).None? ==> IoMethodOf(str) == IoMethodUnknown
  {
  }

  /** StreamIoMethodFromStr, with the missing final return of IO_METHOD_UNKNOWN. */
  method IoMethodFromStr(str: Option<string>) returns (t: StreamIoMethod)
    ensures t == IoMethodOf(str)
  {
    if str.None? {
      return IoMethodUnknown;
    }
    var n := SearchByName(str.value, IoMethods(), IoMethodToStr);
    if n.Some? {
      return IoMethods()[n.value];
    }
    return IoMethodUnknown;
  }

  lemma IoMethodNamesDistinct()
    ensures forall i, j :: 0 <= i < j < |IoMethods()| ==> Distinguished(IoMethodToStr(IoMethods()[i]), IoMethodToStr(IoMethods()[j]))
  {
    var names := ["unknown", "read", "mmap", "userptr"];
    assert forall i :: 0 <= i < 4 ==> IoMethodToStr(IoMethods()[i]) == names[i];
  }

  /** Every I/O method survives ToStr then FromStr, already as written. */
  lemma IoMethodRoundTrip(t: StreamIoMethod)
    ensures IoMethodOfAsWritten(Some(IoMethodToStr(t))) == Some(t)
    ensures IoMethodOf(Some(IoMethodToStr(t))) == t
  {
    IoMethodNamesDistinct();
    FromStrOfName(IoMethods(), IoMethodToStr, IoMethodUnknown, IoMethodOrdinal(t));
  }

  // ---------------------------------------------------------------------
  // StreamDeviceType
  // ---------------------------------------------------------------------

  datatype StreamDeviceType = DeviceDefault | DeviceV4l2 | DeviceCsi | DeviceIp | DeviceFile | DeviceDisplay

  function DeviceTypes(): seq<StreamDeviceType>
  {
    [DeviceDefault, DeviceV4l2, DeviceCsi, DeviceIp, DeviceFile, DeviceDisplay]
  }

  function DeviceTypeOrdinal(t: StreamDeviceType): (n: nat)
    ensures n < |DeviceTypes()| && DeviceTypes()[n] == t
  {
    match t
    case DeviceDefault => 0 case DeviceV4l2 => 1 case DeviceCsi => 2
    case DeviceIp => 3 case DeviceFile => 4 case DeviceDisplay => 5
  }

  function DeviceTypeToStr(t: StreamDeviceType): string
  {
    match t
    case DeviceDefault => "default"
    case DeviceV4l2 => "v4l2"
    case DeviceCsi => "csi"
    case DeviceIp => "ip"
    case DeviceFile => "file"
    case DeviceDisplay => "display"
  }

  function DeviceTypeOf(str: Option<string>): StreamDeviceType
  {
    FromStr(str, DeviceTypes(), DeviceTypeToStr, DeviceDefault)
  }

  /** StreamDeviceTypeFromStr. */
  method DeviceTypeFromStr(str: Option<string>) returns (t: StreamDeviceType)
    ensures t == DeviceTypeOf(str)
  {
    if str.None? {
      return DeviceDefault;
    }
    var n := SearchByName(str.value, DeviceTypes(), DeviceTypeToStr);
    if n.Some? {
      return DeviceTypes()[n.value];
    }
    return DeviceDefault;
  }

  lemma DeviceTypeNamesDistinct()
    ensures forall i, j :: 0 <= i < j < |DeviceTypes()| ==>
              Distinguished(DeviceTypeToStr(DeviceTypes()[i]), DeviceTypeToStr(DeviceTypes()[j]))
  {
    var names := ["default", "v4l2", "csi", "ip", "file", "display"];
    assert forall i :: 0 <= i < 6 ==> DeviceTypeToStr(DeviceTypes()[i]) == names[i];
    assert forall i, j :: 0 <= i < j < 6 ==> Distinguished(names[i], names[j]);
  }

  /** Every device type survives ToStr then FromStr. */
  lemma DeviceTypeRoundTrip(t: StreamDeviceType)
    ensures DeviceTypeOf(Some(DeviceTypeToStr(t))) == t
  {
    DeviceTypeNamesDistinct();
    FromStrOfName(DeviceTypes(), DeviceTypeToStr, DeviceDefault, DeviceTypeOrdinal(t));
  }

  // ---------------------------------------------------------------------
  // StreamFlipMethod
  // ---------------------------------------------------------------------

  datatype StreamFlipMethod =
    | FlipNone | FlipCounterclockwise | FlipRotate180 | FlipClockwise
    | FlipHorizontal | FlipUpperRightDiagonal | FlipVertical | FlipUpperLeftDiagonal

  function FlipMethods(): seq<StreamFlipMethod>
  {
    [FlipNone, FlipCounterclockwise, FlipRotate180, FlipClockwise,
     FlipHorizontal, FlipUpperRightDiagonal, FlipVertical, FlipUpperLeftDiagonal]
  }

  function FlipMethodOrdinal(t: StreamFlipMethod): (n: nat)
    ensures n < |FlipMethods()| && FlipMethods()[n] == t
  {
    match t
    case FlipNone => 0 case FlipCounterclockwise => 1 case FlipRotate180 => 2 case FlipClockwise => 3
    case FlipHorizontal => 4 case FlipUpperRightDiagonal => 5 case FlipVertical => 6 case FlipUpperLeftDiagonal => 7
  }

  function FlipMethodToStr(t: StreamFlipMethod): string
  {
    match t
    case FlipNone => "none"
    case FlipCounterclockwise => "counterclockwise"
    case FlipRotate180 => "rotate-180"
    case FlipClockwise => "clockwise"
    case FlipHorizontal => "horizontal"
    case FlipUpperRightDiagonal => "upper-right-diagonal"
    case FlipVertical => "vertical"
    case FlipUpperLeftDiagonal => "upper-left-diagonal"
  }

  function FlipMethodOf(str: Option<string>): StreamFlipMethod
  {
    FromStr(str, FlipMethods(), FlipMethodToStr, FlipNone)
  }

  /** StreamFlipMethodFromStr. */
  method FlipMethodFromStr(str: Option<string>) returns (t: StreamFlipMethod)
    ensures t == FlipMethodOf(str)
  {
    if str.None? {
      return FlipNone;
    }
    var n := SearchByName(str.value, FlipMethods(), FlipMethodToStr);
    if n.Some? {
      return FlipMethods()[n.value];
    }
    return FlipNone;
  }

  lemma FlipMethodNamesDistinct()
    ensures forall i, j :: 0 <= i < j < |FlipMethods()| ==>
              Distinguished(FlipMethodToStr(FlipMethods()[i]), FlipMethodToStr(FlipMethods()[j]))
  {
    var names := ["none", "counterclockwise", "rotate-180", "clockwise",
                  "horizontal", "upper-right-diagonal", "vertical", "upper-left-diagonal"];
    assert forall i :: 0 <= i < 8 ==> FlipMethodToStr(FlipMethods()[i]) == names[i];
    assert forall i, j :: 0 <= i < j < 8 ==> Distinguished(names[i], names[j]);
  }

  /** Every flip method survives ToStr then FromStr. */
  lemma FlipMethodRoundTrip(t: StreamFlipMethod)
    ensures FlipMethodOf(Some(FlipMethodToStr(t))) == t
  {
    FlipMethodNamesDistinct();
    FromStrOfName(FlipMethods(), FlipMethodToStr, FlipNone, FlipMethodOrdinal(t));
  }

  // ---------------------------------------------------------------------
  // StreamCodec
  // ---------------------------------------------------------------------

  datatype StreamCodec =
    | CodecUnknown | CodecRaw | CodecH264 | CodecH265 | CodecVp8 | CodecVp9
    | CodecMpeg2 | CodecMpeg4 | CodecMjpeg

  function Codecs(): seq<StreamCodec>
  {
    [CodecUnknown, CodecRaw, CodecH264, CodecH265, CodecVp8, CodecVp9, CodecMpeg2, CodecMpeg4, CodecMjpeg]
  }

  function CodecOrdinal(t: StreamCodec): (n: nat)
    ensures n < |Codecs()| && Codecs()[n] == t
  {
    match t
    case CodecUnknown => 0 case CodecRaw => 1 case CodecH264 => 2 case CodecH265 => 3 case CodecVp8 => 4
    case CodecVp9 => 5 case CodecMpeg2 => 6 case CodecMpeg4 => 7 case CodecMjpeg => 8
  }

  function CodecToStr(t: StreamCodec): string
  {
    match t
    case CodecUnknown => "unknown"
    case CodecRaw => "raw"
    case CodecH264 => "h264"
    case CodecH265 => "h265"
    case CodecVp8 => "vp8"
    case CodecVp9 => "vp9"
    case CodecMpeg2 => "mpeg2"
    case CodecMpeg4 => "mpeg4"
    case CodecMjpeg => "mjpeg"
  }

  function CodecOf(str: Option<string>): StreamCodec
  {
    FromStr(str, Codecs(), CodecToStr, CodecUnknown)
  }

  /** StreamCodecFromStr. */
  method CodecFromStr(str: Option<string>) returns (t: StreamCodec)
    ensures t == CodecOf(str)
  {
    if str.None? {
      return CodecUnknown;
    }
    var n := SearchByName(str.value, Codecs(), CodecToStr);
    if n.Some? {
      return Codecs()[n.value];
    }
    return CodecUnknown;
  }

  lemma CodecNamesDistinct()
    ensures forall i, j :: 0 <= i < j < |Codecs()| ==> Distinguished(CodecToStr(Codecs()[i]), CodecToStr(Codecs()[j]))
  {
    var names := ["unknown", "raw", "h264", "h265", "vp8", "vp9", "mpeg2", "mpeg4", "mjpeg"];
    assert forall i :: 0 <= i < 9 ==> CodecToStr(Codecs()[i]) == names[i];
    assert forall i, j :: 0 <= i < j < 9 ==> Distinguished(names[i], names[j]);
  }

  /** Every codec survives ToStr then FromStr. */
  lemma CodecRoundTrip(t: StreamCodec)
    ensures CodecOf(Some(CodecToStr(t))) == t
  {
    CodecNamesDistinct();
    FromStrOfName(Codecs(), CodecToStr, CodecUnknown, CodecOrdinal(t));
  }

  // ---------------------------------------------------------------------
  // StreamPixelFormat
  // ---------------------------------------------------------------------

  datatype StreamPixelFormat =
    | PixelUnknown | PixelRgb | PixelRgb16 | PixelRgba | PixelRgba16 | PixelBgr | PixelBgr16
    | PixelBgra | PixelBgra16 | PixelGray8 | PixelGray16Le | PixelYuyv | PixelUyvy | PixelMjpeg
    | PixelYuvMono10 | PixelNv12

  function PixelFormats(): seq<StreamPixelFormat>
  {
    [PixelUnknown, PixelRgb, PixelRgb16, PixelRgba, PixelRgba16, PixelBgr, PixelBgr16,
     PixelBgra, PixelBgra16, PixelGray8, PixelGray16Le, PixelYuyv, PixelUyvy, PixelMjpeg,
     PixelYuvMono10, PixelNv12]
  }

  function PixelFormatOrdinal(t: StreamPixelFormat): (n: nat)
    ensures n < |PixelFormats()| && PixelFormats()[n] == t
  {
    match t
    case PixelUnknown => 0 case PixelRgb => 1 case PixelRgb16 => 2 case PixelRgba => 3
    case PixelRgba16 => 4 case PixelBgr => 5 case PixelBgr16 => 6 case PixelBgra => 7
    case PixelBgra16 => 8 case PixelGray8 => 9 case PixelGray16Le => 10 case PixelYuyv => 11
    case PixelUyvy => 12 case PixelMjpeg => 13 case PixelYuvMono10 => 14 case PixelNv12 => 15
  }

  /** StreamPixelFormatToStr: UNKNOWN and NV12 have no case and fall to "BGR". */
  function PixelFormatToStr(t: StreamPixelFormat): string
  {
    match t
    case PixelRgb => "RGB"
    case PixelRgb16 => "RGB16"
    case PixelRgba => "RGBA"
    case PixelRgba16 => "RGBA16"
    case PixelBgr => "BGR"
    case PixelBgr16 => "BGR16"
    case PixelBgra => "BGRA"
    case PixelBgra16 => "BGRA16"
    case PixelGray8 => "GRAY8"
    case PixelGray16Le => "GRAY16_LE"
    case PixelYuyv => "YUYV"
    case PixelUyvy => "UYVY"
    case PixelMjpeg => "MJPEG"
    case PixelYuvMono10 => "YUVMONO10"
    case _ => "BGR"
  }

  function PixelFormatOf(str: Option<string>): StreamPixelFormat
  {
    FromStr(str, PixelFormats(), PixelFormatToStr, PixelUnknown)
  }

  /** StreamPixelFormatFromStr. */
  method PixelFormatFromStr(str: Option<string>) returns (t: StreamPixelFormat)
    ensures t == PixelFormatOf(str)
  {
    if str.None? {
      return PixelUnknown;
    }
    var n := SearchByName(str.value, PixelFormats(), PixelFormatToStr);
    if n.Some? {
      return PixelFormats()[n.value];
    }
    return PixelUnknown;
  }

  /** What PixelFormatToStr gives for ordinals 0 .. 14. */
  function PixelFormatNames(): seq<string>
  {
    ["BGR", "RGB", "RGB16", "RGBA", "RGBA16", "BGR", "BGR16", "BGRA", "BGRA16",
     "GRAY8", "GRAY16_LE", "YUYV", "UYVY", "MJPEG", "YUVMONO10"]
  }

  lemma PixelFormatNamesAt()
    ensures forall i :: 0 <= i < 15 ==> PixelFormatToStr(PixelFormats()[i]) == PixelFormatNames()[i]
  {
  }

  lemma PixelFormatNamesApart(k: nat)
    requires k < 15 && k != 5
    ensures forall j :: 0 <= j < k ==> Distinguished(PixelFormatNames()[j], PixelFormatNames()[k])
  {
  }

  /** The name of ordinal k (1..14, not BGR) differs from the name of every lower ordinal. */
  lemma PixelFormatNamesDistinct(k: nat)
    requires k < 15 && k != 5
    ensures forall j :: 0 <= j < k ==> Distinguished(PixelFormatToStr(PixelFormats()[j]), PixelFormatToStr(PixelFormats()[k]))
  {
    PixelFormatNamesAt();
    PixelFormatNamesApart(k);
  }

  /** Every pixel format but BGR and NV12 survives ToStr then FromStr. */
  lemma PixelFormatRoundTrip(t: StreamPixelFormat)
    requires t != PixelBgr && t != PixelNv12
    ensures PixelFormatOf(Some(PixelFormatToStr(t))) == t
  {
    PixelFormatNamesDistinct(PixelFormatOrdinal(t));
    FromStrOfName(PixelFormats(), PixelFormatToStr, PixelUnknown, PixelFormatOrdinal(t));
  }

  /** "BGR" is UNKNOWN's name too, and UNKNOWN comes first: BGR and NV12 come back as UNKNOWN. */
  lemma PixelFormatBgrCollapse()
    ensures PixelFormatToStr(PixelBgr) == PixelFormatToStr(PixelUnknown) == PixelFormatToStr(PixelNv12) == "BGR"
    ensures PixelFormatOf(Some("BGR")) == PixelUnknown
    ensures PixelFormatOf(Some(PixelFormatToStr(PixelBgr))) != PixelBgr
    ensures PixelFormatOf(Some(PixelFormatToStr(PixelNv12))) != PixelNv12
  {
    EqualsIgnoreCaseReflexive("BGR");
  }

  // ---------------------------------------------------------------------
  // StreamPlatformType
  // ---------------------------------------------------------------------

  datatype StreamPlatformType = PlatformCpu | PlatformGpu | PlatformJetson | PlatformRockchip

  function PlatformTypes(): seq<StreamPlatformType> { [PlatformCpu, PlatformGpu, PlatformJetson, PlatformRockchip] }

  function PlatformTypeOrdinal(t: StreamPlatformType): (n: nat)
    ensures n < |PlatformTypes()| && PlatformTypes()[n] == t
  {
    match t case PlatformCpu => 0 case PlatformGpu => 1 case PlatformJetson => 2 case PlatformRockchip => 3
  }

  /** StreamPlatformTypeToStr: CPU is spelt "cput", and ROCKCHIP falls to the default "cpu". */
  function PlatformTypeToStr(t: StreamPlatformType): string
  {
    match t
    case PlatformCpu => "cput"
    case PlatformGpu => "gpu"
    case PlatformJetson => "jetson"
    case _ => "cpu"
  }

  function PlatformTypeOf(str: Option<string>): StreamPlatformType
  {
    FromStr(str, PlatformTypes(), PlatformTypeToStr, PlatformCpu)
  }

  /** StreamPlatformTypeFromStr. */
  method PlatformTypeFromStr(str: Option<string>) returns (t: StreamPlatformType)
    ensures t == PlatformTypeOf(str)
  {
    if str.None? {
      return PlatformCpu;
    }
    var n := SearchByName(str.value, PlatformTypes(), PlatformTypeToStr);
    if n.Some? {
      return PlatformTypes()[n.value];
    }
    return PlatformCpu;
  }

  lemma PlatformTypeNamesDistinct()
    ensures forall i, j :: 0 <= i < j < |PlatformTypes()| ==>
              Distinguished(PlatformTypeToStr(PlatformTypes()[i]), PlatformTypeToStr(PlatformTypes()[j]))
  {
    var names := ["cput", "gpu", "jetson", "cpu"];
    assert forall i :: 0 <= i < 4 ==> PlatformTypeToStr(PlatformTypes()[i]) == names[i];
  }

  /** Every platform survives ToStr then FromStr. */
  lemma PlatformTypeRoundTrip(t: StreamPlatformType)
    ensures PlatformTypeOf(Some(PlatformTypeToStr(t))) == t
  {
    PlatformTypeNamesDistinct();
    FromStrOfName(PlatformTypes(), PlatformTypeToStr, PlatformCpu, PlatformTypeOrdinal(t));
  }

  /** The natural spelling "cpu" names ROCKCHIP, through the default case; "cput" names CPU. */
  lemma PlatformCpuSpelling()
    ensures PlatformTypeOf(Some("cpu")) == PlatformRockchip
    ensures PlatformTypeOf(Some("cput")) == PlatformCpu
  {
    PlatformTypeRoundTrip(PlatformRockchip);
    PlatformTypeRoundTrip(PlatformCpu);
  }

  // ---------------------------------------------------------------------
  // Case-insensitivity of every *FromStr
  // ---------------------------------------------------------------------

  /** Strings equal but for case name the same value of every option enumeration. */
  lemma OptionNamesIgnoreCase(s: string, t: string)
    requires EqualsIgnoreCase(s, t)
    ensures IoTypeOf(Some(s)) == IoTypeOf(Some(t))
    ensures IoMethodOf(Some(s)) == IoMethodOf(Some(t))
    ensures DeviceTypeOf(Some(s)) == DeviceTypeOf(Some(t))
    ensures FlipMethodOf(Some(s)) == FlipMethodOf(Some(t))
    ensures CodecOf(Some(s)) == CodecOf(Some(t))
    ensures PixelFormatOf(Some(s)) == PixelFormatOf(Some(t))
    ensures PlatformTypeOf(Some(s)) == PlatformTypeOf(Some(t))
  {
    FromStrIgnoresCase(s, t, IoTypes(), IoTypeToStr, IoInput);
    FromStrIgnoresCase(s, t, IoMethods(), IoMethodToStr, IoMethodUnknown);
    FromStrIgnoresCase(s, t, DeviceTypes(), DeviceTypeToStr, DeviceDefault);
    FromStrIgnoresCase(s, t, FlipMethods(), FlipMethodToStr, FlipNone);
    FromStrIgnoresCase(s, t, Codecs(), CodecToStr, CodecUnknown);
    FromStrIgnoresCase(s, t, PixelFormats(), PixelFormatToStr, PixelUnknown);
    FromStrIgnoresCase(s, t, PlatformTypes(), PlatformTypeToStr, PlatformCpu);
  }

  // ---------------------------------------------------------------------
  // StreamOptions
  // ---------------------------------------------------------------------

  /** CameraSourceOptions: -1 means "leave the driver's value". */
  datatype CameraOptions = CameraOptions(
    brightness: int, contrast: int, saturation: int, sharpness: int, gain: int,
    whiteBalance: int, exposure: int, focus: int,
    autoWhiteBalance: bool, autoExposure: bool, autoFocus: bool)

  datatype Options = Options(
    resource: StreamUri.Uri,
    width: u32, height: u32, channels: u32, frameRate: real, bitRate: u32, numBuffers: u32,
    zeroCopy: bool, loop: int, async: bool,
    deviceType: StreamDeviceType, ioType: StreamIoType, ioMethod: StreamIoMethod,
    flipMethod: StreamFlipMethod, codec: StreamCodec, pixelFormat: StreamPixelFormat,
    outputFormat: StreamPixelFormat, platform: StreamPlatformType, camera: CameraOptions)

  /** The member initialisers of CameraSourceOptions. */
  function DefaultCamera(): (c: CameraOptions)
    ensures c.brightness == c.contrast == c.saturation == c.sharpness == c.gain == -1
    ensures c.whiteBalance == c.exposure == c.focus == -1
    ensures !c.autoWhiteBalance && !c.autoExposure && !c.autoFocus
  {
    CameraOptions(-1, -1, -1, -1, -1, -1, -1, -1, false, false, false)
  }

  /**
   * StreamOptions(): the resource is a default StreamUri.  That constructor
   * and this one leave the resource's protocol and the platform unassigned;
   * whatever they hold is a parameter.
   */
  function DefaultOptions(protocol: StreamUri.StreamProtocolType, platform: StreamPlatformType): (o: Options)
    ensures o.resource == StreamUri.Uri("", protocol, "", "", -1, "")
    ensures o.width == 0 && o.height == 0 && o.channels == 3 && o.frameRate == 0.0 && o.bitRate == 0
    ensures o.numBuffers == 4 && o.loop == 0 && o.zeroCopy && !o.async
    ensures o.ioType == IoInput && o.ioMethod == IoMethodMmap && o.deviceType == DeviceDefault
    ensures o.flipMethod == FlipNone && o.codec == CodecUnknown
    ensures o.pixelFormat == PixelBgr && o.outputFormat == o.pixelFormat
    ensures o.platform == platform && o.camera == DefaultCamera()
  {
    Options(StreamUri.Uri("", protocol, "", "", -1, ""), 0, 0, 3, 0.0, 0, 4, true, 0, false,
            DeviceDefault, IoInput, IoMethodMmap, FlipNone, CodecUnknown, PixelBgr, PixelBgr, platform,
            DefaultCamera())
  }

  /** The default pixel and output format, BGR, does not survive being written out and read back. */
  lemma DefaultFormatByName(protocol: StreamUri.StreamProtocolType, platform: StreamPlatformType)
    ensures var o := DefaultOptions(protocol, platform);
            PixelFormatToStr(o.pixelFormat) == "BGR" && PixelFormatOf(Some(PixelFormatToStr(o.outputFormat))) == PixelUnknown
    ensures IoMethodOf(Some(IoMethodToStr(DefaultOptions(protocol, platform).ioMethod))) == IoMethodMmap
  {
    PixelFormatBgrCollapse();
    IoMethodRoundTrip(IoMethodMmap);
  }
}
