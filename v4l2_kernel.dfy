/**
 * What the two V4L2 capture engines share: the constants of the Linux V4L2
 * API they use, the kernel seen as a fixed table of the answers a device
 * gives, the buffer slots of the pool, and the decision rules that both
 * copies implement with identical code (the camera controls to set, the
 * "buggy driver paranoia" on the negotiated format, the page rounding of
 * user-pointer buffers).
 */
module V4l2Kernel {
  import opened Common
  import opened StreamOptions
  import V4l2Info
  import PixelFormat
  import V4l2Util
  import Frame

  // ---------------------------------------------------------------------
  // Constants of linux/videodev2.h and errno.h
  // ---------------------------------------------------------------------

  /** V4L2_PIX_FMT_YUYV, UYVY, MJPEG, RGB24 and GREY: v4l2_fourcc codes. */
  const PixYuyv: u32 := 0x5659_5559
  const PixUyvy: u32 := 0x5956_5955
  const PixMjpeg: u32 := 0x4750_4A4D
  const PixRgb24: u32 := 0x3342_4752
  const PixGrey: u32 := 0x5945_5247

  /** The numeric codes are the four-character codes the API names them by. */
  lemma FourccCodes()
    ensures PixYuyv == V4l2Info.Fourcc('Y', 'U', 'Y', 'V') && V4l2Info.Fcc2s(PixYuyv) == "YUYV"
    ensures PixUyvy == V4l2Info.Fourcc('U', 'Y', 'V', 'Y') && V4l2Info.Fcc2s(PixUyvy) == "UYVY"
    ensures PixMjpeg == V4l2Info.Fourcc('M', 'J', 'P', 'G') && V4l2Info.Fcc2s(PixMjpeg) == "MJPG"
    ensures PixRgb24 == V4l2Info.Fourcc('R', 'G', 'B', '3') && V4l2Info.Fcc2s(PixRgb24) == "RGB3"
    ensures PixGrey == V4l2Info.Fourcc('G', 'R', 'E', 'Y') && V4l2Info.Fcc2s(PixGrey) == "GREY"
  {
    V4l2Info.Fcc2sFourcc('Y', 'U', 'Y', 'V');
    V4l2Info.Fcc2sFourcc('U', 'Y', 'V', 'Y');
    V4l2Info.Fcc2sFourcc('M', 'J', 'P', 'G');
    V4l2Info.Fcc2sFourcc('R', 'G', 'B', '3');
    V4l2Info.Fcc2sFourcc('G', 'R', 'E', 'Y');
  }

  /** V4L2_CAP_VIDEO_CAPTURE, V4L2_CAP_READWRITE and V4L2_CAP_STREAMING. */
  const CapVideoCapture: u32 := 0x0000_0001
  const CapReadWrite: u32 := 0x0100_0000
  const CapStreaming: u32 := 0x0400_0000

  const EINTR: int := 4
  const EIO: int := 5
  const EBADF: int := 9
  const EAGAIN: int := 11
  const EINVAL: int := 22

  // ---------------------------------------------------------------------
  // The device, as the answers it gives
  // ---------------------------------------------------------------------

  /** struct v4l2_pix_format, the fields the engines read back. */
  datatype PixFormat = PixFormat(width: u32, height: u32, bytesPerLine: u32, sizeImage: u32)

  /** The memory a VIDIOC_REQBUFS asks for. */
  datatype Memory = MemoryMmap | MemoryUserptr

  /** A VIDIOC_REQBUFS answer: the count granted, or the errno of the failure. */
  datatype Grant = Granted(count: nat) | Refused(errno: int)

  /**
   * The device at the configured location.  Every syscall and ioctl the
   * engines issue outside the per-frame path is answered from this table:
   * stat() and S_ISCHR, what open() returns, the QUERYCAP capabilities, the
   * format the driver settles on for a requested (width, height, fourcc),
   * whether G_PARM succeeds, the REQBUFS grant, the length QUERYBUF reports
   * for buffer i, whether mmap, QBUF and munmap of buffer i succeed, STREAMON,
   * STREAMOFF and close().  A descriptor of -1 makes every ioctl fail with
   * EBADF, whatever the table says.
   */
  datatype Device = Device(
    statOk: bool,
    isCharDevice: bool,
    openResult: Option<nat>,
    capabilities: Option<u32>,
    setFormat: (u32, u32, u32) -> Option<PixFormat>,
    getParmOk: bool,
    requestBuffers: (Memory, nat) -> Grant,
    queryBuffer: nat -> Option<nat>,
    mmapOk: nat -> bool,
    queueOk: nat -> bool,
    streamOnOk: bool,
    streamOffOk: bool,
    munmapOk: nat -> bool,
    closeOk: bool,
    pageSize: u32)

  /** The answer to select() on the descriptor. */
  datatype Select = Readable | Timeout | SelectFailed(errno: int)

  /** A VIDIOC_DQBUF answer: the buffer index, bytesused and timestamp, or an errno. */
  datatype Dequeue = Dequeued(index: nat, bytesUsed: nat, tvSec: int, tvUsec: int) | DequeueFailed(errno: int)

  /** A read() answer: the byte count, or an errno. */
  datatype ReadReply = ReadBytes(count: nat) | ReadFailed(errno: int)

  /**
   * What the kernel answers while one frame is fetched: select(), then the
   * read() (read i/o) or the VIDIOC_DQBUF (streaming i/o), then whether the
   * re-queueing VIDIOC_QBUF succeeds.  `frame` is the frame's bytes by
   * offset: read() copies them into the caller's buffer, and the driver has
   * written them into the buffer VIDIOC_DQBUF hands back.
   */
  datatype FrameEvent = FrameEvent(select: Select, read: ReadReply, dequeue: Dequeue, requeueOk: bool, frame: nat -> byte)

  /** A block after the kernel wrote the frame's first `count` bytes into it, as far as the block reaches. */
  function Delivered(block: seq<byte>, frame: nat -> byte, count: nat): (r: seq<byte>)
    ensures |r| == |block|
  {
    seq(|block|, i requires 0 <= i < |block| => if i < count then frame(i) else block[i])
  }

  /** Within the block, the first `count` bytes are the frame's and the rest are as they were. */
  lemma DeliveredFrame(block: seq<byte>, frame: nat -> byte, count: nat)
    requires count <= |block|
    ensures forall i :: 0 <= i < count ==> Delivered(block, frame, count)[i] == frame(i)
    ensures Delivered(block, frame, count)[count..] == block[count..]
  {
  }

  /** A buffer after memset(start, 0, n): its first `n` bytes zeroed, the rest as they were. */
  function Blank(block: seq<byte>, n: int): (r: seq<byte>)
    ensures |r| == |block|
    ensures forall i :: 0 <= i < |block| ==> r[i] == if i < n then 0 else block[i]
  {
    seq(|block|, i requires 0 <= i < |block| => if i < n then 0 else block[i])
  }

  /** memset(a, 0, n) for an `n` within the buffer. */
  method ZeroPrefix(a: array<byte>, n: int)
    requires n <= a.Length
    modifies a
    ensures a[..] == Blank(old(a[..]), n)
  {
    forall i | 0 <= i < n {
      a[i] := 0;
    }
  }

  /** The kernel's write of a frame into a buffer: read() into it, or the driver filling it before DQBUF returns it. */
  method Deliver(a: array<byte>, frame: nat -> byte, count: nat)
    modifies a
    ensures a[..] == Delivered(old(a[..]), frame, count)
  {
    forall i | 0 <= i < a.Length && i < count {
      a[i] := frame(i);
    }
  }

  /** The answers as the engine sees them: on a descriptor of -1 every request fails with EBADF. */
  function RequestAnswer(fd: int, dev: Device, m: Memory, count: nat): Grant
  {
    if fd < 0 then Refused(EBADF) else dev.requestBuffers(m, count)
  }

  function DequeueAnswer(fd: int, ev: FrameEvent): Dequeue
  {
    if fd < 0 then DequeueFailed(EBADF) else ev.dequeue
  }

  function ReadAnswer(fd: int, ev: FrameEvent): ReadReply
  {
    if fd < 0 then ReadFailed(EBADF) else ev.read
  }

  function Min(a: nat, b: nat): nat { if a <= b then a else b }

  /** The descriptor after close(fd): -1 on success; close(-1) fails. */
  function AfterClose(fd: int, dev: Device): int
  {
    if fd >= 0 && dev.closeOk then -1 else fd
  }

  /** The QUERYCAP bit the configured i/o method needs. */
  predicate IoSupported(caps: u32, io: StreamIoMethod)
  {
    match io
    case IoMethodRead => Meets(caps, CapReadWrite)
    case IoMethodMmap => Meets(caps, CapStreaming)
    case IoMethodUserptr => Meets(caps, CapStreaming)
    case IoMethodUnknown => false
  }

  // ---------------------------------------------------------------------
  // Buffer slots
  // ---------------------------------------------------------------------

  /**
   * Where a slot's `start` points: nowhere (the calloc'd zero), MAP_FAILED,
   * a mapping of a driver buffer, a heap block, or one of those after
   * munmap / free.
   */
  datatype Region =
    | NoMemory
    | MapFailed
    | Mapped(mem: array<byte>)
    | Unmapped(mem: array<byte>)
    | Heap(mem: array<byte>)
    | Freed(mem: array<byte>)
  {
    /** `start` points at memory that may be used. */
    predicate Live() { Mapped? || Heap? }

    /** `start` names a block (live or not). */
    predicate HasMem() { !NoMemory? && !MapFailed? }
  }

  /** One element of the buffers_ array. */
  datatype Slot = Slot(length: nat, region: Region)

  /** calloc leaves every element zeroed: no memory, length 0. */
  function EmptySlots(n: nat): (s: seq<Slot>)
    ensures |s| == n && forall i :: 0 <= i < n ==> s[i] == Slot(0, NoMemory)
  {
    seq(n, _ => Slot(0, NoMemory))
  }

  /** `b` is `a` after a call that may only release it: same length, same block (or none). */
  predicate SameBlock(a: Slot, b: Slot)
  {
    b.length == a.length && (b.region.HasMem() ==> a.region.HasMem() && b.region.mem == a.region.mem)
  }

  /**
   * free(start): nothing for a null pointer, the block released for a heap
   * block, undefined behaviour (None) for anything else: a block already
   * freed, a mapping, MAP_FAILED.
   */
  function Free(s: Slot): (r: Option<Slot>)
    ensures r.Some? <==> s.region.NoMemory? || s.region.Heap?
    ensures r.Some? ==> SameBlock(s, r.value) && !r.value.region.Live()
  {
    match s.region
    case NoMemory => Some(s)
    case Heap(a) => Some(Slot(s.length, Freed(a)))
    case _ => None
  }

  /** Freeing twice is undefined behaviour: the second free finds the block released. */
  lemma FreeTwice(s: Slot)
    requires s.region.Heap?
    ensures Free(s).Some? && Free(Free(s).value).None?
  {
  }

  /** munmap(start, length): a successful call turns a mapping into an unmapped range. */
  function Unmap(s: Slot, ok: bool): (r: Slot)
    ensures SameBlock(s, r)
    ensures ok && s.region.Mapped? ==> r.region == Unmapped(s.region.mem)
    ensures !(ok && s.region.Mapped?) ==> r == s
  {
    if ok && s.region.Mapped? then Slot(s.length, Unmapped(s.region.mem)) else s
  }

  /**
   * uninit_device's user-pointer (and, with n = 1, read) loop from slot
   * `from` on: free slots from..n-1 in order; None when a free is undefined
   * or the index runs past the calloc'd array.
   */
  function FreeFrom(pool: seq<Slot>, from: nat, n: nat): Option<seq<Slot>>
    decreases n - from
  {
    if from >= n then Some(pool)
    else if from >= |pool| then None
    else match Free(pool[from])
      case None => None
      case Some(s) => FreeFrom(pool[from := s], from + 1, n)
  }

  /** A completed free loop released exactly slots from..n-1 and kept every block. */
  lemma {:induction false} FreeFromReleases(pool: seq<Slot>, from: nat, n: nat)
    requires FreeFrom(pool, from, n).Some?
    ensures var r := FreeFrom(pool, from, n).value;
      |r| == |pool| && (from < n ==> n <= |pool|)
      && (forall j :: 0 <= j < |r| && from <= j < n ==> Free(pool[j]).Some? && r[j] == Free(pool[j]).value)
      && (forall j :: 0 <= j < |r| && !(from <= j < n) ==> r[j] == pool[j])
    decreases n - from
  {
    if from < n {
      var s := Free(pool[from]).value;
      var p := pool[from := s];
      FreeFromReleases(p, from + 1, n);
      var r := FreeFrom(pool, from, n).value;
      assert r == FreeFrom(p, from + 1, n).value;
      forall j | 0 <= j < |r| && from <= j < n
        ensures Free(pool[j]).Some? && r[j] == Free(pool[j]).value
      {
        if j == from { assert r[j] == p[j]; } else { assert p[j] == pool[j]; }
      }
    }
  }

  /**
   * Tearing the user-pointer pool down a second time is undefined
   * behaviour: uninit_device never resets buffers_ or n_buffers_, so the
   * second loop frees the first block again.
   */
  lemma FreeFromTwice(pool: seq<Slot>, n: nat)
    requires 1 <= n && 1 <= |pool| && pool[0].region.Heap? && FreeFrom(pool, 0, n).Some?
    ensures FreeFrom(FreeFrom(pool, 0, n).value, 0, n).None?
  {
    FreeFromReleases(pool, 0, n);
    FreeTwice(pool[0]);
  }

  /** How the munmap loop ends: all slots done, a munmap failed, or the index ran past the array. */
  datatype UnmapEnd = AllUnmapped | UnmapFailed | PastArray

  /** uninit_device's memory-mapping loop from slot `from` on. */
  function UnmapFrom(pool: seq<Slot>, munmapOk: nat -> bool, from: nat, n: nat): (seq<Slot>, UnmapEnd)
    decreases n - from
  {
    if from >= n then (pool, AllUnmapped)
    else if from >= |pool| then (pool, PastArray)
    else
      var p := pool[from := Unmap(pool[from], munmapOk(from))];
      if !munmapOk(from) then (p, UnmapFailed) else UnmapFrom(p, munmapOk, from + 1, n)
  }

  /** The munmap loop changes no slot but by unmapping it, and succeeds iff every munmap from..n-1 does. */
  lemma {:induction false} UnmapFromShape(pool: seq<Slot>, munmapOk: nat -> bool, from: nat, n: nat)
    ensures var (r, end) := UnmapFrom(pool, munmapOk, from, n);
      |r| == |pool| && (forall j :: 0 <= j < |r| ==> r[j] == pool[j] || r[j] == Unmap(pool[j], true))
      && (end == AllUnmapped <==> (from < n ==> n <= |pool|) && forall j :: from <= j < n ==> munmapOk(j))
    decreases n - from
  {
    if from < n && from < |pool| {
      var p := pool[from := Unmap(pool[from], munmapOk(from))];
      UnmapFromShape(p, munmapOk, from + 1, n);
    }
  }

  /**
   * uninit_device's loop for i/o method `io` over n_buffers_ = n: the pool
   * and fault flag it leaves (`pool`, `faulted`) from those it found
   * (`pool0`, `faulted0`).  The pool is never reset.
   */
  predicate ReleasedPool(io: StreamIoMethod, dev: Device, n: nat, pool0: seq<Slot>, faulted0: bool, pool: seq<Slot>, faulted: bool)
  {
    |pool| == |pool0|
    && match io
       case IoMethodRead =>
         var r := FreeFrom(pool0, 0, 1);
         if r.Some? then pool == r.value && faulted == faulted0 else faulted
       case IoMethodUserptr =>
         var r := FreeFrom(pool0, 0, n);
         if r.Some? then pool == r.value && faulted == faulted0 else faulted
       case IoMethodMmap =>
         var (r, end) := UnmapFrom(pool0, dev.munmapOk, 0, n);
         pool == r && faulted == (faulted0 || end == PastArray)
       case IoMethodUnknown => pool == pool0 && faulted == faulted0
  }

  /**
   * init_mmap's pool after `count` buffers were granted: `count` slots, the
   * first n mapped with the lengths QUERYBUF reported, and n the full count
   * exactly when every QUERYBUF and mmap succeeds.
   */
  predicate MappedPool(dev: Device, count: nat, pool: seq<Slot>, n: nat)
  {
    |pool| == count && n <= count
    && (n == count <==> forall i :: 0 <= i < count ==> dev.queryBuffer(i).Some? && dev.mmapOk(i))
    && forall i :: 0 <= i < n ==> dev.queryBuffer(i) == Some(pool[i].length) && pool[i].region.Mapped?
  }

  /** init_userp's pool: four heap slots of the image size rounded up to the page. */
  predicate UserPool(dev: Device, size: u32, pool: seq<Slot>, n: nat)
  {
    n == 4 && |pool| == 4
    && forall i :: 0 <= i < 4 ==> pool[i].length == RoundUpToPage(size, dev.pageSize) && pool[i].region.Heap?
  }

  // ---------------------------------------------------------------------
  // Outcomes of the lifecycle steps
  // ---------------------------------------------------------------------

  /** How WaitForDevice (wait_for_device) ended. */
  datatype Stage =
    | AlreadyCapturing
    | OpenFailed
    | InitFailed(reconnected: bool, closed: bool)
    | Exited
    | StartFailed
    | Started

  /** start_capturing succeeds: every QBUF (over slots the pool has) and STREAMON, or nothing for read i/o. */
  predicate StartOk(io: StreamIoMethod, fd: int, dev: Device, n: nat, poolLength: nat)
  {
    match io
    case IoMethodRead => true
    case IoMethodMmap => fd >= 0 && (forall i :: 0 <= i < n ==> dev.queueOk(i)) && dev.streamOnOk
    case IoMethodUserptr => n <= poolLength && fd >= 0 && (forall i :: 0 <= i < n ==> dev.queueOk(i)) && dev.streamOnOk
    case IoMethodUnknown => false
  }

  /** The user-pointer QBUF loop reads a slot past the pool before any QBUF fails. */
  predicate StartFaults(io: StreamIoMethod, fd: int, dev: Device, n: nat, poolLength: nat)
  {
    io == IoMethodUserptr && poolLength < n && (poolLength > 0 ==> fd >= 0)
    && forall i :: 0 <= i < poolLength ==> dev.queueOk(i)
  }

  /** stop_capturing's STREAMOFF outcome when capturing. */
  predicate StopOk(io: StreamIoMethod, fd: int, dev: Device)
  {
    match io
    case IoMethodRead => true
    case IoMethodMmap => fd >= 0 && dev.streamOffOk
    case IoMethodUserptr => fd >= 0 && dev.streamOffOk
    case IoMethodUnknown => false
  }

  /** A slot process_image may read: nothing (a null pointer), or the live memory of the pool's kind. */
  predicate Usable(pool: seq<Slot>, i: nat, m: Memory)
  {
    i < |pool| && (pool[i].region.NoMemory? || (if m == MemoryMmap then pool[i].region.Mapped? else pool[i].region.Heap?))
  }

  // ---------------------------------------------------------------------
  // set_device_config as the list of controls it sets
  // ---------------------------------------------------------------------

  /** The controls set_device_config can set through v4l2-ctl. */
  datatype Ctrl =
    | Brightness | Contrast | Saturation | Sharpness | Gain
    | WhiteBalanceAuto | WhiteBalance | AutoExposure | ExposureAbsolute | FocusAuto | FocusAbsolute

  /** The control's name on the v4l2-ctl command line. */
  function CtrlName(k: Ctrl): string
  {
    match k
    case Brightness => "brightness"
    case Contrast => "contrast"
    case Saturation => "saturation"
    case Sharpness => "sharpness"
    case Gain => "gain"
    case WhiteBalanceAuto => "white_balance_temperature_auto"
    case WhiteBalance => "white_balance_temperature"
    case AutoExposure => "auto_exposure"
    case ExposureAbsolute => "exposure_absolute"
    case FocusAuto => "focus_auto"
    case FocusAbsolute => "focus_absolute"
  }

  /**
   * One call the routine makes: set_v4l_parameter(name, value), which runs
   * v4l2-ctl for that control, or set_auto_focus(value), which goes through
   * VIDIOC_QUERYCTRL / VIDIOC_S_CTRL instead.
   */
  datatype Setting = Control(ctrl: Ctrl, value: int) | AutoFocusIoctl(value: int)

  /** `s` in front of `rest` when `c` holds. */
  function When(c: bool, s: Setting, rest: seq<Setting>): seq<Setting> { if c then [s] + rest else rest }

  /** set_device_config: the calls, in the order the routine makes them. */
  function DeviceConfig(c: CameraOptions): seq<Setting>
  {
    When(c.brightness >= 0, Control(Brightness, c.brightness),
    When(c.contrast >= 0, Control(Contrast, c.contrast),
    When(c.saturation >= 0, Control(Saturation, c.saturation),
    When(c.sharpness >= 0, Control(Sharpness, c.sharpness),
    When(c.gain >= 0, Control(Gain, c.gain),
    ModeCalls(c))))))
  }

  /** The calls for white balance, exposure and focus, made whatever the levels. */
  function ModeCalls(c: CameraOptions): seq<Setting>
  {
    (if c.autoWhiteBalance then [Control(WhiteBalanceAuto, 1)]
     else [Control(WhiteBalanceAuto, 0), Control(WhiteBalance, c.whiteBalance)])
    + (if !c.autoExposure then [Control(AutoExposure, 1), Control(ExposureAbsolute, c.exposure)] else [])
    + (if c.autoFocus then [AutoFocusIoctl(1), Control(FocusAuto, 1)]
       else [Control(FocusAuto, 0)] + When(c.focus >= 0, Control(FocusAbsolute, c.focus), []))
  }

  /** The five controls set from a level option. */
  predicate Level(k: Ctrl) { k.Brightness? || k.Contrast? || k.Saturation? || k.Sharpness? || k.Gain? }

  /**
   * The value each control should receive, stated per control: a level
   * option is passed on when it is not negative; a cleared automatic mode
   * switches the automatic control off and passes the manual value on;
   * automatic exposure (auto_exposure is V4L2's menu, where 1 is manual)
   * leaves both exposure controls alone.
   */
  function Requested(c: CameraOptions, k: Ctrl): Option<int>
  {
    match k
    case Brightness => if c.brightness >= 0 then Some(c.brightness) else None
    case Contrast => if c.contrast >= 0 then Some(c.contrast) else None
    case Saturation => if c.saturation >= 0 then Some(c.saturation) else None
    case Sharpness => if c.sharpness >= 0 then Some(c.sharpness) else None
    case Gain => if c.gain >= 0 then Some(c.gain) else None
    case WhiteBalanceAuto => Some(if c.autoWhiteBalance then 1 else 0)
    case WhiteBalance => if c.autoWhiteBalance then None else Some(c.whiteBalance)
    case AutoExposure => if c.autoExposure then None else Some(1)
    case ExposureAbsolute => if c.autoExposure then None else Some(c.exposure)
    case FocusAuto => Some(if c.autoFocus then 1 else 0)
    case FocusAbsolute => if !c.autoFocus && c.focus >= 0 then Some(c.focus) else None
  }

  /** The mode calls set no level control. */
  lemma ModeCallsNoLevel(c: CameraOptions, k: Ctrl, v: int)
    requires Level(k)
    ensures Control(k, v) !in ModeCalls(c)
  {
  }

  /** The mode calls carry the requested value of every other control. */
  lemma ModeCallsAsRequested(c: CameraOptions, k: Ctrl, v: int)
    requires !Level(k)
    ensures Control(k, v) in ModeCalls(c) <==> Requested(c, k) == Some(v)
  {
  }

  /** Every control in the list carries the value its options request, and every requested one is there. */
  lemma DeviceConfigAsRequested(c: CameraOptions, k: Ctrl, v: int)
    ensures Control(k, v) in DeviceConfig(c) <==> Requested(c, k) == Some(v)
  {
    if Level(k) {
      ModeCallsNoLevel(c, k, v);
    } else {
      ModeCallsAsRequested(c, k, v);
    }
  }

  /** set_auto_focus is called, with 1, exactly when automatic focus is asked for. */
  lemma DeviceConfigAutoFocus(c: CameraOptions, v: int)
    ensures AutoFocusIoctl(v) in DeviceConfig(c) <==> c.autoFocus && v == 1
  {
    assert AutoFocusIoctl(v) in DeviceConfig(c) <==> AutoFocusIoctl(v) in ModeCalls(c);
  }

  /**
   * With every option at its default (levels -1, automatic modes off), the
   * routine still sets white balance and exposure, to -1.
   */
  lemma DeviceConfigDefaults()
    ensures DeviceConfig(DefaultCamera()) ==
      [Control(WhiteBalanceAuto, 0), Control(WhiteBalance, -1), Control(AutoExposure, 1),
       Control(ExposureAbsolute, -1), Control(FocusAuto, 0)]
  {
  }

  // ---------------------------------------------------------------------
  // The negotiated format
  // ---------------------------------------------------------------------

  /**
   * "Buggy driver paranoia": bytesperline is raised to width * 2 and then
   * sizeimage to bytesperline * height, both products in unsigned 32-bit
   * arithmetic.
   */
  function Sanitize(f: PixFormat): (r: PixFormat)
    ensures r.width == f.width && r.height == f.height
    ensures r.bytesPerLine >= f.bytesPerLine && r.sizeImage >= f.sizeImage
  {
    var minLine := (f.width * 2) % U32Mod;
    var line := if f.bytesPerLine < minLine then minLine else f.bytesPerLine;
    var minSize := (line * f.height) % U32Mod;
    PixFormat(f.width, f.height, line, if f.sizeImage < minSize then minSize else f.sizeImage)
  }

  /** Without wrap-around a line holds two bytes per pixel and the image every line. */
  lemma SanitizeBounds(f: PixFormat)
    requires 2 * f.width < U32Mod
    requires (if f.bytesPerLine < 2 * f.width then 2 * f.width else f.bytesPerLine) * f.height < U32Mod
    ensures var r := Sanitize(f); r.bytesPerLine >= 2 * f.width && r.sizeImage >= r.bytesPerLine * f.height
    ensures var r := Sanitize(f); f.bytesPerLine >= 2 * f.width ==> r.bytesPerLine == f.bytesPerLine
  {
    U32Small(f.width * 2);
    var line := if f.bytesPerLine < 2 * f.width then 2 * f.width else f.bytesPerLine;
    assert Sanitize(f).bytesPerLine == line;
    var size := line * f.height;
    U32Small(size);
  }

  lemma U32Small(a: int)
    requires 0 <= a < U32Mod
    ensures a % U32Mod == a
  {
  }

  /** The product wraps for a width of 2^31: the line length is then left as the driver gave it. */
  lemma SanitizeWraps()
    ensures Sanitize(PixFormat(0x8000_0000, 1, 0, 0)).bytesPerLine == 0
  {
  }

  /**
   * init_device up to the buffer allocation: QUERYCAP must succeed and
   * report video capture and the bit the i/o method needs, S_FMT must
   * succeed, and the format the driver settled on is then sanitised.  The
   * CROPCAP / S_CROP step ignores every outcome and is not represented.
   */
  function Negotiate(fd: int, dev: Device, io: StreamIoMethod, width: u32, height: u32, fourcc: u32): Option<PixFormat>
  {
    if fd < 0 || dev.capabilities.None? then None
    else if !Meets(dev.capabilities.value, CapVideoCapture) || !IoSupported(dev.capabilities.value, io) then None
    else match dev.setFormat(width, height, fourcc)
      case None => None
      case Some(f) => Some(Sanitize(f))
  }

  /**
   * A negotiation succeeds only on an open capture device that supports the
   * i/o method and accepted S_FMT; it never succeeds for the unknown method;
   * the result keeps the driver's width and height and never lowers its
   * line length or image size.
   */
  lemma NegotiateRules(fd: int, dev: Device, io: StreamIoMethod, width: u32, height: u32, fourcc: u32)
    ensures var r := Negotiate(fd, dev, io, width, height, fourcc);
      (r.Some? <==> fd >= 0 && dev.capabilities.Some? && Meets(dev.capabilities.value, CapVideoCapture)
                    && IoSupported(dev.capabilities.value, io) && dev.setFormat(width, height, fourcc).Some?)
      && (io == IoMethodUnknown ==> r.None?)
      && (r.Some? ==> var f := dev.setFormat(width, height, fourcc).value;
            r.value.width == f.width && r.value.height == f.height
            && r.value.bytesPerLine >= f.bytesPerLine && r.value.sizeImage >= f.sizeImage)
  {
  }

  // ---------------------------------------------------------------------
  // User-pointer buffer size
  // ---------------------------------------------------------------------

  function Pow2(k: nat): (p: nat)
    ensures p >= 1
  {
    if k == 0 then 1 else 2 * Pow2(k - 1)
  }

  /** (size + page_size - 1) & ~(page_size - 1), computed on unsigned ints. */
  function RoundUpToPage(size: u32, page: u32): u32
  {
    AndNot((size + page - 1) % U32Mod, (page - 1) % U32Mod)
  }

  lemma {:induction false} AndNotZero(x: nat)
    ensures AndNot(x, 0) == x
  {
    if x > 0 { AndNotZero(x / 2); }
  }

  /** Clearing an odd mask's bits keeps no low bit. */
  lemma AndNotOddMask(x: nat, b: nat)
    requires x > 0 && b % 2 == 1
    ensures AndNot(x, b) == 2 * AndNot(x / 2, b / 2)
  {
  }

  /** 2p - 1 is odd and halves to p - 1. */
  lemma OddBelowEven(p: nat)
    requires p >= 1
    ensures (2 * p - 1) % 2 == 1 && (2 * p - 1) / 2 == p - 1
  {
  }

  /** The arithmetic of one induction step of AndNotLowBits. */
  lemma LowBitsStep(x: nat, r: nat, p: nat, big: nat, cleared: nat, half: nat)
    requires big == 2 * p && cleared == 2 * half && half == r * p && r * p <= x / 2 < r * p + p
    ensures cleared == r * big && r * big <= x < r * big + big
  {
    assert r * big == 2 * (r * p);
  }

  /**
   * Clearing the k low bits (`x & ~(2^k - 1)`) gives the multiple of 2^k
   * that x lies in the page of.
   */
  lemma {:induction false} AndNotLowBits(x: nat, k: nat) returns (m: nat)
    ensures AndNot(x, Pow2(k) - 1) == m * Pow2(k)
    ensures m * Pow2(k) <= x < m * Pow2(k) + Pow2(k)
  {
    if k == 0 {
      AndNotZero(x);
      assert Pow2(k) == 1;
      m := x;
    } else if x == 0 {
      m := 0;
      assert m * Pow2(k) == 0;
    } else {
      var p := Pow2(k - 1);
      var big := Pow2(k);
      assert big == 2 * p;
      var r := AndNotLowBits(x / 2, k - 1);
      OddBelowEven(p);
      AndNotOddMask(x, big - 1);
      LowBitsStep(x, r, p, big, AndNot(x, big - 1), AndNot(x / 2, p - 1));
      m := r;
    }
  }

  /**
   * For a power-of-two page size and no wrap-around, the rounding gives the
   * smallest multiple of the page size that is at least the requested size.
   */
  lemma RoundUpToPageCeiling(size: u32, k: nat) returns (m: nat)
    requires Pow2(k) < U32Mod && size + Pow2(k) - 1 < U32Mod
    ensures RoundUpToPage(size, Pow2(k) as u32) == m * Pow2(k)
    ensures size <= m * Pow2(k) < size + Pow2(k)
  {
    var page := Pow2(k);
    RoundUpUnwrapped(size, page as u32);
    m := AndNotLowBits(size + page - 1, k);
    CeilingBounds(size, page, m * page);
  }

  /** Without wrap-around the rounding is a plain `&~` of the sum. */
  lemma RoundUpUnwrapped(size: u32, page: u32)
    requires 1 <= page && size + page - 1 < U32Mod
    ensures RoundUpToPage(size, page) == AndNot(size + page - 1, page - 1)
  {
    U32Small(size + page - 1);
    U32Small(page - 1);
  }

  lemma CeilingBounds(size: nat, page: nat, q: nat)
    requires q <= size + page - 1 < q + page
    ensures size <= q < size + page
  {
  }

  /** A size within a page of 2^32 wraps round to 0. */
  lemma RoundUpToPageWraps()
    ensures RoundUpToPage(0xFFFF_F001, 4096) == 0
  {
  }

  // ---------------------------------------------------------------------
  // The conversions process_image dispatches to
  // ---------------------------------------------------------------------

  /** The routine process_image runs for a native format and an output format. */
  datatype Conversion =
    | Mono10ToMono8   // mono102mono8 over width*height pixels
    | YuyvToRgb       // convert_yuv_to_rgb_buffer
    | UyvyToRgb       // uyvy2yuyv of the source in place, then convert_yuv_to_rgb_buffer
    | MjpegToRgb      // the MJPEG decoder
    | Rgb24Copy       // rgb242rgb over width*height pixels
    | GreyCopy        // memcpy of width*height bytes
    | YuyvCopy        // memcpy of width*height*2 bytes
    | UyvyToYuyv      // uyvy2yuyv of the source in place, then the same memcpy

  /** convert_yuv_to_rgb_buffer's loop count for an image's int width and height, passed as unsigned. */
  function RgbSteps(width: int, height: int): nat
  {
    V4l2Util.BufferSteps(width % U32Mod, height % U32Mod)
  }

  predicate SwapFits(len: int, srcLength: nat) { 0 <= len <= srcLength && len % 2 == 0 }

  predicate RgbFits(width: int, height: int, srcLength: nat, destLength: nat)
  {
    V4l2Util.ByteLimit(width % U32Mod, height % U32Mod) <= U32Mod - 4
    && 4 * RgbSteps(width, height) <= srcLength && 6 * RgbSteps(width, height) <= destLength
  }

  /**
   * The conversion stays inside both buffers: the source holds `srcLength`
   * bytes (`len` of them delivered), the destination `destLength`.  Outside
   * this the C routine reads or writes out of bounds.
   */
  predicate Fits(conv: Conversion, srcLength: nat, len: int, width: int, height: int, destLength: nat)
  {
    var n := width * height;
    match conv
    case Mono10ToMono8 => n < 0x4000_0000 && 2 * n <= srcLength && n <= destLength
    case YuyvToRgb => RgbFits(width, height, srcLength, destLength)
    case UyvyToRgb => SwapFits(len, srcLength) && RgbFits(width, height, srcLength, destLength)
    case MjpegToRgb => true
    case Rgb24Copy => 0 <= n && 3 * n <= srcLength && 3 * n <= destLength
    case GreyCopy => 0 <= n <= srcLength && n <= destLength
    case YuyvCopy => 0 <= 2 * n <= srcLength && 2 * n <= destLength
    case UyvyToYuyv => SwapFits(len, srcLength) && 0 <= 2 * n <= srcLength && 2 * n <= destLength
  }

  /**
   * What one conversion does, stated on the source and image contents before
   * (`src0`, `img0`) and after (`src1`, `img1`): outside the bounds nothing
   * changes; inside them the UYVY cases swap the delivered bytes of the
   * source in place and every case fills the image prefix it writes and
   * leaves the rest of the image as it was.  The
   * MJPEG decoder is not modelled: it leaves the image as it is.
   */
  ghost predicate Converted(conv: Conversion, arith: V4l2Util.YuvArith, len: int, w: int, h: int,
                            src0: seq<byte>, src1: seq<byte>, img0: seq<byte>, img1: seq<byte>)
  {
    |src1| == |src0| && |img1| == |img0|
    && if !Fits(conv, |src0|, len, w, h, |img0|) then src1 == src0 && img1 == img0
       else
         var n := w * h;
         (if conv == UyvyToRgb || conv == UyvyToYuyv
          then src1[..len] == PixelFormat.SwapPairs(src0[..len]) && src1[len..] == src0[len..]
          else src1 == src0)
         && match conv
            case Mono10ToMono8 =>
              (forall j :: 0 <= j < n ==> img1[j] == PixelFormat.Mono8(src1[2 * j], src1[2 * j + 1]))
              && (var m := if n < 0 then 0 else n; img1[m..] == img0[m..])
            case YuyvToRgb =>
              img1[..6 * RgbSteps(w, h)] == PixelFormat.PackedToRgb(V4l2Util.PixelOf(arith), PixelFormat.YUYV, src1, RgbSteps(w, h))
              && img1[6 * RgbSteps(w, h)..] == img0[6 * RgbSteps(w, h)..]
            case UyvyToRgb =>
              img1[..6 * RgbSteps(w, h)] == PixelFormat.PackedToRgb(V4l2Util.PixelOf(arith), PixelFormat.YUYV, src1, RgbSteps(w, h))
              && img1[6 * RgbSteps(w, h)..] == img0[6 * RgbSteps(w, h)..]
            case MjpegToRgb => img1 == img0
            case Rgb24Copy => img1[..3 * n] == src1[..3 * n] && img1[3 * n..] == img0[3 * n..]
            case GreyCopy => img1[..n] == src1[..n] && img1[n..] == img0[n..]
            case YuyvCopy => img1[..2 * n] == src1[..2 * n] && img1[2 * n..] == img0[2 * n..]
            case UyvyToYuyv => img1[..2 * n] == src1[..2 * n] && img1[2 * n..] == img0[2 * n..]
  }

  /**
   * process_image's effect for the conversion its dispatch picked: nothing
   * changes when there is none, otherwise the conversion's.
   */
  ghost predicate Processed(conv: Option<Conversion>, arith: V4l2Util.YuvArith, len: int, w: int, h: int,
                            src0: seq<byte>, src1: seq<byte>, img0: seq<byte>, img1: seq<byte>)
  {
    if conv.None? then src1 == src0 && img1 == img0 else Converted(conv.value, arith, len, w, h, src0, src1, img0, img1)
  }

  /** The picked conversion runs out of bounds. */
  predicate ConvFault(conv: Option<Conversion>, srcLength: nat, len: int, w: int, h: int, destLength: nat)
  {
    conv.Some? && !Fits(conv.value, srcLength, len, w, h, destLength)
  }

  /**
   * Runs one conversion from `src` (of which `len` bytes were delivered)
   * into dest's image, through the conversion routines.  `fault` reports an
   * access out of bounds, in which case nothing is changed.
   */
  method Convert(conv: Conversion, arith: V4l2Util.YuvArith, src: array<byte>, len: int, dest: Frame.CameraImage)
    returns (fault: bool)
    requires dest.image != null && dest.image != src
    modifies src, dest.image
    ensures fault == !Fits(conv, src.Length, len, dest.width, dest.height, dest.image.Length)
    ensures Converted(conv, arith, len, dest.width, dest.height, old(src[..]), src[..], old(dest.image[..]), dest.image[..])
  {
    var image := dest.image;
    var w, h := dest.width, dest.height;
    var n := w * h;
    fault := !Fits(conv, src.Length, len, w, h, image.Length);
    if fault {
      return;
    }
    match conv {
      case Mono10ToMono8 =>
        PixelFormat.Mono102Mono8(src, image, n);
      case YuyvToRgb =>
        var _ := V4l2Util.ConvertYuvToRgbBuffer(arith, src, image, w % U32Mod, h % U32Mod);
      case UyvyToRgb =>
        PixelFormat.Uyvy2Yuyv(src, len);
        var _ := V4l2Util.ConvertYuvToRgbBuffer(arith, src, image, w % U32Mod, h % U32Mod);
      case MjpegToRgb =>
      case Rgb24Copy =>
        PixelFormat.Rgb242Rgb(src, image, n);
      case GreyCopy =>
        CopyBytes(image, src, n);
      case YuyvCopy =>
        CopyBytes(image, src, 2 * n);
      case UyvyToYuyv =>
        PixelFormat.Uyvy2Yuyv(src, len);
        CopyBytes(image, src, 2 * n);
    }
  }
}
