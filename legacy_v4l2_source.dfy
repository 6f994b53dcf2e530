/**
 * The V4L2 capture engine of src/zetton_stream/source/v4l2_stream_source.cc,
 * the class its header declares as LegacyV4l2StreamSource: it opens a
 * character device, negotiates a format, allocates a pool of buffers for
 * read, memory-mapping or user-pointer i/o, starts streaming, and fetches
 * one frame per Capture call, converting it into the caller's image.
 *
 * The kernel is the oracle of V4l2Kernel: the answers outside the frame
 * path come from a Device, the answers while a frame is fetched from a
 * FrameEvent.  Undefined behaviour the code can reach (a null or stale
 * pointer, an index past the pool, a failed assert) sets `faulted`; exit()
 * sets `exited`.
 */
module LegacyV4l2Source {
  import opened Common
  import opened StreamOptions
  import opened V4l2Kernel
  import StreamUri
  import Frame
  import V4l2Util

  /** Init's table: the fourcc to negotiate and whether the stream is monochrome. */
  function Native(f: StreamPixelFormat): Option<(u32, bool)>
  {
    match f
    case PixelYuyv => Some((PixYuyv, false))
    case PixelUyvy => Some((PixUyvy, false))
    case PixelMjpeg => Some((PixMjpeg, false))
    case PixelYuvMono10 => Some((PixYuyv, true))
    case PixelRgb => Some((PixRgb24, false))
    case PixelGray8 => Some((PixGrey, true))
    case _ => None
  }

  /**
   * Exactly six formats are accepted; 10-bit mono is negotiated as YUYV;
   * the stream is monochrome exactly for 10-bit mono and 8-bit grey.
   */
  lemma NativeTable(f: StreamPixelFormat)
    ensures Native(f).Some? <==>
      f == PixelYuyv || f == PixelUyvy || f == PixelMjpeg || f == PixelYuvMono10 || f == PixelRgb || f == PixelGray8
    ensures Native(f).Some? ==> (Native(f).value.1 <==> f == PixelYuvMono10 || f == PixelGray8)
    ensures f == PixelYuvMono10 ==> Native(f) == Some((PixYuyv, true))
    ensures f == PixelGray8 ==> Native(f) == Some((PixGrey, true))
  {
  }

  /** process_image's dispatch on the negotiated fourcc, the mono flag and the output format. */
  function Dispatch(fourcc: u32, mono: bool, output: StreamPixelFormat): Option<Conversion>
  {
    if output == PixelRgb then
      if fourcc == PixYuyv then Some(if mono then Mono10ToMono8 else YuyvToRgb)
      else if fourcc == PixUyvy then Some(UyvyToRgb)
      else if fourcc == PixMjpeg then Some(MjpegToRgb)
      else if fourcc == PixRgb24 then Some(Rgb24Copy)
      else if fourcc == PixGrey then Some(GreyCopy)
      else None
    else if output == PixelYuyv then
      if fourcc == PixYuyv && !mono then Some(YuyvCopy)
      else if fourcc == PixUyvy then Some(UyvyToYuyv)
      else None
    else None
  }

  /**
   * RGB output accepts all five negotiated fourccs, YUYV output only colour
   * YUYV and UYVY, and no other output format is accepted.
   */
  lemma DispatchMatrix(fourcc: u32, mono: bool, output: StreamPixelFormat)
    ensures Dispatch(fourcc, mono, output).Some? <==>
      (output == PixelRgb && (fourcc == PixYuyv || fourcc == PixUyvy || fourcc == PixMjpeg || fourcc == PixRgb24 || fourcc == PixGrey))
      || (output == PixelYuyv && ((fourcc == PixYuyv && !mono) || fourcc == PixUyvy))
  {
  }

  /**
   * Init and process_image together: for a format Init accepted, RGB output
   * always has a conversion and YUYV output has one exactly for YUYV and UYVY
   * capture; 10-bit mono goes through the mono converter.
   */
  lemma {:induction false} DispatchAfterInit(f: StreamPixelFormat, output: StreamPixelFormat)
    requires Native(f).Some?
    ensures var (fourcc, mono) := Native(f).value;
      (Dispatch(fourcc, mono, output).Some? <==>
         output == PixelRgb || (output == PixelYuyv && (f == PixelYuyv || f == PixelUyvy)))
      && (f == PixelYuvMono10 && output == PixelRgb ==> Dispatch(fourcc, mono, output) == Some(Mono10ToMono8))
  {
    var (fourcc, mono) := Native(f).value;
    DispatchMatrix(fourcc, mono, output);
  }

  /**
   * What init_device leaves for i/o method `io`, on descriptor `fd`, for an
   * image of `size` bytes: the descriptor, pool, count and fault flag it
   * ends with (`fd1`, `pool`, `n`, `faulted`) from the pool, count and flag
   * it found.  Memory mapping asks for 4 buffers: EINVAL, or fewer than 2
   * granted (which ends the process), change nothing; any other refusal
   * reconnects, releasing the old pool and closing the descriptor.
   */
  predicate Inited(io: StreamIoMethod, fd: int, dev: Device, size: u32, pool0: seq<Slot>, n0: nat, faulted0: bool,
                   fd1: int, pool: seq<Slot>, n: nat, faulted: bool)
  {
    match io
    case IoMethodRead =>
      fd1 == fd && faulted == faulted0 && n == n0 && |pool| == 1 && pool[0].length == size && pool[0].region.Heap?
    case IoMethodUserptr =>
      fd1 == fd && faulted == faulted0
      && if RequestAnswer(fd, dev, MemoryUserptr, 4).Granted? then UserPool(dev, size, pool, n) else pool == pool0 && n == n0
    case IoMethodMmap =>
      var g := RequestAnswer(fd, dev, MemoryMmap, 4);
      if g == Refused(EINVAL) || (g.Granted? && g.count < 2) then
        fd1 == fd && faulted == faulted0 && pool == pool0 && n == n0
      else if g.Refused? then
        fd1 == AfterClose(fd, dev) && n == n0 && ReleasedPool(IoMethodMmap, dev, n0, pool0, faulted0, pool, faulted)
      else
        fd1 == fd && faulted == faulted0 && MappedPool(dev, g.count, pool, n)
    case IoMethodUnknown => fd1 == fd && faulted == faulted0 && pool == pool0 && n == n0
  }

  /**
   * Whether read_frame succeeds, from the state it starts in, the kernel's
   * answers for the frame and the image's width and height: read i/o needs
   * a read() answer and a usable slot 0; the streaming methods need a
   * dequeued index below n_buffers_, a re-queue that succeeds and, when the
   * frame is processed, a usable slot (memory mapping skips processing for
   * a short buffer unless the stream is MJPEG).
   */
  predicate FrameOkAt(io: StreamIoMethod, fd: int, pool: seq<Slot>, nBuffers: nat, pixelFormat: u32,
                      ev: FrameEvent, width: int, height: int)
  {
    match io
    case IoMethodRead => ReadAnswer(fd, ev).ReadBytes? && Usable(pool, 0, MemoryUserptr)
    case IoMethodMmap =>
      var dq := DequeueAnswer(fd, ev);
      dq.Dequeued? && dq.index < nBuffers && ev.requeueOk
      && (dq.bytesUsed >= width * height || pixelFormat == PixMjpeg ==> Usable(pool, dq.index, MemoryMmap))
    case IoMethodUserptr =>
      var dq := DequeueAnswer(fd, ev);
      dq.Dequeued? && dq.index < nBuffers && Usable(pool, dq.index, MemoryUserptr) && ev.requeueOk
    case IoMethodUnknown => false
  }

  /**
   * The block process_image converts and the byte count it is given, when
   * read_frame converts a block at all: slot 0 after a read() for read i/o,
   * the dequeued slot for the streaming methods (for memory mapping, only a
   * long enough buffer or an MJPEG one).  None when it converts nothing or
   * is handed a null pointer.
   */
  function FrameSourceAt(io: StreamIoMethod, fd: int, pool: seq<Slot>, nBuffers: nat, pixelFormat: u32,
                         ev: FrameEvent, width: int, height: int): Option<(array<byte>, nat)>
  {
    match io
    case IoMethodRead =>
      var r := ReadAnswer(fd, ev);
      if r.ReadBytes? && |pool| > 0 && pool[0].region.Heap? then Some((pool[0].region.mem, Min(r.count, pool[0].length)))
      else None
    case IoMethodMmap =>
      var dq := DequeueAnswer(fd, ev);
      if dq.Dequeued? && dq.index < nBuffers && dq.index < |pool| && pool[dq.index].region.Mapped?
         && (dq.bytesUsed >= width * height || pixelFormat == PixMjpeg)
      then Some((pool[dq.index].region.mem, dq.bytesUsed))
      else None
    case IoMethodUserptr =>
      var dq := DequeueAnswer(fd, ev);
      if dq.Dequeued? && dq.index < nBuffers && dq.index < |pool| && pool[dq.index].region.Heap?
      then Some((pool[dq.index].region.mem, dq.bytesUsed))
      else None
    case IoMethodUnknown => None
  }

  class LegacyV4l2Source {
    var options: Options
    var pixelFormat: u32
    var monochrome: bool
    var fd: int
    /** buffers_, one element per slot; [] stands for the null pointer. */
    var pool: seq<Slot>
    var nBuffers: nat
    var isCapturing: bool
    var faulted: bool
    var exited: bool
    /** Every block a slot has ever pointed at. */
    ghost var memory: set<array<byte>>
    /** The arithmetic of convert_yuv_to_rgb_pixel. */
    const arith: V4l2Util.YuvArith

    /** Every slot's block is part of `memory`, so it is never the caller's image. */
    ghost predicate Valid()
      reads this
    {
      forall i :: 0 <= i < |pool| && pool[i].region.HasMem() ==> pool[i].region.mem in memory
    }

    /** The fields the frame path and the teardown change. */
    ghost function State(): (int, seq<Slot>, nat, bool, bool)
      reads this
    {
      (fd, pool, nBuffers, isCapturing, faulted)
    }

    /** The pool after uninit_device's loop for the configured i/o method. */
    ghost predicate Released(dev: Device, pool0: seq<Slot>, faulted0: bool)
      reads this
    {
      ReleasedPool(options.ioMethod, dev, nBuffers, pool0, faulted0, pool, faulted)
    }

    /** Whether read_frame succeeds from the engine's current state. */
    predicate FrameOk(ev: FrameEvent, width: int, height: int)
      reads this
    {
      FrameOkAt(options.ioMethod, fd, pool, nBuffers, pixelFormat, ev, width, height)
    }

    /** The block read_frame converts from the engine's current state. */
    function FrameSource(ev: FrameEvent, width: int, height: int): Option<(array<byte>, nat)>
      reads this
    {
      FrameSourceAt(options.ioMethod, fd, pool, nBuffers, pixelFormat, ev, width, height)
    }

    /**
     * The constructor: no descriptor, no pool, not capturing, options at
     * their defaults; the fourcc and mono flag hold whatever the object's
     * memory held until Init sets them.
     */
    constructor (arith: V4l2Util.YuvArith, protocol: StreamUri.StreamProtocolType, platform: StreamPlatformType,
                 pixelFormat: u32, monochrome: bool)
      ensures Valid() && this.arith == arith
      ensures options == DefaultOptions(protocol, platform)
      ensures fd == -1 && pool == [] && nBuffers == 0 && !isCapturing && !faulted && !exited
      ensures this.pixelFormat == pixelFormat && this.monochrome == monochrome
    {
      this.arith := arith;
      options := DefaultOptions(protocol, platform);
      this.pixelFormat, this.monochrome := pixelFormat, monochrome;
      fd, pool, nBuffers := -1, [], 0;
      isCapturing, faulted, exited := false, false, false;
      memory := {};
    }

    /** Init: stores the options and picks the fourcc; an unsupported format keeps the old fourcc. */
    method Init(o: Options) returns (ok: bool)
      modifies this`options, this`pixelFormat, this`monochrome
      ensures options == o
      ensures ok == Native(o.pixelFormat).Some?
      ensures ok ==> (pixelFormat, monochrome) == Native(o.pixelFormat).value
      ensures !ok ==> pixelFormat == old(pixelFormat) && !monochrome
    {
      options := o;
      monochrome := false;
      var f := o.pixelFormat;
      if f == PixelYuyv {
        pixelFormat := PixYuyv;
      } else if f == PixelUyvy {
        pixelFormat := PixUyvy;
      } else if f == PixelMjpeg {
        pixelFormat := PixMjpeg;
      } else if f == PixelYuvMono10 {
        pixelFormat := PixYuyv;
        monochrome := true;
      } else if f == PixelRgb {
        pixelFormat := PixRgb24;
      } else if f == PixelGray8 {
        pixelFormat := PixGrey;
        monochrome := true;
      } else {
        return false;
      }
      ok := true;
    }

    /** open_device: stat and S_ISCHR must pass before open() is tried. */
    method OpenDevice(dev: Device) returns (ok: bool)
      modifies this`fd
      ensures ok == (dev.statOk && dev.isCharDevice && dev.openResult.Some?)
      ensures ok ==> fd == dev.openResult.value
      ensures !(dev.statOk && dev.isCharDevice) ==> fd == old(fd)
      ensures dev.statOk && dev.isCharDevice && dev.openResult.None? ==> fd == -1
    {
      if !dev.statOk || !dev.isCharDevice {
        return false;
      }
      match dev.openResult {
        case None =>
          fd := -1;
          ok := false;
        case Some(d) =>
          fd := d;
          ok := true;
      }
    }

    /** close_device: fails on -1 (or when close fails) and leaves the descriptor as it was. */
    method CloseDevice(dev: Device) returns (ok: bool)
      modifies this`fd
      ensures ok == (old(fd) >= 0 && dev.closeOk)
      ensures fd == AfterClose(old(fd), dev)
    {
      if fd < 0 || !dev.closeOk {
        return false;
      }
      fd := -1;
      ok := true;
    }

    /** init_read: one heap slot of the image size. */
    method InitRead(size: u32) returns (ok: bool)
      requires Valid()
      modifies this`pool, this`memory
      ensures Valid() && ok
      ensures |pool| == 1 && pool[0].length == size && pool[0].region.Heap?
      ensures fresh(pool[0].region.mem) && pool[0].region.mem.Length == size
    {
      var a := new byte[size];
      pool := [Slot(size, Heap(a))];
      memory := memory + {a};
      ok := true;
    }

    /**
     * init_mmap: asks for 4 buffers; EINVAL fails quietly, any other error
     * reconnects; fewer than 2 granted ends the process; otherwise each
     * granted buffer is queried and mapped in turn until one fails.
     */
    method InitMmap(dev: Device) returns (ok: bool)
      requires Valid()
      modifies this
      ensures Valid()
      ensures options == old(options) && pixelFormat == old(pixelFormat) && monochrome == old(monochrome)
      ensures var g := RequestAnswer(old(fd), dev, MemoryMmap, 4);
        exited == (old(exited) || (g.Granted? && g.count < 2))
        && (g == Refused(EINVAL) || (g.Granted? && g.count < 2) ==> !ok && State() == old(State()))
        && (g.Refused? && g.errno != EINVAL ==>
              !ok && !isCapturing && fd == AfterClose(old(fd), dev) && nBuffers == old(nBuffers)
              && Released(dev, old(pool), old(faulted)))
        && (g.Granted? && g.count >= 2 ==>
              fd == old(fd) && isCapturing == old(isCapturing) && faulted == old(faulted)
              && |pool| == g.count && nBuffers <= g.count
              && (ok <==> forall i :: 0 <= i < g.count ==> dev.queryBuffer(i).Some? && dev.mmapOk(i))
              && (ok == (nBuffers == g.count))
              && forall i :: 0 <= i < nBuffers ==>
                   dev.queryBuffer(i) == Some(pool[i].length) && pool[i].region.Mapped? && fresh(pool[i].region.mem))
    {
      var g := RequestAnswer(fd, dev, MemoryMmap, 4);
      if g.Refused? {
        if g.errno == EINVAL {
          return false;
        }
        Reconnect(dev);
        return false;
      }
      var count := g.count;
      if count < 2 {
        exited := true;
        return false;
      }
      ok := MapBuffers(dev, count);
    }

    /** init_mmap's loop: QUERYBUF and mmap of each granted buffer in turn, until one fails. */
    method MapBuffers(dev: Device, count: nat) returns (ok: bool)
      requires Valid()
      modifies this`pool, this`nBuffers, this`memory
      ensures Valid()
      ensures |pool| == count && nBuffers <= count
      ensures ok <==> forall i :: 0 <= i < count ==> dev.queryBuffer(i).Some? && dev.mmapOk(i)
      ensures ok == (nBuffers == count)
      ensures forall i :: 0 <= i < nBuffers ==>
        dev.queryBuffer(i) == Some(pool[i].length) && pool[i].region.Mapped? && fresh(pool[i].region.mem)
    {
      pool := EmptySlots(count);
      nBuffers := 0;
      while nBuffers < count
        invariant 0 <= nBuffers <= count && |pool| == count && Valid()
        invariant forall i :: 0 <= i < nBuffers ==> dev.queryBuffer(i).Some? && dev.mmapOk(i)
        invariant forall i :: 0 <= i < nBuffers ==>
          dev.queryBuffer(i) == Some(pool[i].length) && pool[i].region.Mapped? && fresh(pool[i].region.mem)
      {
        var q := dev.queryBuffer(nBuffers);
        if q.None? {
          return false;
        }
        if !dev.mmapOk(nBuffers) {
          pool := pool[nBuffers := Slot(q.value, MapFailed)];
          return false;
        }
        var a := new byte[q.value];
        pool := pool[nBuffers := Slot(q.value, Mapped(a))];
        memory := memory + {a};
        nBuffers := nBuffers + 1;
      }
      ok := true;
    }

    /**
     * init_userp: the size is rounded up to the page size; REQBUFS for 4
     * buffers must succeed, and then 4 page-aligned heap slots are made,
     * whatever count the driver granted.
     */
    method InitUserp(dev: Device, size: u32) returns (ok: bool)
      requires Valid()
      modifies this`pool, this`nBuffers, this`memory
      ensures Valid()
      ensures ok == RequestAnswer(fd, dev, MemoryUserptr, 4).Granted?
      ensures !ok ==> pool == old(pool) && nBuffers == old(nBuffers)
      ensures ok ==> nBuffers == 4 && |pool| == 4
      ensures ok ==> forall i :: 0 <= i < 4 ==>
        pool[i].length == RoundUpToPage(size, dev.pageSize) && pool[i].region.Heap?
        && fresh(pool[i].region.mem) && pool[i].region.mem.Length == pool[i].length
    {
      var bufferSize := RoundUpToPage(size, dev.pageSize);
      var g := RequestAnswer(fd, dev, MemoryUserptr, 4);
      if g.Refused? {
        return false;
      }
      pool := EmptySlots(4);
      nBuffers := 0;
      while nBuffers < 4
        invariant 0 <= nBuffers <= 4 && |pool| == 4 && Valid()
        invariant forall i :: 0 <= i < nBuffers ==>
          pool[i].length == bufferSize && pool[i].region.Heap?
          && fresh(pool[i].region.mem) && pool[i].region.mem.Length == bufferSize
        modifies this`pool, this`nBuffers, this`memory
      {
        var a := new byte[bufferSize];
        pool := pool[nBuffers := Slot(bufferSize, Heap(a))];
        memory := memory + {a};
        nBuffers := nBuffers + 1;
      }
      ok := true;
    }

    /**
     * init_device: negotiates the format and adopts the driver's width and
     * height; a failing G_PARM reconnects; then the pool for the i/o method
     * is made and its outcome ignored, so the result is true (unless
     * init_mmap ended the process).
     */
    method InitDevice(dev: Device) returns (ok: bool, ghost reconnected: bool)
      requires Valid()
      modifies this
      ensures Valid()
      ensures pixelFormat == old(pixelFormat) && monochrome == old(monochrome)
      ensures var neg := Negotiate(old(fd), dev, old(options).ioMethod, old(options).width, old(options).height, old(pixelFormat));
        (neg.None? ==> !ok && !reconnected && State() == old(State()) && options == old(options) && exited == old(exited))
        && (neg.Some? ==> options == old(options).(width := neg.value.width, height := neg.value.height))
        && (neg.Some? && !dev.getParmOk ==>
              !ok && reconnected && !isCapturing && fd == AfterClose(old(fd), dev) && exited == old(exited))
        && (neg.Some? && dev.getParmOk ==> !reconnected && ok == !exited && (isCapturing ==> old(isCapturing)))
        && (fd == old(fd) || fd == AfterClose(old(fd), dev))
        && (neg.Some? && dev.getParmOk && options.ioMethod != IoMethodMmap ==> fd == old(fd) && faulted == old(faulted))
        && (neg.Some? && dev.getParmOk ==>
              Inited(options.ioMethod, old(fd), dev, neg.value.sizeImage, old(pool), old(nBuffers), old(faulted),
                     fd, pool, nBuffers, faulted))
        && (neg.Some? && dev.getParmOk && options.ioMethod == IoMethodRead ==>
              |pool| == 1 && pool[0] == Slot(neg.value.sizeImage, pool[0].region) && pool[0].region.Heap?)
        && (neg.Some? && dev.getParmOk && options.ioMethod == IoMethodUserptr
            && RequestAnswer(old(fd), dev, MemoryUserptr, 4).Granted? ==>
              nBuffers == 4 && |pool| == 4
              && forall i :: 0 <= i < 4 ==> pool[i].length == RoundUpToPage(neg.value.sizeImage, dev.pageSize))
        && (neg.Some? && dev.getParmOk && options.ioMethod == IoMethodMmap ==>
              exited == (old(exited) || (RequestAnswer(old(fd), dev, MemoryMmap, 4).Granted?
                                        && RequestAnswer(old(fd), dev, MemoryMmap, 4).count < 2)))
    {
      reconnected := false;
      var neg := Negotiate(fd, dev, options.ioMethod, options.width, options.height, pixelFormat);
      if neg.None? {
        return false, false;
      }
      var f := neg.value;
      options := options.(width := f.width, height := f.height);
      if !dev.getParmOk {
        Reconnect(dev);
        return false, true;
      }
      match options.ioMethod {
        case IoMethodRead =>
          var _ := InitRead(f.sizeImage);
        case IoMethodMmap =>
          var _ := InitMmap(dev);
        case IoMethodUserptr =>
          var _ := InitUserp(dev, f.sizeImage);
        case IoMethodUnknown =>
      }
      // exit() does not return: the model stops here and reports the process as ended.
      ok := !exited;
    }

    /**
     * start_capturing: nothing to do when already capturing; otherwise the
     * flag is set only once every QBUF and STREAMON succeeded.
     */
    method StartCapturing(dev: Device) returns (ok: bool)
      modifies this`isCapturing, this`faulted
      ensures old(isCapturing) ==> ok && isCapturing && faulted == old(faulted)
      ensures !old(isCapturing) ==> isCapturing == ok
      ensures !old(isCapturing) && !StartFaults(options.ioMethod, fd, dev, nBuffers, |pool|) ==>
        ok == StartOk(options.ioMethod, fd, dev, nBuffers, |pool|) && faulted == old(faulted)
      ensures !old(isCapturing) && StartFaults(options.ioMethod, fd, dev, nBuffers, |pool|) ==> !ok && faulted
    {
      if isCapturing {
        return true;
      }
      match options.ioMethod {
        case IoMethodRead =>
        case IoMethodMmap =>
          var i := 0;
          while i < nBuffers
            invariant 0 <= i <= nBuffers
            invariant (i > 0 ==> fd >= 0) && forall j :: 0 <= j < i ==> dev.queueOk(j)
          {
            if fd < 0 || !dev.queueOk(i) {
              return false;
            }
            i := i + 1;
          }
          if fd < 0 || !dev.streamOnOk {
            return false;
          }
        case IoMethodUserptr =>
          var i := 0;
          while i < nBuffers
            invariant 0 <= i <= nBuffers
            invariant i <= |pool|
            invariant (i > 0 ==> fd >= 0) && forall j :: 0 <= j < i ==> dev.queueOk(j)
          {
            if i >= |pool| {
              assert StartFaults(options.ioMethod, fd, dev, nBuffers, |pool|);
              faulted := true;
              return false;
            }
            if fd < 0 || !dev.queueOk(i) {
              return false;
            }
            i := i + 1;
          }
          if fd < 0 || !dev.streamOnOk {
            return false;
          }
        case IoMethodUnknown =>
          return false;
      }
      isCapturing := true;
      ok := true;
    }

    /** stop_capturing: clears the flag before STREAMOFF, so the flag is cleared even when STREAMOFF fails. */
    method StopCapturing(dev: Device) returns (ok: bool)
      modifies this`isCapturing
      ensures !isCapturing
      ensures ok == (!old(isCapturing) || StopOk(options.ioMethod, fd, dev))
    {
      if !isCapturing {
        return true;
      }
      isCapturing := false;
      match options.ioMethod {
        case IoMethodRead =>
        case IoMethodMmap =>
          if fd < 0 || !dev.streamOffOk {
            return false;
          }
        case IoMethodUserptr =>
          if fd < 0 || !dev.streamOffOk {
            return false;
          }
        case IoMethodUnknown =>
          return false;
      }
      ok := true;
    }

    /**
     * uninit_device: frees or unmaps the slots, and never resets the pool or
     * its count; only a failing munmap makes it return false.
     */
    method UninitDevice(dev: Device) returns (ok: bool)
      requires Valid()
      modifies this`pool, this`faulted
      ensures Valid() && Released(dev, old(pool), old(faulted))
      ensures ok == (options.ioMethod != IoMethodMmap || UnmapFrom(old(pool), dev.munmapOk, 0, nBuffers).1 != UnmapFailed)
    {
      ok := true;
      match options.ioMethod {
        case IoMethodRead =>
          ReleaseSlots(1);
        case IoMethodUserptr =>
          ReleaseSlots(nBuffers);
        case IoMethodMmap =>
          var i := 0;
          while i < nBuffers
            invariant 0 <= i <= nBuffers && |pool| == |old(pool)| && Valid() && faulted == old(faulted)
            invariant UnmapFrom(pool, dev.munmapOk, i, nBuffers) == UnmapFrom(old(pool), dev.munmapOk, 0, nBuffers)
            decreases nBuffers - i
          {
            if i >= |pool| {
              faulted := true;
              return;
            }
            pool := pool[i := Unmap(pool[i], dev.munmapOk(i))];
            if !dev.munmapOk(i) {
              return false;
            }
            i := i + 1;
          }
        case IoMethodUnknown =>
      }
    }

    /** The free loop over slots 0..n-1. */
    method ReleaseSlots(n: nat)
      requires Valid()
      modifies this`pool, this`faulted
      ensures Valid() && |pool| == |old(pool)|
      ensures var r := FreeFrom(old(pool), 0, n);
        if r.Some? then pool == r.value && faulted == old(faulted) else faulted
    {
      var i := 0;
      while i < n
        invariant 0 <= i <= n && |pool| == |old(pool)| && Valid() && faulted == old(faulted)
        invariant FreeFrom(pool, i, n) == FreeFrom(old(pool), 0, n)
      {
        if i >= |pool| {
          faulted := true;
          return;
        }
        var s := Free(pool[i]);
        if s.None? {
          faulted := true;
          return;
        }
        pool := pool[i := s.value];
        i := i + 1;
      }
    }

    /** reconnect: stop, uninit and close, each outcome ignored. */
    method Reconnect(dev: Device)
      requires Valid()
      modifies this`isCapturing, this`pool, this`faulted, this`fd
      ensures Valid() && !isCapturing && fd == AfterClose(old(fd), dev)
      ensures Released(dev, old(pool), old(faulted))
    {
      var _ := StopCapturing(dev);
      var _ := UninitDevice(dev);
      var _ := CloseDevice(dev);
    }

    /** shutdown (also run by the destructor): the same three steps. */
    method Shutdown(dev: Device)
      requires Valid()
      modifies this`isCapturing, this`pool, this`faulted, this`fd
      ensures Valid() && !isCapturing && fd == AfterClose(old(fd), dev)
      ensures Released(dev, old(pool), old(faulted))
    {
      var _ := StopCapturing(dev);
      var _ := UninitDevice(dev);
      var _ := CloseDevice(dev);
    }

    /**
     * WaitForDevice: nothing when already capturing; otherwise open, init and
     * start, cleaning up after the stage that failed.  It succeeds exactly
     * when open, negotiation, G_PARM and start_capturing all succeed and the
     * process was not ended; start_capturing runs on the descriptor, pool and
     * fault flag init_device left (`startFd`, `startPool`, `startFaulted`, as
     * Inited states them from the pool, count and flag found at entry), and a
     * failed start releases that pool and closes that descriptor.
     * When init_device has already reconnected, the close that follows finds
     * the descriptor closed and fails.
     */
    method WaitForDevice(dev: Device) returns (ok: bool, ghost stage: Stage,
                                               ghost startFd: int, ghost startPool: seq<Slot>, ghost startFaulted: bool)
      requires Valid()
      modifies this
      ensures Valid()
      ensures old(isCapturing) ==> ok && stage == AlreadyCapturing && State() == old(State()) && options == old(options)
      ensures !old(isCapturing) ==>
        (ok <==> dev.statOk && dev.isCharDevice && dev.openResult.Some?
                 && Negotiate(dev.openResult.value, dev, old(options).ioMethod, old(options).width, old(options).height,
                              old(pixelFormat)).Some?
                 && dev.getParmOk && !exited
                 && StartOk(options.ioMethod, startFd, dev, nBuffers, |startPool|))
      ensures ok <==> stage == AlreadyCapturing || stage == Started
      ensures ok ==> isCapturing
      ensures !ok && stage != Exited ==> !isCapturing
      ensures !old(isCapturing) && !(dev.statOk && dev.isCharDevice && dev.openResult.Some?) ==>
        stage == OpenFailed && pool == old(pool) && nBuffers == old(nBuffers)
      ensures stage == Exited ==> exited
      ensures stage.InitFailed? ==>
        (fd == -1 <==> dev.closeOk) && (stage.closed <==> dev.closeOk && !stage.reconnected)
      ensures stage == Started || stage == StartFailed ==>
        var neg := Negotiate(dev.openResult.value, dev, old(options).ioMethod, old(options).width, old(options).height,
                             old(pixelFormat));
        neg.Some?
        && Inited(options.ioMethod, dev.openResult.value, dev, neg.value.sizeImage, old(pool), old(nBuffers), old(faulted),
                  startFd, startPool, nBuffers, startFaulted)
      ensures stage == Started || stage == StartFailed ==>
        startFd == dev.openResult.value || (options.ioMethod == IoMethodMmap && startFd == AfterClose(dev.openResult.value, dev))
      ensures stage == Started ==> fd == startFd == dev.openResult.value && pool == startPool && faulted == startFaulted
      ensures stage == StartFailed ==>
        fd == AfterClose(startFd, dev) && (fd == -1 <==> dev.closeOk)
        && Released(dev, startPool, startFaulted || StartFaults(options.ioMethod, startFd, dev, nBuffers, |startPool|))
    {
      startFd, startPool, startFaulted := fd, pool, faulted;
      if isCapturing {
        return true, AlreadyCapturing, startFd, startPool, startFaulted;
      }
      var isOpen := OpenDevice(dev);
      if !isOpen {
        return false, OpenFailed, startFd, startPool, startFaulted;
      }
      var inited, reconnected := InitDevice(dev);
      if !inited {
        if exited {
          return false, Exited, startFd, startPool, startFaulted;
        }
        var closed := CloseDevice(dev);
        return false, InitFailed(reconnected, closed), startFd, startPool, startFaulted;
      }
      startFd, startPool, startFaulted := fd, pool, faulted;
      var started := StartOrRelease(dev);
      if !started {
        return false, StartFailed, startFd, startPool, startFaulted;
      }
      return true, Started, startFd, startPool, startFaulted;
    }

    /** WaitForDevice's last stage: start_capturing, and on failure uninit_device and close_device. */
    method StartOrRelease(dev: Device) returns (started: bool)
      requires Valid() && !isCapturing
      modifies this`isCapturing, this`faulted, this`pool, this`fd
      ensures Valid() && isCapturing == started
      ensures started == StartOk(options.ioMethod, old(fd), dev, nBuffers, |old(pool)|)
      ensures started ==> fd == old(fd) && pool == old(pool) && faulted == old(faulted)
      ensures !started ==>
        fd == AfterClose(old(fd), dev)
        && Released(dev, old(pool), old(faulted) || StartFaults(options.ioMethod, old(fd), dev, nBuffers, |old(pool)|))
    {
      started := StartCapturing(dev);
      if !started {
        var _ := UninitDevice(dev);
        var _ := CloseDevice(dev);
      }
    }

    /**
     * process_image: a null source fails; so does a combination the dispatch
     * does not cover; otherwise the conversion runs (an out-of-bounds run
     * is undefined behaviour) and the result is true.
     */
    method ProcessImage(src: array?<byte>, len: int, dest: Frame.CameraImage) returns (ok: bool)
      requires dest.image != null && dest.image != src
      modifies this`faulted, src, dest.image
      ensures ok == (src != null && Dispatch(pixelFormat, monochrome, options.outputFormat).Some?)
      ensures src == null ==> faulted == old(faulted) && dest.image[..] == old(dest.image[..])
      ensures src != null ==>
        var conv := Dispatch(pixelFormat, monochrome, options.outputFormat);
        faulted == (old(faulted) || ConvFault(conv, src.Length, len, dest.width, dest.height, dest.image.Length))
        && Processed(conv, arith, len, dest.width, dest.height, old(src[..]), src[..], old(dest.image[..]), dest.image[..])
    {
      if src == null {
        return false;
      }
      var conv := Dispatch(pixelFormat, monochrome, options.outputFormat);
      if conv.None? {
        return false;
      }
      var fault := Convert(conv.value, arith, src, len, dest);
      if fault {
        faulted := true;
      }
      ok := true;
    }

    /**
     * read_frame for read i/o: read() copies the frame into slot 0 (through a
     * null pool pointer when there is no pool), then process_image converts
     * those bytes, and its result is ignored.
     */
    method ReadFrameRead(dev: Device, ev: FrameEvent, img: Frame.CameraImage) returns (ok: bool, ghost used: bool)
      requires Valid() && img.Valid() && img.image !in memory
      modifies this`faulted, img.image, memory
      ensures Valid() && memory == old(memory)
      ensures |old(pool)| == 0 ==> !ok && !used && faulted
      ensures |old(pool)| > 0 && ReadAnswer(fd, ev).ReadFailed? ==>
        !ok && !used && faulted == old(faulted) && img.image[..] == old(img.image[..])
      ensures |old(pool)| > 0 && ReadAnswer(fd, ev).ReadBytes? ==>
        (ok <==> Usable(pool, 0, MemoryUserptr)) && (used <==> pool[0].region.Heap?)
      ensures !used ==> img.image[..] == old(img.image[..])
      ensures used ==>
        |pool| > 0 && pool[0].region.Heap? && ReadAnswer(fd, ev).ReadBytes? &&
        var a := pool[0].region.mem;
        var len := Min(ReadAnswer(fd, ev).count, pool[0].length);
        var conv := Dispatch(pixelFormat, monochrome, options.outputFormat);
        faulted == (old(faulted) || ConvFault(conv, a.Length, len, img.width, img.height, img.image.Length))
        && Processed(conv, arith, len, img.width, img.height, Delivered(old(a[..]), ev.frame, len), a[..],
                     old(img.image[..]), img.image[..])
    {
      used := false;
      if |pool| == 0 {
        faulted := true;
        return false, false;
      }
      var r := ReadAnswer(fd, ev);
      if r.ReadFailed? {
        return false, false;
      }
      // read() never returns more than it was asked for
      var len := Min(r.count, pool[0].length);
      match pool[0].region {
        case NoMemory =>
          var _ := ProcessImage(null, len, img);
        case Heap(a) =>
          Deliver(a, ev.frame, len);
          var _ := ProcessImage(a, len, img);
          used := true;
        case _ =>
          faulted := true;
          return false, false;
      }
      ok := true;
    }

    /**
     * read_frame for memory-mapping i/o: DQBUF (EAGAIN fails quietly, any
     * other error reconnects) hands back a mapped buffer the driver has
     * filled with the frame, the timestamp is copied into the image, the
     * length check (skipped for MJPEG) decides whether process_image
     * converts the buffer, and the same buffer is re-queued either way.
     */
    method ReadFrameMmap(dev: Device, ev: FrameEvent, img: Frame.CameraImage) returns (ok: bool, ghost used: bool)
      requires Valid() && img.Valid() && img.image !in memory
      modifies this`fd, this`pool, this`isCapturing, this`faulted, img`tvSec, img`tvUsec, img.image, memory
      ensures Valid() && memory == old(memory) && (isCapturing ==> old(isCapturing))
      ensures fd == old(fd) || fd == AfterClose(old(fd), dev)
      ensures var dq := DequeueAnswer(old(fd), ev);
        (dq.DequeueFailed? ==> !ok && !used && img.image[..] == old(img.image[..]))
        && (dq.DequeueFailed? && dq.errno == EAGAIN ==> State() == old(State()))
        && (dq.DequeueFailed? && dq.errno != EAGAIN ==>
              !isCapturing && fd == AfterClose(old(fd), dev) && nBuffers == old(nBuffers)
              && Released(dev, old(pool), old(faulted)))
        && (dq.Dequeued? && dq.index >= old(nBuffers) ==> !ok && !used && faulted)
        && (dq.Dequeued? && dq.index < old(nBuffers) ==>
              img.tvSec == dq.tvSec && img.tvUsec == dq.tvUsec
              && fd == old(fd) && pool == old(pool) && isCapturing == old(isCapturing) && nBuffers == old(nBuffers))
        && (dq.Dequeued? && dq.index < old(nBuffers) && !(dq.bytesUsed >= img.width * img.height || pixelFormat == PixMjpeg) ==>
              ok == ev.requeueOk && !used && faulted == old(faulted) && img.image[..] == old(img.image[..]))
        && (dq.Dequeued? && dq.index < old(nBuffers) && (dq.bytesUsed >= img.width * img.height || pixelFormat == PixMjpeg) ==>
              (Usable(pool, dq.index, MemoryMmap) ==> ok == ev.requeueOk)
              && (!Usable(pool, dq.index, MemoryMmap) ==> !ok && faulted)
              && (used <==> Usable(pool, dq.index, MemoryMmap) && pool[dq.index].region.Mapped?))
        && (dq.Dequeued? && dq.index < old(nBuffers) && dq.index < |pool| && pool[dq.index].region.Mapped? && !used ==>
              var a := pool[dq.index].region.mem; a[..] == Delivered(old(a[..]), ev.frame, dq.bytesUsed))
      ensures !used ==> img.image[..] == old(img.image[..])
      ensures used ==> var dq := DequeueAnswer(old(fd), ev);
        dq.Dequeued? && dq.index < |pool| && pool[dq.index].region.Mapped? &&
        var a := pool[dq.index].region.mem;
        var conv := Dispatch(pixelFormat, monochrome, options.outputFormat);
        faulted == (old(faulted) || ConvFault(conv, a.Length, dq.bytesUsed, img.width, img.height, img.image.Length))
        && Processed(conv, arith, dq.bytesUsed, img.width, img.height, Delivered(old(a[..]), ev.frame, dq.bytesUsed), a[..],
                     old(img.image[..]), img.image[..])
    {
      used := false;
      var dq := DequeueAnswer(fd, ev);
      if dq.DequeueFailed? {
        if dq.errno == EAGAIN {
          return false, false;
        }
        Reconnect(dev);
        return false, false;
      }
      if dq.index >= nBuffers {
        faulted := true;
        return false, false;
      }
      if dq.index < |pool| && pool[dq.index].region.Mapped? {
        Deliver(pool[dq.index].region.mem, ev.frame, dq.bytesUsed);
      }
      img.tvSec, img.tvUsec := dq.tvSec, dq.tvUsec;
      var len := dq.bytesUsed;
      if len < img.width * img.height && pixelFormat != PixMjpeg {
        // wrong buffer length: the frame is not processed
      } else {
        if !Usable(pool, dq.index, MemoryMmap) {
          faulted := true;
          return false, false;
        }
        if pool[dq.index].region.Mapped? {
          var _ := ProcessImage(pool[dq.index].region.mem, len, img);
          used := true;
        } else {
          var _ := ProcessImage(null, len, img);
        }
      }
      ok := ev.requeueOk;
    }

    /**
     * read_frame for user-pointer i/o: DQBUF (any failure returns false
     * without reconnecting) hands back a user block the driver has filled
     * with the frame, process_image converts it, and the buffer is
     * re-queued; the timestamp is not copied.
     */
    method ReadFrameUserptr(dev: Device, ev: FrameEvent, img: Frame.CameraImage) returns (ok: bool, ghost used: bool)
      requires Valid() && img.Valid() && img.image !in memory
      modifies this`faulted, img.image, memory
      ensures Valid() && memory == old(memory)
      ensures var dq := DequeueAnswer(fd, ev);
        (dq.DequeueFailed? ==> !ok && !used && faulted == old(faulted) && img.image[..] == old(img.image[..]))
        && (dq.Dequeued? && dq.index >= nBuffers ==> !ok && !used && faulted)
        && (dq.Dequeued? && dq.index < nBuffers ==>
              (Usable(pool, dq.index, MemoryUserptr) ==> ok == ev.requeueOk)
              && (!Usable(pool, dq.index, MemoryUserptr) ==> !ok && faulted)
              && (used <==> Usable(pool, dq.index, MemoryUserptr) && pool[dq.index].region.Heap?))
      ensures !used ==> img.image[..] == old(img.image[..])
      ensures used ==> var dq := DequeueAnswer(fd, ev);
        dq.Dequeued? && dq.index < |pool| && pool[dq.index].region.Heap? &&
        var a := pool[dq.index].region.mem;
        var conv := Dispatch(pixelFormat, monochrome, options.outputFormat);
        faulted == (old(faulted) || ConvFault(conv, a.Length, dq.bytesUsed, img.width, img.height, img.image.Length))
        && Processed(conv, arith, dq.bytesUsed, img.width, img.height, Delivered(old(a[..]), ev.frame, dq.bytesUsed), a[..],
                     old(img.image[..]), img.image[..])
    {
      used := false;
      var dq := DequeueAnswer(fd, ev);
      if dq.DequeueFailed? {
        return false, false;
      }
      // assert(i < n_buffers_)
      if dq.index >= nBuffers || !Usable(pool, dq.index, MemoryUserptr) {
        faulted := true;
        return false, false;
      }
      if pool[dq.index].region.Heap? {
        Deliver(pool[dq.index].region.mem, ev.frame, dq.bytesUsed);
        var _ := ProcessImage(pool[dq.index].region.mem, dq.bytesUsed, img);
        used := true;
      } else {
        var _ := ProcessImage(null, dq.bytesUsed, img);
      }
      ok := ev.requeueOk;
    }

    /** read_frame: the path of the configured i/o method; the unknown method fails. */
    method ReadFrame(dev: Device, ev: FrameEvent, img: Frame.CameraImage) returns (ok: bool)
      requires Valid() && img.Valid() && img.image !in memory
      modifies this`fd, this`pool, this`isCapturing, this`faulted, img`tvSec, img`tvUsec, img.image, memory
      ensures Valid() && memory == old(memory) && (isCapturing ==> old(isCapturing))
      ensures ok == old(FrameOk(ev, img.width, img.height))
      ensures var src := old(FrameSource(ev, img.width, img.height));
        (src.None? ==> img.image[..] == old(img.image[..]))
        && (src.Some? ==>
              var (a, len) := src.value;
              Processed(Dispatch(pixelFormat, monochrome, options.outputFormat), arith, len, img.width, img.height,
                        Delivered(old(a[..]), ev.frame, len), a[..], old(img.image[..]), img.image[..]))
      ensures fd == old(fd) || fd == AfterClose(old(fd), dev)
      ensures options.ioMethod != IoMethodMmap ==> fd == old(fd) && pool == old(pool)
      ensures old(fd) < 0 ==> !ok
      ensures options.ioMethod == IoMethodUnknown ==> !ok && State() == old(State())
    {
      ghost var src := FrameSource(ev, img.width, img.height);
      match options.ioMethod {
        case IoMethodRead =>
          ghost var used;
          ok, used := ReadFrameRead(dev, ev, img);
          assert used == src.Some?;
        case IoMethodMmap =>
          ghost var used;
          ok, used := ReadFrameMmap(dev, ev, img);
          assert used == src.Some?;
        case IoMethodUserptr =>
          ghost var used;
          ok, used := ReadFrameUserptr(dev, ev, img);
          assert used == src.Some?;
        case IoMethodUnknown =>
          ok := false;
      }
    }

    /**
     * Capture: clears the freshness flag and zeroes the image, waits on
     * select() (EINTR fails; a timeout or other error reconnects and goes on
     * to read_frame anyway), and marks the image fresh exactly when
     * read_frame succeeds.  read_frame runs on the descriptor, pool and fault
     * flag select's outcome left (`selFd`, `selPool`, `selFaulted`), and the
     * image then holds the conversion of the frame the kernel delivered into
     * the block read_frame picks, over the zeroed image.  FD_SET of a
     * descriptor of -1 is undefined.
     */
    method Capture(dev: Device, ev: FrameEvent, img: Frame.CameraImage)
      returns (ok: bool, ghost selFd: int, ghost selPool: seq<Slot>, ghost selFaulted: bool)
      requires Valid() && img.Valid() && img.image !in memory
      modifies this`fd, this`pool, this`isCapturing, this`faulted, img`isNew, img`tvSec, img`tvUsec, img.image, memory
      ensures Valid()
      ensures img.isNew == (if ok then 1 else 0)
      ensures old(fd) < 0 ==> !ok && faulted && forall i :: 0 <= i < img.imageSize ==> img.image[i] == 0
      ensures old(fd) >= 0 && ev.select == SelectFailed(EINTR) ==>
        !ok && State() == old(State()) && forall i :: 0 <= i < img.imageSize ==> img.image[i] == 0
      ensures old(fd) >= 0 && ev.select == Readable ==>
        selFd == old(fd) && selPool == old(pool) && selFaulted == old(faulted)
      ensures old(fd) >= 0 && (ev.select == Timeout || (ev.select.SelectFailed? && ev.select.errno != EINTR)) ==>
        selFd == AfterClose(old(fd), dev) && fd == AfterClose(old(fd), dev) && !isCapturing
        && ReleasedPool(options.ioMethod, dev, nBuffers, old(pool), old(faulted), selPool, selFaulted)
      ensures old(fd) >= 0 && ev.select != SelectFailed(EINTR) ==>
        ok == FrameOkAt(options.ioMethod, selFd, selPool, nBuffers, pixelFormat, ev, img.width, img.height)
        && (options.ioMethod != IoMethodMmap ==> fd == selFd && pool == selPool)
      ensures old(fd) >= 0 && ev.select != SelectFailed(EINTR) ==>
        var src := FrameSourceAt(options.ioMethod, selFd, selPool, nBuffers, pixelFormat, ev, img.width, img.height);
        (src.None? ==> img.image[..] == Blank(old(img.image[..]), img.imageSize))
        && (src.Some? ==> src.value.0 in old(memory))
        && (src.Some? && src.value.0 in old(memory) ==>
              var (a, len) := src.value;
              Processed(Dispatch(pixelFormat, monochrome, options.outputFormat), arith, len, img.width, img.height,
                        Delivered(old(a[..]), ev.frame, len), a[..], Blank(old(img.image[..]), img.imageSize),
                        img.image[..]))
      ensures old(fd) >= 0 && ev.select == Readable ==> ok == old(FrameOk(ev, img.width, img.height))
      ensures old(fd) >= 0 && (ev.select == Timeout || (ev.select.SelectFailed? && ev.select.errno != EINTR)) && dev.closeOk ==>
        !ok
    {
      selFd, selPool, selFaulted := fd, pool, faulted;
      img.isNew := 0;
      ZeroPrefix(img.image, img.imageSize);
      if fd < 0 {
        faulted := true;
        return false, selFd, selPool, selFaulted;
      }
      ok, selFd, selPool, selFaulted := CaptureFrame(dev, ev, img);
    }

    /** Capture after the image is cleared, on an open descriptor: select, read_frame and the freshness flag. */
    method CaptureFrame(dev: Device, ev: FrameEvent, img: Frame.CameraImage)
      returns (ok: bool, ghost selFd: int, ghost selPool: seq<Slot>, ghost selFaulted: bool)
      requires Valid() && img.Valid() && img.image !in memory && fd >= 0
      modifies this`fd, this`pool, this`isCapturing, this`faulted, img`isNew, img`tvSec, img`tvUsec, img.image, memory
      ensures Valid() && memory == old(memory)
      ensures img.isNew == (if ok then 1 else old(img.isNew))
      ensures ev.select == SelectFailed(EINTR) ==> !ok && State() == old(State()) && img.image[..] == old(img.image[..])
      ensures ev.select == Readable ==> selFd == old(fd) && selPool == old(pool) && selFaulted == old(faulted)
      ensures ev.select == Timeout || (ev.select.SelectFailed? && ev.select.errno != EINTR) ==>
        selFd == AfterClose(old(fd), dev) && fd == AfterClose(old(fd), dev) && !isCapturing
        && ReleasedPool(options.ioMethod, dev, nBuffers, old(pool), old(faulted), selPool, selFaulted)
      ensures ev.select != SelectFailed(EINTR) ==>
        ok == FrameOkAt(options.ioMethod, selFd, selPool, nBuffers, pixelFormat, ev, img.width, img.height)
        && (options.ioMethod != IoMethodMmap ==> fd == selFd && pool == selPool)
      ensures ev.select != SelectFailed(EINTR) ==>
        var src := FrameSourceAt(options.ioMethod, selFd, selPool, nBuffers, pixelFormat, ev, img.width, img.height);
        (src.None? ==> img.image[..] == old(img.image[..]))
        && (src.Some? ==> src.value.0 in old(memory))
        && (src.Some? && src.value.0 in old(memory) ==>
              var (a, len) := src.value;
              Processed(Dispatch(pixelFormat, monochrome, options.outputFormat), arith, len, img.width, img.height,
                        Delivered(old(a[..]), ev.frame, len), a[..], old(img.image[..]), img.image[..]))
    {
      selFd, selPool, selFaulted := fd, pool, faulted;
      var proceed := AwaitFrame(dev, ev);
      if !proceed {
        return false, selFd, selPool, selFaulted;
      }
      selFd, selPool, selFaulted := fd, pool, faulted;
      ok := ReadAndMark(dev, ev, img);
    }

    /** read_frame followed by the freshness flag, stated over the descriptor and pool it starts from. */
    method ReadAndMark(dev: Device, ev: FrameEvent, img: Frame.CameraImage) returns (ok: bool)
      requires Valid() && img.Valid() && img.image !in memory
      modifies this`fd, this`pool, this`isCapturing, this`faulted, img`isNew, img`tvSec, img`tvUsec, img.image, memory
      ensures Valid() && memory == old(memory)
      ensures img.isNew == (if ok then 1 else old(img.isNew))
      ensures (isCapturing ==> old(isCapturing)) && (fd == old(fd) || fd == AfterClose(old(fd), dev))
      ensures ok == FrameOkAt(options.ioMethod, old(fd), old(pool), nBuffers, pixelFormat, ev, img.width, img.height)
      ensures options.ioMethod != IoMethodMmap ==> fd == old(fd) && pool == old(pool)
      ensures var src := FrameSourceAt(options.ioMethod, old(fd), old(pool), nBuffers, pixelFormat, ev, img.width, img.height);
        (src.None? ==> img.image[..] == old(img.image[..]))
        && (src.Some? ==> src.value.0 in old(memory))
        && (src.Some? && src.value.0 in old(memory) ==>
              var (a, len) := src.value;
              Processed(Dispatch(pixelFormat, monochrome, options.outputFormat), arith, len, img.width, img.height,
                        Delivered(old(a[..]), ev.frame, len), a[..], old(img.image[..]), img.image[..]))
    {
      ok := ReadFrame(dev, ev, img);
      if ok {
        img.isNew := 1;
      }
    }

    /**
     * Capture's select(): EINTR stops the call with nothing changed; a
     * timeout or another error reconnects; in every case but EINTR the call
     * goes on to read_frame.
     */
    method AwaitFrame(dev: Device, ev: FrameEvent) returns (proceed: bool)
      requires Valid()
      modifies this`fd, this`pool, this`isCapturing, this`faulted
      ensures Valid()
      ensures proceed == (ev.select != SelectFailed(EINTR))
      ensures !proceed || ev.select == Readable ==> State() == old(State())
      ensures ev.select == Timeout || (ev.select.SelectFailed? && ev.select.errno != EINTR) ==>
        fd == AfterClose(old(fd), dev) && !isCapturing && Released(dev, old(pool), old(faulted))
    {
      match ev.select {
        case SelectFailed(e) =>
          if e == EINTR {
            return false;
          }
          Reconnect(dev);
        case Timeout =>
          Reconnect(dev);
        case Readable =>
      }
      proceed := true;
    }

    function IsCapturing(): bool
      reads this
    {
      isCapturing
    }
  }
}
