/**
 * The V4L2 capture engine of src/zetton_stream/stream/v4l2_stream_source.cc:
 * the same lifecycle as LegacyV4l2Source with these differences: Init has
 * no 8-bit grey case and falls back to YUYV; init_device skips G_PARM;
 * init_mmap asks for one buffer and takes what is granted; read_frame drops
 * memory-mapped frames that follow the last kept one too closely and skips
 * every short frame; process_image handles YUYV and UYVY capture only.
 */
module StreamV4l2Source {
  import opened Common
  import opened StreamOptions
  import opened V4l2Kernel
  import StreamUri
  import Frame
  import PixelFormat
  import V4l2Util
  import LegacyV4l2Source

  /** Init's table (the second component: the format forces the monochrome option). */
  function StreamNative(f: StreamPixelFormat): Option<(u32, bool)>
  {
    match f
    case PixelYuyv => Some((PixYuyv, false))
    case PixelUyvy => Some((PixUyvy, false))
    case PixelMjpeg => Some((PixMjpeg, false))
    case PixelYuvMono10 => Some((PixYuyv, true))
    case PixelRgb => Some((PixRgb24, false))
    case _ => None
  }

  /**
   * Five formats are accepted, 8-bit grey among the rejected; every format
   * this variant accepts the other one accepts too, with the same fourcc,
   * and 8-bit grey is the only format the other one accepts and this one
   * does not.
   */
  lemma StreamNativeTable(f: StreamPixelFormat)
    ensures StreamNative(f).Some? <==>
      f == PixelYuyv || f == PixelUyvy || f == PixelMjpeg || f == PixelYuvMono10 || f == PixelRgb
    ensures StreamNative(f).Some? ==>
      LegacyV4l2Source.Native(f).Some? && StreamNative(f).value.0 == LegacyV4l2Source.Native(f).value.0
    ensures LegacyV4l2Source.Native(f).Some? && StreamNative(f).None? <==> f == PixelGray8
  {
  }

  /** process_image's conversion: YUYV or UYVY capture into YUYV or RGB output only; the mono option is not consulted. */
  function StreamDispatch(fourcc: u32, output: StreamPixelFormat): Option<Conversion>
  {
    if fourcc == PixYuyv then
      if output == PixelYuyv then Some(YuyvCopy) else if output == PixelRgb then Some(YuyvToRgb) else None
    else if fourcc == PixUyvy then
      if output == PixelYuyv then Some(UyvyToYuyv) else if output == PixelRgb then Some(UyvyToRgb) else None
    else None
  }

  /**
   * Init and process_image together: of the formats Init accepts, only YUYV,
   * UYVY and 10-bit mono (converted as if it were colour YUYV) ever produce
   * an image, and only into YUYV or RGB; MJPEG and RGB24 always fail.
   */
  lemma {:induction false} StreamDispatchAfterInit(f: StreamPixelFormat, output: StreamPixelFormat)
    requires StreamNative(f).Some?
    ensures var conv := StreamDispatch(StreamNative(f).value.0, output);
      (conv.Some? <==> (f == PixelYuyv || f == PixelUyvy || f == PixelYuvMono10) && (output == PixelYuyv || output == PixelRgb))
      && (f == PixelYuvMono10 && output == PixelRgb ==> conv == Some(YuyvToRgb))
  {
    StreamNativeTable(f);
  }

  /**
   * process_image's effect: the conversion's when there is one; for UYVY
   * capture into any other output the source is still swapped in place
   * before the call fails; otherwise nothing changes.
   */
  ghost predicate StreamProcessed(fourcc: u32, output: StreamPixelFormat, arith: V4l2Util.YuvArith, len: int, w: int, h: int,
                                  src0: seq<byte>, src1: seq<byte>, img0: seq<byte>, img1: seq<byte>)
  {
    var conv := StreamDispatch(fourcc, output);
    if conv.Some? then Converted(conv.value, arith, len, w, h, src0, src1, img0, img1)
    else if fourcc == PixUyvy then
      img1 == img0 && |src1| == |src0|
      && if SwapFits(len, |src0|) then src1[..len] == PixelFormat.SwapPairs(src0[..len]) && src1[len..] == src0[len..]
         else src1 == src0
    else src1 == src0 && img1 == img0
  }

  /** process_image runs out of bounds: the conversion's bounds, or the swap's for UYVY into another output. */
  predicate StreamFault(fourcc: u32, output: StreamPixelFormat, srcLength: nat, len: int, w: int, h: int, destLength: nat)
  {
    var conv := StreamDispatch(fourcc, output);
    if conv.Some? then !Fits(conv.value, srcLength, len, w, h, destLength) else fourcc == PixUyvy && !SwapFits(len, srcLength)
  }

  // ---------------------------------------------------------------------
  // Dropping frames by timestamp
  // ---------------------------------------------------------------------

  /**
   * A frame's timestamp in nanoseconds, as an unsigned 64-bit value: the
   * sec/usec pair the image received, composed as seconds * 10^9 plus
   * 1000 * microseconds.
   */
  function Stamp(tvSec: int, tvUsec: int): nat
  {
    (tvSec * 1_000_000_000 + 1000 * tvUsec) % U64Mod
  }

  /** camera_timestamp - last_nsec_ in unsigned 64-bit arithmetic. */
  function Gap(last: nat, stamp: nat): nat
  {
    (stamp - last) % U64Mod
  }

  /**
   * frame_drop_interval_, 0.9 / frame_rate seconds, as an exact real; a
   * frame rate of 0 makes it infinite (None).
   */
  function DropInterval(frameRate: real): Option<real>
  {
    if frameRate == 0.0 then None else Some(0.9 / frameRate)
  }

  /** The frame follows the last kept one by less than the interval (in seconds). */
  predicate TooSoon(gap: nat, interval: Option<real>)
  {
    interval.None? || (gap as real) / 1_000_000_000.0 < interval.value
  }

  /**
   * The drop rule: with no frame kept yet (`last` 0) the frame is kept;
   * otherwise it is dropped (None) when it comes too soon after the last
   * kept one.  A kept frame's stamp becomes the new `last`.
   */
  function DropRule(last: nat, stamp: nat, interval: Option<real>): (r: Option<nat>)
    ensures last == 0 ==> r == Some(stamp)
    ensures last != 0 ==> (r.None? <==> TooSoon(Gap(last, stamp), interval))
    ensures r.Some? ==> r.value == stamp
  {
    if last == 0 then Some(stamp)
    else if TooSoon(Gap(last, stamp), interval) then None
    else Some(stamp)
  }

  /** The stamps kept out of a run of frames, starting from `last`. */
  function Kept(last: nat, stamps: seq<nat>, interval: Option<real>): seq<nat>
    decreases |stamps|
  {
    if |stamps| == 0 then []
    else match DropRule(last, stamps[0], interval)
      case None => Kept(last, stamps[1..], interval)
      case Some(l) => [stamps[0]] + Kept(l, stamps[1..], interval)
  }

  /**
   * Kept frames are spaced: each kept stamp follows the previous kept one
   * (or the starting `last`) by at least the interval, unless that one was
   * 0, and only stamps of the run are kept.
   */
  lemma {:induction false} KeptSpaced(last: nat, stamps: seq<nat>, interval: Option<real>)
    ensures var k := Kept(last, stamps, interval);
      |k| <= |stamps| && (forall x :: x in k ==> x in stamps)
      && (|k| > 0 && last != 0 ==> !TooSoon(Gap(last, k[0]), interval))
      && (forall i :: 0 <= i < |k| - 1 && k[i] != 0 ==> !TooSoon(Gap(k[i], k[i + 1]), interval))
    decreases |stamps|
  {
    if |stamps| > 0 {
      var rest := stamps[1..];
      match DropRule(last, stamps[0], interval) {
        case None =>
          KeptSpaced(last, rest, interval);
          assert Kept(last, stamps, interval) == Kept(last, rest, interval);
          forall x | x in Kept(last, rest, interval) ensures x in stamps {
            assert x in rest;
          }
        case Some(l) =>
          KeptSpaced(l, rest, interval);
          var tail := Kept(l, rest, interval);
          var k := Kept(last, stamps, interval);
          assert k == [stamps[0]] + tail;
          forall x | x in k ensures x in stamps {
            if x != stamps[0] {
              assert x in tail;
              assert x in rest;
            }
          }
          forall i | 0 <= i < |k| - 1 && k[i] != 0 ensures !TooSoon(Gap(k[i], k[i + 1]), interval) {
            if i > 0 {
              assert k[i] == tail[i - 1] && k[i + 1] == tail[i];
            } else {
              assert k[1] == tail[0];
            }
          }
      }
    }
  }

  /** The first frame is always kept; with a positive interval a frame stamped like the last kept one is dropped, and with an infinite one every frame after the first. */
  lemma DropRuleEdges(last: nat, stamp: nat, interval: Option<real>)
    ensures DropRule(0, stamp, interval) == Some(stamp)
    ensures stamp != 0 && interval.Some? && interval.value > 0.0 ==> DropRule(stamp, stamp, interval).None?
    ensures last != 0 && interval.None? ==> DropRule(last, stamp, interval).None?
  {
  }

  /**
   * What init_device leaves for i/o method `io`, on descriptor `fd`, for an
   * image of `size` bytes: the pool and count it ends with (`pool`, `n`)
   * from the pool and count it found.  Memory mapping asks for one buffer
   * and leaves everything as it was when refused.
   */
  predicate Inited(io: StreamIoMethod, fd: int, dev: Device, size: u32, pool0: seq<Slot>, n0: nat, pool: seq<Slot>, n: nat)
  {
    match io
    case IoMethodRead => n == n0 && |pool| == 1 && pool[0].length == size && pool[0].region.Heap?
    case IoMethodUserptr =>
      if RequestAnswer(fd, dev, MemoryUserptr, 4).Granted? then UserPool(dev, size, pool, n) else pool == pool0 && n == n0
    case IoMethodMmap =>
      var g := RequestAnswer(fd, dev, MemoryMmap, 1);
      if g.Refused? then pool == pool0 && n == n0 else MappedPool(dev, g.count, pool, n)
    case IoMethodUnknown => pool == pool0 && n == n0
  }

  /**
   * Whether read_frame succeeds, from the state it starts in, the kernel's
   * answers for the frame and the image's width and height: read i/o needs
   * a read() answer and a usable slot 0; the streaming methods need a
   * dequeued index below n_buffers_, a re-queue that succeeds and, when the
   * frame is processed, a usable slot; memory mapping also needs the frame
   * to pass the drop rule against `lastNsec`, and processes it only when it
   * is long enough.
   */
  predicate FrameOkAt(io: StreamIoMethod, fd: int, pool: seq<Slot>, nBuffers: nat, pixelFormat: u32,
                      lastNsec: nat, dropInterval: Option<real>, ev: FrameEvent, width: int, height: int)
  {
    match io
    case IoMethodRead => ReadAnswer(fd, ev).ReadBytes? && Usable(pool, 0, MemoryUserptr)
    case IoMethodMmap =>
      var dq := DequeueAnswer(fd, ev);
      dq.Dequeued? && dq.index < nBuffers && ev.requeueOk
      && DropRule(lastNsec, Stamp(dq.tvSec, dq.tvUsec), dropInterval).Some?
      && (dq.bytesUsed >= width * height ==> Usable(pool, dq.index, MemoryMmap))
    case IoMethodUserptr =>
      var dq := DequeueAnswer(fd, ev);
      dq.Dequeued? && dq.index < nBuffers && Usable(pool, dq.index, MemoryUserptr) && ev.requeueOk
    case IoMethodUnknown => false
  }

  /**
   * The block process_image converts and the byte count it is given, when
   * read_frame converts a block at all: slot 0 after a read() for read i/o,
   * the dequeued slot for the streaming methods (for memory mapping, only a
   * frame the drop rule keeps and that is long enough).  None when it
   * converts nothing or is handed a null pointer.
   */
  function FrameSourceAt(io: StreamIoMethod, fd: int, pool: seq<Slot>, nBuffers: nat, lastNsec: nat,
                         dropInterval: Option<real>, ev: FrameEvent, width: int, height: int): Option<(array<byte>, nat)>
  {
    match io
    case IoMethodRead =>
      var r := ReadAnswer(fd, ev);
      if r.ReadBytes? && |pool| > 0 && pool[0].region.Heap? then Some((pool[0].region.mem, Min(r.count, pool[0].length)))
      else None
    case IoMethodMmap =>
      var dq := DequeueAnswer(fd, ev);
      if dq.Dequeued? && dq.index < nBuffers && dq.index < |pool| && pool[dq.index].region.Mapped?
         && DropRule(lastNsec, Stamp(dq.tvSec, dq.tvUsec), dropInterval).Some? && dq.bytesUsed >= width * height
      then Some((pool[dq.index].region.mem, dq.bytesUsed))
      else None
    case IoMethodUserptr =>
      var dq := DequeueAnswer(fd, ev);
      if dq.Dequeued? && dq.index < nBuffers && dq.index < |pool| && pool[dq.index].region.Heap?
      then Some((pool[dq.index].region.mem, dq.bytesUsed))
      else None
    case IoMethodUnknown => None
  }

  class V4l2StreamSource {
    var options: Options
    var pixelFormat: u32
    /** options_.monochrome: set for 10-bit mono, never consulted afterwards. */
    var monochrome: bool
    var fd: int
    /** buffers_, one element per slot; [] stands for the null pointer. */
    var pool: seq<Slot>
    var nBuffers: nat
    var isCapturing: bool
    var faulted: bool
    /** last_nsec_: the stamp of the last kept memory-mapped frame, 0 before the first. */
    var lastNsec: nat
    /** frame_drop_interval_. */
    var dropInterval: Option<real>
    /** Every block a slot has ever pointed at. */
    ghost var memory: set<array<byte>>
    /** The arithmetic of convert_yuv_to_rgb_pixel. */
    const arith: V4l2Util.YuvArith

    /** Every slot's block is part of `memory`, so it is never the caller's image. */
    ghost predicate Valid()
      reads this
    {
      forall i :: 0 <= i < |pool| && pool[i].region.HasMem() ==> pool[i].region.mem in memory
    }

    /** The fields the frame path and the teardown change. */
    ghost function State(): (int, seq<Slot>, nat, bool, bool)
      reads this
    {
      (fd, pool, nBuffers, isCapturing, faulted)
    }

    /** The pool after uninit_device's loop for the configured i/o method. */
    ghost predicate Released(dev: Device, pool0: seq<Slot>, faulted0: bool)
      reads this
    {
      ReleasedPool(options.ioMethod, dev, nBuffers, pool0, faulted0, pool, faulted)
    }

    /** Whether read_frame succeeds from the engine's current state. */
    predicate FrameOk(ev: FrameEvent, width: int, height: int)
      reads this
    {
      FrameOkAt(options.ioMethod, fd, pool, nBuffers, pixelFormat, lastNsec, dropInterval, ev, width, height)
    }

    /** The block read_frame converts from the engine's current state. */
    function FrameSource(ev: FrameEvent, width: int, height: int): Option<(array<byte>, nat)>
      reads this
    {
      FrameSourceAt(options.ioMethod, fd, pool, nBuffers, lastNsec, dropInterval, ev, width, height)
    }

    /**
     * The constructor: no descriptor, no pool, not capturing, no frame kept
     * and a drop interval of 0; the fourcc and mono flag hold whatever the
     * object's memory held until Init sets them.
     */
    constructor (arith: V4l2Util.YuvArith, protocol: StreamUri.StreamProtocolType, platform: StreamPlatformType,
                 pixelFormat: u32, monochrome: bool)
      ensures Valid() && this.arith == arith
      ensures options == DefaultOptions(protocol, platform)
      ensures fd == -1 && pool == [] && nBuffers == 0 && !isCapturing && !faulted
      ensures lastNsec == 0 && dropInterval == Some(0.0)
      ensures this.pixelFormat == pixelFormat && this.monochrome == monochrome
    {
      this.arith := arith;
      options := DefaultOptions(protocol, platform);
      this.pixelFormat, this.monochrome := pixelFormat, monochrome;
      fd, pool, nBuffers := -1, [], 0;
      isCapturing, faulted := false, false;
      lastNsec, dropInterval := 0, Some(0.0);
      memory := {};
    }

    /**
     * Init: stores the options and picks the fourcc; an unsupported format
     * falls back to YUYV and fails before the drop interval is set.
     */
    method Init(o: Options) returns (ok: bool)
      modifies this`options, this`pixelFormat, this`monochrome, this`dropInterval
      ensures options == o
      ensures ok == StreamNative(o.pixelFormat).Some?
      ensures ok ==> pixelFormat == StreamNative(o.pixelFormat).value.0 && dropInterval == DropInterval(o.frameRate)
      ensures monochrome == (old(monochrome) || o.pixelFormat == PixelYuvMono10)
      ensures !ok ==> pixelFormat == PixYuyv && dropInterval == old(dropInterval)
    {
      options := o;
      var f := o.pixelFormat;
      if f == PixelYuyv {
        pixelFormat := PixYuyv;
      } else if f == PixelUyvy {
        pixelFormat := PixUyvy;
      } else if f == PixelMjpeg {
        pixelFormat := PixMjpeg;
      } else if f == PixelYuvMono10 {
        pixelFormat := PixYuyv;
        monochrome := true;
      } else if f == PixelRgb {
        pixelFormat := PixRgb24;
      } else {
        pixelFormat := PixYuyv;
        return false;
      }
      dropInterval := DropInterval(o.frameRate);
      ok := true;
    }

    /** open_device: stat and S_ISCHR must pass before open() is tried. */
    method OpenDevice(dev: Device) returns (ok: bool)
      modifies this`fd
      ensures ok == (dev.statOk && dev.isCharDevice && dev.openResult.Some?)
      ensures ok ==> fd == dev.openResult.value
      ensures !(dev.statOk && dev.isCharDevice) ==> fd == old(fd)
      ensures dev.statOk && dev.isCharDevice && dev.openResult.None? ==> fd == -1
    {
      if !dev.statOk || !dev.isCharDevice {
        return false;
      }
      match dev.openResult {
        case None =>
          fd := -1;
          ok := false;
        case Some(d) =>
          fd := d;
          ok := true;
      }
    }

    /** close_device: fails on -1 (or when close fails) and leaves the descriptor as it was. */
    method CloseDevice(dev: Device) returns (ok: bool)
      modifies this`fd
      ensures ok == (old(fd) >= 0 && dev.closeOk)
      ensures fd == AfterClose(old(fd), dev)
    {
      if fd < 0 || !dev.closeOk {
        return false;
      }
      fd := -1;
      ok := true;
    }

    /** init_read: one heap slot of the image size. */
    method InitRead(size: u32) returns (ok: bool)
      requires Valid()
      modifies this`pool, this`memory
      ensures Valid() && ok
      ensures |pool| == 1 && pool[0].length == size && pool[0].region.Heap?
      ensures fresh(pool[0].region.mem) && pool[0].region.mem.Length == size
    {
      var a := new byte[size];
      pool := [Slot(size, Heap(a))];
      memory := memory + {a};
      ok := true;
    }

    /**
     * init_mmap: asks for one buffer; any REQBUFS error fails without
     * reconnecting; otherwise each granted buffer is queried and mapped in
     * turn until one fails.
     */
    method InitMmap(dev: Device) returns (ok: bool)
      requires Valid()
      modifies this`pool, this`nBuffers, this`memory
      ensures Valid()
      ensures var g := RequestAnswer(fd, dev, MemoryMmap, 1);
        (g.Refused? ==> !ok && pool == old(pool) && nBuffers == old(nBuffers))
        && (g.Granted? ==>
              |pool| == g.count && nBuffers <= g.count
              && (ok <==> forall i :: 0 <= i < g.count ==> dev.queryBuffer(i).Some? && dev.mmapOk(i))
              && (ok == (nBuffers == g.count))
              && forall i :: 0 <= i < nBuffers ==>
                   dev.queryBuffer(i) == Some(pool[i].length) && pool[i].region.Mapped? && fresh(pool[i].region.mem))
    {
      var g := RequestAnswer(fd, dev, MemoryMmap, 1);
      if g.Refused? {
        return false;
      }
      ok := MapBuffers(dev, g.count);
    }

    /** init_mmap's loop: QUERYBUF and mmap of each granted buffer in turn, until one fails. */
    method MapBuffers(dev: Device, count: nat) returns (ok: bool)
      requires Valid()
      modifies this`pool, this`nBuffers, this`memory
      ensures Valid()
      ensures |pool| == count && nBuffers <= count
      ensures ok <==> forall i :: 0 <= i < count ==> dev.queryBuffer(i).Some? && dev.mmapOk(i)
      ensures ok == (nBuffers == count)
      ensures forall i :: 0 <= i < nBuffers ==>
        dev.queryBuffer(i) == Some(pool[i].length) && pool[i].region.Mapped? && fresh(pool[i].region.mem)
    {
      pool := EmptySlots(count);
      nBuffers := 0;
      while nBuffers < count
        invariant 0 <= nBuffers <= count && |pool| == count && Valid()
        invariant forall i :: 0 <= i < nBuffers ==> dev.queryBuffer(i).Some? && dev.mmapOk(i)
        invariant forall i :: 0 <= i < nBuffers ==>
          dev.queryBuffer(i) == Some(pool[i].length) && pool[i].region.Mapped? && fresh(pool[i].region.mem)
      {
        var q := dev.queryBuffer(nBuffers);
        if q.None? {
          return false;
        }
        if !dev.mmapOk(nBuffers) {
          pool := pool[nBuffers := Slot(q.value, MapFailed)];
          return false;
        }
        var a := new byte[q.value];
        pool := pool[nBuffers := Slot(q.value, Mapped(a))];
        memory := memory + {a};
        nBuffers := nBuffers + 1;
      }
      ok := true;
    }

    /**
     * init_userp: the size is rounded up to the page size; REQBUFS for 4
     * buffers must succeed, and then 4 page-aligned heap slots are made,
     * whatever count the driver granted.
     */
    method InitUserp(dev: Device, size: u32) returns (ok: bool)
      requires Valid()
      modifies this`pool, this`nBuffers, this`memory
      ensures Valid()
      ensures ok == RequestAnswer(fd, dev, MemoryUserptr, 4).Granted?
      ensures !ok ==> pool == old(pool) && nBuffers == old(nBuffers)
      ensures ok ==> nBuffers == 4 && |pool| == 4
      ensures ok ==> forall i :: 0 <= i < 4 ==>
        pool[i].length == RoundUpToPage(size, dev.pageSize) && pool[i].region.Heap?
        && fresh(pool[i].region.mem) && pool[i].region.mem.Length == pool[i].length
    {
      var bufferSize := RoundUpToPage(size, dev.pageSize);
      var g := RequestAnswer(fd, dev, MemoryUserptr, 4);
      if g.Refused? {
        return false;
      }
      pool := EmptySlots(4);
      nBuffers := 0;
      while nBuffers < 4
        invariant 0 <= nBuffers <= 4 && |pool| == 4 && Valid()
        invariant forall i :: 0 <= i < nBuffers ==>
          pool[i].length == bufferSize && pool[i].region.Heap?
          && fresh(pool[i].region.mem) && pool[i].region.mem.Length == bufferSize
        modifies this`pool, this`nBuffers, this`memory
      {
        var a := new byte[bufferSize];
        pool := pool[nBuffers := Slot(bufferSize, Heap(a))];
        memory := memory + {a};
        nBuffers := nBuffers + 1;
      }
      ok := true;
    }

    /**
     * init_device: negotiates the format and adopts the driver's width and
     * height; then the pool for the i/o method is made and its outcome
     * ignored, so the result is true.  S_PARM's outcome is ignored too.
     */
    method InitDevice(dev: Device) returns (ok: bool)
      requires Valid()
      modifies this`options, this`pool, this`nBuffers, this`memory
      ensures Valid()
      ensures var neg := Negotiate(fd, dev, old(options).ioMethod, old(options).width, old(options).height, pixelFormat);
        ok == neg.Some?
        && (!ok ==> options == old(options) && pool == old(pool) && nBuffers == old(nBuffers))
        && (ok ==> options == old(options).(width := neg.value.width, height := neg.value.height))
        && (ok && options.ioMethod == IoMethodRead ==>
              |pool| == 1 && pool[0] == Slot(neg.value.sizeImage, pool[0].region) && pool[0].region.Heap?)
        && (ok && options.ioMethod == IoMethodUserptr && RequestAnswer(fd, dev, MemoryUserptr, 4).Granted? ==>
              nBuffers == 4 && |pool| == 4
              && forall i :: 0 <= i < 4 ==>
                   pool[i].length == RoundUpToPage(neg.value.sizeImage, dev.pageSize) && pool[i].region.Heap?)
        && (ok && options.ioMethod == IoMethodUserptr && RequestAnswer(fd, dev, MemoryUserptr, 4).Refused? ==>
              pool == old(pool) && nBuffers == old(nBuffers))
        && (ok && options.ioMethod == IoMethodMmap ==>
              var g := RequestAnswer(fd, dev, MemoryMmap, 1);
              (g.Refused? ==> pool == old(pool) && nBuffers == old(nBuffers))
              && (g.Granted? ==>
                    |pool| == g.count && nBuffers <= g.count
                    && (nBuffers == g.count <==> forall i :: 0 <= i < g.count ==> dev.queryBuffer(i).Some? && dev.mmapOk(i))
                    && forall i :: 0 <= i < nBuffers ==>
                         dev.queryBuffer(i) == Some(pool[i].length) && pool[i].region.Mapped?))
        && (ok && options.ioMethod == IoMethodUnknown ==> pool == old(pool) && nBuffers == old(nBuffers))
        && (ok ==> Inited(options.ioMethod, fd, dev, neg.value.sizeImage, old(pool), old(nBuffers), pool, nBuffers))
    {
      var neg := Negotiate(fd, dev, options.ioMethod, options.width, options.height, pixelFormat);
      if neg.None? {
        return false;
      }
      var f := neg.value;
      options := options.(width := f.width, height := f.height);
      match options.ioMethod {
        case IoMethodRead =>
          var _ := InitRead(f.sizeImage);
        case IoMethodMmap =>
          var _ := InitMmap(dev);
        case IoMethodUserptr =>
          var _ := InitUserp(dev, f.sizeImage);
        case IoMethodUnknown =>
      }
      ok := true;
    }

    /**
     * start_capturing: nothing to do when already capturing; otherwise the
     * flag is set only once every QBUF and STREAMON succeeded.
     */
    method StartCapturing(dev: Device) returns (ok: bool)
      modifies this`isCapturing, this`faulted
      ensures old(isCapturing) ==> ok && isCapturing && faulted == old(faulted)
      ensures !old(isCapturing) ==> isCapturing == ok
      ensures !old(isCapturing) && !StartFaults(options.ioMethod, fd, dev, nBuffers, |pool|) ==>
        ok == StartOk(options.ioMethod, fd, dev, nBuffers, |pool|) && faulted == old(faulted)
      ensures !old(isCapturing) && StartFaults(options.ioMethod, fd, dev, nBuffers, |pool|) ==> !ok && faulted
    {
      if isCapturing {
        return true;
      }
      match options.ioMethod {
        case IoMethodRead =>
        case IoMethodMmap =>
          var i := 0;
          while i < nBuffers
            invariant 0 <= i <= nBuffers
            invariant (i > 0 ==> fd >= 0) && forall j :: 0 <= j < i ==> dev.queueOk(j)
          {
            if fd < 0 || !dev.queueOk(i) {
              return false;
            }
            i := i + 1;
          }
          if fd < 0 || !dev.streamOnOk {
            return false;
          }
        case IoMethodUserptr =>
          var i := 0;
          while i < nBuffers
            invariant 0 <= i <= nBuffers
            invariant i <= |pool|
            invariant (i > 0 ==> fd >= 0) && forall j :: 0 <= j < i ==> dev.queueOk(j)
          {
            if i >= |pool| {
              assert StartFaults(options.ioMethod, fd, dev, nBuffers, |pool|);
              faulted := true;
              return false;
            }
            if fd < 0 || !dev.queueOk(i) {
              return false;
            }
            i := i + 1;
          }
          if fd < 0 || !dev.streamOnOk {
            return false;
          }
        case IoMethodUnknown =>
          return false;
      }
      isCapturing := true;
      ok := true;
    }

    /** stop_capturing: clears the flag before STREAMOFF, so the flag is cleared even when STREAMOFF fails. */
    method StopCapturing(dev: Device) returns (ok: bool)
      modifies this`isCapturing
      ensures !isCapturing
      ensures ok == (!old(isCapturing) || StopOk(options.ioMethod, fd, dev))
    {
      if !isCapturing {
        return true;
      }
      isCapturing := false;
      match options.ioMethod {
        case IoMethodRead =>
        case IoMethodMmap =>
          if fd < 0 || !dev.streamOffOk {
            return false;
          }
        case IoMethodUserptr =>
          if fd < 0 || !dev.streamOffOk {
            return false;
          }
        case IoMethodUnknown =>
          return false;
      }
      ok := true;
    }

    /**
     * uninit_device: frees or unmaps the slots, and never resets the pool or
     * its count; only a failing munmap makes it return false.
     */
    method UninitDevice(dev: Device) returns (ok: bool)
      requires Valid()
      modifies this`pool, this`faulted
      ensures Valid() && Released(dev, old(pool), old(faulted))
      ensures ok == (options.ioMethod != IoMethodMmap || UnmapFrom(old(pool), dev.munmapOk, 0, nBuffers).1 != UnmapFailed)
    {
      ok := true;
      match options.ioMethod {
        case IoMethodRead =>
          ReleaseSlots(1);
        case IoMethodUserptr =>
          ReleaseSlots(nBuffers);
        case IoMethodMmap =>
          var i := 0;
          while i < nBuffers
            invariant 0 <= i <= nBuffers && |pool| == |old(pool)| && Valid() && faulted == old(faulted)
            invariant UnmapFrom(pool, dev.munmapOk, i, nBuffers) == UnmapFrom(old(pool), dev.munmapOk, 0, nBuffers)
            decreases nBuffers - i
          {
            if i >= |pool| {
              faulted := true;
              return;
            }
            pool := pool[i := Unmap(pool[i], dev.munmapOk(i))];
            if !dev.munmapOk(i) {
              return false;
            }
            i := i + 1;
          }
        case IoMethodUnknown =>
      }
    }

    /** The free loop over slots 0..n-1. */
    method ReleaseSlots(n: nat)
      requires Valid()
      modifies this`pool, this`faulted
      ensures Valid() && |pool| == |old(pool)|
      ensures var r := FreeFrom(old(pool), 0, n);
        if r.Some? then pool == r.value && faulted == old(faulted) else faulted
    {
      var i := 0;
      while i < n
        invariant 0 <= i <= n && |pool| == |old(pool)| && Valid() && faulted == old(faulted)
        invariant FreeFrom(pool, i, n) == FreeFrom(old(pool), 0, n)
      {
        if i >= |pool| {
          faulted := true;
          return;
        }
        var s := Free(pool[i]);
        if s.None? {
          faulted := true;
          return;
        }
        pool := pool[i := s.value];
        i := i + 1;
      }
    }

    /** reconnect: stop, uninit and close, each outcome ignored. */
    method Reconnect(dev: Device)
      requires Valid()
      modifies this`isCapturing, this`pool, this`faulted, this`fd
      ensures Valid() && !isCapturing && fd == AfterClose(old(fd), dev)
      ensures Released(dev, old(pool), old(faulted))
    {
      var _ := StopCapturing(dev);
      var _ := UninitDevice(dev);
      var _ := CloseDevice(dev);
    }

    /** The destructor: stop, uninit and close, each outcome ignored. */
    method Destroy(dev: Device)
      requires Valid()
      modifies this`isCapturing, this`pool, this`faulted, this`fd
      ensures Valid() && !isCapturing && fd == AfterClose(old(fd), dev)
      ensures Released(dev, old(pool), old(faulted))
    {
      var _ := StopCapturing(dev);
      var _ := UninitDevice(dev);
      var _ := CloseDevice(dev);
    }

    /**
     * wait_for_device: nothing when already capturing; otherwise open, init
     * and start, cleaning up after the stage that failed.  It succeeds
     * exactly when open, negotiation and start_capturing succeed;
     * start_capturing runs on the opened descriptor and the pool init_device
     * left (`startPool`, as Inited states it from the pool and count found at
     * entry), and a failed start releases that pool and closes the
     * descriptor.
     */
    method WaitForDevice(dev: Device) returns (ok: bool, ghost stage: Stage, ghost startPool: seq<Slot>)
      requires Valid()
      modifies this`options, this`fd, this`pool, this`nBuffers, this`isCapturing, this`faulted, this`memory
      ensures Valid()
      ensures old(isCapturing) ==> ok && stage == AlreadyCapturing && State() == old(State()) && options == old(options)
      ensures !old(isCapturing) ==>
        (ok <==> dev.statOk && dev.isCharDevice && dev.openResult.Some?
                 && Negotiate(dev.openResult.value, dev, old(options).ioMethod, old(options).width, old(options).height,
                              pixelFormat).Some?
                 && StartOk(options.ioMethod, dev.openResult.value, dev, nBuffers, |startPool|))
      ensures ok <==> stage == AlreadyCapturing || stage == Started
      ensures ok ==> isCapturing
      ensures !ok ==> !isCapturing
      ensures !old(isCapturing) && !(dev.statOk && dev.isCharDevice && dev.openResult.Some?) ==>
        stage == OpenFailed && pool == old(pool) && nBuffers == old(nBuffers)
      ensures stage.InitFailed? ==>
        !stage.reconnected && (stage.closed <==> dev.closeOk) && fd == AfterClose(dev.openResult.value, dev)
        && pool == old(pool)
      ensures stage == Started || stage == StartFailed ==>
        var neg := Negotiate(dev.openResult.value, dev, old(options).ioMethod, old(options).width, old(options).height,
                             pixelFormat);
        neg.Some?
        && Inited(options.ioMethod, dev.openResult.value, dev, neg.value.sizeImage, old(pool), old(nBuffers),
                  startPool, nBuffers)
      ensures stage == Started ==> fd == dev.openResult.value && pool == startPool && faulted == old(faulted)
      ensures stage == StartFailed ==>
        fd == AfterClose(dev.openResult.value, dev)
        && Released(dev, startPool, old(faulted) || StartFaults(options.ioMethod, dev.openResult.value, dev, nBuffers, |startPool|))
    {
      startPool := pool;
      if isCapturing {
        return true, AlreadyCapturing, startPool;
      }
      var isOpen := OpenDevice(dev);
      if !isOpen {
        return false, OpenFailed, startPool;
      }
      var inited := InitDevice(dev);
      if !inited {
        var closed := CloseDevice(dev);
        return false, InitFailed(false, closed), startPool;
      }
      startPool := pool;
      var started := StartOrRelease(dev);
      if !started {
        return false, StartFailed, startPool;
      }
      return true, Started, startPool;
    }

    /** WaitForDevice's last stage: start_capturing, and on failure uninit_device and close_device. */
    method StartOrRelease(dev: Device) returns (started: bool)
      requires Valid() && !isCapturing
      modifies this`isCapturing, this`faulted, this`pool, this`fd
      ensures Valid() && isCapturing == started
      ensures started == StartOk(options.ioMethod, old(fd), dev, nBuffers, |old(pool)|)
      ensures started ==> fd == old(fd) && pool == old(pool) && faulted == old(faulted)
      ensures !started ==>
        fd == AfterClose(old(fd), dev)
        && Released(dev, old(pool), old(faulted) || StartFaults(options.ioMethod, old(fd), dev, nBuffers, |old(pool)|))
    {
      started := StartCapturing(dev);
      if !started {
        var _ := UninitDevice(dev);
        var _ := CloseDevice(dev);
      }
    }

    /**
     * process_image: a null source fails; YUYV and UYVY capture are the only
     * ones handled, UYVY being swapped into YUYV in place first; then YUYV
     * output is copied and RGB output converted, and any other output fails
     * after the swap.  An out-of-bounds run is undefined behaviour.
     */
    method ProcessImage(src: array?<byte>, len: int, dest: Frame.CameraImage) returns (ok: bool)
      requires dest.image != null && dest.image != src
      modifies this`faulted, src, dest.image
      ensures ok == (src != null && StreamDispatch(pixelFormat, options.outputFormat).Some?)
      ensures src == null ==> faulted == old(faulted) && dest.image[..] == old(dest.image[..])
      ensures src != null ==>
        faulted == (old(faulted) || StreamFault(pixelFormat, options.outputFormat, src.Length, len, dest.width, dest.height, dest.image.Length))
        && StreamProcessed(pixelFormat, options.outputFormat, arith, len, dest.width, dest.height,
                           old(src[..]), src[..], old(dest.image[..]), dest.image[..])
    {
      if src == null {
        return false;
      }
      var conv := StreamDispatch(pixelFormat, options.outputFormat);
      if conv.Some? {
        var fault := Convert(conv.value, arith, src, len, dest);
        if fault {
          faulted := true;
        }
        return true;
      }
      if pixelFormat == PixUyvy {
        if SwapFits(len, src.Length) {
          PixelFormat.Uyvy2Yuyv(src, len);
        } else {
          faulted := true;
        }
      }
      ok := false;
    }

    /**
     * read_frame for read i/o: read() copies the frame into slot 0 (through a
     * null pool pointer when there is no pool), then process_image converts
     * those bytes, and its result is ignored.
     */
    method ReadFrameRead(dev: Device, ev: FrameEvent, img: Frame.CameraImage) returns (ok: bool, ghost used: bool)
      requires Valid() && img.Valid() && img.image !in memory
      modifies this`faulted, img.image, memory
      ensures Valid() && memory == old(memory)
      ensures |old(pool)| == 0 ==> !ok && !used && faulted
      ensures |old(pool)| > 0 && ReadAnswer(fd, ev).ReadFailed? ==>
        !ok && !used && faulted == old(faulted) && img.image[..] == old(img.image[..])
      ensures |old(pool)| > 0 && ReadAnswer(fd, ev).ReadBytes? ==>
        (ok <==> Usable(pool, 0, MemoryUserptr)) && (used <==> pool[0].region.Heap?)
      ensures !used ==> img.image[..] == old(img.image[..])
      ensures used ==>
        |pool| > 0 && pool[0].region.Heap? && ReadAnswer(fd, ev).ReadBytes? &&
        var a := pool[0].region.mem;
        var len := Min(ReadAnswer(fd, ev).count, pool[0].length);
        faulted == (old(faulted) || StreamFault(pixelFormat, options.outputFormat, a.Length, len, img.width, img.height, img.image.Length))
        && StreamProcessed(pixelFormat, options.outputFormat, arith, len, img.width, img.height,
                           Delivered(old(a[..]), ev.frame, len), a[..], old(img.image[..]), img.image[..])
    {
      used := false;
      if |pool| == 0 {
        faulted := true;
        return false, false;
      }
      var r := ReadAnswer(fd, ev);
      if r.ReadFailed? {
        return false, false;
      }
      // read() never returns more than it was asked for
      var len := Min(r.count, pool[0].length);
      match pool[0].region {
        case NoMemory =>
          var _ := ProcessImage(null, len, img);
        case Heap(a) =>
          Deliver(a, ev.frame, len);
          var _ := ProcessImage(a, len, img);
          used := true;
        case _ =>
          faulted := true;
          return false, false;
      }
      ok := true;
    }

    /**
     * read_frame for memory-mapping i/o: DQBUF (EAGAIN fails quietly, any
     * other error reconnects) hands back a mapped buffer the driver has
     * filled with the frame, and the timestamp is copied into the image; a
     * frame that comes too soon after the last kept one is re-queued and
     * dropped; otherwise its stamp is kept, the length check decides whether
     * process_image runs, and the buffer is re-queued either way.
     */
    method ReadFrameMmap(dev: Device, ev: FrameEvent, img: Frame.CameraImage) returns (ok: bool, ghost used: bool)
      requires Valid() && img.Valid() && img.image !in memory
      modifies this`fd, this`pool, this`isCapturing, this`faulted, this`lastNsec, img`tvSec, img`tvUsec, img.image, memory
      ensures Valid() && memory == old(memory) && (isCapturing ==> old(isCapturing))
      ensures fd == old(fd) || fd == AfterClose(old(fd), dev)
      ensures var dq := DequeueAnswer(old(fd), ev);
        (dq.DequeueFailed? ==> !ok && !used && lastNsec == old(lastNsec) && img.image[..] == old(img.image[..]))
        && (dq.DequeueFailed? && dq.errno == EAGAIN ==> State() == old(State()))
        && (dq.DequeueFailed? && dq.errno != EAGAIN ==>
              !isCapturing && fd == AfterClose(old(fd), dev) && nBuffers == old(nBuffers)
              && Released(dev, old(pool), old(faulted)))
        && (dq.Dequeued? && dq.index >= old(nBuffers) ==> !ok && !used && faulted && lastNsec == old(lastNsec))
        && (dq.Dequeued? && dq.index < old(nBuffers) ==>
              img.tvSec == dq.tvSec && img.tvUsec == dq.tvUsec
              && fd == old(fd) && pool == old(pool) && isCapturing == old(isCapturing) && nBuffers == old(nBuffers)
              && var d := DropRule(old(lastNsec), Stamp(dq.tvSec, dq.tvUsec), dropInterval);
                 (d.None? ==> !ok && !used && lastNsec == old(lastNsec) && faulted == old(faulted) && img.image[..] == old(img.image[..]))
                 && (d.Some? ==> lastNsec == d.value)
                 && (d.Some? && dq.bytesUsed < img.width * img.height ==>
                       ok == ev.requeueOk && !used && faulted == old(faulted) && img.image[..] == old(img.image[..]))
                 && (d.Some? && dq.bytesUsed >= img.width * img.height ==>
                       (Usable(pool, dq.index, MemoryMmap) ==> ok == ev.requeueOk)
                       && (!Usable(pool, dq.index, MemoryMmap) ==> !ok && faulted)
                       && (used <==> Usable(pool, dq.index, MemoryMmap) && pool[dq.index].region.Mapped?)))
        && (dq.Dequeued? && dq.index < old(nBuffers) && dq.index < |pool| && pool[dq.index].region.Mapped? && !used ==>
              var a := pool[dq.index].region.mem; a[..] == Delivered(old(a[..]), ev.frame, dq.bytesUsed))
      ensures !used ==> img.image[..] == old(img.image[..])
      ensures used ==> var dq := DequeueAnswer(old(fd), ev);
        dq.Dequeued? && dq.index < |pool| && pool[dq.index].region.Mapped? &&
        var a := pool[dq.index].region.mem;
        faulted == (old(faulted) || StreamFault(pixelFormat, options.outputFormat, a.Length, dq.bytesUsed, img.width, img.height, img.image.Length))
        && StreamProcessed(pixelFormat, options.outputFormat, arith, dq.bytesUsed, img.width, img.height,
                           Delivered(old(a[..]), ev.frame, dq.bytesUsed), a[..], old(img.image[..]), img.image[..])
    {
      used := false;
      var dq := DequeueAnswer(fd, ev);
      if dq.DequeueFailed? {
        if dq.errno == EAGAIN {
          return false, false;
        }
        Reconnect(dev);
        return false, false;
      }
      if dq.index >= nBuffers {
        faulted := true;
        return false, false;
      }
      if dq.index < |pool| && pool[dq.index].region.Mapped? {
        Deliver(pool[dq.index].region.mem, ev.frame, dq.bytesUsed);
      }
      img.tvSec, img.tvUsec := dq.tvSec, dq.tvUsec;
      ok, used := KeepFrame(dq, ev, img);
    }

    /**
     * read_frame for memory-mapping i/o after a dequeue within the pool: the
     * drop rule, then the length check and process_image on the mapped
     * buffer, which is re-queued either way.
     */
    method KeepFrame(dq: Dequeue, ev: FrameEvent, img: Frame.CameraImage) returns (ok: bool, ghost used: bool)
      requires Valid() && img.Valid() && img.image !in memory && dq.Dequeued? && dq.index < nBuffers
      modifies this`faulted, this`lastNsec, img.image, memory
      ensures Valid() && memory == old(memory)
      ensures var d := DropRule(old(lastNsec), Stamp(dq.tvSec, dq.tvUsec), dropInterval);
        (d.None? ==> !ok && !used && lastNsec == old(lastNsec) && faulted == old(faulted))
        && (d.Some? ==> lastNsec == d.value)
        && (d.Some? && dq.bytesUsed < img.width * img.height ==> ok == ev.requeueOk && !used && faulted == old(faulted))
        && (d.Some? && dq.bytesUsed >= img.width * img.height ==>
              (Usable(pool, dq.index, MemoryMmap) ==> ok == ev.requeueOk)
              && (!Usable(pool, dq.index, MemoryMmap) ==> !ok && faulted)
              && (used <==> Usable(pool, dq.index, MemoryMmap) && pool[dq.index].region.Mapped?))
      ensures !used ==> img.image[..] == old(img.image[..])
      ensures dq.index < |pool| && pool[dq.index].region.Mapped? && !used ==>
        var a := pool[dq.index].region.mem; a[..] == old(a[..])
      ensures used ==>
        dq.index < |pool| && pool[dq.index].region.Mapped? &&
        var a := pool[dq.index].region.mem;
        faulted == (old(faulted) || StreamFault(pixelFormat, options.outputFormat, a.Length, dq.bytesUsed, img.width, img.height, img.image.Length))
        && StreamProcessed(pixelFormat, options.outputFormat, arith, dq.bytesUsed, img.width, img.height,
                           old(a[..]), a[..], old(img.image[..]), img.image[..])
    {
      used := false;
      var d := DropRule(lastNsec, Stamp(dq.tvSec, dq.tvUsec), dropInterval);
      if d.None? {
        // the buffer is re-queued and the QBUF outcome ignored
        return false, false;
      }
      lastNsec := d.value;
      var len := dq.bytesUsed;
      if len < img.width * img.height {
        // wrong buffer length: the frame is not processed
      } else {
        if !Usable(pool, dq.index, MemoryMmap) {
          faulted := true;
          return false, false;
        }
        if pool[dq.index].region.Mapped? {
          var _ := ProcessImage(pool[dq.index].region.mem, len, img);
          used := true;
        } else {
          var _ := ProcessImage(null, len, img);
        }
      }
      ok := ev.requeueOk;
    }

    /**
     * read_frame for user-pointer i/o: DQBUF (any failure returns false
     * without reconnecting) hands back a user block the driver has filled
     * with the frame, process_image converts it, and the buffer is
     * re-queued; the timestamp is not copied.
     */
    method ReadFrameUserptr(dev: Device, ev: FrameEvent, img: Frame.CameraImage) returns (ok: bool, ghost used: bool)
      requires Valid() && img.Valid() && img.image !in memory
      modifies this`faulted, img.image, memory
      ensures Valid() && memory == old(memory)
      ensures var dq := DequeueAnswer(fd, ev);
        (dq.DequeueFailed? ==> !ok && !used && faulted == old(faulted) && img.image[..] == old(img.image[..]))
        && (dq.Dequeued? && dq.index >= nBuffers ==> !ok && !used && faulted)
        && (dq.Dequeued? && dq.index < nBuffers ==>
              (Usable(pool, dq.index, MemoryUserptr) ==> ok == ev.requeueOk)
              && (!Usable(pool, dq.index, MemoryUserptr) ==> !ok && faulted)
              && (used <==> Usable(pool, dq.index, MemoryUserptr) && pool[dq.index].region.Heap?))
      ensures !used ==> img.image[..] == old(img.image[..])
      ensures used ==> var dq := DequeueAnswer(fd, ev);
        dq.Dequeued? && dq.index < |pool| && pool[dq.index].region.Heap? &&
        var a := pool[dq.index].region.mem;
        faulted == (old(faulted) || StreamFault(pixelFormat, options.outputFormat, a.Length, dq.bytesUsed, img.width, img.height, img.image.Length))
        && StreamProcessed(pixelFormat, options.outputFormat, arith, dq.bytesUsed, img.width, img.height,
                           Delivered(old(a[..]), ev.frame, dq.bytesUsed), a[..], old(img.image[..]), img.image[..])
    {
      used := false;
      var dq := DequeueAnswer(fd, ev);
      if dq.DequeueFailed? {
        return false, false;
      }
      // assert(i < n_buffers_)
      if dq.index >= nBuffers || !Usable(pool, dq.index, MemoryUserptr) {
        faulted := true;
        return false, false;
      }
      if pool[dq.index].region.Heap? {
        Deliver(pool[dq.index].region.mem, ev.frame, dq.bytesUsed);
        var _ := ProcessImage(pool[dq.index].region.mem, dq.bytesUsed, img);
        used := true;
      } else {
        var _ := ProcessImage(null, dq.bytesUsed, img);
      }
      ok := ev.requeueOk;
    }

    /** read_frame: the path of the configured i/o method; the unknown method fails. */
    method ReadFrame(dev: Device, ev: FrameEvent, img: Frame.CameraImage) returns (ok: bool)
      requires Valid() && img.Valid() && img.image !in memory
      modifies this`fd, this`pool, this`isCapturing, this`faulted, this`lastNsec, img`tvSec, img`tvUsec, img.image, memory
      ensures Valid() && memory == old(memory) && (isCapturing ==> old(isCapturing))
      ensures ok == old(FrameOk(ev, img.width, img.height))
      ensures var src := old(FrameSource(ev, img.width, img.height));
        (src.None? ==> img.image[..] == old(img.image[..]))
        && (src.Some? ==>
              var (a, len) := src.value;
              StreamProcessed(pixelFormat, options.outputFormat, arith, len, img.width, img.height,
                              Delivered(old(a[..]), ev.frame, len), a[..], old(img.image[..]), img.image[..]))
      ensures fd == old(fd) || fd == AfterClose(old(fd), dev)
      ensures options.ioMethod != IoMethodMmap ==> fd == old(fd) && pool == old(pool)
      ensures old(fd) < 0 ==> !ok
      ensures options.ioMethod == IoMethodUnknown ==> !ok && State() == old(State())
    {
      ghost var src := FrameSource(ev, img.width, img.height);
      match options.ioMethod {
        case IoMethodRead =>
          ghost var used;
          ok, used := ReadFrameRead(dev, ev, img);
          assert used == src.Some?;
        case IoMethodMmap =>
          ghost var used;
          ok, used := ReadFrameMmap(dev, ev, img);
          assert used == src.Some?;
        case IoMethodUserptr =>
          ghost var used;
          ok, used := ReadFrameUserptr(dev, ev, img);
          assert used == src.Some?;
        case IoMethodUnknown =>
          ok := false;
      }
    }

    /**
     * poll: clears the freshness flag and zeroes the image, waits on
     * select() (EINTR fails; a timeout or other error reconnects and goes on
     * to read_frame anyway), and marks the image fresh exactly when
     * read_frame succeeds.  read_frame runs on the descriptor, pool and fault
     * flag select's outcome left (`selFd`, `selPool`, `selFaulted`), and the
     * image then holds the conversion of the frame the kernel delivered into
     * the block read_frame picks, over the zeroed image.  FD_SET of a
     * descriptor of -1 is undefined.
     */
    method Poll(dev: Device, ev: FrameEvent, img: Frame.CameraImage)
      returns (ok: bool, ghost selFd: int, ghost selPool: seq<Slot>, ghost selFaulted: bool)
      requires Valid() && img.Valid() && img.image !in memory
      modifies this`fd, this`pool, this`isCapturing, this`faulted, this`lastNsec, img`isNew, img`tvSec, img`tvUsec, img.image, memory
      ensures Valid()
      ensures img.isNew == (if ok then 1 else 0)
      ensures old(fd) < 0 ==> !ok && faulted && forall i :: 0 <= i < img.imageSize ==> img.image[i] == 0
      ensures old(fd) >= 0 && ev.select == SelectFailed(EINTR) ==>
        !ok && State() == old(State()) && forall i :: 0 <= i < img.imageSize ==> img.image[i] == 0
      ensures old(fd) >= 0 && ev.select == Readable ==>
        selFd == old(fd) && selPool == old(pool) && selFaulted == old(faulted)
      ensures old(fd) >= 0 && (ev.select == Timeout || (ev.select.SelectFailed? && ev.select.errno != EINTR)) ==>
        selFd == AfterClose(old(fd), dev) && fd == AfterClose(old(fd), dev) && !isCapturing
        && ReleasedPool(options.ioMethod, dev, nBuffers, old(pool), old(faulted), selPool, selFaulted)
      ensures old(fd) >= 0 && ev.select != SelectFailed(EINTR) ==>
        ok == FrameOkAt(options.ioMethod, selFd, selPool, nBuffers, pixelFormat, old(lastNsec), dropInterval,
                        ev, img.width, img.height)
        && (options.ioMethod != IoMethodMmap ==> fd == selFd && pool == selPool)
      ensures old(fd) >= 0 && ev.select != SelectFailed(EINTR) ==>
        var src := FrameSourceAt(options.ioMethod, selFd, selPool, nBuffers, old(lastNsec), dropInterval,
                                 ev, img.width, img.height);
        (src.None? ==> img.image[..] == Blank(old(img.image[..]), img.imageSize))
        && (src.Some? ==> src.value.0 in old(memory))
        && (src.Some? && src.value.0 in old(memory) ==>
              var (a, len) := src.value;
              StreamProcessed(pixelFormat, options.outputFormat, arith, len, img.width, img.height,
                              Delivered(old(a[..]), ev.frame, len), a[..], Blank(old(img.image[..]), img.imageSize),
                              img.image[..]))
      ensures old(fd) >= 0 && ev.select == Readable ==> ok == old(FrameOk(ev, img.width, img.height))
      ensures old(fd) >= 0 && (ev.select == Timeout || (ev.select.SelectFailed? && ev.select.errno != EINTR)) && dev.closeOk ==>
        !ok
    {
      selFd, selPool, selFaulted := fd, pool, faulted;
      img.isNew := 0;
      ZeroPrefix(img.image, img.imageSize);
      if fd < 0 {
        faulted := true;
        return false, selFd, selPool, selFaulted;
      }
      ok, selFd, selPool, selFaulted := PollFrame(dev, ev, img);
    }

    /** poll after the image is cleared, on an open descriptor: select, read_frame and the freshness flag. */
    method PollFrame(dev: Device, ev: FrameEvent, img: Frame.CameraImage)
      returns (ok: bool, ghost selFd: int, ghost selPool: seq<Slot>, ghost selFaulted: bool)
      requires Valid() && img.Valid() && img.image !in memory && fd >= 0
      modifies this`fd, this`pool, this`isCapturing, this`faulted, this`lastNsec, img`isNew, img`tvSec, img`tvUsec, img.image, memory
      ensures Valid() && memory == old(memory)
      ensures img.isNew == (if ok then 1 else old(img.isNew))
      ensures ev.select == SelectFailed(EINTR) ==> !ok && State() == old(State()) && img.image[..] == old(img.image[..])
      ensures ev.select == Readable ==> selFd == old(fd) && selPool == old(pool) && selFaulted == old(faulted)
      ensures ev.select == Timeout || (ev.select.SelectFailed? && ev.select.errno != EINTR) ==>
        selFd == AfterClose(old(fd), dev) && fd == AfterClose(old(fd), dev) && !isCapturing
        && ReleasedPool(options.ioMethod, dev, nBuffers, old(pool), old(faulted), selPool, selFaulted)
      ensures ev.select != SelectFailed(EINTR) ==>
        ok == FrameOkAt(options.ioMethod, selFd, selPool, nBuffers, pixelFormat, old(lastNsec), dropInterval,
                        ev, img.width, img.height)
        && (options.ioMethod != IoMethodMmap ==> fd == selFd && pool == selPool)
      ensures ev.select != SelectFailed(EINTR) ==>
        var src := FrameSourceAt(options.ioMethod, selFd, selPool, nBuffers, old(lastNsec), dropInterval,
                                 ev, img.width, img.height);
        (src.None? ==> img.image[..] == old(img.image[..]))
        && (src.Some? ==> src.value.0 in old(memory))
        && (src.Some? && src.value.0 in old(memory) ==>
              var (a, len) := src.value;
              StreamProcessed(pixelFormat, options.outputFormat, arith, len, img.width, img.height,
                              Delivered(old(a[..]), ev.frame, len), a[..], old(img.image[..]), img.image[..]))
    {
      selFd, selPool, selFaulted := fd, pool, faulted;
      var proceed := AwaitFrame(dev, ev);
      if !proceed {
        return false, selFd, selPool, selFaulted;
      }
      selFd, selPool, selFaulted := fd, pool, faulted;
      ok := ReadAndMark(dev, ev, img);
    }

    /** read_frame followed by the freshness flag, stated over the descriptor, pool and stamp it starts from. */
    method ReadAndMark(dev: Device, ev: FrameEvent, img: Frame.CameraImage) returns (ok: bool)
      requires Valid() && img.Valid() && img.image !in memory
      modifies this`fd, this`pool, this`isCapturing, this`faulted, this`lastNsec, img`isNew, img`tvSec, img`tvUsec, img.image, memory
      ensures Valid() && memory == old(memory)
      ensures img.isNew == (if ok then 1 else old(img.isNew))
      ensures (isCapturing ==> old(isCapturing)) && (fd == old(fd) || fd == AfterClose(old(fd), dev))
      ensures ok == FrameOkAt(options.ioMethod, old(fd), old(pool), nBuffers, pixelFormat, old(lastNsec), dropInterval,
                              ev, img.width, img.height)
      ensures options.ioMethod != IoMethodMmap ==> fd == old(fd) && pool == old(pool)
      ensures var src := FrameSourceAt(options.ioMethod, old(fd), old(pool), nBuffers, old(lastNsec), dropInterval,
                                       ev, img.width, img.height);
        (src.None? ==> img.image[..] == old(img.image[..]))
        && (src.Some? ==> src.value.0 in old(memory))
        && (src.Some? && src.value.0 in old(memory) ==>
              var (a, len) := src.value;
              StreamProcessed(pixelFormat, options.outputFormat, arith, len, img.width, img.height,
                              Delivered(old(a[..]), ev.frame, len), a[..], old(img.image[..]), img.image[..]))
    {
      ok := ReadFrame(dev, ev, img);
      if ok {
        img.isNew := 1;
      }
    }

    /**
     * poll's select(): EINTR stops the call with nothing changed; a timeout
     * or another error reconnects; in every case but EINTR the call goes on
     * to read_frame.
     */
    method AwaitFrame(dev: Device, ev: FrameEvent) returns (proceed: bool)
      requires Valid()
      modifies this`fd, this`pool, this`isCapturing, this`faulted
      ensures Valid()
      ensures proceed == (ev.select != SelectFailed(EINTR))
      ensures !proceed || ev.select == Readable ==> State() == old(State())
      ensures ev.select == Timeout || (ev.select.SelectFailed? && ev.select.errno != EINTR) ==>
        fd == AfterClose(old(fd), dev) && !isCapturing && Released(dev, old(pool), old(faulted))
    {
      match ev.select {
        case SelectFailed(e) =>
          if e == EINTR {
            return false;
          }
          Reconnect(dev);
        case Timeout =>
          Reconnect(dev);
        case Readable =>
      }
      proceed := true;
    }

    function IsCapturing(): bool
      reads this
    {
      isCapturing
    }
  }
}
