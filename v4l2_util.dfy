/**
 * The YUYV -> RGB24 buffer conversion of the V4L2 helper library
 * (convert_yuv_to_rgb_pixel and convert_yuv_to_rgb_buffer).  The pixel
 * routine's double-precision formulas are a parameter (`arith`, the three
 * values after truncation to int); what is modelled exactly is the clamping,
 * the little-endian word packing and the macropixel loop.
 */
module V4l2Util {
  import opened Common
  import opened PixelFormat

  /** r, g and b as the floating-point formulas leave them, before clamping. */
  datatype RawRgb = RawRgb(r: int, g: int, b: int)

  /** The floating-point part of convert_yuv_to_rgb_pixel, truncated to int. */
  type YuvArith = (int, int, int) -> RawRgb

  /** The two-sided clamp written as the source's two pairs of `if`s (upper bound first). */
  function Saturate(v: int): (r: byte)
    ensures r == Clamp255(v)
  {
    var upper := if v > 255 then 255 else v;
    if upper < 0 then 0 else upper
  }

  /**
   * convert_yuv_to_rgb_pixel: a zeroed unsigned int whose bytes 0, 1 and 2
   * receive the clamped r, g and b; byte 3 stays 0.
   */
  function ConvertYuvToRgbPixel(arith: YuvArith, y: int, u: int, v: int): (w: u32)
    ensures w % 256 == Clamp255(arith(y, u, v).r)
    ensures (w / 256) % 256 == Clamp255(arith(y, u, v).g)
    ensures (w / 65536) % 256 == Clamp255(arith(y, u, v).b)
    ensures w < 16777216
  {
    var c := arith(y, u, v);
    Word(Saturate(c.r), Saturate(c.g), Saturate(c.b), 0)
  }

  /** pixel_24: bytes 0, 1 and 2 of a pixel word. */
  function LowBytes(w: u32): Rgb
  {
    Rgb(w % 256, (w / 256) % 256, (w / 65536) % 256)
  }

  /** Each channel clamped into 0..255. */
  function Clamped(c: RawRgb): Rgb
  {
    Rgb(Clamp255(c.r), Clamp255(c.g), Clamp255(c.b))
  }

  /** Unpacking the pixel word gives back the clamped channels, whatever the arithmetic produced. */
  lemma LowBytesOfPixel(arith: YuvArith, y: int, u: int, v: int)
    ensures LowBytes(ConvertYuvToRgbPixel(arith, y, u, v)) == Clamped(arith(y, u, v))
  {
  }

  /** The pixel conversion the buffer loop applies to each (y, u, v). */
  function PixelOf(arith: YuvArith): (byte, byte, byte) -> Rgb
  {
    (y: byte, u: byte, v: byte) => Clamped(arith(y, u, v))
  }

  /** The YUYV macropixel under PixelOf(arith), spelled out. */
  lemma MacropixelOf(arith: YuvArith, a: byte, b: byte, c: byte, d: byte)
    ensures var p, q := Clamped(arith(a, b, d)), Clamped(arith(c, b, d));
            Macropixel(PixelOf(arith), YUYV, a, b, c, d) == [p.r, p.g, p.b, q.r, q.g, q.b]
  {
  }

  /** `width * height * 2` evaluated in unsigned int arithmetic. */
  function ByteLimit(width: u32, height: u32): (n: u32)
    ensures width * height * 2 < U32Mod ==> n == width * height * 2
  {
    var p := width * height * 2;
    assert p >= 0;
    p % U32Mod
  }

  /** Iterations of `for (in = 0; in < limit; in += 4)`: the first k with 4k >= limit. */
  function Steps(limit: nat): (k: nat)
    ensures 4 * k >= limit && 4 * k < limit + 4
  {
    (limit + 3) / 4
  }

  /** Loop exit test: step k starts below the limit iff k < Steps(limit). */
  lemma StepsBound(limit: nat, k: nat)
    ensures k < Steps(limit) <==> 4 * k < limit
  {
  }

  /** The unsigned loop counter `in` after k executions of `in += 4`. */
  function Counter(k: nat): u32
  {
    (4 * k) % U32Mod
  }

  /**
   * Above U32Mod - 4 the bound is out of the counter's reach: `in += 4`
   * wraps from U32Mod - 4 back to 0 before it gets there, so every value the
   * counter takes passes the test and the loop never ends.
   */
  lemma {:induction false} CounterBelowWrap(limit: nat, k: nat)
    requires U32Mod - 4 < limit
    ensures Counter(k) < limit
    ensures Counter(k + 1) == if Counter(k) == U32Mod - 4 then 0 else Counter(k) + 4
  {
    var q, r := k / 0x4000_0000, k % 0x4000_0000;
    assert 4 * k == U32Mod * q + 4 * r;
    assert Counter(k) == 4 * r;
    var q', r' := (k + 1) / 0x4000_0000, (k + 1) % 0x4000_0000;
    assert 4 * (k + 1) == U32Mod * q' + 4 * r';
    assert Counter(k + 1) == 4 * r';
    if r == 0x3FFF_FFFF {
      assert r' == 0;
    } else {
      assert r' == r + 1;
    }
  }

  /** The bound is always even; 2^31 - 1 by 1 gives U32Mod - 2, a bound the counter never reaches. */
  lemma ByteLimitPastCounter(width: u32, height: u32)
    ensures ByteLimit(width, height) % 2 == 0
    ensures ByteLimit(0x7FFF_FFFF, 1) == U32Mod - 2
  {
    var p := width * height;
    assert p * 2 == 2 * (p * 2 / U32Mod) * 0x8000_0000 + ByteLimit(width, height);
  }

  function BufferSteps(width: u32, height: u32): nat
  {
    Steps(ByteLimit(width, height))
  }

  /** With no wrap-around and an even pixel count the loop writes 3*width*height bytes. */
  lemma BufferStepsEven(width: u32, height: u32)
    requires width * height * 2 < U32Mod && (width * height) % 2 == 0
    ensures 6 * BufferSteps(width, height) == 3 * (width * height)
  {
    var n := width * height;
    assert ByteLimit(width, height) == 2 * n;
    assert 2 * n == 4 * (n / 2);
  }

  /** convert_yuv_to_rgb_pixel into pixel_24, whose bytes 0..2 are stored at rgb[j..j+3]. */
  method StorePixel(arith: YuvArith, rgb: array<byte>, j: nat, y: byte, u: byte, v: byte)
    requires j + 3 <= rgb.Length
    modifies rgb
    ensures rgb[..j] == old(rgb[..j]) && rgb[j + 3..] == old(rgb[j + 3..])
    ensures var c := Clamped(arith(y, u, v)); rgb[j..j + 3] == [c.r, c.g, c.b]
  {
    var pixel24 := LowBytes(ConvertYuvToRgbPixel(arith, y, u, v));
    LowBytesOfPixel(arith, y, u, v);
    rgb[j], rgb[j + 1], rgb[j + 2] := pixel24.r, pixel24.g, pixel24.b;
  }

  /** One iteration: word pixel_16 from bytes in..in+3, two pixels sharing u and v. */
  method ConvertStep(arith: YuvArith, yuv: array<byte>, rgb: array<byte>, i: nat, j: nat)
    requires yuv != rgb && i + 4 <= yuv.Length && j + 6 <= rgb.Length
    modifies rgb
    ensures rgb[..j] == old(rgb[..j]) && rgb[j + 6..] == old(rgb[j + 6..])
    ensures rgb[j..j + 6] == Macropixel(PixelOf(arith), YUYV, yuv[i], yuv[i + 1], yuv[i + 2], yuv[i + 3])
  {
    var pixel16 := Word(yuv[i], yuv[i + 1], yuv[i + 2], yuv[i + 3]);
    var y0: byte, u: byte, y1: byte, v: byte := pixel16 % 256, (pixel16 / 256) % 256, (pixel16 / 65536) % 256, pixel16 / 16777216;
    StorePixel(arith, rgb, j, y0, u, v);
    ghost var first := rgb[j..j + 3];
    StorePixel(arith, rgb, j + 3, y1, u, v);
    assert rgb[j..j + 3] == first by {
      assert rgb[j..j + 3] == rgb[..j + 3][j..];
    }
    assert rgb[j..j + 6] == rgb[j..j + 3] + rgb[j + 3..j + 6];
    MacropixelOf(arith, yuv[i], yuv[i + 1], yuv[i + 2], yuv[i + 3]);
  }

  /** A loop iteration extends the converted prefix by macropixel k. */
  method BufferStep(arith: YuvArith, yuv: array<byte>, rgb: array<byte>, k: nat)
    requires yuv != rgb && 4 * k + 4 <= yuv.Length && 6 * k + 6 <= rgb.Length
    requires rgb[..6 * k] == PackedToRgb(PixelOf(arith), YUYV, yuv[..], k)
    modifies rgb
    ensures rgb[..6 * k + 6] == PackedToRgb(PixelOf(arith), YUYV, yuv[..], k + 1)
    ensures rgb[6 * k + 6..] == old(rgb[6 * k + 6..])
  {
    ghost var done := rgb[..6 * k];
    ConvertStep(arith, yuv, rgb, 4 * k, 6 * k);
    PackedStepArr(PixelOf(arith), YUYV, yuv[..], done, rgb[..], k);
  }

  /** The `for (in = 0; in < limit; in += 4)` loop for a given byte limit. */
  method BufferLoop(arith: YuvArith, yuv: array<byte>, rgb: array<byte>, limit: nat)
    requires yuv != rgb
    requires limit <= U32Mod - 4
    requires 4 * Steps(limit) <= yuv.Length
    requires 6 * Steps(limit) <= rgb.Length
    modifies rgb
    ensures rgb[..6 * Steps(limit)] == PackedToRgb(PixelOf(arith), YUYV, yuv[..], Steps(limit))
    ensures rgb[6 * Steps(limit)..] == old(rgb[6 * Steps(limit)..])
  {
    ghost var m := Steps(limit);
    var k := 0;
    var i, j := 0, 0;
    StepsBound(limit, 0);
    while i < limit
      invariant 0 <= k <= m && i == 4 * k && j == 6 * k
      invariant k < m <==> i < limit
      invariant rgb[..j] == PackedToRgb(PixelOf(arith), YUYV, yuv[..], k)
      invariant rgb[6 * m..] == old(rgb[6 * m..])
    {
      ghost var rest := rgb[6 * m..];
      BufferStep(arith, yuv, rgb, k);
      assert rgb[6 * m..] == rest;
      i, j, k := i + 4, j + 6, k + 1;
      StepsBound(limit, k);
    }
  }

  /**
   * convert_yuv_to_rgb_buffer: YUYV macropixel k becomes RGB bytes 6k..6k+5,
   * the loop bound wraps like the unsigned product it is, and 0 is returned.
   */
  method ConvertYuvToRgbBuffer(arith: YuvArith, yuv: array<byte>, rgb: array<byte>, width: u32, height: u32)
    returns (ret: int)
    requires yuv != rgb
    requires ByteLimit(width, height) <= U32Mod - 4
    requires 4 * BufferSteps(width, height) <= yuv.Length
    requires 6 * BufferSteps(width, height) <= rgb.Length
    modifies rgb
    ensures ret == 0
    ensures rgb[..6 * BufferSteps(width, height)] ==
            PackedToRgb(PixelOf(arith), YUYV, yuv[..], BufferSteps(width, height))
    ensures rgb[6 * BufferSteps(width, height)..] == old(rgb[6 * BufferSteps(width, height)..])
  {
    var limit := ByteLimit(width, height);
    BufferLoop(arith, yuv, rgb, limit);
    return 0;
  }
}
