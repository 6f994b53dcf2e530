/**
 * The scalar pixel-conversion routines of src/zetton_stream/util/pixel_format.cc:
 * the clipping table and CLIPVALUE, the fixed-point YUV2RGB, the in-place
 * UYVY -> YUYV pair swap, the packed 4:2:2 -> RGB loops, the 10-bit mono
 * reduction and the RGB24 copy.
 *
 * Packed 4:2:2 (V4L2_PIX_FMT_YUYV / V4L2_PIX_FMT_UYVY, Image Formats chapter
 * of the Linux V4L2 API): four bytes carry two pixels that share one U and
 * one V sample; YUYV orders them Y0 U Y1 V, UYVY orders them U Y0 V Y1.
 */
module PixelFormat {
  import opened Common

  // ---------------------------------------------------------------------
  // Clipping
  // ---------------------------------------------------------------------

  /** clamp(v, 0, 255), the "old method" CLIPVALUE replaced by a table. */
  function Clamp255(v: int): (r: byte)
    ensures v <= 0 ==> r == 0
    ensures v >= 255 ==> r == 255
    ensures 0 <= v <= 255 ==> r == v
  {
    if v < 0 then 0 else if v > 255 then 255 else v
  }

  /** uchar_clipping_table: 128 zeros, the ramp 0..254, then 129 entries of 255. */
  function ClippingTable(): seq<byte>
  {
    seq(128, i => 0) + seq(255, i requires 0 <= i < 255 => i) + seq(129, i => 255)
  }

  /** clipping_table_offset. */
  const ClippingTableOffset: int := 128

  /** The arguments CLIPVALUE can look up: -128 <= v < 384. */
  predicate InTableDomain(v: int)
  {
    0 <= v + ClippingTableOffset < |ClippingTable()|
  }

  lemma ClippingTableShape()
    ensures |ClippingTable()| == 512
    ensures forall v :: InTableDomain(v) <==> -128 <= v <= 383
  {
  }

  /** CLIPVALUE as written: a table lookup, defined only inside the table. */
  function ClipValue(v: int): (r: byte)
    requires InTableDomain(v)
    ensures r == Clamp255(v)
  {
    ClippingTable()[v + ClippingTableOffset]
  }

  // ---------------------------------------------------------------------
  // YUV2RGB
  // ---------------------------------------------------------------------

  /**
   * x >> 15 on a two's-complement int: an arithmetic shift, which rounds
   * towards minus infinity, as Dafny's division by a positive constant does.
   */
  function Asr15(x: int): int { x / 32768 }

  /** r2 of YUV2RGB, before clipping. */
  function RedArg(y: byte, v: byte): int { y + Asr15((v - 128) * 37221) }

  /** g2 of YUV2RGB, before clipping. */
  function GreenArg(y: byte, u: byte, v: byte): int
  {
    y - Asr15((u - 128) * 12975 + (v - 128) * 18949)
  }

  /** b2 of YUV2RGB, before clipping. */
  function BlueArg(y: byte, u: byte): int { y + Asr15((u - 128) * 66883) }

  datatype Rgb = Rgb(r: byte, g: byte, b: byte)

  /** The three table lookups of YUV2RGB are all defined. */
  predicate Yuv2RgbDefined(y: byte, u: byte, v: byte)
  {
    InTableDomain(RedArg(y, v)) && InTableDomain(GreenArg(y, u, v)) && InTableDomain(BlueArg(y, u))
  }

  /** YUV2RGB as written: it indexes the clipping table with r2, g2 and b2. */
  function Yuv2RgbAsWritten(y: byte, u: byte, v: byte): (p: Rgb)
    requires Yuv2RgbDefined(y, u, v)
    ensures p == Rgb(Clamp255(RedArg(y, v)), Clamp255(GreenArg(y, u, v)), Clamp255(BlueArg(y, u)))
  {
    Rgb(ClipValue(RedArg(y, v)), ClipValue(GreenArg(y, u, v)), ClipValue(BlueArg(y, u)))
  }

  /** g2 always stays inside the table. */
  lemma GreenArgInDomain(y: byte, u: byte, v: byte)
    ensures -123 <= GreenArg(y, u, v) <= 380
    ensures InTableDomain(GreenArg(y, u, v))
  {
    var x := (u - 128) * 12975 + (v - 128) * 18949;
    assert -128 * 12975 + -128 * 18949 <= x <= 127 * 12975 + 127 * 18949;
    assert -125 <= Asr15(x) <= 123;
  }

  /** r2 lies in -146..399 and b2 in -262..514, both ends reached. */
  lemma RedBlueArgRange(y: byte, u: byte, v: byte)
    ensures -146 <= RedArg(y, v) <= 399
    ensures -262 <= BlueArg(y, u) <= 514
  {
    var xr := (v - 128) * 37221;
    assert -128 * 37221 <= xr <= 127 * 37221;
    assert -146 <= Asr15(xr) <= 144;
    var xb := (u - 128) * 66883;
    assert -128 * 66883 <= xb <= 127 * 66883;
    assert -262 <= Asr15(xb) <= 259;
  }

  /** The inputs that push r2 and b2 out of the table: YUV2RGB reads outside uchar_clipping_table. */
  lemma Yuv2RgbLeavesTable()
    ensures RedArg(0, 0) == -146 && !InTableDomain(RedArg(0, 0))
    ensures BlueArg(0, 0) == -262 && !InTableDomain(BlueArg(0, 0))
    ensures BlueArg(255, 255) == 514 && !InTableDomain(BlueArg(255, 255))
    ensures !Yuv2RgbDefined(0, 128, 0)
  {
    assert Asr15((0 - 128) * 37221) == -146;
    assert Asr15((0 - 128) * 66883) == -262;
    assert Asr15((255 - 128) * 66883) == 259;
  }

  /**
   * YUV2RGB as evidently intended: each channel clipped to 0..255 for every
   * input (what the commented-out "old method" did).
   */
  function Yuv2Rgb(y: byte, u: byte, v: byte): Rgb
  {
    Rgb(Clamp255(RedArg(y, v)), Clamp255(GreenArg(y, u, v)), Clamp255(BlueArg(y, u)))
  }

  /** Wherever the table lookups are defined the corrected conversion agrees with them. */
  lemma Yuv2RgbAgreesWithTable(y: byte, u: byte, v: byte)
    requires Yuv2RgbDefined(y, u, v)
    ensures Yuv2Rgb(y, u, v) == Yuv2RgbAsWritten(y, u, v)
  {
  }

  /** Zero chroma (u = v = 128) maps to the grey level y on every channel. */
  lemma Yuv2RgbGrey(y: byte)
    ensures Yuv2Rgb(y, 128, 128) == Rgb(y, y, y)
  {
  }

  // ---------------------------------------------------------------------
  // UYVY <-> YUYV
  // ---------------------------------------------------------------------

  /** Swap every adjacent byte pair: position 2i+1 goes to 2i and back. */
  function SwapPairs(s: seq<byte>): (r: seq<byte>)
    requires |s| % 2 == 0
    ensures |r| == |s|
  {
    seq(|s|, i requires 0 <= i < |s| => if i % 2 == 0 then s[i + 1] else s[i - 1])
  }

  lemma {:induction false} SwapPairsInvolution(s: seq<byte>)
    requires |s| % 2 == 0
    ensures SwapPairs(SwapPairs(s)) == s
  {
    var t := SwapPairs(s);
    forall i | 0 <= i < |s|
      ensures SwapPairs(t)[i] == s[i]
    {
      if i % 2 == 0 {
        assert SwapPairs(t)[i] == t[i + 1] == s[i];
      } else {
        assert SwapPairs(t)[i] == t[i - 1] == s[i];
      }
    }
  }

  /** Swapping commutes with taking a whole-pair prefix. */
  lemma SwapPairsPrefix(s: seq<byte>, n: nat)
    requires |s| % 2 == 0 && n % 2 == 0 && n <= |s|
    ensures SwapPairs(s)[..n] == SwapPairs(s[..n])
  {
  }

  /**
   * uyvy2yuyv(src, len): copies src into a scratch buffer, writes the
   * pair-swapped bytes into a second one and copies them back.
   * An odd len would read one byte past the scratch buffer.
   */
  method Uyvy2Yuyv(src: array<byte>, len: int)
    requires 0 <= len <= src.Length && len % 2 == 0
    modifies src
    ensures src[..len] == SwapPairs(old(src[..len]))
    ensures src[len..] == old(src[len..])
  {
    var yuyvbuf := new byte[len](i requires 0 <= i < len reads src => src[i]);
    var uyvybuf := new byte[len];
    var index := 0;
    while index < len
      invariant 0 <= index <= len && index % 2 == 0
      invariant yuyvbuf[..] == old(src[..len])
      invariant src[..] == old(src[..])
      invariant forall k :: 0 <= k < index ==>
        uyvybuf[k] == (if k % 2 == 0 then yuyvbuf[k + 1] else yuyvbuf[k - 1])
    {
      uyvybuf[index] := yuyvbuf[index + 1];
      uyvybuf[index + 1] := yuyvbuf[index];
      index := index + 2;
    }
    CopyBytes(src, uyvybuf, len);
    assert uyvybuf[..] == SwapPairs(old(src[..len]));
  }

  // ---------------------------------------------------------------------
  // Packed 4:2:2 -> RGB24
  // ---------------------------------------------------------------------

  datatype Layout = YUYV | UYVY

  /** The six RGB bytes of one macropixel (bytes a b c d) under a pixel conversion. */
  function Macropixel(px: (byte, byte, byte) -> Rgb, layout: Layout, a: byte, b: byte, c: byte, d: byte): (r: seq<byte>)
    ensures |r| == 6
  {
    var y0, u, y1, v := if layout == YUYV then a else b, if layout == YUYV then b else a,
                        if layout == YUYV then c else d, if layout == YUYV then d else c;
    var p, q := px(y0, u, v), px(y1, u, v);
    [p.r, p.g, p.b, q.r, q.g, q.b]
  }

  /** The RGB24 bytes of the first m macropixels of s, converted in order. */
  function PackedToRgb(px: (byte, byte, byte) -> Rgb, layout: Layout, s: seq<byte>, m: nat): (r: seq<byte>)
    requires 4 * m <= |s|
    ensures |r| == 6 * m
  {
    if m == 0 then []
    else
      var k := m - 1;
      PackedToRgb(px, layout, s, k) + Macropixel(px, layout, s[4 * k], s[4 * k + 1], s[4 * k + 2], s[4 * k + 3])
  }

  /** Macropixel k of the input (bytes 4k..4k+3) becomes RGB bytes 6k..6k+5. */
  lemma {:induction false} PackedToRgbAt(px: (byte, byte, byte) -> Rgb, layout: Layout, s: seq<byte>, m: nat, k: nat)
    requires 4 * m <= |s| && k < m
    ensures PackedToRgb(px, layout, s, m)[6 * k..6 * k + 6] ==
            Macropixel(px, layout, s[4 * k], s[4 * k + 1], s[4 * k + 2], s[4 * k + 3])
  {
    if k < m - 1 {
      PackedToRgbAt(px, layout, s, m - 1, k);
      assert PackedToRgb(px, layout, s, m)[..6 * (m - 1)] == PackedToRgb(px, layout, s, m - 1);
    }
  }

  /** Only the first 4m input bytes are read. */
  lemma {:induction false} PackedToRgbReadsPrefix(px: (byte, byte, byte) -> Rgb, layout: Layout, s: seq<byte>, t: seq<byte>, m: nat)
    requires 4 * m <= |s| && 4 * m <= |t| && s[..4 * m] == t[..4 * m]
    ensures PackedToRgb(px, layout, s, m) == PackedToRgb(px, layout, t, m)
  {
    if m > 0 {
      assert s[..4 * (m - 1)] == s[..4 * m][..4 * (m - 1)];
      assert t[..4 * (m - 1)] == t[..4 * m][..4 * (m - 1)];
      PackedToRgbReadsPrefix(px, layout, s, t, m - 1);
      var k := 4 * (m - 1);
      assert s[k] == s[..4 * m][k] && s[k + 1] == s[..4 * m][k + 1];
      assert s[k + 2] == s[..4 * m][k + 2] && s[k + 3] == s[..4 * m][k + 3];
    }
  }

  /** Byte i of the swapped sequence comes from the other byte of its pair. */
  lemma SwapPairsAt(s: seq<byte>, q: nat)
    requires |s| % 2 == 0 && 2 * q + 2 <= |s|
    ensures SwapPairs(s)[2 * q] == s[2 * q + 1] && SwapPairs(s)[2 * q + 1] == s[2 * q]
  {
    assert (2 * q) % 2 == 0 && (2 * q + 1) % 2 == 1;
  }

  /** Within macropixel k the swap exchanges bytes 0,1 and bytes 2,3. */
  lemma SwapPairsMacropixel(s: seq<byte>, k: nat)
    requires |s| % 2 == 0 && 4 * k + 4 <= |s|
    ensures var t, b := SwapPairs(s), 4 * k;
            t[b] == s[b + 1] && t[b + 1] == s[b] && t[b + 2] == s[b + 3] && t[b + 3] == s[b + 2]
  {
    SwapPairsAt(s, 2 * k);
    SwapPairsAt(s, 2 * k + 1);
  }

  /** uyvy2rgb(x) is yuyv2rgb(uyvy2yuyv(x)): both read u, y0, v, y1 the same way. */
  lemma {:induction false} UyvyIsSwappedYuyv(px: (byte, byte, byte) -> Rgb, s: seq<byte>, m: nat)
    requires |s| % 2 == 0 && 4 * m <= |s|
    ensures PackedToRgb(px, UYVY, s, m) == PackedToRgb(px, YUYV, SwapPairs(s), m)
  {
    if m > 0 {
      var k := m - 1;
      var t := SwapPairs(s);
      UyvyIsSwappedYuyv(px, s, k);
      SwapPairsMacropixel(s, k);
      var b := 4 * k;
      assert Macropixel(px, UYVY, s[b], s[b + 1], s[b + 2], s[b + 3]) == Macropixel(px, YUYV, t[b], t[b + 1], t[b + 2], t[b + 3]);
    }
  }

  /** Number of loop iterations of `for (i = 0; i < (NumPixels << 1); i += 4)`. */
  function Macropixels(numPixels: int): (m: nat)
    ensures numPixels >= 0 ==> 4 * m >= 2 * numPixels
    ensures numPixels >= 0 && numPixels % 2 == 0 ==> 6 * m == 3 * numPixels
  {
    if numPixels <= 0 then 0 else (numPixels + 1) / 2
  }

  /** Loop exit test: macropixel k starts inside the first 2*NumPixels bytes iff k < Macropixels(NumPixels). */
  lemma MacropixelsBound(numPixels: int, k: nat)
    ensures k < Macropixels(numPixels) <==> 4 * k < 2 * numPixels
  {
  }

  /** The body of the macropixel loop: converts bytes i..i+3 into RGB bytes j..j+5. */
  method ConvertMacropixel(yuv: array<byte>, rgb: array<byte>, i: nat, j: nat, layout: Layout, px: (byte, byte, byte) -> Rgb)
    requires yuv != rgb && i + 4 <= yuv.Length && j + 6 <= rgb.Length
    modifies rgb
    ensures rgb[..j] == old(rgb[..j]) && rgb[j + 6..] == old(rgb[j + 6..])
    ensures rgb[j..j + 6] == Macropixel(px, layout, yuv[i], yuv[i + 1], yuv[i + 2], yuv[i + 3])
  {
    var yuyv := layout == YUYV;
    var y0 := if yuyv then yuv[i] else yuv[i + 1];
    var u := if yuyv then yuv[i + 1] else yuv[i];
    var y1 := if yuyv then yuv[i + 2] else yuv[i + 3];
    var v := if yuyv then yuv[i + 3] else yuv[i + 2];
    var p := px(y0, u, v);
    rgb[j], rgb[j + 1], rgb[j + 2] := p.r, p.g, p.b;
    var q := px(y1, u, v);
    rgb[j + 3], rgb[j + 4], rgb[j + 5] := q.r, q.g, q.b;
  }

  /** One loop step extends the converted prefix by one macropixel. */
  lemma PackedStepArr(px: (byte, byte, byte) -> Rgb, layout: Layout, s: seq<byte>, done: seq<byte>, out: seq<byte>, k: nat)
    requires 4 * k + 4 <= |s| && 6 * k + 6 <= |out|
    requires done == PackedToRgb(px, layout, s, k) && out[..6 * k] == done
    requires out[6 * k..6 * k + 6] == Macropixel(px, layout, s[4 * k], s[4 * k + 1], s[4 * k + 2], s[4 * k + 3])
    ensures out[..6 * k + 6] == PackedToRgb(px, layout, s, k + 1)
  {
    assert out[..6 * k + 6] == out[..6 * k] + out[6 * k..6 * k + 6];
  }

  /** A loop iteration extends the converted prefix by macropixel k. */
  method MacropixelStep(yuv: array<byte>, rgb: array<byte>, k: nat, layout: Layout, px: (byte, byte, byte) -> Rgb)
    requires yuv != rgb && 4 * k + 4 <= yuv.Length && 6 * k + 6 <= rgb.Length
    requires rgb[..6 * k] == PackedToRgb(px, layout, yuv[..], k)
    modifies rgb
    ensures rgb[..6 * k + 6] == PackedToRgb(px, layout, yuv[..], k + 1)
    ensures rgb[6 * k + 6..] == old(rgb[6 * k + 6..])
  {
    ghost var done := rgb[..6 * k];
    ConvertMacropixel(yuv, rgb, 4 * k, 6 * k, layout, px);
    PackedStepArr(px, layout, yuv[..], done, rgb[..], k);
  }

  /**
   * The `for (i = 0, j = 0; i < (NumPixels << 1); i += 4, j += 6)` loop shared
   * by yuyv2rgb and uyvy2rgb; px is the per-pixel conversion (YUV2RGB).
   */
  method PackedLoop(yuv: array<byte>, rgb: array<byte>, numPixels: int, layout: Layout, px: (byte, byte, byte) -> Rgb)
    requires yuv != rgb
    requires numPixels < 0x4000_0000
    requires 4 * Macropixels(numPixels) <= yuv.Length
    requires 6 * Macropixels(numPixels) <= rgb.Length
    modifies rgb
    ensures rgb[..6 * Macropixels(numPixels)] == PackedToRgb(px, layout, yuv[..], Macropixels(numPixels))
    ensures rgb[6 * Macropixels(numPixels)..] == old(rgb[6 * Macropixels(numPixels)..])
  {
    ghost var m := Macropixels(numPixels);
    var k := 0;
    var i, j := 0, 0;
    MacropixelsBound(numPixels, 0);
    while i < numPixels * 2
      invariant 0 <= k <= m && i == 4 * k && j == 6 * k
      invariant k < m <==> i < numPixels * 2
      invariant rgb[..j] == PackedToRgb(px, layout, yuv[..], k)
      invariant rgb[6 * m..] == old(rgb[6 * m..])
    {
      ghost var rest := rgb[6 * m..];
      MacropixelStep(yuv, rgb, k, layout, px);
      assert rgb[6 * m..] == rest;
      i, j, k := i + 4, j + 6, k + 1;
      MacropixelsBound(numPixels, k);
    }
  }

  /** yuyv2rgb: macropixel k (Y0 U Y1 V at bytes 4k..4k+3) gives RGB bytes 6k..6k+5. */
  method Yuyv2Rgb(yuv: array<byte>, rgb: array<byte>, numPixels: int)
    requires yuv != rgb
    requires numPixels < 0x4000_0000
    requires 4 * Macropixels(numPixels) <= yuv.Length
    requires 6 * Macropixels(numPixels) <= rgb.Length
    modifies rgb
    ensures rgb[..6 * Macropixels(numPixels)] == PackedToRgb(Yuv2Rgb, YUYV, yuv[..], Macropixels(numPixels))
    ensures rgb[6 * Macropixels(numPixels)..] == old(rgb[6 * Macropixels(numPixels)..])
  {
    PackedLoop(yuv, rgb, numPixels, YUYV, Yuv2Rgb);
  }

  /** uyvy2rgb: the same loop reading U Y0 V Y1. */
  method Uyvy2Rgb(yuv: array<byte>, rgb: array<byte>, numPixels: int)
    requires yuv != rgb
    requires numPixels < 0x4000_0000
    requires 4 * Macropixels(numPixels) <= yuv.Length
    requires 6 * Macropixels(numPixels) <= rgb.Length
    modifies rgb
    ensures rgb[..6 * Macropixels(numPixels)] == PackedToRgb(Yuv2Rgb, UYVY, yuv[..], Macropixels(numPixels))
    ensures rgb[6 * Macropixels(numPixels)..] == old(rgb[6 * Macropixels(numPixels)..])
  {
    PackedLoop(yuv, rgb, numPixels, UYVY, Yuv2Rgb);
  }

  // ---------------------------------------------------------------------
  // 10-bit mono -> 8-bit
  // ---------------------------------------------------------------------

  /** A `char` byte as the signed value the C expression sees. */
  function Signed(b: byte): int { if b >= 128 then b - 256 else b }

  /**
   * ((RAW[i] >> 2) & 0x3F) | ((RAW[i+1] << 6) & 0xC0) on signed chars:
   * the two masks select disjoint bits, so the `|` is a sum.
   */
  function Mono8Of(lo: byte, hi: byte): int
  {
    (Signed(lo) / 4) % 64 + (Signed(hi) * 64) % 256
  }

  /** The intended reduction: the little-endian 16-bit sample lo + 256*hi shifted right by 2, mod 256. */
  function Mono8(lo: byte, hi: byte): int
  {
    ((lo as int + 256 * (hi as int)) / 4) % 256
  }

  /** (RAW[i] >> 2) & 0x3F is the unsigned low byte shifted right by 2. */
  lemma Mono8Low(lo: byte)
    ensures (Signed(lo) / 4) % 64 == lo / 4
  {
    if lo >= 128 {
      assert Signed(lo) == lo - 256;
      assert (lo - 256) / 4 == lo / 4 - 64;
    }
  }

  /** (RAW[i+1] << 6) & 0xC0 keeps the two low bits of the high byte, as bits 6 and 7. */
  lemma Mono8High(hi: byte)
    ensures (Signed(hi) * 64) % 256 == 64 * (hi % 4)
  {
    var q, r := hi / 4, hi % 4;
    assert hi == 4 * q + r;
    assert hi * 64 == 256 * q + 64 * r;
    if hi >= 128 {
      assert Signed(hi) * 64 == 256 * (q - 64) + 64 * r;
    }
  }

  /** The sign extension never shows: the C expression computes Mono8. */
  lemma Mono8OfUnsigned(lo: byte, hi: byte)
    ensures Mono8Of(lo, hi) == Mono8(lo, hi)
  {
    Mono8Low(lo);
    Mono8High(hi);
    Mono8Split(lo, hi);
  }

  /** The shifted sample, mod 256: six bits of the low byte under two bits of the high byte. */
  lemma Mono8Split(lo: byte, hi: byte)
    ensures Mono8(lo, hi) == lo / 4 + 64 * (hi % 4)
  {
    var x, q, r := lo / 4, hi / 4, hi % 4;
    var m := x + 64 * r;
    assert lo as int + 256 * (hi as int) == 4 * (m + 256 * q) + lo % 4;
    assert (m + 256 * q) % 256 == m;
  }

  /** mono102mono8: one output byte per little-endian 16-bit input sample. */
  method Mono102Mono8(raw: array<byte>, mono: array<byte>, numPixels: int)
    requires raw != mono
    requires numPixels < 0x4000_0000
    requires 2 * numPixels <= raw.Length && numPixels <= mono.Length
    modifies mono
    ensures forall j :: 0 <= j < numPixels ==> mono[j] == Mono8(raw[2 * j], raw[2 * j + 1])
    ensures var n := if numPixels < 0 then 0 else numPixels; mono[n..] == old(mono[n..])
  {
    var i, j := 0, 0;
    while i < numPixels * 2
      invariant i == 2 * j && 0 <= j <= (if numPixels < 0 then 0 else numPixels)
      invariant forall k :: 0 <= k < j ==> mono[k] == Mono8(raw[2 * k], raw[2 * k + 1])
      invariant forall k :: j <= k < mono.Length ==> mono[k] == old(mono[k])
    {
      Mono8OfUnsigned(raw[i], raw[i + 1]);
      mono[j] := Mono8Of(raw[i], raw[i + 1]);
      i, j := i + 2, j + 1;
    }
  }

  /** rgb242rgb: a copy of exactly 3*NumPixels bytes. */
  method Rgb242Rgb(yuv: array<byte>, rgb: array<byte>, numPixels: nat)
    requires yuv != rgb
    requires 3 * numPixels <= yuv.Length && 3 * numPixels <= rgb.Length
    modifies rgb
    ensures rgb[..3 * numPixels] == yuv[..3 * numPixels]
    ensures rgb[3 * numPixels..] == old(rgb[3 * numPixels..])
  {
    CopyBytes(rgb, yuv, 3 * numPixels);
  }
}
