/**
 * Shared vocabulary of the model: bytes, optional values, the C string
 * helpers the codecs rely on (case-insensitive comparison, std::string::find,
 * decimal and hexadecimal rendering, a decimal model of sscanf "%i") and a
 * byte-array copy standing for memcpy.
 */
module Common {

  /** An unsigned 8-bit value: how every pixel buffer is read. */
  type byte = x: int | 0 <= x < 256

  /** A u32 value (C `unsigned int` / `__u32`). */
  type u32 = x: int | 0 <= x < 0x1_0000_0000

  datatype Option<T> = None | Some(value: T)

  const U32Mod: int := 0x1_0000_0000
  const U64Mod: int := 0x1_0000_0000_0000_0000

  // ---------------------------------------------------------------------
  // Characters and strings (ASCII, as the C library sees them)
  // ---------------------------------------------------------------------

  /** tolower() in the "C" locale. */
  function ToLowerChar(c: char): (r: char)
    ensures 'A' <= c <= 'Z' ==> r as int == c as int + 32
    ensures !('A' <= c <= 'Z') ==> r == c
    ensures !('A' <= r <= 'Z')
  {
    if 'A' <= c <= 'Z' then (c as int + 32) as char else c
  }

  /** Lower-cases every character (std::transform with tolower). */
  function ToLower(s: string): (r: string)
    ensures |r| == |s|
    ensures forall i :: 0 <= i < |s| ==> r[i] == ToLowerChar(s[i])
  {
    seq(|s|, i requires 0 <= i < |s| => ToLowerChar(s[i]))
  }

  /** strcasecmp(a, b) == 0. */
  predicate EqualsIgnoreCase(a: string, b: string)
  {
    |a| == |b| && forall i :: 0 <= i < |a| ==> ToLowerChar(a[i]) == ToLowerChar(b[i])
  }

  lemma EqualsIgnoreCaseReflexive(a: string)
    ensures EqualsIgnoreCase(a, a)
  {
  }

  lemma EqualsIgnoreCaseOfLower(a: string, b: string)
    requires ToLower(a) == ToLower(b)
    ensures EqualsIgnoreCase(a, b)
  {
    forall i | 0 <= i < |a|
      ensures ToLowerChar(a[i]) == ToLowerChar(b[i])
    {
      assert ToLower(a)[i] == ToLower(b)[i];
    }
  }

  /** Does `pat` occur in `s` starting at position `i`? */
  predicate OccursAt(s: string, pat: string, i: int)
  {
    0 <= i && i + |pat| <= |s| && s[i..i + |pat|] == pat
  }

  /** std::string::find(pat, from): the first occurrence at or after `from`. */
  function Find(s: string, pat: string, from: nat): (r: Option<nat>)
    decreases |s| - from
    ensures r.Some? ==> from <= r.value && OccursAt(s, pat, r.value)
    ensures r.Some? ==> forall j :: from <= j < r.value ==> !OccursAt(s, pat, j)
    ensures r.None? ==> forall j :: from <= j ==> !OccursAt(s, pat, j)
  {
    if from + |pat| > |s| then None
    else if s[from..from + |pat|] == pat then Some(from)
    else Find(s, pat, from + 1)
  }

  /** A pattern whose first character does not occur in a is first found right after a. */
  lemma FindAfter(a: string, b: string, pat: string)
    requires pat != [] && !Contains(a, pat[0]) && StartsWith(b, pat)
    ensures Find(a + b, pat, 0) == Some(|a|)
  {
    var s := a + b;
    assert s[|a|..|a| + |pat|] == b[..|pat|];
    assert OccursAt(s, pat, |a|);
    forall j | 0 <= j < |a|
      ensures !OccursAt(s, pat, j)
    {
      assert s[j] == a[j];
    }
  }

  /** A one-character pattern first found, at or after `from`, at k. */
  lemma {:induction false} FindCharAt(s: string, pat: string, from: nat, k: nat)
    requires |pat| == 1 && from <= k < |s| && s[k] == pat[0]
    requires forall j :: from <= j < k ==> s[j] != pat[0]
    ensures Find(s, pat, from) == Some(k)
    decreases k - from
  {
    if from == k {
      assert s[k..k + 1] == pat;
    } else {
      assert s[from..from + 1][0] == s[from];
      FindCharAt(s, pat, from + 1, k);
    }
  }

  /** A one-character pattern occurring at k, at or after `from`, is found. */
  lemma FindCharSome(s: string, pat: string, from: nat, k: nat)
    requires |pat| == 1 && from <= k < |s| && s[k] == pat[0]
    ensures Find(s, pat, from).Some?
  {
    assert s[k..k + 1] == pat;
    assert OccursAt(s, pat, k);
  }

  /** A pattern whose first character does not occur at or after `from` is not found. */
  lemma FindCharNone(s: string, pat: string, from: nat)
    requires pat != [] && forall j :: from <= j < |s| ==> s[j] != pat[0]
    ensures Find(s, pat, from) == None
  {
    forall j | from <= j
      ensures !OccursAt(s, pat, j)
    {
      if j + |pat| <= |s| {
        assert s[j..j + |pat|][0] == s[j];
      }
    }
  }

  /** The first c in a + [c] + b is the one after a; around it lie a and b. */
  lemma SplitAt(a: string, c: char, b: string)
    requires forall i :: 0 <= i < |a| ==> a[i] != c
    ensures Find(a + [c] + b, [c], 0) == Some(|a|)
    ensures (a + [c] + b)[..|a|] == a && (a + [c] + b)[|a| + 1..] == b
  {
    var s := a + [c] + b;
    forall j | 0 <= j < |a|
      ensures s[j] != c
    {
      assert s[j] == a[j];
    }
    FindCharAt(s, [c], 0, |a|);
    assert s[..|a|] == a;
    assert s[|a| + 1..] == b;
  }

  /** With no c in b, nothing is found after the c that precedes b. */
  lemma NoneAfter(a: string, c: char, b: string)
    requires forall i :: 0 <= i < |b| ==> b[i] != c
    ensures Find(a + [c] + b, [c], |a| + 1) == None
  {
    var s := a + [c] + b;
    forall j | |a| + 1 <= j < |s|
      ensures s[j] != c
    {
      assert s[j] == b[j - |a| - 1];
    }
    FindCharNone(s, [c], |a| + 1);
  }

  /** A string without upper-case letters is its own lower case. */
  lemma ToLowerOfLowerCase(s: string)
    requires forall i :: 0 <= i < |s| ==> !('A' <= s[i] <= 'Z')
    ensures ToLower(s) == s
  {
  }

  predicate Contains(s: string, c: char)
  {
    exists i :: 0 <= i < |s| && s[i] == c
  }

  /** std::count(s.begin(), s.end(), c). */
  function Count(s: string, c: char): (n: nat)
    ensures n == 0 <==> !Contains(s, c)
    ensures n <= |s|
  {
    if s == [] then 0
    else (if s[0] == c then 1 else 0) + Count(s[1..], c)
  }

  predicate StartsWith(s: string, prefix: string)
  {
    |prefix| <= |s| && s[..|prefix|] == prefix
  }

  /** The strings of xs with sep between consecutive ones. */
  function Join(xs: seq<string>, sep: string): string
  {
    if |xs| == 0 then ""
    else if |xs| == 1 then xs[0]
    else Join(xs[..|xs| - 1], sep) + sep + xs[|xs| - 1]
  }

  /** Appending one more non-empty-list element adds sep and the element. */
  lemma JoinSnoc(xs: seq<string>, x: string, sep: string)
    ensures Join(xs + [x], sep) == if xs == [] then x else Join(xs, sep) + sep + x
  {
    assert (xs + [x])[..|xs|] == xs;
  }

  /** Joining non-empty strings gives "" only for the empty list. */
  lemma {:induction false} JoinEmpty(xs: seq<string>, sep: string)
    requires forall i :: 0 <= i < |xs| ==> xs[i] != ""
    ensures Join(xs, sep) == "" <==> xs == []
  {
    if |xs| > 1 {
      assert xs[|xs| - 1] != "";
    }
  }

  /**
   * The `if (s.length()) s += sep; s += x;` idiom: on a string that joins
   * non-empty parts, it joins one more part.
   */
  method AppendPart(s: string, ghost parts: seq<string>, x: string, sep: string) returns (s': string)
    requires forall i :: 0 <= i < |parts| ==> parts[i] != ""
    requires s == Join(parts, sep)
    ensures s' == Join(parts + [x], sep)
  {
    JoinEmpty(parts, sep);
    JoinSnoc(parts, x, sep);
    s' := s;
    if |s'| > 0 {
      s' := s' + sep;
    }
    s' := s' + x;
  }

  // ---------------------------------------------------------------------
  // Number rendering (printf "%u" and "%08x")
  // ---------------------------------------------------------------------

  function DigitChar(d: int): (c: char)
    requires 0 <= d < 16
    ensures '0' <= c <= '9' || 'a' <= c <= 'f'
  {
    if d < 10 then ('0' as int + d) as char else ('a' as int + d - 10) as char
  }

  /** The value of a lower-case hexadecimal digit character (0 for any other character). */
  function DigitValue(c: char): (d: nat)
    ensures d < 16
  {
    if '0' <= c <= '9' then c as int - '0' as int
    else if 'a' <= c <= 'f' then c as int - 'a' as int + 10
    else 0
  }

  /** printf("%u", n): shortest decimal without leading zeros. */
  function Decimal(n: nat): (s: string)
    ensures |s| >= 1
    ensures forall i :: 0 <= i < |s| ==> '0' <= s[i] <= '9'
    ensures n > 0 ==> s[0] != '0'
  {
    if n < 10 then [DigitChar(n)] else Decimal(n / 10) + [DigitChar(n % 10)]
  }

  /** `width` lower-case hexadecimal digits of n, most significant first. */
  function HexDigits(n: nat, width: nat): (s: string)
    ensures |s| == width
    ensures forall i :: 0 <= i < |s| ==> '0' <= s[i] <= '9' || 'a' <= s[i] <= 'f'
  {
    if width == 0 then [] else HexDigits(n / 16, width - 1) + [DigitChar(n % 16)]
  }

  /** Reading the digits back gives n modulo 16^width. */
  function HexValue(s: string): nat
  {
    if s == [] then 0 else 16 * HexValue(s[..|s| - 1]) + DigitValue(s[|s| - 1])
  }

  function Pow16(k: nat): (p: nat)
    ensures p >= 1
  {
    if k == 0 then 1 else 16 * Pow16(k - 1)
  }

  /** One more digit: the value of the leading digits times 16 plus the last digit. */
  lemma HexStep(n: nat, width: nat)
    requires width > 0 && HexValue(HexDigits(n / 16, width - 1)) == n / 16
    ensures HexValue(HexDigits(n, width)) == n
  {
    var s := HexDigits(n, width);
    assert s[..|s| - 1] == HexDigits(n / 16, width - 1);
    assert DigitValue(DigitChar(n % 16)) == n % 16;
  }

  lemma {:induction false} HexDigitsRoundTrip(n: nat, width: nat)
    requires n < Pow16(width)
    ensures HexValue(HexDigits(n, width)) == n
  {
    if width > 0 {
      var q := n / 16;
      assert q < Pow16(width - 1);
      HexDigitsRoundTrip(q, width - 1);
      HexStep(n, width);
    }
  }

  // ---------------------------------------------------------------------
  // Decimal model of sscanf(s, "%i", &x)
  // ---------------------------------------------------------------------

  predicate IsSpace(c: char)
  {
    c == ' ' || c == '\t' || c == '\n' || c == '\r' || c as int == 11 || c as int == 12
  }

  predicate IsDigit(c: char) { '0' <= c <= '9' }

  /** Number of leading decimal digits of s. */
  function DigitRun(s: string): (n: nat)
    ensures n <= |s|
    ensures forall i :: 0 <= i < n ==> IsDigit(s[i])
    ensures n < |s| ==> !IsDigit(s[n])
  {
    if s != [] && IsDigit(s[0]) then 1 + DigitRun(s[1..]) else 0
  }

  /** The value of a string of decimal digits. */
  function DecimalValue(s: string): nat
    requires forall i :: 0 <= i < |s| ==> IsDigit(s[i])
  {
    if s == [] then 0 else 10 * DecimalValue(s[..|s| - 1]) + DigitOf(s[|s| - 1])
  }

  function DigitOf(c: char): (d: nat)
    requires IsDigit(c)
    ensures d < 10
  {
    c as int - '0' as int
  }

  /** Number of leading white-space characters. */
  function SpaceRun(s: string): (n: nat)
    ensures n <= |s|
    ensures forall i :: 0 <= i < n ==> IsSpace(s[i])
    ensures n < |s| ==> !IsSpace(s[n])
  {
    if s != [] && IsSpace(s[0]) then 1 + SpaceRun(s[1..]) else 0
  }

  /**
   * sscanf(s, "%i", &x) == 1, reading a decimal integer: leading white space,
   * an optional sign, then at least one digit; None when no digit follows.
   */
  function ScanInt(s: string): (r: Option<int>)
    ensures r.Some? <==>
      (var t := s[SpaceRun(s)..];
       var d := if t != [] && (t[0] == '+' || t[0] == '-') then t[1..] else t;
       d != [] && IsDigit(d[0]))
  {
    var t := s[SpaceRun(s)..];
    var negative := t != [] && t[0] == '-';
    var d := if t != [] && (t[0] == '+' || t[0] == '-') then t[1..] else t;
    var n := DigitRun(d);
    if n == 0 then None
    else
      var v: int := DecimalValue(d[..n]);
      Some(if negative then -v else v)
  }

  lemma ScanIntDecimal(n: nat)
    ensures ScanInt(Decimal(n)) == Some(n)
  {
    var s := Decimal(n);
    assert SpaceRun(s) == 0;
    assert DigitRun(s) == |s| by { DigitRunAll(s); }
    assert s[..|s|] == s;
    DecimalRoundTrip(n);
  }

  /**
   * The model keeps the mathematical value: the text of 2^31 scans to a
   * value no C int holds, where sscanf's "%i" into an int is undefined.
   */
  lemma ScanIntPastInt()
    ensures ScanInt(Decimal(0x8000_0000)).Some? && ScanInt(Decimal(0x8000_0000)).value > 0x7fff_ffff
  {
    ScanIntDecimal(0x8000_0000);
  }

  /** sscanf(s, "<prefix>%i", &x) == 1: the literal prefix, then an integer. */
  function ScanAfter(s: string, prefix: string): (r: Option<int>)
    ensures r.Some? ==> StartsWith(s, prefix)
  {
    if StartsWith(s, prefix) then ScanInt(s[|prefix|..]) else None
  }

  lemma {:induction false} DigitRunAll(s: string)
    requires forall i :: 0 <= i < |s| ==> IsDigit(s[i])
    ensures DigitRun(s) == |s|
  {
    if s != [] { DigitRunAll(s[1..]); }
  }

  lemma {:induction false} DecimalRoundTrip(n: nat)
    ensures DecimalValue(Decimal(n)) == n
  {
    if n >= 10 {
      var s := Decimal(n);
      assert s[..|s| - 1] == Decimal(n / 10);
      DecimalRoundTrip(n / 10);
    }
  }

  /** An unsigned int whose bytes, least significant first, are b0 b1 b2 b3. */
  function Word(b0: byte, b1: byte, b2: byte, b3: byte): (w: u32)
    ensures w % 256 == b0
    ensures (w / 256) % 256 == b1
    ensures (w / 65536) % 256 == b2
    ensures w / 16777216 == b3
  {
    var low := b0 + 256 * b1;
    assert low < 65536 && low % 256 == b0 && low / 256 == b1;
    var high := b2 + 256 * b3;
    assert high < 65536 && high % 256 == b2 && high / 256 == b3;
    WordSplit(low, high);
    low + 65536 * high
  }

  lemma WordSplit(low: nat, high: nat)
    requires low < 65536 && high < 65536
    ensures (low + 65536 * high) % 256 == low % 256
    ensures ((low + 65536 * high) / 256) % 256 == low / 256
    ensures ((low + 65536 * high) / 65536) % 256 == high % 256
    ensures (low + 65536 * high) / 16777216 == high / 256
  {
    var w := low + 65536 * high;
    assert w / 65536 == high;
    assert w / 256 == low / 256 + 256 * high;
    assert w / 16777216 == (w / 65536) / 256;
  }

  // ---------------------------------------------------------------------
  // Bit operations on unsigned values
  // ---------------------------------------------------------------------

  /** a & b on unsigned numbers. */
  function And(a: nat, b: nat): (r: nat)
    ensures r <= a && r <= b
  {
    if a == 0 || b == 0 then 0
    else 2 * And(a / 2, b / 2) + (if a % 2 == 1 && b % 2 == 1 then 1 else 0)
  }

  /** a & ~b on unsigned numbers. */
  function AndNot(a: nat, b: nat): (r: nat)
    ensures r <= a
  {
    if a == 0 then 0
    else 2 * AndNot(a / 2, b / 2) + (if a % 2 == 1 && b % 2 == 0 then 1 else 0)
  }

  /** `val & f` is non-zero. */
  predicate Meets(val: nat, f: nat) { And(val, f) != 0 }

  /** Every bit of r is a bit of val (`r & ~val == 0`). */
  predicate Within(r: nat, val: nat) { AndNot(r, val) == 0 }

  lemma {:induction false} WithinSelf(v: nat)
    ensures Within(v, v)
  {
    if v > 0 { WithinSelf(v / 2); }
  }

  lemma {:induction false} WithinCleared(r: nat, val: nat, f: nat)
    requires Within(r, AndNot(val, f))
    ensures Within(r, val) && !Meets(r, f)
  {
    if r > 0 {
      var c := AndNot(val, f);
      assert c / 2 == AndNot(val / 2, f / 2) && c % 2 == (if val % 2 == 1 && f % 2 == 0 then 1 else 0);
      WithinCleared(r / 2, val / 2, f / 2);
    }
  }

  lemma {:induction false} WithinDisjoint(r: nat, val: nat, f: nat)
    requires Within(r, val) && !Meets(val, f)
    ensures !Meets(r, f)
  {
    if r > 0 && f > 0 {
      WithinDisjoint(r / 2, val / 2, f / 2);
    }
  }

  lemma AndZero(f: nat)
    ensures !Meets(0, f)
  {
  }

  // ---------------------------------------------------------------------
  // Enumerations named by strings (the *ToStr / *FromStr pairs)
  // ---------------------------------------------------------------------

  /** Some position at or after k differs once lower-cased (a and b of equal length). */
  predicate DiffersFrom(a: string, b: string, k: nat)
    requires |a| == |b|
    decreases |a| - k
  {
    k < |a| && (ToLowerChar(a[k]) != ToLowerChar(b[k]) || DiffersFrom(a, b, k + 1))
  }

  /** a and b differ in length or in some character, ignoring case. */
  predicate Distinguished(a: string, b: string)
  {
    |a| != |b| || DiffersFrom(a, b, 0)
  }

  lemma {:induction false} DiffersFromApart(a: string, b: string, k: nat)
    requires |a| == |b| && DiffersFrom(a, b, k)
    ensures !EqualsIgnoreCase(a, b) && !EqualsIgnoreCase(b, a)
    decreases |a| - k
  {
    if ToLowerChar(a[k]) == ToLowerChar(b[k]) {
      DiffersFromApart(a, b, k + 1);
    }
  }

  /** strcasecmp tells distinguished names apart, in either order. */
  lemma DistinguishedApart(a: string, b: string)
    requires Distinguished(a, b)
    ensures !EqualsIgnoreCase(a, b) && !EqualsIgnoreCase(b, a)
  {
    if |a| == |b| {
      DiffersFromApart(a, b, 0);
    }
  }

  /**
   * The first ordinal at or after `from` whose name (toStr of the value with
   * that ordinal) equals s ignoring case.
   */
  function FirstMatch<T>(s: string, values: seq<T>, toStr: T -> string, from: nat): (r: Option<nat>)
    decreases |values| - from
    ensures r.Some? ==> from <= r.value < |values| && EqualsIgnoreCase(s, toStr(values[r.value]))
    ensures r.Some? ==> forall j :: from <= j < r.value ==> !EqualsIgnoreCase(s, toStr(values[j]))
    ensures r.None? ==> forall j :: from <= j < |values| ==> !EqualsIgnoreCase(s, toStr(values[j]))
  {
    if from >= |values| then None
    else if EqualsIgnoreCase(s, toStr(values[from])) then Some(from)
    else FirstMatch(s, values, toStr, from + 1)
  }

  /** `for (n = 0; n < MAX_NUM; ++n) if (strcasecmp(str, ToStr((T)n)) == 0) return n;` */
  method SearchByName<T>(s: string, values: seq<T>, toStr: T -> string) returns (r: Option<nat>)
    ensures r == FirstMatch(s, values, toStr, 0)
  {
    var n := 0;
    while n < |values|
      invariant 0 <= n <= |values|
      invariant FirstMatch(s, values, toStr, 0) == FirstMatch(s, values, toStr, n)
    {
      if EqualsIgnoreCase(s, toStr(values[n])) {
        return Some(n);
      }
      n := n + 1;
    }
    return None;
  }

  /** What every *FromStr returns: dflt for nullptr or no match, else the first match. */
  function FromStr<T(==)>(str: Option<string>, values: seq<T>, toStr: T -> string, dflt: T): (r: T)
    ensures str.None? ==> r == dflt
    ensures str.Some? && (forall j :: 0 <= j < |values| ==> !EqualsIgnoreCase(str.value, toStr(values[j]))) ==> r == dflt
    ensures r == dflt || exists j :: 0 <= j < |values| && r == values[j] && EqualsIgnoreCase(str.value, toStr(r))
  {
    if str.None? then dflt
    else match FirstMatch(str.value, values, toStr, 0)
      case None => dflt
      case Some(n) => values[n]
  }

  /** A value's own name finds it again when no earlier ordinal answers to that name. */
  lemma FromStrOfName<T>(values: seq<T>, toStr: T -> string, dflt: T, k: nat)
    requires k < |values|
    requires forall j :: 0 <= j < k ==> Distinguished(toStr(values[j]), toStr(values[k]))
    ensures FromStr(Some(toStr(values[k])), values, toStr, dflt) == values[k]
  {
    EqualsIgnoreCaseReflexive(toStr(values[k]));
    forall j | 0 <= j < k
      ensures !EqualsIgnoreCase(toStr(values[k]), toStr(values[j]))
    {
      DistinguishedApart(toStr(values[j]), toStr(values[k]));
    }
  }

  /** Strings that are equal ignoring case find the same ordinal. */
  lemma {:induction false} FirstMatchIgnoresCase<T>(s: string, t: string, values: seq<T>, toStr: T -> string, from: nat)
    requires EqualsIgnoreCase(s, t)
    ensures FirstMatch(s, values, toStr, from) == FirstMatch(t, values, toStr, from)
    decreases |values| - from
  {
    if from < |values| {
      var name := toStr(values[from]);
      assert EqualsIgnoreCase(s, name) <==> EqualsIgnoreCase(t, name);
      FirstMatchIgnoresCase(s, t, values, toStr, from + 1);
    }
  }

  /** *FromStr is case-insensitive. */
  lemma FromStrIgnoresCase<T>(s: string, t: string, values: seq<T>, toStr: T -> string, dflt: T)
    requires EqualsIgnoreCase(s, t)
    ensures FromStr(Some(s), values, toStr, dflt) == FromStr(Some(t), values, toStr, dflt)
  {
    FirstMatchIgnoresCase(s, t, values, toStr, 0);
  }

  // ---------------------------------------------------------------------
  // memcpy
  // ---------------------------------------------------------------------

  /** memcpy(dst, src, n) between two distinct buffers. */
  method CopyBytes(dst: array<byte>, src: array<byte>, n: nat)
    requires dst != src
    requires n <= dst.Length && n <= src.Length
    modifies dst
    ensures dst[..n] == src[..n]
    ensures dst[n..] == old(dst[n..])
  {
    forall i | 0 <= i < n {
      dst[i] := src[i];
    }
  }
}
