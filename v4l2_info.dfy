/**
 * The V4L2 value-to-text helpers: num2s, flags2s over a flag table, fcc2s,
 * the analogue-standard names (partstd2s, std2s), the selection-target
 * table, the DV-timing, frame-buffer and buffer flag texts and the input and
 * output status texts.  Constant values are those of the Linux header
 * linux/videodev2.h.
 */
module V4l2Info {
  import opened Common

  // ---------------------------------------------------------------------
  // num2s
  // ---------------------------------------------------------------------

  /** num2s(num, is_hex): sprintf "0x%08x" or "%u". */
  function Num2s(num: u32, isHex: bool): (s: string)
    ensures isHex ==> |s| == 10 && s[..2] == "0x"
    ensures isHex ==> forall i :: 2 <= i < 10 ==> '0' <= s[i] <= '9' || 'a' <= s[i] <= 'f'
    ensures !isHex ==> s == Decimal(num)
  {
    if isHex then "0x" + HexDigits(num, 8) else Decimal(num)
  }

  /** The eight hexadecimal digits read back give the number. */
  lemma Num2sHexRoundTrip(num: u32)
    ensures HexValue(Num2s(num, true)[2..]) == num
  {
    assert Num2s(num, true)[2..] == HexDigits(num, 8);
    assert Pow16(8) == 0x1_0000_0000;
    HexDigitsRoundTrip(num, 8);
  }

  /** The decimal form read back by sscanf gives the number. */
  lemma Num2sDecimalRoundTrip(num: u32)
    ensures ScanInt(Num2s(num, false)) == Some(num as int)
  {
    ScanIntDecimal(num);
  }

  /** The "Unknown (0x...)" text of every lookup's default branch. */
  function UnknownName(v: u32): (s: string)
    ensures |s| == 20 && s[..9] == "Unknown (" && s[19] == ')'
  {
    "Unknown (" + Num2s(v, true) + ")"
  }

  // ---------------------------------------------------------------------
  // flags2s
  // ---------------------------------------------------------------------

  /** One `flag_def` entry. */
  datatype FlagDef = FlagDef(flag: u32, name: string)

  /** Names collected by the flags2s loop and the bits of val left over. */
  datatype FlagScan = FlagScan(names: seq<string>, rest: u32)

  /**
   * What the flags2s loop finds: walking the table up to the first entry with
   * flag 0 (the terminator), each entry whose flag overlaps the remaining
   * value contributes its name and has its bits cleared.
   */
  function ScanFlags(val: u32, def: seq<FlagDef>): FlagScan
  {
    if def == [] || def[0].flag == 0 then FlagScan([], val)
    else if Meets(val, def[0].flag) then
      var t := ScanFlags(AndNot(val, def[0].flag), def[1..]);
      FlagScan([def[0].name] + t.names, t.rest)
    else ScanFlags(val, def[1..])
  }

  /** Number of entries before the terminator. */
  function Active(def: seq<FlagDef>): (n: nat)
    ensures n <= |def|
    ensures forall k :: 0 <= k < n ==> def[k].flag != 0
    ensures n < |def| ==> def[n].flag == 0
  {
    if def == [] || def[0].flag == 0 then 0 else 1 + Active(def[1..])
  }

  /** The text flags2s(val, def) produces. */
  function Flags2sSpec(val: u32, def: seq<FlagDef>): string
  {
    var t := ScanFlags(val, def);
    Join(t.names + (if t.rest != 0 then [Num2s(t.rest, true)] else []), ", ")
  }

  predicate NamedTable(def: seq<FlagDef>)
  {
    forall k :: 0 <= k < |def| ==> def[k].name != ""
  }

  /** The leftover is a subset of val and shares no bit with any active table flag. */
  lemma {:induction false} ScanFlagsRest(val: u32, def: seq<FlagDef>)
    ensures Within(ScanFlags(val, def).rest, val)
    ensures forall k :: 0 <= k < Active(def) ==> !Meets(ScanFlags(val, def).rest, def[k].flag)
  {
    if def == [] || def[0].flag == 0 {
      WithinSelf(val);
    } else {
      var f := def[0].flag;
      var r := ScanFlags(val, def).rest;
      if Meets(val, f) {
        ScanFlagsRest(AndNot(val, f), def[1..]);
        WithinCleared(r, val, f);
      } else {
        ScanFlagsRest(val, def[1..]);
        WithinDisjoint(r, val, f);
      }
      forall k | 1 <= k < Active(def)
        ensures !Meets(r, def[k].flag)
      {
        assert def[1..][k - 1] == def[k];
      }
    }
  }

  /** With no name found the leftover is the whole value. */
  lemma {:induction false} ScanFlagsNoNames(val: u32, def: seq<FlagDef>)
    ensures ScanFlags(val, def).names == [] ==> ScanFlags(val, def).rest == val
  {
    if def != [] && def[0].flag != 0 && !Meets(val, def[0].flag) {
      ScanFlagsNoNames(val, def[1..]);
    }
  }

  /** Every collected name is the name of an active table entry, in table order. */
  lemma {:induction false} ScanFlagsNamed(val: u32, def: seq<FlagDef>)
    requires NamedTable(def)
    ensures forall i :: 0 <= i < |ScanFlags(val, def).names| ==> ScanFlags(val, def).names[i] != ""
  {
    if def != [] && def[0].flag != 0 {
      var f := def[0].flag;
      assert NamedTable(def[1..]);
      if Meets(val, f) {
        ScanFlagsNamed(AndNot(val, f), def[1..]);
      } else {
        ScanFlagsNamed(val, def[1..]);
      }
    }
  }

  /** flags2s(val, def) is empty exactly when val is 0 (table names are non-empty). */
  lemma Flags2sEmpty(val: u32, def: seq<FlagDef>)
    requires NamedTable(def)
    ensures Flags2sSpec(val, def) == "" <==> val == 0
  {
    var t := ScanFlags(val, def);
    var parts := t.names + (if t.rest != 0 then [Num2s(t.rest, true)] else []);
    ScanFlagsNamed(val, def);
    assert forall i :: 0 <= i < |parts| ==> parts[i] != "";
    JoinEmpty(parts, ", ");
    ScanFlagsNoNames(val, def);
    ScanFlagsRest(val, def);
    if val == 0 {
      ScanFlagsZero(def);
    }
  }

  /** Nothing is found in a zero value. */
  lemma {:induction false} ScanFlagsZero(def: seq<FlagDef>)
    ensures ScanFlags(0, def) == FlagScan([], 0)
  {
    if def != [] && def[0].flag != 0 {
      ScanFlagsZero(def[1..]);
    }
  }

  /** One table entry of the scan: names found so far plus the scan of the rest stay the same. */
  lemma ScanFlagsAdvance(names: seq<string>, v: u32, def: seq<FlagDef>, i: nat)
    requires i < |def| && def[i].flag != 0
    ensures var t := ScanFlags(v, def[i..]);
            var found := Meets(v, def[i].flag);
            var names' := if found then names + [def[i].name] else names;
            var t' := ScanFlags(if found then AndNot(v, def[i].flag) else v, def[i + 1..]);
            names + t.names == names' + t'.names && t.rest == t'.rest
  {
    assert def[i..][1..] == def[i + 1..];
    if Meets(v, def[i].flag) {
      var t' := ScanFlags(AndNot(v, def[i].flag), def[i + 1..]);
      assert names + ([def[i].name] + t'.names) == (names + [def[i].name]) + t'.names;
    }
  }

  /** The scan ends at the terminator or at the end of the table. */
  lemma ScanFlagsEnd(names: seq<string>, v: u32, def: seq<FlagDef>, i: nat)
    requires i <= |def| && (i == |def| || def[i].flag == 0)
    ensures ScanFlags(v, def[i..]) == FlagScan([], v)
    ensures names + ScanFlags(v, def[i..]).names == names
  {
    assert names + [] == names;
  }

  /**
   * flags2s: walks the table to the terminator, appending ", " and the name
   * of each entry overlapping val and clearing its bits, then the leftover
   * in hexadecimal.
   */
  method Flags2s(val: u32, def: seq<FlagDef>) returns (s: string)
    requires NamedTable(def)
    ensures s == Flags2sSpec(val, def)
  {
    s := "";
    var v: u32 := val;
    var i := 0;
    ghost var names: seq<string> := [];
    while i < |def| && def[i].flag != 0
      invariant 0 <= i <= |def|
      invariant forall k :: 0 <= k < |names| ==> names[k] != ""
      invariant s == Join(names, ", ")
      invariant ScanFlags(val, def).names == names + ScanFlags(v, def[i..]).names
      invariant ScanFlags(val, def).rest == ScanFlags(v, def[i..]).rest
    {
      ScanFlagsAdvance(names, v, def, i);
      if Meets(v, def[i].flag) {
        s := AppendPart(s, names, def[i].name, ", ");
        v := AndNot(v, def[i].flag);
        names := names + [def[i].name];
      }
      i := i + 1;
    }
    ScanFlagsEnd(names, v, def, i);
    if v != 0 {
      s := AppendPart(s, names, Num2s(v, true), ", ");
    }
  }

  // ---------------------------------------------------------------------
  // fcc2s
  // ---------------------------------------------------------------------

  /** v4l2_fourcc(a, b, c, d): the four characters packed least significant first. */
  function Fourcc(a: char, b: char, c: char, d: char): (w: u32)
    requires a as int < 128 && b as int < 128 && c as int < 128 && d as int < 128
  {
    Word(a as int, b as int, c as int, d as int)
  }

  /** v4l2_fourcc_be: the same code with bit 31 set. */
  function FourccBe(a: char, b: char, c: char, d: char): (w: u32)
    requires a as int < 128 && b as int < 128 && c as int < 128 && d as int < 128
    ensures w == Fourcc(a, b, c, d) + 0x8000_0000
  {
    Word(a as int, b as int, c as int, d as int + 128)
  }

  /** fcc2s: each byte of the code masked to 7 bits, then "-BE" when bit 31 is set. */
  function Fcc2s(val: u32): (s: string)
    ensures |s| == if val >= 0x8000_0000 then 7 else 4
  {
    [(val % 128) as char, ((val / 256) % 128) as char,
     ((val / 65536) % 128) as char, ((val / 16777216) % 128) as char]
    + (if val >= 0x8000_0000 then "-BE" else "")
  }

  lemma Mod128OfByte(x: nat, b: nat)
    requires x % 256 == b && b < 128
    ensures x % 128 == b
  {
    assert x == 256 * (x / 256) + b;
    assert x == 128 * (2 * (x / 256)) + b;
  }

  /** fcc2s decodes what v4l2_fourcc packs. */
  lemma Fcc2sFourcc(a: char, b: char, c: char, d: char)
    requires a as int < 128 && b as int < 128 && c as int < 128 && d as int < 128
    ensures Fcc2s(Fourcc(a, b, c, d)) == [a, b, c, d]
  {
    var w := Fourcc(a, b, c, d);
    Mod128OfByte(w, a as int);
    Mod128OfByte(w / 256, b as int);
    Mod128OfByte(w / 65536, c as int);
    assert w / 16777216 == d as int;
  }

  /** ... and what v4l2_fourcc_be packs, with the "-BE" suffix. */
  lemma Fcc2sFourccBe(a: char, b: char, c: char, d: char)
    requires a as int < 128 && b as int < 128 && c as int < 128 && d as int < 128
    ensures Fcc2s(FourccBe(a, b, c, d)) == [a, b, c, d] + "-BE"
  {
    var v := FourccBe(a, b, c, d);
    Mod128OfByte(v, a as int);
    Mod128OfByte(v / 256, b as int);
    Mod128OfByte(v / 65536, c as int);
    assert v >= 0x8000_0000;
    assert (v / 16777216) % 128 == d as int;
  }

  // ---------------------------------------------------------------------
  // Analogue TV standards (partstd2s, std2s)
  // ---------------------------------------------------------------------

  /** Bit i of n. */
  function Bit(n: nat, i: nat): bool
  {
    if i == 0 then n % 2 == 1 else Bit(n / 2, i - 1)
  }

  /** The names stds[k] whose bit k of std is set, in table order. */
  function StdNames(stds: seq<string>, std: nat): seq<string>
  {
    if stds == [] then [] else (if std % 2 == 1 then [stds[0]] else []) + StdNames(stds[1..], std / 2)
  }

  /** Position i of the table is listed exactly when bit i is set (names distinct). */
  lemma {:induction false} StdNamesMember(stds: seq<string>, std: nat, i: nat)
    requires i < |stds|
    requires forall j, k :: 0 <= j < k < |stds| ==> stds[j] != stds[k]
    ensures stds[i] in StdNames(stds, std) <==> Bit(std, i)
  {
    var rest := StdNames(stds[1..], std / 2);
    if i == 0 {
      assert stds[0] !in rest by {
        StdNamesFrom(stds[1..], std / 2);
        forall k | 0 <= k < |stds[1..]| ensures stds[1..][k] != stds[0] { }
      }
    } else {
      StdNamesMember(stds[1..], std / 2, i - 1);
      assert stds[1..][i - 1] == stds[i];
    }
  }

  /** Every listed name comes from the table. */
  lemma {:induction false} StdNamesFrom(stds: seq<string>, std: nat)
    ensures forall x :: x in StdNames(stds, std) ==> x in stds
  {
    if stds != [] {
      StdNamesFrom(stds[1..], std / 2);
    }
  }

  /** No name is listed exactly when none of the table's bits is set. */
  lemma {:induction false} StdNamesEmpty(stds: seq<string>, std: nat)
    ensures StdNames(stds, std) == [] ==> forall i :: 0 <= i < |stds| ==> !Bit(std, i)
    ensures (forall i :: 0 <= i < |stds| ==> !Bit(std, i)) ==> StdNames(stds, std) == []
  {
    if stds != [] && std % 2 == 1 {
      assert StdNames(stds, std) != [];
      assert !(forall i :: 0 <= i < |stds| ==> !Bit(std, i)) by {
        assert Bit(std, 0);
      }
    } else if stds != [] {
      StdNamesEmpty(stds[1..], std / 2);
      assert StdNames(stds, std) == StdNames(stds[1..], std / 2);
      forall i | 0 < i < |stds|
        ensures Bit(std, i) == Bit(std / 2, i - 1)
      {
      }
      if StdNames(stds, std) != [] {
        var i :| 0 <= i < |stds[1..]| && Bit(std / 2, i);
        assert Bit(std, i + 1);
      }
    } else {
      assert StdNames(stds, std) == [];
    }
  }

  /** The text partstd2s produces: prefix, "-", the set names joined by "/". */
  function PartStd(prefix: string, stds: seq<string>, std: nat): string
  {
    prefix + "-" + Join(StdNames(stds, std), "/")
  }

  /** One table position of partstd2s: the names found plus those still to come stay the same. */
  lemma StdNamesAdvance(names: seq<string>, stds: seq<string>, i: nat, rest: nat)
    requires i < |stds|
    ensures names + StdNames(stds[i..], rest) ==
            (if rest % 2 == 1 then names + [stds[i]] else names) + StdNames(stds[i + 1..], rest / 2)
  {
    assert stds[i..][1..] == stds[i + 1..];
    if rest % 2 == 1 {
      assert names + ([stds[i]] + StdNames(stds[i + 1..], rest / 2)) == (names + [stds[i]]) + StdNames(stds[i + 1..], rest / 2);
    } else {
      assert [] + StdNames(stds[i + 1..], rest / 2) == StdNames(stds[i + 1..], rest / 2);
    }
  }

  /** partstd2s: walks the name table while shifting std right by one. */
  method PartStd2s(prefix: string, stds: seq<string>, std: nat) returns (s: string)
    ensures s == PartStd(prefix, stds, std)
  {
    s := prefix + "-";
    var first := true;
    var rest := std;
    var i := 0;
    ghost var names: seq<string> := [];
    while i < |stds|
      invariant 0 <= i <= |stds|
      invariant first <==> names == []
      invariant s == prefix + "-" + Join(names, "/")
      invariant StdNames(stds, std) == names + StdNames(stds[i..], rest)
    {
      StdNamesAdvance(names, stds, i, rest);
      if rest % 2 == 1 {
        JoinSnoc(names, stds[i], "/");
        if !first {
          s := s + "/";
        }
        first := false;
        s := s + stds[i];
        names := names + [stds[i]];
      }
      i := i + 1;
      rest := rest / 2;
    }
    assert names + [] == names;
  }

  function StdPal(): seq<string> { ["B", "B1", "G", "H", "I", "D", "D1", "K", "M", "N", "Nc", "60"] }
  function StdNtsc(): seq<string> { ["M", "M-JP", "443", "M-KR"] }
  function StdSecam(): seq<string> { ["B", "D", "G", "H", "K", "K1", "L", "Lc"] }
  function StdAtsc(): seq<string> { ["8-VSB", "16-VSB"] }

  /** The non-empty groups of std2s, each a partstd2s text. */
  /** The part for one group when any of its bits is set. */
  function Group(present: bool, prefix: string, stds: seq<string>, std: nat): (g: seq<string>)
    ensures forall k :: 0 <= k < |g| ==> g[k] != ""
  {
    if present then [PartStd(prefix, stds, std)] else []
  }

  function StdGroups(std: nat): seq<string>
  {
    Group(Meets(std, 0xfff), "PAL", StdPal(), std)
    + Group(Meets(std, 0xf000), "NTSC", StdNtsc(), std / 0x1000)
    + Group(Meets(std, 0xff0000), "SECAM", StdSecam(), std / 0x1_0000)
    + Group(Meets(std, 0xf000000), "ATSC", StdAtsc(), std / 0x100_0000)
  }

  /**
   * One `if (std & mask) { if (s.length()) s += sep; s += partstd2s(...); }`
   * step of std2s; `groups` are the parts written so far.
   */
  method AppendGroup(s: string, ghost groups: seq<string>, present: bool, prefix: string,
                     stds: seq<string>, std: nat, sep: string) returns (s': string, ghost groups': seq<string>)
    requires forall k :: 0 <= k < |groups| ==> groups[k] != ""
    requires s == Join(groups, sep)
    ensures groups' == groups + Group(present, prefix, stds, std)
    ensures forall k :: 0 <= k < |groups'| ==> groups'[k] != ""
    ensures s' == Join(groups', sep)
  {
    if present {
      var part := PartStd2s(prefix, stds, std);
      s' := AppendPart(s, groups, part, sep);
      groups' := groups + [part];
    } else {
      s', groups' := s, groups;
      assert groups + [] == groups;
    }
  }

  /** std2s: the PAL, NTSC, SECAM and ATSC groups present in std, with sep only between them. */
  method Std2s(std: nat, sep: string) returns (s: string)
    requires std < U64Mod
    ensures s == Join(StdGroups(std), sep)
  {
    ghost var g;
    s, g := AppendGroup("", [], Meets(std, 0xfff), "PAL", StdPal(), std, sep);
    assert g == Group(Meets(std, 0xfff), "PAL", StdPal(), std);
    s, g := AppendGroup(s, g, Meets(std, 0xf000), "NTSC", StdNtsc(), std / 0x1000, sep);
    s, g := AppendGroup(s, g, Meets(std, 0xff0000), "SECAM", StdSecam(), std / 0x1_0000, sep);
    s, g := AppendGroup(s, g, Meets(std, 0xf000000), "ATSC", StdAtsc(), std / 0x100_0000, sep);
  }

  // ---------------------------------------------------------------------
  // Selection targets
  // ---------------------------------------------------------------------

  /** selection_targets_def without its terminator. */
  function SelectionTargets(): seq<FlagDef>
  {
    [FlagDef(0x0, "crop"), FlagDef(0x1, "crop_default"), FlagDef(0x2, "crop_bounds"),
     FlagDef(0x100, "compose"), FlagDef(0x101, "compose_default"), FlagDef(0x102, "compose_bounds"),
     FlagDef(0x103, "compose_padded"), FlagDef(0x3, "native_size")]
  }

  /** valid_seltarget_at_idx: i indexes a real entry (the array size less the terminator). */
  function ValidSeltargetAtIdx(i: u32): (b: bool)
    ensures b <==> i < 8
  {
    i < |SelectionTargets()|
  }

  /** seltarget_at_idx: the entry's target, 0 out of range. */
  function SeltargetAtIdx(i: u32): (t: u32)
    ensures i < 8 ==> t == SelectionTargets()[i].flag
    ensures i >= 8 ==> t == 0
  {
    if ValidSeltargetAtIdx(i) then SelectionTargets()[i].flag else 0
  }

  /** The name of the first entry whose flag equals target. */
  function FirstNamed(def: seq<FlagDef>, target: u32): Option<string>
  {
    if def == [] then None
    else if def[0].flag == target then Some(def[0].name)
    else FirstNamed(def[1..], target)
  }

  function Seltarget2sSpec(target: u32): string
  {
    match FirstNamed(SelectionTargets(), target)
    case Some(name) => name
    case None => UnknownName(target)
  }

  /** seltarget2s: the first exact match's name, else "Unknown (0x...)". */
  method Seltarget2s(target: u32) returns (s: string)
    ensures s == Seltarget2sSpec(target)
  {
    var def := SelectionTargets();
    var i := 0;
    while i < |def|
      invariant 0 <= i <= |def|
      invariant FirstNamed(def, target) == FirstNamed(def[i..], target)
    {
      assert def[i..][1..] == def[i + 1..];
      if def[i].flag == target {
        return def[i].name;
      }
      i := i + 1;
    }
    return UnknownName(target);
  }

  /** The first entry with a given flag is found when flags are distinct. */
  lemma {:induction false} FirstNamedAt(def: seq<FlagDef>, k: nat)
    requires k < |def|
    requires forall i, j :: 0 <= i < j < |def| ==> def[i].flag != def[j].flag
    ensures FirstNamed(def, def[k].flag) == Some(def[k].name)
  {
    if k > 0 {
      FirstNamedAt(def[1..], k - 1);
    }
  }

  /** A value no entry carries is not found. */
  lemma {:induction false} FirstNamedNone(def: seq<FlagDef>, target: u32)
    requires forall i :: 0 <= i < |def| ==> def[i].flag != target
    ensures FirstNamed(def, target) == None
  {
    if def != [] {
      FirstNamedNone(def[1..], target);
    }
  }

  /** A valid index's target is named by that entry (the targets are distinct). */
  lemma SeltargetRoundTrip(i: u32)
    requires ValidSeltargetAtIdx(i)
    ensures Seltarget2sSpec(SeltargetAtIdx(i)) == SelectionTargets()[i].name
  {
    FirstNamedAt(SelectionTargets(), i);
  }

  /** Index 0 (crop, target 0) and any out-of-range index give the same value. */
  lemma SeltargetAtIdxZero(i: u32)
    requires i >= 8
    ensures SeltargetAtIdx(0) == SeltargetAtIdx(i) == 0
  {
  }

  /** A value that is no target is reported as unknown. */
  lemma Seltarget2sUnknown(target: u32)
    requires forall k :: 0 <= k < 8 ==> SelectionTargets()[k].flag != target
    ensures Seltarget2sSpec(target) == UnknownName(target)
  {
    FirstNamedNone(SelectionTargets(), target);
  }

  // ---------------------------------------------------------------------
  // Fixed-phrase flag texts (dvflags2s, fbufcap2s, fbufflags2s)
  // ---------------------------------------------------------------------

  /** The names of the entries whose flag overlaps val, in table order. */
  function Selected(val: nat, def: seq<FlagDef>): seq<string>
  {
    if def == [] then [] else (if Meets(val, def[0].flag) then [def[0].name] else []) + Selected(val, def[1..])
  }

  /** Each phrase followed by ", ". */
  function Terminated(ps: seq<string>): string
  {
    if ps == [] then "" else Terminated(ps[..|ps| - 1]) + ps[|ps| - 1] + ", "
  }

  lemma {:induction false} TerminatedIsJoin(ps: seq<string>)
    ensures Terminated(ps) == if ps == [] then "" else Join(ps, ", ") + ", "
  {
    if |ps| > 1 {
      TerminatedIsJoin(ps[..|ps| - 1]);
    }
  }

  function DvFlagDefs(vsync: u32): seq<FlagDef>
  {
    [FlagDef(0x1, if vsync == 8 then "reduced blanking v2" else "reduced blanking"),
     FlagDef(0x2, "framerate can be reduced by 1/1.001"),
     FlagDef(0x4, "framerate is reduced by 1/1.001"),
     FlagDef(0x8, "half-line"),
     FlagDef(0x10, "CE-video"),
     FlagDef(0x20, "first field has extra line"),
     FlagDef(0x40, "has picture aspect"),
     FlagDef(0x80, "has CTA-861 VIC"),
     FlagDef(0x100, "has HDMI VIC")]
  }

  /** dvflags2s: every set phrase followed by ", ", then the last two characters erased. */
  function DvFlags2s(vsync: u32, val: u32): string
  {
    var raw := Terminated(Selected(val, DvFlagDefs(vsync)));
    if |raw| > 0 then raw[..|raw| - 2] else raw
  }

  /** dvflags2s joins the set phrases with ", ", so it never ends with ", ". */
  lemma DvFlags2sJoin(vsync: u32, val: u32)
    ensures DvFlags2s(vsync, val) == Join(Selected(val, DvFlagDefs(vsync)), ", ")
  {
    var ps := Selected(val, DvFlagDefs(vsync));
    TerminatedIsJoin(ps);
    if ps != [] {
      var j := Join(ps, ", ");
      assert (j + ", ")[..|j + ", "| - 2] == j;
    }
  }

  /** Every name is non-empty and does not end with a space. */
  predicate Unpadded(names: seq<string>)
  {
    forall k :: 0 <= k < |names| ==> names[k] != "" && names[k][|names[k]| - 1] != ' '
  }

  lemma {:induction false} SelectedUnpadded(val: nat, def: seq<FlagDef>)
    requires forall k :: 0 <= k < |def| ==> def[k].name != "" && def[k].name[|def[k].name| - 1] != ' '
    ensures Unpadded(Selected(val, def))
  {
    if def != [] {
      SelectedUnpadded(val, def[1..]);
    }
  }

  /** A join ends with the last character of its last part. */
  lemma JoinLastChar(xs: seq<string>, sep: string)
    requires xs != [] && xs[|xs| - 1] != ""
    ensures var j, x := Join(xs, sep), xs[|xs| - 1]; j != "" && j[|j| - 1] == x[|x| - 1]
  {
  }

  /** dvflags2s never ends with ", ": its last character is that of a phrase. */
  lemma DvFlags2sNoTrailingSeparator(vsync: u32, val: u32)
    ensures var s := DvFlags2s(vsync, val); s != "" ==> s[|s| - 1] != ' '
  {
    DvFlags2sJoin(vsync, val);
    var ps := Selected(val, DvFlagDefs(vsync));
    SelectedUnpadded(val, DvFlagDefs(vsync));
    if ps != [] {
      JoinLastChar(ps, ", ");
    }
  }

  function FbufCapDefs(): seq<FlagDef>
  {
    [FlagDef(0x1, "Extern Overlay"), FlagDef(0x2, "Chromakey"), FlagDef(0x80, "Source Chromakey"),
     FlagDef(0x20, "Global Alpha"), FlagDef(0x10, "Local Alpha"), FlagDef(0x40, "Local Inverted Alpha"),
     FlagDef(0x4, "Clipping List"), FlagDef(0x8, "Clipping Bitmap")]
  }

  function FbufFlagDefs(): seq<FlagDef>
  {
    [FlagDef(0x1, "Primary Graphics Surface"), FlagDef(0x2, "Overlay Matches Capture/Output Size"),
     FlagDef(0x4, "Chromakey"), FlagDef(0x40, "Source Chromakey"), FlagDef(0x10, "Global Alpha"),
     FlagDef(0x8, "Local Alpha"), FlagDef(0x20, "Local Inverted Alpha")]
  }

  /** Each name on its own tab-indented line. */
  function Lines(names: seq<string>): string
  {
    if names == [] then "" else Lines(names[..|names| - 1]) + "\t\t\t" + names[|names| - 1] + "\n"
  }

  /** The lines of the set entries, or one empty indented line when none is set. */
  function IndentedFlags(val: nat, def: seq<FlagDef>): string
  {
    var s := Lines(Selected(val, def));
    if s == "" then "\t\t\t\n" else s
  }

  function FbufCap2s(cap: u32): string { IndentedFlags(cap, FbufCapDefs()) }

  function FbufFlags2s(fl: u32): string { IndentedFlags(fl, FbufFlagDefs()) }

  /** fbufcap2s and fbufflags2s never return "", and give the placeholder line when no flag is set. */
  lemma IndentedFlagsNonEmpty(val: nat, def: seq<FlagDef>)
    ensures IndentedFlags(val, def) != ""
    ensures Selected(val, def) == [] ==> IndentedFlags(val, def) == "\t\t\t\n"
    ensures Selected(val, def) != [] ==> IndentedFlags(val, def) == Lines(Selected(val, def))
  {
    var ns := Selected(val, def);
    if ns != [] {
      assert |Lines(ns)| >= 4;
    }
  }

  // ---------------------------------------------------------------------
  // Buffer flags
  // ---------------------------------------------------------------------

  const TimestampMask: u32 := 0xe000
  const TstampSrcMask: u32 := 0x7_0000

  function BufferFlagDefs(): seq<FlagDef>
  {
    [FlagDef(0x1, "mapped"), FlagDef(0x2, "queued"), FlagDef(0x4, "done"), FlagDef(0x8, "keyframe"),
     FlagDef(0x10, "P-frame"), FlagDef(0x20, "B-frame"), FlagDef(0x40, "error"), FlagDef(0x100, "timecode"),
     FlagDef(0x400, "prepared"), FlagDef(0x800, "no-cache-invalidate"), FlagDef(0x1000, "no-cache-clean"),
     FlagDef(0x10_0000, "last")]
  }

  function TimestampName(ts: nat): string
  {
    if ts == 0x0 then "ts-unknown"
    else if ts == 0x2000 then "ts-monotonic"
    else if ts == 0x4000 then "ts-copy"
    else "ts-invalid"
  }

  function TstampSrcName(src: nat): string
  {
    if src == 0x0 then ", ts-src-eof"
    else if src == 0x1_0000 then ", ts-src-soe"
    else ", ts-src-invalid"
  }

  predicate EndsWith(s: string, suffix: string)
  {
    |suffix| <= |s| && s[|s| - |suffix|..] == suffix
  }

  /**
   * bufferflags2s: the named flags outside the two timestamp fields, then the
   * timestamp type and the timestamp source; it always ends with a ts-src part.
   */
  method BufferFlags2s(flags: u32) returns (s: string)
    ensures var named := Flags2sSpec(AndNot(flags, TimestampMask + TstampSrcMask), BufferFlagDefs());
            s == (if named == "" then "" else named + ", ")
                 + TimestampName(And(flags, TimestampMask)) + TstampSrcName(And(flags, TstampSrcMask))
    ensures EndsWith(s, ", ts-src-eof") || EndsWith(s, ", ts-src-soe") || EndsWith(s, ", ts-src-invalid")
  {
    s := Flags2s(AndNot(flags, TimestampMask + TstampSrcMask), BufferFlagDefs());
    if |s| > 0 {
      s := s + ", ";
    }
    s := s + TimestampName(And(flags, TimestampMask));
    s := s + TstampSrcName(And(flags, TstampSrcMask));
  }

  // ---------------------------------------------------------------------
  // Input status and capabilities
  // ---------------------------------------------------------------------

  function InStatusDefs(): seq<FlagDef>
  {
    [FlagDef(0x1, "no power"), FlagDef(0x2, "no signal"), FlagDef(0x4, "no color"),
     FlagDef(0x10, "hflip"), FlagDef(0x20, "vflip"), FlagDef(0x100, "no hsync lock"),
     FlagDef(0x400, "no vsync lock"), FlagDef(0x800, "no standard format lock"),
     FlagDef(0x200, "color kill"), FlagDef(0x1_0000, "no sync lock"), FlagDef(0x2_0000, "no equalizer lock"),
     FlagDef(0x4_0000, "no carrier"), FlagDef(0x100_0000, "macrovision"),
     FlagDef(0x200_0000, "no conditional access"), FlagDef(0x400_0000, "VTR time constant")]
  }

  /** input_cap_def and output_cap_def (same values and names). */
  function IoCapDefs(): seq<FlagDef>
  {
    [FlagDef(0x2, "DV timings"), FlagDef(0x4, "SDTV standards"), FlagDef(0x8, "Native Size")]
  }

  /** in_status2s: "ok" for 0, the flag list otherwise (never empty then). */
  method InStatus2s(status: u32) returns (s: string)
    ensures status == 0 ==> s == "ok"
    ensures status != 0 ==> s == Flags2sSpec(status, InStatusDefs()) && s != ""
  {
    if status == 0 {
      return "ok";
    }
    s := Flags2s(status, InStatusDefs());
    Flags2sEmpty(status, InStatusDefs());
  }

  /** input_cap2s: "not defined" for 0, the flag list otherwise. */
  method InputCap2s(capabilities: u32) returns (s: string)
    ensures capabilities == 0 ==> s == "not defined"
    ensures capabilities != 0 ==> s == Flags2sSpec(capabilities, IoCapDefs()) && s != ""
  {
    if capabilities == 0 {
      return "not defined";
    }
    s := Flags2s(capabilities, IoCapDefs());
    Flags2sEmpty(capabilities, IoCapDefs());
  }

  /** output_cap2s: the same rule over the output table. */
  method OutputCap2s(capabilities: u32) returns (s: string)
    ensures capabilities == 0 ==> s == "not defined"
    ensures capabilities != 0 ==> s == Flags2sSpec(capabilities, IoCapDefs()) && s != ""
  {
    if capabilities == 0 {
      return "not defined";
    }
    s := Flags2s(capabilities, IoCapDefs());
    Flags2sEmpty(capabilities, IoCapDefs());
  }
}
