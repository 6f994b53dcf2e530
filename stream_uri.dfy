/**
 * Stream resource URIs: the protocol enumeration with its name codec, and
 * StreamUri::Parse, which splits a resource string into protocol, location,
 * port, extension and mount point.  The three filesystem helpers it calls
 * (FileExists, GetAbsolutePath, GetFileExtension) are a parameter.
 */
module StreamUri {
  import opened Common

  datatype StreamProtocolType =
    | ProtocolDefault | ProtocolV4l2 | ProtocolCsi | ProtocolRtp | ProtocolRtsp
    | ProtocolFile | ProtocolDisplay | ProtocolAppSrc | ProtocolAppSink

  /** The protocols in ordinal order (PROTOCOL_MAX_NUM excluded). */
  function Protocols(): seq<StreamProtocolType>
  {
    [ProtocolDefault, ProtocolV4l2, ProtocolCsi, ProtocolRtp, ProtocolRtsp,
     ProtocolFile, ProtocolDisplay, ProtocolAppSrc, ProtocolAppSink]
  }

  /** StreamProtocolTypeToStr: APPSRC and APPSINK have no case and fall to "default". */
  function ProtocolToStr(t: StreamProtocolType): string
  {
    match t
    case ProtocolDefault => "default"
    case ProtocolV4l2 => "v4l2"
    case ProtocolCsi => "csi"
    case ProtocolRtp => "rtp"
    case ProtocolRtsp => "rtsp"
    case ProtocolFile => "file"
    case ProtocolDisplay => "display"
    case _ => "default"
  }

  /** StreamProtocolTypeFromStr, as a function of the (possibly null) C string. */
  function ProtocolOf(str: Option<string>): StreamProtocolType
  {
    FromStr(str, Protocols(), ProtocolToStr, ProtocolDefault)
  }

  /** StreamProtocolTypeFromStr: the search loop over ordinals. */
  method ProtocolFromStr(str: Option<string>) returns (t: StreamProtocolType)
    ensures t == ProtocolOf(str)
  {
    if str.None? {
      return ProtocolDefault;
    }
    var n := SearchByName(str.value, Protocols(), ProtocolToStr);
    if n.Some? {
      return Protocols()[n.value];
    }
    return ProtocolDefault;
  }

  /** The names of DEFAULT .. DISPLAY are pairwise different, ignoring case. */
  lemma ProtocolNamesDistinct()
    ensures forall i, j :: 0 <= i < j < 7 ==> Distinguished(ProtocolToStr(Protocols()[i]), ProtocolToStr(Protocols()[j]))
  {
    var names := ["default", "v4l2", "csi", "rtp", "rtsp", "file", "display"];
    assert forall i :: 0 <= i < 7 ==> ProtocolToStr(Protocols()[i]) == names[i];
    assert forall i, j :: 0 <= i < j < 7 ==> Distinguished(names[i], names[j]);
  }

  /** Every protocol from DEFAULT to DISPLAY survives ToStr then FromStr. */
  lemma ProtocolRoundTrip(t: StreamProtocolType)
    requires t != ProtocolAppSrc && t != ProtocolAppSink
    ensures ProtocolOf(Some(ProtocolToStr(t))) == t
  {
    var k := match t
      case ProtocolDefault => 0 case ProtocolV4l2 => 1 case ProtocolCsi => 2 case ProtocolRtp => 3
      case ProtocolRtsp => 4 case ProtocolFile => 5 case _ => 6;
    assert Protocols()[k] == t;
    ProtocolRoundTripAt(k);
  }

  lemma ProtocolRoundTripAt(k: nat)
    requires k < 7
    ensures ProtocolOf(Some(ProtocolToStr(Protocols()[k]))) == Protocols()[k]
  {
    ProtocolNamesDistinct();
    FromStrOfName(Protocols(), ProtocolToStr, ProtocolDefault, k);
  }

  /** APPSRC and APPSINK print as "default", and their own names resolve to DEFAULT too. */
  lemma ProtocolAppNamesCollapse()
    ensures ProtocolOf(Some(ProtocolToStr(ProtocolAppSrc))) == ProtocolDefault
    ensures ProtocolOf(Some(ProtocolToStr(ProtocolAppSink))) == ProtocolDefault
    ensures ProtocolOf(Some("appsrc")) == ProtocolDefault
    ensures ProtocolOf(Some("appsink")) == ProtocolDefault
  {
    EqualsIgnoreCaseReflexive("default");
    forall j | 0 <= j < |Protocols()|
      ensures !EqualsIgnoreCase("appsink", ProtocolToStr(Protocols()[j]))
    {
      DistinguishedApart("appsink", ProtocolToStr(Protocols()[j]));
    }
  }

  // ---------------------------------------------------------------------
  // The URI value and the filesystem it consults
  // ---------------------------------------------------------------------

  /** The fields of a StreamUri. */
  datatype Uri = Uri(text: string, protocol: StreamProtocolType, location: string,
                     extension: string, port: int, mountpoint: string)

  /** FileExists, GetAbsolutePath and GetFileExtension. */
  datatype FileSystem = FileSystem(fileExists: string -> bool, absolutePath: string -> string,
                                   fileExtension: string -> string)

  /**
   * The protocol guessed for an input without "://", in the order of the
   * tests; None when nothing fits.
   */
  function BareProtocol(s: string, fs: FileSystem): (r: Option<string>)
    ensures r == Some("csi") ==> ScanInt(s).Some?
  {
    if Find(s, "/dev/video", 0) == Some(0) then Some("v4l2")
    else if Find(s, ".", 0).Some? || Find(s, "/", 0).Some? || fs.fileExists(s) then Some("file")
    else if ScanInt(s).Some? then Some("csi")
    else if s == "display" then Some("display")
    else if s == "appsrc" then Some("appsrc")
    else if s == "appsink" then Some("appsink")
    else None
  }

  /** "@" stands for the local host. */
  function Localhost(u: Uri): Uri
  {
    if u.location == "@" then u.(location := "127.0.0.1") else u
  }

  /**
   * Host and port text of a network location: split at the first ':' (for
   * rtsp with an '@' and another ':' after it, at that next ':'); with no ':'
   * and no '.', the whole location is the port on 127.0.0.1.
   */
  function SplitAddress(loc: string, proto: string): (r: (string, string))
  {
    match Find(loc, ":", 0)
    case Some(pos) =>
      var next := Find(loc, ":", pos + 1);
      var at := if proto == "rtsp" && Find(loc, "@", pos + 1).Some? && next.Some? then next.value else pos;
      (loc[..at], loc[at + 1..])
    case None =>
      if Count(loc, '.') == 0 then ("127.0.0.1", loc) else (loc, "")
  }

  /** The port text of a network location: an optional "/mount" suffix, then the number. */
  function PortPart(v: Uri, portText: string, proto: string): (bool, Uri)
  {
    if portText == "" then (true, Localhost(v))
    else
      var slash := Find(portText, "/", 0);
      var w := if slash.Some? then v.(mountpoint := portText[slash.value..]) else v;
      var digits := if slash.Some? then portText[..slash.value] else portText;
      match ScanInt(digits)
      case Some(n) => (true, Localhost(w.(port := n)))
      case None => if proto == "rtsp" then (true, Localhost(w.(port := 554))) else (false, w)
  }

  /** The ip/port branch of Parse; the bool is Parse's result. */
  function Address(u: Uri, proto: string): (bool, Uri)
  {
    var (host, portText) := SplitAddress(u.location, proto);
    PortPart(u.(location := host), portText, proto)
  }

  /** The per-protocol part of Parse, before the protocol field is set. */
  function Details(u: Uri, proto: string, fs: FileSystem): (bool, Uri)
  {
    if proto == "v4l2" then
      match ScanAfter(u.location, "/dev/video")
      case Some(n) => (true, u.(port := n))
      case None => (false, u)
    else if proto == "csi" then
      match ScanInt(u.location)
      case Some(n) => (true, u.(port := n))
      case None => (false, u)
    else if proto == "display" then
      (true, u.(port := match ScanInt(u.location) case Some(n) => n case None => 0))
    else if proto == "file" then
      (true, u.(extension := fs.fileExtension(u.location)))
    else Address(u, proto)
  }

  /** Details, then, on success, the protocol named by the lower-cased protocol text. */
  function Finish(u: Uri, proto: string, fs: FileSystem): (bool, Uri)
  {
    var r := Details(u, proto, fs);
    if r.0 then (true, r.1.(protocol := ProtocolOf(Some(proto)))) else r
  }

  /**
   * StreamUri::Parse on a StreamUri whose fields are u: the result and the
   * new fields.  Fields written before a failure keep their new values, and
   * the mount point is only ever overwritten, never cleared.
   */
  function ParseUri(u: Uri, uri: Option<string>, fs: FileSystem): (r: (bool, Uri))
    ensures uri.None? ==> r == (false, u)
  {
    if uri.None? then (false, u)
    else
      var v := u.(text := uri.value, extension := "", location := "", port := -1);
      match Located(v, fs)
      case None => (false, v)
      case Some((w, proto)) => Finish(w, ToLower(proto), fs)
  }

  /**
   * The protocol look-up of Parse on fields v whose text is the input: the
   * new fields and the protocol text, or None when the input has no "://"
   * and fits no guess.
   */
  function Located(v: Uri, fs: FileSystem): Option<(Uri, string)>
  {
    var s := v.text;
    match Find(s, "://", 0)
    case Some(p) => Some((v.(location := s[p + 3..]), s[..p]))
    case None =>
      match BareProtocol(s, fs)
      case None => None
      case Some(proto) =>
        Some((v.(port := if proto == "csi" then ScanInt(s).value else v.port, location := s,
                 text := proto + "://" + (if proto == "file" then fs.absolutePath(s) else s)), proto))
  }

  // ---------------------------------------------------------------------
  // The StreamUri object
  // ---------------------------------------------------------------------

  class StreamUri {
    var text: string
    var protocol: StreamProtocolType
    var location: string
    var extension: string
    var port: int
    var mountpoint: string

    function Value(): Uri
      reads this
    {
      Uri(text, protocol, location, extension, port, mountpoint)
    }

    /** StreamUri(): port -1 and empty strings; the protocol is left uninitialised. */
    constructor ()
      ensures text == "" && location == "" && extension == "" && mountpoint == "" && port == -1
    {
      text, location, extension, mountpoint, port := "", "", "", "", -1;
      protocol := ProtocolDefault;
    }

    /** StreamUri::Parse. */
    method Parse(uri: Option<string>, fs: FileSystem) returns (ok: bool)
      modifies this
      ensures (ok, Value()) == ParseUri(old(Value()), uri, fs)
    {
      if uri.None? {
        return false;
      }
      text := uri.value;
      extension := "";
      location := "";
      port := -1;
      var found := LocateProtocol(fs);
      if found.None? {
        return false;
      }
      var protocolString := found.value;
      protocolString := ToLower(protocolString);
      ok := ParseDetails(protocolString, fs);
      if ok {
        protocol := ProtocolFromStr(Some(protocolString));
      }
    }

    /** The "://" split, or the guess and rewrite of an input without one. */
    method LocateProtocol(fs: FileSystem) returns (r: Option<string>)
      modifies this
      ensures r.None? ==> Value() == old(Value()) && Located(old(Value()), fs).None?
      ensures r.Some? ==> Located(old(Value()), fs) == Some((Value(), r.value))
    {
      var pos := Find(text, "://", 0);
      if pos.Some? {
        location := text[pos.value + 3..];
        return Some(text[..pos.value]);
      }
      ghost var v := Value();
      var guess := GuessProtocol(text, fs);
      if guess.None? {
        return None;
      }
      var protocolString := guess.value;
      ghost var w := v.(port := if protocolString == "csi" then ScanInt(v.text).value else v.port, location := v.text,
                        text := protocolString + "://" + (if protocolString == "file" then fs.absolutePath(v.text) else v.text));
      assert Located(v, fs) == Some((w, protocolString));
      if protocolString == "csi" {
        // the sscanf of the csi test has stored the number
        port := ScanInt(text).value;
      }
      location := text;
      text := protocolString + "://";
      if protocolString == "file" {
        text := text + fs.absolutePath(location);
      } else {
        text := text + location;
      }
      assert Value() == w;
      return Some(protocolString);
    }

    /** The chain of tests Parse applies to an input without "://". */
    static method GuessProtocol(s: string, fs: FileSystem) returns (r: Option<string>)
      ensures r == BareProtocol(s, fs)
    {
      if Find(s, "/dev/video", 0) == Some(0) {
        r := Some("v4l2");
      } else if Find(s, ".", 0).Some? || Find(s, "/", 0).Some? || fs.fileExists(s) {
        r := Some("file");
      } else if ScanInt(s).Some? {
        r := Some("csi");
      } else if s == "display" {
        r := Some("display");
      } else if s == "appsrc" {
        r := Some("appsrc");
      } else if s == "appsink" {
        r := Some("appsink");
      } else {
        r := None;
      }
    }

    /** The per-protocol branches of Parse. */
    method ParseDetails(proto: string, fs: FileSystem) returns (ok: bool)
      modifies this
      ensures (ok, Value()) == Details(old(Value()), proto, fs)
    {
      if proto == "v4l2" {
        var n := ScanAfter(location, "/dev/video");
        if n.None? {
          return false;
        }
        port := n.value;
      } else if proto == "csi" {
        var n := ScanInt(location);
        if n.None? {
          return false;
        }
        port := n.value;
      } else if proto == "display" {
        var n := ScanInt(location);
        port := if n.Some? then n.value else 0;
      } else if proto == "file" {
        extension := fs.fileExtension(location);
      } else {
        ok := ParseAddress(proto);
        return;
      }
      return true;
    }

    /** The "host:port/mount" branch of Parse. */
    method ParseAddress(proto: string) returns (ok: bool)
      modifies this
      ensures (ok, Value()) == Address(old(Value()), proto)
    {
      var host, portText := SplitHostPort(location, proto);
      location := host;
      ok := ParsePort(portText, proto);
    }

    /** The search for ':' (and, for rtsp credentials, '@') in a network location. */
    static method SplitHostPort(loc: string, proto: string) returns (host: string, portText: string)
      ensures (host, portText) == SplitAddress(loc, proto)
    {
      host, portText := loc, "";
      var pos := Find(loc, ":", 0);
      if pos.Some? {
        var at := pos.value;
        if proto == "rtsp" {
          var hostPos := Find(loc, "@", at + 1);
          var portPos := Find(loc, ":", at + 1);
          if hostPos.Some? && portPos.Some? {
            at := portPos.value;
          }
        }
        portText := loc[at + 1..];
        host := loc[..at];
      } else if Count(loc, '.') == 0 {
        portText := loc;
        host := "127.0.0.1";
      }
    }

    /** The mount point and port number of a network location. */
    method ParsePort(portText: string, proto: string) returns (ok: bool)
      modifies this
      ensures (ok, Value()) == PortPart(old(Value()), portText, proto)
    {
      if |portText| != 0 {
        var digits := portText;
        var slash := Find(digits, "/", 0);
        if slash.Some? {
          mountpoint := digits[slash.value..];
          digits := digits[..slash.value];
        }
        var n := ScanInt(digits);
        if n.Some? {
          port := n.value;
        } else if proto == "rtsp" {
          port := 554;
        } else {
          return false;
        }
      }
      if location == "@" {
        location := "127.0.0.1";
      }
      return true;
    }
  }

  // ---------------------------------------------------------------------
  // Properties of Parse
  // ---------------------------------------------------------------------

  /** The digits of a number hold none of the separators Parse looks for. */
  lemma DecimalPlain(n: nat)
    ensures forall i :: 0 <= i < |Decimal(n)| ==> Decimal(n)[i] !in ":/.@"
  {
  }

  /** The protocol names Parse compares against are already lower case. */
  lemma LowerNames()
    ensures ToLower("v4l2") == "v4l2" && ToLower("csi") == "csi" && ToLower("display") == "display"
    ensures ToLower("file") == "file" && ToLower("rtsp") == "rtsp"
    ensures ToLower("appsrc") == "appsrc" && ToLower("appsink") == "appsink"
  {
    ToLowerOfLowerCase("v4l2");
    ToLowerOfLowerCase("csi");
    ToLowerOfLowerCase("display");
    ToLowerOfLowerCase("file");
    ToLowerOfLowerCase("rtsp");
    ToLowerOfLowerCase("appsrc");
    ToLowerOfLowerCase("appsink");
  }

  /**
   * With "://" after a prefix free of ':', the text is kept, the location is
   * everything after the separator and the protocol text is the lower-cased
   * prefix.
   */
  lemma ParseScheme(u: Uri, scheme: string, rest: string, fs: FileSystem)
    requires !Contains(scheme, ':')
    ensures ParseUri(u, Some(scheme + "://" + rest), fs) ==
            Finish(u.(text := scheme + "://" + rest, extension := "", location := rest, port := -1), ToLower(scheme), fs)
  {
    var s := scheme + "://" + rest;
    assert s == scheme + ("://" + rest);
    FindAfter(scheme, "://" + rest, "://");
    assert s[|scheme| + 3..] == rest;
    assert s[..|scheme|] == scheme;
  }

  /** The port branch never changes the text. */
  lemma PortPartText(v: Uri, portText: string, proto: string)
    ensures PortPart(v, portText, proto).1.text == v.text
  {
  }

  /** The address branch never changes the text. */
  lemma AddressText(w: Uri, proto: string)
    ensures Address(w, proto).1.text == w.text
  {
    var (host, portText) := SplitAddress(w.location, proto);
    PortPartText(w.(location := host), portText, proto);
  }

  /** Finish never changes the text, and on success sets the protocol its text names. */
  lemma FinishText(w: Uri, proto: string, fs: FileSystem)
    ensures Finish(w, proto, fs).1.text == w.text
    ensures Finish(w, proto, fs).0 ==> Finish(w, proto, fs).1.protocol == ProtocolOf(Some(proto))
  {
    AddressText(w, proto);
    assert Details(w, proto, fs).1.text == w.text;
  }

  /** On success, the protocol is the one named by the lower-cased prefix before "://". */
  lemma ParseSchemeProtocol(u: Uri, scheme: string, rest: string, fs: FileSystem)
    requires !Contains(scheme, ':')
    ensures var r := ParseUri(u, Some(scheme + "://" + rest), fs);
            r.1.text == scheme + "://" + rest && (r.0 ==> r.1.protocol == ProtocolOf(Some(ToLower(scheme))))
  {
    ParseScheme(u, scheme, rest, fs);
    FinishText(u.(text := scheme + "://" + rest, extension := "", location := rest, port := -1), ToLower(scheme), fs);
  }

  /** An input without "://" that fits a guess goes through Finish rewritten. */
  lemma ParseBare(u: Uri, s: string, proto: string, fs: FileSystem)
    requires Find(s, "://", 0).None? && BareProtocol(s, fs) == Some(proto)
    ensures ParseUri(u, Some(s), fs) ==
            Finish(u.(text := proto + "://" + (if proto == "file" then fs.absolutePath(s) else s), extension := "",
                      location := s, port := if proto == "csi" then ScanInt(s).value else -1), ToLower(proto), fs)
  {
  }

  /** Finish for v4l2: the number after "/dev/video" is the port. */
  lemma FinishV4l2(w: Uri, fs: FileSystem)
    ensures Finish(w, "v4l2", fs) ==
            match ScanAfter(w.location, "/dev/video")
            case Some(n) => (true, w.(port := n, protocol := ProtocolV4l2))
            case None => (false, w)
  {
    ProtocolRoundTrip(ProtocolV4l2);
  }

  /** Finish for csi: the location is the sensor number. */
  lemma FinishCsi(w: Uri, fs: FileSystem)
    ensures Finish(w, "csi", fs) ==
            match ScanInt(w.location)
            case Some(n) => (true, w.(port := n, protocol := ProtocolCsi))
            case None => (false, w)
  {
    ProtocolRoundTrip(ProtocolCsi);
  }

  /** Finish for display: the location's number, or display 0. */
  lemma FinishDisplay(w: Uri, fs: FileSystem)
    ensures Finish(w, "display", fs) ==
            (true, w.(port := match ScanInt(w.location) case Some(n) => n case None => 0, protocol := ProtocolDisplay))
  {
    ProtocolRoundTrip(ProtocolDisplay);
  }

  /** Finish for file: the extension of the location; always succeeds. */
  lemma FinishFile(w: Uri, fs: FileSystem)
    ensures Finish(w, "file", fs) == (true, w.(extension := fs.fileExtension(w.location), protocol := ProtocolFile))
  {
    ProtocolRoundTrip(ProtocolFile);
  }

  /** Finish for any other protocol text: the address branch. */
  lemma FinishNetwork(w: Uri, proto: string, fs: FileSystem)
    requires proto != "v4l2" && proto != "csi" && proto != "display" && proto != "file"
    ensures var a := Address(w, proto);
            Finish(w, proto, fs) == if a.0 then (true, a.1.(protocol := ProtocolOf(Some(proto)))) else a
  {
  }

  /** "rtsp" names ProtocolRtsp. */
  lemma RtspOf()
    ensures ProtocolOf(Some("rtsp")) == ProtocolRtsp
  {
    ProtocolRoundTrip(ProtocolRtsp);
  }

  /** "rtsp" is none of the protocols handled before the address branch. */
  lemma RtspNotLocal()
    ensures "rtsp" != "v4l2" && "rtsp" != "csi" && "rtsp" != "display" && "rtsp" != "file"
  {
  }

  /** Finish for rtsp: the address branch, then protocol rtsp on success. */
  lemma FinishRtsp(w: Uri, fs: FileSystem)
    ensures var a := Address(w, "rtsp");
            Finish(w, "rtsp", fs) == if a.0 then (true, a.1.(protocol := ProtocolRtsp)) else a
  {
    RtspNotLocal();
    FinishNetwork(w, "rtsp", fs);
    RtspOf();
  }

  /**
   * An input without "://" that fits a guess is rewritten as the guessed
   * protocol, "://" and the location (made absolute for a file).
   */
  lemma ParseBareRewrite(u: Uri, s: string, fs: FileSystem)
    requires Find(s, "://", 0).None? && BareProtocol(s, fs).Some?
    ensures var proto := BareProtocol(s, fs).value;
            ParseUri(u, Some(s), fs).1.text == proto + "://" + (if proto == "file" then fs.absolutePath(s) else s)
  {
    var proto := BareProtocol(s, fs).value;
    ParseBare(u, s, proto, fs);
    var w := u.(text := proto + "://" + (if proto == "file" then fs.absolutePath(s) else s), extension := "",
                location := s, port := if proto == "csi" then ScanInt(s).value else -1);
    FinishText(w, ToLower(proto), fs);
  }

  /** A bare file path parses, keeping the path as location and its extension. */
  lemma ParseBareFile(u: Uri, s: string, fs: FileSystem)
    requires Find(s, "://", 0).None? && BareProtocol(s, fs) == Some("file")
    ensures ParseUri(u, Some(s), fs) ==
            (true, u.(text := "file" + "://" + fs.absolutePath(s), protocol := ProtocolFile, location := s,
                      extension := fs.fileExtension(s), port := -1))
  {
    ParseBare(u, s, "file", fs);
    LowerNames();
    FinishFile(u.(text := "file" + "://" + fs.absolutePath(s), extension := "", location := s, port := -1), fs);
  }

  /** "/dev/video" followed by text without ':' has no ':'. */
  lemma DevVideoNoColon(t: string)
    requires forall i :: 0 <= i < |t| ==> t[i] != ':'
    ensures forall j :: 0 <= j < |"/dev/video" + t| ==> ("/dev/video" + t)[j] != ':'
  {
    var s := "/dev/video" + t;
    forall j | 0 <= j < |s| ensures s[j] != ':' {
      if j < 10 { assert s[j] == "/dev/video"[j]; } else { assert s[j] == t[j - 10]; }
    }
  }


  /** Anything starting with "/dev/video" has it at 0. */
  lemma DevVideoStart(t: string)
    ensures Find("/dev/video" + t, "/dev/video", 0) == Some(0)
  {
    assert ("/dev/video" + t)[0..10] == "/dev/video";
  }


  /** "/dev/video" followed by text without ':' has no "://" and starts with "/dev/video". */
  lemma V4l2Prefix(t: string)
    requires forall i :: 0 <= i < |t| ==> t[i] != ':'
    ensures Find("/dev/video" + t, "://", 0).None?
    ensures Find("/dev/video" + t, "/dev/video", 0) == Some(0)
  {
    DevVideoNoColon(t);
    FindCharNone("/dev/video" + t, "://", 0);
    DevVideoStart(t);
  }

  /** The guess for "/dev/video" followed by text without ':'. */
  lemma GuessV4l2(t: string, fs: FileSystem)
    requires forall i :: 0 <= i < |t| ==> t[i] != ':'
    ensures Find("/dev/video" + t, "://", 0).None?
    ensures BareProtocol("/dev/video" + t, fs) == Some("v4l2")
  {
    V4l2Prefix(t);
  }

  /** The guess and the sscanf for "/dev/video<n>". */
  lemma V4l2DeviceNumber(n: nat, fs: FileSystem)
    ensures Find("/dev/video" + Decimal(n), "://", 0).None?
    ensures BareProtocol("/dev/video" + Decimal(n), fs) == Some("v4l2")
    ensures ScanAfter("/dev/video" + Decimal(n), "/dev/video") == Some(n)
  {
    DecimalPlain(n);
    GuessV4l2(Decimal(n), fs);
    assert ("/dev/video" + Decimal(n))[10..] == Decimal(n);
    ScanIntDecimal(n);
  }

  /** A bare "/dev/video<n>" is the v4l2 device n. */
  lemma ParseV4l2Device(u: Uri, n: nat, fs: FileSystem)
    ensures var s := "/dev/video" + Decimal(n);
            ParseUri(u, Some(s), fs) ==
            (true, u.(text := "v4l2" + "://" + s, protocol := ProtocolV4l2, location := s, extension := "", port := n))
  {
    var s := "/dev/video" + Decimal(n);
    V4l2DeviceNumber(n, fs);
    ParseBare(u, s, "v4l2", fs);
    LowerNames();
    FinishV4l2(u.(text := "v4l2" + "://" + s, extension := "", location := s, port := -1), fs);
  }

  /** The guess and the failing sscanf for "/dev/video" and a non-number. */
  lemma V4l2BadNumber(t: string, fs: FileSystem)
    requires forall i :: 0 <= i < |t| ==> t[i] != ':'
    requires ScanInt(t).None?
    ensures Find("/dev/video" + t, "://", 0).None?
    ensures BareProtocol("/dev/video" + t, fs) == Some("v4l2")
    ensures ScanAfter("/dev/video" + t, "/dev/video").None?
  {
    GuessV4l2(t, fs);
    assert ("/dev/video" + t)[10..] == t;
  }

  /** A bare "/dev/video" followed by something that is not a number fails. */
  lemma ParseV4l2BadDevice(u: Uri, t: string, fs: FileSystem)
    requires forall i :: 0 <= i < |t| ==> t[i] != ':'
    requires ScanInt(t).None?
    ensures !ParseUri(u, Some("/dev/video" + t), fs).0
  {
    var s := "/dev/video" + t;
    V4l2BadNumber(t, fs);
    ParseBare(u, s, "v4l2", fs);
    LowerNames();
    FinishV4l2(u.(text := "v4l2" + "://" + s, extension := "", location := s, port := -1), fs);
  }

  /** A number's digits hold no "://", '/' or '.'. */
  lemma DecimalNoSeparators(n: nat)
    ensures Find(Decimal(n), "://", 0).None? && Find(Decimal(n), "/", 0).None?
    ensures Find(Decimal(n), ".", 0).None? && Find(Decimal(n), "/dev/video", 0).None?
  {
    var s := Decimal(n);
    DecimalPlain(n);
    FindCharNone(s, "://", 0);
    FindCharNone(s, "/", 0);
    FindCharNone(s, ".", 0);
    FindCharNone(s, "/dev/video", 0);
  }

  /** A bare number is guessed as csi unless it names a file. */
  lemma GuessCsi(n: nat, fs: FileSystem)
    requires !fs.fileExists(Decimal(n))
    ensures Find(Decimal(n), "://", 0).None?
    ensures BareProtocol(Decimal(n), fs) == Some("csi")
    ensures ScanInt(Decimal(n)) == Some(n)
  {
    DecimalNoSeparators(n);
    ScanIntDecimal(n);
  }

  /** A bare number that names no file is the csi camera with that number. */
  lemma ParseBareCsi(u: Uri, n: nat, fs: FileSystem)
    requires !fs.fileExists(Decimal(n))
    ensures var s := Decimal(n);
            ParseUri(u, Some(s), fs) ==
            (true, u.(text := "csi" + "://" + s, protocol := ProtocolCsi, location := s, extension := "", port := n))
  {
    var s := Decimal(n);
    GuessCsi(n, fs);
    ParseBare(u, s, "csi", fs);
    LowerNames();
    FinishCsi(u.(text := "csi" + "://" + s, extension := "", location := s, port := n), fs);
  }

  /** The pattern tests a short word of lower-case letters fails. */
  lemma GuessWord(s: string)
    requires |s| < 10 && forall i :: 0 <= i < |s| ==> 'a' <= s[i] <= 'z'
    ensures Find(s, "://", 0).None? && Find(s, "/dev/video", 0).None?
    ensures Find(s, ".", 0).None? && Find(s, "/", 0).None?
  {
    FindCharNone(s, "://", 0);
    FindCharNone(s, ".", 0);
    FindCharNone(s, "/", 0);
  }

  /** A word of letters is not a number. */
  lemma WordNotNumber(s: string)
    requires forall i :: 0 <= i < |s| ==> 'a' <= s[i] <= 'z'
    ensures ScanInt(s).None?
  {
    assert s == [] || (!IsSpace(s[0]) && !IsDigit(s[0]) && s[0] != '+' && s[0] != '-');
    assert SpaceRun(s) == 0;
  }

  /** Bare "display" is guessed as display, and is no number. */
  lemma GuessDisplay(fs: FileSystem)
    requires !fs.fileExists("display")
    ensures Find("display", "://", 0).None? && BareProtocol("display", fs) == Some("display")
    ensures ScanInt("display").None?
  {
    GuessWord("display");
    WordNotNumber("display");
  }

  /** Bare "display" is display 0. */
  lemma ParseBareDisplay(u: Uri, fs: FileSystem)
    requires !fs.fileExists("display")
    ensures ParseUri(u, Some("display"), fs) ==
            (true, u.(text := "display" + "://" + "display", protocol := ProtocolDisplay, location := "display", extension := "", port := 0))
  {
    GuessDisplay(fs);
    ParseBare(u, "display", "display", fs);
    LowerNames();
    FinishDisplay(u.(text := "display" + "://" + "display", extension := "", location := "display", port := -1), fs);
  }

  /** "appsrc" and "appsink" are guessed as themselves, and as locations they are a bad port. */
  lemma GuessApp(name: string, fs: FileSystem)
    requires name == "appsrc" || name == "appsink"
    requires !fs.fileExists(name)
    ensures Find(name, "://", 0).None? && BareProtocol(name, fs) == Some(name)
    ensures ToLower(name) == name
    ensures forall w: Uri :: w.location == name ==> !Address(w, name).0
  {
    GuessWord(name);
    WordNotNumber(name);
    LowerNames();
    forall w: Uri | w.location == name
      ensures !Address(w, name).0
    {
      FindCharNone(name, ":", 0);
      assert !Contains(name, '.');
    }
  }

  /**
   * Bare "appsrc" and "appsink" are guessed, but then read as a port on
   * 127.0.0.1 that is not a number, so Parse fails.
   */
  lemma ParseBareAppFails(u: Uri, name: string, fs: FileSystem)
    requires name == "appsrc" || name == "appsink"
    requires !fs.fileExists(name)
    ensures !ParseUri(u, Some(name), fs).0
  {
    GuessApp(name, fs);
    ParseBare(u, name, name, fs);
    var w := u.(text := name + "://" + name, extension := "", location := name, port := -1);
    FinishNetwork(w, name, fs);
  }

  /** A location whose only ':' is at pos splits there, whatever the protocol. */
  lemma SplitPlainAt(loc: string, pos: nat, proto: string)
    requires pos < |loc| && loc[pos] == ':'
    requires forall j :: 0 <= j < |loc| && j != pos ==> loc[j] != ':'
    ensures SplitAddress(loc, proto) == (loc[..pos], loc[pos + 1..])
  {
    FindCharAt(loc, ":", 0, pos);
    FindCharNone(loc, ":", pos + 1);
  }


  /** Where the separator of "host:digits[mount]" lies. */
  lemma HostPortIndex(host: string, n: nat, mount: string)
    requires forall i :: 0 <= i < |host| ==> host[i] != ':'
    requires forall i :: 0 <= i < |mount| ==> mount[i] != ':'
    ensures var loc := host + ":" + Decimal(n) + mount;
            loc[|host|] == ':' && (forall j :: 0 <= j < |loc| && j != |host| ==> loc[j] != ':') &&
            loc[..|host|] == host && loc[|host| + 1..] == Decimal(n) + mount
  {
    var d := Decimal(n);
    var loc := host + ":" + d + mount;
    DecimalPlain(n);
    forall j | 0 <= j < |loc| && j != |host|
      ensures loc[j] != ':'
    {
      if j < |host| {
        assert loc[j] == host[j];
      } else if j < |host| + 1 + |d| {
        assert loc[j] == d[j - |host| - 1];
      } else {
        assert loc[j] == mount[j - |host| - 1 - |d|];
      }
    }
    assert loc[..|host|] == host;
    assert loc[|host| + 1..] == d + mount;
  }


  /** Host and port text of "host:digits[/mount]". */
  lemma SplitHostPortOf(host: string, n: nat, mount: string, proto: string)
    requires forall i :: 0 <= i < |host| ==> host[i] != ':'
    requires forall i :: 0 <= i < |mount| ==> mount[i] != ':'
    ensures SplitAddress(host + ":" + Decimal(n) + mount, proto) == (host, Decimal(n) + mount)
  {
    HostPortIndex(host, n, mount);
    SplitPlainAt(host + ":" + Decimal(n) + mount, |host|, proto);
  }


  /** Port text "digits[/mount]": the number and the mount point. */
  lemma PortPartOf(v: Uri, n: nat, mount: string, proto: string)
    requires mount == [] || mount[0] == '/'
    ensures PortPart(v, Decimal(n) + mount, proto) ==
            (true, Localhost(v.(port := n, mountpoint := if mount == [] then v.mountpoint else mount)))
  {
    var d := Decimal(n);
    DecimalPlain(n);
    if mount == [] {
      assert d + mount == d;
      FindCharNone(d, "/", 0);
    } else {
      FindCharAt(d + mount, "/", 0, |d|);
      assert (d + mount)[..|d|] == d;
      assert (d + mount)[|d|..] == mount;
    }
    ScanIntDecimal(n);
  }

  /**
   * "host:port[/mount]": the location becomes the host ("@" meaning
   * 127.0.0.1), the port the number and the mount point the "/..." suffix.
   */
  lemma AddressHostPort(u: Uri, host: string, n: nat, mount: string, proto: string)
    requires forall i :: 0 <= i < |host| ==> host[i] != ':'
    requires forall i :: 0 <= i < |mount| ==> mount[i] != ':'
    requires mount == [] || mount[0] == '/'
    ensures Address(u.(location := host + ":" + Decimal(n) + mount), proto) ==
            (true, u.(location := if host == "@" then "127.0.0.1" else host, port := n,
                      mountpoint := if mount == [] then u.mountpoint else mount))
  {
    SplitHostPortOf(host, n, mount, proto);
    PortPartOf(u.(location := host), n, mount, proto);
  }

  /** A port that is not a number is 554 for rtsp and a failure for every other protocol. */
  lemma AddressBadPort(u: Uri, host: string, t: string, proto: string)
    requires forall i :: 0 <= i < |host| ==> host[i] != ':'
    requires forall i :: 0 <= i < |t| ==> t[i] != ':' && t[i] != '/'
    requires t != [] && ScanInt(t).None?
    ensures var r := Address(u.(location := host + ":" + t), proto);
            var h := if host == "@" then "127.0.0.1" else host;
            (proto == "rtsp" ==> r == (true, u.(location := h, port := 554))) &&
            (proto != "rtsp" ==> r == (false, u.(location := host)))
  {
    var loc := host + ":" + t;
    FindCharAt(loc, ":", 0, |host|);
    FindCharNone(loc, ":", |host| + 1);
    assert loc[..|host|] == host;
    assert loc[|host| + 1..] == t;
    FindCharNone(t, "/", 0);
  }

  /** A location that is only a number is that port on 127.0.0.1. */
  lemma AddressPortOnly(u: Uri, n: nat, proto: string)
    ensures Address(u.(location := Decimal(n)), proto) == (true, u.(location := "127.0.0.1", port := n))
  {
    var d := Decimal(n);
    DecimalPlain(n);
    FindCharNone(d, ":", 0);
    FindCharNone(d, "/", 0);
    assert !Contains(d, '.');
    ScanIntDecimal(n);
  }

  /** An rtsp location with ':' at pos, '@' after it and the next ':' at k splits at k. */
  lemma SplitRtspAt(loc: string, pos: nat, at: nat, k: nat)
    requires pos < at < k < |loc| && loc[pos] == ':' && loc[at] == '@' && loc[k] == ':'
    requires forall j :: 0 <= j < k && j != pos ==> loc[j] != ':'
    ensures SplitAddress(loc, "rtsp") == (loc[..k], loc[k + 1..])
  {
    FindCharAt(loc, ":", 0, pos);
    FindCharAt(loc, ":", pos + 1, k);
    FindCharSome(loc, "@", pos + 1, at);
  }


  /** Where the separators of "user:pass@host:d" lie. */
  lemma CredIndex(user: string, pass: string, host: string, d: string)
    requires forall i :: 0 <= i < |user| ==> user[i] != ':'
    requires forall i :: 0 <= i < |pass| ==> pass[i] != ':'
    requires forall i :: 0 <= i < |host| ==> host[i] != ':'
    ensures var front := user + ":" + pass + "@" + host;
            var loc := front + ":" + d;
            loc[|user|] == ':' && loc[|user| + 1 + |pass|] == '@' && loc[|front|] == ':' &&
            (forall j :: 0 <= j < |front| && j != |user| ==> loc[j] != ':') &&
            loc[..|front|] == front && loc[|front| + 1..] == d
  {
    var front := user + ":" + pass + "@" + host;
    var loc := front + ":" + d;
    forall j | 0 <= j < |front| && j != |user|
      ensures loc[j] != ':'
    {
      assert loc[j] == front[j];
      if j < |user| {
        assert front[j] == user[j];
      } else if j < |user| + 1 + |pass| {
        assert front[j] == pass[j - |user| - 1];
      } else if j > |user| + 1 + |pass| {
        assert front[j] == host[j - |user| - 2 - |pass|];
      }
    }
    assert loc[..|front|] == front;
    assert loc[|front| + 1..] == d;
  }


  /** Host and port text of rtsp "user:pass@host:digits": split at the ':' after the '@'. */
  lemma SplitCredentials(user: string, pass: string, host: string, n: nat)
    requires forall i :: 0 <= i < |user| ==> user[i] != ':'
    requires forall i :: 0 <= i < |pass| ==> pass[i] != ':'
    requires forall i :: 0 <= i < |host| ==> host[i] != ':'
    ensures SplitAddress(user + ":" + pass + "@" + host + ":" + Decimal(n), "rtsp") ==
            (user + ":" + pass + "@" + host, Decimal(n))
  {
    var front := user + ":" + pass + "@" + host;
    CredIndex(user, pass, host, Decimal(n));
    SplitRtspAt(front + ":" + Decimal(n), |user|, |user| + 1 + |pass|, |front|);
  }


  /**
   * rtsp credentials "user:pass@host:port": the split is at the ':' after the
   * '@', so the location keeps "user:pass@host".
   */
  lemma AddressRtspCredentials(u: Uri, user: string, pass: string, host: string, n: nat)
    requires forall i :: 0 <= i < |user| ==> user[i] != ':'
    requires forall i :: 0 <= i < |pass| ==> pass[i] != ':'
    requires forall i :: 0 <= i < |host| ==> host[i] != ':'
    ensures Address(u.(location := user + ":" + pass + "@" + host + ":" + Decimal(n)), "rtsp") ==
            (true, u.(location := user + ":" + pass + "@" + host, port := n))
  {
    var front := user + ":" + pass + "@" + host;
    SplitCredentials(user, pass, host, n);
    PortPartOf(u.(location := front), n, [], "rtsp");
    assert Decimal(n) + [] == Decimal(n);
    assert |front| > 1;
  }

  /** An rtsp URI is the address branch on what follows "://", with protocol rtsp on success. */
  lemma ParseRtsp(u: Uri, rest: string, fs: FileSystem)
    ensures var w := u.(text := "rtsp" + "://" + rest, extension := "", location := rest, port := -1);
            var a := Address(w, "rtsp");
            ParseUri(u, Some("rtsp" + "://" + rest), fs) == if a.0 then (true, a.1.(protocol := ProtocolRtsp)) else a
  {
    RtspScheme();
    ParseScheme(u, "rtsp", rest, fs);
    LowerNames();
    FinishRtsp(u.(text := "rtsp" + "://" + rest, extension := "", location := rest, port := -1), fs);
  }

  /** The rtsp URI with credentials, end to end. */
  lemma ParseRtspCredentials(u: Uri, user: string, pass: string, host: string, n: nat, fs: FileSystem)
    requires forall i :: 0 <= i < |user| ==> user[i] != ':'
    requires forall i :: 0 <= i < |pass| ==> pass[i] != ':'
    requires forall i :: 0 <= i < |host| ==> host[i] != ':'
    ensures var s := "rtsp" + "://" + (user + ":" + pass + "@" + host + ":" + Decimal(n));
            ParseUri(u, Some(s), fs) ==
            (true, u.(text := s, protocol := ProtocolRtsp, location := user + ":" + pass + "@" + host,
                      extension := "", port := n))
  {
    var rest := user + ":" + pass + "@" + host + ":" + Decimal(n);
    ParseRtsp(u, rest, fs);
    AddressRtspCredentials(u.(text := "rtsp" + "://" + rest, extension := "", location := rest, port := -1), user, pass, host, n);
  }

  /** "rtsp" has no ':'. */
  lemma RtspScheme()
    ensures !Contains("rtsp", ':')
  {
  }
}
