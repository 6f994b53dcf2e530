/**
 * The kind of a stream source (camera, video, image) and its name codec.
 * The enumeration's declaration is not part of this model; its ordinals are
 * taken in the order of the StreamSourceTypeToStr switch.
 */
module BaseStreamSource {
  import opened Common

  datatype StreamSourceType = SourceUnknown | SourceCamera | SourceVideo | SourceImage

  function SourceTypes(): seq<StreamSourceType> { [SourceUnknown, SourceCamera, SourceVideo, SourceImage] }

  function SourceTypeOrdinal(t: StreamSourceType): (n: nat)
    ensures n < |SourceTypes()| && SourceTypes()[n] == t
  {
    match t case SourceUnknown => 0 case SourceCamera => 1 case SourceVideo => 2 case SourceImage => 3
  }

  function SourceTypeToStr(t: StreamSourceType): string
  {
    match t
    case SourceUnknown => "unknown"
    case SourceCamera => "camera"
    case SourceVideo => "video"
    case SourceImage => "image"
  }

  function SourceTypeOf(str: Option<string>): StreamSourceType
  {
    FromStr(str, SourceTypes(), SourceTypeToStr, SourceUnknown)
  }

  /** StreamSourceTypeFromStr. */
  method SourceTypeFromStr(str: Option<string>) returns (t: StreamSourceType)
    ensures t == SourceTypeOf(str)
  {
    if str.None? {
      return SourceUnknown;
    }
    var n := SearchByName(str.value, SourceTypes(), SourceTypeToStr);
    if n.Some? {
      return SourceTypes()[n.value];
    }
    return SourceUnknown;
  }

  /** The four names are pairwise different, ignoring case. */
  lemma SourceTypeNamesDistinct()
    ensures forall i, j :: 0 <= i < j < |SourceTypes()| ==>
              Distinguished(SourceTypeToStr(SourceTypes()[i]), SourceTypeToStr(SourceTypes()[j]))
  {
    var names := ["unknown", "camera", "video", "image"];
    assert forall i :: 0 <= i < 4 ==> SourceTypeToStr(SourceTypes()[i]) == names[i];
  }

  /** Every source type survives ToStr then FromStr. */
  lemma SourceTypeRoundTrip(t: StreamSourceType)
    ensures SourceTypeOf(Some(SourceTypeToStr(t))) == t
  {
    SourceTypeNamesDistinct();
    FromStrOfName(SourceTypes(), SourceTypeToStr, SourceUnknown, SourceTypeOrdinal(t));
  }

  /**
   * FromStr answers the lowest ordinal whose name matches, ignoring case, and
   * SOURCE_UNKNOWN for nullptr or when nothing matches.
   */
  lemma SourceTypeOfMatch(str: Option<string>, k: nat)
    requires k < |SourceTypes()|
    ensures str.None? ==> SourceTypeOf(str) == SourceUnknown
    ensures str.Some? && EqualsIgnoreCase(str.value, SourceTypeToStr(SourceTypes()[k])) &&
            (forall j :: 0 <= j < k ==> !EqualsIgnoreCase(str.value, SourceTypeToStr(SourceTypes()[j]))) ==>
            SourceTypeOf(str) == SourceTypes()[k]
    ensures str.Some? && (forall j :: 0 <= j < |SourceTypes()| ==> !EqualsIgnoreCase(str.value, SourceTypeToStr(SourceTypes()[j]))) ==>
            SourceTypeOf(str) == SourceUnknown
  {
    if str.Some? {
      var m := FirstMatch(str.value, SourceTypes(), SourceTypeToStr, 0);
      if m.Some? && EqualsIgnoreCase(str.value, SourceTypeToStr(SourceTypes()[k])) {
        assert m.value <= k;
      }
    }
  }

  /** FromStr is case-insensitive. */
  lemma SourceTypeIgnoresCase(s: string, t: string)
    requires EqualsIgnoreCase(s, t)
    ensures SourceTypeOf(Some(s)) == SourceTypeOf(Some(t))
  {
    FromStrIgnoresCase(s, t, SourceTypes(), SourceTypeToStr, SourceUnknown);
  }
}
