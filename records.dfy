/** The two record types the native side hands to Java as `String[]`
    triples: animation markers (AXrLottieMarker) and layer descriptions
    (AXrLottieLayerInfo). A Java array may be null and so may each of its
    strings, hence the Options. */
module NativeRecords {
  import opened Wrappers
  import opened Strings

  /** The raw `String[]` the native side returns. */
  type StringArray = Option<seq<Option<string>>>

  /** The three fields both parsing constructors fill in order. */
  datatype Fields = Fields(name: Option<string>, inFrame: int, outFrame: int)

  /** The shared shape of both parsing constructors: inside one try block,
      assign `data[0]`, then `parseInt(data[1])`, then `parseInt(data[2])`;
      the first exception (a short array or a NumberFormatException, also
      for a null string) abandons the rest, so the fields already assigned
      keep their new values and the later ones keep their defaults. */
  function ParseFields(data: StringArray, defaults: Fields): (r: Fields)
    ensures data.None? ==> r == defaults
    ensures data.Some? && |data.value| >= 1 ==> r.name == data.value[0]
    ensures data.Some? && |data.value| == 0 ==> r == defaults
    ensures ParseCell(data, 1).None? ==> r.inFrame == defaults.inFrame && r.outFrame == defaults.outFrame
    ensures ParseCell(data, 1).Some? ==> r.inFrame == ParseCell(data, 1).value
    ensures ParseCell(data, 1).Some? && ParseCell(data, 2).None? ==> r.outFrame == defaults.outFrame
    ensures ParseCell(data, 1).Some? && ParseCell(data, 2).Some? ==> r.outFrame == ParseCell(data, 2).value
  {
    match data
    case None => defaults
    case Some(cells) =>
      if |cells| < 1 then defaults
      else
        var withName := defaults.(name := cells[0]);
        match ParseCell(data, 1)
        case None => withName
        case Some(i) =>
          var withIn := withName.(inFrame := i);
          match ParseCell(data, 2)
          case None => withIn
          case Some(o) => withIn.(outFrame := o)
  }

  /** `Integer.parseInt(data[k])`, None when the array is too short, the
      cell is null or the text is not an int. */
  function ParseCell(data: StringArray, k: nat): (r: Option<int>)
    ensures r.Some? ==> IsInt32(r.value)
  {
    if data.Some? && k < |data.value| && data.value[k].Some? then ParseInt(data.value[k].value)
    else None
  }

  /** The text the native side writes for a triple. */
  function Render(name: string, inFrame: int, outFrame: int): StringArray {
    Some([Some(name), Some(IntToString(inFrame)), Some(IntToString(outFrame))])
  }

  /** Parsing what the native side renders gives back the triple, and any
      further cells (the layer info's fourth element) are ignored. */
  lemma ParseRendered(name: string, inFrame: int, outFrame: int, extra: seq<Option<string>>, defaults: Fields)
    requires IsInt32(inFrame) && IsInt32(outFrame)
    ensures ParseFields(Some(Render(name, inFrame, outFrame).value + extra), defaults)
            == Fields(Some(name), inFrame, outFrame)
  {
    var cells := Render(name, inFrame, outFrame).value + extra;
    ParseIntOfIntToString(inFrame);
    ParseIntOfIntToString(outFrame);
    assert cells[1] == Some(IntToString(inFrame));
    assert cells[2] == Some(IntToString(outFrame));
  }

  /** A bad in-frame abandons the parse after the name. */
  lemma ParseStopsAtBadInFrame(data: StringArray, defaults: Fields)
    requires data.Some? && |data.value| >= 1 && ParseCell(data, 1).None?
    ensures ParseFields(data, defaults) == defaults.(name := data.value[0])
  {
  }

  // ---------------------------------------------------------------------
  // AXrLottieMarker
  // ---------------------------------------------------------------------

  datatype Marker = Marker(marker: Option<string>, inFrame: int, outFrame: int)

  const MarkerDefaults: Fields := Fields(Some(""), -1, -1)

  /** The package-private `AXrLottieMarker(String[] data)` constructor. */
  function MarkerFromNative(data: StringArray): (m: Marker)
    ensures data.None? ==> m == Marker(Some(""), -1, -1)
  {
    var f := ParseFields(data, MarkerDefaults);
    Marker(f.name, f.inFrame, f.outFrame)
  }

  /** `AXrLottieMarker.equals` against a possibly null other marker:
      in-frames, out-frames and null-safe names all equal. */
  predicate MarkerEquals(m: Marker, o: Option<Marker>) {
    o.Some? && m.inFrame == o.value.inFrame && m.outFrame == o.value.outFrame
    && (if m.marker.None? then o.value.marker.None? else o.value.marker == m.marker)
  }

  /** `AXrLottieMarker.hashCode`: `31 * (31 * h(marker) + in) + out` in int
      arithmetic; a null name throws NullPointerException. */
  function MarkerHash(m: Marker): (r: Result<int>)
    ensures r.Failure? <==> m.marker.None?
    ensures r.Success? ==> IsInt32(r.value)
  {
    match m.marker
    case None => Failure(NullPointer)
    case Some(s) => Success(Wrap32(31 * Wrap32(31 * StringHash(s) + m.inFrame) + m.outFrame))
  }

  /** Marker equality is field equality: reflexive, symmetric and false
      only against null or a marker that differs in some field. */
  lemma MarkerEqualsIsFieldEquality(m: Marker, n: Marker)
    ensures MarkerEquals(m, Some(n)) <==> m == n
    ensures !MarkerEquals(m, None)
  {
  }

  /** Equal markers with a name have equal hash codes. */
  lemma MarkerHashAgrees(m: Marker, n: Marker)
    requires MarkerEquals(m, Some(n)) && m.marker.Some?
    ensures MarkerHash(m).Success? && MarkerHash(m) == MarkerHash(n)
  {
  }

  /** The round trip the native side relies on: a rendered marker parses
      back to the public constructor's marker. */
  lemma MarkerRoundTrip(name: string, inFrame: int, outFrame: int)
    requires IsInt32(inFrame) && IsInt32(outFrame)
    ensures MarkerFromNative(Render(name, inFrame, outFrame)) == Marker(Some(name), inFrame, outFrame)
  {
    ParseRendered(name, inFrame, outFrame, [], MarkerDefaults);
    assert Render(name, inFrame, outFrame).value + [] == Render(name, inFrame, outFrame).value;
  }

  // ---------------------------------------------------------------------
  // AXrLottieLayerInfo
  // ---------------------------------------------------------------------

  datatype LayerInfo = LayerInfo(name: Option<string>, inFrame: int, outFrame: int)

  const LayerDefaults: Fields := Fields(None, 0, 0)

  /** The `AXrLottieLayerInfo(String[] data)` constructor. */
  function LayerInfoFromNative(data: StringArray): (l: LayerInfo)
    ensures data.None? ==> l == LayerInfo(None, 0, 0)
  {
    var f := ParseFields(data, LayerDefaults);
    LayerInfo(f.name, f.inFrame, f.outFrame)
  }

  predicate LayerInfoEquals(l: LayerInfo, o: Option<LayerInfo>) {
    o.Some? && l.inFrame == o.value.inFrame && l.outFrame == o.value.outFrame
    && (if l.name.None? then o.value.name.None? else o.value.name == l.name)
  }

  /** `AXrLottieLayerInfo.hashCode`, a null name hashing as 0. */
  function LayerInfoHash(l: LayerInfo): (h: int)
    ensures IsInt32(h)
    ensures l.name.None? ==> h == Wrap32(31 * Wrap32(31 * 0 + l.inFrame) + l.outFrame)
  {
    var nameHash := if l.name.Some? then StringHash(l.name.value) else 0;
    Wrap32(31 * Wrap32(31 * nameHash + l.inFrame) + l.outFrame)
  }

  /** Layer-info equality is field equality, and equal layer infos hash
      alike, null names included. */
  lemma LayerInfoEqualsAgreesWithHash(l: LayerInfo, m: LayerInfo)
    ensures LayerInfoEquals(l, Some(m)) <==> l == m
    ensures LayerInfoEquals(l, Some(m)) ==> LayerInfoHash(l) == LayerInfoHash(m)
    ensures !LayerInfoEquals(l, None)
  {
  }

  /** The native side emits four cells per layer; the fourth is ignored. */
  lemma LayerInfoIgnoresFourthCell(name: string, inFrame: int, outFrame: int, fourth: Option<string>)
    requires IsInt32(inFrame) && IsInt32(outFrame)
    ensures LayerInfoFromNative(Some(Render(name, inFrame, outFrame).value + [fourth]))
            == LayerInfo(Some(name), inFrame, outFrame)
  {
    ParseRendered(name, inFrame, outFrame, [fourth], LayerDefaults);
  }
}
