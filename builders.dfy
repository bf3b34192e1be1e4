/** AXrLottieDrawable.Builder: the validated description of a drawable
    before it is built, from a file, a JSON string or a URL. */
module Builders {
  import opened Wrappers
  import opened Strings

  /** One queued layer-property change: the layer path (possibly null) and
      the property set on it, known to the model by an identifier. */
  datatype PropertyUpdate = PropertyUpdate(layer: Option<string>, property: nat)

  /** Where the animation comes from. A file is known by its absolute path,
      a URL source by the cache key derived from the URL, a network fetcher
      by an identifier. */
  datatype Source =
    | FileSource(path: string)
    | JsonSource(json: Option<string>)
    | UrlSource(key: string, fetcher: nat)

  datatype Builder = Builder(
    source: Source,
    cacheName: Option<string>,
    w: int, h: int,
    cache: bool,
    limitFps: bool,
    startDecode: bool,
    colorReplacement: Option<seq<int>>,
    properties: Option<seq<PropertyUpdate>>,
    customEndFrame: int,
    autoRepeat: int,
    autoStart: bool)

  const DEFAULT_SIZE: int := 200
  const URL_KEY_PREFIX: string := "lottie_cache_"

  /** The field initialisers every constructor starts from. */
  predicate HasDefaults(b: Builder) {
    && b.w == DEFAULT_SIZE && b.h == DEFAULT_SIZE
    && b.cache && !b.limitFps && b.startDecode
    && b.colorReplacement.None? && b.properties.None?
    && b.customEndFrame == -1 && b.autoRepeat == 0 && !b.autoStart
  }

  function Fresh(source: Source, cacheName: Option<string>): (b: Builder)
    ensures HasDefaults(b) && b.source == source && b.cacheName == cacheName
  {
    Builder(source, cacheName, DEFAULT_SIZE, DEFAULT_SIZE, true, false, true, None, None, -1, 0, false)
  }

  /** `Builder(File)`: a null file throws; the cache name defaults to the
      file's absolute path. */
  function FromFile(file: Option<string>): (r: Result<Builder>)
    ensures r.Failure? <==> file.None?
    ensures r.Failure? ==> r.error == NullPointer
    ensures r.Success? ==> HasDefaults(r.value) && r.value.source == FileSource(file.value)
                           && r.value.cacheName == file
  {
    match file
    case None => Failure(NullPointer)
    case Some(path) => Success(Fresh(FileSource(path), Some(path)))
  }

  /** `setCacheName`: a null or empty name throws NullPointerException;
      nothing else changes. */
  function SetCacheName(b: Builder, name: Option<string>): (r: Result<Builder>)
    ensures r.Failure? <==> (name.None? || name.value == "")
    ensures r.Failure? ==> r.error == NullPointer
    ensures r.Success? ==> r.value == b.(cacheName := name)
  {
    if name.None? || name.value == "" then Failure(NullPointer)
    else Success(b.(cacheName := name))
  }

  /** `Builder(String json, String cacheName)`: the JSON may be null, the
      cache name is validated by setCacheName. */
  function FromJson(json: Option<string>, cacheName: Option<string>): (r: Result<Builder>)
    ensures r.Failure? <==> (cacheName.None? || cacheName.value == "")
    ensures r.Success? ==> HasDefaults(r.value) && r.value.source == JsonSource(json)
                           && r.value.cacheName == cacheName
  {
    SetCacheName(Fresh(JsonSource(json), None), cacheName)
  }

  /** The cache key of a URL source: the prefix and the URL with every
      run of non-word characters removed. */
  function UrlKey(url: string): (k: string)
    ensures URL_KEY_PREFIX <= k
    ensures forall i :: |URL_KEY_PREFIX| <= i < |k| ==> IsWordChar(k[i])
  {
    URL_KEY_PREFIX + StripNonWord(url)
  }

  /** `Builder(String url, AXrLottieNetworkFetcher fetcher)`: a null
      fetcher throws first, a null URL throws when its key is computed; no
      cache name is set. */
  function FromUrl(url: Option<string>, fetcher: Option<nat>): (r: Result<Builder>)
    ensures r.Failure? <==> (fetcher.None? || url.None?)
    ensures r.Failure? ==> r.error == NullPointer
    ensures r.Success? ==> HasDefaults(r.value) && r.value.cacheName.None?
                           && r.value.source == UrlSource(UrlKey(url.value), fetcher.value)
  {
    if fetcher.None? then Failure(NullPointer)
    else if url.None? then Failure(NullPointer)
    else Success(Fresh(UrlSource(UrlKey(url.value), fetcher.value), None))
  }

  /** URLs that differ only in punctuation share a cache key, and a key is
      its own URL's key once the prefix is dropped: removing non-word
      characters a second time changes nothing. */
  lemma UrlKeyIgnoresPunctuation(a: string, b: string)
    requires StripNonWord(a) == StripNonWord(b)
    ensures UrlKey(a) == UrlKey(b)
    ensures UrlKey(UrlKey(a)[|URL_KEY_PREFIX|..]) == UrlKey(a)
  {
    assert UrlKey(a)[|URL_KEY_PREFIX|..] == StripNonWord(a);
    StripNonWordIdempotent(a);
  }

  /** `setSize`: both sides must be positive, otherwise RuntimeException. */
  function SetSize(b: Builder, w: int, h: int): (r: Result<Builder>)
    ensures r.Failure? <==> (w <= 0 || h <= 0)
    ensures r.Failure? ==> r.error.Runtime?
    ensures r.Success? ==> r.value == b.(w := w, h := h) && r.value.w > 0 && r.value.h > 0
  {
    if w <= 0 || h <= 0 then Failure(Runtime("lottie width and height must be > 0"))
    else Success(b.(w := w, h := h))
  }

  /** `addLayerProperty`: creates the list on first use and appends. */
  function AddLayerProperty(b: Builder, layer: Option<string>, property: nat): (r: Builder)
    ensures r.properties.Some?
    ensures r.properties.value == b.properties.GetOr([]) + [PropertyUpdate(layer, property)]
    ensures r == b.(properties := r.properties)
  {
    b.(properties := Some(b.properties.GetOr([]) + [PropertyUpdate(layer, property)]))
  }

  /** `setAutoRepeat(boolean)`: repeat mode 1 (loop) or 0 (play once and
      hold). */
  function SetAutoRepeatEnabled(b: Builder, enabled: bool): (r: Builder)
    ensures r.autoRepeat == 1 <==> enabled
    ensures r.autoRepeat == 0 <==> !enabled
    ensures r == b.(autoRepeat := r.autoRepeat)
  {
    b.(autoRepeat := if enabled then 1 else 0)
  }

  /** A sequence of `addLayerProperty` calls, first to last. */
  function AddLayerProperties(b: Builder, adds: seq<PropertyUpdate>): Builder
    decreases |adds|
  {
    if adds == [] then b
    else AddLayerProperties(AddLayerProperty(b, adds[0].layer, adds[0].property), adds[1..])
  }

  /** Properties added one after another follow those already there, in
      the order they were added, and nothing else in the builder changes. */
  lemma {:induction false} PropertiesKeepOrder(b: Builder, adds: seq<PropertyUpdate>)
    requires adds != []
    ensures AddLayerProperties(b, adds).properties == Some(b.properties.GetOr([]) + adds)
    ensures AddLayerProperties(b, adds) == b.(properties := AddLayerProperties(b, adds).properties)
    decreases |adds|
  {
    var b1 := AddLayerProperty(b, adds[0].layer, adds[0].property);
    if |adds| == 1 {
      assert adds == [PropertyUpdate(adds[0].layer, adds[0].property)];
    } else {
      PropertiesKeepOrder(b1, adds[1..]);
      assert b1.properties.GetOr([]) + adds[1..] == b.properties.GetOr([]) + adds by {
        assert adds == [adds[0]] + adds[1..];
      }
    }
  }
}
