/** `AXrLottieOptions`: a mutable bag of drawable settings. Every setter
    changes one field (two for the size) and returns the object itself;
    `apply` overwrites all seventeen fields with another object's. */
module Options {
  import opened Wrappers
  import opened Builders
  import opened NativeRecords

  /** The sentinel of an unset size, frame or repeat field. */
  const DEFAULT: int := -100

  /** `AXrLottieDrawable.AUTO_REPEAT_INFINITE`; its declaration is not part
      of this model, the value is the drawable's "repeat forever". */
  const AUTO_REPEAT_INFINITE: int := -1

  /** A `List<PropertyUpdate>` object: options that `apply` copied from
      each other share it, so an addition through one is seen by all. */
  class PropertyList {
    var items: seq<PropertyUpdate>

    constructor ()
      ensures items == []
    {
      items := [];
    }
  }

  /** The seventeen fields, in declaration order. Listeners are handles;
      `speed` is a float that is only stored, so a real stands for it. */
  datatype Values = Values(
    cacheName: Option<string>, w: int, h: int, cache: bool, limitFps: bool, startDecode: bool,
    properties: PropertyList?, customEndFrame: int, customStartFrame: int, repeatMode: int,
    autoRepeat: int, listener: Option<nat>, render: Option<nat>, loaderListener: Option<nat>,
    autoStart: bool, selectedMarker: Option<Marker>, speed: real)

  /** The field initialisers. */
  const INITIAL: Values :=
    Values(None, DEFAULT, DEFAULT, true, false, true, null, DEFAULT, DEFAULT, DEFAULT, DEFAULT,
           None, None, None, false, None, -1.0)

  class LottieOptions {
    var cacheName: Option<string>
    var w: int
    var h: int
    var cache: bool
    var limitFps: bool
    var startDecode: bool
    var properties: PropertyList?
    var customEndFrame: int
    var customStartFrame: int
    var repeatMode: int
    var autoRepeat: int
    var listener: Option<nat>
    var render: Option<nat>
    var loaderListener: Option<nat>
    var autoStart: bool
    var selectedMarker: Option<Marker>
    var speed: real

    function Snapshot(): (v: Values)
      reads this
    {
      Values(cacheName, w, h, cache, limitFps, startDecode, properties, customEndFrame,
             customStartFrame, repeatMode, autoRepeat, listener, render, loaderListener,
             autoStart, selectedMarker, speed)
    }

    /** The constructor: the initialisers, then `apply` of the library's
        default options (null unless some were set). */
    constructor (defaults: LottieOptions?)
      ensures Snapshot() == if defaults == null then INITIAL else old(defaults.Snapshot())
    {
      cacheName, w, h, cache, limitFps, startDecode := None, DEFAULT, DEFAULT, true, false, true;
      properties, customEndFrame, customStartFrame, repeatMode, autoRepeat := null, DEFAULT, DEFAULT, DEFAULT, DEFAULT;
      listener, render, loaderListener, autoStart, selectedMarker, speed := None, None, None, false, None, -1.0;
      new;
      Apply(defaults);
    }

    /** `apply(options)`: a no-op for null or for the object itself,
        otherwise every field is copied (the property list by reference). */
    method Apply(o: LottieOptions?)
      modifies this
      ensures o == null || o == this ==> Snapshot() == old(Snapshot())
      ensures o != null && o != this ==> Snapshot() == old(o.Snapshot())
    {
      if o == null || o == this {
        return;
      }
      Assign(o.Snapshot());
    }

    /** The seventeen assignments of `apply`, in four groups. */
    method Assign(v: Values)
      modifies this
      ensures Snapshot() == v
    {
      AssignSize(v);
      AssignFrames(v);
      AssignListeners(v);
      AssignRest(v);
    }

    method AssignSize(v: Values)
      modifies this`cacheName, this`w, this`h, this`cache, this`limitFps
      ensures cacheName == v.cacheName && w == v.w && h == v.h && cache == v.cache && limitFps == v.limitFps
    {
      cacheName := v.cacheName;
      w := v.w;
      h := v.h;
      cache := v.cache;
      limitFps := v.limitFps;
    }

    method AssignFrames(v: Values)
      modifies this`startDecode, this`properties, this`customEndFrame, this`customStartFrame
      ensures startDecode == v.startDecode && properties == v.properties
      ensures customEndFrame == v.customEndFrame && customStartFrame == v.customStartFrame
    {
      startDecode := v.startDecode;
      properties := v.properties;
      customEndFrame := v.customEndFrame;
      customStartFrame := v.customStartFrame;
    }

    method AssignListeners(v: Values)
      modifies this`repeatMode, this`autoRepeat, this`listener, this`render
      ensures repeatMode == v.repeatMode && autoRepeat == v.autoRepeat && listener == v.listener && render == v.render
    {
      repeatMode := v.repeatMode;
      autoRepeat := v.autoRepeat;
      listener := v.listener;
      render := v.render;
    }

    method AssignRest(v: Values)
      modifies this`loaderListener, this`autoStart, this`selectedMarker, this`speed
      ensures loaderListener == v.loaderListener && autoStart == v.autoStart
      ensures selectedMarker == v.selectedMarker && speed == v.speed
    {
      loaderListener := v.loaderListener;
      autoStart := v.autoStart;
      selectedMarker := v.selectedMarker;
      speed := v.speed;
    }

    /** `setCacheName`: a null or empty name throws a NullPointerException
        (the nested test repeats the outer one, so its other branch never
        runs); any other name is stored. */
    method SetCacheName(name: Option<string>) returns (r: Result<()>)
      modifies this
      ensures r.Failure? <==> name.None? || name.value == []
      ensures r.Failure? ==> r.error == NullPointer && Snapshot() == old(Snapshot())
      ensures r.Success? ==> Snapshot() == old(Snapshot()).(cacheName := name)
    {
      if name.None? || name.value == [] {
        return Failure(NullPointer);
      }
      cacheName := name;
      r := Success(());
    }

    /** `setSize`: both sides must be positive, otherwise a RuntimeException
        is thrown before either is stored. */
    method SetSize(width: int, height: int) returns (r: Result<()>)
      modifies this
      ensures r.Failure? <==> width <= 0 || height <= 0
      ensures r.Failure? ==> r.error == Runtime("lottie width and height must be > 0") && Snapshot() == old(Snapshot())
      ensures r.Success? ==> Snapshot() == old(Snapshot()).(w := width, h := height)
    {
      if width <= 0 || height <= 0 {
        return Failure(Runtime("lottie width and height must be > 0"));
      }
      w, h := width, height;
      r := Success(());
    }

    method SetCacheEnabled(enabled: bool)
      modifies this
      ensures Snapshot() == old(Snapshot()).(cache := enabled)
    {
      cache := enabled;
    }

    method SetSpeed(value: real)
      modifies this
      ensures Snapshot() == old(Snapshot()).(speed := value)
    {
      speed := value;
    }

    method SetFpsLimit(enabled: bool)
      modifies this
      ensures Snapshot() == old(Snapshot()).(limitFps := enabled)
    {
      limitFps := enabled;
    }

    method SetAllowDecodeSingleFrame(enabled: bool)
      modifies this
      ensures Snapshot() == old(Snapshot()).(startDecode := enabled)
    {
      startDecode := enabled;
    }

    /** `addLayerProperty`: the list is created on first use and the update
        appended to it, in place, so every options object sharing the list
        sees the update. */
    method AddLayerProperty(keyPath: Option<string>, property: nat)
      modifies this, properties
      ensures old(properties) == null ==> fresh(properties) && properties.items == [PropertyUpdate(keyPath, property)]
      ensures old(properties) != null ==>
                properties == old(properties) && properties.items == old(properties.items) + [PropertyUpdate(keyPath, property)]
      ensures Snapshot() == old(Snapshot()).(properties := properties)
    {
      if properties == null {
        properties := new PropertyList();
      }
      properties.items := properties.items + [PropertyUpdate(keyPath, property)];
    }

    method SetCustomEndFrame(frame: int)
      modifies this
      ensures Snapshot() == old(Snapshot()).(customEndFrame := frame)
    {
      customEndFrame := frame;
    }

    method SetCustomStartFrame(frame: int)
      modifies this
      ensures Snapshot() == old(Snapshot()).(customStartFrame := frame)
    {
      customStartFrame := frame;
    }

    method SetSelectedMarker(marker: Option<Marker>)
      modifies this
      ensures Snapshot() == old(Snapshot()).(selectedMarker := marker)
    {
      selectedMarker := marker;
    }

    method SetAutoRepeat(repeatCount: int)
      modifies this
      ensures Snapshot() == old(Snapshot()).(autoRepeat := repeatCount)
    {
      autoRepeat := repeatCount;
    }

    /** `setAutoRepeat(boolean)`: infinite when enabled, 0 otherwise. */
    method SetAutoRepeatEnabled(enabled: bool)
      modifies this
      ensures enabled ==> autoRepeat == AUTO_REPEAT_INFINITE
      ensures !enabled ==> autoRepeat == 0
      ensures Snapshot() == old(Snapshot()).(autoRepeat := autoRepeat)
    {
      SetAutoRepeat(if enabled then AUTO_REPEAT_INFINITE else 0);
    }

    method SetAutoRepeatMode(mode: int)
      modifies this
      ensures Snapshot() == old(Snapshot()).(repeatMode := mode)
    {
      repeatMode := mode;
    }

    method SetAutoStart(enabled: bool)
      modifies this
      ensures Snapshot() == old(Snapshot()).(autoStart := enabled)
    {
      autoStart := enabled;
    }

    method SetOnFrameChangedListener(l: Option<nat>)
      modifies this
      ensures Snapshot() == old(Snapshot()).(listener := l)
    {
      listener := l;
    }

    method SetOnFrameRenderListener(l: Option<nat>)
      modifies this
      ensures Snapshot() == old(Snapshot()).(render := l)
    {
      render := l;
    }

    method SetOnLottieLoaderListener(l: Option<nat>)
      modifies this
      ensures Snapshot() == old(Snapshot()).(loaderListener := l)
    {
      loaderListener := l;
    }

    /** `build()`: an options object cannot build a drawable; it always
        throws and changes nothing. */
    method Build() returns (r: Result<()>)
      ensures r == Failure(Runtime("Can't build an AXrLottieDrawable from AXrLottieOptions!"))
    {
      r := Failure(Runtime("Can't build an AXrLottieDrawable from AXrLottieOptions!"));
    }
  }

  /** Copying is idempotent and leaves the source as it was: after
      `a.apply(b)`, applying `b` again or applying `a` to itself changes
      nothing, and a third object applied from `a` equals `b`. */
  method ApplyChain(a: LottieOptions, b: LottieOptions, c: LottieOptions)
    requires a != b && b != c && a != c
    modifies a, c
    ensures a.Snapshot() == old(b.Snapshot()) && c.Snapshot() == old(b.Snapshot())
    ensures b.Snapshot() == old(b.Snapshot())
  {
    a.Apply(b);
    a.Apply(b);
    a.Apply(a);
    c.Apply(a);
  }
}
