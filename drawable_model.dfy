/** The state machine of AXrLottieDrawable, as pure transitions over a
    snapshot of its fields. The class in module Drawables updates the
    fields in place and is proved to follow these transitions; the
    invariants and scenario lemmas are stated here.

    Threads are interleavings of whole transitions: the decode worker
    (`LoadFrame`), the cache executor (`RunCacheTask`) and the UI thread
    (`Dispatch` of the oldest posted message, and the public methods). */
module DrawableModel {
  import opened Wrappers
  import opened Strings
  import opened FrameStep
  import opened Builders

  /** A bitmap, known by identity. */
  type Bitmap = nat

  /** `cacheGenerateTask`: none, queued on the executor, or running. */
  datatype CacheTask = NoCacheTask | CacheQueued | CacheStarted

  /** The runnables posted to the UI handler. */
  datatype UiMessage = NoFrame | FrameReady | GenerateCache | CacheFinished

  /** What the native loader produced: the handle (0 on failure) and
      `metaData` (frame count, frame rate, cache-needed flag). */
  datatype NativeLoad = NativeLoad(handle: int, totalFrames: int, frameRate: int, createCache: bool)

  /** The fields fixed once the animation is loaded. */
  datatype Meta = Meta(handle: int, totalFrames: int, frameRate: int,
                       timeBetweenFrames: int, shouldLimitFps: bool)

  /** The native handle and the handles passed to the native destroy. */
  datatype Handle = Handle(nativePtr: int, destroyed: seq<int>)

  /** Where playback is and how it advances. */
  datatype Playback = Playback(currentFrame: int, nextFrameIsLast: bool, customEndFrame: int,
                               playInDirection: bool, autoRepeat: int, autoRepeatPlayCount: int)

  datatype Flags = Flags(isRunning: bool, isRecycled: bool, decodeSingleFrame: bool,
                         singleFrameDecoded: bool, forceFrameRedraw: bool, applyingLayerColors: bool,
                         waitingForNextTask: bool, destroyWhenDone: bool)

  /** The three bitmap slots and the bitmaps passed to Bitmap.recycle. */
  datatype Bitmaps = Bitmaps(rendering: Option<Bitmap>, next: Option<Bitmap>,
                             background: Option<Bitmap>, recycled: seq<Bitmap>)

  /** `loadFrameTask != null`; whether the decode runnable waits on the
      pool; the cache task; `metaData[2] != 0`; the UI handler's queue,
      oldest first. */
  datatype Tasks = Tasks(loadFrameTask: bool, workerQueued: bool, cacheTask: CacheTask,
                         createCache: bool, posted: seq<UiMessage>)

  /** Layer-property updates and colour tables: queued by the setters,
      handed to the worker by the scheduler, applied to the native side. */
  datatype Updates = Updates(newUpdates: seq<PropertyUpdate>, pendingUpdates: seq<PropertyUpdate>,
                             appliedUpdates: seq<PropertyUpdate>, newColors: Option<seq<int>>,
                             pendingColors: Option<seq<int>>, appliedColors: seq<seq<int>>)

  datatype State = State(native: Handle, play: Playback, flags: Flags, bitmaps: Bitmaps,
                         tasks: Tasks, updates: Updates)

  // -----------------------------------------------------------------------
  // Invariants
  // -----------------------------------------------------------------------

  /** The handles a drawable may have destroyed: its own, if it had one. */
  function Released(handle: int): seq<int> {
    if handle != 0 then [handle] else []
  }

  /** The native handle is live and untouched, or it was destroyed exactly
      once and zeroed. */
  predicate HandleState(m: Meta, h: Handle) {
    || (h.nativePtr == m.handle && h.destroyed == [])
    || (h.nativePtr == 0 && h.destroyed == Released(m.handle))
  }

  /** The bitmap on screen is never the one decoded into or the one
      waiting to be shown. */
  predicate SlotsDistinct(b: Bitmaps) {
    b.rendering.Some? ==> b.rendering != b.background && b.rendering != b.next
  }

  /** A posted no-frame runnable is the completion of the one pending
      decode: it is the only one, the decode has run, and it produced no
      frame. */
  predicate NoFrameIsCompletion(s: State) {
    NoFrame in s.tasks.posted ==>
      && multiset(s.tasks.posted)[NoFrame] == 1
      && s.tasks.loadFrameTask && !s.tasks.workerQueued && s.bitmaps.next.None?
  }

  predicate Inv(m: Meta, s: State) {
    // a queued decode is the one pending task, and it has no result yet
    && (s.tasks.workerQueued ==> s.tasks.loadFrameTask && s.bitmaps.next.None?)
    && NoFrameIsCompletion(s)
    && HandleState(m, s.native)
    && SlotsDistinct(s.bitmaps)
    && (s.flags.destroyWhenDone ==> s.flags.isRecycled)
  }

  /** Every layer-property update ever queued, in order: applied, waiting
      for the worker, or waiting for the next schedule. */
  function History(s: State): seq<PropertyUpdate> {
    s.updates.appliedUpdates + s.updates.pendingUpdates + s.updates.newUpdates
  }

  // -----------------------------------------------------------------------
  // Loading
  // -----------------------------------------------------------------------

  const INT_MAX: int := 2147483647

  /** `(int) (1000.0f / fps)`: a zero rate gives infinity, which the cast
      turns into Integer.MAX_VALUE; otherwise the quotient truncated. */
  function FrameTime(fps: int): (t: int)
    ensures fps > 0 ==> 0 <= t <= 1000
    ensures fps == 0 ==> t == INT_MAX
  {
    if fps == 0 then INT_MAX
    else if fps > 0 then 1000 / fps
    else -(1000 / -fps)
  }

  /** `Math.max(shouldLimitFps ? 33 : 16, (int) (1000.0f / fps))`. */
  function TimeBetweenFrames(limit: bool, fps: int): (t: int)
    ensures t >= (if limit then 33 else 16)
    ensures t == (if limit then 33 else 16) || t == FrameTime(fps)
  {
    var floor := if limit then 33 else 16;
    if FrameTime(fps) > floor then FrameTime(fps) else floor
  }

  /** Whether the builder's source loads through `initFromFile`: a file, or
      JSON whose cache copy exists (`cachedJson`) when caching is on. */
  predicate LoadsFromFile(b: Builder, cachedJson: bool) {
    b.source.FileSource? || (b.source.JsonSource? && b.cache && cachedJson)
  }

  /** The loaded fields. From a file, the frame limit is dropped for
      animations under 60 fps; from JSON it is kept as requested. A URL
      source loads later, so nothing is set and every field is zero. */
  function InitialMeta(b: Builder, n: NativeLoad, cachedJson: bool): (m: Meta)
    ensures b.source.UrlSource? ==> m == Meta(0, 0, 0, 0, false)
    ensures LoadsFromFile(b, cachedJson) ==> m.shouldLimitFps == (b.limitFps && n.frameRate >= 60)
    ensures b.source.JsonSource? && !LoadsFromFile(b, cachedJson) ==> m.shouldLimitFps == b.limitFps
    ensures !b.source.UrlSource? ==> m.timeBetweenFrames >= 16 && m.handle == n.handle
                                     && m.totalFrames == n.totalFrames
  {
    if b.source.UrlSource? then Meta(0, 0, 0, 0, false)
    else
      var limit := if LoadsFromFile(b, cachedJson) then b.limitFps && n.frameRate >= 60 else b.limitFps;
      Meta(n.handle, n.totalFrames, n.frameRate, TimeBetweenFrames(limit, n.frameRate), limit)
  }

  /** The fields right after the init method: nothing decoded, no task.
      Loading straight from JSON turns repeating off. */
  function Loaded(b: Builder, m: Meta, n: NativeLoad, cachedJson: bool): State {
    var fromJson := b.source.JsonSource? && !LoadsFromFile(b, cachedJson);
    State(Handle(m.handle, []),
          Playback(0, false, -1, false, if fromJson then 0 else REPEAT_LOOP, 0),
          Flags(false, false, false, false, false, false, false, false),
          Bitmaps(None, None, None, []),
          Tasks(false, false, NoCacheTask, !b.source.UrlSource? && n.createCache, []),
          Updates([], [], [], None, None, []))
  }

  /** The constructor: load, then (JSON only) the first decode when
      `startDecode`, then the builder's end frame, repeat mode and
      properties, then `start()` when `autoStart`. */
  function Initial(b: Builder, m: Meta, n: NativeLoad, cachedJson: bool): State {
    var s := Configure(b, m, FirstDecode(b, Loaded(b, m, n, cachedJson), cachedJson));
    if b.autoStart then Start(s) else s
  }

  /** Loading straight from JSON requests the first frame when the
      builder asks for it. */
  function FirstDecode(b: Builder, s: State, cachedJson: bool): State {
    if b.source.JsonSource? && !LoadsFromFile(b, cachedJson) && b.startDecode
    then SetAllowDecodeSingleFrame(s, true) else s
  }

  /** The builder settings the constructor applies after loading, through
      the setters as written: the end-frame guard reads the field, which
      loading left at -1. */
  function Configure(b: Builder, m: Meta, s: State): State {
    var s2 := if b.customEndFrame > 0 then SetCustomEndFrameAsWritten(m, s, b.customEndFrame) else s;
    var s3 := if b.autoRepeat > 0 then SetAutoRepeat(s2, b.autoRepeat) else s2;
    if b.properties.Some? then AddUpdates(s3, b.properties.value) else s3
  }

  // -----------------------------------------------------------------------
  // Scheduling and the decode worker
  // -----------------------------------------------------------------------

  /** The guard of `scheduleNextGetFrame`. */
  predicate CanSchedule(s: State) {
    && s.native.nativePtr != 0
    && !s.tasks.loadFrameTask
    && s.bitmaps.next.None?
    && !s.flags.destroyWhenDone
    && (s.flags.isRunning || (s.flags.decodeSingleFrame && !s.flags.singleFrameDecoded))
  }

  /** What the scheduler hands over to the worker. */
  function HandOver(u: Updates): Updates {
    u.(pendingUpdates := u.pendingUpdates + u.newUpdates, newUpdates := [],
       pendingColors := if u.newColors.Some? then u.newColors else u.pendingColors,
       newColors := None)
  }

  /** `scheduleNextGetFrame`: when allowed, hands the queued property
      updates and colours to the worker and queues it. */
  function ScheduleNextGetFrame(s: State): (State, bool) {
    if !CanSchedule(s) then (s, false)
    else (s.(updates := HandOver(s.updates),
             tasks := s.tasks.(loadFrameTask := true, workerQueued := true)), true)
  }

  function Post(s: State, msg: UiMessage): State {
    s.(tasks := s.tasks.(posted := s.tasks.posted + [msg]))
  }

  /** What the worker applies to the native side before decoding. */
  function Apply(u: Updates): Updates {
    u.(appliedUpdates := u.appliedUpdates + u.pendingUpdates, pendingUpdates := [],
       appliedColors := if u.pendingColors.Some? then u.appliedColors + [u.pendingColors.value] else u.appliedColors,
       pendingColors := None)
  }

  /** The frame step with the drawable's parameters. */
  function Advance(m: Meta, p: Playback): Step {
    NextFrame(p.currentFrame, p.customEndFrame, p.playInDirection, FramesPerUpdate(m.shouldLimitFps),
              p.autoRepeat, p.autoRepeatPlayCount, m.totalFrames)
  }

  /** The decode itself, once a bitmap is at hand: `frameResult` is what the
      native getFrame returned, -1 when no frame was produced. */
  function Decode(m: Meta, s: State, frameResult: int): State
    requires s.bitmaps.background.Some?
  {
    var s1 := s.(updates := Apply(s.updates));
    if frameResult == -1 then Post(s1, NoFrame)
    else
      var s2 := if s1.tasks.createCache
                then s1.(tasks := s1.tasks.(posted := s1.tasks.posted + [GenerateCache], createCache := false))
                else s1;
      var st := Advance(m, s2.play);
      Post(s2.(bitmaps := s2.bitmaps.(next := s2.bitmaps.background),
               play := s2.play.(currentFrame := st.frame, nextFrameIsLast := st.last,
                                autoRepeatPlayCount := st.playCount)), FrameReady)
  }

  /** The decode worker past its recycled check. `alloc` is what
      `Bitmap.createBitmap` returned, None when it threw. */
  function LoadFrameLive(m: Meta, s: State, alloc: Option<Bitmap>, frameResult: int): State {
    if s.native.nativePtr == 0 then Post(s, NoFrame)
    else
      var s1 := if s.bitmaps.background.None? then s.(bitmaps := s.bitmaps.(background := alloc)) else s;
      if s1.bitmaps.background.None? then Post(s1, FrameReady)
      else Decode(m, s1, frameResult)
  }

  /** `loadFrameRunnable` as written: a recycled drawable returns without
      posting anything. */
  function LoadFrameAsWritten(m: Meta, s: State, alloc: Option<Bitmap>, frameResult: int): State
    requires s.tasks.workerQueued
  {
    var s0 := s.(tasks := s.tasks.(workerQueued := false));
    if s0.flags.isRecycled then s0 else LoadFrameLive(m, s0, alloc, frameResult)
  }

  /** `loadFrameRunnable` with the recycled exit posting the no-frame
      runnable, so that the pending task is cleared and a deferred recycle
      can finish. */
  function LoadFrame(m: Meta, s: State, alloc: Option<Bitmap>, frameResult: int): State
    requires s.tasks.workerQueued
  {
    var s0 := s.(tasks := s.tasks.(workerQueued := false));
    if s0.flags.isRecycled then Post(s0, NoFrame) else LoadFrameLive(m, s0, alloc, frameResult)
  }

  /** The body of the cache runnable on the executor. */
  function RunCacheTask(s: State): State
    requires s.tasks.cacheTask == CacheQueued
  {
    Post(s.(tasks := s.tasks.(cacheTask := CacheStarted)), CacheFinished)
  }

  // -----------------------------------------------------------------------
  // Completion on the UI thread
  // -----------------------------------------------------------------------

  /** `checkRunningTasks`: drops a cache task the executor has not started
      and a decoded frame nobody has shown. */
  function CheckRunningTasks(s: State): State {
    var s1 := if s.tasks.cacheTask == CacheQueued then s.(tasks := s.tasks.(cacheTask := NoCacheTask)) else s;
    if s1.bitmaps.next.Some? && s1.tasks.loadFrameTask
    then s1.(tasks := s1.tasks.(loadFrameTask := false), bitmaps := s1.bitmaps.(next := None))
    else s1
  }

  function DestroyHandle(h: Handle): Handle {
    Handle(0, h.destroyed + [h.nativePtr])
  }

  /** `recycleResources`: recycles the on-screen, then the background bitmap. */
  function RecycleResources(b: Bitmaps): (r: Bitmaps)
    ensures r.rendering.None? && r.background.None? && r.next == b.next
    ensures b.recycled <= r.recycled
  {
    var b1 := if b.rendering.Some? then b.(recycled := b.recycled + [b.rendering.value], rendering := None) else b;
    if b1.background.Some? then b1.(recycled := b1.recycled + [b1.background.value], background := None) else b1
  }

  /** Whether no decode and no cache task is pending. */
  predicate Idle(s: State) {
    !s.tasks.loadFrameTask && s.tasks.cacheTask == NoCacheTask
  }

  /** The release step of `decodeFrameFinishedInternal`. */
  function ReleaseIfIdle(s: State): State {
    var c := CheckRunningTasks(s);
    if Idle(c) && c.native.nativePtr != 0 then c.(native := DestroyHandle(c.native)) else c
  }

  /** `decodeFrameFinishedInternal`. */
  function DecodeFrameFinished(s: State): State {
    AfterRelease(if s.flags.destroyWhenDone then ReleaseIfIdle(s) else s)
  }

  /** The rest of `decodeFrameFinishedInternal`: recycle the bitmaps of a
      released drawable, otherwise schedule the next decode. */
  function AfterRelease(s: State): State {
    if s.native.nativePtr == 0 then s.(bitmaps := RecycleResources(s.bitmaps))
    else ScheduleNextGetFrame(s.(flags := s.flags.(waitingForNextTask := true))).0
  }

  /** The state a posted runnable changes before completing. */
  function Handled(s: State, msg: UiMessage): State {
    match msg
    case NoFrame => s.(tasks := s.tasks.(loadFrameTask := false))
    case FrameReady => s.(flags := s.flags.(singleFrameDecoded := true))
    case GenerateCache =>
      if !s.flags.isRecycled && !s.flags.destroyWhenDone && s.native.nativePtr != 0
      then s.(tasks := s.tasks.(cacheTask := CacheQueued)) else s
    case CacheFinished => s.(tasks := s.tasks.(cacheTask := NoCacheTask))
  }

  /** Runs the oldest posted runnable. */
  function Dispatch(s: State): State
    requires s.tasks.posted != []
  {
    DecodeFrameFinished(Handled(s.(tasks := s.tasks.(posted := s.tasks.posted[1..])), s.tasks.posted[0]))
  }

  // -----------------------------------------------------------------------
  // Public operations
  // -----------------------------------------------------------------------

  /** `recycle`: releases everything now when no task is pending, otherwise
      leaves it to the completion of the pending task. */
  function Recycle(s: State): State {
    var s1 := CheckRunningTasks(s.(flags := s.flags.(isRunning := false, isRecycled := true)));
    if Idle(s1)
    then s1.(native := if s1.native.nativePtr != 0 then DestroyHandle(s1.native) else s1.native,
             bitmaps := RecycleResources(s1.bitmaps))
    else s1.(flags := s1.flags.(destroyWhenDone := true))
  }

  /** `setAutoRepeat(int)`: hold mode (3) cannot replace play-once mode (2)
      in the middle of the animation. */
  function SetAutoRepeat(s: State, value: int): State {
    if s.play.autoRepeat == REPEAT_ONCE && value == REPEAT_HOLD && s.play.currentFrame != 0 then s
    else s.(play := s.play.(autoRepeat := value))
  }

  /** `setAutoRepeat(boolean)`. */
  function SetAutoRepeatEnabled(s: State, enabled: bool): State {
    SetAutoRepeat(s, if enabled then REPEAT_LOOP else 0)
  }

  /** `start`: refuses when running or when a counted repeat mode already
      finished a play. */
  function Start(s: State): State {
    if s.flags.isRunning || (s.play.autoRepeat >= REPEAT_ONCE && s.play.autoRepeatPlayCount != 0) then s
    else ScheduleNextGetFrame(s.(flags := s.flags.(isRunning := true))).0
  }

  /** `restart`: only after a counted repeat mode finished a play; resets
      the count, switches to play-once mode and starts. */
  function Restart(s: State): (State, bool) {
    if s.play.autoRepeat < REPEAT_ONCE || s.play.autoRepeatPlayCount == 0 then (s, false)
    else (Start(s.(play := s.play.(autoRepeatPlayCount := 0, autoRepeat := REPEAT_ONCE))), true)
  }

  function Stop(s: State): State {
    s.(flags := s.flags.(isRunning := false))
  }

  function SetPlayInDirectionOfCustomEndFrame(s: State, value: bool): State {
    s.(play := s.play.(playInDirection := value))
  }

  /** `setCustomEndFrame` as written: the guard tests the current end frame
      instead of the new one. */
  function SetCustomEndFrameAsWritten(m: Meta, s: State, frame: int): State {
    if s.play.customEndFrame > m.totalFrames then s else s.(play := s.play.(customEndFrame := frame))
  }

  /** `setCustomEndFrame` refusing an end frame beyond the animation. */
  function SetCustomEndFrame(m: Meta, s: State, frame: int): State {
    if frame > m.totalFrames then s else s.(play := s.play.(customEndFrame := frame))
  }

  /** `setAllowDecodeSingleFrame`: enabling it requests a decode. */
  function SetAllowDecodeSingleFrame(s: State, value: bool): State {
    var s1 := s.(flags := s.flags.(decodeSingleFrame := value));
    if value then ScheduleNextGetFrame(s1).0 else s1
  }

  function BeginApplyLayerProperties(s: State): State {
    s.(flags := s.flags.(applyingLayerColors := true))
  }

  /** Schedules a decode, forcing the next draw when none could be queued. */
  function ScheduleOrForce(s: State): State {
    var (s1, ok) := ScheduleNextGetFrame(s);
    if ok then s1 else s1.(flags := s1.flags.(forceFrameRedraw := true))
  }

  /** The redraw shared by `commitApplyLayerProperties` and `requestRedraw`
      for a stopped drawable that decodes single frames: frames 0 to 2 are
      redrawn from 0. */
  function RedrawStopped(s: State): State {
    ScheduleOrForce(s.(play := s.play.(currentFrame := if s.play.currentFrame <= 2 then 0 else s.play.currentFrame,
                                        nextFrameIsLast := false),
                       flags := s.flags.(singleFrameDecoded := false)))
  }

  function CommitApplyLayerProperties(s: State): State {
    if !s.flags.applyingLayerColors then s
    else
      var s1 := s.(flags := s.flags.(applyingLayerColors := false));
      if !s1.flags.isRunning && s1.flags.decodeSingleFrame then RedrawStopped(s1) else s1
  }

  function RequestRedraw(s: State): State {
    if !s.flags.applyingLayerColors && !s.flags.isRunning && s.flags.decodeSingleFrame then RedrawStopped(s) else s
  }

  /** `replaceColors`: the array may be null. */
  function ReplaceColors(s: State, colors: Option<seq<int>>): State {
    RequestRedraw(s.(updates := s.updates.(newColors := colors)))
  }

  function AddUpdates(s: State, us: seq<PropertyUpdate>): State {
    s.(updates := s.updates.(newUpdates := s.updates.newUpdates + us))
  }

  function SetLayerProperty(s: State, u: PropertyUpdate): State {
    RequestRedraw(AddUpdates(s, [u]))
  }

  function SetLayerProperties(s: State, us: seq<PropertyUpdate>): State {
    RequestRedraw(AddUpdates(s, us))
  }

  /** The decoded frame waiting to be shown is dropped and its bitmap
      becomes the background again. */
  function DropWaitingFrame(s: State): State {
    s.(bitmaps := s.bitmaps.(background := s.bitmaps.next, next := None),
       tasks := s.tasks.(loadFrameTask := false),
       flags := s.flags.(waitingForNextTask := false))
  }

  /** `setCurrentFrame(frame, async, resetFrame)`. A frame outside
      [0, totalFrames] is ignored. A synchronous or resetting seek drops a
      decoded frame that is waiting to be shown. */
  function SetCurrentFrame(m: Meta, s: State, frame: int, async: bool, reset: bool): State {
    if frame < 0 || frame > m.totalFrames then s
    else
      var s1 := s.(play := s.play.(currentFrame := frame, nextFrameIsLast := false),
                   flags := s.flags.(singleFrameDecoded := false));
      var s2 := if (!async || reset) && s1.flags.waitingForNextTask && s1.bitmaps.next.Some?
                then DropWaitingFrame(s1) else s1;
      ScheduleOrForce(s2)
  }

  /** `setCurrentFrame(frame, async)` as written: `async` is not passed on,
      the seek is always asynchronous. */
  function SetCurrentFrameAsyncAsWritten(m: Meta, s: State, frame: int, async: bool): State {
    SetCurrentFrame(m, s, frame, true, false)
  }

  /** `setCurrentFrame(frame, async)` passing `async` on. */
  function SetCurrentFrameAsync(m: Meta, s: State, frame: int, async: bool): State {
    SetCurrentFrame(m, s, frame, async, false)
  }

  /** Java's `/` on integers: truncation toward zero. */
  function JavaDiv(a: int, b: int): (q: int)
    requires b != 0
    ensures a >= 0 && b > 0 ==> q == a / b
    ensures a < 0 && b > 0 ==> q == -((-a) / b)
  {
    var q := (if a >= 0 then a else -a) / (if b >= 0 then b else -b);
    if (a >= 0) == (b >= 0) then q else -q
  }

  /** Java's `%` on integers: the remainder takes the sign of the dividend. */
  function JavaRem(a: int, b: int): (r: int)
    requires b != 0
    ensures a >= 0 && b > 0 ==> r == a % b
    ensures a < 0 && b > 0 ==> r == -((-a) % b)
  {
    var r := (if a >= 0 then a else -a) % (if b >= 0 then b else -b);
    if a >= 0 then r else -r
  }

  /** The frame `setProgressMs` seeks to: `(max(0, ms) / timeBetweenFrames)
      % totalFrames`; either divisor being zero throws. */
  function ProgressMsFrame(m: Meta, ms: int): (r: Result<int>)
    ensures r.Failure? <==> (m.timeBetweenFrames == 0 || m.totalFrames == 0)
    ensures r.Failure? ==> r.error == Arithmetic
    ensures r.Success? && m.timeBetweenFrames > 0 && m.totalFrames > 0 ==> 0 <= r.value < m.totalFrames
  {
    if m.timeBetweenFrames == 0 || m.totalFrames == 0 then Failure(Arithmetic)
    else
      var elapsed := if ms > 0 then ms else 0;
      Success(JavaRem(JavaDiv(elapsed, m.timeBetweenFrames), m.totalFrames))
  }

  /** `setProgressMs`: a resetting asynchronous seek. */
  function SetProgressMs(m: Meta, s: State, ms: int): (r: Result<State>)
    ensures r.Failure? <==> ProgressMsFrame(m, ms).Failure?
    ensures r.Success? ==> r.value == SetCurrentFrame(m, s, ProgressMsFrame(m, ms).value, true, true)
  {
    match ProgressMsFrame(m, ms)
    case Failure(e) => Failure(e)
    case Success(frame) => Success(SetCurrentFrame(m, s, frame, true, true))
  }

  /** The frame `setProgress` seeks to: the progress clamped to [0, 1]
      times the frame count, truncated. */
  function ProgressFrame(m: Meta, progress: real): (f: int)
    requires m.totalFrames >= 0
    ensures 0 <= f <= m.totalFrames
    ensures progress >= 1.0 ==> f == m.totalFrames
    ensures progress <= 0.0 ==> f == 0
  {
    var p := if progress < 0.0 then 0.0 else if progress > 1.0 then 1.0 else progress;
    assert 0.0 <= (m.totalFrames as real) * p <= m.totalFrames as real;
    ((m.totalFrames as real) * p).Floor
  }

  /** `setProgress(progress)`: an asynchronous seek through the
      two-argument form. */
  function SetProgress(m: Meta, s: State, progress: real): State
    requires m.totalFrames >= 0
  {
    SetCurrentFrameAsyncAsWritten(m, s, ProgressFrame(m, progress), true)
  }

  /** The private `setCurrentFrame(now, timeDiff, timeCheck, force)`:
      shows the decoded frame, keeps the old one as the next background,
      stops after the last frame, and schedules the next. */
  function ShowNextFrame(s: State, force: bool): State
    requires s.bitmaps.next.Some?
  {
    var b := s.bitmaps.(background := s.bitmaps.rendering, rendering := s.bitmaps.next, next := None);
    var f := s.flags.(isRunning := s.flags.isRunning && !s.play.nextFrameIsLast,
                      singleFrameDecoded := true, waitingForNextTask := false);
    var f1 := if force && f.forceFrameRedraw then f.(singleFrameDecoded := false, forceFrameRedraw := false) else f;
    ScheduleNextGetFrame(s.(bitmaps := b, flags := f1, tasks := s.tasks.(loadFrameTask := false))).0
  }

  /** `draw`, apart from the painting. `due` says whether the frame time
      has elapsed since the last frame was shown. */
  function Draw(s: State, due: bool): State {
    if s.native.nativePtr == 0 || s.flags.destroyWhenDone then s
    else if s.flags.isRunning then
      if s.bitmaps.rendering.None? && s.bitmaps.next.None? then ScheduleNextGetFrame(s).0
      else if s.bitmaps.next.Some? && (s.bitmaps.rendering.None? || due) then ShowNextFrame(s, false)
      else s
    else if (s.flags.forceFrameRedraw || (s.flags.decodeSingleFrame && due)) && s.bitmaps.next.Some?
    then ShowNextFrame(s, true)
    else s
  }

  // -----------------------------------------------------------------------
  // Properties
  // -----------------------------------------------------------------------

  /** Scheduling succeeds exactly when its guard holds; then the worker is
      queued with every update submitted so far, otherwise nothing
      changes. In particular a second decode is never queued while one is
      pending. */
  lemma ScheduleMeaning(m: Meta, s: State)
    requires Inv(m, s)
    ensures var (t, ok) := ScheduleNextGetFrame(s);
      && (ok <==> CanSchedule(s))
      && (s.tasks.loadFrameTask ==> !ok)
      && (!ok ==> t == s)
      && (ok ==> t.tasks.workerQueued && t.tasks.loadFrameTask && t.updates.newUpdates == []
                 && t.updates.pendingUpdates == s.updates.pendingUpdates + s.updates.newUpdates)
      && t.native == s.native && t.bitmaps == s.bitmaps && t.flags == s.flags && t.play == s.play
      && History(t) == History(s)
      && Inv(m, t)
  {
    var (t, ok) := ScheduleNextGetFrame(s);
    if ok {
      assert History(t) == s.updates.appliedUpdates + (s.updates.pendingUpdates + s.updates.newUpdates) + [];
    }
  }

  /** The decode keeps the invariant when the background bitmap is not
      on screen, and applies exactly the pending updates. */
  lemma DecodeKeepsInv(m: Meta, s: State, frameResult: int)
    requires Inv(m, s) && !s.tasks.workerQueued && s.bitmaps.background.Some?
    requires s.bitmaps.next.None? && NoFrame !in s.tasks.posted && s.tasks.loadFrameTask
    ensures var t := Decode(m, s, frameResult);
      && Inv(m, t) && History(t) == History(s) && !t.tasks.workerQueued
      && (t.bitmaps.next.Some? ==> t.bitmaps.next == t.bitmaps.background)
      && t.bitmaps.rendering == s.bitmaps.rendering
      && |t.tasks.posted| > |s.tasks.posted| && t.tasks.posted[..|s.tasks.posted|] == s.tasks.posted
  {
    var s1 := s.(updates := Apply(s.updates));
    assert History(s1) == s.updates.appliedUpdates + s.updates.pendingUpdates + [] + s.updates.newUpdates;
    if frameResult != -1 {
      var s2 := if s1.tasks.createCache
                then s1.(tasks := s1.tasks.(posted := s1.tasks.posted + [GenerateCache], createCache := false))
                else s1;
      assert NoFrame !in s2.tasks.posted;
      var t := Decode(m, s, frameResult);
      assert t.tasks.posted == s2.tasks.posted + [FrameReady];
      assert NoFrame !in t.tasks.posted;
    } else {
      var t := Decode(m, s, frameResult);
      assert t.tasks.posted == s.tasks.posted + [NoFrame];
      assert multiset(t.tasks.posted)[NoFrame] == multiset(s.tasks.posted)[NoFrame] + 1;
    }
  }

  /** The worker keeps the invariant when a fresh allocation is not the
      bitmap on screen, applies exactly the pending updates, and never
      decodes into the bitmap on screen. */
  lemma LoadFrameKeepsInv(m: Meta, s: State, alloc: Option<Bitmap>, frameResult: int)
    requires Inv(m, s) && s.tasks.workerQueued
    requires alloc.Some? ==> alloc != s.bitmaps.rendering
    ensures var t := LoadFrame(m, s, alloc, frameResult);
      && Inv(m, t)
      && History(t) == History(s)
      && !t.tasks.workerQueued
      && (t.bitmaps.next.Some? ==> t.bitmaps.next == t.bitmaps.background)
      && t.bitmaps.rendering == s.bitmaps.rendering
      && |t.tasks.posted| > |s.tasks.posted| && t.tasks.posted[..|s.tasks.posted|] == s.tasks.posted
  {
    var s0 := s.(tasks := s.tasks.(workerQueued := false));
    assert NoFrame !in s.tasks.posted;
    assert multiset(s.tasks.posted)[NoFrame] == 0;
    if s0.flags.isRecycled || s0.native.nativePtr == 0 {
      var t := Post(s0, NoFrame);
      assert multiset(t.tasks.posted)[NoFrame] == 1;
    } else {
      var s1 := if s0.bitmaps.background.None? then s0.(bitmaps := s0.bitmaps.(background := alloc)) else s0;
      if s1.bitmaps.background.Some? {
        DecodeKeepsInv(m, s1, frameResult);
      } else {
        assert NoFrame !in Post(s1, FrameReady).tasks.posted;
      }
    }
  }

  /** The worker as written keeps the invariant too. On a recycled
      drawable it only leaves the pool, posting nothing; otherwise it is
      the worker above. */
  lemma LoadFrameAsWrittenKeepsInv(m: Meta, s: State, alloc: Option<Bitmap>, frameResult: int)
    requires Inv(m, s) && s.tasks.workerQueued
    requires alloc.Some? ==> alloc != s.bitmaps.rendering
    ensures var t := LoadFrameAsWritten(m, s, alloc, frameResult);
      && Inv(m, t)
      && History(t) == History(s)
      && !t.tasks.workerQueued
      && (t.bitmaps.next.Some? ==> t.bitmaps.next == t.bitmaps.background)
      && t.bitmaps.rendering == s.bitmaps.rendering
      && |t.tasks.posted| >= |s.tasks.posted| && t.tasks.posted[..|s.tasks.posted|] == s.tasks.posted
      && (s.flags.isRecycled ==> t == s.(tasks := s.tasks.(workerQueued := false)))
      && (!s.flags.isRecycled ==> t == LoadFrame(m, s, alloc, frameResult))
  {
    LoadFrameKeepsInv(m, s, alloc, frameResult);
    assert NoFrame !in s.tasks.posted;
  }

  /** A successful decode advances the frame by the step rule, offers the
      decoded bitmap for display and posts the frame-ready runnable, after
      the cache request when the animation still needs a cache. */
  lemma LoadFrameSuccess(m: Meta, s: State, alloc: Option<Bitmap>, frameResult: int)
    requires s.tasks.workerQueued && !s.flags.isRecycled && s.native.nativePtr != 0
    requires s.bitmaps.background.Some? || alloc.Some?
    requires frameResult != -1
    ensures var t := LoadFrameAsWritten(m, s, alloc, frameResult);
      var st := Advance(m, s.play);
      && t.play.currentFrame == st.frame && t.play.nextFrameIsLast == st.last
      && t.play.autoRepeatPlayCount == st.playCount
      && t.bitmaps.next == (if s.bitmaps.background.Some? then s.bitmaps.background else alloc)
      && t.tasks.posted == s.tasks.posted + (if s.tasks.createCache then [GenerateCache, FrameReady] else [FrameReady])
      && !t.tasks.createCache
      && t.updates.pendingUpdates == [] && t.updates.appliedUpdates == s.updates.appliedUpdates + s.updates.pendingUpdates
  {
    if s.tasks.createCache {
      assert s.tasks.posted + [GenerateCache] + [FrameReady] == s.tasks.posted + [GenerateCache, FrameReady];
    }
  }

  /** A failed decode leaves the frame and the bitmaps as they were and
      posts the no-frame runnable, whose completion clears the pending
      task. */
  lemma LoadFrameFailure(m: Meta, s: State, alloc: Option<Bitmap>)
    requires Inv(m, s) && s.tasks.workerQueued && !s.flags.isRecycled && s.native.nativePtr != 0
    requires s.bitmaps.background.Some? || alloc.Some?
    ensures var t := LoadFrameAsWritten(m, s, alloc, -1);
      && t.play.currentFrame == s.play.currentFrame && t.bitmaps.next == s.bitmaps.next
      && t.tasks.posted == s.tasks.posted + [NoFrame]
    ensures s.tasks.posted == [] ==> Dispatch(LoadFrameAsWritten(m, s, alloc, -1)).tasks.workerQueued
                                     || !Dispatch(LoadFrameAsWritten(m, s, alloc, -1)).tasks.loadFrameTask
  {
  }

  /** Completion keeps the invariant; a drawable waiting to be destroyed
      whose tasks are all done is destroyed, and a destroyed one has its
      bitmaps recycled. */
  lemma FinishKeepsInv(m: Meta, s: State)
    requires Inv(m, s)
    ensures var t := DecodeFrameFinished(s);
      && Inv(m, t) && History(t) == History(s)
      && (s.flags.destroyWhenDone && Idle(CheckRunningTasks(s)) ==>
            t.native.nativePtr == 0 && t.native.destroyed == Released(m.handle))
      && (t.native.nativePtr == 0 ==> t.bitmaps.rendering.None? && t.bitmaps.background.None?)
  {
    if s.flags.destroyWhenDone {
      ReleaseIfIdleMeaning(m, s);
    }
    AfterReleaseKeepsInv(m, if s.flags.destroyWhenDone then ReleaseIfIdle(s) else s);
  }

  /** Recycling or scheduling after the release step keeps the invariant,
      the history and the handle. */
  lemma AfterReleaseKeepsInv(m: Meta, s: State)
    requires Inv(m, s)
    ensures var t := AfterRelease(s);
      && Inv(m, t) && History(t) == History(s) && t.native == s.native
      && (t.native.nativePtr == 0 ==> t.bitmaps.rendering.None? && t.bitmaps.background.None?)
  {
    if s.native.nativePtr != 0 {
      ScheduleMeaning(m, s.(flags := s.flags.(waitingForNextTask := true)));
    }
  }

  /** The release step keeps the invariant, the flags and the history, and
      destroys the handle exactly when no task is left. */
  lemma ReleaseIfIdleMeaning(m: Meta, s: State)
    requires Inv(m, s)
    ensures var t := ReleaseIfIdle(s);
      && Inv(m, t) && History(t) == History(s) && t.flags == s.flags
      && (Idle(CheckRunningTasks(s)) ==> t.native.nativePtr == 0 && t.native.destroyed == Released(m.handle))
  {
    var c := CheckRunningTasks(s);
    assert Inv(m, c);
  }

  /** The state change of a posted runnable keeps the invariant. */
  lemma HandledKeepsInv(m: Meta, s: State)
    requires Inv(m, s) && s.tasks.posted != []
    ensures var t := s.(tasks := s.tasks.(posted := s.tasks.posted[1..]));
      Inv(m, Handled(t, s.tasks.posted[0])) && History(Handled(t, s.tasks.posted[0])) == History(s)
  {
    var p := s.tasks.posted;
    assert p == [p[0]] + p[1..];
    assert multiset(p) == multiset{p[0]} + multiset(p[1..]);
    var t := s.(tasks := s.tasks.(posted := p[1..]));
    if p[0] == NoFrame {
      assert multiset(p[1..])[NoFrame] == 0;
      assert NoFrame !in p[1..];
    } else {
      assert multiset(p[1..])[NoFrame] == multiset(p)[NoFrame];
      assert NoFrame in p[1..] <==> NoFrame in p;
    }
  }

  /** The UI messages keep the invariant and the update history. */
  lemma DispatchKeepsInv(m: Meta, s: State)
    requires Inv(m, s) && s.tasks.posted != []
    ensures Inv(m, Dispatch(s)) && History(Dispatch(s)) == History(s)
  {
    HandledKeepsInv(m, s);
    FinishKeepsInv(m, Handled(s.(tasks := s.tasks.(posted := s.tasks.posted[1..])), s.tasks.posted[0]));
  }

  /** Recycling keeps the invariant. When no task is pending the handle is
      destroyed and the bitmaps recycled at once; otherwise the drawable
      waits to be destroyed and can no longer schedule. */
  lemma RecycleMeaning(m: Meta, s: State)
    requires Inv(m, s)
    ensures var t := Recycle(s);
      && Inv(m, t) && History(t) == History(s)
      && t.flags.isRecycled && !t.flags.isRunning
      && (t.flags.destroyWhenDone || (t.native.nativePtr == 0 && t.native.destroyed == Released(m.handle)
                                      && t.bitmaps.rendering.None? && t.bitmaps.background.None?))
      && (t.flags.destroyWhenDone ==> !CanSchedule(t))
  {
  }

  /** The native handle is destroyed at most once, whatever happens. */
  lemma DestroyedAtMostOnce(m: Meta, s: State)
    requires Inv(m, s)
    ensures |s.native.destroyed| <= 1
    ensures forall i :: 0 <= i < |s.native.destroyed| ==> s.native.destroyed[i] == m.handle && m.handle != 0
  {
  }

  /** Showing a decoded frame keeps the invariant: the old on-screen bitmap
      becomes the background and the decoded one goes on screen. */
  lemma ShowNextFrameKeepsInv(m: Meta, s: State, force: bool)
    requires Inv(m, s) && s.bitmaps.next.Some?
    ensures var t := ShowNextFrame(s, force);
      && Inv(m, t) && History(t) == History(s)
      && t.bitmaps.rendering == s.bitmaps.next
      && t.bitmaps.background == s.bitmaps.rendering
      && (s.play.nextFrameIsLast ==> !t.flags.isRunning)
      && !t.flags.waitingForNextTask
  {
    var b := s.bitmaps.(background := s.bitmaps.rendering, rendering := s.bitmaps.next, next := None);
    var f := s.flags.(isRunning := s.flags.isRunning && !s.play.nextFrameIsLast,
                      singleFrameDecoded := true, waitingForNextTask := false);
    var f1 := if force && f.forceFrameRedraw then f.(singleFrameDecoded := false, forceFrameRedraw := false) else f;
    ScheduleMeaning(m, s.(bitmaps := b, flags := f1, tasks := s.tasks.(loadFrameTask := false)));
  }

  /** Drawing keeps the invariant and changes nothing once the handle is
      gone or waits to be destroyed. */
  lemma DrawKeepsInv(m: Meta, s: State, due: bool)
    requires Inv(m, s)
    ensures Inv(m, Draw(s, due)) && History(Draw(s, due)) == History(s)
    ensures s.native.nativePtr == 0 || s.flags.destroyWhenDone ==> Draw(s, due) == s
  {
    if s.native.nativePtr != 0 && !s.flags.destroyWhenDone {
      if s.flags.isRunning {
        if s.bitmaps.rendering.None? && s.bitmaps.next.None? {
          ScheduleMeaning(m, s);
        } else if s.bitmaps.next.Some? && (s.bitmaps.rendering.None? || due) {
          ShowNextFrameKeepsInv(m, s, false);
        }
      } else if (s.flags.forceFrameRedraw || (s.flags.decodeSingleFrame && due)) && s.bitmaps.next.Some? {
        ShowNextFrameKeepsInv(m, s, true);
      }
    }
  }

  /** Scheduling with the forced-redraw fallback keeps the invariant, and
      afterwards either a decode is queued or the next draw is forced. */
  lemma ScheduleOrForceMeaning(m: Meta, s: State)
    requires Inv(m, s)
    ensures var t := ScheduleOrForce(s);
      Inv(m, t) && History(t) == History(s) && t.play == s.play
      && (t.tasks.workerQueued || t.flags.forceFrameRedraw)
      && (CanSchedule(s) <==> t.tasks.workerQueued && !s.tasks.loadFrameTask)
  {
    ScheduleMeaning(m, s);
  }

  /** A seek outside [0, totalFrames] changes nothing; an accepted one sets
      the frame, and then either a decode is queued or the next draw is
      forced. */
  lemma SeekMeaning(m: Meta, s: State, frame: int, async: bool, reset: bool)
    requires Inv(m, s)
    ensures var t := SetCurrentFrame(m, s, frame, async, reset);
      && Inv(m, t) && History(t) == History(s)
      && (frame < 0 || frame > m.totalFrames ==> t == s)
      && (0 <= frame <= m.totalFrames ==>
            t.play.currentFrame == frame && !t.play.nextFrameIsLast
            && (t.tasks.workerQueued || t.flags.forceFrameRedraw))
  {
    if 0 <= frame <= m.totalFrames {
      var s1 := s.(play := s.play.(currentFrame := frame, nextFrameIsLast := false),
                   flags := s.flags.(singleFrameDecoded := false));
      assert Inv(m, s1) && History(s1) == History(s);
      var s2 := if (!async || reset) && s1.flags.waitingForNextTask && s1.bitmaps.next.Some?
                then DropWaitingFrame(s1) else s1;
      if s1.bitmaps.next.Some? {
        DropWaitingFrameKeepsInv(m, s1);
      }
      ScheduleOrForceMeaning(m, s2);
    }
  }

  /** Dropping the decoded frame keeps the invariant, the playback and the
      history. */
  lemma DropWaitingFrameKeepsInv(m: Meta, s: State)
    requires Inv(m, s) && s.bitmaps.next.Some?
    ensures var t := DropWaitingFrame(s);
      Inv(m, t) && History(t) == History(s) && t.play == s.play
  {
    assert NoFrame !in s.tasks.posted;
  }

  /** Every property update given to the setters ends up in the history,
      after the earlier ones, and nothing else is added. */
  lemma PropertyUpdatesKept(m: Meta, s: State, us: seq<PropertyUpdate>)
    requires Inv(m, s)
    ensures Inv(m, SetLayerProperties(s, us))
    ensures History(SetLayerProperties(s, us)) == History(s) + us
  {
    var s0 := AddUpdates(s, us);
    assert History(s0) == History(s) + us;
    if !s0.flags.applyingLayerColors && !s0.flags.isRunning && s0.flags.decodeSingleFrame {
      ScheduleOrForceMeaning(m, s0.(play := s0.play.(currentFrame := if s0.play.currentFrame <= 2 then 0 else s0.play.currentFrame,
                                                      nextFrameIsLast := false),
                                    flags := s0.flags.(singleFrameDecoded := false)));
    }
  }

  /** Enabling single-frame decoding keeps the invariant and requests a
      decode when one can be scheduled. */
  lemma SetAllowDecodeSingleFrameKeepsInv(m: Meta, s: State, value: bool)
    requires Inv(m, s)
    ensures var t := SetAllowDecodeSingleFrame(s, value);
      Inv(m, t) && History(t) == History(s) && t.flags.decodeSingleFrame == value
      && (value && CanSchedule(s.(flags := s.flags.(decodeSingleFrame := true))) ==> t.tasks.workerQueued)
  {
    ScheduleMeaning(m, s.(flags := s.flags.(decodeSingleFrame := value)));
  }

  /** Starting keeps the invariant; a start that is not refused leaves the
      drawable running. */
  lemma StartKeepsInv(m: Meta, s: State)
    requires Inv(m, s)
    ensures var t := Start(s);
      Inv(m, t) && History(t) == History(s)
      && (s.play.autoRepeat < REPEAT_ONCE || s.play.autoRepeatPlayCount == 0 ==> t.flags.isRunning)
  {
    ScheduleMeaning(m, s.(flags := s.flags.(isRunning := true)));
  }

  /** The loaded drawable satisfies the invariant with nothing queued. */
  lemma LoadedKeepsInv(b: Builder, m: Meta, n: NativeLoad, cachedJson: bool)
    ensures Inv(m, Loaded(b, m, n, cachedJson)) && History(Loaded(b, m, n, cachedJson)) == []
  {
  }

  /** Changing only the playback fields keeps the invariant and the
      history. */
  lemma PlaybackChangeKeepsInv(m: Meta, s: State, p: Playback)
    requires Inv(m, s)
    ensures Inv(m, s.(play := p)) && History(s.(play := p)) == History(s)
  {
  }

  /** Queuing updates keeps the invariant and extends the history. */
  lemma AddUpdatesKeepsInv(m: Meta, s: State, us: seq<PropertyUpdate>)
    requires Inv(m, s)
    ensures Inv(m, AddUpdates(s, us)) && History(AddUpdates(s, us)) == History(s) + us
  {
  }

  /** The builder settings keep the invariant and queue the builder's
      properties after the updates already queued. */
  lemma ConfigureKeepsInv(b: Builder, m: Meta, s: State)
    requires Inv(m, s)
    ensures Inv(m, Configure(b, m, s)) && History(Configure(b, m, s)) == History(s) + b.properties.GetOr([])
  {
    var s2 := if b.customEndFrame > 0 then SetCustomEndFrameAsWritten(m, s, b.customEndFrame) else s;
    assert s2 == s.(play := s2.play);
    PlaybackChangeKeepsInv(m, s, s2.play);
    var s3 := if b.autoRepeat > 0 then SetAutoRepeat(s2, b.autoRepeat) else s2;
    assert s3 == s2.(play := s3.play);
    PlaybackChangeKeepsInv(m, s2, s3.play);
    AddUpdatesKeepsInv(m, s3, b.properties.GetOr([]));
    if b.properties.None? {
      assert History(s3) + [] == History(s3);
    }
  }

  /** The builder's end frame reaches the drawable whatever the frame
      count, a URL builder's included: the setter's guard reads the field,
      still -1 after loading. */
  lemma InitialEndFrame(b: Builder, m: Meta, n: NativeLoad, cachedJson: bool)
    ensures m.totalFrames >= -1 ==>
              Initial(b, m, n, cachedJson).play.customEndFrame == if b.customEndFrame > 0 then b.customEndFrame else -1
  {
  }

  /** The drawable as built satisfies the invariant, and holds the
      builder's properties as its first queued updates. */
  lemma InitialKeepsInv(b: Builder, m: Meta, n: NativeLoad, cachedJson: bool)
    ensures Inv(m, Initial(b, m, n, cachedJson))
    ensures History(Initial(b, m, n, cachedJson)) == b.properties.GetOr([])
  {
    var s0 := Loaded(b, m, n, cachedJson);
    LoadedKeepsInv(b, m, n, cachedJson);
    FirstDecodeKeepsInv(b, m, s0, cachedJson);
    var s1 := FirstDecode(b, s0, cachedJson);
    ConfigureKeepsInv(b, m, s1);
    var s2 := Configure(b, m, s1);
    assert History(s2) == b.properties.GetOr([]) by {
      assert History(s1) == [];
      assert [] + b.properties.GetOr([]) == b.properties.GetOr([]);
    }
    var t := if b.autoStart then Start(s2) else s2;
    if b.autoStart {
      StartKeepsInv(m, s2);
    }
    assert Initial(b, m, n, cachedJson) == t;
  }

  /** The first decode of a drawable loaded from JSON keeps the invariant
      and the history. */
  lemma FirstDecodeKeepsInv(b: Builder, m: Meta, s: State, cachedJson: bool)
    requires Inv(m, s)
    ensures Inv(m, FirstDecode(b, s, cachedJson)) && History(FirstDecode(b, s, cachedJson)) == History(s)
  {
    SetAllowDecodeSingleFrameKeepsInv(m, s, true);
  }

  /** After a play-once pass has finished (a play counted), `start` does
      nothing until `restart` clears the count; `restart` then starts the
      animation again in play-once mode. */
  lemma RestartAfterPlayOnce(m: Meta, s: State)
    requires Inv(m, s) && s.play.autoRepeat == REPEAT_ONCE && s.play.autoRepeatPlayCount != 0
    ensures Start(s) == s
    ensures var (t, ok) := Restart(s);
      ok && t.play.autoRepeat == REPEAT_ONCE && t.play.autoRepeatPlayCount == 0 && Inv(m, t)
      && (!s.flags.isRunning ==> t.flags.isRunning)
  {
    var s1 := s.(play := s.play.(autoRepeatPlayCount := 0, autoRepeat := REPEAT_ONCE));
    if !s1.flags.isRunning {
      ScheduleMeaning(m, s1.(flags := s1.flags.(isRunning := true)));
    }
  }

  /** Repeat mode 3 cannot replace mode 2 except at frame 0; every other
      change of mode is taken and nothing else changes. */
  lemma SetAutoRepeatGuard(s: State, value: int)
    ensures SetAutoRepeat(s, value).play.autoRepeat ==
            (if s.play.autoRepeat == REPEAT_ONCE && value == REPEAT_HOLD && s.play.currentFrame != 0
             then s.play.autoRepeat else value)
    ensures SetAutoRepeat(s, value) == s.(play := s.play.(autoRepeat := SetAutoRepeat(s, value).play.autoRepeat))
    ensures SetAutoRepeatEnabled(s, true).play.autoRepeat == REPEAT_LOOP
    ensures SetAutoRepeatEnabled(s, false).play.autoRepeat == 0
  {
  }

  /** A seek by time lands inside the animation. */
  lemma ProgressMsInRange(m: Meta, s: State, ms: int)
    requires Inv(m, s) && m.timeBetweenFrames > 0 && m.totalFrames > 0
    ensures SetProgressMs(m, s, ms).Success?
    ensures SetProgressMs(m, s, ms).value.play.currentFrame == ProgressMsFrame(m, ms).value
    ensures 0 <= SetProgressMs(m, s, ms).value.play.currentFrame < m.totalFrames
  {
    SeekMeaning(m, s, ProgressMsFrame(m, ms).value, true, true);
  }

  // -----------------------------------------------------------------------
  // Findings
  // -----------------------------------------------------------------------

  /** A drawable recycled while its decode was queued, after the as-written
      worker ran: nothing is posted, the decode task stays pending for ever and
      the handle is live. */
  predicate Stranded(s: State) {
    && s.flags.destroyWhenDone && s.tasks.loadFrameTask && s.bitmaps.next.None?
    && !s.tasks.workerQueued && s.tasks.posted == [] && s.tasks.cacheTask == NoCacheTask
    && s.native.nativePtr != 0
  }

  /** As written, recycling a drawable whose decode is queued strands it:
      the worker returns silently and no completion ever runs. */
  lemma RecycleWhileQueuedLeaksAsWritten(m: Meta, s: State, alloc: Option<Bitmap>, frameResult: int)
    requires Inv(m, s) && s.tasks.workerQueued && s.tasks.posted == [] && s.tasks.cacheTask == NoCacheTask
    requires s.native.nativePtr != 0
    ensures Recycle(s).tasks.workerQueued && Recycle(s).flags.destroyWhenDone
    ensures Stranded(LoadFrameAsWritten(m, Recycle(s), alloc, frameResult))
  {
  }

  /** A stranded drawable stays stranded: drawing changes nothing, a second
      recycle leaves the handle live, and no decode can be scheduled, so
      the native handle is never destroyed. */
  lemma StrandedStaysStranded(s: State, due: bool)
    requires Stranded(s)
    ensures Draw(s, due) == s
    ensures Stranded(Recycle(s))
    ensures !CanSchedule(s)
  {
  }

  /** With the worker posting the no-frame runnable when recycled, the
      same sequence ends with the handle destroyed once and the bitmaps
      recycled. */
  lemma RecycleWhileQueuedReleases(m: Meta, s: State, alloc: Option<Bitmap>, frameResult: int)
    requires Inv(m, s) && s.tasks.workerQueued && s.tasks.posted == [] && s.tasks.cacheTask == NoCacheTask
    ensures var w := LoadFrame(m, Recycle(s), alloc, frameResult);
      && w.tasks.posted == [NoFrame]
      && var t := Dispatch(w);
         t.native.nativePtr == 0 && t.native.destroyed == Released(m.handle)
         && t.bitmaps.rendering.None? && t.bitmaps.background.None? && t.tasks.posted == []
         && !t.tasks.loadFrameTask
  {
  }

  /** As written, an end frame beyond the animation is accepted and then
      locks the setting: a later, valid end frame is ignored. */
  lemma CustomEndFrameLockAsWritten(s: State)
    requires s.play.customEndFrame == -1
    ensures var m := Meta(1, 100, 30, 33, false);
      var t := SetCustomEndFrameAsWritten(m, s, 200);
      t.play.customEndFrame == 200 && SetCustomEndFrameAsWritten(m, t, 50).play.customEndFrame == 200
  {
  }

  /** With the guard on the new value, the end frame stays within the frame
      count when it was, a valid value is always taken, and an invalid one
      changes nothing. */
  lemma CustomEndFrameBounded(m: Meta, s: State, frame: int)
    ensures s.play.customEndFrame <= m.totalFrames ==>
              SetCustomEndFrame(m, s, frame).play.customEndFrame <= m.totalFrames
    ensures frame <= m.totalFrames ==> SetCustomEndFrame(m, s, frame).play.customEndFrame == frame
    ensures frame > m.totalFrames ==> SetCustomEndFrame(m, s, frame) == s
  {
  }

  /** As written, a synchronous two-argument seek behaves as an
      asynchronous one: the decoded frame waiting to be shown survives it,
      so the frame from before the seek is shown next. */
  lemma SyncSeekKeepsStaleFrameAsWritten(m: Meta, s: State, frame: int)
    requires Inv(m, s) && 0 <= frame <= m.totalFrames
    requires s.flags.waitingForNextTask && s.bitmaps.next.Some?
    ensures SetCurrentFrameAsyncAsWritten(m, s, frame, false).bitmaps.next == s.bitmaps.next
  {
  }

  /** Passing `async` on, a synchronous seek drops the stale decoded frame;
      then a decode of the requested frame is queued or the next draw is
      forced. */
  lemma SyncSeekDropsStaleFrame(m: Meta, s: State, frame: int)
    requires Inv(m, s) && 0 <= frame <= m.totalFrames
    requires s.flags.waitingForNextTask && s.bitmaps.next.Some?
    ensures var t := SetCurrentFrameAsync(m, s, frame, false);
      && t.bitmaps.background == s.bitmaps.next
      && t.play.currentFrame == frame
      && (t.tasks.workerQueued || t.flags.forceFrameRedraw)
  {
    var s1 := s.(play := s.play.(currentFrame := frame, nextFrameIsLast := false),
                 flags := s.flags.(singleFrameDecoded := false));
    ScheduleOrForceMeaning(m, DropWaitingFrame(s1));
  }
}
