/** AXrLottieDrawable as a class whose fields the methods update in place.
    Every method is proved to move the fields exactly as the matching
    transition of module DrawableModel does, and to keep its invariant;
    what the transitions mean is proved there. */
module Drawables {
  import opened Wrappers
  import opened Builders
  import FrameStep
  import M = DrawableModel

  class LottieDrawable {
    // fixed once the animation is loaded: the handle the loader returned,
    // metaData[0] and metaData[1], and the derived timing fields
    const loadedHandle: int
    const totalFrames: int
    const frameRate: int
    const timeBetweenFrames: int
    const shouldLimitFps: bool

    // The Java fields, in the six groups of DrawableModel.State, each
    // group keeping the Java names: the native handle (`nativePtr` and
    // the handles passed to destroy); playback (`currentFrame`,
    // `nextFrameIsLast`, `customEndFrame`, ...); the boolean flags; the
    // three bitmap slots; the pending tasks and the UI handler's queue;
    // the property updates and colour tables.
    var native: M.Handle
    var play: M.Playback
    var flags: M.Flags
    var bitmaps: M.Bitmaps
    var tasks: M.Tasks
    var updates: M.Updates

    function Meta(): M.Meta {
      M.Meta(loadedHandle, totalFrames, frameRate, timeBetweenFrames, shouldLimitFps)
    }

    /** The fields as a value of the transition model. */
    function State(): M.State
      reads this
    {
      M.State(native, play, flags, bitmaps, tasks, updates)
    }

    ghost predicate Valid()
      reads this
    {
      M.Inv(Meta(), State())
    }

    /** The constructor, with `n` standing for what the native loader
        returned and `cachedJson` for whether a cached copy of the JSON
        exists. */
    constructor (b: Builder, n: M.NativeLoad, cachedJson: bool)
      ensures Meta() == M.InitialMeta(b, n, cachedJson)
      ensures State() == M.Initial(b, Meta(), n, cachedJson)
      ensures Valid()
    {
      var fromFile := M.LoadsFromFile(b, cachedJson);
      // initFromFile, initFromJson, or nothing yet for a URL
      var m := M.InitialMeta(b, n, cachedJson);
      loadedHandle, totalFrames, frameRate := m.handle, m.totalFrames, m.frameRate;
      timeBetweenFrames, shouldLimitFps := m.timeBetweenFrames, m.shouldLimitFps;
      native := M.Handle(loadedHandle, []);
      play := M.Playback(0, false, -1, false,
                         if b.source.JsonSource? && !fromFile then 0 else FrameStep.REPEAT_LOOP, 0);
      flags := M.Flags(false, false, false, false, false, false, false, false);
      bitmaps := M.Bitmaps(None, None, None, []);
      tasks := M.Tasks(false, false, M.NoCacheTask, !b.source.UrlSource? && n.createCache, []);
      updates := M.Updates([], [], [], None, None, []);
      new;
      ghost var s0 := State();
      assert s0 == M.Loaded(b, Meta(), n, cachedJson);
      M.LoadedKeepsInv(b, Meta(), n, cachedJson);
      if b.source.JsonSource? && !fromFile && b.startDecode {
        SetAllowDecodeSingleFrame(true);
      }
      ghost var s1 := State();
      assert s1 == M.FirstDecode(b, s0, cachedJson);
      ApplyBuilder(b);
      if b.autoStart {
        Start();
      }
    }

    /** The builder settings the constructor applies after loading: end
        frame, repeat mode and properties. */
    method ApplyBuilder(b: Builder)
      requires Valid()
      modifies this
      ensures State() == M.Configure(b, Meta(), old(State()))
      ensures Valid()
    {
      M.ConfigureKeepsInv(b, Meta(), State());
      if b.customEndFrame > 0 {
        SetCustomEndFrame(b.customEndFrame);
      }
      if b.autoRepeat > 0 {
        SetAutoRepeat(b.autoRepeat);
      }
      if b.properties.Some? {
        updates := updates.(newUpdates := updates.newUpdates + b.properties.value);
      }
    }

    /** `hasLoaded`. */
    function HasLoaded(): (r: bool)
      reads this
      ensures r <==> native.nativePtr != 0
    {
      native.nativePtr != 0
    }

    method ScheduleNextGetFrame() returns (ok: bool)
      modifies this
      ensures (State(), ok) == M.ScheduleNextGetFrame(old(State()))
    {
      if native.nativePtr == 0 || tasks.loadFrameTask || bitmaps.next.Some? || flags.destroyWhenDone
         || (!flags.isRunning && (!flags.decodeSingleFrame || flags.singleFrameDecoded)) {
        return false;
      }
      updates := updates.(pendingUpdates := updates.pendingUpdates + updates.newUpdates, newUpdates := []);
      if updates.newColors.Some? {
        updates := updates.(pendingColors := updates.newColors, newColors := None);
      }
      tasks := tasks.(loadFrameTask := true, workerQueued := true);
      ok := true;
    }

    /** `loadFrameRunnable` on the worker. `alloc` is what
        Bitmap.createBitmap gave (None when it threw) and `frameResult`
        what the native getFrame returned. A recycled drawable returns
        without posting anything. */
    method LoadFrameRunnable(alloc: Option<M.Bitmap>, frameResult: int)
      requires Valid() && tasks.workerQueued
      requires alloc.Some? ==> alloc != bitmaps.rendering
      modifies this
      ensures State() == M.LoadFrameAsWritten(Meta(), old(State()), alloc, frameResult)
      ensures Valid()
    {
      ghost var s := State();
      tasks := tasks.(workerQueued := false);
      if flags.isRecycled {
        M.LoadFrameAsWrittenKeepsInv(Meta(), s, alloc, frameResult);
        return;
      }
      M.LoadFrameKeepsInv(Meta(), s, alloc, frameResult);
      LoadFrameLive(alloc, frameResult);
    }

    /** The worker past its recycled check. */
    method LoadFrameLive(alloc: Option<M.Bitmap>, frameResult: int)
      modifies this
      ensures State() == M.LoadFrameLive(Meta(), old(State()), alloc, frameResult)
    {
      if native.nativePtr == 0 {
        tasks := tasks.(posted := tasks.posted + [M.NoFrame]);
        return;
      }
      if bitmaps.background.None? {
        bitmaps := bitmaps.(background := alloc);
      }
      if bitmaps.background.Some? {
        updates := updates.(appliedUpdates := updates.appliedUpdates + updates.pendingUpdates, pendingUpdates := []);
        if updates.pendingColors.Some? {
          updates := updates.(appliedColors := updates.appliedColors + [updates.pendingColors.value],
                              pendingColors := None);
        }
        if frameResult == -1 {
          tasks := tasks.(posted := tasks.posted + [M.NoFrame]);
          return;
        }
        if tasks.createCache {
          tasks := tasks.(posted := tasks.posted + [M.GenerateCache], createCache := false);
        }
        bitmaps := bitmaps.(next := bitmaps.background);
        var st := FrameStep.NextFrame(play.currentFrame, play.customEndFrame, play.playInDirection,
                                      FrameStep.FramesPerUpdate(shouldLimitFps), play.autoRepeat,
                                      play.autoRepeatPlayCount, totalFrames);
        play := play.(currentFrame := st.frame, nextFrameIsLast := st.last, autoRepeatPlayCount := st.playCount);
      }
      tasks := tasks.(posted := tasks.posted + [M.FrameReady]);
    }

    /** The cache runnable on its executor. */
    method CacheGenerateRunnable()
      requires Valid() && tasks.cacheTask == M.CacheQueued
      modifies this
      ensures State() == M.RunCacheTask(old(State()))
      ensures Valid()
    {
      tasks := tasks.(cacheTask := M.CacheStarted);
      tasks := tasks.(posted := tasks.posted + [M.CacheFinished]);
      assert M.CacheFinished != M.NoFrame;
    }

    method CheckRunningTasks()
      modifies this
      ensures State() == M.CheckRunningTasks(old(State()))
    {
      if tasks.cacheTask == M.CacheQueued {
        tasks := tasks.(cacheTask := M.NoCacheTask);
      }
      if bitmaps.next.Some? && tasks.loadFrameTask {
        tasks := tasks.(loadFrameTask := false);
        bitmaps := bitmaps.(next := None);
      }
    }

    method RecycleResources()
      modifies this
      ensures State() == old(State()).(bitmaps := M.RecycleResources(old(bitmaps)))
    {
      if bitmaps.rendering.Some? {
        bitmaps := bitmaps.(recycled := bitmaps.recycled + [bitmaps.rendering.value], rendering := None);
      }
      if bitmaps.background.Some? {
        bitmaps := bitmaps.(recycled := bitmaps.recycled + [bitmaps.background.value], background := None);
      }
    }

    method DecodeFrameFinishedInternal()
      modifies this
      ensures State() == M.DecodeFrameFinished(old(State()))
    {
      if flags.destroyWhenDone {
        CheckRunningTasks();
        if !tasks.loadFrameTask && tasks.cacheTask == M.NoCacheTask && native.nativePtr != 0 {
          native := M.Handle(0, native.destroyed + [native.nativePtr]);
        }
      }
      if native.nativePtr == 0 {
        RecycleResources();
        return;
      }
      flags := flags.(waitingForNextTask := true);
      var _ := ScheduleNextGetFrame();
    }

    /** The UI handler runs the oldest posted runnable. */
    method RunPostedRunnable()
      requires Valid() && tasks.posted != []
      modifies this
      ensures State() == M.Dispatch(old(State()))
      ensures Valid()
    {
      M.DispatchKeepsInv(Meta(), State());
      var msg := tasks.posted[0];
      tasks := tasks.(posted := tasks.posted[1..]);
      match msg {
        case NoFrame => tasks := tasks.(loadFrameTask := false);
        case FrameReady => flags := flags.(singleFrameDecoded := true);
        case GenerateCache =>
          if !flags.isRecycled && !flags.destroyWhenDone && native.nativePtr != 0 {
            tasks := tasks.(cacheTask := M.CacheQueued);
          }
        case CacheFinished => tasks := tasks.(cacheTask := M.NoCacheTask);
      }
      DecodeFrameFinishedInternal();
    }

    method Recycle()
      requires Valid()
      modifies this
      ensures State() == M.Recycle(old(State()))
      ensures Valid()
    {
      M.RecycleMeaning(Meta(), State());
      flags := flags.(isRunning := false, isRecycled := true);
      CheckRunningTasks();
      if !tasks.loadFrameTask && tasks.cacheTask == M.NoCacheTask {
        if native.nativePtr != 0 {
          native := M.Handle(0, native.destroyed + [native.nativePtr]);
        }
        RecycleResources();
      } else {
        flags := flags.(destroyWhenDone := true);
      }
    }

    method SetAutoRepeat(value: int)
      requires Valid()
      modifies this
      ensures State() == M.SetAutoRepeat(old(State()), value)
      ensures Valid()
    {
      if play.autoRepeat == FrameStep.REPEAT_ONCE && value == FrameStep.REPEAT_HOLD && play.currentFrame != 0 {
        return;
      }
      play := play.(autoRepeat := value);
    }

    method SetAutoRepeatEnabled(enabled: bool)
      requires Valid()
      modifies this
      ensures State() == M.SetAutoRepeatEnabled(old(State()), enabled)
      ensures Valid()
    {
      SetAutoRepeat(if enabled then FrameStep.REPEAT_LOOP else 0);
    }

    method Start()
      requires Valid()
      modifies this
      ensures State() == M.Start(old(State()))
      ensures Valid()
    {
      M.StartKeepsInv(Meta(), State());
      if flags.isRunning || (play.autoRepeat >= FrameStep.REPEAT_ONCE && play.autoRepeatPlayCount != 0) {
        return;
      }
      flags := flags.(isRunning := true);
      var _ := ScheduleNextGetFrame();
    }

    method Restart() returns (ok: bool)
      requires Valid()
      modifies this
      ensures (State(), ok) == M.Restart(old(State()))
      ensures Valid()
    {
      if play.autoRepeat < FrameStep.REPEAT_ONCE || play.autoRepeatPlayCount == 0 {
        return false;
      }
      play := play.(autoRepeatPlayCount := 0, autoRepeat := FrameStep.REPEAT_ONCE);
      Start();
      ok := true;
    }

    method Stop()
      requires Valid()
      modifies this
      ensures State() == M.Stop(old(State()))
      ensures Valid()
    {
      flags := flags.(isRunning := false);
    }

    method SetPlayInDirectionOfCustomEndFrame(value: bool)
      requires Valid()
      modifies this
      ensures State() == M.SetPlayInDirectionOfCustomEndFrame(old(State()), value)
      ensures Valid()
    {
      play := play.(playInDirection := value);
    }

    /** `setCustomEndFrame`: the guard reads the current end frame. */
    method SetCustomEndFrame(frame: int)
      requires Valid()
      modifies this
      ensures State() == M.SetCustomEndFrameAsWritten(Meta(), old(State()), frame)
      ensures Valid()
    {
      if play.customEndFrame > totalFrames {
        return;
      }
      play := play.(customEndFrame := frame);
    }

    method SetAllowDecodeSingleFrame(value: bool)
      requires Valid()
      modifies this
      ensures State() == M.SetAllowDecodeSingleFrame(old(State()), value)
      ensures Valid()
    {
      M.SetAllowDecodeSingleFrameKeepsInv(Meta(), State(), value);
      flags := flags.(decodeSingleFrame := value);
      if value {
        var _ := ScheduleNextGetFrame();
      }
    }

    method BeginApplyLayerProperties()
      requires Valid()
      modifies this
      ensures State() == M.BeginApplyLayerProperties(old(State()))
      ensures Valid()
    {
      flags := flags.(applyingLayerColors := true);
    }

    /** The redraw block shared by commitApplyLayerProperties and
        requestRedraw. */
    method RedrawStopped()
      requires Valid()
      modifies this
      ensures State() == M.RedrawStopped(old(State()))
      ensures Valid()
    {
      if play.currentFrame <= 2 {
        play := play.(currentFrame := 0);
      }
      play := play.(nextFrameIsLast := false);
      flags := flags.(singleFrameDecoded := false);
      M.ScheduleOrForceMeaning(Meta(), State());
      var ok := ScheduleNextGetFrame();
      if !ok {
        flags := flags.(forceFrameRedraw := true);
      }
    }

    method CommitApplyLayerProperties()
      requires Valid()
      modifies this
      ensures State() == M.CommitApplyLayerProperties(old(State()))
      ensures Valid()
    {
      if !flags.applyingLayerColors {
        return;
      }
      flags := flags.(applyingLayerColors := false);
      if !flags.isRunning && flags.decodeSingleFrame {
        RedrawStopped();
      }
    }

    method RequestRedraw()
      requires Valid()
      modifies this
      ensures State() == M.RequestRedraw(old(State()))
      ensures Valid()
    {
      if !flags.applyingLayerColors && !flags.isRunning && flags.decodeSingleFrame {
        RedrawStopped();
      }
    }

    method ReplaceColors(colors: Option<seq<int>>)
      requires Valid()
      modifies this
      ensures State() == M.ReplaceColors(old(State()), colors)
      ensures Valid()
    {
      updates := updates.(newColors := colors);
      RequestRedraw();
    }

    method SetLayerProperty(u: PropertyUpdate)
      requires Valid()
      modifies this
      ensures State() == M.SetLayerProperty(old(State()), u)
      ensures Valid()
    {
      SetLayerProperties([u]);
    }

    method SetLayerProperties(us: seq<PropertyUpdate>)
      requires Valid()
      modifies this
      ensures State() == M.SetLayerProperties(old(State()), us)
      ensures Valid()
    {
      M.AddUpdatesKeepsInv(Meta(), State(), us);
      updates := updates.(newUpdates := updates.newUpdates + us);
      RequestRedraw();
    }

    /** `setCurrentFrame(frame, async, resetFrame)`; the wait of a
        synchronous seek is not part of the model. */
    method SetCurrentFrame(frame: int, async: bool, resetFrame: bool)
      requires Valid()
      modifies this
      ensures State() == M.SetCurrentFrame(Meta(), old(State()), frame, async, resetFrame)
      ensures Valid()
    {
      M.SeekMeaning(Meta(), State(), frame, async, resetFrame);
      if frame < 0 || frame > totalFrames {
        return;
      }
      play := play.(currentFrame := frame, nextFrameIsLast := false);
      flags := flags.(singleFrameDecoded := false);
      if (!async || resetFrame) && flags.waitingForNextTask && bitmaps.next.Some? {
        bitmaps := bitmaps.(background := bitmaps.next, next := None);
        tasks := tasks.(loadFrameTask := false);
        flags := flags.(waitingForNextTask := false);
      }
      var ok := ScheduleNextGetFrame();
      if !ok {
        flags := flags.(forceFrameRedraw := true);
      }
    }

    /** `setCurrentFrame(frame, async)`: the seek is asynchronous whatever
        `async` says. */
    method SetCurrentFrameAsync(frame: int, async: bool)
      requires Valid()
      modifies this
      ensures State() == M.SetCurrentFrameAsyncAsWritten(Meta(), old(State()), frame, async)
      ensures Valid()
    {
      SetCurrentFrame(frame, true, false);
    }

    /** `setCurrentFrame(frame)`: an asynchronous seek. */
    method SeekFrame(frame: int)
      requires Valid()
      modifies this
      ensures State() == M.SetCurrentFrameAsyncAsWritten(Meta(), old(State()), frame, true)
      ensures Valid()
    {
      SetCurrentFrameAsync(frame, true);
    }

    /** `setProgressMs`; the division by zero is the failure. */
    method SetProgressMs(ms: int) returns (r: Result<()>)
      requires Valid()
      modifies this
      ensures r.Failure? <==> M.SetProgressMs(Meta(), old(State()), ms).Failure?
      ensures r.Failure? ==> State() == old(State()) && r.error == Arithmetic
      ensures r.Success? ==> State() == M.SetProgressMs(Meta(), old(State()), ms).value
      ensures Valid()
    {
      var f := M.ProgressMsFrame(Meta(), ms);
      if f.Failure? {
        return Failure(f.error);
      }
      SetCurrentFrame(f.value, true, true);
      r := Success(());
    }

    method SetProgress(progress: real)
      requires Valid() && totalFrames >= 0
      modifies this
      ensures State() == M.SetProgress(Meta(), old(State()), progress)
      ensures Valid()
    {
      SetCurrentFrameAsync(M.ProgressFrame(Meta(), progress), true);
    }

    /** The private `setCurrentFrame(now, timeDiff, timeCheck, force)`:
        the buffer rotation. */
    method ShowNextFrame(force: bool)
      requires Valid() && bitmaps.next.Some?
      modifies this
      ensures State() == M.ShowNextFrame(old(State()), force)
      ensures Valid()
    {
      M.ShowNextFrameKeepsInv(Meta(), State(), force);
      bitmaps := bitmaps.(background := bitmaps.rendering, rendering := bitmaps.next, next := None);
      if play.nextFrameIsLast {
        flags := flags.(isRunning := false);
      }
      tasks := tasks.(loadFrameTask := false);
      flags := flags.(singleFrameDecoded := true, waitingForNextTask := false);
      if force && flags.forceFrameRedraw {
        flags := flags.(singleFrameDecoded := false, forceFrameRedraw := false);
      }
      var _ := ScheduleNextGetFrame();
    }

    /** `draw`, apart from the painting; `due` says whether the frame time
        has elapsed since the last frame was shown. */
    method Draw(due: bool)
      requires Valid()
      modifies this
      ensures State() == M.Draw(old(State()), due)
      ensures Valid()
    {
      M.DrawKeepsInv(Meta(), State(), due);
      if native.nativePtr == 0 || flags.destroyWhenDone {
        return;
      }
      if flags.isRunning {
        if bitmaps.rendering.None? && bitmaps.next.None? {
          var _ := ScheduleNextGetFrame();
        } else if bitmaps.next.Some? && (bitmaps.rendering.None? || due) {
          ShowNextFrame(false);
        }
      } else if (flags.forceFrameRedraw || (flags.decodeSingleFrame && due)) && bitmaps.next.Some? {
        ShowNextFrame(true);
      }
    }
  }
}
