/** `AXrLottie2Gif`: converting an animation to a GIF file. The object's
    flags (`running`, `successful`, `destroyed`), the last reported
    progress and the reused bitmap are changed by the converter and by the
    callbacks the native encoder makes while it runs. The encoder is an
    oracle: a `Conversion` says whether the bitmap could be allocated,
    which callbacks the encoder makes and what it returns. */
module Lottie2Gifs {
  import opened Wrappers

  /** `Color.WHITE` (0xFFFFFFFF) as a Java int. */
  const WHITE: int := -1

  /** `AXrLottie2Gif.Builder`; `listener` is a handle, `path` the output
      file (null until set). */
  datatype GifBuilder = GifBuilder(
    lottie: int, w: int, h: int, bgColor: int, delay: int, listener: Option<nat>,
    path: Option<string>, destroyable: bool, async: bool, bitDepth: int, dither: bool,
    frameStart: int, frameEnd: int, cancelable: bool)

  /** `create(long ptr)`: the field initialisers, then `setSize(200, 200)`. */
  function FromHandle(ptr: int): (b: GifBuilder)
    ensures b.lottie == ptr && b.w == 200 && b.h == 200
    ensures b.bgColor == WHITE && b.delay == 2 && b.bitDepth == 8
    ensures b.frameStart == 0 && b.frameEnd == -1
    ensures b.async && !b.destroyable && !b.dither && !b.cancelable
    ensures b.path.None? && b.listener.None?
  {
    GifBuilder(ptr, 200, 200, WHITE, 2, None, None, false, true, 8, false, 0, -1, false)
  }

  /** The checks of `Builder.build()`, in order: the output path first,
      then the size. */
  function CheckBuild(b: GifBuilder): (r: Result<()>)
    ensures r.Success? <==> b.path.Some? && b.w > 0 && b.h > 0
    ensures b.path.None? ==> r == Failure(Runtime("output gif path can't be null!"))
    ensures b.path.Some? && (b.w <= 0 || b.h <= 0) ==> r == Failure(Runtime("output gif width and height must be > 0"))
  {
    if b.path.None? then Failure(Runtime("output gif path can't be null!"))
    else if b.w <= 0 || b.h <= 0 then Failure(Runtime("output gif width and height must be > 0"))
    else Success(())
  }

  datatype Progress = Progress(frame: int, total: int)

  /** One run of the converter as the environment decides it: whether
      `Bitmap.createBitmap` succeeds, and for a non-null handle, the
      callbacks the native encoder makes and its return value. */
  datatype Conversion = Conversion(allocates: bool, started: bool, progress: seq<Progress>, finished: bool, ok: bool)

  /** The object's mutable fields, with the handles passed to the native
      `destroy` in order and the converter runs waiting on the pool. */
  datatype GifState = GifState(
    running: bool, successful: bool, destroyed: bool, frame: int, totalFrame: int,
    bitmap: bool, destroyCalls: seq<int>, queued: nat)

  const INITIAL: GifState := GifState(false, false, false, 0, 0, false, [], 0)

  /** `destroy()`. */
  function Destroyed(s: GifState, lottie: int): (t: GifState)
    ensures t.destroyed && t.destroyCalls == s.destroyCalls + [lottie]
    ensures t == s.(destroyed := true, destroyCalls := t.destroyCalls)
  {
    s.(destroyed := true, destroyCalls := s.destroyCalls + [lottie])
  }

  /** The state after the progress callbacks `ps`: the last one is what
      the getters report. */
  function Progressed(s: GifState, ps: seq<Progress>): (t: GifState)
    ensures ps == [] ==> t == s
    ensures ps != [] ==> t == s.(frame := ps[|ps| - 1].frame, totalFrame := ps[|ps| - 1].total)
  {
    if ps == [] then s else s.(frame := ps[|ps| - 1].frame, totalFrame := ps[|ps| - 1].total)
  }

  /** `onFinished()`: no longer running, destroyed when destroyable. */
  function Finished(b: GifBuilder, s: GifState): (t: GifState)
    ensures !t.running
    ensures t.destroyed <==> s.destroyed || b.destroyable
    ensures t.destroyCalls == if b.destroyable then s.destroyCalls + [b.lottie] else s.destroyCalls
    ensures t == s.(running := false, destroyed := t.destroyed, destroyCalls := t.destroyCalls)
  {
    var s1 := s.(running := false);
    if b.destroyable then Destroyed(s1, b.lottie) else s1
  }

  /** The callbacks of the native encoder: none for a null handle, which
      the encoder rejects at once. */
  function Callbacks(b: GifBuilder, s: GifState, c: Conversion): (t: GifState)
    ensures b.lottie == 0 ==> t == s
    ensures b.lottie != 0 && c.finished ==> !t.running
    ensures b.lottie != 0 && c.started && !c.finished ==> t.running
    ensures t.successful == s.successful && t.bitmap == s.bitmap && t.queued == s.queued
    ensures !b.destroyable ==> t.destroyed == s.destroyed && t.destroyCalls == s.destroyCalls
    ensures s.destroyCalls <= t.destroyCalls && |t.destroyCalls| <= |s.destroyCalls| + 1
  {
    if b.lottie == 0 then s
    else
      var s1 := if c.started then s.(running := true) else s;
      var s2 := Progressed(s1, c.progress);
      if c.finished then Finished(b, s2) else s2
  }

  /** The encoder's part of the converter, given a bitmap: the callbacks,
      then `successful` is what the encoder returned. */
  function Encoded(b: GifBuilder, s: GifState, c: Conversion): (t: GifState)
    ensures t.successful <==> b.lottie != 0 && c.ok
    ensures t.bitmap == s.bitmap && t.queued == s.queued
    ensures b.lottie == 0 ==> t.running == s.running && t.frame == s.frame && t.totalFrame == s.totalFrame
    ensures !b.destroyable ==> t.destroyed == s.destroyed && t.destroyCalls == s.destroyCalls
    ensures s.destroyCalls <= t.destroyCalls && |t.destroyCalls| <= |s.destroyCalls| + 1
  {
    Callbacks(b, s, c).(successful := b.lottie != 0 && c.ok)
  }

  /** The `converter` runnable: allocate the bitmap once (a failure is
      caught), run the encoder when there is a bitmap, and destroy the
      handle after a failure when destroyable. A handle is destroyed at
      most twice per run: by `onFinished` and again after a failure the
      encoder reports once it has finished. */
  function Convert(b: GifBuilder, s: GifState, c: Conversion): (t: GifState)
    ensures t.bitmap <==> s.bitmap || c.allocates
    ensures t.successful <==> t.bitmap && b.lottie != 0 && c.ok
    ensures !t.successful && b.destroyable ==> t.destroyed
    ensures !b.destroyable ==> t.destroyed == s.destroyed && t.destroyCalls == s.destroyCalls
    ensures s.destroyCalls <= t.destroyCalls && |t.destroyCalls| <= |s.destroyCalls| + 2
    ensures !t.bitmap || b.lottie == 0 ==> t.running == s.running && t.frame == s.frame && t.totalFrame == s.totalFrame
    ensures t.queued == s.queued
  {
    var s1 := s.(bitmap := s.bitmap || c.allocates);
    var s2 := if s1.bitmap then Encoded(b, s1, c) else s1.(successful := false);
    if !s2.successful && b.destroyable then Destroyed(s2, b.lottie) else s2
  }

  /** `build()`: queue the converter on the pool, or run it at once. */
  function Build(b: GifBuilder, s: GifState, c: Conversion): (t: GifState)
    ensures b.async ==> t == s.(queued := s.queued + 1)
    ensures !b.async ==> t == Convert(b, s, c)
  {
    if b.async then s.(queued := s.queued + 1) else Convert(b, s, c)
  }

  function Dequeued(s: GifState): (t: GifState)
    requires s.queued > 0
    ensures t.queued == s.queued - 1
  {
    s.(queued := s.queued - 1)
  }

  class Lottie2Gif {
    const builder: GifBuilder
    var running: bool
    var successful: bool
    var destroyed: bool
    var mFrame: int
    var mTotalFrame: int
    var bitmap: bool
    var destroyCalls: seq<int>
    var queued: nat

    function State(): GifState
      reads this
    {
      GifState(running, successful, destroyed, mFrame, mTotalFrame, bitmap, destroyCalls, queued)
    }

    /** The constructor (reached only through a `Builder.build()` that
        passed its checks) runs `build()` once. */
    constructor (b: GifBuilder, c: Conversion)
      requires CheckBuild(b).Success?
      ensures builder == b && State() == Build(b, INITIAL, c)
    {
      builder := b;
      running, successful, destroyed, mFrame, mTotalFrame := false, false, false, 0, 0;
      bitmap, destroyCalls, queued := false, [], 0;
      new;
      BuildStep(c);
    }

    method BuildStep(c: Conversion)
      modifies this
      ensures State() == Build(builder, old(State()), c)
    {
      if builder.async {
        queued := queued + 1;
      } else {
        RunConverter(c);
      }
    }

    /** The pool runs a queued converter. */
    method RunQueued(c: Conversion)
      requires queued > 0
      modifies this
      ensures State() == Convert(builder, Dequeued(old(State())), c)
    {
      queued := queued - 1;
      assert State() == Dequeued(old(State()));
      RunConverter(c);
    }

    method RunConverter(c: Conversion)
      modifies this
      ensures State() == Convert(builder, old(State()), c)
    {
      if !bitmap {
        bitmap := c.allocates;
      }
      if bitmap {
        var ok := Encode(c);
        successful := ok;
      } else {
        successful := false;
      }
      if !successful && builder.destroyable {
        Destroy();
      }
    }

    /** `AXrLottieNative.lottie2gif`: false at once for a null handle;
        otherwise the encoder's callbacks, in order, and its result. */
    method Encode(c: Conversion) returns (ok: bool)
      modifies this
      ensures State() == Callbacks(builder, old(State()), c)
      ensures ok == (builder.lottie != 0 && c.ok)
    {
      if builder.lottie == 0 {
        return false;
      }
      if c.started {
        OnStarted();
      }
      ghost var s1 := State();
      var i := 0;
      while i < |c.progress|
        invariant 0 <= i <= |c.progress|
        invariant State() == Progressed(s1, c.progress[..i])
      {
        OnProgress(c.progress[i].frame, c.progress[i].total);
        i := i + 1;
      }
      assert c.progress[..|c.progress|] == c.progress;
      if c.finished {
        OnFinished();
      }
      ok := c.ok;
    }

    method OnStarted()
      modifies this
      ensures State() == old(State()).(running := true)
    {
      running := true;
    }

    method OnProgress(frame: int, totalFrame: int)
      modifies this
      ensures State() == old(State()).(frame := frame, totalFrame := totalFrame)
    {
      mFrame, mTotalFrame := frame, totalFrame;
    }

    method OnFinished()
      modifies this
      ensures State() == Finished(builder, old(State()))
    {
      running := false;
      if builder.destroyable {
        Destroy();
      }
    }

    method Destroy()
      modifies this
      ensures State() == Destroyed(old(State()), builder.lottie)
    {
      destroyed := true;
      destroyCalls := destroyCalls + [builder.lottie];
    }

    /** `buildAgain()`: false without work while running; a destroyed
        object throws; otherwise `build()` runs and the (possibly not yet
        updated, when the converter is only queued) `successful` flag is
        returned. */
    method BuildAgain(c: Conversion) returns (r: Result<bool>)
      modifies this
      ensures old(running) ==> r == Success(false) && State() == old(State())
      ensures !old(running) && old(destroyed) ==>
                r == Failure(Runtime("can't build a destroyable lottie again!")) && State() == old(State())
      ensures !old(running) && !old(destroyed) ==>
                State() == Build(builder, old(State()), c) && r == Success(successful)
      ensures !old(running) && !old(destroyed) && builder.async ==> r == Success(old(successful))
    {
      if running {
        return Success(false);
      }
      if destroyed {
        return Failure(Runtime("can't build a destroyable lottie again!"));
      }
      BuildStep(c);
      r := Success(successful);
    }

    /** `equals`: the same object, or one with the same output path and
        native handle; the conversion state plays no part. */
    predicate Equals(o: Lottie2Gif?) {
      this == o || (o != null && o.builder.path == builder.path && o.builder.lottie == builder.lottie)
    }
  }

  /** `equals` is an equivalence. */
  lemma EqualsIsEquivalence(a: Lottie2Gif, b: Lottie2Gif, c: Lottie2Gif)
    ensures a.Equals(a)
    ensures a.Equals(b) <==> b.Equals(a)
    ensures a.Equals(b) && b.Equals(c) ==> a.Equals(c)
  {
  }

  /** A synchronous conversion that cannot allocate its bitmap fails and,
      when destroyable, destroys the handle; the destroyed object then
      refuses `buildAgain`. */
  lemma FailedAllocationDestroys(b: GifBuilder, c: Conversion)
    requires !b.async && !c.allocates && b.destroyable
    ensures var t := Build(b, INITIAL, c);
            !t.successful && t.destroyed && !t.running && t.destroyCalls == [b.lottie]
  {
  }

  /** When the encoder reports `onFinished` and then returns false, a
      destroyable conversion passes its handle to the native `destroy`
      twice. Whether the native encoder can do both is not part of this
      model: the lemma rests on that behaviour of the encoder. */
  lemma FinishedThenFailedDestroysTwice(b: GifBuilder, c: Conversion)
    requires !b.async && b.destroyable && b.lottie != 0 && c.allocates && c.finished && !c.ok
    ensures Build(b, INITIAL, c).destroyCalls == [b.lottie, b.lottie]
  {
  }
}
