/** The frame-advance rule the decode worker of AXrLottieDrawable applies
    after every successful decode: which frame to decode next, whether the
    decoded frame is the last one to show, and the repeat counter. */
module FrameStep {

  /** `autoRepeat` values the step distinguishes. */
  const REPEAT_LOOP: int := 1
  const REPEAT_ONCE: int := 2
  const REPEAT_HOLD: int := 3

  datatype Step = Step(frame: int, last: bool, playCount: int)

  /** `framesPerUpdates`: 2 when frames are skipped to limit the rate. */
  function FramesPerUpdate(shouldLimitFps: bool): (n: nat)
    ensures n == 1 || n == 2
    ensures n == 2 <==> shouldLimitFps
  {
    if shouldLimitFps then 2 else 1
  }

  /** The end of the repeat window: the custom end frame when positive,
      otherwise the frame count. */
  function WindowEnd(customEndFrame: int, totalFrames: int): int {
    if customEndFrame > 0 then customEndFrame else totalFrames
  }

  predicate Directional(customEndFrame: int, playInDirection: bool) {
    customEndFrame > 0 && playInDirection
  }

  /** The step as the worker computes it from the current frame. */
  function NextFrame(cur: int, customEndFrame: int, playInDirection: bool, step: nat,
                     autoRepeat: int, playCount: int, totalFrames: int): Step
  {
    if Directional(customEndFrame, playInDirection) then
      if cur > customEndFrame then
        if cur - step > customEndFrame then Step(cur - step, false, playCount)
        else Step(cur, true, playCount)
      else if cur + step < customEndFrame then Step(cur + step, false, playCount)
      else Step(cur, true, playCount)
    else if cur + step < WindowEnd(customEndFrame, totalFrames) then
      if autoRepeat == REPEAT_HOLD then Step(cur, true, playCount + 1)
      else Step(cur + step, false, playCount)
    else if autoRepeat == REPEAT_LOOP then Step(0, false, playCount)
    else if autoRepeat == REPEAT_ONCE then Step(0, true, playCount + 1)
    else Step(cur, true, playCount)
  }

  /** Directional mode moves by one step toward the custom end frame and
      never reaches or crosses it; the frame is marked last exactly when
      the next step would reach or cross it, and then it is held. */
  lemma DirectionalApproaches(cur: int, customEndFrame: int, step: nat, autoRepeat: int, playCount: int, totalFrames: int)
    requires customEndFrame > 0 && step >= 1
    ensures var r := NextFrame(cur, customEndFrame, true, step, autoRepeat, playCount, totalFrames);
      && r.playCount == playCount
      && (cur > customEndFrame ==> customEndFrame < r.frame <= cur)
      && (cur < customEndFrame ==> cur <= r.frame < customEndFrame)
      && (cur == customEndFrame ==> r.frame == cur)
      && (r.frame == cur || r.frame == cur - step || r.frame == cur + step)
      && (r.last <==> (if cur > customEndFrame then cur - step <= customEndFrame else cur + step >= customEndFrame))
      && (r.last <==> r.frame == cur)
  {
  }

  /** Outside directional mode, a frame inside the window [0, end) stays
      inside it, whatever the repeat mode. */
  lemma StaysInWindow(cur: int, customEndFrame: int, playInDirection: bool, step: nat, autoRepeat: int, playCount: int, totalFrames: int)
    requires !Directional(customEndFrame, playInDirection)
    requires 0 <= cur < WindowEnd(customEndFrame, totalFrames)
    ensures var r := NextFrame(cur, customEndFrame, playInDirection, step, autoRepeat, playCount, totalFrames);
      0 <= r.frame < WindowEnd(customEndFrame, totalFrames)
  {
  }

  /** Applies the step `n` times, as consecutive decodes do when nothing
      else touches the frame. */
  function Advance(s: Step, n: nat, customEndFrame: int, playInDirection: bool, step: nat,
                   autoRepeat: int, totalFrames: int): Step
    decreases n
  {
    if n == 0 then s
    else
      var t := NextFrame(s.frame, customEndFrame, playInDirection, step, autoRepeat, s.playCount, totalFrames);
      Advance(t, n - 1, customEndFrame, playInDirection, step, autoRepeat, totalFrames)
  }

  /** The number of decodes from frame `cur` until the step reaches the
      end of the window and the end rule applies: the count that
      `LoopModeWraps` and `OnceModeStops` advance by, at least one since the
      end rule is applied by a decode. */
  function StepsToEnd(cur: int, end: int, step: nat): (n: nat)
    requires step >= 1
    ensures n >= 1
    decreases end - cur
  {
    if cur + step >= end then 1 else 1 + StepsToEnd(cur + step, end, step)
  }

  /** In repeat mode 1, the decodes from any frame of the window up to the
      end come back to frame 0 without ever marking a frame last, so the
      animation loops over [0, end) for ever. */
  lemma {:induction false} LoopModeWraps(cur: int, customEndFrame: int, playInDirection: bool, step: nat,
                                         playCount: int, totalFrames: int)
    requires !Directional(customEndFrame, playInDirection) && step >= 1
    ensures var n := StepsToEnd(cur, WindowEnd(customEndFrame, totalFrames), step);
      Advance(Step(cur, false, playCount), n, customEndFrame, playInDirection, step, REPEAT_LOOP, totalFrames)
        == Step(0, false, playCount)
    decreases WindowEnd(customEndFrame, totalFrames) - cur
  {
    var end := WindowEnd(customEndFrame, totalFrames);
    if cur + step < end {
      LoopModeWraps(cur + step, customEndFrame, playInDirection, step, playCount, totalFrames);
    }
  }

  /** In repeat mode 2, the decodes from any frame of the window up to the
      end return to frame 0, mark it last and count exactly one play. */
  lemma {:induction false} OnceModeStops(cur: int, customEndFrame: int, playInDirection: bool, step: nat,
                                         playCount: int, totalFrames: int)
    requires !Directional(customEndFrame, playInDirection) && step >= 1
    ensures var n := StepsToEnd(cur, WindowEnd(customEndFrame, totalFrames), step);
      Advance(Step(cur, false, playCount), n, customEndFrame, playInDirection, step, REPEAT_ONCE, totalFrames)
        == Step(0, true, playCount + 1)
    decreases WindowEnd(customEndFrame, totalFrames) - cur
  {
    var end := WindowEnd(customEndFrame, totalFrames);
    if cur + step < end {
      OnceModeStops(cur + step, customEndFrame, playInDirection, step, playCount, totalFrames);
    }
  }

  /** In repeat mode 3 the frame never moves, over any number of decodes:
      inside the window each decode marks it last and counts one play; at
      the end of the window it is held without counting. */
  lemma {:induction false} HoldModeHolds(cur: int, customEndFrame: int, playInDirection: bool, step: nat,
                                         last: bool, playCount: int, totalFrames: int, n: nat)
    requires !Directional(customEndFrame, playInDirection)
    ensures var inside := cur + step < WindowEnd(customEndFrame, totalFrames);
      Advance(Step(cur, last, playCount), n, customEndFrame, playInDirection, step, REPEAT_HOLD, totalFrames)
        == Step(cur, last || n > 0, playCount + (if inside then n else 0))
    decreases n
  {
    if n > 0 {
      var inside := cur + step < WindowEnd(customEndFrame, totalFrames);
      HoldModeHolds(cur, customEndFrame, playInDirection, step, true, playCount + (if inside then 1 else 0), totalFrames, n - 1);
    }
  }

  /** In any mode other than 1 and 2, once the step reaches the end of the
      window the frame is held, marked last, and no play is counted, however
      many decodes follow. */
  lemma {:induction false} EndHeld(cur: int, customEndFrame: int, playInDirection: bool, step: nat,
                                   autoRepeat: int, last: bool, playCount: int, totalFrames: int, n: nat)
    requires !Directional(customEndFrame, playInDirection)
    requires autoRepeat != REPEAT_LOOP && autoRepeat != REPEAT_ONCE
    requires cur + step >= WindowEnd(customEndFrame, totalFrames)
    ensures Advance(Step(cur, last, playCount), n, customEndFrame, playInDirection, step, autoRepeat, totalFrames)
              == Step(cur, last || n > 0, playCount)
    decreases n
  {
    if n > 0 {
      EndHeld(cur, customEndFrame, playInDirection, step, autoRepeat, true, playCount, totalFrames, n - 1);
    }
  }
}
