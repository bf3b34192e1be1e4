/** AXrLottieTask: an asynchronous computation that produces one result,
    with ordered sets of success and failure listeners that are called on
    the main thread once the result is known. */
module Tasks {
  import opened Wrappers
  import opened LottieResults

  /** The tasks of this library produce a file, known by its path. */
  type File = string

  /** A listener, known by identity. */
  type Listener = nat

  type TaskResult = LottieResult<File>

  /** One call made to a listener. */
  datatype Notice = OnValue(listener: Listener, value: File) | OnFailure(listener: Listener, error: Throwable)

  predicate Distinct(s: seq<Listener>) {
    forall i, j :: 0 <= i < j < |s| ==> s[i] != s[j]
  }

  /** `LinkedHashSet.add`: appends a listener not yet present, keeping the
      order of insertion. */
  function Insert(s: seq<Listener>, x: Listener): (r: seq<Listener>)
    ensures x in r
    ensures forall y :: y in r <==> y in s || y == x
    ensures s <= r
    ensures x in s ==> r == s
    ensures Distinct(s) ==> Distinct(r)
  {
    if x in s then s else s + [x]
  }

  /** `LinkedHashSet.remove`: drops the listener and keeps the order of
      the others. */
  function Delete(s: seq<Listener>, x: Listener): (r: seq<Listener>)
    ensures x !in r
    ensures forall y :: y != x ==> (y in r <==> y in s)
    ensures x !in s ==> r == s
    ensures Distinct(s) ==> Distinct(r)
    ensures |r| <= |s|
  {
    if s == [] then []
    else if s[0] == x then Delete(s[1..], x)
    else
      var tail := Delete(s[1..], x);
      assert s[0] !in s[1..] ==> s[0] !in tail;
      [s[0]] + tail
  }

  /** Removing a listener and adding it back puts it last. */
  lemma {:induction false} ReAddMovesLast(s: seq<Listener>, x: Listener)
    requires Distinct(s) && x in s
    ensures Insert(Delete(s, x), x) == Delete(s, x) + [x]
    ensures |Insert(Delete(s, x), x)| == |s|
  {
    DeleteDistinctLength(s, x);
  }

  /** In a list without duplicates, deleting a present element removes
      exactly one entry. */
  lemma {:induction false} DeleteDistinctLength(s: seq<Listener>, x: Listener)
    requires Distinct(s) && x in s
    ensures |Delete(s, x)| == |s| - 1
  {
    if s[0] != x {
      assert s == [s[0]] + s[1..];
      assert x in s[1..];
      DeleteDistinctLength(s[1..], x);
    } else {
      assert s[1..] == s[1..];
      assert x !in s[1..] by {
        forall j | 0 < j < |s| ensures s[j] != s[0] { }
      }
    }
  }

  /** The calls made when `listeners` are told of a value, in order. */
  function ValueNotices(listeners: seq<Listener>, v: File): (r: seq<Notice>)
    ensures |r| == |listeners|
    ensures forall i :: 0 <= i < |r| ==> r[i] == OnValue(listeners[i], v)
  {
    if listeners == [] then [] else [OnValue(listeners[0], v)] + ValueNotices(listeners[1..], v)
  }

  /** The calls made when `listeners` are told of a failure, in order. */
  function FailureNotices(listeners: seq<Listener>, e: Throwable): (r: seq<Notice>)
    ensures |r| == |listeners|
    ensures forall i :: 0 <= i < |r| ==> r[i] == OnFailure(listeners[i], e)
  {
    if listeners == [] then [] else [OnFailure(listeners[0], e)] + FailureNotices(listeners[1..], e)
  }

  /** The calls the posted notification makes: the success listeners when
      there is a value, otherwise the failure listeners when there is an
      exception, otherwise none. */
  function CompletionNotices(result: Option<TaskResult>, success: seq<Listener>, failure: seq<Listener>): seq<Notice> {
    if result.None? then []
    else if result.value.value.Some? then ValueNotices(success, result.value.value.value)
    else if result.value.exception.Some? then FailureNotices(failure, result.value.exception.value)
    else []
  }

  /** A completion tells success listeners or failure listeners, never
      both: every call is a value call exactly when the result holds a
      value, and each registered listener of that kind is called once, in
      registration order. */
  lemma CompletionNeverBoth(result: Option<TaskResult>, success: seq<Listener>, failure: seq<Listener>)
    ensures var n := CompletionNotices(result, success, failure);
      && (result.Some? && result.value.value.Some? ==>
            n == ValueNotices(success, result.value.value.value) && forall i :: 0 <= i < |n| ==> n[i].OnValue?)
      && (result.Some? && result.value.value.None? && result.value.exception.Some? ==>
            n == FailureNotices(failure, result.value.exception.value) && forall i :: 0 <= i < |n| ==> n[i].OnFailure?)
      && (result.None? || (result.value.value.None? && result.value.exception.None?) ==> n == [])
  {
  }

  /** The call `addListener` makes at once: the value when the lottie task has
      already succeeded. */
  function ValueReplay(result: Option<TaskResult>, l: Listener): (r: seq<Notice>)
    ensures r != [] <==> result.Some? && result.value.value.Some?
    ensures r != [] ==> r == [OnValue(l, result.value.value.value)]
  {
    if result.Some? && result.value.value.Some? then [OnValue(l, result.value.value.value)] else []
  }

  /** The call `addFailureListener` makes at once: the exception when the
      task has already failed. */
  function FailureReplay(result: Option<TaskResult>, l: Listener): (r: seq<Notice>)
    ensures r != [] <==> result.Some? && result.value.exception.Some?
    ensures r != [] ==> r == [OnFailure(l, result.value.exception.value)]
  {
    if result.Some? && result.value.exception.Some? then [OnFailure(l, result.value.exception.value)] else []
  }

  /** `setResult` on the stored result: a second non-null result is
      refused with IllegalStateException. A null result leaves the lottie task
      unset. */
  function SetOutcome(current: Option<TaskResult>, r: Option<TaskResult>): (o: Result<Option<TaskResult>>)
    ensures o.Failure? <==> current.Some?
    ensures o.Failure? ==> o.error.IllegalState?
    ensures o.Success? ==> o.value == r
  {
    if current.Some? then Failure(IllegalState("A task may only be set once.")) else Success(r)
  }

  /** Once a result is set, every later attempt fails and what was set
      stays; a null result does not count as set. */
  lemma SetAtMostOnce(first: TaskResult, second: Option<TaskResult>, nothing: Option<TaskResult>)
    requires nothing.None?
    ensures SetOutcome(SetOutcome(None, Some(first)).value, second).Failure?
    ensures SetOutcome(SetOutcome(None, nothing).value, Some(first)) == Success(Some(first))
  {
  }

  /** How the callable of a run-now task ends. */
  datatype CallOutcome = Returns(r: Option<TaskResult>) | Throws(e: Throwable)

  /** How the future of a queued task ends: with the callable's result,
      or interrupted or failed (InterruptedException, ExecutionException). */
  datatype FutureOutcome = Completed(r: Option<TaskResult>) | Interrupted(e: Throwable) | ExecutionFailed(e: Throwable)

  /** The result stored for a callable outcome: a thrown exception
      becomes a failure result. */
  function CallResult(c: CallOutcome): (r: Option<TaskResult>)
    ensures c.Throws? ==> r == Some(FromException(Some(c.e)))
    ensures c.Returns? ==> r == c.r
  {
    match c
    case Returns(r) => r
    case Throws(e) => Some(FromException(Some(e)))
  }

  /** The result `done` stores for a future outcome, and None for a
      cancelled future, which sets nothing. */
  function FutureResult(cancelled: bool, f: FutureOutcome): (r: Option<Option<TaskResult>>)
    ensures cancelled <==> r.None?
    ensures !cancelled && !f.Completed? ==> r == Some(Some(FromException(Some(f.e))))
    ensures !cancelled && f.Completed? ==> r == Some(f.r)
  {
    if cancelled then None
    else match f
      case Completed(r) => Some(r)
      case Interrupted(e) => Some(Some(FromException(Some(e))))
      case ExecutionFailed(e) => Some(Some(FromException(Some(e))))
  }

  class LottieTask {
    var result: Option<TaskResult>
    var successListeners: seq<Listener>
    var failureListeners: seq<Listener>
    /** notification runnables posted to the main handler and not yet run */
    var pendingNotifies: nat
    /** every call made to a listener so far, in order */
    var notices: seq<Notice>
    /** whether the future was handed to the executor */
    var submitted: bool

    ghost predicate Valid()
      reads this
    {
      Distinct(successListeners) && Distinct(failureListeners)
    }

    /** `AXrLottieTask(callable, runNow)`: in run-now mode the callable is
        called at once and its result, or its exception as a failure, is
        set; otherwise the future is handed to the executor. */
    constructor (runNow: bool, call: CallOutcome)
      ensures Valid()
      ensures successListeners == [] && failureListeners == [] && notices == []
      ensures runNow ==> result == CallResult(call) && pendingNotifies == 1 && !submitted
      ensures !runNow ==> result.None? && pendingNotifies == 0 && submitted
    {
      result := None;
      successListeners, failureListeners := [], [];
      pendingNotifies, notices := 0, [];
      submitted := !runNow;
      new;
      if runNow {
        var ok := SetResult(CallResult(call));
      }
    }

    /** `setResult`: stores a result once and posts a notification. */
    method SetResult(r: Option<TaskResult>) returns (ok: Result<()>)
      modifies this
      ensures var o := SetOutcome(old(result), r);
        && (o.Failure? ==> ok == Failure(o.error) && result == old(result) && pendingNotifies == old(pendingNotifies))
        && (o.Success? ==> ok.Success? && result == o.value && pendingNotifies == old(pendingNotifies) + 1)
      ensures successListeners == old(successListeners) && failureListeners == old(failureListeners)
      ensures notices == old(notices) && submitted == old(submitted)
    {
      if result.Some? {
        return Failure(IllegalState("A task may only be set once."));
      }
      result := r;
      pendingNotifies := pendingNotifies + 1;
      ok := Success(());
    }

    /** `addListener`: a task that already has a value calls the listener
        at once; the listener is registered either way. */
    method AddListener(l: Listener)
      requires Valid()
      modifies this
      ensures Valid()
      ensures notices == old(notices) + ValueReplay(result, l)
      ensures successListeners == Insert(old(successListeners), l)
      ensures result == old(result) && failureListeners == old(failureListeners)
      ensures pendingNotifies == old(pendingNotifies) && submitted == old(submitted)
    {
      if result.Some? && result.value.value.Some? {
        notices := notices + [OnValue(l, result.value.value.value)];
      }
      successListeners := Insert(successListeners, l);
    }

    method RemoveListener(l: Listener)
      requires Valid()
      modifies this
      ensures Valid()
      ensures successListeners == Delete(old(successListeners), l)
      ensures result == old(result) && failureListeners == old(failureListeners) && notices == old(notices)
      ensures pendingNotifies == old(pendingNotifies) && submitted == old(submitted)
    {
      successListeners := Delete(successListeners, l);
    }

    /** `addFailureListener`: a task that already failed calls the
        listener at once; the listener is registered either way. */
    method AddFailureListener(l: Listener)
      requires Valid()
      modifies this
      ensures Valid()
      ensures notices == old(notices) + FailureReplay(result, l)
      ensures failureListeners == Insert(old(failureListeners), l)
      ensures result == old(result) && successListeners == old(successListeners)
      ensures pendingNotifies == old(pendingNotifies) && submitted == old(submitted)
    {
      if result.Some? && result.value.exception.Some? {
        notices := notices + [OnFailure(l, result.value.exception.value)];
      }
      failureListeners := Insert(failureListeners, l);
    }

    method RemoveFailureListener(l: Listener)
      requires Valid()
      modifies this
      ensures Valid()
      ensures failureListeners == Delete(old(failureListeners), l)
      ensures result == old(result) && successListeners == old(successListeners) && notices == old(notices)
      ensures pendingNotifies == old(pendingNotifies) && submitted == old(submitted)
    {
      failureListeners := Delete(failureListeners, l);
    }

    /** The posted notification runnable. `selfRemoving` are the listeners
        that remove themselves in their callback; every listener registered
        when the notification starts is still called, because the loop runs
        over a copy. */
    method RunNotification(selfRemoving: set<Listener>)
      requires Valid() && pendingNotifies > 0
      modifies this
      ensures Valid()
      ensures pendingNotifies == old(pendingNotifies) - 1
      ensures notices == old(notices) + CompletionNotices(result, old(successListeners), old(failureListeners))
      ensures result == old(result) && submitted == old(submitted)
      ensures result.Some? && result.value.value.Some? ==>
        && failureListeners == old(failureListeners)
        && forall l :: l in successListeners <==> l in old(successListeners) && l !in selfRemoving
      ensures result.Some? && result.value.value.None? && result.value.exception.Some? ==>
        && successListeners == old(successListeners)
        && forall l :: l in failureListeners <==> l in old(failureListeners) && l !in selfRemoving
      ensures result.None? || (result.value.value.None? && result.value.exception.None?) ==>
        successListeners == old(successListeners) && failureListeners == old(failureListeners)
    {
      pendingNotifies := pendingNotifies - 1;
      var r := result;
      if r.None? {
        return;
      }
      if r.value.value.Some? {
        var kept := NotifyAll(successListeners, selfRemoving, OnValue(0, r.value.value.value));
        successListeners := kept;
      } else if r.value.exception.Some? {
        var kept := NotifyAll(failureListeners, selfRemoving, OnFailure(0, r.value.exception.value));
        failureListeners := kept;
      }
    }

    /** The loop of `notifySuccessListeners` / `notifyFailureListeners`:
        calls every listener of a copy of the set, each of which may remove
        itself from the live set. `shape` carries the value or exception
        passed. */
    method NotifyAll(listeners: seq<Listener>, selfRemoving: set<Listener>, shape: Notice) returns (live: seq<Listener>)
      requires Distinct(listeners)
      modifies this`notices
      ensures Distinct(live)
      ensures forall l :: l in live <==> l in listeners && l !in selfRemoving
      ensures shape.OnValue? ==> notices == old(notices) + ValueNotices(listeners, shape.value)
      ensures shape.OnFailure? ==> notices == old(notices) + FailureNotices(listeners, shape.error)
      ensures result == old(result) && successListeners == old(successListeners)
      ensures failureListeners == old(failureListeners)
      ensures pendingNotifies == old(pendingNotifies) && submitted == old(submitted)
    {
      var copy := listeners;
      live := listeners;
      var i := 0;
      while i < |copy|
        invariant 0 <= i <= |copy|
        invariant Distinct(live)
        invariant forall l :: l in live <==> l in copy && (l in copy[..i] ==> l !in selfRemoving)
        invariant shape.OnValue? ==> notices == old(notices) + ValueNotices(copy[..i], shape.value)
        invariant shape.OnFailure? ==> notices == old(notices) + FailureNotices(copy[..i], shape.error)
      {
        var l := copy[i];
        NotifyOne(old(notices), copy[..i], l, shape);
        assert copy[..i + 1] == copy[..i] + [l];
        ghost var before := live;
        if l in selfRemoving {
          live := Delete(live, l);
        }
        SurvivorStep(copy, i, selfRemoving, before, live);
        i := i + 1;
      }
      assert copy[..i] == copy;
    }

    /** The listeners still registered after the loop has called
        `copy[..i + 1]`, one step after `copy[..i]`. */
    static lemma SurvivorStep(copy: seq<Listener>, i: nat, selfRemoving: set<Listener>, before: seq<Listener>, after: seq<Listener>)
      requires i < |copy|
      requires forall l :: l in before <==> l in copy && (l in copy[..i] ==> l !in selfRemoving)
      requires after == if copy[i] in selfRemoving then Delete(before, copy[i]) else before
      ensures forall l :: l in after <==> l in copy && (l in copy[..i + 1] ==> l !in selfRemoving)
    {
      assert copy[..i + 1] == copy[..i] + [copy[i]];
    }

    /** One call of the notification loop, after the calls to `done`
        have been recorded on top of `base`. */
    method NotifyOne(ghost base: seq<Notice>, done: seq<Listener>, l: Listener, shape: Notice)
      requires shape.OnValue? ==> notices == base + ValueNotices(done, shape.value)
      requires shape.OnFailure? ==> notices == base + FailureNotices(done, shape.error)
      modifies this`notices
      ensures shape.OnValue? ==> notices == base + ValueNotices(done + [l], shape.value)
      ensures shape.OnFailure? ==> notices == base + FailureNotices(done + [l], shape.error)
    {
      if shape.OnValue? {
        ValueNoticesAppend(done, [l], shape.value);
        notices := notices + [OnValue(l, shape.value)];
      } else {
        FailureNoticesAppend(done, [l], shape.error);
        notices := notices + [OnFailure(l, shape.error)];
      }
    }

    /** `LottieFutureTask.done`: a cancelled future sets nothing; otherwise
        the result, or the interruption or failure as a failure result, is
        set. */
    method Done(cancelled: bool, f: FutureOutcome) returns (ok: Result<()>)
      modifies this
      ensures var fr := FutureResult(cancelled, f);
        && (fr.None? ==> ok.Success? && result == old(result) && pendingNotifies == old(pendingNotifies))
        && (fr.Some? ==> var o := SetOutcome(old(result), fr.value);
              && (o.Failure? ==> ok == Failure(o.error) && result == old(result) && pendingNotifies == old(pendingNotifies))
              && (o.Success? ==> ok.Success? && result == o.value && pendingNotifies == old(pendingNotifies) + 1))
      ensures successListeners == old(successListeners) && failureListeners == old(failureListeners)
      ensures notices == old(notices) && submitted == old(submitted)
    {
      var fr := FutureResult(cancelled, f);
      if fr.None? {
        return Success(());
      }
      ok := SetResult(fr.value);
    }
  }

  lemma {:induction false} ValueNoticesAppend(a: seq<Listener>, b: seq<Listener>, v: File)
    ensures ValueNotices(a + b, v) == ValueNotices(a, v) + ValueNotices(b, v)
  {
    if a != [] {
      assert (a + b)[1..] == a[1..] + b;
      ValueNoticesAppend(a[1..], b, v);
    } else {
      assert a + b == b;
    }
  }

  lemma {:induction false} FailureNoticesAppend(a: seq<Listener>, b: seq<Listener>, e: Throwable)
    ensures FailureNotices(a + b, e) == FailureNotices(a, e) + FailureNotices(b, e)
  {
    if a != [] {
      assert (a + b)[1..] == a[1..] + b;
      FailureNoticesAppend(a[1..], b, e);
    } else {
      assert a + b == b;
    }
  }
}
