/** DispatchQueuePool: a bounded pool of worker queues. Each submission
    goes to a busy queue, an idle queue or a newly created one; a
    completion returns a queue with no remaining task to the idle list,
    and a periodic cleanup recycles queues idle for more than 30 s. */
module QueuePools {

  /** A worker queue, known by identity. */
  type QueueId = nat

  const CLEANUP_DELAY: int := 30000

  /** `java.util.LinkedList.remove(Object)`: drops the first occurrence. */
  function RemoveFirst(s: seq<QueueId>, x: QueueId): (r: seq<QueueId>)
    ensures x !in s ==> r == s
    ensures |r| == if x in s then |s| - 1 else |s|
    ensures forall y :: y in r ==> y in s
  {
    if s == [] then []
    else if s[0] == x then s[1..]
    else [s[0]] + RemoveFirst(s[1..], x)
  }

  predicate Distinct(s: seq<QueueId>) {
    forall i, j :: 0 <= i < j < |s| ==> s[i] != s[j]
  }

  /** In a list without duplicates, removing an element is cutting it out
      at its position. */
  lemma {:induction false} RemoveFirstAt(s: seq<QueueId>, i: nat)
    requires Distinct(s) && i < |s|
    ensures RemoveFirst(s, s[i]) == s[..i] + s[i + 1..]
  {
    if i > 0 {
      assert s[0] != s[i];
      RemoveFirstAt(s[1..], i - 1);
      assert s[1..][i - 1] == s[i];
      assert [s[0]] + s[1..][..i - 1] == s[..i];
      assert s[1..][i - 1 + 1..] == s[i + 1..];
    }
  }

  /** The sum of the per-queue task counts over a list of queues. */
  function CountSum(qs: seq<QueueId>, counts: map<QueueId, int>): int {
    if qs == [] then 0
    else (if qs[0] in counts then counts[qs[0]] else 0) + CountSum(qs[1..], counts)
  }

  lemma {:induction false} CountSumAppend(a: seq<QueueId>, b: seq<QueueId>, counts: map<QueueId, int>)
    ensures CountSum(a + b, counts) == CountSum(a, counts) + CountSum(b, counts)
  {
    if a == [] {
      assert a + b == b;
    } else {
      assert (a + b)[0] == a[0];
      assert (a + b)[1..] == a[1..] + b;
      CountSumAppend(a[1..], b, counts);
    }
  }

  /** Counts of queues outside the list do not matter. */
  lemma {:induction false} CountSumFrame(qs: seq<QueueId>, counts: map<QueueId, int>, other: map<QueueId, int>)
    requires forall q :: q in qs ==> (q in counts <==> q in other) && (q in counts ==> counts[q] == other[q])
    ensures CountSum(qs, counts) == CountSum(qs, other)
  {
    if qs != [] {
      assert qs[0] in qs;
      CountSumFrame(qs[1..], counts, other);
    }
  }

  /** Changing the count of the queue at position `i` of a list without
      duplicates changes the sum by the difference. */
  lemma CountSumUpdate(qs: seq<QueueId>, counts: map<QueueId, int>, i: nat, v: int)
    requires Distinct(qs) && i < |qs| && qs[i] in counts
    ensures CountSum(qs, counts[qs[i] := v]) == CountSum(qs, counts) - counts[qs[i]] + v
  {
    var q := qs[i];
    assert qs == qs[..i] + [q] + qs[i + 1..];
    CountSumAppend(qs[..i] + [q], qs[i + 1..], counts);
    CountSumAppend(qs[..i], [q], counts);
    CountSumAppend(qs[..i] + [q], qs[i + 1..], counts[q := v]);
    CountSumAppend(qs[..i], [q], counts[q := v]);
    CountSumFrame(qs[..i], counts, counts[q := v]);
    CountSumFrame(qs[i + 1..], counts, counts[q := v]);
  }

  /** Dropping the queue at position `i` and its count removes its count
      from the sum. */
  lemma CountSumRemove(qs: seq<QueueId>, counts: map<QueueId, int>, i: nat)
    requires Distinct(qs) && i < |qs| && qs[i] in counts
    ensures CountSum(qs[..i] + qs[i + 1..], counts - {qs[i]}) == CountSum(qs, counts) - counts[qs[i]]
  {
    var q := qs[i];
    var pre, post := qs[..i], qs[i + 1..];
    assert qs == pre + [q] + post;
    assert q !in pre && q !in post;
    CountSumAppend(pre + [q], post, counts);
    CountSumAppend(pre, [q], counts);
    assert CountSum([q], counts) == counts[q];
    CountSumAppend(pre, post, counts - {q});
    CountSumFrame(pre, counts, counts - {q});
    CountSumFrame(post, counts, counts - {q});
  }

  /** Where `execute` takes its queue from. */
  datatype Pick = ReuseBusy | CreateNew | TakeIdle

  /** The selection rule of `execute`. */
  function Selection(idle: nat, busy: nat, totalTasks: int, created: int, maxCount: int): (p: Pick)
    ensures p == ReuseBusy ==> busy > 0
    ensures p == TakeIdle ==> idle > 0
    ensures p == CreateNew ==> idle == 0
  {
    if busy > 0 && (totalTasks / 2 <= busy || (idle == 0 && created >= maxCount)) then ReuseBusy
    else if idle == 0 then CreateNew
    else TakeIdle
  }

  /** A queue is only created below the cap: with at least one queue
      allowed and every created queue idle or busy, creating one keeps the
      count within the cap. */
  lemma SelectionRespectsCap(idle: nat, busy: nat, totalTasks: int, created: int, maxCount: int)
    requires maxCount >= 1 && created == idle + busy && created <= maxCount
    ensures Selection(idle, busy, totalTasks, created, maxCount) == CreateNew ==> created + 1 <= maxCount
    ensures Selection(idle, busy, totalTasks, created, maxCount) == CreateNew && busy > 0 ==> totalTasks / 2 > busy
  {
  }

  /** The idle queues the cleanup keeps, in order: those that ran a task
      within the last 30 s. */
  function KeepRecent(qs: seq<QueueId>, lastTaskTime: QueueId -> int, now: int): (r: seq<QueueId>)
    ensures |r| <= |qs|
  {
    if qs == [] then []
    else
      var last := qs[|qs| - 1];
      KeepRecent(qs[..|qs| - 1], lastTaskTime, now) + (if lastTaskTime(last) < now - CLEANUP_DELAY then [] else [last])
  }

  /** The cleanup keeps exactly the recently used queues. */
  lemma {:induction false} KeepRecentMembers(qs: seq<QueueId>, lastTaskTime: QueueId -> int, now: int, q: QueueId)
    ensures q in KeepRecent(qs, lastTaskTime, now) <==> q in qs && lastTaskTime(q) >= now - CLEANUP_DELAY
  {
    if qs != [] {
      var init := qs[..|qs| - 1];
      KeepRecentMembers(init, lastTaskTime, now, q);
      assert qs == init + [qs[|qs| - 1]];
    }
  }

  /** The cleanup keeps the order of what it keeps and never introduces a
      duplicate. */
  lemma {:induction false} KeepRecentDistinct(qs: seq<QueueId>, lastTaskTime: QueueId -> int, now: int)
    requires Distinct(qs)
    ensures Distinct(KeepRecent(qs, lastTaskTime, now))
  {
    if qs != [] {
      var init := qs[..|qs| - 1];
      var last := qs[|qs| - 1];
      KeepRecentDistinct(init, lastTaskTime, now);
      KeepRecentMembers(init, lastTaskTime, now, last);
      assert last !in init;
    }
  }

  /** The two lists: no queue listed twice or both idle and busy, and
      every queue created before. */
  ghost predicate ListsOk(idle: seq<QueueId>, busy: seq<QueueId>, next: QueueId) {
    && Distinct(idle) && Distinct(busy)
    && (forall q :: q in idle ==> q !in busy)
    && (forall q :: q in idle ==> q < next)
    && (forall q :: q in busy ==> q < next)
  }

  /** The busy list and the busy map hold the same queues, each with a
      positive count. */
  ghost predicate MapOk(busy: seq<QueueId>, counts: map<QueueId, int>) {
    && (forall q :: q in busy <==> q in counts)
    && (forall q :: q in counts ==> counts[q] > 0)
  }

  /** The bookkeeping invariant of the pool: the lists and the map agree
      and the total is the sum of the counts. */
  ghost predicate PoolInv(idle: seq<QueueId>, busy: seq<QueueId>, counts: map<QueueId, int>, total: int, next: QueueId) {
    ListsOk(idle, busy, next) && MapOk(busy, counts) && total == CountSum(busy, counts)
  }

  lemma DistinctSnoc(s: seq<QueueId>, x: QueueId)
    requires Distinct(s) && x !in s
    ensures Distinct(s + [x])
  {
    forall i, j | 0 <= i < j < |s + [x]| ensures (s + [x])[i] != (s + [x])[j] {
      if j == |s| {
        assert (s + [x])[i] == s[i];
      }
    }
  }

  /** Submitting to the head of the busy list rotates it to the end. */
  lemma ReuseBusyKeepsInv(idle: seq<QueueId>, busy: seq<QueueId>, counts: map<QueueId, int>, total: int, next: QueueId)
    requires PoolInv(idle, busy, counts, total, next) && busy != []
    ensures var q := busy[0];
      PoolInv(idle, busy[1..] + [q], counts[q := counts[q] + 1], total + 1, next)
  {
    var q := busy[0];
    var rest := busy[1..];
    var c2 := counts[q := counts[q] + 1];
    assert busy == [q] + rest;
    assert q !in rest;
    assert forall x :: x in rest + [q] <==> x in busy;
    assert ListsOk(idle, rest + [q], next) by {
      DistinctSnoc(rest, q);
    }
    assert MapOk(rest + [q], c2);
    assert total + 1 == CountSum(rest + [q], c2) by {
      CountSumAppend([q], rest, counts);
      CountSumFrame(rest, counts, c2);
      CountSumAppend(rest, [q], c2);
    }
  }

  /** Submitting to a queue that was not busy appends it to the busy list
      with one task. */
  lemma AddBusyKeepsInv(idle: seq<QueueId>, busy: seq<QueueId>, counts: map<QueueId, int>, total: int,
                        next: QueueId, q: QueueId, idle2: seq<QueueId>, next2: QueueId)
    requires PoolInv(idle, busy, counts, total, next)
    requires q !in busy && q < next2 && next <= next2
    requires Distinct(idle2) && forall x :: x in idle2 ==> x in idle && x != q
    ensures PoolInv(idle2, busy + [q], counts[q := 1], total + 1, next2)
  {
    assert q !in counts;
    assert ListsOk(idle2, busy + [q], next2) by {
      DistinctSnoc(busy, q);
    }
    assert MapOk(busy + [q], counts[q := 1]);
    assert total + 1 == CountSum(busy + [q], counts[q := 1]) by {
      CountSumFrame(busy, counts, counts[q := 1]);
      CountSumAppend(busy, [q], counts[q := 1]);
    }
  }

  /** A completion that leaves tasks on the queue decrements its count. */
  lemma CompleteOneKeepsInv(idle: seq<QueueId>, busy: seq<QueueId>, counts: map<QueueId, int>, total: int,
                            next: QueueId, i: nat)
    requires PoolInv(idle, busy, counts, total, next) && i < |busy| && counts[busy[i]] > 1
    ensures PoolInv(idle, busy, counts[busy[i] := counts[busy[i]] - 1], total - 1, next)
  {
    CountSumUpdate(busy, counts, i, counts[busy[i]] - 1);
  }

  /** A completion that empties the queue moves it from busy to idle. */
  lemma CompleteLastKeepsInv(idle: seq<QueueId>, busy: seq<QueueId>, counts: map<QueueId, int>, total: int,
                             next: QueueId, i: nat)
    requires PoolInv(idle, busy, counts, total, next) && i < |busy| && counts[busy[i]] == 1
    ensures var q := busy[i];
      PoolInv(idle + [q], RemoveFirst(busy, q), counts - {q}, total - 1, next)
  {
    var q := busy[i];
    RemoveFirstAt(busy, i);
    CutKeepsDistinct(busy, i);
    CutKeepsLists(idle, busy, next, i);
    CutKeepsMap(busy, counts, i);
    CountSumRemove(busy, counts, i);
  }

  lemma CutKeepsLists(idle: seq<QueueId>, busy: seq<QueueId>, next: QueueId, i: nat)
    requires ListsOk(idle, busy, next) && i < |busy|
    requires Distinct(busy[..i] + busy[i + 1..])
    requires forall x :: x in busy[..i] + busy[i + 1..] <==> x in busy && x != busy[i]
    ensures ListsOk(idle + [busy[i]], busy[..i] + busy[i + 1..], next)
  {
    var q := busy[i];
    assert q in busy;
    assert q !in idle;
    DistinctSnoc(idle, q);
    var cut := busy[..i] + busy[i + 1..];
    forall x | x in idle + [q] ensures x !in cut && x < next {
      assert x in idle || x == q;
    }
    forall x | x in cut ensures x < next {
      assert x in busy;
    }
  }

  lemma CutKeepsMap(busy: seq<QueueId>, counts: map<QueueId, int>, i: nat)
    requires MapOk(busy, counts) && i < |busy|
    requires forall x :: x in busy[..i] + busy[i + 1..] <==> x in busy && x != busy[i]
    ensures MapOk(busy[..i] + busy[i + 1..], counts - {busy[i]})
  {
  }

  /** Cutting one element out of a list without duplicates leaves a list
      without duplicates holding all the other elements. */
  lemma CutKeepsDistinct(s: seq<QueueId>, i: nat)
    requires Distinct(s) && i < |s|
    ensures Distinct(s[..i] + s[i + 1..])
    ensures forall x :: x in s[..i] + s[i + 1..] <==> x in s && x != s[i]
  {
    var c := s[..i] + s[i + 1..];
    assert s == s[..i] + [s[i]] + s[i + 1..];
    assert forall k :: 0 <= k < |c| ==> c[k] == if k < i then s[k] else s[k + 1];
  }

  /** One more element of the list seen by the cleanup. */
  lemma KeepRecentExtend(qs: seq<QueueId>, k: nat, lastTaskTime: QueueId -> int, now: int)
    requires k < |qs|
    ensures KeepRecent(qs[..k + 1], lastTaskTime, now)
            == KeepRecent(qs[..k], lastTaskTime, now) + (if lastTaskTime(qs[k]) < now - CLEANUP_DELAY then [] else [qs[k]])
  {
    assert qs[..k + 1][..k] == qs[..k];
  }

  /** One step of the cleanup loop: the queue at the cursor is `qs[k]`;
      cutting it out when stale, or moving past it otherwise, leaves the
      kept prefix of `qs[..k + 1]` followed by the unseen rest. */
  lemma StaleStep(qs: seq<QueueId>, k: nat, lastTaskTime: QueueId -> int, now: int, kept: seq<QueueId>)
    requires k < |qs| && kept == KeepRecent(qs[..k], lastTaskTime, now) + qs[k..]
    ensures var a := |KeepRecent(qs[..k], lastTaskTime, now)|;
      && a < |kept| && kept[a] == qs[k]
      && (lastTaskTime(qs[k]) < now - CLEANUP_DELAY ==>
            kept[..a] + kept[a + 1..] == KeepRecent(qs[..k + 1], lastTaskTime, now) + qs[k + 1..]
            && |KeepRecent(qs[..k + 1], lastTaskTime, now)| == a)
      && (lastTaskTime(qs[k]) >= now - CLEANUP_DELAY ==>
            kept == KeepRecent(qs[..k + 1], lastTaskTime, now) + qs[k + 1..]
            && |KeepRecent(qs[..k + 1], lastTaskTime, now)| == a + 1)
  {
    var r := KeepRecent(qs[..k], lastTaskTime, now);
    var a := |r|;
    KeepRecentExtend(qs, k, lastTaskTime, now);
    assert qs[k..] == [qs[k]] + qs[k + 1..];
    assert kept == r + [qs[k]] + qs[k + 1..];
    if lastTaskTime(qs[k]) < now - CLEANUP_DELAY {
      assert kept[..a] == r;
      assert kept[a + 1..] == qs[k + 1..];
    }
  }

  /** The loop of `cleanupRunnable` over the idle list: removes, in place,
      every queue whose last task is older than the delay, and counts them. */
  method RemoveStale(qs: seq<QueueId>, lastTaskTime: QueueId -> int, now: int) returns (kept: seq<QueueId>, removed: nat)
    ensures kept == KeepRecent(qs, lastTaskTime, now)
    ensures removed == |qs| - |kept|
  {
    kept := qs;
    removed := 0;
    var a := 0;
    var n := |kept|;
    ghost var k := 0;
    while a < n
      invariant 0 <= a <= n == |kept|
      invariant 0 <= k <= |qs| && n - a == |qs| - k
      invariant kept == KeepRecent(qs[..k], lastTaskTime, now) + qs[k..]
      invariant a == |KeepRecent(qs[..k], lastTaskTime, now)|
      invariant removed == k - a
      decreases n - a
    {
      StaleStep(qs, k, lastTaskTime, now, kept);
      var queue := kept[a];
      if lastTaskTime(queue) < now - CLEANUP_DELAY {
        kept := kept[..a] + kept[a + 1..];
        removed := removed + 1;
        n := n - 1;
      } else {
        a := a + 1;
      }
      k := k + 1;
    }
    assert qs[..k] == qs;
  }

  /** The cleanup keeps the invariant: it only drops idle queues. */
  lemma CleanupKeepsInv(idle: seq<QueueId>, busy: seq<QueueId>, counts: map<QueueId, int>, total: int,
                        next: QueueId, lastTaskTime: QueueId -> int, now: int)
    requires PoolInv(idle, busy, counts, total, next)
    ensures PoolInv(KeepRecent(idle, lastTaskTime, now), busy, counts, total, next)
  {
    KeepRecentDistinct(idle, lastTaskTime, now);
    forall x | x in KeepRecent(idle, lastTaskTime, now) ensures x in idle {
      KeepRecentMembers(idle, lastTaskTime, now, x);
    }
  }

  /** The state of a pool: the idle and busy lists, the per-queue task
      counts, the two counters, whether a cleanup is scheduled and how many
      cleanup posts are pending, and the next fresh queue. */
  datatype Pool = Pool(idle: seq<QueueId>, busy: seq<QueueId>, counts: map<QueueId, int>,
                       total: int, created: int, scheduled: bool, pending: nat, next: QueueId)

  /** The whole invariant: the bookkeeping, every created queue idle or
      busy, the cap when there is one, and exactly one cleanup pending while
      one is scheduled, which it is whenever a queue exists. */
  ghost predicate Inv(p: Pool, maxCount: int) {
    && PoolInv(p.idle, p.busy, p.counts, p.total, p.next)
    && p.created == |p.idle| + |p.busy|
    && (maxCount >= 1 ==> p.created <= maxCount)
    && p.pending == (if p.scheduled then 1 else 0)
    && (p.created > 0 ==> p.scheduled)
  }

  function Empty(): (p: Pool)
    ensures forall maxCount :: Inv(p, maxCount)
  {
    Pool([], [], map[], 0, 0, false, 0, 0)
  }

  /** The queue `execute` submits to. */
  function Chosen(p: Pool, maxCount: int): QueueId {
    match Selection(|p.idle|, |p.busy|, p.total, p.created, maxCount)
    case ReuseBusy => p.busy[0]
    case CreateNew => p.next
    case TakeIdle => p.idle[0]
  }

  /** `execute`: the chosen queue leaves its list, is appended to the busy
      list and counts one more task; the first submission schedules the
      cleanup. */
  function ExecuteStep(p: Pool, maxCount: int): Pool {
    var sel := Selection(|p.idle|, |p.busy|, p.total, p.created, maxCount);
    var q := Chosen(p, maxCount);
    Pool(if sel == TakeIdle then p.idle[1..] else p.idle,
         (if sel == ReuseBusy then p.busy[1..] else p.busy) + [q],
         p.counts[q := (if q in p.counts then p.counts[q] else 0) + 1],
         p.total + 1,
         if sel == CreateNew then p.created + 1 else p.created,
         true,
         if p.scheduled then p.pending else p.pending + 1,
         if sel == CreateNew then p.next + 1 else p.next)
  }

  /** The completion callback for queue `q`. */
  function CompleteStep(p: Pool, q: QueueId): Pool
    requires q in p.counts
  {
    var remaining := p.counts[q] - 1;
    if remaining == 0 then
      p.(counts := p.counts - {q}, busy := RemoveFirst(p.busy, q), idle := p.idle + [q], total := p.total - 1)
    else
      p.(counts := p.counts[q := remaining], total := p.total - 1)
  }

  /** `cleanupRunnable`: drops the stale idle queues, then posts itself
      again exactly when a queue is left. */
  function CleanupStep(p: Pool, lastTaskTime: QueueId -> int, now: int): Pool {
    var kept := KeepRecent(p.idle, lastTaskTime, now);
    var again := kept != [] || p.busy != [];
    p.(idle := kept, created := p.created - (|p.idle| - |kept|),
       scheduled := again, pending := if again then 1 else 0)
  }

  /** `execute` keeps the invariant: in particular the total stays the
      sum of the counts and no queue is created beyond the cap. */
  lemma ExecuteKeepsInv(p: Pool, maxCount: int)
    requires Inv(p, maxCount)
    ensures Inv(ExecuteStep(p, maxCount), maxCount)
  {
    var sel := Selection(|p.idle|, |p.busy|, p.total, p.created, maxCount);
    if maxCount >= 1 {
      SelectionRespectsCap(|p.idle|, |p.busy|, p.total, p.created, maxCount);
    }
    if sel == ReuseBusy {
      ExecuteReuseKeepsInv(p, maxCount);
    } else if sel == CreateNew {
      ExecuteCreateKeepsInv(p, maxCount);
    } else {
      ExecuteTakeKeepsInv(p, maxCount);
    }
  }

  /** `execute` reusing the head of the busy list. */
  lemma ExecuteReuseKeepsInv(p: Pool, maxCount: int)
    requires Inv(p, maxCount) && Selection(|p.idle|, |p.busy|, p.total, p.created, maxCount) == ReuseBusy
    ensures Inv(ExecuteStep(p, maxCount), maxCount)
  {
    var q := p.busy[0];
    ReuseBusyKeepsInv(p.idle, p.busy, p.counts, p.total, p.next);
    var r := ExecuteStep(p, maxCount);
    assert r.idle == p.idle && r.busy == p.busy[1..] + [q] && r.counts == p.counts[q := p.counts[q] + 1];
    assert r.total == p.total + 1 && r.created == p.created && r.next == p.next && r.scheduled;
  }

  /** `execute` creating a queue. */
  lemma ExecuteCreateKeepsInv(p: Pool, maxCount: int)
    requires Inv(p, maxCount) && Selection(|p.idle|, |p.busy|, p.total, p.created, maxCount) == CreateNew
    ensures Inv(ExecuteStep(p, maxCount), maxCount)
  {
    if maxCount >= 1 {
      SelectionRespectsCap(|p.idle|, |p.busy|, p.total, p.created, maxCount);
    }
    var q := p.next;
    AddBusyKeepsInv(p.idle, p.busy, p.counts, p.total, p.next, q, p.idle, p.next + 1);
    assert q !in p.counts;
    var r := ExecuteStep(p, maxCount);
    assert r.idle == p.idle && r.busy == p.busy + [q] && r.counts == p.counts[q := 1];
    assert r.total == p.total + 1 && r.created == p.created + 1 && r.next == p.next + 1 && r.scheduled;
  }

  /** `execute` taking the head of the idle list. */
  lemma ExecuteTakeKeepsInv(p: Pool, maxCount: int)
    requires Inv(p, maxCount) && Selection(|p.idle|, |p.busy|, p.total, p.created, maxCount) == TakeIdle
    ensures Inv(ExecuteStep(p, maxCount), maxCount)
  {
    var q := p.idle[0];
    TakeIdleFront(p.idle, p.busy);
    assert q in p.idle;
    assert q !in p.counts;
    AddBusyKeepsInv(p.idle, p.busy, p.counts, p.total, p.next, q, p.idle[1..], p.next);
    var r := ExecuteStep(p, maxCount);
    assert r.idle == p.idle[1..] && r.busy == p.busy + [q] && r.counts == p.counts[q := 1];
    assert r.total == p.total + 1 && r.created == p.created && r.next == p.next && r.scheduled;
  }

  /** The head of the idle list is not busy, and the rest of the list keeps
      its properties. */
  lemma TakeIdleFront(idle: seq<QueueId>, busy: seq<QueueId>)
    requires idle != [] && Distinct(idle) && forall q :: q in idle ==> q !in busy
    ensures idle[0] !in busy && Distinct(idle[1..])
    ensures forall x :: x in idle[1..] ==> x in idle && x != idle[0]
  {
    assert idle == [idle[0]] + idle[1..];
    assert idle[0] in idle;
  }

  /** What `execute` does to the chosen queue: it is busy afterwards, at
      the end of the busy list, with one more task than before, and a
      created queue is one that did not exist. */
  lemma ExecuteCountsTask(p: Pool, maxCount: int)
    requires Inv(p, maxCount)
    ensures var q := Chosen(p, maxCount); var r := ExecuteStep(p, maxCount);
      && r.busy[|r.busy| - 1] == q && q !in r.idle
      && r.counts[q] == (if q in p.counts then p.counts[q] else 0) + 1
      && r.total == p.total + 1
      && (Selection(|p.idle|, |p.busy|, p.total, p.created, maxCount) == CreateNew ==>
            q !in p.idle && q !in p.busy)
      && r.scheduled && r.pending == 1
  {
    ExecuteKeepsInv(p, maxCount);
  }

  /** A completion keeps the invariant. */
  lemma CompleteKeepsInv(p: Pool, maxCount: int, q: QueueId)
    requires Inv(p, maxCount) && q in p.counts
    ensures Inv(CompleteStep(p, q), maxCount)
  {
    assert q in p.busy;
    var i :| 0 <= i < |p.busy| && p.busy[i] == q;
    if p.counts[q] == 1 {
      CompleteLastStep(p, maxCount, i);
    } else {
      CompleteOneKeepsInv(p.idle, p.busy, p.counts, p.total, p.next, i);
      var r := CompleteStep(p, q);
      assert r.idle == p.idle && r.busy == p.busy && r.created == p.created;
    }
  }

  /** The completion of the last task of the queue at position `i`. */
  lemma CompleteLastStep(p: Pool, maxCount: int, i: nat)
    requires Inv(p, maxCount) && i < |p.busy| && p.busy[i] in p.counts && p.counts[p.busy[i]] == 1
    ensures Inv(CompleteStep(p, p.busy[i]), maxCount)
  {
    var q := p.busy[i];
    CompleteLastKeepsInv(p.idle, p.busy, p.counts, p.total, p.next, i);
    var r := CompleteStep(p, q);
    assert r.idle == p.idle + [q] && r.busy == RemoveFirst(p.busy, q) && r.counts == p.counts - {q};
    assert r.total == p.total - 1 && r.created == p.created && r.scheduled == p.scheduled && r.pending == p.pending;
    assert |r.idle| + |r.busy| == |p.idle| + |p.busy|;
  }

  /** A queue whose last task completes becomes idle; otherwise it stays
      busy with one task less. */
  lemma CompleteMeaning(p: Pool, maxCount: int, q: QueueId)
    requires Inv(p, maxCount) && q in p.counts
    ensures var r := CompleteStep(p, q);
      && (p.counts[q] == 1 <==> q in r.idle)
      && (p.counts[q] == 1 <==> q !in r.busy)
      && (p.counts[q] > 1 ==> r.counts[q] == p.counts[q] - 1)
      && r.total == p.total - 1 && r.created == p.created
  {
    CompleteKeepsInv(p, maxCount, q);
    assert q !in p.idle;
  }

  /** The cleanup keeps the invariant, removes only stale idle queues and
      reschedules itself exactly when a queue is left. */
  lemma CleanupMeaning(p: Pool, maxCount: int, lastTaskTime: QueueId -> int, now: int)
    requires Inv(p, maxCount) && p.pending == 1
    ensures var r := CleanupStep(p, lastTaskTime, now);
      && Inv(r, maxCount)
      && (forall q :: q in r.idle <==> q in p.idle && lastTaskTime(q) >= now - CLEANUP_DELAY)
      && r.busy == p.busy && r.counts == p.counts && r.total == p.total
      && (r.scheduled <==> r.created > 0)
  {
    CleanupKeepsInv(p.idle, p.busy, p.counts, p.total, p.next, lastTaskTime, now);
    forall q ensures q in CleanupStep(p, lastTaskTime, now).idle <==> q in p.idle && lastTaskTime(q) >= now - CLEANUP_DELAY {
      KeepRecentMembers(p.idle, lastTaskTime, now, q);
    }
  }

  class QueuePool {
    const maxCount: int
    /** the idle queues */
    var queues: seq<QueueId>
    var busyQueuesMap: map<QueueId, int>
    var busyQueues: seq<QueueId>
    var createdCount: int
    var totalTasksCount: int
    var cleanupScheduled: bool
    /** cleanup runnables posted to the UI thread and not yet run */
    var pendingCleanups: nat
    /** the next fresh queue (the source names each queue randomly) */
    var nextQueue: QueueId

    function State(): Pool
      reads this
    {
      Pool(queues, busyQueues, busyQueuesMap, totalTasksCount, createdCount, cleanupScheduled, pendingCleanups, nextQueue)
    }

    ghost predicate Valid()
      reads this
    {
      Inv(State(), maxCount)
    }

    constructor (count: int)
      ensures Valid() && maxCount == count && State() == Empty()
    {
      maxCount := count;
      queues, busyQueuesMap, busyQueues := [], map[], [];
      createdCount, totalTasksCount := 0, 0;
      cleanupScheduled, pendingCleanups := false, 0;
      nextQueue := 0;
    }

    /** `execute`: picks a queue, counts the submission against it and moves it
        to the end of the busy list. */
    method Execute() returns (q: QueueId)
      requires Valid()
      modifies this
      ensures Valid()
      ensures q == Chosen(old(State()), maxCount)
      ensures State() == ExecuteStep(old(State()), maxCount)
    {
      ghost var s0 := State();
      ExecuteKeepsInv(s0, maxCount);
      var p := Selection(|queues|, |busyQueues|, totalTasksCount, createdCount, maxCount);
      if p == ReuseBusy {
        q := busyQueues[0];
        busyQueues := busyQueues[1..];
      } else if p == CreateNew {
        q := nextQueue;
        nextQueue := nextQueue + 1;
        createdCount := createdCount + 1;
      } else {
        q := queues[0];
        queues := queues[1..];
      }
      if !cleanupScheduled {
        pendingCleanups := pendingCleanups + 1;
        cleanupScheduled := true;
      }
      totalTasksCount := totalTasksCount + 1;
      busyQueues := busyQueues + [q];
      var count := if q in busyQueuesMap then busyQueuesMap[q] else 0;
      busyQueuesMap := busyQueuesMap[q := count + 1];
      ghost var s1 := ExecuteStep(s0, maxCount);
      assert queues == s1.idle && busyQueues == s1.busy && busyQueuesMap == s1.counts;
      assert totalTasksCount == s1.total && createdCount == s1.created && nextQueue == s1.next;
    }

    /** The completion callback of a task run on queue `q`. */
    method Complete(q: QueueId)
      requires Valid() && q in busyQueuesMap
      modifies this
      ensures Valid()
      ensures State() == CompleteStep(old(State()), q)
    {
      ghost var target := CompleteStep(State(), q);
      CompleteKeepsInv(State(), maxCount, q);
      var remaining := busyQueuesMap[q] - 1;
      if remaining == 0 {
        busyQueuesMap, busyQueues, queues, totalTasksCount :=
          busyQueuesMap - {q}, RemoveFirst(busyQueues, q), queues + [q], totalTasksCount - 1;
      } else {
        busyQueuesMap, totalTasksCount := busyQueuesMap[q := remaining], totalTasksCount - 1;
      }
      assert State() == target;
    }

    /** `cleanupRunnable`, run when its delay has passed, with the clock
        and each queue's last task time as parameters. */
    method Cleanup(now: int, lastTaskTime: QueueId -> int)
      requires Valid() && pendingCleanups == 1
      modifies this
      ensures Valid()
      ensures State() == CleanupStep(old(State()), lastTaskTime, now)
    {
      CleanupMeaning(State(), maxCount, lastTaskTime, now);
      pendingCleanups := 0;
      var kept, removed := RemoveStale(queues, lastTaskTime, now);
      queues, createdCount := kept, createdCount - removed;
      if queues != [] || busyQueues != [] {
        pendingCleanups := 1;
        cleanupScheduled := true;
      } else {
        cleanupScheduled := false;
      }
    }
  }
}
