/** The queue of one destination: which message goes next, and what becomes of it. */
module Queues {
  import opened Text
  import opened Retry
  import opened Sorting

  datatype QueuedMessage = QueuedMessage(
    queueId: string,
    attempt: nat,
    nextRetryAt: Option<real>,
    priority: nat)

  /** The value of a queue object. */
  datatype Queue = Queue(pending: seq<QueuedMessage>, inFlight: nat, concurrencyLimit: nat)

  predicate IsReady(m: QueuedMessage, now: real) {
    m.nextRetryAt.None? || m.nextRetryAt.value <= now
  }

  function Without<T>(s: seq<T>, i: nat): seq<T>
    requires i < |s|
  {
    s[..i] + s[i + 1..]
  }

  // ---------------------------------------------------------------- which message goes next

  /** The first ready message among those of the least priority value. */
  predicate IsBest(pending: seq<QueuedMessage>, now: real, i: nat) {
    && i < |pending| && IsReady(pending[i], now)
    && (forall j :: 0 <= j < |pending| && IsReady(pending[j], now) ==> pending[i].priority <= pending[j].priority)
    && (forall j :: 0 <= j < i && IsReady(pending[j], now) ==> pending[i].priority < pending[j].priority)
  }

  predicate NoneReady(pending: seq<QueuedMessage>, now: real) {
    forall j :: 0 <= j < |pending| ==> !IsReady(pending[j], now)
  }

  /** The best among the first `n`. */
  function BestOf(pending: seq<QueuedMessage>, now: real, n: nat): (r: Option<nat>)
    requires n <= |pending|
    ensures r.Some? ==> r.value < n && IsBest(pending[..n], now, r.value)
    ensures r.None? ==> NoneReady(pending[..n], now)
  {
    if n == 0 then None
    else
      var before := BestOf(pending, now, n - 1);
      assert pending[..n] == pending[..n - 1] + [pending[n - 1]];
      if !IsReady(pending[n - 1], now) then before
      else if before.Some? && pending[before.value].priority <= pending[n - 1].priority then before
      else Some(n - 1)
  }

  /** At most one position is the best, so the choice is determined. */
  lemma BestIsUnique(pending: seq<QueuedMessage>, now: real, i: nat, j: nat)
    requires IsBest(pending, now, i) && IsBest(pending, now, j)
    ensures i == j
  {
  }

  function StartDelivery(q: Queue, now: real): (Queue, Option<QueuedMessage>) {
    var best := BestOf(q.pending, now, |q.pending|);
    match best
    case None => (q, None)
    case Some(i) => (q.(pending := Without(q.pending, i), inFlight := q.inFlight + 1), Some(q.pending[i]))
  }

  function Enqueue(q: Queue, queueId: string, priority: nat): Queue {
    q.(pending := q.pending + [QueuedMessage(queueId, 0, None, priority)])
  }

  function Release(n: nat): nat {
    if n > 0 then n - 1 else 0
  }

  function OnSuccess(q: Queue): Queue {
    q.(inFlight := Release(q.inFlight))
  }

  function Retried(m: QueuedMessage, schedule: RetrySchedule, now: real): QueuedMessage {
    m.(attempt := m.attempt + 1, nextRetryAt := Some(now + schedule.DelayForAttempt(m.attempt + 1)))
  }

  function OnFailure(q: Queue, m: QueuedMessage, schedule: RetrySchedule, now: real): Queue {
    var released := q.(inFlight := Release(q.inFlight));
    if schedule.ShouldGiveUp(m.attempt + 1) then released
    else released.(pending := q.pending + [Retried(m, schedule, now)])
  }

  /** A failed message goes to the end of the queue, one attempt older and due when its delay has
      passed, if and only if the schedule allows one more attempt; otherwise it is gone. */
  lemma FailureIs(q: Queue, m: QueuedMessage, schedule: RetrySchedule, now: real)
    ensures var after := OnFailure(q, m, schedule, now);
            && (|after.pending| == |q.pending| + 1 <==> m.attempt + 1 < schedule.maxAttempts)
            && q.pending <= after.pending && |after.pending| <= |q.pending| + 1
            && after.inFlight == (if q.inFlight == 0 then 0 else q.inFlight - 1) && after.concurrencyLimit == q.concurrencyLimit
            && forall back :: after.pending == q.pending + [back] ==>
                 && back.queueId == m.queueId && back.priority == m.priority && back.attempt == m.attempt + 1
                 && back.nextRetryAt == Some(now + schedule.DelayForAttempt(m.attempt + 1))
  {
    forall back | OnFailure(q, m, schedule, now).pending == q.pending + [back]
      ensures m.attempt + 1 < schedule.maxAttempts && back == Retried(m, schedule, now)
    {
      assert (q.pending + [back])[|q.pending|] == back;
    }
  }

  class DestinationQueue {
    const domain: string
    const concurrencyLimit: nat
    var pending: seq<QueuedMessage>
    var inFlight: nat

    ghost function Model(): Queue
      reads this
    {
      Queue(pending, inFlight, concurrencyLimit)
    }

    constructor (domain: string, concurrencyLimit: nat)
      ensures Model() == Queue([], 0, concurrencyLimit) && this.domain == domain
    {
      this.domain := domain;
      this.concurrencyLimit := concurrencyLimit;
      pending := [];
      inFlight := 0;
    }

    predicate CanSendNow()
      reads this
    {
      inFlight < concurrencyLimit
    }

    method Add(queueId: string, priority: nat)
      modifies this`pending
      ensures Model() == Enqueue(old(Model()), queueId, priority)
    {
      pending := pending + [QueuedMessage(queueId, 0, None, priority)];
    }

    /** The message that is both ready and of the least priority value, the oldest if several are. */
    method Start(now: real) returns (message: Option<QueuedMessage>)
      modifies this
      ensures (Model(), message) == StartDelivery(old(Model()), now)
      ensures message.None? <==> NoneReady(old(pending), now)
    {
      var best: Option<nat> := None;
      var i := 0;
      while i < |pending|
        invariant 0 <= i <= |pending|
        invariant best == BestOf(pending, now, i)
      {
        if IsReady(pending[i], now) && (best.None? || pending[i].priority < pending[best.value].priority) {
          best := Some(i);
        }
        i := i + 1;
      }
      assert pending[..i] == pending;
      if best.None? {
        return None;
      }
      message := Some(pending[best.value]);
      pending := pending[..best.value] + pending[best.value + 1..];
      inFlight := inFlight + 1;
    }

    method Succeeded()
      modifies this`inFlight
      ensures Model() == OnSuccess(old(Model()))
    {
      if inFlight > 0 {
        inFlight := inFlight - 1;
      }
    }

    method Failed(message: QueuedMessage, schedule: RetrySchedule, now: real)
      modifies this
      ensures Model() == OnFailure(old(Model()), message, schedule, now)
    {
      if inFlight > 0 {
        inFlight := inFlight - 1;
      }
      var attempt := message.attempt + 1;
      if !schedule.ShouldGiveUp(attempt) {
        var delay := schedule.DelayForAttempt(attempt);
        pending := pending + [message.(attempt := attempt, nextRetryAt := Some(now + delay))];
      }
    }
  }

  // ---------------------------------------------------------------- draining a queue

  const PRIORITY_OF: QueuedMessage -> int := (m: QueuedMessage) => m.priority

  /** Starting deliveries until none is left to start. */
  function Drain(q: Queue, now: real): seq<QueuedMessage>
    decreases |q.pending|
  {
    var (q', m) := StartDelivery(q, now);
    if m.None? then [] else [m.value] + Drain(q', now)
  }

  predicate AllReady(pending: seq<QueuedMessage>, now: real) {
    forall i :: 0 <= i < |pending| ==> IsReady(pending[i], now)
  }

  lemma WholeIs(pending: seq<QueuedMessage>)
    ensures pending[..|pending|] == pending
  {
  }

  lemma NoneBeforeBest(pending: seq<QueuedMessage>, now: real, i: nat)
    requires AllReady(pending, now) && IsBest(pending, now, i)
    ensures WithKey(PRIORITY_OF, pending[i].priority, pending[..i]) == []
  {
    forall j | 0 <= j < i ensures PRIORITY_OF(pending[..i][j]) != pending[i].priority {
      assert IsReady(pending[j], now);
    }
    WithKeyAbsent(PRIORITY_OF, pending[i].priority, pending[..i]);
  }

  lemma {:induction false} WithKeySplit(k: int, a: seq<QueuedMessage>, x: QueuedMessage, b: seq<QueuedMessage>)
    ensures WithKey(PRIORITY_OF, k, a + [x] + b)
         == WithKey(PRIORITY_OF, k, a) + (if x.priority == k then [x] else []) + WithKey(PRIORITY_OF, k, b)
  {
    WithKeyAppend(PRIORITY_OF, k, a + [x], b);
    WithKeySnoc(PRIORITY_OF, k, a, x);
  }

  /** Taking the best out of a ready queue takes the first item of its priority and no other. */
  lemma {:induction false} WithoutBest(pending: seq<QueuedMessage>, now: real, i: nat, k: int)
    requires AllReady(pending, now) && IsBest(pending, now, i)
    ensures WithKey(PRIORITY_OF, k, pending)
         == (if pending[i].priority == k then [pending[i]] else []) + WithKey(PRIORITY_OF, k, Without(pending, i))
  {
    var a, x, b := pending[..i], pending[i], pending[i + 1..];
    assert pending == a + [x] + b;
    WithKeySplit(k, a, x, b);
    WithKeyAppend(PRIORITY_OF, k, a, b);
    if x.priority == k { NoneBeforeBest(pending, now, i); }
  }

  lemma BestIsLeast(pending: seq<QueuedMessage>, now: real, i: nat, m: QueuedMessage)
    requires AllReady(pending, now) && IsBest(pending, now, i) && m in Without(pending, i)
    ensures pending[i].priority <= m.priority && m in pending
  {
    var rest := Without(pending, i);
    var l :| 0 <= l < |rest| && rest[l] == m;
    assert m == pending[if l < i then l else l + 1];
  }

  lemma ConsSorted(m: QueuedMessage, rest: seq<QueuedMessage>)
    requires SortedBy(PRIORITY_OF, rest) && forall x :: x in rest ==> m.priority <= x.priority
    ensures SortedBy(PRIORITY_OF, [m] + rest)
  {
    forall j | 0 <= j < |rest| ensures m.priority <= rest[j].priority { assert rest[j] in rest; }
  }

  lemma ConsSame(pending: seq<QueuedMessage>, now: real, i: nat, rest: seq<QueuedMessage>)
    requires AllReady(pending, now) && IsBest(pending, now, i) && SameByKey(PRIORITY_OF, rest, Without(pending, i))
    ensures SameByKey(PRIORITY_OF, [pending[i]] + rest, pending)
  {
    forall k ensures SameAt(PRIORITY_OF, [pending[i]] + rest, pending, k) {
      assert SameAt(PRIORITY_OF, rest, Without(pending, i), k);
      WithKeySplit(k, [], pending[i], rest);
      assert [] + [pending[i]] == [pending[i]];
      WithoutBest(pending, now, i, k);
    }
  }

  lemma {:induction false} DrainSorts(q: Queue, now: real)
    requires AllReady(q.pending, now)
    ensures SortedBy(PRIORITY_OF, Drain(q, now))
    ensures SameByKey(PRIORITY_OF, Drain(q, now), q.pending)
    ensures forall m :: m in Drain(q, now) ==> m in q.pending
    decreases |q.pending|
  {
    WholeIs(q.pending);
    var (q', m) := StartDelivery(q, now);
    if m.Some? {
      var i := BestOf(q.pending, now, |q.pending|).value;
      DrainSorts(q', now);
      forall x | x in Drain(q', now) ensures m.value.priority <= x.priority && x in q.pending {
        BestIsLeast(q.pending, now, i, x);
      }
      ConsSorted(m.value, Drain(q', now));
      ConsSame(q.pending, now, i, Drain(q', now));
    } else {
      assert q.pending == [];
    }
  }

  /** With every message ready, deliveries start in exactly the order of a stable sort by priority:
      lower values first, and first in, first out among equals. */
  lemma {:induction false} DrainIsStableSort(q: Queue, now: real)
    requires AllReady(q.pending, now)
    ensures Drain(q, now) == StableSort(PRIORITY_OF, q.pending)
  {
    DrainSorts(q, now);
    StableSortIsStable(PRIORITY_OF, q.pending);
    SameAsBoth(PRIORITY_OF, Drain(q, now), StableSort(PRIORITY_OF, q.pending), q.pending);
    StableSortUnique(PRIORITY_OF, Drain(q, now), StableSort(PRIORITY_OF, q.pending));
  }
}
