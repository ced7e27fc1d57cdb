/** Runs of the delivery scheduler: nothing is lost, limits hold, and retries are bounded and spaced. */
module Scheduler {
  import opened Text
  import opened Retry
  import opened Queues

  // ---------------------------------------------------------------- conservation and the limit

  function One(here: bool): nat {
    if here then 1 else 0
  }

  /** How often an id is waiting. */
  function Waiting(ms: seq<QueuedMessage>, id: string): nat {
    if ms == [] then 0 else Waiting(ms[..|ms| - 1], id) + One(ms[|ms| - 1].queueId == id)
  }

  /** A queue with an account of every id that ever entered it. */
  datatype Account = Account(
    queue: Queue,
    enqueued: multiset<string>,
    outstanding: multiset<string>,
    delivered: multiset<string>,
    givenUp: multiset<string>)

  datatype Event =
    | Enqueued(queueId: string, priority: nat)
    | Pick(now: real)
    | Success(queueId: string)
    | Failure(message: QueuedMessage, now: real)

  /** Only a pick that is still outstanding can be completed. */
  predicate Allowed(a: Account, e: Event) {
    match e
    case Success(id) => id in a.outstanding
    case Failure(m, _) => m.queueId in a.outstanding
    case _ => true
  }

  /** One event; like the manager, a delivery is only started while a slot is free.  The message
      handed back on failure need not be the one picked: only its id is relied on. */
  function Next(a: Account, e: Event, schedule: RetrySchedule): Account
    requires Allowed(a, e)
  {
    match e
    case Enqueued(id, priority) =>
      a.(queue := Enqueue(a.queue, id, priority), enqueued := a.enqueued + multiset{id})
    case Pick(now) =>
      if a.queue.inFlight >= a.queue.concurrencyLimit then a else
      var (q, m) := StartDelivery(a.queue, now);
      if m.None? then a else a.(queue := q, outstanding := a.outstanding + multiset{m.value.queueId})
    case Success(id) =>
      a.(queue := OnSuccess(a.queue), outstanding := a.outstanding - multiset{id}, delivered := a.delivered + multiset{id})
    case Failure(m, now) =>
      var done := a.(queue := OnFailure(a.queue, m, schedule, now), outstanding := a.outstanding - multiset{m.queueId});
      if schedule.ShouldGiveUp(m.attempt + 1) then done.(givenUp := a.givenUp + multiset{m.queueId}) else done
  }

  predicate AccountedFor(a: Account, id: string) {
    a.enqueued[id] == Waiting(a.queue.pending, id) + a.outstanding[id] + a.delivered[id] + a.givenUp[id]
  }

  /** Every id is in as many places as it was enqueued times, the slots in use are the outstanding
      picks, and there are never more of them than the limit. */
  ghost predicate Balanced(a: Account) {
    && (forall id :: AccountedFor(a, id))
    && a.queue.inFlight == |a.outstanding| <= a.queue.concurrencyLimit
  }

  predicate Possible(a: Account, es: seq<Event>, schedule: RetrySchedule)
    decreases |es|
  {
    es != [] ==> Allowed(a, es[0]) && Possible(Next(a, es[0], schedule), es[1..], schedule)
  }

  function Play(a: Account, es: seq<Event>, schedule: RetrySchedule): Account
    requires Possible(a, es, schedule)
    decreases |es|
  {
    if es == [] then a else Play(Next(a, es[0], schedule), es[1..], schedule)
  }

  lemma {:induction false} WaitingSnoc(ms: seq<QueuedMessage>, m: QueuedMessage, id: string)
    ensures Waiting(ms + [m], id) == Waiting(ms, id) + One(m.queueId == id)
  {
    assert (ms + [m])[..|ms|] == ms;
  }

  lemma {:induction false} WaitingWithout(ms: seq<QueuedMessage>, i: nat, id: string)
    requires i < |ms|
    ensures Waiting(ms, id) == Waiting(Without(ms, i), id) + One(ms[i].queueId == id)
    decreases |ms|
  {
    var n := |ms| - 1;
    if i == n {
      assert Without(ms, i) == ms[..n];
    } else {
      assert Without(ms, i) == Without(ms[..n], i) + [ms[n]];
      WaitingSnoc(Without(ms[..n], i), ms[n], id);
      WaitingWithout(ms[..n], i, id);
    }
  }

  lemma PickAccounted(a: Account, now: real, schedule: RetrySchedule, id: string)
    requires AccountedFor(a, id)
    ensures AccountedFor(Next(a, Pick(now), schedule), id)
  {
    var best := BestOf(a.queue.pending, now, |a.queue.pending|);
    if best.Some? { WaitingWithout(a.queue.pending, best.value, id); }
  }

  lemma FailureAccounted(a: Account, m: QueuedMessage, now: real, schedule: RetrySchedule, id: string)
    requires m.queueId in a.outstanding && AccountedFor(a, id)
    ensures AccountedFor(Next(a, Failure(m, now), schedule), id)
  {
    WaitingSnoc(a.queue.pending, Retried(m, schedule, now), id);
  }

  lemma EventAccounted(a: Account, e: Event, schedule: RetrySchedule, id: string)
    requires Allowed(a, e) && AccountedFor(a, id)
    ensures AccountedFor(Next(a, e, schedule), id)
  {
    match e
    case Enqueued(arrived, priority) => WaitingSnoc(a.queue.pending, QueuedMessage(arrived, 0, None, priority), id);
    case Pick(now) => PickAccounted(a, now, schedule, id);
    case Success(done) =>
    case Failure(m, now) => FailureAccounted(a, m, now, schedule, id);
  }

  lemma EventBalanced(a: Account, e: Event, schedule: RetrySchedule)
    requires Balanced(a) && Allowed(a, e)
    ensures Balanced(Next(a, e, schedule))
  {
    forall id ensures AccountedFor(Next(a, e, schedule), id) {
      assert AccountedFor(a, id);
      EventAccounted(a, e, schedule, id);
    }
  }

  /** Over every run in which each pick is completed at most once, no message is lost or duplicated
      and the concurrency limit holds. */
  lemma {:induction false} EveryRunBalanced(a: Account, es: seq<Event>, schedule: RetrySchedule)
    requires Balanced(a) && Possible(a, es, schedule)
    ensures Balanced(Play(a, es, schedule))
    decreases |es|
  {
    if es != [] {
      EventBalanced(a, es[0], schedule);
      EveryRunBalanced(Next(a, es[0], schedule), es[1..], schedule);
    }
  }

  lemma NewQueueBalanced(limit: nat)
    ensures Balanced(Account(Queue([], 0, limit), multiset{}, multiset{}, multiset{}, multiset{}))
  {
  }

  // ---------------------------------------------------------------- bounded, spaced retries

  /** A destination whose picked messages are handed back as they were: the queue, the messages
      being delivered, and for each id how often it was started and when it last failed. */
  datatype Desk = Desk(
    queue: Queue,
    out: seq<QueuedMessage>,
    starts: map<string, nat>,
    failedAt: map<string, real>)

  datatype Step =
    | Arrive(queueId: string, priority: nat)
    | Start(now: real)
    | Succeed(slot: nat)
    | Fail(slot: nat, now: real)

  predicate Known(d: Desk, id: string) {
    id in d.starts
  }

  /** Queue ids are never reused, and completions name a message that is out. */
  predicate CanTake(d: Desk, s: Step) {
    match s
    case Arrive(id, _) => !Known(d, id)
    case Start(now) => !NoneReady(d.queue.pending, now)
    case Succeed(slot) => slot < |d.out|
    case Fail(slot, _) => slot < |d.out|
  }

  function Take(d: Desk, s: Step, schedule: RetrySchedule): Desk
    requires CanTake(d, s)
  {
    match s
    case Arrive(id, priority) => d.(queue := Enqueue(d.queue, id, priority), starts := d.starts[id := 0])
    case Start(now) =>
      var (q, m) := StartDelivery(d.queue, now);
      if m.None? then d else
      var id := m.value.queueId;
      d.(queue := q, out := d.out + [m.value], starts := d.starts[id := 1 + if id in d.starts then d.starts[id] else 0])
    case Succeed(slot) => d.(queue := OnSuccess(d.queue), out := Without(d.out, slot))
    case Fail(slot, now) =>
      d.(queue := OnFailure(d.queue, d.out[slot], schedule, now), out := Without(d.out, slot),
         failedAt := d.failedAt[d.out[slot].queueId := now])
  }

  /** A waiting message has been started as often as it has failed, stays below the limit, and may
      not go before its delay after its latest failure has passed. */
  predicate WaitingWell(d: Desk, schedule: RetrySchedule, m: QueuedMessage) {
    && m.queueId in d.starts && d.starts[m.queueId] == m.attempt < schedule.MaxStarts()
    && (m.attempt == 0 <==> m.nextRetryAt.None?)
    && (m.attempt > 0 ==> m.queueId in d.failedAt
                          && m.nextRetryAt == Some(d.failedAt[m.queueId] + schedule.DelayForAttempt(m.attempt)))
  }

  predicate OutWell(d: Desk, schedule: RetrySchedule, m: QueuedMessage) {
    m.queueId in d.starts && d.starts[m.queueId] == m.attempt + 1 <= schedule.MaxStarts()
  }

  predicate DistinctIds(ms: seq<QueuedMessage>) {
    forall i, j :: 0 <= i < j < |ms| ==> ms[i].queueId != ms[j].queueId
  }

  predicate InOrder(d: Desk, schedule: RetrySchedule) {
    && DistinctIds(d.queue.pending + d.out)
    && (forall m :: m in d.queue.pending ==> WaitingWell(d, schedule, m))
    && (forall m :: m in d.out ==> OutWell(d, schedule, m))
    && (forall id :: id in d.starts ==> d.starts[id] <= schedule.MaxStarts())
  }

  lemma DistinctMove(a: seq<QueuedMessage>, b: seq<QueuedMessage>, i: nat)
    requires i < |a| && DistinctIds(a + b)
    ensures DistinctIds(Without(a, i) + (b + [a[i]]))
    ensures forall m :: m in Without(a, i) ==> m in a && m.queueId != a[i].queueId
    ensures forall m :: m in b ==> m.queueId != a[i].queueId
  {
    var ab := a + b;
    var r := Without(a, i) + (b + [a[i]]);
    var n := |ab| - 1;
    assert forall k :: 0 <= k < n ==> r[k] == ab[if k < i then k else k + 1];
    assert r[n] == ab[i];
    forall m | m in b ensures m.queueId != a[i].queueId {
      var j :| 0 <= j < |b| && b[j] == m;
      assert ab[|a| + j] == m && ab[i] == a[i];
    }
    forall m | m in Without(a, i) ensures m in a && m.queueId != a[i].queueId {
      var j :| 0 <= j < |Without(a, i)| && Without(a, i)[j] == m;
      var k := if j < i then j else j + 1;
      assert a[k] == m && ab[k] == m && ab[i] == a[i];
    }
  }

  lemma DistinctSwap(a: seq<QueuedMessage>, b: seq<QueuedMessage>)
    requires DistinctIds(a + b)
    ensures DistinctIds(b + a)
  {
    var ab, ba := a + b, b + a;
    assert forall k :: 0 <= k < |ba| ==> ba[k] == ab[if k < |b| then |a| + k else k - |b|];
  }

  lemma DistinctDrop(a: seq<QueuedMessage>, i: nat, b: seq<QueuedMessage>)
    requires i < |a| && DistinctIds(a + b)
    ensures DistinctIds(b + Without(a, i))
    ensures forall m :: m in Without(a, i) ==> m in a && m.queueId != a[i].queueId
    ensures forall m :: m in b ==> m.queueId != a[i].queueId
  {
    DistinctMove(a, b, i);
    var r := Without(a, i) + (b + [a[i]]);
    var s := Without(a, i) + b;
    assert forall k :: 0 <= k < |s| ==> s[k] == r[k];
    DistinctSwap(Without(a, i), b);
  }

  lemma ArriveInOrder(d: Desk, schedule: RetrySchedule, id: string, priority: nat)
    requires InOrder(d, schedule) && !Known(d, id)
    ensures InOrder(Take(d, Arrive(id, priority), schedule), schedule)
  {
    var m := QueuedMessage(id, 0, None, priority);
    var pending := d.queue.pending;
    var r, s := pending + [m] + d.out, pending + d.out;
    forall k | 0 <= k < |r| && k != |pending| ensures r[k].queueId != id && r[k] == s[if k < |pending| then k else k - 1] {
      if k < |pending| { assert pending[k] in pending; } else { assert d.out[k - |pending| - 1] in d.out; }
    }
  }

  lemma StartInOrder(d: Desk, schedule: RetrySchedule, now: real)
    requires InOrder(d, schedule) && !NoneReady(d.queue.pending, now)
    ensures InOrder(Take(d, Start(now), schedule), schedule)
  {
    WholeIs(d.queue.pending);
    var i := BestOf(d.queue.pending, now, |d.queue.pending|).value;
    var m := d.queue.pending[i];
    assert m in d.queue.pending;
    DistinctMove(d.queue.pending, d.out, i);
    var d' := Take(d, Start(now), schedule);
    forall x | x in d'.out ensures OutWell(d', schedule, x) {
      if x != m { assert x in d.out; }
    }
    forall x | x in d'.queue.pending ensures WaitingWell(d', schedule, x) {
      assert x in d.queue.pending && x.queueId != m.queueId;
    }
  }

  lemma SucceedInOrder(d: Desk, schedule: RetrySchedule, slot: nat)
    requires InOrder(d, schedule) && slot < |d.out|
    ensures InOrder(Take(d, Succeed(slot), schedule), schedule)
  {
    DistinctSwap(d.queue.pending, d.out);
    DistinctDrop(d.out, slot, d.queue.pending);
  }

  lemma FailInOrder(d: Desk, schedule: RetrySchedule, slot: nat, now: real)
    requires InOrder(d, schedule) && slot < |d.out|
    ensures InOrder(Take(d, Fail(slot, now), schedule), schedule)
  {
    var m := d.out[slot];
    assert m in d.out;
    DistinctSwap(d.queue.pending, d.out);
    DistinctDrop(d.out, slot, d.queue.pending);
    if !schedule.ShouldGiveUp(m.attempt + 1) {
      DistinctMove(d.out, d.queue.pending, slot);
      DistinctSwap(Without(d.out, slot), d.queue.pending + [m]);
      var back := Retried(m, schedule, now);
      var r, s := d.queue.pending + [back] + Without(d.out, slot), d.queue.pending + [m] + Without(d.out, slot);
      assert forall k :: 0 <= k < |r| ==> r[k].queueId == s[k].queueId;
    }
  }

  lemma StepInOrder(d: Desk, s: Step, schedule: RetrySchedule)
    requires InOrder(d, schedule) && CanTake(d, s)
    ensures InOrder(Take(d, s, schedule), schedule)
  {
    match s
    case Arrive(id, priority) => ArriveInOrder(d, schedule, id, priority);
    case Start(now) => StartInOrder(d, schedule, now);
    case Succeed(slot) => SucceedInOrder(d, schedule, slot);
    case Fail(slot, now) => FailInOrder(d, schedule, slot, now);
  }

  predicate CanRun(d: Desk, steps: seq<Step>, schedule: RetrySchedule)
    decreases |steps|
  {
    steps != [] ==> CanTake(d, steps[0]) && CanRun(Take(d, steps[0], schedule), steps[1..], schedule)
  }

  function RunSteps(d: Desk, steps: seq<Step>, schedule: RetrySchedule): Desk
    requires CanRun(d, steps, schedule)
    decreases |steps|
  {
    if steps == [] then d else RunSteps(Take(d, steps[0], schedule), steps[1..], schedule)
  }

  function NewDesk(limit: nat): Desk {
    Desk(Queue([], 0, limit), [], map[], map[])
  }

  /** In every run from an empty queue, no message is started more often than the schedule allows. */
  lemma {:induction false} StartsBounded(limit: nat, steps: seq<Step>, schedule: RetrySchedule, id: string)
    requires CanRun(NewDesk(limit), steps, schedule)
    ensures var end := RunSteps(NewDesk(limit), steps, schedule);
            id in end.starts ==> end.starts[id] <= schedule.MaxStarts()
  {
    RunInOrder(NewDesk(limit), steps, schedule);
  }

  lemma {:induction false} RunInOrder(d: Desk, steps: seq<Step>, schedule: RetrySchedule)
    requires InOrder(d, schedule) && CanRun(d, steps, schedule)
    ensures InOrder(RunSteps(d, steps, schedule), schedule)
    decreases |steps|
  {
    if steps != [] {
      StepInOrder(d, steps[0], schedule);
      RunInOrder(Take(d, steps[0], schedule), steps[1..], schedule);
    }
  }

  lemma StartIsSpaced(d: Desk, schedule: RetrySchedule, now: real)
    requires InOrder(d, schedule) && StartDelivery(d.queue, now).1.Some?
    ensures var m := StartDelivery(d.queue, now).1.value;
            m.attempt > 0 ==> m.queueId in d.failedAt
                              && d.failedAt[m.queueId] + schedule.DelayForAttempt(m.attempt) <= now
  {
    WholeIs(d.queue.pending);
    var i := BestOf(d.queue.pending, now, |d.queue.pending|).value;
    assert d.queue.pending[i] in d.queue.pending;
  }

  /** After every run from an empty queue, a message that has failed before is not started again until
      its delay has passed. */
  lemma {:induction false} RetriesSpaced(limit: nat, steps: seq<Step>, schedule: RetrySchedule, now: real)
    requires CanRun(NewDesk(limit), steps, schedule)
    ensures var d := RunSteps(NewDesk(limit), steps, schedule);
            var (_, next) := StartDelivery(d.queue, now);
            next.Some? && next.value.attempt > 0 ==>
              && next.value.queueId in d.failedAt
              && d.failedAt[next.value.queueId] + schedule.DelayForAttempt(next.value.attempt) <= now
  {
    RunInOrder(NewDesk(limit), steps, schedule);
    var d := RunSteps(NewDesk(limit), steps, schedule);
    if StartDelivery(d.queue, now).1.Some? { StartIsSpaced(d, schedule, now); }
  }

  /** After every run from an empty queue, a failure takes a message out if and only if it has then been
      started as often as the schedule allows, and at least once; otherwise it waits again, as
      important as before, until its delay has passed. */
  lemma {:induction false} LeavesIff(limit: nat, steps: seq<Step>, schedule: RetrySchedule, slot: nat, now: real)
    requires CanRun(NewDesk(limit), steps, schedule) && slot < |RunSteps(NewDesk(limit), steps, schedule).out|
    ensures var d := RunSteps(NewDesk(limit), steps, schedule);
            var m, after := d.out[slot], Take(d, Fail(slot, now), schedule).queue.pending;
            m.queueId in d.starts &&
            if d.starts[m.queueId] == (if schedule.maxAttempts == 0 then 1 else schedule.maxAttempts)
            then forall x :: x in after ==> x.queueId != m.queueId
            else d.starts[m.queueId] < schedule.maxAttempts
                 && after == d.queue.pending + [QueuedMessage(m.queueId, d.starts[m.queueId],
                                                  Some(now + schedule.DelayForAttempt(d.starts[m.queueId])), m.priority)]
  {
    RunInOrder(NewDesk(limit), steps, schedule);
    var d := RunSteps(NewDesk(limit), steps, schedule);
    var m := d.out[slot];
    assert m in d.out;
    DistinctSwap(d.queue.pending, d.out);
    DistinctDrop(d.out, slot, d.queue.pending);
  }

  /** After every run, nothing can be started if and only if every message that waits has failed and its
      delay after that failure has not passed. */
  lemma {:induction false} NothingToStartIff(limit: nat, steps: seq<Step>, schedule: RetrySchedule, now: real)
    requires CanRun(NewDesk(limit), steps, schedule)
    ensures var d := RunSteps(NewDesk(limit), steps, schedule);
            StartDelivery(d.queue, now).1.None? <==>
            forall m :: m in d.queue.pending ==>
              && m.queueId in d.failedAt && m.queueId in d.starts && d.starts[m.queueId] > 0
              && now < d.failedAt[m.queueId] + schedule.DelayForAttempt(d.starts[m.queueId])
  {
    RunInOrder(NewDesk(limit), steps, schedule);
    var d := RunSteps(NewDesk(limit), steps, schedule);
    WholeIs(d.queue.pending);
    var best := BestOf(d.queue.pending, now, |d.queue.pending|);
    if best.Some? { assert d.queue.pending[best.value] in d.queue.pending; }
    forall m | m in d.queue.pending && best.None? ensures !IsReady(m, now) {
      var i :| 0 <= i < |d.queue.pending| && d.queue.pending[i] == m;
    }
  }

  predicate ArrivedAs(steps: seq<Step>, m: QueuedMessage) {
    Arrive(m.queueId, m.priority) in steps
  }

  predicate SameIn(ms: seq<QueuedMessage>, m: QueuedMessage) {
    exists x :: x in ms && x.queueId == m.queueId && x.priority == m.priority
  }

  lemma TakeKeeps(d: Desk, s: Step, schedule: RetrySchedule, m: QueuedMessage)
    requires CanTake(d, s)
    requires var after := Take(d, s, schedule); m in after.queue.pending + after.out
    ensures SameIn(d.queue.pending + d.out, m) || s == Arrive(m.queueId, m.priority)
  {
    var all := d.queue.pending + d.out;
    forall x | x in d.queue.pending || x in d.out ensures x in all {}
    WholeIs(d.queue.pending);
    match s
    case Start(now) =>
      var i := BestOf(d.queue.pending, now, |d.queue.pending|);
      if i.Some? { assert d.queue.pending[i.value] in all; }
    case Fail(slot, now) => assert d.out[slot] in all;
    case _ =>
  }

  /** Wherever a message is after a run, it has the priority it arrived with. */
  lemma {:induction false} PrioritiesKept(d: Desk, steps: seq<Step>, schedule: RetrySchedule, m: QueuedMessage)
    requires CanRun(d, steps, schedule)
    requires var end := RunSteps(d, steps, schedule); m in end.queue.pending + end.out
    ensures SameIn(d.queue.pending + d.out, m) || ArrivedAs(steps, m)
    decreases |steps|
  {
    if steps != [] {
      var next := Take(d, steps[0], schedule);
      PrioritiesKept(next, steps[1..], schedule, m);
      if x :| x in next.queue.pending + next.out && x.queueId == m.queueId && x.priority == m.priority {
        TakeKeeps(d, steps[0], schedule, x);
      }
    }
  }

  // ---------------------------------------------------------------- every run ends

  /** How often the messages could still be started. */
  function Remaining(ms: seq<QueuedMessage>, used: nat, schedule: RetrySchedule): nat {
    if ms == [] then 0
    else
      var m := ms[|ms| - 1];
      Remaining(ms[..|ms| - 1], used, schedule)
      + if m.attempt + used < schedule.MaxStarts() then schedule.MaxStarts() - m.attempt - used else 0
  }

  function Work(d: Desk, schedule: RetrySchedule): nat {
    2 * (Remaining(d.queue.pending, 0, schedule) + Remaining(d.out, 1, schedule)) + |d.out|
  }

  lemma {:induction false} RemainingAppend(a: seq<QueuedMessage>, b: seq<QueuedMessage>, used: nat, schedule: RetrySchedule)
    ensures Remaining(a + b, used, schedule) == Remaining(a, used, schedule) + Remaining(b, used, schedule)
    decreases |b|
  {
    if b == [] {
      assert a + b == a;
    } else {
      var ab := a + b;
      assert ab[..|ab| - 1] == a + b[..|b| - 1] && ab[|ab| - 1] == b[|b| - 1];
      RemainingAppend(a, b[..|b| - 1], used, schedule);
    }
  }

  lemma {:induction false} RemainingWithout(ms: seq<QueuedMessage>, i: nat, used: nat, schedule: RetrySchedule)
    requires i < |ms|
    ensures Remaining(ms, used, schedule) == Remaining(Without(ms, i), used, schedule) + Remaining([ms[i]], used, schedule)
  {
    assert ms == ms[..i] + [ms[i]] + ms[i + 1..];
    RemainingAppend(ms[..i] + [ms[i]], ms[i + 1..], used, schedule);
    RemainingAppend(ms[..i], [ms[i]], used, schedule);
    RemainingAppend(ms[..i], ms[i + 1..], used, schedule);
  }

  lemma {:induction false} RemainingOne(m: QueuedMessage, used: nat, schedule: RetrySchedule)
    ensures Remaining([m], used, schedule)
         == if m.attempt + used < schedule.MaxStarts() then schedule.MaxStarts() - m.attempt - used else 0
  {
    assert [m][..0] == [];
  }

  /** Every step but an arrival uses up some of the work that is left. */
  lemma StepUsesWork(d: Desk, s: Step, schedule: RetrySchedule)
    requires InOrder(d, schedule) && CanTake(d, s) && !s.Arrive?
    ensures Work(Take(d, s, schedule), schedule) < Work(d, schedule)
  {
    match s
    case Start(now) =>
      WholeIs(d.queue.pending);
      var i := BestOf(d.queue.pending, now, |d.queue.pending|).value;
      var m := d.queue.pending[i];
      assert m in d.queue.pending;
      RemainingWithout(d.queue.pending, i, 0, schedule);
      RemainingAppend(d.out, [m], 1, schedule);
      RemainingOne(m, 0, schedule);
      RemainingOne(m, 1, schedule);
    case Succeed(slot) =>
      RemainingWithout(d.out, slot, 1, schedule);
    case Fail(slot, now) =>
      var m := d.out[slot];
      RemainingWithout(d.out, slot, 1, schedule);
      RemainingOne(m, 1, schedule);
      RemainingAppend(d.queue.pending, [Retried(m, schedule, now)], 0, schedule);
      RemainingOne(Retried(m, schedule, now), 0, schedule);
  }

  lemma {:induction false} EndsWithin(d: Desk, steps: seq<Step>, schedule: RetrySchedule)
    requires InOrder(d, schedule) && CanRun(d, steps, schedule)
    requires forall i :: 0 <= i < |steps| ==> !steps[i].Arrive?
    ensures |steps| <= Work(d, schedule)
    decreases |steps|
  {
    if steps != [] {
      StepUsesWork(d, steps[0], schedule);
      StepInOrder(d, steps[0], schedule);
      EndsWithin(Take(d, steps[0], schedule), steps[1..], schedule);
    }
  }

  /** Once nothing more arrives a queue settles: whatever happened before, no run goes on longer than the
      work that is left then. */
  lemma {:induction false} RunsEnd(limit: nat, steps: seq<Step>, more: seq<Step>, schedule: RetrySchedule)
    requires CanRun(NewDesk(limit), steps, schedule) && CanRun(RunSteps(NewDesk(limit), steps, schedule), more, schedule)
    requires forall i :: 0 <= i < |more| ==> !more[i].Arrive?
    ensures |more| <= Work(RunSteps(NewDesk(limit), steps, schedule), schedule)
  {
    RunInOrder(NewDesk(limit), steps, schedule);
    EndsWithin(RunSteps(NewDesk(limit), steps, schedule), more, schedule);
  }
}
