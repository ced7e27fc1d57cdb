/** The queues of all destinations together. */
module QueueManager {
  import opened Text
  import opened Retry
  import opened Queues
  import opened Spool
  import opened Scheduler

  /** The value of a manager's queues. */
  type Fleet = map<string, Queue>

  /** What follows the last at sign, or all of it if there is none, in lower case. */
  function ExtractDomain(address: string): string {
    match LastIndexOf(address, '@')
    case None => ToLower(address)
    case Some(i) => ToLower(address[i + 1..])
  }

  /** A message goes with the destination of its first recipient, if it has recipients. */
  function EnvelopeDomain(recipients: seq<string>): Option<string> {
    if recipients == [] then None else Some(ExtractDomain(recipients[0]))
  }

  /** The destination of a message is the domain of its first recipient, in lower case; an address without
      an at sign is its own domain. */
  lemma DestinationIs(recipients: seq<string>, local: string, domain: string)
    requires '@' !in domain
    ensures recipients == [] ==> EnvelopeDomain(recipients).None?
    ensures recipients != [] && (recipients[0] == local + "@" + domain || recipients[0] == domain) ==>
              EnvelopeDomain(recipients) == Some(ToLower(domain))
  {
    LastIndexOfAt(local, '@', domain);
    var address := local + "@" + domain;
    assert address == local + ['@'] + domain && address[|local| + 1..] == domain;
  }

  function QueueOf(fleet: Fleet, domain: string, limit: nat): Queue {
    if domain in fleet then fleet[domain] else Queue([], 0, limit)
  }

  /** A slot is free and a message is ready. */
  predicate CanStart(q: Queue, now: real) {
    q.inFlight < q.concurrencyLimit && !NoneReady(q.pending, now)
  }

  /** What the manager makes of a failed delivery: it no longer knows the message, only its id. */
  function Rebuilt(queueId: string): QueuedMessage {
    QueuedMessage(queueId, 0, None, 1)
  }

  class QueueManager {
    const defaultConcurrency: nat
    const schedule: RetrySchedule
    const spool: DiskSpool
    var destinations: map<string, DestinationQueue>

    ghost predicate Valid()
      reads this
    {
      forall a, b :: a in destinations && b in destinations && a != b ==> destinations[a] != destinations[b]
    }

    ghost function Model(): Fleet
      reads this, destinations.Values
    {
      map d | d in destinations :: destinations[d].Model()
    }

    constructor (spool: DiskSpool, defaultConcurrency: nat, schedule: RetrySchedule)
      ensures Valid() && Model() == map[]
      ensures this.spool == spool && this.defaultConcurrency == defaultConcurrency && this.schedule == schedule
    {
      this.spool := spool;
      this.defaultConcurrency := defaultConcurrency;
      this.schedule := schedule;
      destinations := map[];
    }

    /** A destination gets its queue, with the default limit, when it first gets a message. */
    method EnqueueToDomain(queueId: string, domain: string, priority: nat)
      requires Valid()
      modifies this, destinations.Values
      ensures Valid() && fresh(destinations.Values - old(destinations.Values))
      ensures Model() == old(Model())[domain := Queues.Enqueue(QueueOf(old(Model()), domain, defaultConcurrency), queueId, priority)]
    {
      if domain !in destinations {
        var q := new DestinationQueue(domain, defaultConcurrency);
        destinations := destinations[domain := q];
      }
      destinations[domain].Add(queueId, priority);
    }

    /** The envelope is read back from the spool; without recipients nothing is queued. */
    method Enqueue(queueId: string) returns (r: Result<(), SpoolError>)
      requires Valid()
      modifies this, destinations.Values
      ensures Valid() && fresh(destinations.Values - old(destinations.Values))
      ensures var read := Read(spool.codec, spool.disk, queueId);
              match read
              case Err(e) => r == Err(e) && Model() == old(Model())
              case Ok(parts) =>
                var domain := EnvelopeDomain(parts.0.recipients);
                r == Ok(()) && Model() == if domain.None? then old(Model()) else
                  old(Model())[domain.value :=
                    Queues.Enqueue(QueueOf(old(Model()), domain.value, defaultConcurrency), queueId, parts.0.priority)]
    {
      var read := spool.ReadParts(queueId);
      match read {
        case Err(e) => return Err(e);
        case Ok(parts) =>
          var domain := EnvelopeDomain(parts.0.recipients);
          if domain.Some? {
            EnqueueToDomain(queueId, domain.value, parts.0.priority);
          }
      }
      r := Ok(());
    }

    /** Destinations are asked in no particular order.  The first that can starts its best message;
        if none starts one, every destination is at its limit or has nothing ready. */
    method NextForDelivery(now: real) returns (next: Option<(string, string)>)
      requires Valid()
      modifies destinations.Values
      ensures Valid()
      ensures next.None? ==> Model() == old(Model())
                             && forall d :: d in old(Model()) ==> !CanStart(old(Model())[d], now)
      ensures next.Some? ==>
                var (queueId, domain) := next.value;
                domain in old(Model()) && CanStart(old(Model())[domain], now)
                && var (q, m) := StartDelivery(old(Model())[domain], now);
                   m.Some? && m.value.queueId == queueId && Model() == old(Model())[domain := q]
    {
      var left := destinations.Keys;
      while left != {}
        invariant left <= destinations.Keys && Model() == old(Model())
        invariant forall d :: d in destinations && d !in left ==> !CanStart(old(Model())[d], now)
        decreases left
      {
        var domain :| domain in left;
        left := left - {domain};
        var queue := destinations[domain];
        if queue.CanSendNow() {
          var message := queue.Start(now);
          if message.Some? {
            return Some((message.value.queueId, domain));
          }
        }
      }
      next := None;
    }

    method OnDeliverySuccess(queueId: string, domain: string)
      requires Valid()
      modifies spool, destinations.Values
      ensures Valid() && spool.disk == old(spool.disk) - {FinalPath(queueId)}
      ensures Model() == if domain in old(Model()) then old(Model())[domain := OnSuccess(old(Model())[domain])] else old(Model())
    {
      spool.Remove(queueId);
      if domain in destinations {
        destinations[domain].Succeeded();
      }
    }

    /** The failed message is rebuilt from its id alone. */
    method OnDeliveryFailure(queueId: string, domain: string, now: real)
      requires Valid()
      modifies destinations.Values
      ensures Valid()
      ensures Model() == if domain in old(Model())
                         then old(Model())[domain := OnFailure(old(Model())[domain], Rebuilt(queueId), schedule, now)]
                         else old(Model())
    {
      if domain in destinations {
        destinations[domain].Failed(Rebuilt(queueId), schedule, now);
      }
    }
  }

  // ---------------------------------------------------------------- all destinations are accounted for

  /** For each destination, its queue and where every id is that entered it. */
  type Ledger = map<string, Account>

  function AccountOf(ledger: Ledger, domain: string, limit: nat): Account {
    if domain in ledger then ledger[domain]
    else Account(Queue([], 0, limit), multiset{}, multiset{}, multiset{}, multiset{})
  }

  datatype Deed = Deed(domain: string, event: Event)

  /** Only known destinations are asked for messages or told about deliveries, and a failure comes
      with a rebuilt message. */
  predicate Proper(ledger: Ledger, deed: Deed, limit: nat) {
    && Allowed(AccountOf(ledger, deed.domain, limit), deed.event)
    && (deed.event.Enqueued? || deed.domain in ledger)
    && (deed.event.Failure? ==> deed.event.message == Rebuilt(deed.event.message.queueId))
  }

  function Enter(ledger: Ledger, deed: Deed, schedule: RetrySchedule, limit: nat): Ledger
    requires Proper(ledger, deed, limit)
  {
    ledger[deed.domain := Next(AccountOf(ledger, deed.domain, limit), deed.event, schedule)]
  }

  predicate AllProper(ledger: Ledger, deeds: seq<Deed>, schedule: RetrySchedule, limit: nat)
    decreases |deeds|
  {
    deeds != [] ==> Proper(ledger, deeds[0], limit) && AllProper(Enter(ledger, deeds[0], schedule, limit), deeds[1..], schedule, limit)
  }

  function EnterAll(ledger: Ledger, deeds: seq<Deed>, schedule: RetrySchedule, limit: nat): Ledger
    requires AllProper(ledger, deeds, schedule, limit)
    decreases |deeds|
  {
    if deeds == [] then ledger else EnterAll(Enter(ledger, deeds[0], schedule, limit), deeds[1..], schedule, limit)
  }

  ghost predicate AllBalanced(ledger: Ledger) {
    forall d :: d in ledger ==> Balanced(ledger[d])
  }

  /** Whatever the destinations go through, in each of them no message is lost or duplicated, the
      slots in use are the deliveries underway, and the limit holds. */
  lemma {:induction false} EveryFleetBalanced(ledger: Ledger, deeds: seq<Deed>, schedule: RetrySchedule, limit: nat)
    requires AllBalanced(ledger) && AllProper(ledger, deeds, schedule, limit)
    ensures AllBalanced(EnterAll(ledger, deeds, schedule, limit))
    decreases |deeds|
  {
    if deeds != [] {
      NewQueueBalanced(limit);
      EventBalanced(AccountOf(ledger, deeds[0].domain, limit), deeds[0].event, schedule);
      EveryFleetBalanced(Enter(ledger, deeds[0], schedule, limit), deeds[1..], schedule, limit);
    }
  }

  function QueuesOf(ledger: Ledger): Fleet {
    map d | d in ledger :: ledger[d].queue
  }

  /** What the manager's methods do to the queue of the destination they concern. */
  function QueueAfter(q: Queue, event: Event, schedule: RetrySchedule): Queue {
    match event
    case Enqueued(id, priority) => Queues.Enqueue(q, id, priority)
    case Pick(now) => if CanStart(q, now) then StartDelivery(q, now).0 else q
    case Success(_) => OnSuccess(q)
    case Failure(m, now) => OnFailure(q, m, schedule, now)
  }

  lemma PickFollows(a: Account, now: real, schedule: RetrySchedule)
    ensures Next(a, Pick(now), schedule).queue == QueueAfter(a.queue, Pick(now), schedule)
  {
    WholeIs(a.queue.pending);
  }

  lemma EventFollows(a: Account, event: Event, schedule: RetrySchedule)
    requires Allowed(a, event)
    ensures Next(a, event, schedule).queue == QueueAfter(a.queue, event, schedule)
  {
    if event.Pick? { PickFollows(a, event.now, schedule); }
  }

  /** The ledger follows the manager: its queues are the manager's queues. */
  lemma LedgerFollows(ledger: Ledger, deed: Deed, schedule: RetrySchedule, limit: nat)
    requires Proper(ledger, deed, limit)
    ensures var fleet, d := QueuesOf(ledger), deed.domain;
            QueuesOf(Enter(ledger, deed, schedule, limit)) == fleet[d := QueueAfter(QueueOf(fleet, d, limit), deed.event, schedule)]
  {
    EventFollows(AccountOf(ledger, deed.domain, limit), deed.event, schedule);
  }

  // ---------------------------------------------------------------- runs of the manager itself

  lemma {:induction false} EnterAllSnoc(ledger: Ledger, deeds: seq<Deed>, deed: Deed, schedule: RetrySchedule, limit: nat)
    requires AllProper(ledger, deeds, schedule, limit) && Proper(EnterAll(ledger, deeds, schedule, limit), deed, limit)
    ensures AllProper(ledger, deeds + [deed], schedule, limit)
    ensures EnterAll(ledger, deeds + [deed], schedule, limit)
         == Enter(EnterAll(ledger, deeds, schedule, limit), deed, schedule, limit)
    decreases |deeds|
  {
    var all := deeds + [deed];
    if deeds == [] {
      assert all[1..] == [];
    } else {
      assert all[0] == deeds[0] && all[1..] == deeds[1..] + [deed];
      EnterAllSnoc(Enter(ledger, deeds[0], schedule, limit), deeds[1..], deed, schedule, limit);
    }
  }

  /** What workers do with a manager. */
  datatype Call =
    | Put(queueId: string, domain: string, priority: nat)
    | Take(now: real)
    | Done(queueId: string, domain: string)
    | GiveBack(queueId: string, domain: string, now: real)

  /** A worker finishes only deliveries that are underway. */
  predicate Underway(ledger: Ledger, queueId: string, domain: string) {
    domain in ledger && queueId in ledger[domain].outstanding
  }

  lemma Follows(ledger: Ledger, fleet: Fleet, deed: Deed, schedule: RetrySchedule, limit: nat, fleet': Fleet)
    requires fleet == QueuesOf(ledger) && Proper(ledger, deed, limit)
    requires fleet' == fleet[deed.domain := QueueAfter(QueueOf(fleet, deed.domain, limit), deed.event, schedule)]
    ensures fleet' == QueuesOf(Enter(ledger, deed, schedule, limit))
  {
    LedgerFollows(ledger, deed, schedule, limit);
  }

  /** One call, and the deed it comes to, if it comes to one. */
  method PlayOne(manager: QueueManager, call: Call, ledger: Ledger) returns (ledger': Ledger, deed: Option<Deed>)
    requires manager.Valid() && manager.Model() == QueuesOf(ledger)
    modifies manager, manager.spool, manager.destinations.Values
    ensures manager.Valid() && fresh(manager.destinations.Values - old(manager.destinations.Values))
    ensures manager.Model() == QueuesOf(ledger')
    ensures match deed
            case Some(d) => Proper(ledger, d, manager.defaultConcurrency)
                            && ledger' == Enter(ledger, d, manager.schedule, manager.defaultConcurrency)
            case None => ledger' == ledger
  {
    ghost var fleet := manager.Model();
    ledger', deed := ledger, None;
    match call {
      case Put(queueId, domain, priority) =>
        deed := Some(Deed(domain, Enqueued(queueId, priority)));
        manager.EnqueueToDomain(queueId, domain, priority);
      case Take(now) =>
        var next := manager.NextForDelivery(now);
        if next.Some? {
          deed := Some(Deed(next.value.1, Pick(now)));
        }
      case Done(queueId, domain) =>
        if Underway(ledger, queueId, domain) {
          deed := Some(Deed(domain, Success(queueId)));
          manager.OnDeliverySuccess(queueId, domain);
        }
      case GiveBack(queueId, domain, now) =>
        if Underway(ledger, queueId, domain) {
          deed := Some(Deed(domain, Failure(Rebuilt(queueId), now)));
          manager.OnDeliveryFailure(queueId, domain, now);
        }
    }
    if deed.Some? {
      Follows(ledger, fleet, deed.value, manager.schedule, manager.defaultConcurrency, manager.Model());
      ledger' := Enter(ledger, deed.value, manager.schedule, manager.defaultConcurrency);
    }
  }

  /** Any sequence of calls on a new manager: its queues are at all times those of a ledger in which
      every destination is balanced. */
  method Play(manager: QueueManager, calls: seq<Call>) returns (ledger: Ledger, deeds: seq<Deed>)
    requires manager.Valid() && manager.Model() == map[]
    modifies manager, manager.spool, manager.destinations.Values
    ensures manager.Valid() && manager.Model() == QueuesOf(ledger) && AllBalanced(ledger)
    ensures AllProper(map[], deeds, manager.schedule, manager.defaultConcurrency)
    ensures ledger == EnterAll(map[], deeds, manager.schedule, manager.defaultConcurrency)
  {
    ledger, deeds := map[], [];
    var i := 0;
    while i < |calls|
      invariant 0 <= i <= |calls|
      invariant manager.Valid() && manager.Model() == QueuesOf(ledger)
      invariant fresh(manager.destinations.Values - old(manager.destinations.Values))
      invariant AllProper(map[], deeds, manager.schedule, manager.defaultConcurrency)
      invariant ledger == EnterAll(map[], deeds, manager.schedule, manager.defaultConcurrency)
    {
      var deed;
      ghost var before := ledger;
      ledger, deed := PlayOne(manager, calls[i], ledger);
      if deed.Some? {
        EnterAllSnoc(map[], deeds, deed.value, manager.schedule, manager.defaultConcurrency);
        deeds := deeds + [deed.value];
      }
      i := i + 1;
    }
    EveryFleetBalanced(map[], deeds, manager.schedule, manager.defaultConcurrency);
  }

  // ---------------------------------------------------------------- giving up, through the manager

  /** A delivery is started and fails. */
  function Round(q: Queue, schedule: RetrySchedule, now: real): Queue {
    var (started, m) := StartDelivery(q, now);
    if m.None? then q else OnFailure(started, Rebuilt(m.value.queueId), schedule, now)
  }

  function Rounds(q: Queue, schedule: RetrySchedule, times: seq<real>): Queue {
    if times == [] then q else Round(Rounds(q, schedule, times[..|times| - 1]), schedule, times[|times| - 1])
  }

  predicate Ascending(times: seq<real>) {
    forall i, j :: 0 <= i < j < |times| ==> times[i] <= times[j]
  }

  lemma OneRound(m: QueuedMessage, limit: nat, schedule: RetrySchedule, now: real)
    requires IsReady(m, now)
    ensures Round(Queue([m], 0, limit), schedule, now)
         == Queue(if schedule.maxAttempts <= 1 then [] else [QueuedMessage(m.queueId, 1, Some(now), 1)], 0, limit)
  {
    WholeIs([m]);
    assert !NoneReady([m], now) by { assert IsReady([m][0], now); }
    assert BestOf([m], now, 1) == Some(0);
    assert Without([m], 0) == [];
  }

  lemma EmptyRound(limit: nat, schedule: RetrySchedule, now: real)
    ensures Round(Queue([], 0, limit), schedule, now) == Queue([], 0, limit)
  {
  }

  /** However often a message's delivery fails, the manager gives it up if and only if one attempt
      already exhausts the schedule: otherwise it is back in the queue, on its first retry, ready
      at once and of normal priority. */
  lemma {:induction false} ManagerGivesUpIff(queueId: string, priority: nat, limit: nat, schedule: RetrySchedule, times: seq<real>)
    requires times != [] && Ascending(times)
    ensures var q := Rounds(Queue([QueuedMessage(queueId, 0, None, priority)], 0, limit), schedule, times);
            && (q.pending == [] <==> schedule.maxAttempts <= 1)
            && q == Queue(if schedule.maxAttempts <= 1 then [] else [QueuedMessage(queueId, 1, Some(times[|times| - 1]), 1)], 0, limit)
    decreases |times|
  {
    var first := QueuedMessage(queueId, 0, None, priority);
    var before, now := times[..|times| - 1], times[|times| - 1];
    if before == [] {
      OneRound(first, limit, schedule, now);
    } else {
      ManagerGivesUpIff(queueId, priority, limit, schedule, before);
      if schedule.maxAttempts <= 1 {
        EmptyRound(limit, schedule, now);
      } else {
        OneRound(QueuedMessage(queueId, 1, Some(before[|before| - 1]), 1), limit, schedule, now);
      }
    }
  }

  /** The ids whose deliveries to a destination failed, as often as they did. */
  function FailedAt(deeds: seq<Deed>, domain: string): multiset<string> {
    if deeds == [] then multiset{}
    else
      var first := deeds[0];
      (if first.domain == domain && first.event.Failure? then multiset{first.event.message.queueId} else multiset{})
      + FailedAt(deeds[1..], domain)
  }

  function GivenUpAt(ledger: Ledger, domain: string): multiset<string> {
    if domain in ledger then ledger[domain].givenUp else multiset{}
  }

  lemma GivenUpNext(ledger: Ledger, deed: Deed, schedule: RetrySchedule, limit: nat, domain: string)
    requires Proper(ledger, deed, limit)
    ensures GivenUpAt(Enter(ledger, deed, schedule, limit), domain)
         == GivenUpAt(ledger, domain)
            + if schedule.maxAttempts <= 1 && deed.domain == domain && deed.event.Failure?
              then multiset{deed.event.message.queueId} else multiset{}
  {
  }

  /** Over every run of the manager: if the schedule allows at most one attempt, every failed delivery
      gives its message up; if it allows more, none ever does. */
  lemma {:induction false} GivenUpOverRun(ledger: Ledger, deeds: seq<Deed>, schedule: RetrySchedule, limit: nat, domain: string)
    requires AllProper(ledger, deeds, schedule, limit)
    ensures GivenUpAt(EnterAll(ledger, deeds, schedule, limit), domain)
         == GivenUpAt(ledger, domain) + if schedule.maxAttempts <= 1 then FailedAt(deeds, domain) else multiset{}
    decreases |deeds|
  {
    if deeds != [] {
      GivenUpNext(ledger, deeds[0], schedule, limit, domain);
      GivenUpOverRun(Enter(ledger, deeds[0], schedule, limit), deeds[1..], schedule, limit, domain);
    }
  }
}
