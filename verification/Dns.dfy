/** The DNS cache, the resolver that answers from it, and the chain of canonical names. */
module Dns {
  import opened Numbers
  import opened Text
  import opened MxResolve

  datatype QueryType = Mx | A | Aaaa

  datatype Records = MxRecords(mx: seq<MxRecord>) | Addresses(addresses: seq<string>)

  /** A failure by its kind; the names and messages it carries are left out. */
  datatype DnsError =
    | NxDomain
    | NoData
    | ServFail
    | Refused
    | Timeout
    | Malformed
    | CnameLoop
    | Other
  {
    /** Whether the mail should bounce rather than be tried again. */
    predicate IsPermanent() {
      NxDomain? || NoData? || CnameLoop?
    }
  }

  /** Why the name server library has no answer; a domain that does not exist has no records. */
  datatype ResolveFailure = NoRecordsFound | NoConnections | Io | Proto | Message | TimedOut | AnythingElse

  function ErrorFor(e: ResolveFailure): DnsError {
    match e
    case NoRecordsFound => NoData
    case NoConnections => Timeout
    case Io => Other
    case Proto => Malformed
    case Message => ServFail
    case TimedOut => Timeout
    case AnythingElse => Other
  }

  // ---------------------------------------------------------------- the cache

  datatype CacheConfig = CacheConfig(maxTtl: real, negativeTtl: real)

  /** A name is the same in any case. */
  datatype Key = Key(kind: QueryType, name: string)

  function KeyOf(kind: QueryType, name: string): Key {
    Key(kind, ToLower(name))
  }

  /** Records and failures share one slot. */
  datatype Entry = Positive(records: Records, expiresAt: real) | Negative(expiresAt: real)

  type Store = map<Key, Entry>

  function Lookup(store: Store, key: Key, now: real): Option<Records> {
    if key in store && store[key].Positive? && now < store[key].expiresAt then Some(store[key].records) else None
  }

  /** How much longer a failure is remembered. */
  function LookupNegative(store: Store, key: Key, now: real): Option<real> {
    if key in store && store[key].Negative? && now < store[key].expiresAt then Some(store[key].expiresAt - now) else None
  }

  class DnsCache {
    const config: CacheConfig
    var store: Store

    constructor (config: CacheConfig)
      ensures this.config == config && store == map[]
    {
      this.config := config;
      store := map[];
    }

    method Insert(kind: QueryType, name: string, records: Records, ttl: real, now: real)
      modifies this
      ensures store == old(store)[KeyOf(kind, name) := Positive(records, now + Min(ttl, config.maxTtl))]
    {
      var effective := if ttl <= config.maxTtl then ttl else config.maxTtl;
      store := store[Key(kind, ToLower(name)) := Positive(records, now + effective)];
    }

    method InsertNegative(kind: QueryType, name: string, now: real)
      modifies this
      ensures store == old(store)[KeyOf(kind, name) := Negative(now + config.negativeTtl)]
    {
      store := store[Key(kind, ToLower(name)) := Negative(now + config.negativeTtl)];
    }

    method Get(kind: QueryType, name: string, now: real) returns (r: Option<Records>)
      ensures r == Lookup(store, KeyOf(kind, name), now)
    {
      var key := Key(kind, ToLower(name));
      if key in store {
        var entry := store[key];
        if entry.Positive? && !(now >= entry.expiresAt) {
          return Some(entry.records);
        }
      }
      r := None;
    }

    method GetNegative(kind: QueryType, name: string, now: real) returns (r: Option<real>)
      ensures r == LookupNegative(store, KeyOf(kind, name), now)
    {
      var key := Key(kind, ToLower(name));
      if key in store {
        var entry := store[key];
        if entry.Negative? && !(now >= entry.expiresAt) {
          return Some(entry.expiresAt - now);
        }
      }
      r := None;
    }

    method Clear()
      modifies this
      ensures store == map[]
    {
      store := map[];
    }
  }

  // ---------------------------------------------------------------- what a lookup returns

  datatype Change =
    | Inserted(kind: QueryType, name: string, records: Records, ttl: real, at: real)
    | Failed(kind: QueryType, name: string, at: real)
    | Cleared

  function EntryOf(cfg: CacheConfig, c: Change): Entry
    requires !c.Cleared?
  {
    match c
    case Inserted(_, _, records, ttl, at) => Positive(records, at + Min(ttl, cfg.maxTtl))
    case Failed(_, _, at) => Negative(at + cfg.negativeTtl)
  }

  /** The cache after a history of changes. */
  function After(cfg: CacheConfig, history: seq<Change>): Store {
    if history == [] then map[]
    else
      var n := |history| - 1;
      var c := history[n];
      if c.Cleared? then map[] else After(cfg, history[..n])[KeyOf(c.kind, c.name) := EntryOf(cfg, c)]
  }

  /** Change `i` is the last that concerns `key`. */
  predicate LastAbout(history: seq<Change>, key: Key, i: nat) {
    && i < |history| && !history[i].Cleared? && KeyOf(history[i].kind, history[i].name) == key
    && forall j :: i < j < |history| ==> !history[j].Cleared? && KeyOf(history[j].kind, history[j].name) != key
  }

  predicate HasEntry(cfg: CacheConfig, history: seq<Change>, key: Key, e: Entry) {
    exists i :: 0 <= i < |history| && LastAbout(history, key, i) && EntryOf(cfg, history[i]) == e
  }

  lemma LastAboutNext(history: seq<Change>, key: Key, i: nat)
    requires history != [] && i < |history| - 1
    ensures var c := history[|history| - 1];
            LastAbout(history, key, i)
            <==> LastAbout(history[..|history| - 1], key, i) && !c.Cleared? && KeyOf(c.kind, c.name) != key
  {
  }

  /** A key's entry is the one the last change about it made, provided nothing was cleared since. */
  lemma {:induction false} EntryIsLatest(cfg: CacheConfig, history: seq<Change>, key: Key)
    ensures key in After(cfg, history) <==> exists i :: LastAbout(history, key, i)
    ensures key in After(cfg, history) ==> HasEntry(cfg, history, key, After(cfg, history)[key])
  {
    if history != [] {
      var n := |history| - 1;
      var c := history[n];
      if !c.Cleared? && KeyOf(c.kind, c.name) == key {
        assert LastAbout(history, key, n);
      } else {
        EntryIsLatest(cfg, history[..n], key);
        forall i | 0 <= i < n
          ensures LastAbout(history, key, i) <==> LastAbout(history[..n], key, i) && !c.Cleared? && KeyOf(c.kind, c.name) != key
        {
          LastAboutNext(history, key, i);
        }
        assert !LastAbout(history, key, n);
      }
    }
  }

  /** Change `i` is the last about the key, inserted the records, and they have not expired. */
  predicate Provides(cfg: CacheConfig, history: seq<Change>, key: Key, now: real, i: nat, records: Records) {
    && LastAbout(history, key, i) && history[i].Inserted? && history[i].records == records
    && now < history[i].at + Min(history[i].ttl, cfg.maxTtl)
  }

  predicate Denies(cfg: CacheConfig, history: seq<Change>, key: Key, now: real, i: nat) {
    LastAbout(history, key, i) && history[i].Failed? && now < history[i].at + cfg.negativeTtl
  }

  /** A lookup returns records exactly when the latest change about the name and type, in any case
      of letters and with nothing cleared since, inserted those records and they have not expired;
      a failure is remembered exactly when that change was a failure that has not; never both. */
  lemma {:induction false} LookupIff(cfg: CacheConfig, history: seq<Change>, kind: QueryType, name: string, now: real, records: Records)
    ensures var key := KeyOf(kind, name);
            var store := After(cfg, history);
            && (Lookup(store, key, now) == Some(records) <==> exists i: nat :: Provides(cfg, history, key, now, i, records))
            && (LookupNegative(store, key, now).Some? <==> exists i: nat :: Denies(cfg, history, key, now, i))
            && (Lookup(store, key, now).None? || LookupNegative(store, key, now).None?)
  {
    var key := KeyOf(kind, name);
    EntryIsLatest(cfg, history, key);
    if key in After(cfg, history) {
      var i: nat :| i < |history| && LastAbout(history, key, i) && EntryOf(cfg, history[i]) == After(cfg, history)[key];
      assert Lookup(After(cfg, history), key, now) == Some(records) ==> Provides(cfg, history, key, now, i, records);
      assert LookupNegative(After(cfg, history), key, now).Some? ==> Denies(cfg, history, key, now, i);
      forall j: nat | LastAbout(history, key, j) ensures i == j {}
    }
  }

  // ---------------------------------------------------------------- the resolver

  /** What the name servers say when asked, with the time the answer stays valid. */
  type Reply = Result<(Records, real), ResolveFailure>

  /** A question, when it is put, when the name servers would have answered it, and how. */
  datatype Query = Query(kind: QueryType, name: string, asked: real, answered: real, reply: Reply)

  type Answer = Result<Records, DnsError>

  /** What the name servers did say, and when. */
  datatype Told = Told(key: Key, at: real, reply: Reply)

  datatype World = World(store: Store, told: seq<Told>)

  /** What is kept of a reply received at `now`. */
  function Keep(cfg: CacheConfig, store: Store, key: Key, reply: Reply, now: real): Store {
    match reply
    case Ok((records, ttl)) => store[key := Positive(records, now + Min(ttl, cfg.maxTtl))]
    case Err(e) => if ErrorFor(e).IsPermanent() then store[key := Negative(now + cfg.negativeTtl)] else store
  }

  function AnswerFor(reply: Reply): Answer {
    match reply
    case Ok((records, _)) => Ok(records)
    case Err(e) => Err(ErrorFor(e))
  }

  function Ask(cfg: CacheConfig, w: World, q: Query): (World, Answer) {
    var key := KeyOf(q.kind, q.name);
    if Lookup(w.store, key, q.asked).Some? then (w, Ok(Lookup(w.store, key, q.asked).value))
    else if LookupNegative(w.store, key, q.asked).Some? then (w, Err(NoData))
    else
      (World(Keep(cfg, w.store, key, q.reply, q.answered), w.told + [Told(key, q.answered, q.reply)]), AnswerFor(q.reply))
  }

  class RealResolver {
    const cache: DnsCache
    ghost var told: seq<Told>

    constructor (cache: DnsCache)
      ensures this.cache == cache && told == []
    {
      this.cache := cache;
      told := [];
    }

    /** From the cache if it can be, from the name servers otherwise. */
    method Resolve(q: Query) returns (answer: Answer)
      modifies this, cache
      ensures var (w, a) := Ask(cache.config, World(old(cache.store), old(told)), q);
              World(cache.store, told) == w && answer == a
    {
      var cached := cache.Get(q.kind, q.name, q.asked);
      if cached.Some? {
        return Ok(cached.value);
      }
      var failed := cache.GetNegative(q.kind, q.name, q.asked);
      if failed.Some? {
        return Err(NoData);
      }
      told := told + [Told(KeyOf(q.kind, q.name), q.answered, q.reply)];
      match q.reply {
        case Ok((records, ttl)) =>
          cache.Insert(q.kind, q.name, records, ttl, q.answered);
          answer := Ok(records);
        case Err(e) =>
          var error := ErrorFor(e);
          if error.IsPermanent() {
            cache.InsertNegative(q.kind, q.name, q.answered);
          }
          answer := Err(error);
      }
    }
  }

  // ---------------------------------------------------------------- bounded staleness

  /** How long after it was given a reply may be served. */
  function Lifetime(cfg: CacheConfig, reply: Reply): real {
    match reply
    case Ok((_, ttl)) => Min(ttl, cfg.maxTtl)
    case Err(_) => cfg.negativeTtl
  }

  /** The same records, or a failure of the same kind. */
  predicate Conveys(answer: Answer, reply: Reply) {
    match answer
    case Ok(records) => reply.Ok? && reply.value.0 == records
    case Err(e) => reply.Err? && e == ErrorFor(reply.error)
  }

  /** At time `t` the name servers had said so, either just then or not longer ago than it lasts. */
  predicate Backed(cfg: CacheConfig, t: Told, key: Key, now: real, answer: Answer) {
    t.key == key && Conveys(answer, t.reply) && (t.at == now || t.at <= now < t.at + Lifetime(cfg, t.reply))
  }

  predicate Justified(cfg: CacheConfig, told: seq<Told>, key: Key, now: real, answer: Answer) {
    exists i :: 0 <= i < |told| && Backed(cfg, told[i], key, now, answer)
  }

  predicate EntryBacked(cfg: CacheConfig, told: seq<Told>, key: Key, e: Entry) {
    exists i :: 0 <= i < |told| && Makes(cfg, told[i], key, e)
  }

  /** The reply that put the entry there. */
  predicate Makes(cfg: CacheConfig, t: Told, key: Key, e: Entry) {
    t.key == key &&
    match e
    case Positive(records, expiresAt) => t.reply.Ok? && t.reply.value.0 == records && expiresAt == t.at + Lifetime(cfg, t.reply)
    case Negative(expiresAt) => t.reply.Err? && ErrorFor(t.reply.error).IsPermanent() && expiresAt == t.at + cfg.negativeTtl
  }

  /** Every entry goes back to a reply, and no reply is from the future. */
  predicate Sound(cfg: CacheConfig, w: World, now: real) {
    && (forall key :: key in w.store ==> EntryBacked(cfg, w.told, key, w.store[key]))
    && (forall i :: 0 <= i < |w.told| ==> w.told[i].at <= now)
  }

  lemma KeptAgain(cfg: CacheConfig, told: seq<Told>, more: Told, key: Key, e: Entry)
    requires EntryBacked(cfg, told, key, e)
    ensures EntryBacked(cfg, told + [more], key, e)
  {
    var i :| 0 <= i < |told| && Makes(cfg, told[i], key, e);
    assert (told + [more])[i] == told[i];
  }

  lemma FreshIsSound(cfg: CacheConfig, w: World, key: Key, reply: Reply, now: real)
    requires Sound(cfg, w, now)
    ensures var more := Told(key, now, reply);
            && Sound(cfg, World(Keep(cfg, w.store, key, reply, now), w.told + [more]), now)
            && Justified(cfg, w.told + [more], key, now, AnswerFor(reply))
  {
    var more := Told(key, now, reply);
    var told, store := w.told + [more], Keep(cfg, w.store, key, reply, now);
    assert told[|w.told|] == more && Backed(cfg, more, key, now, AnswerFor(reply));
    forall k | k in store ensures EntryBacked(cfg, told, k, store[k]) {
      if k in w.store && store[k] == w.store[k] {
        KeptAgain(cfg, w.told, more, k, store[k]);
      } else {
        assert told[|w.told|] == more && Makes(cfg, more, key, store[k]);
      }
    }
  }

  lemma CachedIsBacked(cfg: CacheConfig, w: World, key: Key, now: real, answer: Answer)
    requires Sound(cfg, w, now) && key in w.store && now < w.store[key].expiresAt
    requires match w.store[key]
             case Positive(records, _) => answer == Ok(records)
             case Negative(_) => answer == Err(NoData)
    ensures Justified(cfg, w.told, key, now, answer)
  {
    var i :| 0 <= i < |w.told| && Makes(cfg, w.told[i], key, w.store[key]);
    assert Backed(cfg, w.told[i], key, now, answer);
  }

  /** When the answer is given: at once from the cache, else when the name servers have replied. */
  function ServedAt(w: World, q: Query): real {
    var key := KeyOf(q.kind, q.name);
    if Lookup(w.store, key, q.asked).Some? || LookupNegative(w.store, key, q.asked).Some? then q.asked else q.answered
  }

  /** One question: the cache stays sound and the answer is justified. */
  lemma AskIsJustified(cfg: CacheConfig, w: World, q: Query)
    requires Sound(cfg, w, q.asked) && q.asked <= q.answered
    ensures var (w', answer) := Ask(cfg, w, q);
            Sound(cfg, w', ServedAt(w, q)) && Justified(cfg, w'.told, KeyOf(q.kind, q.name), ServedAt(w, q), answer)
  {
    var key := KeyOf(q.kind, q.name);
    var (w', answer) := Ask(cfg, w, q);
    if Lookup(w.store, key, q.asked).Some? || LookupNegative(w.store, key, q.asked).Some? {
      CachedIsBacked(cfg, w, key, q.asked, answer);
    } else {
      SoundLater(cfg, w, q.asked, q.answered);
      FreshIsSound(cfg, w, key, q.reply, q.answered);
    }
  }

  lemma SoundLater(cfg: CacheConfig, w: World, now: real, later: real)
    requires Sound(cfg, w, now) && now <= later
    ensures Sound(cfg, w, later)
  {
  }

  // ---------------------------------------------------------------- questions that overlap

  /** How far a question has got: not in the cache as records, not there as a failure either, answered. */
  datatype Phase = Missed | Upstream | Answered

  datatype Task = Task(key: Key, phase: Phase)

  /** A resolver, or several that share a cache, with the questions put so far. */
  datatype Shared = Shared(world: World, tasks: seq<Task>)

  /** One access to the cache, by a new question or by one that is underway.  Between the accesses of a
      question those of others may come. */
  datatype Step =
    | Look(kind: QueryType, name: string, now: real)
    | LookForFailure(who: nat, now: real)
    | Replied(who: nat, reply: Reply, now: real)

  predicate CanTake(s: Shared, step: Step) {
    match step
    case Look(_, _, _) => true
    case LookForFailure(who, _) => who < |s.tasks| && s.tasks[who].phase == Missed
    case Replied(who, _, _) => who < |s.tasks| && s.tasks[who].phase == Upstream
  }

  function KeyAsked(s: Shared, step: Step): Key
    requires CanTake(s, step)
  {
    if step.Look? then KeyOf(step.kind, step.name) else s.tasks[step.who].key
  }

  /** A step, and the answer if it gives one. */
  function Take(cfg: CacheConfig, s: Shared, step: Step): (Shared, Option<Answer>)
    requires CanTake(s, step)
  {
    var key, w := KeyAsked(s, step), s.world;
    match step
    case Look(_, _, now) =>
      var found := Lookup(w.store, key, now);
      if found.Some? then (s.(tasks := s.tasks + [Task(key, Answered)]), Some(Ok(found.value)))
      else (s.(tasks := s.tasks + [Task(key, Missed)]), None)
    case LookForFailure(who, now) =>
      if LookupNegative(w.store, key, now).Some? then (s.(tasks := s.tasks[who := Task(key, Answered)]), Some(Err(NoData)))
      else (s.(tasks := s.tasks[who := Task(key, Upstream)]), None)
    case Replied(who, reply, now) =>
      (Shared(World(Keep(cfg, w.store, key, reply, now), w.told + [Told(key, now, reply)]), s.tasks[who := Task(key, Answered)]),
       Some(AnswerFor(reply)))
  }

  /** One step: the cache stays sound and an answer is justified. */
  lemma StepIsJustified(cfg: CacheConfig, s: Shared, step: Step)
    requires CanTake(s, step) && Sound(cfg, s.world, step.now)
    ensures var (s', answer) := Take(cfg, s, step);
            && Sound(cfg, s'.world, step.now)
            && (answer.Some? ==> Justified(cfg, s'.world.told, KeyAsked(s, step), step.now, answer.value))
  {
    var key := KeyAsked(s, step);
    var (s', answer) := Take(cfg, s, step);
    if step.Replied? {
      FreshIsSound(cfg, s.world, key, step.reply, step.now);
    } else if answer.Some? {
      CachedIsBacked(cfg, s.world, key, step.now, answer.value);
    }
  }

  /** The steps can be taken one after another, as time goes by. */
  predicate CanRun(cfg: CacheConfig, s: Shared, steps: seq<Step>)
    decreases |steps|
  {
    steps != [] ==>
      && CanTake(s, steps[0]) && (|steps| > 1 ==> steps[0].now <= steps[1].now)
      && CanRun(cfg, Take(cfg, s, steps[0]).0, steps[1..])
  }

  function RunSteps(cfg: CacheConfig, s: Shared, steps: seq<Step>, n: nat): Shared
    requires CanRun(cfg, s, steps) && n <= |steps|
    decreases |steps|
  {
    if n == 0 then s else RunSteps(cfg, Take(cfg, s, steps[0]).0, steps[1..], n - 1)
  }

  lemma {:induction false} RunIsSound(cfg: CacheConfig, s: Shared, steps: seq<Step>, n: nat)
    requires CanRun(cfg, s, steps) && n < |steps| && Sound(cfg, s.world, steps[0].now)
    ensures var s' := RunSteps(cfg, s, steps, n); CanTake(s', steps[n]) && Sound(cfg, s'.world, steps[n].now)
    decreases |steps|
  {
    if n > 0 {
      StepIsJustified(cfg, s, steps[0]);
      SoundLater(cfg, Take(cfg, s, steps[0]).0.world, steps[0].now, steps[1].now);
      RunIsSound(cfg, Take(cfg, s, steps[0]).0, steps[1..], n - 1);
    }
  }

  const NOTHING_ASKED := Shared(World(map[], []), [])

  /** In every run from an empty cache, however the questions overlap, each answer is what the name
      servers said at that moment or at an earlier one whose capped lifetime has not passed: the
      same records, or the same kind of failure. */
  lemma {:induction false} EveryAnswerJustified(cfg: CacheConfig, steps: seq<Step>, n: nat)
    requires CanRun(cfg, NOTHING_ASKED, steps) && n < |steps|
    ensures var s := RunSteps(cfg, NOTHING_ASKED, steps, n);
            CanTake(s, steps[n]) &&
            var (s', answer) := Take(cfg, s, steps[n]);
            answer.Some? ==> Justified(cfg, s'.world.told, KeyAsked(s, steps[n]), steps[n].now, answer.value)
  {
    RunIsSound(cfg, NOTHING_ASKED, steps, n);
    StepIsJustified(cfg, RunSteps(cfg, NOTHING_ASKED, steps, n), steps[n]);
  }

  // ---------------------------------------------------------------- what is remembered

  /** No reply about this key among these steps. */
  predicate SilentAbout(cfg: CacheConfig, s: Shared, steps: seq<Step>, key: Key)
    requires CanRun(cfg, s, steps)
    decreases |steps|
  {
    steps != [] ==>
      && (steps[0].Replied? ==> KeyAsked(s, steps[0]) != key)
      && SilentAbout(cfg, Take(cfg, s, steps[0]).0, steps[1..], key)
  }

  predicate SameEntry(a: Store, b: Store, key: Key) {
    (key in a <==> key in b) && (key in a ==> a[key] == b[key])
  }

  lemma {:induction false} EntryStays(cfg: CacheConfig, s: Shared, steps: seq<Step>, key: Key)
    requires CanRun(cfg, s, steps) && SilentAbout(cfg, s, steps, key)
    ensures SameEntry(s.world.store, RunSteps(cfg, s, steps, |steps|).world.store, key)
    decreases |steps|
  {
    if steps != [] { EntryStays(cfg, Take(cfg, s, steps[0]).0, steps[1..], key); }
  }

  /** Records are remembered for their time to live, or the longest time allowed if that is shorter, and of
      the failures only that there are no records: until then, and as long as no other reply about
      the name and type comes, they answer the question when it is put again. */
  lemma {:induction false} Remembered(cfg: CacheConfig, s: Shared, who: nat, reply: Reply, now: real, between: seq<Step>,
                                      again: Step, failing: Step)
    requires CanTake(s, Replied(who, reply, now)) && (reply.Ok? || reply.error == NoRecordsFound)
    requires var s1 := Take(cfg, s, Replied(who, reply, now)).0;
             CanRun(cfg, s1, between) && SilentAbout(cfg, s1, between, s.tasks[who].key)
    requires var s1 := Take(cfg, s, Replied(who, reply, now)).0;
             var s2 := RunSteps(cfg, s1, between, |between|);
             && again.Look? && KeyAsked(s2, again) == s.tasks[who].key
             && failing.LookForFailure? && CanTake(s2, failing) && KeyAsked(s2, failing) == s.tasks[who].key
    ensures var s1 := Take(cfg, s, Replied(who, reply, now)).0;
            var s2 := RunSteps(cfg, s1, between, |between|);
            && Take(cfg, s2, again).1
               == (if reply.Ok? && again.now < now + (if reply.value.1 <= cfg.maxTtl then reply.value.1 else cfg.maxTtl)
                   then Some(Ok(reply.value.0)) else None)
            && Take(cfg, s2, failing).1
               == (if reply.Err? && failing.now < now + cfg.negativeTtl then Some(Err(NoData)) else None)
  {
    var s1 := Take(cfg, s, Replied(who, reply, now)).0;
    EntryStays(cfg, s1, between, s.tasks[who].key);
  }

  /** Every other failure leaves the cache as it was, and each is reported as what it is. */
  lemma Forgotten(cfg: CacheConfig, s: Shared, who: nat, e: ResolveFailure, now: real)
    requires CanTake(s, Replied(who, Err(e), now))
    ensures var (s', answer) := Take(cfg, s, Replied(who, Err(e), now));
            && (s'.world.store == s.world.store || e == NoRecordsFound)
            && answer == Some(Err(match e
                                  case NoRecordsFound => NoData
                                  case NoConnections => Timeout
                                  case Io => Other
                                  case Proto => Malformed
                                  case Message => ServFail
                                  case TimedOut => Timeout
                                  case AnythingElse => Other))
  {
  }

  // ---------------------------------------------------------------- questions that do not overlap

  /** The steps a question takes when no other comes between them. */
  function StepsOf(s: Shared, q: Query): seq<Step> {
    var key, me := KeyOf(q.kind, q.name), |s.tasks|;
    if Lookup(s.world.store, key, q.asked).Some? then [Look(q.kind, q.name, q.asked)]
    else if LookupNegative(s.world.store, key, q.asked).Some? then [Look(q.kind, q.name, q.asked), LookForFailure(me, q.asked)]
    else [Look(q.kind, q.name, q.asked), LookForFailure(me, q.asked), Replied(me, q.reply, q.answered)]
  }

  /** They come to what `Ask`, and so the resolver object, does. */
  lemma {:induction false} AskIsSteps(cfg: CacheConfig, s: Shared, q: Query)
    requires q.asked <= q.answered
    ensures var steps := StepsOf(s, q);
            CanRun(cfg, s, steps) &&
            var (w, answer) := Ask(cfg, s.world, q);
            var before := RunSteps(cfg, s, steps, |steps| - 1);
            CanTake(before, steps[|steps| - 1]) &&
            Take(cfg, before, steps[|steps| - 1]) == (Shared(w, s.tasks + [Task(KeyOf(q.kind, q.name), Answered)]), Some(answer))
  {
    var key, me := KeyOf(q.kind, q.name), |s.tasks|;
    var first, second, last := Look(q.kind, q.name, q.asked), LookForFailure(me, q.asked), Replied(me, q.reply, q.answered);
    if Lookup(s.world.store, key, q.asked).None? {
      var s1 := Take(cfg, s, first).0;
      if LookupNegative(s.world.store, key, q.asked).Some? {
        assert [first, second][1..] == [second];
        assert Take(cfg, s1, second).0.tasks == s.tasks + [Task(key, Answered)];
      } else {
        var s2 := Take(cfg, s1, second).0;
        assert s2.tasks == s.tasks + [Task(key, Upstream)];
        assert [first, second, last][1..] == [second, last] && [second, last][1..] == [last];
        assert CanRun(cfg, s2, [last]);
        assert CanRun(cfg, s1, [second, last]);
        assert RunSteps(cfg, s1, [second, last], 1) == RunSteps(cfg, s2, [last], 0);
        assert Take(cfg, s2, last).0.tasks == s.tasks + [Task(key, Answered)];
      }
    }
  }

  // ---------------------------------------------------------------- canonical names

  /** The name `n` steps along the chain; it stays where the chain ends. */
  function Follow(cname: map<string, string>, start: string, n: nat): string {
    if n == 0 then start
    else
      var before := Follow(cname, start, n - 1);
      if before in cname then cname[before] else before
  }

  /** The chain from `start` ends after `n` steps. */
  predicate EndsAfter(cname: map<string, string>, start: string, n: nat) {
    Follow(cname, start, n) !in cname
  }

  /** Following the chain: either its end, if it has one within the limit, or an error. */
  method ResolveChain(cname: map<string, string>, name: string, maxDepth: nat) returns (r: Result<string, DnsError>)
    ensures r.Ok? <==> exists n :: 0 <= n < maxDepth && EndsAfter(cname, ToLower(name), n)
    ensures r.Ok? ==> forall n :: 0 <= n && EndsAfter(cname, ToLower(name), n) ==> Follow(cname, ToLower(name), n) == r.value
    ensures r.Err? ==> r.error == CnameLoop
  {
    var start := ToLower(name);
    var current := start;
    var visited: set<string> := {};
    var depth := 0;
    while true
      invariant 0 <= depth <= maxDepth && current == Follow(cname, start, depth)
      invariant forall i :: 0 <= i < depth ==> !EndsAfter(cname, start, i)
      invariant visited == set i | 0 <= i < depth :: Follow(cname, start, i)
      decreases maxDepth - depth
    {
      if depth >= maxDepth {
        return Err(CnameLoop);
      }
      if current in visited {
        var j :| 0 <= j < depth && Follow(cname, start, j) == current;
        forall n: nat ensures !EndsAfter(cname, start, n) { LoopNeverEnds(cname, start, j, depth, n); }
        return Err(CnameLoop);
      }
      visited := visited + {current};
      if current in cname {
        current := cname[current];
        depth := depth + 1;
      } else {
        assert EndsAfter(cname, start, depth);
        forall n | 0 <= n && EndsAfter(cname, start, n) ensures Follow(cname, start, n) == current {
          assert n >= depth;
          EndIsUnique(cname, start, depth, n);
        }
        return Ok(current);
      }
    }
  }

  lemma {:induction false} FollowOn(cname: map<string, string>, start: string, a: nat, b: nat)
    ensures Follow(cname, start, a + b) == Follow(cname, Follow(cname, start, a), b)
  {
    if b > 0 { FollowOn(cname, start, a, b - 1); }
  }

  /** A chain that comes back to a name never ends. */
  lemma {:induction false} LoopNeverEnds(cname: map<string, string>, start: string, j: nat, k: nat, n: nat)
    requires j < k && Follow(cname, start, j) == Follow(cname, start, k)
    requires forall i :: 0 <= i < k ==> !EndsAfter(cname, start, i)
    ensures !EndsAfter(cname, start, n)
    decreases n
  {
    if n >= k {
      FollowOn(cname, start, k, n - k);
      FollowOn(cname, start, j, n - k);
      LoopNeverEnds(cname, start, j, k, n - (k - j));
    }
  }

  /** The end of a chain does not depend on how it is found: a longer limit gives the same name. */
  lemma {:induction false} EndIsUnique(cname: map<string, string>, start: string, n: nat, m: nat)
    requires n <= m && EndsAfter(cname, start, n)
    ensures EndsAfter(cname, start, m) && Follow(cname, start, m) == Follow(cname, start, n)
  {
    if n < m { EndIsUnique(cname, start, n, m - 1); }
  }
}
