/** Trying one destination after another. */
module Fallback {
  import opened Text
  import opened Delivery
  import opened MxResolve
  import Client

  /** What became of attempt number `k`, which was given these addresses. */
  type Attempts = (nat, seq<SocketAddr>) -> Result<Client.Results, DeliveryError>

  // ---------------------------------------------------------------- choosing a destination

  predicate HasUntried(d: Destination, attempted: seq<SocketAddr>) {
    exists a :: a in d.SocketAddrs() && a !in attempted
  }

  /** `next` is the first destination with an address not yet attempted, if there is one. */
  predicate NextUntried(destinations: seq<Destination>, attempted: seq<SocketAddr>, next: Option<nat>) {
    match next
    case Some(i) => i < |destinations| && HasUntried(destinations[i], attempted)
                    && forall j :: 0 <= j < i ==> !HasUntried(destinations[j], attempted)
    case None => forall j :: 0 <= j < |destinations| ==> !HasUntried(destinations[j], attempted)
  }

  /** The first destination with an address not yet attempted. */
  method SelectDestination(destinations: seq<Destination>, attempted: seq<SocketAddr>) returns (r: Option<nat>)
    ensures NextUntried(destinations, attempted, r)
  {
    var i := 0;
    while i < |destinations|
      invariant 0 <= i <= |destinations|
      invariant forall j :: 0 <= j < i ==> !HasUntried(destinations[j], attempted)
    {
      var addrs := destinations[i].SocketAddrs();
      var k := 0;
      while k < |addrs|
        invariant 0 <= k <= |addrs|
        invariant forall j :: 0 <= j < k ==> addrs[j] in attempted
      {
        if addrs[k] !in attempted {
          return Some(i);
        }
        k := k + 1;
      }
      i := i + 1;
    }
    r := None;
  }

  // ---------------------------------------------------------------- which destinations are tried

  /** Destination `i` offers an address that none before it has. */
  predicate OffersNew(destinations: seq<Destination>, i: nat)
    requires i < |destinations|
  {
    exists a :: a in destinations[i].SocketAddrs()
             && forall j :: 0 <= j < i ==> a !in destinations[j].SocketAddrs()
  }

  /** The destinations among the first `n` that offer an address of their own. */
  function Worthwhile(destinations: seq<Destination>, n: nat): (r: seq<nat>)
    requires n <= |destinations|
    ensures forall k :: 0 <= k < |r| ==> r[k] < n && OffersNew(destinations, r[k])
    ensures forall i, j :: 0 <= i < j < |r| ==> r[i] < r[j]
    ensures forall i :: 0 <= i < n && OffersNew(destinations, i) ==> i in r
  {
    if n == 0 then []
    else Worthwhile(destinations, n - 1) + if OffersNew(destinations, n - 1) then [n - 1] else []
  }

  /** Every address of the first `n` destinations. */
  predicate AllAttempted(destinations: seq<Destination>, n: nat, attempted: seq<SocketAddr>)
    requires n <= |destinations|
  {
    forall i, a :: 0 <= i < n && a in destinations[i].SocketAddrs() ==> a in attempted
  }

  predicate OnlyTheirs(destinations: seq<Destination>, n: nat, attempted: seq<SocketAddr>)
    requires n <= |destinations|
  {
    forall a :: a in attempted ==> exists i :: 0 <= i < n && a in destinations[i].SocketAddrs()
  }

  /** Before destination `n` is reached, exactly the addresses of those before it are attempted, so
      it has an untried address exactly when it offers a new one. */
  lemma UntriedIsNew(destinations: seq<Destination>, n: nat, attempted: seq<SocketAddr>)
    requires n < |destinations| && AllAttempted(destinations, n, attempted) && OnlyTheirs(destinations, n, attempted)
    ensures HasUntried(destinations[n], attempted) <==> OffersNew(destinations, n)
  {
    if a :| a in destinations[n].SocketAddrs() && a !in attempted {
      assert forall j :: 0 <= j < n ==> a !in destinations[j].SocketAddrs();
    }
  }

  /** Skipping destinations without untried addresses loses nothing. */
  lemma {:induction false} SkipTo(destinations: seq<Destination>, from: nat, to: nat, attempted: seq<SocketAddr>)
    requires from <= to <= |destinations|
    requires AllAttempted(destinations, from, attempted) && OnlyTheirs(destinations, from, attempted)
    requires forall j :: from <= j < to ==> !HasUntried(destinations[j], attempted)
    ensures AllAttempted(destinations, to, attempted) && OnlyTheirs(destinations, to, attempted)
    ensures Worthwhile(destinations, to) == Worthwhile(destinations, from)
    decreases |destinations| - from
  {
    if from < to {
      UntriedIsNew(destinations, from, attempted);
      assert AllAttempted(destinations, from + 1, attempted);
      assert OnlyTheirs(destinations, from + 1, attempted);
      SkipTo(destinations, from + 1, to, attempted);
    }
  }

  lemma AttemptedNext(destinations: seq<Destination>, n: nat, attempted: seq<SocketAddr>)
    requires n < |destinations| && AllAttempted(destinations, n, attempted) && OnlyTheirs(destinations, n, attempted)
    ensures var attempted' := attempted + destinations[n].SocketAddrs();
            AllAttempted(destinations, n + 1, attempted') && OnlyTheirs(destinations, n + 1, attempted')
  {
    var attempted' := attempted + destinations[n].SocketAddrs();
    forall i, a | 0 <= i < n + 1 && a in destinations[i].SocketAddrs() ensures a in attempted' {
      if i < n { assert a in attempted; }
    }
    forall a | a in attempted' ensures exists i :: 0 <= i < n + 1 && a in destinations[i].SocketAddrs() {
      if a in attempted {
        var i :| 0 <= i < n && a in destinations[i].SocketAddrs();
      } else {
        assert a in destinations[n].SocketAddrs();
      }
    }
  }

  // ---------------------------------------------------------------- delivering

  /** A panic in the reply reader ends the delivery, and so does an answer. */
  predicate Conclusive(r: Result<Client.Results, DeliveryError>) {
    r.Ok? || r.error == Panicked
  }

  function Success(d: Destination, results: Client.Results): DeliveryResult {
    DeliveryResult(results, true, Some(d.exchange))
  }

  /** What a delivery comes to: the worthwhile destinations are tried in order, each once, until an
      attempt is conclusive. */
  ghost predicate Delivers(destinations: seq<Destination>, attempt: Attempts, tried: seq<nat>,
                           r: Result<DeliveryResult, DeliveryError>)
  {
    var order := Worthwhile(destinations, |destinations|);
    && tried <= order
    && (forall k :: 0 <= k < |tried| - 1 ==> !Conclusive(attempt(k, destinations[tried[k]].SocketAddrs())))
    && (if tried == [] then order == [] && r == Err(ConnectionFailed([], EXHAUSTED))
        else
          var k := |tried| - 1;
          var last := attempt(k, destinations[tried[k]].SocketAddrs());
          && (!Conclusive(last) ==> tried == order)
          && r == Answer(destinations, tried[k], last))
  }

  const EXHAUSTED := "All destinations exhausted"

  /** The state of the search between two attempts, none of which was conclusive. */
  ghost predicate Searching(destinations: seq<Destination>, attempt: Attempts, done: nat, attempted: seq<SocketAddr>,
                            tried: seq<nat>)
  {
    && done <= |destinations|
    && AllAttempted(destinations, done, attempted) && OnlyTheirs(destinations, done, attempted)
    && tried == Worthwhile(destinations, done)
    && (tried == [] ==> attempted == [])
    && NoneConclusive(destinations, attempt, tried)
  }

  predicate NoneConclusive(destinations: seq<Destination>, attempt: Attempts, tried: seq<nat>) {
    forall k :: 0 <= k < |tried| ==>
      tried[k] < |destinations| && !Conclusive(attempt(k, destinations[tried[k]].SocketAddrs()))
  }

  lemma NoneConclusiveNext(destinations: seq<Destination>, attempt: Attempts, tried: seq<nat>, i: nat)
    requires NoneConclusive(destinations, attempt, tried) && i < |destinations|
    requires !Conclusive(attempt(|tried|, destinations[i].SocketAddrs()))
    ensures NoneConclusive(destinations, attempt, tried + [i])
  {
  }

  lemma TryNext(destinations: seq<Destination>, done: nat, attempted: seq<SocketAddr>, tried: seq<nat>, i: nat)
    requires done <= |destinations| && AllAttempted(destinations, done, attempted) && OnlyTheirs(destinations, done, attempted)
    requires tried == Worthwhile(destinations, done) && NextUntried(destinations, attempted, Some(i))
    ensures done <= i && tried + [i] == Worthwhile(destinations, i + 1)
    ensures tried + [i] <= Worthwhile(destinations, |destinations|)
    ensures AllAttempted(destinations, i, attempted) && OnlyTheirs(destinations, i, attempted)
  {
    Reaches(destinations, done, attempted, i);
    WorthwhileGrows(destinations, i + 1, |destinations|);
  }

  lemma Reaches(destinations: seq<Destination>, done: nat, attempted: seq<SocketAddr>, i: nat)
    requires done <= |destinations| && AllAttempted(destinations, done, attempted) && OnlyTheirs(destinations, done, attempted)
    requires NextUntried(destinations, attempted, Some(i))
    ensures done <= i && Worthwhile(destinations, i + 1) == Worthwhile(destinations, done) + [i]
    ensures AllAttempted(destinations, i, attempted) && OnlyTheirs(destinations, i, attempted)
  {
    NoneBefore(destinations, done, attempted, i);
    SkipTo(destinations, done, i, attempted);
    NextWorthwhile(destinations, i, attempted);
  }

  lemma NextWorthwhile(destinations: seq<Destination>, i: nat, attempted: seq<SocketAddr>)
    requires i < |destinations| && AllAttempted(destinations, i, attempted) && OnlyTheirs(destinations, i, attempted)
    requires HasUntried(destinations[i], attempted)
    ensures Worthwhile(destinations, i + 1) == Worthwhile(destinations, i) + [i]
  {
    UntriedIsNew(destinations, i, attempted);
  }

  lemma {:induction false} NothingLeft(destinations: seq<Destination>, attempt: Attempts, done: nat, attempted: seq<SocketAddr>, tried: seq<nat>)
    requires Searching(destinations, attempt, done, attempted, tried) && NextUntried(destinations, attempted, None)
    ensures tried == Worthwhile(destinations, |destinations|)
  {
    SkipTo(destinations, done, |destinations|, attempted);
  }

  lemma TriedAndFailed(destinations: seq<Destination>, attempt: Attempts, done: nat, attempted: seq<SocketAddr>,
                       tried: seq<nat>, i: nat, done': nat, attempted': seq<SocketAddr>, tried': seq<nat>)
    requires Searching(destinations, attempt, done, attempted, tried) && NextUntried(destinations, attempted, Some(i))
    requires !Conclusive(attempt(|tried|, destinations[i].SocketAddrs()))
    requires done' == i + 1 && attempted' == attempted + destinations[i].SocketAddrs() && tried' == tried + [i]
    ensures Searching(destinations, attempt, done', attempted', tried')
  {
    TryNext(destinations, done, attempted, tried, i);
    AttemptedNext(destinations, i, attempted);
    NoneConclusiveNext(destinations, attempt, tried, i);
  }

  function Answer(destinations: seq<Destination>, i: nat, last: Result<Client.Results, DeliveryError>)
    : Result<DeliveryResult, DeliveryError>
    requires i < |destinations|
  {
    match last
    case Ok(results) => Ok(Success(destinations[i], results))
    case Err(e) => Err(e)
  }

  lemma Concluded(destinations: seq<Destination>, attempt: Attempts, done: nat, attempted: seq<SocketAddr>,
                  tried: seq<nat>, i: nat, last: Result<Client.Results, DeliveryError>, r: Result<DeliveryResult, DeliveryError>)
    requires Searching(destinations, attempt, done, attempted, tried) && NextUntried(destinations, attempted, Some(i))
    requires last == attempt(|tried|, destinations[i].SocketAddrs()) && Conclusive(last)
    requires i < |destinations| && r == Answer(destinations, i, last)
    ensures Delivers(destinations, attempt, tried + [i], r)
  {
    TryNext(destinations, done, attempted, tried, i);
  }

  lemma AllFailed(destinations: seq<Destination>, attempt: Attempts, done: nat, attempted: seq<SocketAddr>,
                  tried: seq<nat>, i: nat, last: Result<Client.Results, DeliveryError>, now: seq<nat>,
                  r: Result<DeliveryResult, DeliveryError>)
    requires now == tried + [i] && Searching(destinations, attempt, done, attempted, now) && i < |destinations|
    requires NextUntried(destinations, attempted, None)
    requires last == attempt(|tried|, destinations[i].SocketAddrs())
    requires r == Answer(destinations, i, last)
    ensures Delivers(destinations, attempt, now, r)
  {
    NothingLeft(destinations, attempt, done, attempted, now);
    assert now[|tried|] == i;
  }

  lemma NothingToTry(destinations: seq<Destination>, attempt: Attempts)
    requires NextUntried(destinations, [], None)
    ensures Delivers(destinations, attempt, [], Err(ConnectionFailed([], EXHAUSTED)))
  {
    NothingLeft(destinations, attempt, 0, [], []);
  }

  lemma MovesOn(destinations: seq<Destination>, attempt: Attempts, done: nat, attempted: seq<SocketAddr>, tried: seq<nat>, i: nat)
    requires Searching(destinations, attempt, done, attempted, tried) && NextUntried(destinations, attempted, Some(i))
    ensures done <= i < |destinations|
  {
    NoneBefore(destinations, done, attempted, i);
  }

  lemma NotYetSearched(destinations: seq<Destination>, attempt: Attempts)
    ensures Searching(destinations, attempt, 0, [], [])
  {
  }

  method Deliver(destinations: seq<Destination>, attempt: Attempts)
    returns (r: Result<DeliveryResult, DeliveryError>, ghost tried: seq<nat>)
    ensures Delivers(destinations, attempt, tried, r)
  {
    var attempted: seq<SocketAddr> := [];
    tried := [];
    var k := 0;
    ghost var done: nat := 0;
    NotYetSearched(destinations, attempt);
    var next := SelectDestination(destinations, attempted);
    while next.Some?
      invariant k == |tried| && Searching(destinations, attempt, done, attempted, tried)
      invariant NextUntried(destinations, attempted, next) && (next.None? ==> attempted == [] && tried == [])
      decreases |destinations| - done, if next.Some? then 1 else 0
    {
      var i := next.value;
      var addrs := destinations[i].SocketAddrs();
      MovesOn(destinations, attempt, done, attempted, tried, i);
      var result := attempt(k, addrs);
      if Conclusive(result) {
        r := Answer(destinations, i, result);
        Concluded(destinations, attempt, done, attempted, tried, i, result, r);
        tried := tried + [i];
        return;
      }
      ghost var before, from, sofar := tried, done, attempted;
      attempted, tried, done, k := attempted + addrs, tried + [i], i + 1, k + 1;
      TriedAndFailed(destinations, attempt, from, sofar, before, i, done, attempted, tried);
      next := SelectDestination(destinations, attempted);
      if next.None? {
        r := Answer(destinations, i, result);
        AllFailed(destinations, attempt, done, attempted, before, i, result, tried, r);
        return;
      }
    }
    NothingToTry(destinations, attempt);
    r := Err(ConnectionFailed(attempted, EXHAUSTED));
  }

  lemma {:induction false} WorthwhileGrows(destinations: seq<Destination>, i: nat, n: nat)
    requires i <= n <= |destinations|
    ensures Worthwhile(destinations, i) <= Worthwhile(destinations, n)
  {
    if i < n { WorthwhileGrows(destinations, i, n - 1); }
  }

  lemma NoneBefore(destinations: seq<Destination>, done: nat, attempted: seq<SocketAddr>, next: nat)
    requires done <= |destinations| && AllAttempted(destinations, done, attempted)
    requires next < |destinations| && HasUntried(destinations[next], attempted)
    ensures done <= next
  {
  }

  // ---------------------------------------------------------------- what that guarantees

  /** On total failure every address of every destination has been part of an attempt. */
  lemma EveryAddressAttempted(destinations: seq<Destination>, attempt: Attempts, tried: seq<nat>,
                              r: Result<DeliveryResult, DeliveryError>, i: nat, a: SocketAddr)
    requires Delivers(destinations, attempt, tried, r) && r.Err? && r.error != Panicked
    requires i < |destinations| && a in destinations[i].SocketAddrs()
    ensures exists k :: 0 <= k < |tried| && tried[k] <= i && a in destinations[tried[k]].SocketAddrs()
  {
    FirstOffer(destinations, i, a);
    var j :| 0 <= j <= i && a in destinations[j].SocketAddrs() && OffersNew(destinations, j);
    assert j in Worthwhile(destinations, |destinations|);
    var k :| 0 <= k < |tried| && tried[k] == j;
  }

  /** Destinations are tried in order, none twice, and the trying stops at the first success: every attempt
      but the last returned an error, and with a success the results are those of the last one. */
  lemma SuccessIsLast(destinations: seq<Destination>, attempt: Attempts, tried: seq<nat>, r: Result<DeliveryResult, DeliveryError>)
    requires Delivers(destinations, attempt, tried, r)
    ensures forall k :: 0 <= k < |tried| ==> tried[k] < |destinations|
    ensures forall k, l :: 0 <= k < l < |tried| ==> tried[k] < tried[l]
    ensures forall k :: 0 <= k < |tried| - 1 ==>
              && attempt(k, destinations[tried[k]].SocketAddrs()).Err?
              && attempt(k, destinations[tried[k]].SocketAddrs()).error != Panicked
    ensures r.Ok? <==> tried != [] && attempt(|tried| - 1, destinations[tried[|tried| - 1]].SocketAddrs()).Ok?
    ensures r.Ok? ==>
              var d := destinations[tried[|tried| - 1]];
              && attempt(|tried| - 1, d.SocketAddrs()) == Ok(r.value.recipients)
              && r.value.connected && r.value.mxServer == Some(d.exchange)
  {
    var order := Worthwhile(destinations, |destinations|);
    forall k | 0 <= k < |tried| ensures tried[k] == order[k] {}
  }

  lemma {:induction false} FirstOffer(destinations: seq<Destination>, i: nat, a: SocketAddr)
    requires i < |destinations| && a in destinations[i].SocketAddrs()
    ensures exists j :: 0 <= j <= i && a in destinations[j].SocketAddrs() && OffersNew(destinations, j)
  {
    if j :| 0 <= j < i && a in destinations[j].SocketAddrs() {
      FirstOffer(destinations, j, a);
    } else {
      assert OffersNew(destinations, i);
    }
  }

  /** "All destinations exhausted" is the answer exactly when there is no address to try at all;
      otherwise a failed delivery reports the error of its last attempt. */
  lemma ExhaustedIff(destinations: seq<Destination>, attempt: Attempts, tried: seq<nat>,
                     r: Result<DeliveryResult, DeliveryError>)
    requires Delivers(destinations, attempt, tried, r)
    ensures tried == [] <==> forall i :: 0 <= i < |destinations| ==> destinations[i].addresses == []
    ensures tried == [] ==> r == Err(ConnectionFailed([], EXHAUSTED))
    ensures tried != [] && r.Err? ==>
              attempt(|tried| - 1, destinations[tried[|tried| - 1]].SocketAddrs()) == Err(r.error)
  {
    if tried == [] {
      forall i | 0 <= i < |destinations| ensures destinations[i].addresses == [] {
        if destinations[i].addresses != [] {
          FirstOffer(destinations, i, destinations[i].SocketAddrs()[0]);
        }
      }
    } else {
      assert OffersNew(destinations, tried[0]);
    }
  }

  lemma ResolvedHasAddress(dns: Dns, port: nat, name: string)
    requires Resolve(dns, port, name).Ok?
    ensures var ds := Resolve(dns, port, name).value; ds != [] && ds[0].addresses != []
  {
    if dns.mx(ToLower(name)).Some? && dns.mx(ToLower(name)).value != [] {
      ResolvedByPreference(dns, port, name);
    }
  }

  lemma {:induction false} FirstIsWorthwhile(ds: seq<Destination>)
    requires ds != [] && ds[0].addresses != []
    ensures [0] <= Worthwhile(ds, |ds|)
  {
    assert ds[0].SocketAddrs()[0] in ds[0].SocketAddrs();
    assert OffersNew(ds, 0);
    WorthwhileGrows(ds, 1, |ds|);
    assert Worthwhile(ds, 1) == [0] by { assert Worthwhile(ds, 0) == []; }
  }

  /** Resolution and fallback together: a resolved domain always leads to at least one attempt, and
      the first goes to its first destination. */
  lemma ResolvedIsAttempted(dns: Dns, port: nat, name: string, attempt: Attempts, tried: seq<nat>,
                            r: Result<DeliveryResult, DeliveryError>)
    requires Resolve(dns, port, name).Ok? && Delivers(Resolve(dns, port, name).value, attempt, tried, r)
    ensures tried != [] && tried[0] == 0
  {
    ResolvedHasAddress(dns, port, name);
    FirstIsWorthwhile(Resolve(dns, port, name).value);
  }

  // ---------------------------------------------------------------- attempts over a network

  /** Who answers at an address during attempt `k`, or why nobody does. */
  type Network = (nat, SocketAddr) -> Result<Client.Server, string>

  const UNREACHABLE := "All connection attempts failed"

  /** The first address that answers; without one, the reason is that of the last address tried. */
  function FirstAnswer(net: Network, k: nat, addrs: seq<SocketAddr>, reason: string): Result<Client.Server, string> {
    if addrs == [] then Err(reason)
    else
      match net(k, addrs[0])
      case Ok(server) => Ok(server)
      case Err(e) => FirstAnswer(net, k, addrs[1..], e)
  }

  /** Connecting tries each address in turn until one answers. */
  method Connect(net: Network, k: nat, addrs: seq<SocketAddr>) returns (server: Result<Client.Server, string>)
    ensures server == FirstAnswer(net, k, addrs, UNREACHABLE)
    ensures server.Ok? <==> exists i :: 0 <= i < |addrs| && net(k, addrs[i]).Ok?
  {
    var reason := UNREACHABLE;
    var i := 0;
    while i < |addrs|
      invariant 0 <= i <= |addrs|
      invariant FirstAnswer(net, k, addrs[i..], reason) == FirstAnswer(net, k, addrs, UNREACHABLE)
      invariant forall j :: 0 <= j < i ==> net(k, addrs[j]).Err?
    {
      assert addrs[i..][1..] == addrs[i + 1..];
      match net(k, addrs[i]) {
        case Ok(answer) => return Ok(answer);
        case Err(e) => reason := e;
      }
      i := i + 1;
    }
    server := Err(reason);
  }

  /** What is said to whoever answers. */
  type Conversation = Client.Server -> Client.Attempt

  function ConversationOf(host: string, sender: string, recipients: seq<string>, body: string): Conversation {
    (server: Client.Server) => Client.Converse(server, host, sender, recipients, body)
  }

  /** A delivery attempt: connect, then hold the conversation. */
  function AttemptsOver(net: Network, converse: Conversation): Attempts {
    (k: nat, addrs: seq<SocketAddr>) =>
      match FirstAnswer(net, k, addrs, UNREACHABLE)
      case Err(reason) => Err(ConnectionFailed(addrs, reason))
      case Ok(server) => converse(server).result
  }

  /** `server` answers at the first address that anybody answers at. */
  ghost predicate AnsweredBy(net: Network, k: nat, addrs: seq<SocketAddr>, server: Client.Server) {
    exists i :: 0 <= i < |addrs| && net(k, addrs[i]) == Ok(server) && forall j :: 0 <= j < i ==> net(k, addrs[j]).Err?
  }

  lemma {:induction false} FirstAnswerIs(net: Network, k: nat, addrs: seq<SocketAddr>, reason: string)
    ensures var answer := FirstAnswer(net, k, addrs, reason);
            && (answer.Ok? ==> AnsweredBy(net, k, addrs, answer.value))
            && (answer.Err? <==> forall i :: 0 <= i < |addrs| ==> net(k, addrs[i]).Err?)
  {
    if addrs != [] {
      match net(k, addrs[0])
      case Ok(server) => assert net(k, addrs[0]) == Ok(server);
      case Err(e) =>
        var rest := addrs[1..];
        FirstAnswerIs(net, k, rest, e);
        forall i | 0 <= i < |rest| ensures rest[i] == addrs[i + 1] {}
        var answer := FirstAnswer(net, k, rest, e);
        if answer.Ok? {
          var i :| 0 <= i < |rest| && net(k, rest[i]) == Ok(answer.value) && forall j :: 0 <= j < i ==> net(k, rest[j]).Err?;
          forall j | 0 <= j < i + 1 ensures net(k, addrs[j]).Err? { if j > 0 { assert addrs[j] == rest[j - 1]; } }
          assert net(k, addrs[i + 1]) == Ok(answer.value);
        }
        if forall i :: 0 <= i < |addrs| ==> net(k, addrs[i]).Err? {
          forall i | 0 <= i < |rest| ensures net(k, rest[i]).Err? { assert rest[i] == addrs[i + 1]; }
        }
    }
  }

  lemma AttemptIs(net: Network, converse: Conversation, k: nat, addrs: seq<SocketAddr>)
    ensures var r := AttemptsOver(net, converse)(k, addrs);
            && (r.Ok? ==> exists server :: AnsweredBy(net, k, addrs, server) && r == converse(server).result)
            && ((forall i :: 0 <= i < |addrs| ==> net(k, addrs[i]).Err?) ==>
                  r.Err? && r.error.ConnectionFailed? && r.error.attempted == addrs)
  {
    FirstAnswerIs(net, k, addrs, UNREACHABLE);
    var answer := FirstAnswer(net, k, addrs, UNREACHABLE);
    if answer.Ok? {
      assert AnsweredBy(net, k, addrs, answer.value);
    }
  }

  lemma LastAttempt(destinations: seq<Destination>, attempt: Attempts, tried: seq<nat>, r: Result<DeliveryResult, DeliveryError>)
    requires Delivers(destinations, attempt, tried, r)
    ensures tried != [] || r.Err?
    ensures tried != [] ==>
              && tried[|tried| - 1] < |destinations|
              && var d := destinations[tried[|tried| - 1]];
                 match r
                 case Ok(result) => attempt(|tried| - 1, d.SocketAddrs()) == Ok(result.recipients)
                                    && result.mxServer == Some(d.exchange)
                 case Err(e) => attempt(|tried| - 1, d.SocketAddrs()) == Err(e)
  {
  }

  /** A delivery that succeeds has the results of one conversation, with the first peer that answers at
      the destination tried last, under that destination's name. */
  lemma OneConversation(net: Network, converse: Conversation, destinations: seq<Destination>, tried: seq<nat>,
                        r: Result<DeliveryResult, DeliveryError>)
    returns (server: Client.Server)
    requires Delivers(destinations, AttemptsOver(net, converse), tried, r) && r.Ok?
    ensures tried != [] && tried[|tried| - 1] < |destinations|
    ensures r.value.mxServer == Some(destinations[tried[|tried| - 1]].exchange)
    ensures AnsweredBy(net, |tried| - 1, destinations[tried[|tried| - 1]].SocketAddrs(), server)
    ensures converse(server).result == Ok(r.value.recipients)
  {
    LastAttempt(destinations, AttemptsOver(net, converse), tried, r);
    var addrs := destinations[tried[|tried| - 1]].SocketAddrs();
    AttemptIs(net, converse, |tried| - 1, addrs);
    server :| AnsweredBy(net, |tried| - 1, addrs, server) && converse(server).result == Ok(r.value.recipients);
  }

  /** Destinations, connections and conversations together: such a delivery accounts for every
      recipient. */
  lemma DeliveredByOne(net: Network, host: string, sender: string, recipients: seq<string>, body: string,
                       destinations: seq<Destination>, tried: seq<nat>, r: Result<DeliveryResult, DeliveryError>)
    returns (server: Client.Server)
    requires Delivers(destinations, AttemptsOver(net, ConversationOf(host, sender, recipients, body)), tried, r) && r.Ok?
    ensures tried != [] && tried[|tried| - 1] < |destinations|
    ensures r.value.mxServer == Some(destinations[tried[|tried| - 1]].exchange)
    ensures AnsweredBy(net, |tried| - 1, destinations[tried[|tried| - 1]].SocketAddrs(), server)
    ensures var a := Client.Converse(server, host, sender, recipients, body);
            a.result == Ok(r.value.recipients) && Client.Settled(recipients, r.value.recipients, a.rcpts, a.final)
  {
    server := OneConversation(net, ConversationOf(host, sender, recipients, body), destinations, tried, r);
    Client.EveryConversationAccounted(server, host, sender, recipients, body);
  }

  /** If nobody answers anywhere, the error names the addresses tried last. */
  lemma NobodyAnswers(net: Network, converse: Conversation, destinations: seq<Destination>, tried: seq<nat>,
                      r: Result<DeliveryResult, DeliveryError>)
    requires Delivers(destinations, AttemptsOver(net, converse), tried, r)
    requires tried != [] && forall k, a :: net(k, a).Err?
    ensures tried[|tried| - 1] < |destinations|
    ensures r.Err? && r.error.ConnectionFailed? && r.error.attempted == destinations[tried[|tried| - 1]].SocketAddrs()
  {
    LastAttempt(destinations, AttemptsOver(net, converse), tried, r);
    AttemptIs(net, converse, |tried| - 1, destinations[tried[|tried| - 1]].SocketAddrs());
  }
}
