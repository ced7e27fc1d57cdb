/** What a resolved domain says about the name servers' answers, told from those answers alone. */
module MxLaws {
  import opened Text
  import opened Delivery
  import opened Sorting
  import opened MxResolve

  // ---------------------------------------------------------------- what the answers say

  /** The addresses an answer gives, if it gives any. */
  predicate Gives(answer: Option<seq<string>>, ips: seq<string>) {
    match answer
    case Some(given) => ips == given
    case None => ips == []
  }

  predicate Names(answer: Option<seq<string>>, ip: string) {
    answer.Some? && ip in answer.value
  }

  /** Some address is known for the host, of either kind. */
  ghost predicate Reachable(dns: Dns, host: string) {
    exists ip :: Names(dns.aaaa(host), ip) || Names(dns.a(host), ip)
  }

  /** All IPv6 addresses, in their order, and then all IPv4 addresses, in theirs. */
  predicate LookedUp(dns: Dns, host: string, addresses: seq<string>) {
    exists k :: 0 <= k <= |addresses| && SplitsAt(dns, host, addresses, k)
  }

  predicate SplitsAt(dns: Dns, host: string, addresses: seq<string>, k: nat)
    requires k <= |addresses|
  {
    Gives(dns.aaaa(host), addresses[..k]) && Gives(dns.a(host), addresses[k..])
  }

  /** `host` is the name an exchanger is looked up by: in lower case and without dots at its end. */
  predicate IsHostOf(mx: MxRecord, host: string) {
    exists n :: 0 <= n <= |mx.exchange| && CutAt(mx.exchange, n, host)
  }

  predicate CutAt(name: string, n: nat, host: string)
    requires n <= |name|
  {
    && host == ToLower(name[..n]) && (n > 0 ==> name[n - 1] != '.')
    && forall i :: n <= i < |name| ==> name[i] == '.'
  }

  ghost predicate ReachableBy(dns: Dns, mx: MxRecord) {
    exists host :: IsHostOf(mx, host) && Reachable(dns, host)
  }

  /** The records whose host can be reached. */
  ghost function Usable(dns: Dns, records: seq<MxRecord>): seq<MxRecord> {
    if records == [] then []
    else
      var n := |records| - 1;
      Usable(dns, records[..n]) + if ReachableBy(dns, records[n]) then [records[n]] else []
  }

  /** A destination for a record. */
  predicate IsDestination(dns: Dns, port: nat, domain: string, mx: MxRecord, d: Destination) {
    && d.domain == domain && d.port == port && d.preference == mx.preference
    && IsHostOf(mx, d.exchange) && LookedUp(dns, d.exchange, d.addresses) && d.addresses != []
  }

  /** One destination for each record, in the same order. */
  predicate Match(dns: Dns, port: nat, domain: string, records: seq<MxRecord>, ds: seq<Destination>) {
    |ds| == |records| && forall i :: 0 <= i < |ds| ==> IsDestination(dns, port, domain, records[i], ds[i])
  }

  // ---------------------------------------------------------------- lookups

  lemma LookupIs(dns: Dns, host: string)
    ensures LookedUp(dns, host, AddressesOf(dns, host))
    ensures forall ip :: ip in AddressesOf(dns, host) <==> Names(dns.aaaa(host), ip) || Names(dns.a(host), ip)
    ensures AddressesOf(dns, host) != [] <==> Reachable(dns, host)
  {
    var k := |OrNone(dns.aaaa(host))|;
    assert SplitsAt(dns, host, AddressesOf(dns, host), k);
    if AddressesOf(dns, host) != [] {
      var ip := AddressesOf(dns, host)[0];
      assert ip in AddressesOf(dns, host);
    }
  }

  lemma {:induction false} TrimDotsIs(s: string)
    ensures |TrimDots(s)| <= |s| && TrimDots(s) == s[..|TrimDots(s)|]
    ensures CutAt(s, |TrimDots(s)|, ToLower(TrimDots(s)))
  {
    if s != "" && s[|s| - 1] == '.' {
      TrimDotsIs(s[..|s| - 1]);
    } else {
      assert s[..|s|] == s;
    }
  }

  lemma CutIsUnique(s: string, n: nat, host: string, m: nat, other: string)
    requires n <= |s| && m <= |s| && CutAt(s, n, host) && CutAt(s, m, other)
    ensures host == other
  {
  }

  lemma HostIs(mx: MxRecord)
    ensures IsHostOf(mx, ToLower(TrimDots(mx.exchange)))
    ensures forall host :: IsHostOf(mx, host) ==> host == ToLower(TrimDots(mx.exchange))
  {
    TrimDotsIs(mx.exchange);
    var n := |TrimDots(mx.exchange)|;
    forall host | IsHostOf(mx, host) ensures host == ToLower(TrimDots(mx.exchange)) {
      var m :| 0 <= m <= |mx.exchange| && CutAt(mx.exchange, m, host);
      CutIsUnique(mx.exchange, n, ToLower(TrimDots(mx.exchange)), m, host);
    }
  }

  lemma DestinationIs(dns: Dns, port: nat, domain: string, mx: MxRecord)
    ensures var d := DestinationOf(dns, port, domain, mx);
            && (d.addresses != [] <==> ReachableBy(dns, mx))
            && (d.addresses != [] ==> IsDestination(dns, port, domain, mx, d))
  {
    HostIs(mx);
    LookupIs(dns, ToLower(TrimDots(mx.exchange)));
  }

  lemma {:induction false} ResolvableMatches(dns: Dns, port: nat, domain: string, records: seq<MxRecord>)
    ensures Match(dns, port, domain, Usable(dns, records), Resolvable(dns, port, domain, records))
  {
    if records != [] {
      ResolvableMatches(dns, port, domain, records[..|records| - 1]);
      DestinationIs(dns, port, domain, records[|records| - 1]);
    }
  }

  /** An address belongs to such a lookup if and only if one of the answers contains it. */
  lemma LookedUpIff(dns: Dns, host: string, addresses: seq<string>, ip: string)
    requires LookedUp(dns, host, addresses)
    ensures ip in addresses <==> Names(dns.aaaa(host), ip) || Names(dns.a(host), ip)
  {
    var k :| 0 <= k <= |addresses| && SplitsAt(dns, host, addresses, k);
    GivesNames(dns.aaaa(host), addresses[..k], ip);
    GivesNames(dns.a(host), addresses[k..], ip);
    InEither(addresses, k, ip);
  }

  lemma GivesNames(answer: Option<seq<string>>, ips: seq<string>, ip: string)
    requires Gives(answer, ips)
    ensures ip in ips <==> Names(answer, ip)
  {
  }

  lemma InEither(all: seq<string>, k: nat, ip: string)
    requires k <= |all|
    ensures ip in all <==> ip in all[..k] || ip in all[k..]
  {
    assert all == all[..k] + all[k..];
  }

  // ---------------------------------------------------------------- what resolution comes to

  /** With mail exchangers: preferences ascend, and at each preference the destinations are, one for one
      and in order, the records of that preference whose host has an address. */
  ghost predicate ByExchanger(dns: Dns, port: nat, domain: string, records: seq<MxRecord>, ds: seq<Destination>) {
    && (forall i, j :: 0 <= i < j < |ds| ==> ds[i].preference <= ds[j].preference)
    && forall k :: MatchAt(dns, port, domain, records, ds, k)
  }

  ghost predicate MatchAt(dns: Dns, port: nat, domain: string, records: seq<MxRecord>, ds: seq<Destination>, k: int) {
    Match(dns, port, domain, Usable(dns, WithKey((mx: MxRecord) => mx.preference, k, records)),
          WithKey((d: Destination) => d.preference, k, ds))
  }

  /** Without: the domain itself. */
  predicate ByDomain(dns: Dns, port: nat, domain: string, ds: seq<Destination>) {
    && |ds| == 1 && ds[0].addresses != [] && LookedUp(dns, domain, ds[0].addresses)
    && ds[0].domain == domain && ds[0].exchange == domain && ds[0].preference == 0 && ds[0].port == port
  }

  /** Resolution fails if and only if no exchanger, or without any the domain itself, has an address of
      either kind; otherwise it gives every host that has one, with all its addresses. */
  lemma {:induction false} ResolutionIs(dns: Dns, port: nat, name: string)
    ensures var domain, r := ToLower(name), Resolve(dns, port, name);
            if dns.mx(domain).Some? && dns.mx(domain).value != [] then
              var records := dns.mx(domain).value;
              && (r.Err? <==> forall mx :: mx in records ==> !ReachableBy(dns, mx))
              && (r.Err? ==> r.error.ResolutionFailed? && r.error.domain == domain)
              && (r.Ok? ==> ByExchanger(dns, port, domain, records, r.value))
            else
              && (r.Err? <==> !Reachable(dns, domain))
              && (r.Err? ==> r.error.ResolutionFailed? && r.error.domain == domain)
              && (r.Ok? ==> ByDomain(dns, port, domain, r.value))
  {
    var domain := ToLower(name);
    if dns.mx(domain).Some? && dns.mx(domain).value != [] {
      ExchangersFail(dns, port, name);
      if Resolve(dns, port, name).Ok? { ExchangersResolve(dns, port, name); }
    } else {
      LookupIs(dns, domain);
    }
  }

  lemma {:induction false} ExchangersFail(dns: Dns, port: nat, name: string)
    requires var mx := dns.mx(ToLower(name)); mx.Some? && mx.value != []
    ensures Resolve(dns, port, name).Err? <==> forall mx :: mx in dns.mx(ToLower(name)).value ==> !ReachableBy(dns, mx)
  {
    ResolveFailsIff(dns, port, name);
    forall mx | mx in dns.mx(ToLower(name)).value
      ensures AddressesOf(dns, ToLower(TrimDots(mx.exchange))) == [] <==> !ReachableBy(dns, mx)
    {
      DestinationIs(dns, port, ToLower(name), mx);
    }
  }

  lemma {:induction false} ExchangersResolve(dns: Dns, port: nat, name: string)
    requires var mx := dns.mx(ToLower(name)); mx.Some? && mx.value != []
    requires Resolve(dns, port, name).Ok?
    ensures ByExchanger(dns, port, ToLower(name), dns.mx(ToLower(name)).value, Resolve(dns, port, name).value)
  {
    var domain, records, ds := ToLower(name), dns.mx(ToLower(name)).value, Resolve(dns, port, name).value;
    ResolvedByPreference(dns, port, name);
    forall i, j | 0 <= i < j < |ds| ensures ds[i].preference <= ds[j].preference {
      assert PREFERENCE_OF(ds[i]) <= PREFERENCE_OF(ds[j]);
    }
    forall k ensures MatchAt(dns, port, domain, records, ds, k) {
      SameKeys(BY_PREFERENCE, (mx: MxRecord) => mx.preference, k, records);
      SameKeys(PREFERENCE_OF, (d: Destination) => d.preference, k, ds);
      ResolvableMatches(dns, port, domain, WithKey(BY_PREFERENCE, k, records));
    }
  }

  lemma {:induction false} SameKeys<T>(f: T -> int, g: T -> int, k: int, s: seq<T>)
    requires forall x :: f(x) == g(x)
    ensures WithKey(f, k, s) == WithKey(g, k, s)
  {
    if s != [] { SameKeys(f, g, k, s[..|s| - 1]); }
  }
}
