/** Finding the hosts that accept mail for a domain (section 5.1 of RFC 5321). */
module MxResolve {
  import opened Text
  import opened Delivery
  import opened Sorting

  datatype MxRecord = MxRecord(preference: nat, exchange: string)

  /** The resolver's answers; `None` stands for any failure. */
  datatype Dns = Dns(
    mx: string -> Option<seq<MxRecord>>,
    a: string -> Option<seq<string>>,
    aaaa: string -> Option<seq<string>>)

  datatype Destination = Destination(
    domain: string,
    exchange: string,
    addresses: seq<string>,
    preference: nat,
    port: nat)
  {
    function SocketAddrs(): (r: seq<SocketAddr>)
      ensures |r| == |addresses| && forall i :: 0 <= i < |r| ==> r[i] == SocketAddr(addresses[i], port)
    {
      seq(|addresses|, i requires 0 <= i < |addresses| => SocketAddr(addresses[i], port))
    }
  }

  function TrimDots(s: string): string {
    if s != "" && s[|s| - 1] == '.' then TrimDots(s[..|s| - 1]) else s
  }

  function OrNone(answer: Option<seq<string>>): seq<string> {
    match answer
    case Some(ips) => ips
    case None => []
  }

  /** IPv6 addresses first. */
  function AddressesOf(dns: Dns, host: string): seq<string> {
    OrNone(dns.aaaa(host)) + OrNone(dns.a(host))
  }

  function DestinationOf(dns: Dns, port: nat, domain: string, mx: MxRecord): Destination {
    var exchange := ToLower(TrimDots(mx.exchange));
    Destination(domain, exchange, AddressesOf(dns, exchange), mx.preference, port)
  }

  /** The destinations of the records that have an address, in the records' order. */
  function Resolvable(dns: Dns, port: nat, domain: string, records: seq<MxRecord>): seq<Destination> {
    if records == [] then []
    else
      var n := |records| - 1;
      var d := DestinationOf(dns, port, domain, records[n]);
      Resolvable(dns, port, domain, records[..n]) + if d.addresses != [] then [d] else []
  }

  const BY_PREFERENCE: MxRecord -> int := (mx: MxRecord) => mx.preference
  const PREFERENCE_OF: Destination -> int := (d: Destination) => d.preference

  function FallbackTo(dns: Dns, port: nat, domain: string): Result<seq<Destination>, DeliveryError> {
    var addresses := AddressesOf(dns, domain);
    if addresses == [] then Err(ResolutionFailed(domain, "No MX records and no A/AAAA records found"))
    else Ok([Destination(domain, domain, addresses, 0, port)])
  }

  function Resolve(dns: Dns, port: nat, name: string): Result<seq<Destination>, DeliveryError> {
    var domain := ToLower(name);
    var records := dns.mx(domain);
    if records.Some? && records.value != [] then
      var destinations := Resolvable(dns, port, domain, StableSort(BY_PREFERENCE, records.value));
      if destinations == [] then
        Err(ResolutionFailed(domain, "MX records found but none resolve to IP addresses"))
      else Ok(destinations)
    else FallbackTo(dns, port, domain)
  }

  method LookUp(dns: Dns, host: string) returns (addresses: seq<string>)
    ensures addresses == AddressesOf(dns, host)
  {
    addresses := [];
    match dns.aaaa(host) {
      case Some(ips) => addresses := addresses + ips;
      case None =>
    }
    match dns.a(host) {
      case Some(ips) => addresses := addresses + ips;
      case None =>
    }
  }

  method ResolveMail(dns: Dns, port: nat, name: string) returns (r: Result<seq<Destination>, DeliveryError>)
    ensures r == Resolve(dns, port, name)
  {
    var domain := ToLower(name);
    var answer := dns.mx(domain);
    if answer.None? || answer.value == [] {
      var addresses := LookUp(dns, domain);
      if addresses == [] {
        return Err(ResolutionFailed(domain, "No MX records and no A/AAAA records found"));
      }
      return Ok([Destination(domain, domain, addresses, 0, port)]);
    }
    var records := StableSort(BY_PREFERENCE, answer.value);
    var destinations: seq<Destination> := [];
    var i := 0;
    while i < |records|
      invariant 0 <= i <= |records|
      invariant destinations == Resolvable(dns, port, domain, records[..i])
    {
      var exchange := ToLower(TrimDots(records[i].exchange));
      var addresses := LookUp(dns, exchange);
      if addresses != [] {
        destinations := destinations + [Destination(domain, exchange, addresses, records[i].preference, port)];
      }
      assert records[..i + 1][..i] == records[..i];
      i := i + 1;
    }
    assert records[..i] == records;
    if destinations == [] {
      return Err(ResolutionFailed(domain, "MX records found but none resolve to IP addresses"));
    }
    r := Ok(destinations);
  }

  // ---------------------------------------------------------------- order and completeness

  lemma {:induction false} ResolvableSnoc(dns: Dns, port: nat, domain: string, records: seq<MxRecord>, mx: MxRecord)
    ensures var d := DestinationOf(dns, port, domain, mx);
            Resolvable(dns, port, domain, records + [mx])
            == (if d.addresses != [] then Resolvable(dns, port, domain, records) + [d] else Resolvable(dns, port, domain, records))
  {
    assert (records + [mx])[..|records|] == records;
  }

  lemma {:induction false} WithKeyStep(dns: Dns, port: nat, domain: string, front: seq<MxRecord>, mx: MxRecord, k: int)
    requires WithKey(PREFERENCE_OF, k, Resolvable(dns, port, domain, front))
          == Resolvable(dns, port, domain, WithKey(BY_PREFERENCE, k, front))
    ensures WithKey(PREFERENCE_OF, k, Resolvable(dns, port, domain, front + [mx]))
         == Resolvable(dns, port, domain, WithKey(BY_PREFERENCE, k, front + [mx]))
  {
    var d := DestinationOf(dns, port, domain, mx);
    WithKeySnoc(PREFERENCE_OF, k, Resolvable(dns, port, domain, front), d);
    WithKeySnoc(BY_PREFERENCE, k, front, mx);
    ResolvableSnoc(dns, port, domain, front, mx);
    ResolvableSnoc(dns, port, domain, WithKey(BY_PREFERENCE, k, front), mx);
  }

  /** Picking a preference and resolving commute. */
  lemma {:induction false} WithKeyResolvable(dns: Dns, port: nat, domain: string, records: seq<MxRecord>, k: int)
    ensures WithKey(PREFERENCE_OF, k, Resolvable(dns, port, domain, records))
         == Resolvable(dns, port, domain, WithKey(BY_PREFERENCE, k, records))
  {
    if records != [] {
      var front, mx := records[..|records| - 1], records[|records| - 1];
      WithKeyResolvable(dns, port, domain, front, k);
      WithKeyStep(dns, port, domain, front, mx, k);
      assert records == front + [mx];
    }
  }

  lemma {:induction false} ResolvableSorted(dns: Dns, port: nat, domain: string, records: seq<MxRecord>)
    requires SortedBy(BY_PREFERENCE, records)
    ensures SortedBy(PREFERENCE_OF, Resolvable(dns, port, domain, records))
    ensures forall i :: 0 <= i < |Resolvable(dns, port, domain, records)| ==>
              var d := Resolvable(dns, port, domain, records)[i];
              d.addresses != [] && records != [] && d.preference <= records[|records| - 1].preference
  {
    if records != [] {
      ResolvableSorted(dns, port, domain, records[..|records| - 1]);
    }
  }

  /** What the resolver promises when the domain has mail exchangers: preferences ascend, and the
      destinations of each preference are those of its records that have an address, in the order
      the records came; every destination has an address. */
  lemma {:induction false} ResolvedByPreference(dns: Dns, port: nat, name: string)
    requires var records := dns.mx(ToLower(name)); records.Some? && records.value != []
    requires Resolve(dns, port, name).Ok?
    ensures var ds := Resolve(dns, port, name).value;
            var records := dns.mx(ToLower(name)).value;
            && ds != [] && SortedBy(PREFERENCE_OF, ds)
            && (forall i :: 0 <= i < |ds| ==> ds[i].addresses != [])
            && (forall k :: WithKey(PREFERENCE_OF, k, ds)
                         == Resolvable(dns, port, ToLower(name), WithKey(BY_PREFERENCE, k, records)))
  {
    var domain := ToLower(name);
    var records := dns.mx(domain).value;
    var sorted := StableSort(BY_PREFERENCE, records);
    StableSortIsStable(BY_PREFERENCE, records);
    ResolvableSorted(dns, port, domain, sorted);
    forall k ensures WithKey(PREFERENCE_OF, k, Resolvable(dns, port, domain, sorted))
                  == Resolvable(dns, port, domain, WithKey(BY_PREFERENCE, k, records))
    {
      assert SameAt(BY_PREFERENCE, sorted, records, k);
      WithKeyResolvable(dns, port, domain, sorted, k);
    }
  }

  lemma {:induction false} NoneResolvable(dns: Dns, port: nat, domain: string, records: seq<MxRecord>)
    ensures Resolvable(dns, port, domain, records) == [] <==>
            forall mx :: mx in records ==> DestinationOf(dns, port, domain, mx).addresses == []
  {
    if records != [] {
      var front, mx := records[..|records| - 1], records[|records| - 1];
      NoneResolvable(dns, port, domain, front);
      assert records == front + [mx];
    }
  }

  lemma {:induction false} SortKeepsMembers(records: seq<MxRecord>, mx: MxRecord)
    ensures mx in StableSort(BY_PREFERENCE, records) <==> mx in records
  {
    StableSortIsStable(BY_PREFERENCE, records);
    SameMembers(BY_PREFERENCE, StableSort(BY_PREFERENCE, records), records, mx);
  }

  /** Resolution fails exactly when there is nowhere to go: the exchangers, or without any the
      domain itself, have no address at all. */
  lemma ResolveFailsIff(dns: Dns, port: nat, name: string)
    ensures var domain := ToLower(name);
            var records := OrNoRecords(dns.mx(domain));
            Resolve(dns, port, name).Err? <==>
            if records == [] then AddressesOf(dns, domain) == []
            else forall mx :: mx in records ==> AddressesOf(dns, ToLower(TrimDots(mx.exchange))) == []
  {
    var domain := ToLower(name);
    var records := OrNoRecords(dns.mx(domain));
    if records != [] {
      var sorted := StableSort(BY_PREFERENCE, records);
      NoneResolvable(dns, port, domain, sorted);
      forall mx: MxRecord ensures mx in sorted <==> mx in records { SortKeepsMembers(records, mx); }
      assert forall mx :: DestinationOf(dns, port, domain, mx).addresses == AddressesOf(dns, ToLower(TrimDots(mx.exchange)));
    }
  }

  function OrNoRecords(answer: Option<seq<MxRecord>>): seq<MxRecord> {
    match answer
    case Some(records) => records
    case None => []
  }
}
