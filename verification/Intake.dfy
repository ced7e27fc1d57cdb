/** From the collected text of a message to the file in the spool. */
module Intake {
  import opened Numbers
  import opened Text
  import opened Answer
  import opened Session
  import opened Message
  import opened Spool

  function Origin(envelope: Envelope): string {
    var peer := if envelope.peerAddr.Some? then envelope.peerAddr.value else "unknown";
    match envelope.clientHostname
    case Some(host) => "from " + host + " (" + peer + ")"
    case None => "from " + peer
  }

  /** The trace line; `date` is the time of receipt, already formatted. */
  function ReceivedHeader(envelope: Envelope, hostname: string, date: string): string {
    RECEIVED + " " + Origin(envelope) + " by " + hostname + " with ESMTP id " + envelope.id + "; " + date
  }

  function Decorated(m: Message, envelope: Envelope, hostname: string, messageId: string, date: string): Message {
    m.(headers := [Header("Received", ReceivedValue(ReceivedHeader(envelope, hostname, date)))]
                  + WithMessageId(m.headers, messageId))
  }

  /** What is spooled: the message with its trace, or, if it cannot be parsed, the text as it came. */
  function FinalData(envelope: Envelope, raw: string, hostname: string, messageId: string, date: string): string {
    match Parse(raw)
    case Ok(m) => ToBytes(Decorated(m, envelope, hostname, messageId, date))
    case Err(_) => raw
  }

  /** What the decoration takes from outside, and what becomes of the store: how many of its system
      calls succeed, and how far a failing write gets. */
  datatype Storing = Storing(hostname: string, messageId: string, date: string, calls: nat, partial: nat)
  {
    predicate Completes() {
      calls >= 4
    }

    function Final(s: Spooled): string {
      FinalData(s.envelope, s.data, hostname, messageId, date)
    }

    function Within(data: string): (n: nat)
      ensures n <= |data|
    {
      Least(partial, |data|)
    }
  }

  /** The disk once the handler has handed a message over. */
  function DiskAfter(codec: Codec, disk: Disk, s: Spooled, how: Storing): Disk {
    var data := Combined(codec, s.envelope, how.Final(s));
    StoreLeaves(disk, s.envelope.id, data, how.calls, how.Within(data))
  }

  /** Parsing, decorating and storing; a failed store is logged and nothing more. */
  method SpoolMessage(spool: DiskSpool, envelope: Envelope, raw: string, how: Storing)
    modifies spool
    ensures spool.disk == DiskAfter(spool.codec, old(spool.disk), Spooled(envelope, raw), how)
  {
    var parsed := ReadMessage(raw);
    var final;
    match parsed {
      case Ok(message) =>
        message.EnsureMessageId(how.messageId);
        message.PrependReceived(ReceivedHeader(envelope, how.hostname, how.date));
        final := message.Serialize();
      case Err(_) =>
        final := raw;
    }
    var _ := spool.Store(envelope, final, how.calls, how.Within(Combined(spool.codec, envelope, final)));
  }

  /** Nothing that goes into the decoration has a line feed. */
  predicate CleanParts(envelope: Envelope, hostname: string, messageId: string, date: string) {
    && LfFree(envelope.id) && LfFree(hostname) && LfFree(messageId) && LfFree(date)
    && (envelope.clientHostname.Some? ==> LfFree(envelope.clientHostname.value))
    && (envelope.peerAddr.Some? ==> LfFree(envelope.peerAddr.value))
  }

  lemma OriginClean(envelope: Envelope)
    requires envelope.clientHostname.Some? ==> LfFree(envelope.clientHostname.value)
    requires envelope.peerAddr.Some? ==> LfFree(envelope.peerAddr.value)
    ensures LfFree(Origin(envelope))
  {
    var peer := if envelope.peerAddr.Some? then envelope.peerAddr.value else "unknown";
    LfFreeConcat("from ", peer);
    if envelope.clientHostname.Some? {
      var host := envelope.clientHostname.value;
      LfFreeConcat("from ", host);
      LfFreeConcat("from " + host, " (");
      LfFreeConcat("from " + host + " (", peer);
      LfFreeConcat("from " + host + " (" + peer, ")");
    }
  }

  lemma JoinClean(a: string, b: string, c: string, d: string)
    requires LfFree(a) && LfFree(b) && LfFree(c) && LfFree(d)
    ensures LfFree(RECEIVED + " " + a + " by " + b + " with ESMTP id " + c + "; " + d)
  {
    var s := RECEIVED + " ";
    LfFreeConcat(s, a);
    LfFreeConcat(s + a, " by ");
    LfFreeConcat(s + a + " by ", b);
    var t := s + a + " by " + b;
    LfFreeConcat(t, " with ESMTP id ");
    LfFreeConcat(t + " with ESMTP id ", c);
    var u := t + " with ESMTP id " + c;
    LfFreeConcat(u, "; ");
    LfFreeConcat(u + "; ", d);
  }

  lemma ReceivedClean(envelope: Envelope, hostname: string, messageId: string, date: string)
    requires CleanParts(envelope, hostname, messageId, date)
    ensures LfFree(ReceivedValue(ReceivedHeader(envelope, hostname, date)))
  {
    OriginClean(envelope);
    JoinClean(Origin(envelope), hostname, envelope.id, date);
    var line := ReceivedHeader(envelope, hostname, date);
    if RECEIVED <= line {
      TakeLfFree(line, |RECEIVED|, |line|);
      TrimLfFree(line[|RECEIVED|..]);
    }
  }

  lemma FieldNames()
    ensures IsFieldName("Received") && IsFieldName("Message-ID")
  {
  }

  lemma HasMore(before: seq<Header>, headers: seq<Header>, after: seq<Header>, name: string)
    requires HasHeader(headers, name)
    ensures HasHeader(before + headers + after, name)
  {
    var i :| 0 <= i < |headers| && ToLower(headers[i].name) == ToLower(name);
    assert (before + headers + after)[|before| + i] == headers[i];
  }

  lemma NothingMissingAfter(before: seq<Header>, headers: seq<Header>, after: seq<Header>)
    requires Missing(headers) == []
    ensures Missing(before + headers + after) == []
  {
    NothingMissing(headers);
    HasMore(before, headers, after, "From");
    HasMore(before, headers, after, "Date");
  }

  lemma DecoratedIsComplete(m: Message, envelope: Envelope, hostname: string, messageId: string, date: string)
    requires Complete(m) && CleanParts(envelope, hostname, messageId, date)
    ensures Complete(Decorated(m, envelope, hostname, messageId, date))
  {
    ReceivedClean(envelope, hostname, messageId, date);
    FieldNames();
    var received := [Header("Received", ReceivedValue(ReceivedHeader(envelope, hostname, date)))];
    var id := if HasHeader(m.headers, "Message-ID") then [] else [Header("Message-ID", messageId)];
    assert received + m.headers + id == Decorated(m, envelope, hostname, messageId, date).headers;
    NothingMissingAfter(received, m.headers, id);
  }

  /** A message that parses is spooled with its body and every header it had, in order, between a
      trace and a message id: that is what reading the spooled text yields, unless the
      decoration makes a line too long; then that is the only complaint. */
  lemma DecorationKeepsMessage(envelope: Envelope, raw: string, hostname: string, messageId: string, date: string)
    requires Parse(raw).Ok? && CleanParts(envelope, hostname, messageId, date)
    ensures var m := Parse(raw).value;
            var data := FinalData(envelope, raw, hostname, messageId, date);
            Parse(data) ==
            if TooLong(Lines(data)) != [] then Err(TooLong(Lines(data)))
            else Ok(Message(TrimAll(Decorated(m, envelope, hostname, messageId, date).headers), m.body, data))
  {
    var m := Parse(raw).value;
    ParsedIsComplete(raw);
    DecoratedIsComplete(m, envelope, hostname, messageId, date);
    PrintedParses(Decorated(m, envelope, hostname, messageId, date));
  }

  lemma IdIsThere(headers: seq<Header>, messageId: string)
    ensures HasHeader(WithMessageId(headers, messageId), "Message-ID")
  {
    if !HasHeader(headers, "Message-ID") {
      var all := WithMessageId(headers, messageId);
      assert all[|headers|].name == "Message-ID";
    }
  }

  lemma TrimAllMiddle(first: Header, middle: seq<Header>, last: seq<Header>)
    ensures var all := TrimAll([first] + middle + last);
            all[0] == TrimValue(first) && all[1..|middle| + 1] == TrimAll(middle)
  {
  }

  /** The trace comes first and the original headers follow in order. */
  lemma DecorationOrder(m: Message, envelope: Envelope, hostname: string, messageId: string, date: string)
    ensures var headers := TrimAll(Decorated(m, envelope, hostname, messageId, date).headers);
            headers[0].name == "Received" && headers[1..|m.headers| + 1] == TrimAll(m.headers)
  {
    var received := Header("Received", ReceivedValue(ReceivedHeader(envelope, hostname, date)));
    var id := if HasHeader(m.headers, "Message-ID") then [] else [Header("Message-ID", messageId)];
    assert [received] + m.headers + id == Decorated(m, envelope, hostname, messageId, date).headers;
    TrimAllMiddle(received, m.headers, id);
  }

  /** A message id is there, added only if there was none. */
  lemma DecorationHasId(m: Message, envelope: Envelope, hostname: string, messageId: string, date: string)
    ensures var headers := Decorated(m, envelope, hostname, messageId, date).headers;
            && HasHeader(headers, "Message-ID") && |headers| == |m.headers| + (if HasHeader(m.headers, "Message-ID") then 1 else 2)
            && (!HasHeader(m.headers, "Message-ID") ==> headers[|headers| - 1] == Header("Message-ID", messageId))
  {
    var received := [Header("Received", ReceivedValue(ReceivedHeader(envelope, hostname, date)))];
    var rest := WithMessageId(m.headers, messageId);
    IdIsThere(m.headers, messageId);
    HasMore(received, rest, [], "Message-ID");
    assert received + rest + [] == received + rest;
  }

  /** What a message handed over is read back as: itself, decorated, if the store completes, whatever
      else is in the spool; otherwise whatever was there under its id. */
  lemma CollectedIsReadBack(codec: Codec, disk: Disk, collected: Spooled, how: Storing, other: string)
    requires codec.Faithful()
    ensures Read(codec, DiskAfter(codec, disk, collected, how), other)
         == (if how.Completes() && other == collected.envelope.id then Ok((collected.envelope, how.Final(collected)))
             else Read(codec, disk, other))
  {
    var data := Combined(codec, collected.envelope, how.Final(collected));
    StoreThenRead(codec, disk, collected.envelope, how.Final(collected), how.calls, how.Within(data), other);
  }

  /** The words of the trace, one by one: the client's name, if it gave one, its address, this host, the queue
      id and the date. */
  lemma {:induction false} TraceReads(envelope: Envelope, hostname: string, date: seq<string>)
    requires envelope.clientHostname.Some? ==> IsToken(envelope.clientHostname.value)
    requires envelope.peerAddr.Some? && IsToken(envelope.peerAddr.value)
    requires IsToken(hostname) && IsToken(envelope.id) && date != [] && forall i :: 0 <= i < |date| ==> IsToken(date[i])
    ensures var peer := envelope.peerAddr.value;
            ReceivedValue(ReceivedHeader(envelope, hostname, Join(date, " ")))
            == Join(FromWords(envelope.clientHostname, peer) + ByWords(hostname, envelope.id) + date, " ")
  {
    var peer := envelope.peerAddr.value;
    var from := FromWords(envelope.clientHostname, peer);
    var tail := ByWords(hostname, envelope.id) + date;
    FromTokens(envelope.clientHostname, peer);
    AllTokens(from, hostname, envelope.id, date);
    JoinTrimmed(from + tail);
    TraceJoined(envelope, hostname, date, from, tail);
    ValueOfLine(ReceivedHeader(envelope, hostname, Join(date, " ")), Join(from + tail, " "));
    Reassociated(from, ByWords(hostname, envelope.id), date);
  }

  lemma Reassociated(a: seq<string>, b: seq<string>, c: seq<string>)
    ensures a + (b + c) == a + b + c
  {
  }

  lemma {:induction false} TraceJoined(envelope: Envelope, hostname: string, date: seq<string>, from: seq<string>, tail: seq<string>)
    requires envelope.peerAddr.Some? && date != []
    requires from == FromWords(envelope.clientHostname, envelope.peerAddr.value) && tail == ByWords(hostname, envelope.id) + date
    ensures ReceivedHeader(envelope, hostname, Join(date, " ")) == RECEIVED + (" " + Join(from + tail, " "))
  {
    OriginJoined(envelope);
    TailJoined(hostname, envelope.id, date);
    JoinAppend(from, tail);
    LineJoined(Origin(envelope), hostname, envelope.id, Join(date, " "), Join(tail, " "));
  }

  function FromWords(host: Option<string>, peer: string): seq<string> {
    match host
    case Some(name) => ["from", name, "(" + peer + ")"]
    case None => ["from", peer]
  }

  function ByWords(hostname: string, id: string): seq<string> {
    ["by", hostname, "with", "ESMTP", "id", id + ";"]
  }

  lemma ValueOfLine(line: string, value: string)
    requires line == RECEIVED + (" " + value) && Trimmed(value)
    ensures ReceivedValue(line) == value
  {
    assert line[|RECEIVED|..] == " " + value;
    TrimPadded(" ", value, "");
    assert " " + value + "" == " " + value;
    TrimTrimmed(value);
  }

  lemma FromTokens(host: Option<string>, peer: string)
    requires IsToken(peer) && (host.Some? ==> IsToken(host.value))
    ensures forall i :: 0 <= i < |FromWords(host, peer)| ==> IsToken(FromWords(host, peer)[i])
  {
    InBrackets(peer);
    FixedTokens();
  }

  lemma AllTokens(from: seq<string>, hostname: string, id: string, date: seq<string>)
    requires forall i :: 0 <= i < |from| ==> IsToken(from[i])
    requires IsToken(hostname) && IsToken(id) && forall i :: 0 <= i < |date| ==> IsToken(date[i])
    ensures var all := from + (ByWords(hostname, id) + date);
            forall i :: 0 <= i < |all| ==> IsToken(all[i])
  {
    Semicolon(id);
    FixedTokens();
    var middle := ByWords(hostname, id);
    forall i | 0 <= i < |middle| ensures IsToken(middle[i]) {}
  }

  lemma FixedTokens()
    ensures IsToken("by") && IsToken("with") && IsToken("ESMTP") && IsToken("id") && IsToken("from")
  {
  }

  lemma InBrackets(peer: string)
    requires IsToken(peer)
    ensures IsToken("(" + peer + ")")
  {
  }

  lemma Semicolon(id: string)
    requires IsToken(id)
    ensures IsToken(id + ";")
  {
  }

  lemma {:induction false} JoinAppend(a: seq<string>, b: seq<string>)
    requires a != [] && b != []
    ensures Join(a + b, " ") == Join(a, " ") + " " + Join(b, " ")
  {
    var all := a + b;
    if |a| == 1 {
      assert all[1..] == b && all[0] == a[0];
    } else {
      assert all[1..] == a[1..] + b && all[0] == a[0];
      JoinAppend(a[1..], b);
      Regrouped(a[0], Join(a[1..], " "), Join(b, " "));
    }
  }

  lemma Regrouped(a: string, b: string, c: string)
    ensures a + " " + (b + " " + c) == a + " " + b + " " + c
  {
  }

  lemma TwoWords(a: string, b: string)
    ensures Join([a, b], " ") == a + " " + b
  {
    assert [a, b][1..] == [b];
  }

  lemma ThreeWords(a: string, b: string, c: string)
    ensures Join([a, b, c], " ") == a + " " + (b + " " + c)
  {
    assert [a, b, c][1..] == [b, c];
    TwoWords(b, c);
  }

  lemma OriginJoined(envelope: Envelope)
    requires envelope.peerAddr.Some?
    ensures Origin(envelope) == Join(FromWords(envelope.clientHostname, envelope.peerAddr.value), " ")
  {
    var peer := envelope.peerAddr.value;
    match envelope.clientHostname
    case Some(host) =>
      ThreeWords("from", host, "(" + peer + ")");
      assert "from " + host + " (" + peer + ")" == "from" + " " + (host + " " + ("(" + peer + ")"));
    case None =>
      TwoWords("from", peer);
      assert "from " + peer == "from" + " " + peer;
  }

  lemma {:induction false} TailJoined(hostname: string, id: string, date: seq<string>)
    requires date != []
    ensures Join(ByWords(hostname, id) + date, " ") == "by " + hostname + " with ESMTP id " + id + "; " + Join(date, " ")
  {
    var first, second := ["by", hostname, "with"], ["ESMTP", "id", id + ";"];
    assert ByWords(hostname, id) == first + second;
    JoinAppend(first + second, date);
    JoinAppend(first, second);
    ThreeWords("by", hostname, "with");
    ThreeWords("ESMTP", "id", id + ";");
    TailText(hostname, id, Join(date, " "));
  }

  lemma TailText(hostname: string, id: string, date: string)
    ensures "by" + " " + (hostname + " " + "with") + " " + ("ESMTP" + " " + ("id" + " " + (id + ";"))) + " " + date
         == "by " + hostname + " with ESMTP id " + id + "; " + date
  {
    var a := "by" + " " + (hostname + " " + "with") + " " + ("ESMTP" + " " + ("id" + " " + (id + ";")));
    assert a == "by " + hostname + " with ESMTP id " + id + ";";
    assert a + " " + date == "by " + hostname + " with ESMTP id " + id + ";" + " " + date;
  }

  lemma LineJoined(origin: string, hostname: string, id: string, date: string, tail: string)
    requires tail == "by " + hostname + " with ESMTP id " + id + "; " + date
    ensures RECEIVED + " " + origin + " by " + hostname + " with ESMTP id " + id + "; " + date
         == RECEIVED + (" " + (origin + " " + tail))
  {
  }

  /** A text that does not parse is stored as it came. */
  lemma RawOtherwise(envelope: Envelope, raw: string, hostname: string, messageId: string, date: string)
    requires Parse(raw).Err?
    ensures FinalData(envelope, raw, hostname, messageId, date) == raw
  {
  }

  // ---------------------------------------------------------------- what is acknowledged, and what is stored

  /** The end of a message that is handed over is acknowledged whatever the disk does: the message can be
      read back if and only if all the store's system calls succeed, and the reply is the same either way. */
  lemma AcknowledgedAnyway(cfg: Config, s: Session, line: string, codec: Codec, disk: Disk, how: Storing)
    requires codec.Faithful() && DataStep(cfg, s, line).spooled.Some? && FinalPath(s.envelope.id) !in disk
    ensures var o := DataStep(cfg, s, line);
            var id := s.envelope.id;
            && o.exchange.reply == Some(Queued(id)) && o.spooled.value.envelope.id == id
            && (Read(codec, DiskAfter(codec, disk, o.spooled.value, how), id).Ok? <==> how.Completes())
  {
    CollectedIsReadBack(codec, disk, DataStep(cfg, s, line).spooled.value, how, s.envelope.id);
  }

  /** With a disk that is full, say: acknowledged, and nowhere to be found. */
  lemma LostByFailure(cfg: Config, s: Session, line: string, codec: Codec, hostname: string, messageId: string, date: string)
    requires codec.Faithful() && DataStep(cfg, s, line).spooled.Some?
    ensures var o := DataStep(cfg, s, line);
            && o.exchange.reply == Some(Queued(s.envelope.id))
            && Read(codec, DiskAfter(codec, map[], o.spooled.value, Storing(hostname, messageId, date, 0, 0)), s.envelope.id)
               == Err(NotFound)
  {
    AcknowledgedAnyway(cfg, s, line, codec, map[], Storing(hostname, messageId, date, 0, 0));
    CollectedIsReadBack(codec, map[], DataStep(cfg, s, line).spooled.value, Storing(hostname, messageId, date, 0, 0), s.envelope.id);
  }
}
