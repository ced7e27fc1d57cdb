/**
 What a connection's own history says about its session: properties of every run of the
 server over every sequence of lines, stated over the lines and replies alone.
 */
module SessionHistory {
  import opened Text
  import opened Answer
  import opened Session
  import C = Command

  // ---------------------------------------------------------------- reading a history

  predicate Answered(e: Exchange, code: nat) {
    e.reply.Some? && Code(e.reply.value) == code
  }

  /** EHLO, HELO, RSET, or the message outgrowing the limit. */
  predicate IsReset(e: Exchange) {
    || (e.inData && Answered(e, 552))
    || (e.command.Some? && (e.command.value.Ehlo? || e.command.value.Helo? || e.command.value.Rset?))
  }

  predicate IsEndOfData(e: Exchange) {
    e.inData && Answered(e, 250)
  }

  predicate AcceptsSender(e: Exchange) {
    e.command.Some? && e.command.value.MailFrom? && Answered(e, 250)
  }

  predicate AcceptsRecipient(e: Exchange) {
    e.command.Some? && e.command.value.RcptTo? && Answered(e, 250)
  }

  predicate StartsData(e: Exchange) {
    Answered(e, 354)
  }

  /** The addresses of the accepted RCPT commands after the latest reset. */
  function AcceptedSinceReset(log: seq<Exchange>): seq<string> {
    if log == [] then []
    else
      var last := log[|log| - 1];
      var before := AcceptedSinceReset(log[..|log| - 1]);
      if IsReset(last) then []
      else if AcceptsRecipient(last) then before + [last.command.value.address]
      else before
  }

  /** The address of the latest accepted MAIL after the latest reset. */
  function SenderSinceReset(log: seq<Exchange>): string {
    if log == [] then ""
    else
      var last := log[|log| - 1];
      if IsReset(last) then ""
      else if AcceptsSender(last) then last.command.value.address
      else SenderSinceReset(log[..|log| - 1])
  }

  /** The text of data lines: each without its line ending and stuffed dot, then CRLF. */
  function Collected(lines: seq<Exchange>): string {
    if lines == [] then ""
    else
      var n := |lines| - 1;
      Collected(lines[..n]) + Unstuff(TrimEol(lines[n].line)) + CRLF
  }

  predicate Undisturbed(log: seq<Exchange>, from: nat) {
    forall m :: from <= m < |log| ==> !IsReset(log[m]) && !IsEndOfData(log[m])
  }

  /** An accepted MAIL, with nothing since that would undo it. */
  predicate SenderAt(log: seq<Exchange>, i: nat) {
    i < |log| && AcceptsSender(log[i]) && Undisturbed(log, i)
  }

  /** An accepted MAIL and, after it, an accepted RCPT, with nothing since that would undo them. */
  predicate TransactionAt(log: seq<Exchange>, i: nat, j: nat) {
    SenderAt(log, i) && i < j < |log| && AcceptsRecipient(log[j])
  }

  /** A 354 at `j` followed by data lines only. */
  predicate CollectingFrom(log: seq<Exchange>, j: nat) {
    && j < |log| && StartsData(log[j]) && !log[j].inData
    && forall m :: j < m < |log| ==> log[m].inData && log[m].reply.None?
  }

  // ---------------------------------------------------------------- one step

  /** What a session and the history that led to it have in common. */
  ghost predicate Explains(cfg: Config, log: seq<Exchange>, s: Session) {
    && EnvelopeExplained(cfg, log, s)
    && TransactionExplained(log, s)
    && BufferExplained(cfg, log, s)
  }

  /** The envelope holds exactly the recipients and the sender the history shows as accepted. */
  ghost predicate EnvelopeExplained(cfg: Config, log: seq<Exchange>, s: Session) {
    && s.envelope.recipients == AcceptedSinceReset(log)
    && s.envelope.sender == SenderSinceReset(log)
    && |s.envelope.recipients| <= cfg.maxRecipients
  }

  ghost predicate TransactionExplained(log: seq<Exchange>, s: Session) {
    && (s.state == MailFrom ==> exists i :: SenderAt(log, i))
    && (s.state == RcptTo ==> exists i, j :: TransactionAt(log, i, j))
  }

  /** The buffer holds the text of the lines since the 354, and nothing outside DATA mode. */
  ghost predicate BufferExplained(cfg: Config, log: seq<Exchange>, s: Session) {
    && |s.buffer| <= cfg.maxMessageSize
    && (s.state != ReceivingData ==> s.buffer == "")
    && (s.state == ReceivingData ==> s.envelope.recipients != [])
    && (s.state == ReceivingData ==> exists j :: CollectingFrom(log, j) && s.buffer == Collected(log[j + 1..]))
  }

  lemma {:induction false} HistoryNext(log: seq<Exchange>, e: Exchange)
    ensures AcceptedSinceReset(log + [e]) ==
            if IsReset(e) then [] else AcceptedSinceReset(log) + if AcceptsRecipient(e) then [e.command.value.address] else []
    ensures SenderSinceReset(log + [e]) ==
            if IsReset(e) then "" else if AcceptsSender(e) then e.command.value.address else SenderSinceReset(log)
  {
    assert (log + [e])[..|log|] == log;
  }

  lemma EnvelopeDataStep(cfg: Config, log: seq<Exchange>, s: Session, line: string)
    requires EnvelopeExplained(cfg, log, s)
    ensures var o := DataStep(cfg, s, line); EnvelopeExplained(cfg, log + [o.exchange], o.session)
  {
    HistoryNext(log, DataStep(cfg, s, line).exchange);
  }

  lemma EnvelopeCommandStep(cfg: Config, log: seq<Exchange>, s: Session, line: string, freshId: string,
                            parsed: Result<C.Command, C.ParseError>)
    requires EnvelopeExplained(cfg, log, s)
    ensures var o := ParsedStep(cfg, s, line, parsed, freshId); EnvelopeExplained(cfg, log + [o.exchange], o.session)
  {
    HistoryNext(log, ParsedStep(cfg, s, line, parsed, freshId).exchange);
  }

  lemma EnvelopeStep(cfg: Config, log: seq<Exchange>, s: Session, o: Outcome, line: string, freshId: string,
                     parsed: Result<C.Command, C.ParseError>)
    requires EnvelopeExplained(cfg, log, s)
    requires o == if s.state == ReceivingData then DataStep(cfg, s, line) else ParsedStep(cfg, s, line, parsed, freshId)
    ensures EnvelopeExplained(cfg, log + [o.exchange], o.session)
  {
    if s.state == ReceivingData {
      EnvelopeDataStep(cfg, log, s, line);
    } else {
      EnvelopeCommandStep(cfg, log, s, line, freshId, parsed);
    }
  }

  lemma TransactionExtends(log: seq<Exchange>, e: Exchange)
    requires !IsReset(e) && !IsEndOfData(e)
    ensures (exists i :: SenderAt(log, i)) ==> exists i :: SenderAt(log + [e], i)
    ensures (exists i, j :: TransactionAt(log, i, j)) ==> exists i, j :: TransactionAt(log + [e], i, j)
    ensures (exists i :: SenderAt(log, i)) && AcceptsRecipient(e) ==> exists i, j :: TransactionAt(log + [e], i, j)
  {
    forall i | SenderAt(log, i) ensures SenderAt(log + [e], i) {
    }
    forall i, j | TransactionAt(log, i, j) ensures TransactionAt(log + [e], i, j) {
    }
    if AcceptsRecipient(e) {
      forall i | SenderAt(log, i) ensures TransactionAt(log + [e], i, |log|) {
      }
    }
  }

  lemma TransactionStep(cfg: Config, log: seq<Exchange>, s: Session, o: Outcome, line: string, freshId: string,
                        parsed: Result<C.Command, C.ParseError>)
    requires TransactionExplained(log, s)
    requires o == if s.state == ReceivingData then DataStep(cfg, s, line) else ParsedStep(cfg, s, line, parsed, freshId)
    ensures TransactionExplained(log + [o.exchange], o.session)
  {
    var e := o.exchange;
    if o.session.state == MailFrom || o.session.state == RcptTo {
      assert !IsReset(e) && !IsEndOfData(e);
      TransactionExtends(log, e);
      if s.state == Ready { assert SenderAt(log + [e], |log|); }
    }
  }

  lemma {:induction false} AcceptedAppend(a: seq<Exchange>, b: seq<Exchange>)
    requires forall m :: 0 <= m < |b| ==> !IsReset(b[m])
    ensures AcceptedSinceReset(a + b) == AcceptedSinceReset(a) + AcceptedSinceReset(b)
    decreases |b|
  {
    if b == [] {
      assert a + b == a;
    } else {
      var n := |b| - 1;
      var ab := a + b;
      assert ab[..|ab| - 1] == a + b[..n] && ab[|ab| - 1] == b[n];
      AcceptedAppend(a, b[..n]);
    }
  }

  lemma {:induction false} RecipientsNonEmpty(log: seq<Exchange>, i: nat, j: nat)
    requires TransactionAt(log, i, j)
    ensures AcceptedSinceReset(log) != []
  {
    var a, b := log[..j], log[j..];
    assert log == a + b;
    AcceptedAppend(a, b);
    AcceptedAppend([b[0]], b[1..]);
    assert b == [b[0]] + b[1..];
    assert AcceptedSinceReset([b[0]]) == AcceptedSinceReset([]) + [b[0].command.value.address] by {
      assert [b[0]][..0] == [];
    }
  }

  lemma BufferCommandStep(cfg: Config, log: seq<Exchange>, s: Session, line: string, freshId: string,
                          parsed: Result<C.Command, C.ParseError>)
    requires Explains(cfg, log, s) && s.state != ReceivingData
    ensures var o := ParsedStep(cfg, s, line, parsed, freshId);
            BufferExplained(cfg, log + [o.exchange], o.session)
  {
    var o := ParsedStep(cfg, s, line, parsed, freshId);
    if o.session.state == ReceivingData {
      var log' := log + [o.exchange];
      assert CollectingFrom(log', |log|) && log'[|log| + 1..] == [];
      var i, j :| TransactionAt(log, i, j);
      RecipientsNonEmpty(log, i, j);
    }
  }

  lemma CollectingExtends(log: seq<Exchange>, e: Exchange, j: nat)
    requires CollectingFrom(log, j) && e.inData && e.reply.None?
    ensures CollectingFrom(log + [e], j)
    ensures Collected((log + [e])[j + 1..]) == Collected(log[j + 1..]) + Unstuff(TrimEol(e.line)) + CRLF
  {
    var tail := (log + [e])[j + 1..];
    assert tail == log[j + 1..] + [e];
    assert tail[..|tail| - 1] == log[j + 1..];
  }

  /** A text line either goes to the buffer, unanswered, or ends the collecting with the buffer empty. */
  lemma {:induction false} DataStepIs(cfg: Config, s: Session, line: string)
    requires s.state == ReceivingData && |s.buffer| <= cfg.maxMessageSize
    ensures var o := DataStep(cfg, s, line);
            if o.session.state == ReceivingData
            then o.exchange == Exchange(line, true, None, None)
                 && o.session == s.(buffer := s.buffer + Unstuff(TrimEol(line)) + CRLF) && |o.session.buffer| <= cfg.maxMessageSize
            else o.session.buffer == ""
  {
  }

  lemma {:induction false} BufferExtendsAt(log: seq<Exchange>, buffer: string, line: string, j: nat)
    requires CollectingFrom(log, j) && buffer == Collected(log[j + 1..])
    ensures var log' := log + [Exchange(line, true, None, None)];
            CollectingFrom(log', j) && buffer + Unstuff(TrimEol(line)) + CRLF == Collected(log'[j + 1..])
  {
    CollectingExtends(log, Exchange(line, true, None, None), j);
  }

  lemma {:induction false} BufferExtends(cfg: Config, log: seq<Exchange>, s: Session, line: string, s': Session)
    requires BufferExplained(cfg, log, s) && s.state == ReceivingData
    requires s' == s.(buffer := s.buffer + Unstuff(TrimEol(line)) + CRLF) && |s'.buffer| <= cfg.maxMessageSize
    ensures BufferExplained(cfg, log + [Exchange(line, true, None, None)], s')
  {
    var j: nat :| CollectingFrom(log, j) && s.buffer == Collected(log[j + 1..]);
    BufferExtendsAt(log, s.buffer, line, j);
  }

  lemma BufferDataStep(cfg: Config, log: seq<Exchange>, s: Session, line: string)
    requires BufferExplained(cfg, log, s) && s.state == ReceivingData
    ensures var o := DataStep(cfg, s, line);
            BufferExplained(cfg, log + [o.exchange], o.session)
  {
    DataStepIs(cfg, s, line);
    if DataStep(cfg, s, line).session.state == ReceivingData {
      BufferExtends(cfg, log, s, line, DataStep(cfg, s, line).session);
    }
  }

  lemma StepExplained(cfg: Config, log: seq<Exchange>, s: Session, line: string, freshId: string)
    requires Explains(cfg, log, s)
    ensures var o := Step(cfg, s, line, freshId); Explains(cfg, log + [o.exchange], o.session)
  {
    var parsed := C.Parse(Trim(line));
    var o := Step(cfg, s, line, freshId);
    EnvelopeStep(cfg, log, s, o, line, freshId, parsed);
    TransactionStep(cfg, log, s, o, line, freshId, parsed);
    if s.state == ReceivingData {
      BufferDataStep(cfg, log, s, line);
    } else {
      BufferCommandStep(cfg, log, s, line, freshId, parsed);
    }
  }

  // ---------------------------------------------------------------- runs of any handler

  ghost predicate Keeps(cfg: Config, handle: Handler) {
    forall log, s, line, k :: Explains(cfg, log, s) ==>
      var o := handle(s, line, k); Explains(cfg, log + [o.exchange], o.session)
  }

  lemma {:induction false} DriveExplained(cfg: Config, handle: Handler, start: Session, lines: seq<string>, n: nat)
    requires n <= |lines| && Keeps(cfg, handle) && Explains(cfg, [], start)
    ensures var run := Drive(handle, start, lines, n); Explains(cfg, run.log, run.session)
  {
    if n > 0 {
      DriveExplained(cfg, handle, start, lines, n - 1);
    }
  }

  lemma {:induction false} LogLength(handle: Handler, start: Session, lines: seq<string>, n: nat)
    requires n <= |lines|
    ensures var run := Drive(handle, start, lines, n);
            |run.log| <= n && (!run.session.closing ==> |run.log| == n)
  {
    if n > 0 { LogLength(handle, start, lines, n - 1); }
  }

  /** Entry `k` of a history is what the handler did with line `k` in the state the first `k`
      lines left behind. */
  lemma {:induction false} EntryAt(handle: Handler, start: Session, lines: seq<string>, n: nat, k: nat)
    requires n <= |lines| && k < |Drive(handle, start, lines, n).log|
    ensures |Drive(handle, start, lines, n).log| <= n
    ensures var before, log := Drive(handle, start, lines, k), Drive(handle, start, lines, n).log;
            && !before.session.closing && before.log == log[..k]
            && log[k] == handle(before.session, lines[k], k).exchange
  {
    LogLength(handle, start, lines, n);
    LogLength(handle, start, lines, n - 1);
    if k < |Drive(handle, start, lines, n - 1).log| {
      EntryAt(handle, start, lines, n - 1, k);
    }
  }

  // ---------------------------------------------------------------- every run of the server

  lemma FreshExplained(cfg: Config, peer: string)
    ensures Explains(cfg, [], Fresh(peer))
  {
  }

  lemma HandlerKeeps(c: Connection)
    ensures Keeps(c.cfg, HandlerOf(c))
  {
    forall log, s, line, k: nat | Explains(c.cfg, log, s)
      ensures var o := HandlerOf(c)(s, line, k); Explains(c.cfg, log + [o.exchange], o.session)
    {
      StepExplained(c.cfg, log, s, line, c.ids(k));
    }
  }

  /** Every run explains its session: the envelope holds, in order, exactly the recipients and
      the sender the history shows as accepted, and neither list nor buffer ever outgrows its limit. */
  lemma EveryRunExplained(c: Connection, lines: seq<string>, n: nat)
    requires n <= |lines|
    ensures var run := Serve(c, lines, n); Explains(c.cfg, run.log, run.session)
  {
    HandlerKeeps(c);
    FreshExplained(c.cfg, c.peer);
    DriveExplained(c.cfg, HandlerOf(c), Fresh(c.peer), lines, n);
  }

  lemma ServerEntry(c: Connection, lines: seq<string>, n: nat, k: nat)
    requires n <= |lines| && k < |Serve(c, lines, n).log|
    ensures k < n
    ensures var before, log := Serve(c, lines, k), Serve(c, lines, n).log;
            && !before.session.closing && before.log == log[..k]
            && log[k] == Step(c.cfg, before.session, lines[k], c.ids(k)).exchange
            && Explains(c.cfg, before.log, before.session)
  {
    EntryAt(HandlerOf(c), Fresh(c.peer), lines, n, k);
    EveryRunExplained(c, lines, k);
  }

  /** No 354 without an accepted MAIL and, after it, an accepted RCPT, neither undone since by a
      reset or an earlier end of data (section 4.1.1.4 of RFC 5321). */
  lemma DataIsEarned(c: Connection, lines: seq<string>, n: nat, k: nat)
    requires n <= |lines| && k < |Serve(c, lines, n).log| && StartsData(Serve(c, lines, n).log[k])
    ensures exists i, j :: TransactionAt(Serve(c, lines, n).log[..k], i, j)
  {
    ServerEntry(c, lines, n, k);
    OnlyReadyStarts(c.cfg, Serve(c, lines, k).session, lines[k], c.ids(k), C.Parse(Trim(lines[k])));
  }

  lemma OnlyReadyStarts(cfg: Config, s: Session, line: string, freshId: string, parsed: Result<C.Command, C.ParseError>)
    ensures s.state == ReceivingData ==> !StartsData(DataStep(cfg, s, line).exchange)
    ensures StartsData(ParsedStep(cfg, s, line, parsed, freshId).exchange) ==> s.state == RcptTo
  {
  }

  /** What reaches the spool at an end of data: the lines since the 354, unstuffed, for the
      accepted recipients; nothing is spooled exactly when no line came in between. */
  ghost predicate SpoolsCollected(log: seq<Exchange>, spooled: Option<Spooled>, j: nat) {
    && CollectingFrom(log, j)
    && (spooled.None? <==> |log| == j + 1)
    && (spooled.Some? ==>
          && spooled.value.data == Collected(log[j + 1..])
          && spooled.value.envelope.recipients == AcceptedSinceReset(log) != []
          && spooled.value.envelope.sender == SenderSinceReset(log))
  }

  lemma EndOfDataSpools(cfg: Config, log: seq<Exchange>, s: Session, line: string)
    requires Explains(cfg, log, s) && s.state == ReceivingData && IsEndOfData(DataStep(cfg, s, line).exchange)
    ensures exists j :: SpoolsCollected(log, DataStep(cfg, s, line).spooled, j)
  {
    var j: nat :| CollectingFrom(log, j) && s.buffer == Collected(log[j + 1..]);
    CollectedEmpty(log[j + 1..]);
    assert SpoolsCollected(log, DataStep(cfg, s, line).spooled, j);
  }

  lemma {:induction false} CollectedEmpty(lines: seq<Exchange>)
    ensures Collected(lines) == "" <==> lines == []
  {
  }

  lemma OnlyDataEnds(cfg: Config, s: Session, line: string, freshId: string, parsed: Result<C.Command, C.ParseError>)
    ensures !IsEndOfData(ParsedStep(cfg, s, line, parsed, freshId).exchange)
  {
  }

  lemma SpooledIsCollected(c: Connection, lines: seq<string>, n: nat, k: nat)
    requires n <= |lines| && k < |Serve(c, lines, n).log| && IsEndOfData(Serve(c, lines, n).log[k])
    ensures k < n
    ensures exists j :: SpoolsCollected(Serve(c, lines, n).log[..k],
                                        Step(c.cfg, Serve(c, lines, k).session, lines[k], c.ids(k)).spooled, j)
  {
    ServerEntry(c, lines, n, k);
    var before := Serve(c, lines, k);
    OnlyDataEnds(c.cfg, before.session, lines[k], c.ids(k), C.Parse(Trim(lines[k])));
    EndOfDataSpools(c.cfg, before.log, before.session, lines[k]);
  }

  /** The recipients of a transaction that began with the MAIL at `i` are its own if and only if
      none were on record when that MAIL was accepted: an end of data does not clear them. */
  lemma OwnRecipientsIff(c: Connection, lines: seq<string>, n: nat, i: nat)
    requires n <= |lines| && i < |Serve(c, lines, n).log| && AcceptsSender(Serve(c, lines, n).log[i])
    requires forall m :: i <= m < |Serve(c, lines, n).log| ==> !IsReset(Serve(c, lines, n).log[m])
    ensures i < n
    ensures Serve(c, lines, n).session.envelope.recipients == AcceptedSinceReset(Serve(c, lines, n).log[i..])
            <==> Serve(c, lines, i).session.envelope.recipients == []
  {
    ServerEntry(c, lines, n, i);
    EveryRunExplained(c, lines, n);
    OwnIff(Serve(c, lines, n).log, i);
  }

  lemma {:induction false} OwnIff(log: seq<Exchange>, i: nat)
    requires i <= |log| && forall m :: i <= m < |log| ==> !IsReset(log[m])
    ensures AcceptedSinceReset(log) == AcceptedSinceReset(log[i..]) <==> AcceptedSinceReset(log[..i]) == []
  {
    var a, b := log[..i], log[i..];
    assert log == a + b;
    AcceptedAppend(a, b);
    SuffixIff(AcceptedSinceReset(a), AcceptedSinceReset(b));
  }

  lemma SuffixIff(earlier: seq<string>, own: seq<string>)
    ensures earlier + own == own <==> earlier == []
  {
    assert |earlier + own| == |earlier| + |own|;
    if earlier == [] { assert earlier + own == own; }
  }
}
