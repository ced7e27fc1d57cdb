/** The message text of a delivery, from the client's one write to the server's reply. */
module TextTransfer {
  import opened Text
  import opened Utf8
  import opened Reply
  import opened Answer
  import opened Phrases
  import opened Session
  import opened Politeness
  import opened DotStuffing
  import opened Peer
  import Client

  /** What the handler makes of the line that ends or breaks off the text. */
  function Concluded(before: Run, s: Session, result: DataResult): Run {
    match result
    case Continue => Run(s, before.log, before.spooled)
    case Overflow(reply) => Run(s, before.log, before.spooled)
    case Done(reply) =>
      var (s', data) := TakeMessageData(s);
      Run(s', before.log, if data.Some? then before.spooled + [Spooled(s'.envelope, data.value)] else before.spooled)
  }

  function AnswerOf(result: DataResult): seq<Answer> {
    match result
    case Continue => []
    case Overflow(reply) => [reply]
    case Done(reply) => [reply]
  }

  predicate SameButLog(run: Run, other: Run) {
    run.session == other.session && run.spooled == other.spooled
  }

  predicate CollectsAt(m: Machine, cfg: Config, s: Session, line: string, k: nat) {
    s.state == ReceivingData ==> m.handle(s, line, k) == DataStep(cfg, s, line)
  }

  predicate WordsWell(render: Wording, a: Answer) {
    CleanAnswer(a) ==> Encodable(render(a))
  }

  /** A machine that collects message text as the session does, and words its answers decently. */
  ghost predicate Collects(m: Machine, cfg: Config) {
    && (forall s, line, k :: CollectsAt(m, cfg, s, line, k))
    && (forall a :: WordsWell(m.render, a))
    && Plays(m) && Polite(m.handle, m.render) && CleanSession(m.start)
  }

  lemma DataOutcome(cfg: Config, before: Run, line: string)
    ensures var after := Advance(before, DataStep(cfg, before.session, line));
            var (s', result) := FeedDataLine(cfg, before.session, line);
            && SameButLog(after, Concluded(before, s', result)) && Replies(after.log) == Replies(before.log) + AnswerOf(result)
            && (EndsUnflushed(after.log) <==> result != Continue)
  {
    RepliesNext(before, DataStep(cfg, before.session, line));
  }

  lemma TextLine(m: Machine, cfg: Config, lines: seq<string>, line: string)
    requires Collects(m, cfg)
    requires var s := m.after(lines).session; s.state == ReceivingData && !s.closing
    ensures var before, after := m.after(lines), m.after(lines + [line]);
            var (s', result) := FeedDataLine(cfg, before.session, line);
            && SameButLog(after, Concluded(before, s', result)) && Replies(after.log) == Replies(before.log) + AnswerOf(result)
            && (EndsUnflushed(after.log) <==> result != Continue)
  {
    RunNext(m, lines, line);
    assert CollectsAt(m, cfg, m.after(lines).session, line, |lines|);
    DataOutcome(cfg, m.after(lines), line);
  }

  lemma FeedKeepsState(cfg: Config, s: Session, line: string)
    requires FeedDataLine(cfg, s, line).1 == Continue
    ensures var s' := FeedDataLine(cfg, s, line).0; s'.state == s.state && s'.closing == s.closing
  {
  }

  /** What a run is after text lines that led the collector to `fed`. */
  ghost predicate Fed(m: Machine, lines: seq<string>, ws: seq<string>, before: Run, fed: (Session, nat, DataResult)) {
    && fed.1 <= |ws|
    && var after := m.after(lines + ws[..fed.1]);
       && SameButLog(after, Concluded(before, fed.0, fed.2))
       && Replies(after.log) == Replies(before.log) + AnswerOf(fed.2)
       && (fed.2 != Continue ==> EndsUnflushed(after.log))
  }

  lemma FedNext(m: Machine, lines: seq<string>, ws: seq<string>, before: Run, s: Session, fed: (Session, nat, DataResult))
    requires ws != []
    requires var next := m.after(lines + [ws[0]]);
             && SameButLog(next, Run(s, before.log, before.spooled)) && Replies(next.log) == Replies(before.log)
             && Fed(m, lines + [ws[0]], ws[1..], next, fed)
    ensures Fed(m, lines, ws, before, (fed.0, fed.1 + 1, fed.2))
  {
    var n := fed.1;
    assert ws[..n + 1] == [ws[0]] + ws[1..][..n];
    assert lines + [ws[0]] + ws[1..][..n] == lines + ([ws[0]] + ws[1..][..n]);
  }

  /** The handler's run over text lines is the collector fed line by line. */
  lemma {:induction false} TextLines(m: Machine, cfg: Config, lines: seq<string>, ws: seq<string>)
    requires Collects(m, cfg)
    requires var s := m.after(lines).session; s.state == ReceivingData && !s.closing
    ensures Fed(m, lines, ws, m.after(lines), FeedUntil(cfg, m.after(lines).session, ws))
    decreases |ws|
  {
    var before := m.after(lines);
    if ws == [] {
      assert lines + ws[..0] == lines;
    } else {
      TextLine(m, cfg, lines, ws[0]);
      var (s', result) := FeedDataLine(cfg, before.session, ws[0]);
      if result == Continue {
        FeedKeepsState(cfg, before.session, ws[0]);
        TextLines(m, cfg, lines + [ws[0]], ws[1..]);
        FedNext(m, lines, ws, before, s', FeedUntil(cfg, s', ws[1..]));
      } else {
        assert lines + ws[..1] == lines + [ws[0]];
      }
    }
  }

  /** Line `n` of the text finds the handler no longer collecting. */
  predicate IsCommand(m: Machine, lines: seq<string>, ws: seq<string>, n: nat)
    requires n <= |ws|
  {
    m.after(lines + ws[..n]).session.state != ReceivingData
  }

  /** Until the line that ends the collecting, the handler collects. */
  lemma {:induction false} StillCollecting(m: Machine, cfg: Config, lines: seq<string>, ws: seq<string>, n: nat)
    requires Collects(m, cfg)
    requires var s := m.after(lines).session; s.state == ReceivingData && !s.closing
    requires n <= |ws| && n < FeedUntil(cfg, m.after(lines).session, ws).1
    ensures !IsCommand(m, lines, ws, n)
    decreases |ws|
  {
    if n == 0 {
      assert lines + ws[..0] == lines;
    } else {
      FeedUntilNext(cfg, m.after(lines).session, ws);
      TextContinues(m, cfg, lines, ws[0]);
      StillCollecting(m, cfg, lines + [ws[0]], ws[1..], n - 1);
      TakeNext(lines, ws, n);
    }
  }

  lemma TakeNext(lines: seq<string>, ws: seq<string>, n: nat)
    requires 0 < n <= |ws|
    ensures lines + [ws[0]] + ws[1..][..n - 1] == lines + ws[..n]
  {
  }

  lemma {:induction false} FeedUntilNext(cfg: Config, s: Session, ws: seq<string>)
    requires ws != [] && FeedUntil(cfg, s, ws).1 > 1
    ensures var (s', result) := FeedDataLine(cfg, s, ws[0]);
            result == Continue && FeedUntil(cfg, s', ws[1..]).1 == FeedUntil(cfg, s, ws).1 - 1
  {
  }

  lemma TextContinues(m: Machine, cfg: Config, lines: seq<string>, line: string)
    requires Collects(m, cfg)
    requires var s := m.after(lines).session; s.state == ReceivingData && !s.closing
    requires FeedDataLine(cfg, m.after(lines).session, line).1 == Continue
    ensures var s' := m.after(lines + [line]).session;
            s' == FeedDataLine(cfg, m.after(lines).session, line).0 && s'.state == ReceivingData && !s'.closing
  {
    TextLine(m, cfg, lines, line);
    FeedKeepsState(cfg, m.after(lines).session, line);
  }

  /** Some line of a text is taken as a command if and only if the text does not fit. */
  lemma {:induction false} CommandsIff(m: Machine, cfg: Config, lines: seq<string>, body: string)
    requires Collects(m, cfg)
    requires var s := m.after(lines).session; s.state == ReceivingData && !s.closing && s.buffer == ""
    ensures (exists n :: 0 <= n < |BodyLines(body)| && IsCommand(m, lines, BodyLines(body), n))
            <==> |Normal(body)| > cfg.maxMessageSize
  {
    var ws := BodyLines(body);
    if |Normal(body)| > cfg.maxMessageSize {
      var n := OverflowTurns(m, cfg, lines, body);
      assert IsCommand(m, lines, ws, n);
    } else {
      BodyLinesOf(body);
      DotStuffingRoundTrip(cfg, m.after(lines).session, body);
      forall n | 0 <= n < |ws| ensures !IsCommand(m, lines, ws, n) { StillCollecting(m, cfg, lines, ws, n); }
    }
  }

  /** The run after a whole text that fits. */
  lemma TextFits(m: Machine, cfg: Config, lines: seq<string>, body: string)
    requires Collects(m, cfg)
    requires var s := m.after(lines).session; s.state == ReceivingData && !s.closing && s.buffer == ""
    requires |Normal(body)| <= cfg.maxMessageSize
    ensures var run, run' := m.after(lines), m.after(lines + BodyLines(body));
            && run'.session == run.session.(state := Ready)
            && run'.spooled == run.spooled + (if body == "" then [] else [Spooled(run.session.envelope, Normal(body))])
            && Replies(run'.log) == Replies(run.log) + [Queued(run.session.envelope.id)]
            && EndsUnflushed(run'.log)
  {
    var ws := BodyLines(body);
    BodyLinesOf(body);
    DotStuffingRoundTrip(cfg, m.after(lines).session, body);
    TextLines(m, cfg, lines, ws);
    assert ws[..|ws|] == ws;
    NormalForm(body);
  }

  /** An overflow ends the collecting: the session starts over, and the lines of the text that are
      still to come are taken as commands.  At least the final dot is. */
  lemma OverflowTurns(m: Machine, cfg: Config, lines: seq<string>, body: string) returns (n: nat)
    requires Collects(m, cfg)
    requires var s := m.after(lines).session; s.state == ReceivingData && !s.closing && s.buffer == ""
    requires |Normal(body)| > cfg.maxMessageSize
    ensures n < |BodyLines(body)|
    ensures var run, turned := m.after(lines), m.after(lines + BodyLines(body)[..n]);
            && turned.session == Overflowed(run.session) && turned.spooled == run.spooled
            && Replies(turned.log) == Replies(run.log) + [TooLarge]
  {
    var run, ws := m.after(lines), BodyLines(body);
    BodyLinesOf(body);
    DotStuffingRoundTrip(cfg, run.session, body);
    TextLines(m, cfg, lines, ws);
    n := FeedUntil(cfg, run.session, ws).1;
  }

  lemma OverflowVisible(m: Machine, lines: seq<string>, ws: seq<string>, n: nat, before: Run) returns (rest: seq<Answer>)
    requires Plays(m) && n < |ws|
    requires var turned := m.after(lines + ws[..n]);
             !turned.session.closing && Replies(turned.log) == Replies(before.log) + [TooLarge]
    ensures m.visible(m.after(lines + ws).log) == Replies(before.log) + ([TooLarge] + rest)
  {
    assert lines + ws == lines + ws[..n] + ws[n..];
    VisibleGrows(m, lines + ws[..n], ws[n..]);
    var all, sofar := m.visible(m.after(lines + ws).log), Replies(before.log) + [TooLarge];
    rest := all[|sofar|..];
    assert all == sofar + rest;
  }

  /** Text that does not fit is refused, and whatever the server makes of the lines after that
      comes later. */
  lemma TextOverflows(m: Machine, cfg: Config, lines: seq<string>, body: string) returns (rest: seq<Answer>)
    requires Collects(m, cfg)
    requires var s := m.after(lines).session; s.state == ReceivingData && !s.closing && s.buffer == ""
    requires |Normal(body)| > cfg.maxMessageSize
    ensures m.visible(m.after(lines + BodyLines(body)).log) == Replies(m.after(lines).log) + ([TooLarge] + rest)
  {
    var n := OverflowTurns(m, cfg, lines, body);
    rest := OverflowVisible(m, lines, BodyLines(body), n, m.after(lines));
  }

  /** A body that is not text: the handler collects what comes before the bad line, answers nothing, and
      stores nothing. */
  lemma {:induction false} TextBreaksOff(m: Machine, cfg: Config, lines: seq<string>, body: string)
    requires Collects(m, cfg)
    requires var s := m.after(lines).session; s.state == ReceivingData && !s.closing && s.buffer == ""
    requires !IsUtf8(body) && |LegiblePart(body)| <= cfg.maxMessageSize
    requires m.visible(m.after(lines).log) == Replies(m.after(lines).log)
    ensures var run, run' := m.after(lines), m.after(lines + Readable(BodyLines(body)));
            && run'.session == run.session.(buffer := LegiblePart(body)) && run'.spooled == run.spooled
            && Replies(run'.log) == Replies(run.log) && m.visible(run'.log) == m.visible(run.log)
  {
    var run, chunks, ws := m.after(lines), Readable(Chunks(body)), Readable(BodyLines(body));
    BodyUtf8(body);
    assert "" + NormalLines(chunks) == LegiblePart(body);
    FeedSome(cfg, run.session, chunks);
    TextLines(m, cfg, lines, ws);
    assert ws[..|ws|] == ws;
    NothingShown(m, lines, ws);
  }

  lemma NothingShown(m: Machine, lines: seq<string>, ws: seq<string>)
    requires Plays(m) && !m.after(lines).session.closing && m.visible(m.after(lines).log) == Replies(m.after(lines).log)
    requires Replies(m.after(lines + ws).log) == Replies(m.after(lines).log)
    ensures m.visible(m.after(lines + ws).log) == m.visible(m.after(lines).log)
  {
    if ws == [] {
      assert lines + ws == lines;
    } else {
      VisibleGrows(m, lines, ws);
      VisibleAtMost(m, m.after(lines + ws).log);
    }
  }

  /** The client sends such a body, and finds the connection closed. */
  lemma SendIllegible(m: Machine, cfg: Config, conn: Client.Conn, lines: seq<string>, run: Run, body: string)
    returns (conn': Client.Conn)
    requires Collects(m, cfg) && Standing(m, conn, lines, run, [])
    requires run.session.state == ReceivingData && !run.session.closing && run.session.buffer == ""
    requires !IsUtf8(body) && |LegiblePart(body)| <= cfg.maxMessageSize
    ensures Client.Ask(m.server, conn, Client.StuffBody(body)) == (Err(ConnectionClosed), conn')
    ensures Handled(conn'.sent) == lines + Readable(BodyLines(body))
    ensures var run' := m.after(Handled(conn'.sent)); run'.spooled == run.spooled && Replies(run'.log) == Replies(run.log)
  {
    var ws := BodyLines(body);
    BodyLinesAreLines(body);
    BodyBytes(body);
    BodyUtf8(body);
    TextBreaksOff(m, cfg, lines, body);
    assert conn.inbox == "";
    SendUnreadable(m, conn, lines, run, ws, Client.StuffBody(body));
    conn' := Client.Send(m.server, conn, Client.StuffBody(body));
    ReceiveNothing(conn');
  }

  lemma SendBody(m: Machine, conn: Client.Conn, lines: seq<string>, run: Run, body: string, run': Run, a: Answer,
                 rest: seq<Answer>)
    returns (conn': Client.Conn)
    requires Standing(m, conn, lines, run, []) && run' == m.after(lines + BodyLines(body))
    requires m.visible(run'.log) == Replies(run.log) + ([a] + rest) && Encodable(m.render(a)) && IsUtf8(body)
    ensures Client.Ask(m.server, conn, Client.StuffBody(body)) == (Ok(m.render(a)), conn')
    ensures Holding(m, conn', lines + BodyLines(body), run', rest)
  {
    var ws := BodyLines(body);
    BodyLinesAreLines(body);
    BodyUtf8(body);
    BodyBytes(body);
    var added := [a] + rest;
    SendHolding(m, conn, lines, run, [], ws, Client.StuffBody(body), run', added);
    assert [] + added == added && added[1..] == rest;
    var sent := Client.Send(m.server, conn, Client.StuffBody(body));
    ReceiveHolding(m, sent, lines + ws, run', added);
    conn' := Client.Receive(sent).1;
  }

  /** A handler that does not flush the reply to the text leaves the client without one. */
  lemma SendBodyUnanswered(m: Machine, conn: Client.Conn, lines: seq<string>, run: Run, body: string, run': Run)
    returns (conn': Client.Conn)
    requires Standing(m, conn, lines, run, []) && run' == m.after(lines + BodyLines(body))
    requires m.visible(run'.log) == Replies(run.log) && !run'.session.closing && IsUtf8(body)
    ensures Client.Ask(m.server, conn, Client.StuffBody(body)) == (Err(TimedOut), conn')
    ensures Holding(m, conn', lines + BodyLines(body), run', [])
  {
    var ws := BodyLines(body);
    BodyLinesAreLines(body);
    BodyUtf8(body);
    BodyBytes(body);
    assert Replies(run.log) + [] == Replies(run.log);
    SendHolding(m, conn, lines, run, [], ws, Client.StuffBody(body), run', []);
    conn' := Client.Send(m.server, conn, Client.StuffBody(body));
    ReceiveNothing(conn');
  }

  lemma {:induction false} RepliesGrow(m: Machine, lines: seq<string>, more: seq<string>)
    requires Plays(m)
    ensures Replies(m.after(lines).log) <= Replies(m.after(lines + more).log)
    decreases |more|
  {
    if more == [] {
      assert lines + more == lines;
    } else {
      var rest := more[..|more| - 1];
      var last := more[|more| - 1];
      RepliesGrow(m, lines, rest);
      assert lines + more == lines + rest + [last];
      if m.after(lines + rest).session.closing {
        RunClosed(m, lines + rest, last);
      } else {
        RunNext(m, lines + rest, last);
        var before := m.after(lines + rest);
        RepliesNext(before, m.handle(before.session, last, |lines + rest|));
      }
    }
  }

  lemma VisibleAfter(m: Machine, lines: seq<string>, line: string)
    requires Plays(m) && !m.after(lines).session.closing
    ensures Replies(m.after(lines).log) <= m.visible(m.after(lines + [line]).log)
  {
    var before := m.after(lines);
    RunNext(m, lines, line);
    VisibleNext(m, before, m.handle(before.session, line, |lines|));
  }

  /** All the answers given before a line can be seen once a handler that was not closing has taken it. */
  lemma {:induction false} VisibleGrows(m: Machine, lines: seq<string>, more: seq<string>)
    requires Plays(m) && more != [] && !m.after(lines).session.closing
    ensures Replies(m.after(lines).log) <= m.visible(m.after(lines + more).log)
    decreases |more|
  {
    var rest, last := more[..|more| - 1], more[|more| - 1];
    assert lines + more == lines + rest + [last];
    if rest == [] {
      assert lines + rest == lines;
      VisibleAfter(m, lines, last);
    } else if m.after(lines + rest).session.closing {
      VisibleGrows(m, lines, rest);
      RunClosed(m, lines + rest, last);
    } else {
      RepliesGrow(m, lines, rest);
      VisibleAfter(m, lines + rest, last);
    }
  }

  /** What the client can see only grows. */
  lemma VisibleKept(m: Machine, lines: seq<string>, line: string)
    requires Plays(m)
    ensures m.visible(m.after(lines).log) <= m.visible(m.after(lines + [line]).log)
  {
    if m.after(lines).session.closing {
      RunClosed(m, lines, line);
    } else {
      VisibleAfter(m, lines, line);
      VisibleAtMost(m, m.after(lines).log);
    }
  }

  lemma AllPolite(m: Machine, cfg: Config, lines: seq<string>)
    requires Collects(m, cfg) && AllLines(lines)
    ensures EncodableAll(m.render, Replies(m.after(lines).log)) && CleanSession(m.after(lines).session)
  {
    assert RunsAt(m, lines);
    PoliteRun(m.handle, m.render, m.start, lines, |lines|);
  }

  /** Leaving never goes wrong, whatever is still unread. */
  lemma {:induction false} QuitNeverPanics(m: Machine, cfg: Config, conn: Client.Conn, lines: seq<string>, run: Run, unread: seq<Answer>,
                        line: string)
    requires Collects(m, cfg) && Holding(m, conn, lines, run, unread) && IsLine(line) && IsUtf8(line)
    requires EncodableAll(m.render, unread)
    ensures !Client.Panics(Client.Ask(m.server, conn, line).0)
  {
    var run' := m.after(lines + [line]);
    VisibleKept(m, lines, line);
    VisibleAtMost(m, run'.log);
    AllPolite(m, cfg, lines + [line]);
    var n := |m.visible(run.log)|;
    var added := m.visible(run'.log)[n..];
    forall i | 0 <= i < |added| ensures EncodableAt(m.render, added[i]) {
      assert added[i] == Replies(run'.log)[n + i];
      assert EncodableAt(m.render, Replies(run'.log)[n + i]);
    }
    FlattenOne(line);
    SendHolding(m, conn, lines, run, unread, [line], line, run', added);
    ReadFirst(m, Client.Send(m.server, conn, line), lines + [line], run', unread + added);
  }

  lemma ReadFirst(m: Machine, conn: Client.Conn, lines: seq<string>, run: Run, unread: seq<Answer>)
    requires Holding(m, conn, lines, run, unread) && EncodableAll(m.render, unread)
    ensures !Client.Panics(Client.Receive(conn).0)
  {
    if unread != [] {
      assert EncodableAt(m.render, unread[0]);
      ReceiveHolding(m, conn, lines, run, unread);
    }
  }

  // ---------------------------------------------------------------- the client's view as a whole

  /** All that the client is sent for its writes, one after another. */
  function SentInAll(server: Client.Server, writes: seq<string>): string {
    if writes == [] then server.says([]) else SentInAll(server, writes[..|writes| - 1]) + server.says(writes)
  }

  /** Each write is some whole lines of text. */
  function AsWrites(groups: seq<seq<string>>): (writes: seq<string>)
    ensures |writes| == |groups|
  {
    seq(|groups|, i requires 0 <= i < |groups| => Flatten(groups[i]))
  }

  function Ungroup(groups: seq<seq<string>>): seq<string> {
    if groups == [] then [] else Ungroup(groups[..|groups| - 1]) + groups[|groups| - 1]
  }

  predicate LineGroups(groups: seq<seq<string>>) {
    forall i :: 0 <= i < |groups| ==> AllLines(groups[i]) && AllUtf8(groups[i])
  }

  lemma {:induction false} UngroupedBytes(groups: seq<seq<string>>)
    requires LineGroups(groups)
    ensures AllLines(Ungroup(groups)) && AllUtf8(Ungroup(groups)) && Flatten(AsWrites(groups)) == Flatten(Ungroup(groups))
    ensures Handled(AsWrites(groups)) == Ungroup(groups)
  {
    if groups != [] {
      var n := |groups| - 1;
      UngroupedBytes(groups[..n]);
      assert AsWrites(groups) == AsWrites(groups[..n]) + [Flatten(groups[n])];
      FlattenAppend(AsWrites(groups[..n]), [Flatten(groups[n])]);
      FlattenOne(Flatten(groups[n]));
      FlattenAppend(Ungroup(groups[..n]), groups[n]);
    }
    HandledLines(AsWrites(groups), Ungroup(groups));
  }

  lemma {:induction false} VisibleKeptBy(m: Machine, lines: seq<string>, more: seq<string>)
    requires Plays(m)
    ensures m.visible(m.after(lines).log) <= m.visible(m.after(lines + more).log)
    decreases |more|
  {
    if more == [] {
      assert lines + more == lines;
    } else {
      var rest, last := more[..|more| - 1], more[|more| - 1];
      VisibleKeptBy(m, lines, rest);
      VisibleKept(m, lines + rest, last);
      assert lines + more == lines + rest + [last];
    }
  }

  lemma SentNext(m: Machine, groups: seq<seq<string>>)
    requires Plays(m) && LineGroups(groups) && groups != []
    ensures var n := |groups| - 1;
            var before, now := m.visible(m.after(Ungroup(groups[..n])).log), m.visible(m.after(Ungroup(groups)).log);
            before <= now && m.server.says(AsWrites(groups)) == Wire(m.render, now[|before|..])
  {
    var n := |groups| - 1;
    UngroupedBytes(groups);
    UngroupedBytes(groups[..n]);
    VisibleKeptBy(m, Ungroup(groups[..n]), groups[n]);
    assert AsWrites(groups)[..n] == AsWrites(groups[..n]);
    assert SendsAt(m, AsWrites(groups));
  }

  /** Whatever the writes, the client has been sent the greeting and the answers it can see, in order
      and nothing else.  For the handler as it is these are the bytes `Server.HandleConnection` has
      flushed. */
  lemma {:induction false} SentInAllIs(m: Machine, groups: seq<seq<string>>)
    requires Plays(m) && LineGroups(groups)
    ensures SentInAll(m.server, AsWrites(groups)) == Wire(m.render, [Welcome] + m.visible(m.after(Ungroup(groups)).log))
  {
    if groups == [] {
      assert SendsAt(m, []) && RunsAt(m, []) && ShowsAt(m, []);
      assert [Welcome] + [] == [Welcome];
    } else {
      var n := |groups| - 1;
      SentInAllIs(m, groups[..n]);
      SentNext(m, groups);
      assert AsWrites(groups)[..n] == AsWrites(groups[..n]);
      var before, now := m.visible(m.after(Ungroup(groups[..n])).log), m.visible(m.after(Ungroup(groups)).log);
      WireAppend(m.render, [Welcome] + before, now[|before|..]);
      assert [Welcome] + before + now[|before|..] == [Welcome] + now;
    }
  }
}
