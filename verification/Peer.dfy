/**
 The server seen from the client: a connection handler as a function from the bytes it has been
 sent to the bytes it sends back.  A handler may flush the reply to message text at once, or, as
 the one in `Server` does, leave it in its write buffer until it next answers a command.
 */
module Peer {
  import opened Text
  import opened Utf8
  import opened Reply
  import opened Answer
  import opened Session
  import Client

  /** A connection handler: what one line does, how it words its answers, where it is after the
      lines of a connection, whether it flushes replies to message text, which of its answers
      the client can see after a history, and its side of the connection as the client sees it. */
  datatype Machine = Machine(
    handle: Handler,
    start: Session,
    render: Wording,
    after: seq<string> -> Run,
    flushesText: bool,
    visible: seq<Exchange> -> seq<Answer>,
    server: Client.Server)

  /** The complete lines of a byte stream; an unfinished last one waits for more. */
  function CompleteLines(bytes: string): (lines: seq<string>) {
    var chunks := Chunks(bytes);
    if chunks != [] && !IsLine(chunks[|chunks| - 1]) then chunks[..|chunks| - 1] else chunks
  }

  /** The lines a handler takes of what it has been sent: it reads them as text, and gives up at the
      first that is none. */
  function Handled(writes: seq<string>): seq<string> {
    Readable(CompleteLines(Flatten(writes)))
  }

  predicate RunsAt(m: Machine, lines: seq<string>) {
    m.after(lines) == Drive(m.handle, m.start, lines, |lines|)
  }

  predicate ShowsAt(m: Machine, log: seq<Exchange>) {
    m.visible(log) == if m.flushesText then Replies(log) else Flushed(log)
  }

  function Answers(after: seq<string> -> Run, visible: seq<Exchange> -> seq<Answer>, writes: seq<string>): seq<Answer> {
    visible(after(Handled(writes)).log)
  }

  /** What the handler sends back after the last of `writes`, answering line by line. */
  function SentBack(after: seq<string> -> Run, visible: seq<Exchange> -> seq<Answer>, render: Wording, writes: seq<string>): string {
    if writes == [] then Wire(render, [Welcome])
    else
      var before := Answers(after, visible, writes[..|writes| - 1]);
      var now := Answers(after, visible, writes);
      if |before| <= |now| then Wire(render, now[|before|..]) else ""
  }

  /** The handler closes the connection after QUIT, and when it gives up reading. */
  predicate HangsUp(after: seq<string> -> Run, writes: seq<string>) {
    after(Handled(writes)).session.closing || Handled(writes) != CompleteLines(Flatten(writes))
  }

  predicate SendsAt(m: Machine, writes: seq<string>) {
    && m.server.says(writes) == SentBack(m.after, m.visible, m.render, writes)
    && m.server.hangsUp(writes) == HangsUp(m.after, writes)
  }

  /** The handler takes line after line, and the client sees what it sends. */
  ghost predicate Plays(m: Machine) {
    && !m.start.closing
    && (forall lines :: RunsAt(m, lines))
    && (forall log :: ShowsAt(m, log))
    && (forall writes :: SendsAt(m, writes))
  }

  // ---------------------------------------------------------------- runs grow

  lemma {:induction false} DrivePrefix(handle: Handler, start: Session, lines: seq<string>, more: seq<string>, n: nat)
    requires n <= |lines|
    ensures Drive(handle, start, lines + more, n) == Drive(handle, start, lines, n)
  {
    if n > 0 { DrivePrefix(handle, start, lines, more, n - 1); }
  }

  lemma RunNext(m: Machine, lines: seq<string>, line: string)
    requires Plays(m) && !m.after(lines).session.closing
    ensures var before := m.after(lines);
            m.after(lines + [line]) == Advance(before, m.handle(before.session, line, |lines|))
  {
    assert RunsAt(m, lines) && RunsAt(m, lines + [line]);
    DrivePrefix(m.handle, m.start, lines, [line], |lines|);
  }

  lemma RunClosed(m: Machine, lines: seq<string>, line: string)
    requires Plays(m) && m.after(lines).session.closing
    ensures m.after(lines + [line]) == m.after(lines)
  {
    assert RunsAt(m, lines) && RunsAt(m, lines + [line]);
    DrivePrefix(m.handle, m.start, lines, [line], |lines|);
  }

  // ---------------------------------------------------------------- a connection in good standing

  /** The client has sent exactly `lines`; the handler is then where `run` says, and the client has
      read all it can see but `unread`. */
  ghost predicate Holding(m: Machine, conn: Client.Conn, lines: seq<string>, run: Run, unread: seq<Answer>) {
    && Plays(m) && AllLines(lines) && AllUtf8(lines) && Flatten(conn.sent) == Flatten(lines)
    && run == m.after(lines) && conn.ended == run.session.closing
    && conn.inbox == Wire(m.render, unread)
  }

  /** ... and the client can see every answer given so far. */
  ghost predicate Standing(m: Machine, conn: Client.Conn, lines: seq<string>, run: Run, unread: seq<Answer>) {
    Holding(m, conn, lines, run, unread) && m.visible(run.log) == Replies(run.log)
  }

  // ---------------------------------------------------------------- what the client can see

  lemma VisibleNext(m: Machine, before: Run, o: Outcome)
    requires Plays(m)
    ensures var seen := m.visible(Advance(before, o).log);
            && seen == Replies(before.log) + OptionSeq(if o.exchange.inData && !m.flushesText then None else o.exchange.reply)
            && Replies(before.log) <= seen <= Replies(Advance(before, o).log)
            && (!o.exchange.inData ==> seen == Replies(Advance(before, o).log))
  {
    assert ShowsAt(m, Advance(before, o).log);
    FlushedNext(before, o);
    RepliesNext(before, o);
  }

  lemma {:induction false} VisibleAtMost(m: Machine, log: seq<Exchange>)
    requires Plays(m)
    ensures m.visible(log) <= Replies(log)
  {
    assert ShowsAt(m, log);
  }

  lemma {:induction false} LinesOfStream(lines: seq<string>)
    requires AllLines(lines)
    ensures CompleteLines(Flatten(lines)) == lines
  {
    ChunksOfLines(lines, "");
    assert Flatten(lines) + "" == Flatten(lines) && lines + [] == lines;
  }

  lemma {:induction false} HandledLines(writes: seq<string>, lines: seq<string>)
    requires AllLines(lines) && AllUtf8(lines) && Flatten(writes) == Flatten(lines)
    ensures Handled(writes) == lines == CompleteLines(Flatten(writes))
  {
    LinesOfStream(lines);
    ReadableIs(lines, []);
    assert lines + [] == lines;
  }

  lemma OpenStanding(m: Machine)
    requires Plays(m)
    ensures Standing(m, Client.Open(m.server), [], Run(m.start, [], []), [Welcome])
  {
    assert RunsAt(m, []) && SendsAt(m, []) && ShowsAt(m, []);
    HandledLines([], []);
  }

  /** Sending whole lines adds the answers to them to what the client can read. */
  lemma {:induction false} SendHolding(m: Machine, conn: Client.Conn, lines: seq<string>, run: Run, unread: seq<Answer>,
                    ws: seq<string>, bytes: string, run': Run, added: seq<Answer>)
    requires Holding(m, conn, lines, run, unread) && ws != [] && AllLines(ws) && AllUtf8(ws) && bytes == Flatten(ws)
    requires run' == m.after(lines + ws) && m.visible(run'.log) == m.visible(run.log) + added
    ensures Holding(m, Client.Send(m.server, conn, bytes), lines + ws, run', unread + added)
  {
    var sent := conn.sent + [bytes];
    FlattenAppend(conn.sent, [bytes]);
    FlattenOne(bytes);
    FlattenAppend(lines, ws);
    assert sent[..|sent| - 1] == conn.sent;
    HandledLines(conn.sent, lines);
    HandledLines(sent, lines + ws);
    var before, now := Answers(m.after, m.visible, conn.sent), Answers(m.after, m.visible, sent);
    assert before == m.visible(run.log) && now == before + added;
    assert now[|before|..] == added;
    assert SendsAt(m, sent);
    assert m.server.says(sent) == Wire(m.render, added);
    WireAppend(m.render, unread, added);
  }

  /** The client reads the oldest unread answer, exactly. */
  lemma ReceiveHolding(m: Machine, conn: Client.Conn, lines: seq<string>, run: Run, unread: seq<Answer>)
    requires Holding(m, conn, lines, run, unread) && unread != [] && Encodable(m.render(unread[0]))
    ensures var (reply, conn') := Client.Receive(conn);
            reply == Ok(m.render(unread[0])) && conn'.sent == conn.sent && Holding(m, conn', lines, run, unread[1..])
  {
    ReadWritten(m.render(unread[0]), Wire(m.render, unread[1..]));
  }

  /** The client sends lines of which one is not text.  The handler takes those before it and hangs
      up; here they draw no answers. */
  lemma {:induction false} SendUnreadable(m: Machine, conn: Client.Conn, lines: seq<string>, run: Run, ws: seq<string>, bytes: string)
    requires Holding(m, conn, lines, run, []) && AllLines(ws) && !AllUtf8(ws) && bytes == Flatten(ws)
    requires m.visible(m.after(lines + Readable(ws)).log) == m.visible(run.log)
    ensures var conn' := Client.Send(m.server, conn, bytes);
            conn'.inbox == "" && conn'.ended && Handled(conn'.sent) == lines + Readable(ws)
  {
    var sent := conn.sent + [bytes];
    FlattenAppend(conn.sent, [bytes]);
    FlattenOne(bytes);
    FlattenAppend(lines, ws);
    assert sent[..|sent| - 1] == conn.sent;
    HandledLines(conn.sent, lines);
    SendHangsUp(m, conn, lines, run, [], ws, bytes);
    assert SendsAt(m, sent);
    assert m.server.says(sent) == Wire(m.render, []);
  }

  /** However far the handler gets with such lines, the connection ends. */
  lemma {:induction false} SendHangsUp(m: Machine, conn: Client.Conn, lines: seq<string>, run: Run, unread: seq<Answer>, ws: seq<string>, bytes: string)
    requires Holding(m, conn, lines, run, unread) && AllLines(ws) && !AllUtf8(ws) && bytes == Flatten(ws)
    ensures var conn' := Client.Send(m.server, conn, bytes); conn'.ended && Handled(conn'.sent) == lines + Readable(ws)
  {
    var sent := conn.sent + [bytes];
    FlattenAppend(conn.sent, [bytes]);
    FlattenOne(bytes);
    FlattenAppend(lines, ws);
    HandledPart(sent, lines, ws);
    assert SendsAt(m, sent);
  }

  lemma EndedNeverTimesOut(conn: Client.Conn)
    requires conn.ended
    ensures Client.Receive(conn).0 != Err(TimedOut)
  {
    NeverTimedOut(0, [], "", conn.inbox);
  }

  lemma {:induction false} ReadablePart(lines: seq<string>, ws: seq<string>)
    requires AllUtf8(lines) && !AllUtf8(ws)
    ensures Readable(lines + ws) == lines + Readable(ws) && lines + Readable(ws) != lines + ws
  {
    var good := Readable(ws);
    assert lines + ws == (lines + good) + ws[|good|..];
    ReadableIs(lines + good, ws[|good|..]);
    assert |good| < |ws|;
  }

  lemma {:induction false} HandledPart(writes: seq<string>, lines: seq<string>, ws: seq<string>)
    requires AllLines(lines) && AllUtf8(lines) && AllLines(ws) && !AllUtf8(ws) && Flatten(writes) == Flatten(lines + ws)
    ensures Handled(writes) == lines + Readable(ws) && CompleteLines(Flatten(writes)) != Handled(writes)
  {
    LinesOfStream(lines + ws);
    ReadablePart(lines, ws);
  }

  lemma ReceiveNothing(conn: Client.Conn)
    requires conn.inbox == ""
    ensures Client.Receive(conn) == (Err(Client.OutOfBytes(conn.ended)), conn)
  {
  }

  /** One command line and its reply, nothing else being unread. */
  lemma AskStanding(m: Machine, conn: Client.Conn, lines: seq<string>, run: Run, line: string, o: Outcome, a: Answer)
    returns (conn': Client.Conn, run': Run)
    requires Standing(m, conn, lines, run, []) && !run.session.closing && IsLine(line) && IsUtf8(line)
    requires o == m.handle(run.session, line, |lines|) && o.exchange.reply == Some(a) && Encodable(m.render(a))
    requires !o.exchange.inData
    ensures Client.Ask(m.server, conn, line) == (Ok(m.render(a)), conn')
    ensures run' == Advance(run, o) && Standing(m, conn', lines + [line], run', [])
    ensures Replies(run'.log) == Replies(run.log) + [a]
  {
    run' := Advance(run, o);
    RunNext(m, lines, line);
    RepliesNext(run, o);
    VisibleNext(m, run, o);
    FlattenOne(line);
    SendHolding(m, conn, lines, run, [], [line], line, run', [a]);
    var sent := Client.Send(m.server, conn, line);
    assert [] + [a] == [a];
    ReceiveHolding(m, sent, lines + [line], run', [a]);
    conn' := Client.Receive(sent).1;
  }
}
