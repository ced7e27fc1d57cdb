/**
 The connection handler with RFC 2920 pipelining: replies to commands wait in `pending` while
 more input is buffered, and are written together.
 */
module Server {
  import opened Text
  import opened Utf8
  import opened Reply
  import opened Answer
  import opened Session

  /** What was written, and how much of it is certain to have reached the socket. */
  class BufWriter {
    var written: string
    var flushed: nat

    constructor ()
      ensures written == "" && flushed == 0
    {
      written := "";
      flushed := 0;
    }

    /** `done` is what has been written, `sent` what of it has been flushed. */
    ghost predicate Holds(render: Wording, done: seq<Answer>, sent: seq<Answer>)
      reads this
    {
      written == Wire(render, done) && flushed == |Wire(render, sent)| <= |written|
    }

    method Send(r: Response)
      requires r.messages != []
      modifies this`written
      ensures written == old(written) + ToWire(r)
    {
      var wire := Serialize(r);
      written := written + wire;
    }

    method Flush()
      modifies this`flushed
      ensures flushed == |written|
    {
      flushed := |written|;
    }
  }

  /** The handler works for any wording that gives every answer at least one line. */
  ghost predicate Worded(render: Wording) {
    forall a :: render(a).messages != []
  }

  lemma {:induction false} WireSnoc(render: Wording, answers: seq<Answer>, a: Answer)
    requires Worded(render)
    ensures Wire(render, answers + [a]) == Wire(render, answers) + ToWire(render(a))
  {
    WireAppend(render, answers, [a]);
    WireOne(render, a);
  }

  /** Writing out the replies held back, oldest first. */
  method WritePending(render: Wording, pending: seq<Answer>, writer: BufWriter, ghost done: seq<Answer>)
    requires Worded(render) && writer.written == Wire(render, done)
    modifies writer
    ensures writer.written == Wire(render, done + pending) && writer.flushed == |writer.written|
  {
    var i := 0;
    assert done + pending[..0] == done;
    while i < |pending|
      invariant 0 <= i <= |pending|
      invariant writer.written == Wire(render, done + pending[..i])
    {
      writer.Send(render(pending[i]));
      WireSnoc(render, done + pending[..i], pending[i]);
      assert done + pending[..i + 1] == done + pending[..i] + [pending[i]];
      i := i + 1;
    }
    assert pending[..i] == pending;
    writer.Flush();
  }

  /** One line of message text: any reply is written at once, and not flushed. */
  method HandleText(c: Connection, render: Wording, session: SmtpSession, line: string, writer: BufWriter, ghost done: seq<Answer>)
    returns (spooled: Option<Spooled>, ghost reply: Option<Answer>)
    requires Worded(render) && session.config == c.cfg && session.state == ReceivingData
    requires writer.written == Wire(render, done)
    modifies session, writer`written
    ensures var o := DataStep(c.cfg, old(session.Model()), line);
            session.Model() == o.session && spooled == o.spooled && reply == o.exchange.reply
    ensures reply.None? ==> writer.written == old(writer.written)
    ensures reply.Some? ==> |writer.written| > old(|writer.written|)
    ensures writer.written == Wire(render, done + OptionSeq(reply))
  {
    spooled, reply := None, None;
    assert done + [] == done;
    var result := session.Feed(line);
    match result
    case Continue =>
    case Done(answer) =>
      var data := session.TakeData();
      if data.Some? {
        spooled := Some(Spooled(session.envelope, data.value));
      }
      writer.Send(render(answer));
      reply := Some(answer);
      WireSnoc(render, done, answer);
    case Overflow(answer) =>
      writer.Send(render(answer));
      reply := Some(answer);
      WireSnoc(render, done, answer);
  }

  /** One command line: the reply joins the ones held back, which are all written and flushed
      if no more input is buffered, or message text comes next, or the connection is closing. */
  method HandleLine(c: Connection, render: Wording, session: SmtpSession, line: string, freshId: string, empty: bool,
                    held: seq<Answer>, writer: BufWriter, ghost done: seq<Answer>)
    returns (pending: seq<Answer>, ghost done': seq<Answer>, ghost reply: Answer)
    requires Worded(render) && session.config == c.cfg && session.state != ReceivingData
    requires writer.written == Wire(render, done) && writer.flushed <= |writer.written|
    modifies session, writer
    ensures var o := Step(c.cfg, old(session.Model()), line, freshId);
            session.Model() == o.session && o.spooled.None? && o.exchange.reply == Some(reply) && !o.exchange.inData
    ensures done' + pending == done + held + [reply] && writer.written == Wire(render, done')
    ensures writer.flushed <= |writer.written|
    ensures empty || session.state == ReceivingData || session.closing ==> pending == []
    ensures if pending == [] then writer.flushed == |writer.written| else writer.flushed == old(writer.flushed)
  {
    var answer := session.Process(Trim(line), freshId);
    reply := answer;
    pending := held + [answer];
    done' := done;
    if empty || session.state == ReceivingData || session.closing {
      WritePending(render, pending, writer, done);
      done' := done + pending;
      pending := [];
    }
  }

  /** The state of the handler between two lines: `done` has been written, `sent` of that is certain
      to have been flushed, and `pending` is held back. */
  ghost predicate InStep(run: Run, session: Session, done: seq<Answer>, pending: seq<Answer>, sent: seq<Answer>) {
    && session == run.session
    && done + pending == [Welcome] + Replies(run.log)
    && (session.state == ReceivingData || session.closing ==> pending == [])
    && (session.state == ReceivingData ==> !EndsUnflushed(run.log))
    && (pending == [] ==> sent == [Welcome] + Flushed(run.log))
  }

  lemma TextInStep(run: Run, o: Outcome, done: seq<Answer>, sent: seq<Answer>)
    requires InStep(run, run.session, done, [], sent) && run.session.state == ReceivingData
    requires o.exchange.inData && (o.session.state == ReceivingData ==> o.exchange.reply.None?)
    ensures InStep(Advance(run, o), o.session, done + OptionSeq(o.exchange.reply), [], sent)
  {
    RepliesNext(run, o);
    FlushedNext(run, o);
    assert done + [] == done;
    assert Replies(run.log) + [] == Replies(run.log);
  }

  lemma CommandInStep(run: Run, o: Outcome, done: seq<Answer>, held: seq<Answer>, done': seq<Answer>, pending: seq<Answer>,
                      reply: Answer, sent: seq<Answer>, sent': seq<Answer>)
    requires InStep(run, run.session, done, held, sent)
    requires o.exchange.reply == Some(reply) && !o.exchange.inData
    requires done' + pending == done + held + [reply]
    requires o.session.state == ReceivingData || o.session.closing ==> pending == []
    requires pending == [] ==> sent' == done'
    ensures InStep(Advance(run, o), o.session, done', pending, sent')
  {
    RepliesNext(run, o);
    FlushedNext(run, o);
    assert [Welcome] + Replies(run.log) + [reply] == [Welcome] + (Replies(run.log) + [reply]);
    assert done' + [] == done';
  }

  lemma DataStepShape(cfg: Config, s: Session, line: string)
    ensures var o := DataStep(cfg, s, line);
            o.exchange.inData && (o.session.state == ReceivingData && s.state == ReceivingData ==> o.exchange.reply.None?)
  {
  }

  /** Before the first line: the greeting is written and flushed. */
  method Greet(c: Connection, render: Wording, writer: BufWriter) returns (session: SmtpSession)
    requires Worded(render) && writer.written == ""
    modifies writer
    ensures fresh(session) && session.config == c.cfg
    ensures writer.written == Wire(render, [Welcome]) && writer.flushed == |writer.written|
    ensures InStep(Run(Fresh(c.peer), [], []), session.Model(), [Welcome], [], [Welcome])
  {
    session := new SmtpSession(c.peer, c.cfg);
    writer.Send(render(Welcome));
    writer.Flush();
    WireSnoc(render, [], Welcome);
    assert [] + [Welcome] == [Welcome];
    assert Replies([]) == [];
  }

  /** One round of the handler's loop. */
  method HandleNext(c: Connection, render: Wording, session: SmtpSession, line: string, k: nat, empty: bool,
                    held: seq<Answer>, writer: BufWriter, ghost before: Run, ghost done: seq<Answer>, ghost sent: seq<Answer>)
    returns (spooled: Option<Spooled>, pending: seq<Answer>, ghost written: seq<Answer>, ghost sent': seq<Answer>,
             ghost after: Run)
    requires Worded(render) && session.config == c.cfg
    requires InStep(before, session.Model(), done, held, sent) && writer.Holds(render, done, sent)
    modifies session, writer
    ensures var o := HandlerOf(c)(before.session, line, k);
            after == Advance(before, o) && spooled == o.spooled
    ensures InStep(after, session.Model(), written, pending, sent') && writer.Holds(render, written, sent')
    ensures empty ==> pending == []
  {
    ghost var o := HandlerOf(c)(before.session, line, k);
    assert o == Step(c.cfg, before.session, line, c.ids(k));
    after := Advance(before, o);
    ghost var reply;
    if session.state == ReceivingData {
      pending, sent' := [], sent;
      DataStepShape(c.cfg, before.session, line);
      spooled, reply := HandleText(c, render, session, line, writer, done);
      TextInStep(before, o, done, sent);
      written := done + OptionSeq(reply);
    } else {
      ghost var answer;
      spooled := None;
      pending, written, answer := HandleLine(c, render, session, line, c.ids(k), empty, held, writer, done);
      sent' := if pending == [] then written else sent;
      CommandInStep(before, o, done, held, written, pending, answer, sent, sent');
    }
  }

  lemma ServeNext(c: Connection, lines: seq<string>, i: nat, before: Run, after: Run, spooled: Option<Spooled>)
    requires i < |lines| && before == Serve(c, lines, i) && !before.session.closing
    requires var o := HandlerOf(c)(before.session, lines[i], i);
             after == Advance(before, o) && spooled == o.spooled
    ensures after == Serve(c, lines, i + 1) && after.spooled == before.spooled + SpooledSeq(spooled)
  {
  }

  function SpooledSeq(spooled: Option<Spooled>): seq<Spooled> {
    if spooled.Some? then [spooled.value] else []
  }

  /** Where the first `i` lines lead. */
  predicate Reached(c: Connection, lines: seq<string>, i: nat, run: Run) {
    i <= |lines| && run == Serve(c, lines, i)
  }

  lemma NothingRead(c: Connection, lines: seq<string>)
    ensures Reached(c, lines, 0, Run(Fresh(c.peer), [], []))
  {
  }

  /** One round, as part of the whole. */
  method HandleRound(c: Connection, render: Wording, session: SmtpSession, line: string, ghost lines: seq<string>, i: nat,
                     empty: bool, held: seq<Answer>, writer: BufWriter, ghost before: Run, ghost done: seq<Answer>, ghost sent: seq<Answer>)
    returns (spooled: Option<Spooled>, pending: seq<Answer>, ghost written: seq<Answer>, ghost sent': seq<Answer>,
             ghost after: Run)
    requires Worded(render) && session.config == c.cfg
    requires i < |lines| && line == lines[i] && Reached(c, lines, i, before) && !session.closing
    requires InStep(before, session.Model(), done, held, sent) && writer.Holds(render, done, sent)
    modifies session, writer
    ensures Reached(c, lines, i + 1, after) && after.spooled == before.spooled + SpooledSeq(spooled)
    ensures InStep(after, session.Model(), written, pending, sent') && writer.Holds(render, written, sent')
    ensures empty ==> pending == []
  {
    spooled, pending, written, sent', after :=
      HandleNext(c, render, session, line, i, empty, held, writer, before, done, sent);
    ServeNext(c, lines, i, before, after, spooled);
  }

  lemma Served(c: Connection, lines: seq<string>, i: nat, run: Run)
    requires Reached(c, lines, i, run) && (i == |lines| || run.session.closing)
    ensures run == Serve(c, lines, |lines|)
  {
    if run.session.closing { ClosedStays(HandlerOf(c), Fresh(c.peer), lines, i, |lines|); }
  }

  /**
   The handler, over the lines a client sends before closing its side, or as many of them as can be
   read as text, for any pattern of `bufferEmpty` observations (`bufferEmpty(i)`: nothing was left in the read buffer after
   line `i`).  Whatever the pattern, what is written followed by what is still held back is
   the transcript of answering line by line, so batching loses, duplicates and reorders
   nothing; and everything is written as soon as the buffer is seen empty or QUIT is answered.
   At such a point all of it has also been flushed, unless the last line was message text that
   drew a reply: that reply stays in the write buffer.
   */
  method HandleConnection(c: Connection, render: Wording, lines: seq<string>, bufferEmpty: nat -> bool,
                          writer: BufWriter)
    returns (session: SmtpSession, spooled: seq<Spooled>, pending: seq<Answer>, ghost written: seq<Answer>, ghost run: Run)
    requires Worded(render) && writer.written == ""
    modifies writer
    ensures fresh(session) && run == Serve(c, Readable(lines), |Readable(lines)|)
    ensures session.Model() == run.session && spooled == run.spooled
    ensures writer.written == Wire(render, written) && written + pending == [Welcome] + Replies(run.log)
    ensures session.state == ReceivingData ==> pending == []
    ensures session.closing || Readable(lines) == [] || bufferEmpty(|Readable(lines)| - 1) ==>
              && pending == [] && writer.flushed == |Wire(render, [Welcome] + Flushed(run.log))|
              && (writer.flushed == |writer.written| <==> !EndsUnflushed(run.log))
  {
    session := Greet(c, render, writer);
    ghost var i, sent;
    ghost var text := Readable(lines);
    spooled, pending, written, sent, i, run := HandleLines(c, render, session, lines, text, bufferEmpty, writer);
    Served(c, text, i, run);
    if session.closing || Readable(lines) == [] || bufferEmpty(|Readable(lines)| - 1) {
      AllWritten(render, run, session.Model(), written, sent);
    }
  }

  /** The loop over the lines, until QUIT or a line that is not text. */
  method HandleLines(c: Connection, render: Wording, session: SmtpSession, lines: seq<string>, ghost text: seq<string>,
                     bufferEmpty: nat -> bool, writer: BufWriter)
    returns (spooled: seq<Spooled>, pending: seq<Answer>, ghost written: seq<Answer>, ghost sent: seq<Answer>,
             ghost i: nat, ghost run: Run)
    requires Worded(render) && session.config == c.cfg
    requires InStep(Run(Fresh(c.peer), [], []), session.Model(), [Welcome], [], [Welcome])
    requires writer.Holds(render, [Welcome], [Welcome]) && text == Readable(lines)
    modifies session, writer
    ensures Reached(c, text, i, run) && spooled == run.spooled
    ensures i == |text| || session.closing
    ensures InStep(run, session.Model(), written, pending, sent) && writer.Holds(render, written, sent)
    ensures session.closing || text == [] || bufferEmpty(|text| - 1) ==> pending == []
  {
    spooled, pending, written, sent := [], [], [Welcome], [Welcome];
    run := Run(Fresh(c.peer), [], []);
    NothingRead(c, text);
    var k := 0;
    while !session.closing && CanRead(lines, k)
      invariant 0 <= k <= |text| && session.config == c.cfg
      invariant Reached(c, text, k, run) && spooled == run.spooled
      invariant InStep(run, session.Model(), written, pending, sent) && writer.Holds(render, written, sent)
      invariant k == 0 || bufferEmpty(k - 1) ==> pending == []
      decreases |text| - k
    {
      ReadableAt(lines, k);
      var part;
      part, pending, written, sent, run :=
        HandleRound(c, render, session, lines[k], text, k, bufferEmpty(k), pending, writer, run, written, sent);
      spooled := spooled + SpooledSeq(part);
      k := k + 1;
    }
    i := k;
    if !session.closing { ReadableAt(lines, k); }
  }

  /** There is a line `k`, and it is text. */
  predicate CanRead(lines: seq<string>, k: nat) {
    k < |lines| && IsUtf8(lines[k])
  }

  lemma {:induction false} ReadableAt(lines: seq<string>, k: nat)
    requires k <= |Readable(lines)|
    ensures CanRead(lines, k) <==> k < |Readable(lines)|
    ensures CanRead(lines, k) ==> Readable(lines)[k] == lines[k]
  {
  }

  /** Once nothing is held back, all is written, and flushed but for a last reply to message text. */
  lemma {:induction false} AllWritten(render: Wording, run: Run, session: Session, written: seq<Answer>, sent: seq<Answer>)
    requires Worded(render) && InStep(run, session, written, [], sent)
    ensures written == [Welcome] + Replies(run.log) && sent == [Welcome] + Flushed(run.log)
    ensures |Wire(render, sent)| == |Wire(render, written)| <==> !EndsUnflushed(run.log)
  {
    assert written + [] == written;
    UnflushedIsShorter(render, run.log);
  }

  /** A reply that is not flushed makes a difference: every reply has some bytes. */
  lemma {:induction false} UnflushedIsShorter(render: Wording, log: seq<Exchange>)
    requires Worded(render)
    ensures |Wire(render, [Welcome] + Flushed(log))| == |Wire(render, [Welcome] + Replies(log))| <==> !EndsUnflushed(log)
  {
    if EndsUnflushed(log) {
      var last := log[|log| - 1].reply.value;
      assert [Welcome] + Flushed(log) + [last] == [Welcome] + Replies(log);
      WireSnoc(render, [Welcome] + Flushed(log), last);
      SomeBytes(render(last));
    }
  }

  lemma SomeBytes(r: Response)
    requires r.messages != []
    ensures |ToWire(r)| > 0
  {
  }

  /** Nothing after QUIT is looked at. */
  lemma {:induction false} ClosedStays(handle: Handler, start: Session, lines: seq<string>, i: nat, n: nat)
    requires i <= n <= |lines| && Drive(handle, start, lines, i).session.closing
    ensures Drive(handle, start, lines, n) == Drive(handle, start, lines, i)
  {
    if i < n { ClosedStays(handle, start, lines, i, n - 1); }
  }
}
