/**
 The client talking to the server: what a whole delivery does, for every sender, recipient list,
 body and limit.
 */
module EndToEnd {
  import opened Text
  import opened Utf8
  import opened Reply
  import opened Answer
  import opened Phrases
  import opened Session
  import opened Delivery
  import opened Politeness
  import opened DotStuffing
  import opened TextTransfer
  import opened Client
  import opened Peer
  import opened ClientLines
  import C = Command

  // ---------------------------------------------------------------- what is meant to happen

  /** The server's answer to a recipient, `accepted` being the ones it has already taken. */
  function RcptAnswer(cfg: Config, accepted: seq<string>, recipient: string): Answer {
    if recipient == "" then BadAddress(C.EmptyRecipient) else
    match C.ValidateAddress(recipient)
    case Err(InvalidAddress(problem)) => BadAddress(problem)
    case Err(_) => NoCommand
    case Ok(_) => if |accepted| >= cfg.maxRecipients then TooManyRecipients else Accepted
  }

  /** The recipients accepted among the first `n`: the valid ones, up to the limit. */
  function AcceptedOf(cfg: Config, recipients: seq<string>, n: nat): seq<string>
    requires n <= |recipients|
  {
    if n == 0 then []
    else
      var before := AcceptedOf(cfg, recipients, n - 1);
      if RcptAnswer(cfg, before, recipients[n - 1]) == Accepted then before + [recipients[n - 1]] else before
  }

  function RcptAnswers(cfg: Config, recipients: seq<string>, n: nat): (answers: seq<Answer>)
    requires n <= |recipients|
    ensures |answers| == n
  {
    if n == 0 then []
    else RcptAnswers(cfg, recipients, n - 1)
         + [RcptAnswer(cfg, AcceptedOf(cfg, recipients, n - 1), recipients[n - 1])]
  }

  // ---------------------------------------------------------------- the server

  ghost predicate Coded(render: Wording) {
    forall a :: render(a).code == Code(a)
  }

  predicate HandlesAt(m: Machine, c: Connection, s: Session, line: string, k: nat) {
    s.state != ReceivingData ==> m.handle(s, line, k) == ParsedStep(c.cfg, s, line, C.Parse(Trim(line)), c.ids(k))
  }

  ghost predicate ServesAt(m: Machine, c: Connection, k: nat) {
    && Collects(m, c.cfg) && Coded(m.render) && LfFree(c.ids(k))
    && (forall s, line :: HandlesAt(m, c, s, line, k))
  }

  /** All that is used of the server: it collects text and handles commands as the session does,
      and puts answers into words under their codes, at every line. */
  ghost predicate Serves(m: Machine, c: Connection) {
    forall k :: ServesAt(m, c, k)
  }

  // ---------------------------------------------------------------- one command

  /** The client sends one command line and reads the answer to it. */
  lemma AskCommand(m: Machine, c: Connection, conn: Conn, lines: seq<string>, run: Run, line: string,
                   parsed: Result<C.Command, C.ParseError>, o: Outcome, a: Answer)
    returns (conn': Conn, run': Run)
    requires Serves(m, c) && Standing(m, conn, lines, run, [])
    requires !run.session.closing && run.session.state != ReceivingData
    requires IsLine(line) && IsUtf8(line) && C.Parse(Trim(line)) == parsed
    requires o == ParsedStep(c.cfg, run.session, line, parsed, c.ids(|lines|))
    requires o.exchange.reply == Some(a) && CleanAnswer(a)
    ensures Ask(m.server, conn, line) == (Ok(m.render(a)), conn')
    ensures Standing(m, conn', lines + [line], run', [])
    ensures run'.session == o.session && run'.spooled == run.spooled && Replies(run'.log) == Replies(run.log) + [a]
  {
    assert ServesAt(m, c, |lines|);
    assert HandlesAt(m, c, run.session, line, |lines|) && WordsWell(m.render, a);
    conn', run' := AskStanding(m, conn, lines, run, line, o, a);
  }

  // ---------------------------------------------------------------- recipients

  /** Where the server stands after MAIL and some recipients. */
  function WithRecipients(s: Session, accepted: seq<string>): Session {
    if accepted == [] then s else s.(envelope := s.envelope.(recipients := accepted), state := RcptTo)
  }

  lemma RcptStep(cfg: Config, s: Session, accepted: seq<string>, recipient: string, freshId: string, line: string,
                 parsed: Result<C.Command, C.ParseError>)
    requires s.state == MailFrom && s.envelope.recipients == []
    requires parsed ==
             if recipient == "" then Err(C.InvalidAddress(C.EmptyRecipient)) else
             match C.ValidateAddress(recipient)
             case Ok(_) => Ok(C.RcptTo(recipient, []))
             case Err(e) => Err(e)
    requires C.ValidateAddress(recipient).Err? ==> C.ValidateAddress(recipient).error.InvalidAddress?
    ensures var a := RcptAnswer(cfg, accepted, recipient);
            var o := ParsedStep(cfg, WithRecipients(s, accepted), line, parsed, freshId);
            && o.exchange.reply == Some(a)
            && o.session == WithRecipients(s, if a == Accepted then accepted + [recipient] else accepted)
  {
  }

  lemma RcptAnswerClean(cfg: Config, accepted: seq<string>, recipient: string)
    requires LfFree(recipient)
    ensures CleanAnswer(RcptAnswer(cfg, accepted, recipient))
    ensures C.ValidateAddress(recipient).Err? ==> C.ValidateAddress(recipient).error.InvalidAddress?
  {
    AddressClean(recipient);
  }

  function ReadAs(render: Wording, answers: seq<Answer>): (replies: seq<ReadResult>)
    ensures |replies| == |answers|
  {
    seq(|answers|, i requires 0 <= i < |answers| => Ok(render(answers[i])))
  }

  lemma AskRcpt(m: Machine, c: Connection, conn: Conn, lines: seq<string>, run: Run, s: Session, accepted: seq<string>, recipient: string)
    returns (conn': Conn, run': Run)
    requires Serves(m, c) && Standing(m, conn, lines, run, []) && Sendable(recipient)
    requires s.state == MailFrom && s.envelope.recipients == [] && !s.closing
    requires run.session == WithRecipients(s, accepted)
    ensures var a := RcptAnswer(c.cfg, accepted, recipient);
            var line := Line(C.RcptTo(recipient, []));
            && Ask(m.server, conn, line) == (Ok(m.render(a)), conn')
            && Standing(m, conn', lines + [line], run', [])
            && run'.session == WithRecipients(s, if a == Accepted then accepted + [recipient] else accepted)
            && run'.spooled == run.spooled && Replies(run'.log) == Replies(run.log) + [a]
  {
    var line := Line(C.RcptTo(recipient, []));
    var a := RcptAnswer(c.cfg, accepted, recipient);
    var parsed := C.Parse(Trim(line));
    RcptIsLine(recipient);
    RcptParses(recipient);
    RcptAnswerClean(c.cfg, accepted, recipient);
    RcptStep(c.cfg, s, accepted, recipient, c.ids(|lines|), line, parsed);
    var o := ParsedStep(c.cfg, run.session, line, parsed, c.ids(|lines|));
    conn', run' := AskCommand(m, c, conn, lines, run, line, parsed, o, a);
  }

  function ReadRcpts(m: Machine, c: Connection, recipients: seq<string>, n: nat): (replies: seq<ReadResult>)
    requires n <= |recipients|
    ensures |replies| == n
  {
    ReadAs(m.render, RcptAnswers(c.cfg, recipients, n))
  }

  /** After the first `n` recipients: what the client has read in reply to its commands ... */
  predicate RcptsHeard(m: Machine, c: Connection, conn: Conn, recipients: seq<string>, commands: seq<string>, n: nat, conn': Conn)
    requires n <= |recipients| == |commands|
  {
    AskEach(m.server, conn, commands, n) == Asked(conn', ReadRcpts(m, c, recipients, n))
  }

  /** ... and what the server has recorded. */
  ghost predicate RcptsRecorded(cfg: Config, run: Run, recipients: seq<string>, n: nat, run': Run)
    requires n <= |recipients|
  {
    && run'.session == WithRecipients(run.session, AcceptedOf(cfg, recipients, n))
    && run'.spooled == run.spooled
    && Replies(run'.log) == Replies(run.log) + RcptAnswers(cfg, recipients, n)
  }

  lemma {:induction false} RcptsHeardNext(m: Machine, c: Connection, conn: Conn, recipients: seq<string>, commands: seq<string>,
                                          n: nat, conn1: Conn, a: Answer, conn': Conn)
    requires 0 < n <= |recipients| == |commands| && RcptsHeard(m, c, conn, recipients, commands, n - 1, conn1)
    requires a == RcptAnswer(c.cfg, AcceptedOf(c.cfg, recipients, n - 1), recipients[n - 1])
    requires Ask(m.server, conn1, commands[n - 1]) == (Ok(m.render(a)), conn')
    ensures RcptsHeard(m, c, conn, recipients, commands, n, conn')
  {
    var answers := RcptAnswers(c.cfg, recipients, n - 1);
    ReadAsNext(m.render, answers, a);
    EachNext(m.server, conn, commands, n, conn1, ReadAs(m.render, answers), Ok(m.render(a)), conn');
  }

  lemma RcptsRecordedNext(cfg: Config, run: Run, recipients: seq<string>, n: nat, run1: Run, a: Answer, run': Run)
    requires 0 < n <= |recipients| && RcptsRecorded(cfg, run, recipients, n - 1, run1)
    requires a == RcptAnswer(cfg, AcceptedOf(cfg, recipients, n - 1), recipients[n - 1])
    requires run'.session == WithRecipients(run.session, AcceptedOf(cfg, recipients, n))
    requires run'.spooled == run1.spooled && Replies(run'.log) == Replies(run1.log) + [a]
    ensures RcptsRecorded(cfg, run, recipients, n, run')
  {
    assert Replies(run.log) + RcptAnswers(cfg, recipients, n - 1) + [a]
        == Replies(run.log) + (RcptAnswers(cfg, recipients, n - 1) + [a]);
  }

  lemma NoneRecorded(cfg: Config, run: Run, recipients: seq<string>)
    ensures RcptsRecorded(cfg, run, recipients, 0, run)
  {
    assert Replies(run.log) + [] == Replies(run.log);
  }

  predicate AllSendable(recipients: seq<string>) {
    forall i :: 0 <= i < |recipients| ==> Sendable(recipients[i])
  }

  /** Recipients one after another; `at` are all the lines sent so far. */
  lemma {:induction false} RcptsAnswered(m: Machine, c: Connection, conn: Conn, lines: seq<string>, run: Run,
                                         recipients: seq<string>, commands: seq<string>, n: nat)
    returns (conn': Conn, at: seq<string>, run': Run)
    requires Serves(m, c) && Standing(m, conn, lines, run, []) && SenderOnly(run.session)
    requires n <= |recipients| && AllSendable(recipients) && commands == RcptLines(recipients)
    ensures RcptsHeard(m, c, conn, recipients, commands, n, conn')
    ensures Standing(m, conn', at, run', []) && |at| == |lines| + n
    ensures RcptsRecorded(c.cfg, run, recipients, n, run')
  {
    if n == 0 {
      conn', at, run' := conn, lines, run;
      NoneRecorded(c.cfg, run, recipients);
    } else {
      var conn1, at1, run1 := RcptsAnswered(m, c, conn, lines, run, recipients, commands, n - 1);
      var accepted := AcceptedOf(c.cfg, recipients, n - 1);
      var line := commands[n - 1];
      conn', run' := AskRcpt(m, c, conn1, at1, run1, run.session, accepted, recipients[n - 1]);
      at := at1 + [line];
      var a := RcptAnswer(c.cfg, accepted, recipients[n - 1]);
      RcptsHeardNext(m, c, conn, recipients, commands, n, conn1, a, conn');
      RcptsRecordedNext(c.cfg, run, recipients, n, run1, a, run');
    }
  }

  lemma EachNext(server: Server, conn: Conn, commands: seq<string>, n: nat, conn1: Conn, replies: seq<ReadResult>,
                 reply: ReadResult, conn': Conn)
    requires 0 < n <= |commands|
    requires AskEach(server, conn, commands, n - 1) == Asked(conn1, replies) && !Panicking(replies)
    requires Ask(server, conn1, commands[n - 1]) == (reply, conn')
    ensures AskEach(server, conn, commands, n) == Asked(conn', replies + [reply])
  {
  }

  lemma ReadAsNext(render: Wording, answers: seq<Answer>, a: Answer)
    ensures ReadAs(render, answers + [a]) == ReadAs(render, answers) + [Ok(render(a))]
    ensures !Panicking(ReadAs(render, answers))
  {
  }

  // ---------------------------------------------------------------- the outcome

  function FaultOf(r: Result<(), C.ParseError>): Answer {
    match r
    case Err(InvalidAddress(problem)) => BadAddress(problem)
    case _ => NoCommand
  }

  /** What becomes of recipient `i`: its own refusal if it had one, else what the message drew. */
  function RecipientOutcome(cfg: Config, render: Wording, recipients: seq<string>, body: string, i: nat): RecipientResult
    requires i < |recipients|
  {
    var a := RcptAnswer(cfg, AcceptedOf(cfg, recipients, i), recipients[i]);
    if a != Accepted then Failure(Rejection(render(a), RcptStage))
    else if |Normal(body)| > cfg.maxMessageSize then Failure(Rejection(render(TooLarge), BodyStage))
    else Success
  }

  function Outcomes(cfg: Config, render: Wording, recipients: seq<string>, body: string): Results {
    seq(|recipients|, i requires 0 <= i < |recipients| => (recipients[i], RecipientOutcome(cfg, render, recipients, body, i)))
  }

  function DeliveryOutcome(cfg: Config, render: Wording, sender: string, recipients: seq<string>, body: string): Result<Results, DeliveryError> {
    if C.ValidateAddress(sender).Err? then Err(Rejection(render(FaultOf(C.ValidateAddress(sender))), MailStage))
    else if |body| > cfg.maxMessageSize then Err(Rejection(render(TooLarge), MailStage))
    else Ok(Outcomes(cfg, render, recipients, body))
  }

  /** The answers after those to the recipients. */
  function LastAnswers(cfg: Config, recipients: seq<string>, id: string, left: bool): seq<Answer> {
    if AcceptedOf(cfg, recipients, |recipients|) == [] then [Goodbye]
    else [StartMail, Queued(id)] + if left then [Goodbye] else []
  }

  /** What the server has answered and spooled after a delivery whose message fits: `first` are its
      answers up to MAIL, `envelope` the envelope MAIL opened; `left` says whether the client got as
      far as QUIT after its message. */
  ghost predicate Served(cfg: Config, first: seq<Answer>, spooled: seq<Spooled>, envelope: Envelope, id: string,
                         recipients: seq<string>, body: string, left: bool, run: Run)
  {
    var accepted := AcceptedOf(cfg, recipients, |recipients|);
    && Replies(run.log) == first + RcptAnswers(cfg, recipients, |recipients|) + LastAnswers(cfg, recipients, id, left)
    && run.spooled == spooled + (if accepted == [] || body == "" then []
                                 else [Spooled(envelope.(id := id, recipients := accepted), Normal(body))])
  }

  /** The session when MAIL has just been accepted and no recipient is on record. */
  ghost predicate SenderOnly(s: Session) {
    s.state == MailFrom && s.envelope.recipients == [] && !s.closing
  }

  // ---------------------------------------------------------------- judging the recipients

  lemma {:induction false} SomeAccepted(cfg: Config, recipients: seq<string>, n: nat)
    requires n <= |recipients|
    ensures AcceptedOf(cfg, recipients, n) != [] <==> Accepted in RcptAnswers(cfg, recipients, n)
  {
    if n > 0 { SomeAccepted(cfg, recipients, n - 1); }
  }

  lemma RcptAnswersLast(cfg: Config, recipients: seq<string>, n: nat)
    requires 0 < n <= |recipients|
    ensures RcptAnswers(cfg, recipients, n)
         == RcptAnswers(cfg, recipients, n - 1) + [RcptAnswer(cfg, AcceptedOf(cfg, recipients, n - 1), recipients[n - 1])]
  {
  }

  lemma {:induction false} RcptAnswerAt(cfg: Config, recipients: seq<string>, n: nat, i: nat)
    requires i < n <= |recipients|
    ensures RcptAnswers(cfg, recipients, n)[i] == RcptAnswer(cfg, AcceptedOf(cfg, recipients, i), recipients[i])
  {
    if i < n - 1 { RcptAnswerAt(cfg, recipients, n - 1, i); }
    RcptAnswersLast(cfg, recipients, n);
  }

  lemma RcptAnswerCode(cfg: Config, accepted: seq<string>, recipient: string)
    ensures var a := RcptAnswer(cfg, accepted, recipient);
            200 <= Code(a) < 300 <==> a == Accepted
  {
  }

  lemma {:induction false} ReadAsPositive(cfg: Config, render: Wording, recipients: seq<string>)
    requires Coded(render)
    ensures AnyPositive(ReadAs(render, RcptAnswers(cfg, recipients, |recipients|)))
            <==> AcceptedOf(cfg, recipients, |recipients|) != []
    ensures !Panicking(ReadAs(render, RcptAnswers(cfg, recipients, |recipients|)))
  {
    var n := |recipients|;
    var answers := RcptAnswers(cfg, recipients, n);
    SomeAccepted(cfg, recipients, n);
    forall i | 0 <= i < n ensures IsPositive(ReadAs(render, answers)[i]) <==> answers[i] == Accepted {
      RcptAnswerAt(cfg, recipients, n, i);
      RcptAnswerCode(cfg, AcceptedOf(cfg, recipients, i), recipients[i]);
    }
  }

  lemma {:induction false} VerdictsAre(cfg: Config, render: Wording, recipients: seq<string>, body: string, final: Answer)
    requires Coded(render)
    requires if |Normal(body)| > cfg.maxMessageSize then final == TooLarge else final.Queued?
    ensures Verdicts(recipients, ReadAs(render, RcptAnswers(cfg, recipients, |recipients|)), Ok(render(final)))
         == Outcomes(cfg, render, recipients, body)
  {
    var n := |recipients|;
    forall i | 0 <= i < n
      ensures Verdict(Ok(render(RcptAnswers(cfg, recipients, n)[i])), Ok(render(final)))
           == RecipientOutcome(cfg, render, recipients, body, i)
    {
      RcptAnswerAt(cfg, recipients, n, i);
      RcptAnswerCode(cfg, AcceptedOf(cfg, recipients, i), recipients[i]);
    }
  }

  lemma {:induction false} NoneAccepted(cfg: Config, render: Wording, recipients: seq<string>, body: string)
    requires Coded(render)
    requires AcceptedOf(cfg, recipients, |recipients|) == []
    ensures RcptResults(recipients, ReadAs(render, RcptAnswers(cfg, recipients, |recipients|)))
         == Outcomes(cfg, render, recipients, body)
  {
    var n := |recipients|;
    SomeAccepted(cfg, recipients, n);
    forall i | 0 <= i < n
      ensures RcptResult(Ok(render(RcptAnswers(cfg, recipients, n)[i]))) == RecipientOutcome(cfg, render, recipients, body, i)
    {
      RcptAnswerAt(cfg, recipients, n, i);
      RcptAnswerCode(cfg, AcceptedOf(cfg, recipients, i), recipients[i]);
    }
  }

  // ---------------------------------------------------------------- the conversation

  lemma QuitStep(cfg: Config, s: Session, freshId: string)
    ensures var o := ParsedStep(cfg, s, Line(C.Quit), Ok(C.Quit), freshId);
            o.exchange.reply == Some(Goodbye) && o.spooled.None?
  {
  }

  /** QUIT after a message or without one. */
  lemma LeaveReady(m: Machine, c: Connection, conn: Conn, lines: seq<string>, run: Run, results: Results, rcpts: seq<ReadResult>,
                   final: Option<ReadResult>)
    returns (run': Run)
    requires Serves(m, c) && Standing(m, conn, lines, run, [])
    requires !run.session.closing && run.session.state != ReceivingData
    ensures var a := Leave(m.server, conn, results, rcpts, final);
            a.result == Ok(results) && Standing(m, a.conn, lines + [Line(C.Quit)], run', [])
    ensures run'.spooled == run.spooled && Replies(run'.log) == Replies(run.log) + [Goodbye]
  {
    BareLines();
    QuitParses();
    var o := ParsedStep(c.cfg, run.session, Line(C.Quit), Ok(C.Quit), c.ids(|lines|));
    QuitStep(c.cfg, run.session, c.ids(|lines|));
    var conn';
    conn', run' := AskCommand(m, c, conn, lines, run, Line(C.Quit), Ok(C.Quit), o, Goodbye);
  }

  /** The session when DATA has been answered with 354. */
  ghost predicate Collecting(s: Session, e: Envelope) {
    s.state == ReceivingData && !s.closing && s.buffer == "" && s.envelope == e && LfFree(e.id)
  }

  lemma DataAccepted(cfg: Config, s: Session, freshId: string)
    requires s.state == RcptTo && !s.closing && LfFree(freshId)
    ensures var o := ParsedStep(cfg, s, Line(C.Data), Ok(C.Data), freshId);
            && o.exchange.reply == Some(StartMail) && CleanAnswer(StartMail) && o.spooled.None?
            && Collecting(o.session, s.envelope.(id := freshId))
  {
  }

  /** DATA, answered with 354. */
  lemma AskData(m: Machine, c: Connection, conn: Conn, lines: seq<string>, run: Run) returns (conn': Conn, run': Run)
    requires Serves(m, c) && Standing(m, conn, lines, run, [])
    requires !run.session.closing && run.session.state == RcptTo
    ensures Ask(m.server, conn, Line(C.Data)) == (Ok(m.render(StartMail)), conn') && m.render(StartMail).code == 354
    ensures Standing(m, conn', lines + [Line(C.Data)], run', [])
    ensures Collecting(run'.session, run.session.envelope.(id := c.ids(|lines|)))
    ensures run'.spooled == run.spooled && Replies(run'.log) == Replies(run.log) + [StartMail]
  {
    assert ServesAt(m, c, |lines|);
    BareLines();
    DataParses();
    var o := ParsedStep(c.cfg, run.session, Line(C.Data), Ok(C.Data), c.ids(|lines|));
    DataAccepted(c.cfg, run.session, c.ids(|lines|));
    conn', run' := AskCommand(m, c, conn, lines, run, Line(C.Data), Ok(C.Data), o, StartMail);
  }

  lemma SendMessageIs(server: Server, conn: Conn, recipients: seq<string>, rcpts: seq<ReadResult>, body: string,
                      go: Response, conn1: Conn, final: Response, conn2: Conn)
    requires |rcpts| == |recipients|
    requires Ask(server, conn, Line(C.Data)) == (Ok(go), conn1) && go.code == 354
    requires Ask(server, conn1, StuffBody(body)) == (Ok(final), conn2)
    ensures SendMessage(server, conn, recipients, rcpts, body)
         == Leave(server, conn2, Verdicts(recipients, rcpts, Ok(final)), rcpts, Some(Ok(final)))
  {
  }

  lemma {:induction false} FlushedWithoutLast(log: seq<Exchange>, before: seq<Answer>, a: Answer)
    requires EndsUnflushed(log) && Replies(log) == before + [a]
    ensures Flushed(log) == before
  {
    assert Replies(log)[..|Replies(log)| - 1] == before;
  }

  /** The text of a message that fits, its reply being flushed ... */
  lemma BodyFits(m: Machine, c: Connection, conn: Conn, lines: seq<string>, run: Run, body: string) returns (conn': Conn, run': Run)
    requires Serves(m, c) && Standing(m, conn, lines, run, []) && m.flushesText
    requires Collecting(run.session, run.session.envelope) && |Normal(body)| <= c.cfg.maxMessageSize && IsUtf8(body)
    ensures var e := run.session.envelope;
            && Ask(m.server, conn, StuffBody(body)) == (Ok(m.render(Queued(e.id))), conn')
            && Standing(m, conn', lines + BodyLines(body), run', [])
            && run'.session == run.session.(state := Ready)
            && run'.spooled == run.spooled + (if body == "" then [] else [Spooled(e, Normal(body))])
            && Replies(run'.log) == Replies(run.log) + [Queued(e.id)]
  {
    assert ServesAt(m, c, |lines|);
    var queued := Queued(run.session.envelope.id);
    TextFits(m, c.cfg, lines, body);
    run' := m.after(lines + BodyLines(body));
    assert ShowsAt(m, run'.log);
    assert [queued] + [] == [queued];
    assert WordsWell(m.render, queued);
    conn' := SendBody(m, conn, lines, run, body, run', queued, []);
  }

  /** ... and its reply being left in the write buffer. */
  lemma BodyUnanswered(m: Machine, c: Connection, conn: Conn, lines: seq<string>, run: Run, body: string)
    returns (conn': Conn, run': Run)
    requires Serves(m, c) && Standing(m, conn, lines, run, []) && !m.flushesText
    requires Collecting(run.session, run.session.envelope) && |Normal(body)| <= c.cfg.maxMessageSize && IsUtf8(body)
    ensures var e := run.session.envelope;
            && Ask(m.server, conn, StuffBody(body)) == (Err(TimedOut), conn')
            && Holding(m, conn', lines + BodyLines(body), run', [])
            && run'.spooled == run.spooled + (if body == "" then [] else [Spooled(e, Normal(body))])
            && Replies(run'.log) == Replies(run.log) + [Queued(e.id)]
  {
    assert ServesAt(m, c, |lines|);
    TextFits(m, c.cfg, lines, body);
    run' := m.after(lines + BodyLines(body));
    assert ShowsAt(m, run'.log);
    FlushedWithoutLast(run'.log, Replies(run.log), Queued(run.session.envelope.id));
    conn' := SendBodyUnanswered(m, conn, lines, run, body, run');
  }

  lemma RefusalRead(m: Machine, c: Connection, conn: Conn, lines: seq<string>, run: Run, body: string)
    returns (conn': Conn, run': Run, rest: seq<Answer>)
    requires Serves(m, c) && Standing(m, conn, lines, run, [])
    requires Collecting(run.session, run.session.envelope) && |Normal(body)| > c.cfg.maxMessageSize && IsUtf8(body)
    ensures Ask(m.server, conn, StuffBody(body)) == (Ok(m.render(TooLarge)), conn')
    ensures Holding(m, conn', lines + BodyLines(body), run', rest)
    ensures m.visible(run'.log) == Replies(run.log) + ([TooLarge] + rest)
  {
    assert ServesAt(m, c, |lines|);
    rest := TextOverflows(m, c.cfg, lines, body);
    run' := m.after(lines + BodyLines(body));
    assert WordsWell(m.render, TooLarge);
    conn' := SendBody(m, conn, lines, run, body, run', TooLarge, rest);
  }

  lemma VisibleEncodable(m: Machine, c: Connection, conn: Conn, lines: seq<string>, run: Run, rest: seq<Answer>)
    requires Serves(m, c) && Holding(m, conn, lines, run, rest)
    ensures EncodableAll(m.render, m.visible(run.log))
  {
    assert ServesAt(m, c, |lines|);
    AllPolite(m, c.cfg, lines);
    VisibleAtMost(m, run.log);
    var seen := m.visible(run.log);
    forall i | 0 <= i < |seen| ensures EncodableAt(m.render, seen[i]) {
      assert seen[i] == Replies(run.log)[i];
      assert EncodableAt(m.render, Replies(run.log)[i]);
    }
  }

  lemma RestEncodable(render: Wording, answers: seq<Answer>, before: seq<Answer>, rest: seq<Answer>)
    requires EncodableAll(render, answers) && answers == before + ([TooLarge] + rest)
    ensures EncodableAll(render, rest)
  {
    SuffixEncodable(render, before, [TooLarge] + rest);
    SuffixEncodable(render, [TooLarge], rest);
  }

  lemma QuitReads(m: Machine, c: Connection, conn: Conn, lines: seq<string>, run: Run, rest: seq<Answer>)
    requires Serves(m, c) && Holding(m, conn, lines, run, rest) && EncodableAll(m.render, rest)
    ensures !Panics(Ask(m.server, conn, Line(C.Quit)).0)
  {
    assert ServesAt(m, c, |lines|);
    BareLines();
    QuitNeverPanics(m, c.cfg, conn, lines, run, rest, Line(C.Quit));
  }

  /** The text of a message that does not fit. */
  lemma BodyOverflows(m: Machine, c: Connection, conn: Conn, lines: seq<string>, run: Run, body: string) returns (conn': Conn)
    requires Serves(m, c) && Standing(m, conn, lines, run, [])
    requires Collecting(run.session, run.session.envelope) && |Normal(body)| > c.cfg.maxMessageSize && IsUtf8(body)
    ensures Ask(m.server, conn, StuffBody(body)) == (Ok(m.render(TooLarge)), conn')
    ensures !Panics(Ask(m.server, conn', Line(C.Quit)).0)
  {
    var rest, run';
    conn', run', rest := RefusalRead(m, c, conn, lines, run, body);
    VisibleEncodable(m, c, conn', lines + BodyLines(body), run', rest);
    RestEncodable(m.render, m.visible(run'.log), Replies(run.log), rest);
    QuitReads(m, c, conn', lines + BodyLines(body), run', rest);
  }

  lemma AppendThree<T>(s: seq<T>, x: T, y: T, z: T)
    ensures s + [x] + [y] + [z] == s + [x, y, z]
  {
  }

  /** The conversation after the 354, for a message that fits: what the client concludes and how it leaves. */
  lemma TextThenQuit(m: Machine, c: Connection, conn: Conn, lines: seq<string>, run: Run, body: string, results: Results,
                     rcpts: seq<ReadResult>, final: Option<ReadResult>)
    returns (conn': Conn, a: Attempt, lines': seq<string>, run': Run)
    requires Serves(m, c) && Standing(m, conn, lines, run, []) && m.flushesText
    requires Collecting(run.session, run.session.envelope) && |Normal(body)| <= c.cfg.maxMessageSize && IsUtf8(body)
    ensures Ask(m.server, conn, StuffBody(body)) == (Ok(m.render(Queued(run.session.envelope.id))), conn')
    ensures a == Leave(m.server, conn', results, rcpts, final) && a.result == Ok(results)
    ensures Standing(m, a.conn, lines', run', [])
    ensures Replies(run'.log) == Replies(run.log) + [Queued(run.session.envelope.id)] + [Goodbye]
    ensures run'.spooled == run.spooled + (if body == "" then [] else [Spooled(run.session.envelope, Normal(body))])
  {
    var run1;
    conn', run1 := BodyFits(m, c, conn, lines, run, body);
    run' := LeaveReady(m, c, conn', lines + BodyLines(body), run1, results, rcpts, final);
    a := Leave(m.server, conn', results, rcpts, final);
    lines' := lines + BodyLines(body) + [Line(C.Quit)];
  }

  /** DATA, a message that fits, and QUIT. */
  lemma MessageFits(m: Machine, c: Connection, conn: Conn, lines: seq<string>, run: Run, recipients: seq<string>,
                    rcpts: seq<ReadResult>, body: string)
    returns (lines': seq<string>, run': Run)
    requires Serves(m, c) && Standing(m, conn, lines, run, []) && |rcpts| == |recipients| && m.flushesText
    requires !run.session.closing && run.session.state == RcptTo && |Normal(body)| <= c.cfg.maxMessageSize && IsUtf8(body)
    ensures var a := SendMessage(m.server, conn, recipients, rcpts, body);
            && a.result == Ok(Verdicts(recipients, rcpts, Ok(m.render(Queued(c.ids(|lines|))))))
            && Standing(m, a.conn, lines', run', [])
    ensures Replies(run'.log) == Replies(run.log) + [StartMail, Queued(c.ids(|lines|)), Goodbye]
    ensures run'.spooled == run.spooled + (if body == "" then [] else
              [Spooled(run.session.envelope.(id := c.ids(|lines|)), Normal(body))])
  {
    var queued := Queued(c.ids(|lines|));
    var final := m.render(queued);
    var results := Verdicts(recipients, rcpts, Ok(final));
    var conn1, run1 := AskData(m, c, conn, lines, run);
    var conn2, a;
    conn2, a, lines', run' :=
      TextThenQuit(m, c, conn1, lines + [Line(C.Data)], run1, body, results, rcpts, Some(Ok(final)));
    SendMessageIs(m.server, conn, recipients, rcpts, body, m.render(StartMail), conn1, final, conn2);
    AppendThree(Replies(run.log), StartMail, queued, Goodbye);
  }

  lemma SendMessageUnanswered(server: Server, conn: Conn, recipients: seq<string>, rcpts: seq<ReadResult>, body: string,
                              go: Response, conn1: Conn, e: ReadError, conn2: Conn)
    requires |rcpts| == |recipients|
    requires Ask(server, conn, Line(C.Data)) == (Ok(go), conn1) && go.code == 354
    requires Ask(server, conn1, StuffBody(body)) == (Err(e), conn2)
    ensures SendMessage(server, conn, recipients, rcpts, body) == Attempt(Err(ErrorOf(e)), conn2, rcpts, Some(Err(e)))
  {
  }

  /** DATA and a message whose text is no text: the handler hangs up on it. */
  lemma MessageBroken(m: Machine, c: Connection, conn: Conn, lines: seq<string>, run: Run, recipients: seq<string>,
                      rcpts: seq<ReadResult>, body: string)
    returns (lines': seq<string>, run': Run)
    requires Serves(m, c) && Standing(m, conn, lines, run, []) && |rcpts| == |recipients|
    requires !run.session.closing && run.session.state == RcptTo && !IsUtf8(body) && |LegiblePart(body)| <= c.cfg.maxMessageSize
    ensures var a := SendMessage(m.server, conn, recipients, rcpts, body);
            a.result == Err(IoError) && lines' == Handled(a.conn.sent) && run' == m.after(lines')
    ensures run'.spooled == run.spooled && Replies(run'.log) == Replies(run.log) + [StartMail]
  {
    assert ServesAt(m, c, |lines|);
    var conn1, run1 := AskData(m, c, conn, lines, run);
    var conn2 := SendIllegible(m, c.cfg, conn1, lines + [Line(C.Data)], run1, body);
    SendMessageUnanswered(m.server, conn, recipients, rcpts, body, m.render(StartMail), conn1, ConnectionClosed, conn2);
    lines', run' := Handled(conn2.sent), m.after(Handled(conn2.sent));
  }

  /** Whatever comes before the bad line, the client does not wait for its time to run out. */
  lemma {:induction false} BrokenNeverTimesOut(m: Machine, c: Connection, conn: Conn, lines: seq<string>, run: Run, recipients: seq<string>,
                            rcpts: seq<ReadResult>, body: string)
    requires Serves(m, c) && Standing(m, conn, lines, run, []) && |rcpts| == |recipients|
    requires !run.session.closing && run.session.state == RcptTo && !IsUtf8(body)
    ensures SendMessage(m.server, conn, recipients, rcpts, body).result != Err(Timeout)
  {
    var conn1, run1 := AskData(m, c, conn, lines, run);
    BodyLinesAreLines(body);
    BodyBytes(body);
    BodyUtf8(body);
    SendHangsUp(m, conn1, lines + [Line(C.Data)], run1, [], BodyLines(body), StuffBody(body));
    EndedNeverTimesOut(Send(m.server, conn1, StuffBody(body)));
    NoTimeoutFrom(m.server, conn, recipients, rcpts, body, m.render(StartMail), conn1);
  }

  lemma NoTimeoutFrom(server: Server, conn: Conn, recipients: seq<string>, rcpts: seq<ReadResult>, body: string, go: Response,
                      conn1: Conn)
    requires |rcpts| == |recipients|
    requires Ask(server, conn, Line(C.Data)) == (Ok(go), conn1) && go.code == 354
    requires Ask(server, conn1, StuffBody(body)).0 != Err(TimedOut)
    ensures SendMessage(server, conn, recipients, rcpts, body).result != Err(Timeout)
  {
  }

  /** DATA and a message that fits, whose reply the client waits for in vain. */
  lemma MessageUnanswered(m: Machine, c: Connection, conn: Conn, lines: seq<string>, run: Run, recipients: seq<string>,
                          rcpts: seq<ReadResult>, body: string)
    returns (lines': seq<string>, run': Run)
    requires Serves(m, c) && Standing(m, conn, lines, run, []) && |rcpts| == |recipients| && !m.flushesText
    requires !run.session.closing && run.session.state == RcptTo && |Normal(body)| <= c.cfg.maxMessageSize && IsUtf8(body)
    ensures var a := SendMessage(m.server, conn, recipients, rcpts, body);
            a.result == Err(Timeout) && Holding(m, a.conn, lines', run', [])
    ensures Replies(run'.log) == Replies(run.log) + [StartMail, Queued(c.ids(|lines|))]
    ensures run'.spooled == run.spooled + (if body == "" then [] else
              [Spooled(run.session.envelope.(id := c.ids(|lines|)), Normal(body))])
  {
    var conn1, run1 := AskData(m, c, conn, lines, run);
    var conn2;
    conn2, run' := BodyUnanswered(m, c, conn1, lines + [Line(C.Data)], run1, body);
    lines' := lines + [Line(C.Data)] + BodyLines(body);
    SendMessageUnanswered(m.server, conn, recipients, rcpts, body, m.render(StartMail), conn1, TimedOut, conn2);
    AppendTwo(Replies(run.log), StartMail, Queued(c.ids(|lines|)));
  }

  lemma AppendTwo<T>(s: seq<T>, x: T, y: T)
    ensures s + [x] + [y] == s + [x, y]
  {
  }

  /** DATA, a message the server refuses, and QUIT. */
  lemma {:induction false} MessageOverflows(m: Machine, c: Connection, conn: Conn, lines: seq<string>, run: Run, recipients: seq<string>,
                         rcpts: seq<ReadResult>, body: string)
    requires Serves(m, c) && Standing(m, conn, lines, run, []) && |rcpts| == |recipients|
    requires !run.session.closing && run.session.state == RcptTo && |Normal(body)| > c.cfg.maxMessageSize && IsUtf8(body)
    ensures SendMessage(m.server, conn, recipients, rcpts, body).result
         == Ok(Verdicts(recipients, rcpts, Ok(m.render(TooLarge))))
  {
    var conn1, run1 := AskData(m, c, conn, lines, run);
    var conn2 := BodyOverflows(m, c, conn1, lines + [Line(C.Data)], run1, body);
    Refused(m.server, conn, recipients, rcpts, body, m.render(StartMail), conn1, m.render(TooLarge), conn2);
  }

  /** Some line of a message's text is taken as a command if and only if the message does not fit.  The
      session has then started over and nothing is spooled; `before` is what was sent until
      then, and at least the final dot is still to come. */
  lemma TextBecomesCommands(m: Machine, c: Connection, conn: Conn, lines: seq<string>, run: Run, body: string)
    returns (n: nat, before: seq<string>)
    requires Serves(m, c) && Standing(m, conn, lines, run, [])
    requires !run.session.closing && run.session.state == RcptTo && IsUtf8(body)
    ensures (exists k :: 0 <= k < |BodyLines(body)| && IsCommand(m, lines + [Line(C.Data)], BodyLines(body), k))
            <==> |Normal(body)| > c.cfg.maxMessageSize
    ensures |Normal(body)| > c.cfg.maxMessageSize ==>
              && n < |BodyLines(body)| && before == lines + [Line(C.Data)] + BodyLines(body)[..n]
              && StartsOver(m, c, run, before, BodyLines(body)[n])
  {
    var conn1, run1 := AskData(m, c, conn, lines, run);
    assert ServesAt(m, c, |lines|);
    CommandsIff(m, c.cfg, lines + [Line(C.Data)], body);
    n, before := 0, [];
    if |Normal(body)| > c.cfg.maxMessageSize {
      n, before := TurnsAround(m, c, lines + [Line(C.Data)], run1, body);
      TakenAsCommand(m, c, before, BodyLines(body)[n]);
    }
  }

  /** After `before` the session is a new one, which handles `next` as a command. */
  ghost predicate StartsOver(m: Machine, c: Connection, run: Run, before: seq<string>, next: string) {
    var turned := m.after(before);
    && turned.session.state == Ready && turned.session.envelope.recipients == [] && turned.spooled == run.spooled
    && m.after(before + [next])
       == Advance(turned, ParsedStep(c.cfg, turned.session, next, C.Parse(Trim(next)), c.ids(|before|)))
  }

  lemma TurnsAround(m: Machine, c: Connection, at: seq<string>, run: Run, body: string) returns (n: nat, before: seq<string>)
    requires Serves(m, c) && run == m.after(at) && Collecting(run.session, run.session.envelope)
    requires |Normal(body)| > c.cfg.maxMessageSize
    ensures n < |BodyLines(body)| && before == at + BodyLines(body)[..n]
    ensures var turned := m.after(before);
            && turned.session.state == Ready && !turned.session.closing
            && turned.session.envelope.recipients == [] && turned.spooled == run.spooled
  {
    assert ServesAt(m, c, |at|);
    n := OverflowTurns(m, c.cfg, at, body);
    before := at + BodyLines(body)[..n];
  }

  lemma TakenAsCommand(m: Machine, c: Connection, lines: seq<string>, line: string)
    requires Serves(m, c)
    requires var s := m.after(lines).session; !s.closing && s.state != ReceivingData
    ensures var before := m.after(lines);
            m.after(lines + [line])
            == Advance(before, ParsedStep(c.cfg, before.session, line, C.Parse(Trim(line)), c.ids(|lines|)))
  {
    assert ServesAt(m, c, |lines|);
    assert HandlesAt(m, c, m.after(lines).session, line, |lines|);
    RunNext(m, lines, line);
  }

  lemma Refused(server: Server, conn: Conn, recipients: seq<string>, rcpts: seq<ReadResult>, body: string,
                go: Response, conn1: Conn, final: Response, conn2: Conn)
    requires |rcpts| == |recipients|
    requires Ask(server, conn, Line(C.Data)) == (Ok(go), conn1) && go.code == 354
    requires Ask(server, conn1, StuffBody(body)) == (Ok(final), conn2)
    requires !Panics(Ask(server, conn2, Line(C.Quit)).0)
    ensures SendMessage(server, conn, recipients, rcpts, body).result == Ok(Verdicts(recipients, rcpts, Ok(final)))
  {
    SendMessageIs(server, conn, recipients, rcpts, body, go, conn1, final, conn2);
  }

  lemma SuffixEncodable(render: Wording, before: seq<Answer>, rest: seq<Answer>)
    requires EncodableAll(render, before + rest)
    ensures EncodableAll(render, rest)
  {
    forall i | 0 <= i < |rest| ensures Encodable(render(rest[i])) {
      assert rest[i] == (before + rest)[|before| + i];
    }
  }

  lemma {:induction false} AfterMailIs(server: Server, conn: Conn, recipients: seq<string>, body: string, conn1: Conn,
                    replies: seq<ReadResult>)
    requires AskEach(server, conn, RcptLines(recipients), |recipients|) == Asked(conn1, replies)
    requires !Panicking(replies) && |replies| == |recipients|
    ensures AnyPositive(replies) ==>
              AfterMail(server, conn, recipients, body) == SendMessage(server, conn1, recipients, replies, body)
    ensures !AnyPositive(replies) ==>
              AfterMail(server, conn, recipients, body) == Leave(server, conn1, RcptResults(recipients, replies), replies, None)
  {
  }

  lemma {:induction false} FitsServed(cfg: Config, run: Run, run1: Run, recipients: seq<string>, id: string, body: string, left: bool, run': Run)
    requires RcptsRecorded(cfg, run, recipients, |recipients|, run1)
    requires SenderOnly(run.session) && AcceptedOf(cfg, recipients, |recipients|) != []
    requires Sent(run1, run1.session.envelope, body, id, left, run')
    ensures Served(cfg, Replies(run.log), run.spooled, run.session.envelope, id, recipients, body, left, run')
  {
  }

  /** Once some recipient has been accepted the server is ready for DATA ... */
  lemma {:induction false} ReadyForData(cfg: Config, run: Run, recipients: seq<string>, run1: Run)
    requires RcptsRecorded(cfg, run, recipients, |recipients|, run1) && SenderOnly(run.session)
    ensures !run1.session.closing && run1.session.state != ReceivingData
    ensures AcceptedOf(cfg, recipients, |recipients|) != [] ==> run1.session.state == RcptTo
  {
  }

  /** ... and the client goes on to the message; otherwise it leaves. */
  lemma GoesOn(m: Machine, c: Connection, conn: Conn, recipients: seq<string>, commands: seq<string>, body: string, conn1: Conn)
    requires Serves(m, c) && commands == RcptLines(recipients)
    requires RcptsHeard(m, c, conn, recipients, commands, |recipients|, conn1)
    ensures IsLastStep(m, c, conn1, recipients, body, AfterMail(m.server, conn, recipients, body))
  {
    var replies := ReadRcpts(m, c, recipients, |recipients|);
    ServesCoded(m, c);
    ReadAsPositive(c.cfg, m.render, recipients);
    AfterMailIs(m.server, conn, recipients, body, conn1, replies);
  }

  /** The conversation from the answers to the recipients on. */
  predicate IsLastStep(m: Machine, c: Connection, conn: Conn, recipients: seq<string>, body: string, a: Attempt) {
    a == LastStep(m, c, conn, recipients, body, ReadRcpts(m, c, recipients, |recipients|))
  }

  /** What the client concludes from the answer to the message. */
  lemma {:induction false} Concluded(cfg: Config, render: Wording, recipients: seq<string>, body: string, replies: seq<ReadResult>, final: Answer)
    requires Coded(render) && |replies| == |recipients|
    requires replies == ReadAs(render, RcptAnswers(cfg, recipients, |recipients|))
    requires if |Normal(body)| > cfg.maxMessageSize then final == TooLarge else final.Queued?
    ensures Verdicts(recipients, replies, Ok(render(final))) == Outcomes(cfg, render, recipients, body)
  {
    VerdictsAre(cfg, render, recipients, body, final);
  }

  lemma ServesCoded(m: Machine, c: Connection)
    requires Serves(m, c)
    ensures Coded(m.render)
  {
    assert ServesAt(m, c, 0);
  }

  /** The message has been sent and taken, and the client has said QUIT or not. */
  ghost predicate Sent(run: Run, envelope: Envelope, body: string, id: string, left: bool, run': Run) {
    && Replies(run'.log) == Replies(run.log) + ([StartMail, Queued(id)] + if left then [Goodbye] else [])
    && run'.spooled == run.spooled + (if body == "" then [] else [Spooled(envelope.(id := id), Normal(body))])
  }

  lemma MessageSent(m: Machine, c: Connection, conn: Conn, at: seq<string>, run: Run, recipients: seq<string>,
                    body: string, replies: seq<ReadResult>)
    returns (lines': seq<string>, run': Run)
    requires Serves(m, c) && Standing(m, conn, at, run, []) && |replies| == |recipients| && m.flushesText
    requires !run.session.closing && run.session.state == RcptTo && |Normal(body)| <= c.cfg.maxMessageSize && IsUtf8(body)
    requires replies == ReadAs(m.render, RcptAnswers(c.cfg, recipients, |recipients|))
    ensures var a := SendMessage(m.server, conn, recipients, replies, body);
            a.result == Ok(Outcomes(c.cfg, m.render, recipients, body)) && Holding(m, a.conn, lines', run', [])
    ensures Sent(run, run.session.envelope, body, c.ids(|at|), true, run')
  {
    lines', run' := MessageFits(m, c, conn, at, run, recipients, replies, body);
    ServesCoded(m, c);
    Concluded(c.cfg, m.render, recipients, body, replies, Queued(c.ids(|at|)));
    assert [StartMail, Queued(c.ids(|at|))] + [Goodbye] == [StartMail, Queued(c.ids(|at|)), Goodbye];
  }

  lemma MessageLost(m: Machine, c: Connection, conn: Conn, at: seq<string>, run: Run, recipients: seq<string>,
                    body: string, replies: seq<ReadResult>)
    returns (lines': seq<string>, run': Run)
    requires Serves(m, c) && Standing(m, conn, at, run, []) && |replies| == |recipients| && !m.flushesText
    requires !run.session.closing && run.session.state == RcptTo && |Normal(body)| <= c.cfg.maxMessageSize && IsUtf8(body)
    ensures var a := SendMessage(m.server, conn, recipients, replies, body);
            a.result == Err(Timeout) && Holding(m, a.conn, lines', run', [])
    ensures Sent(run, run.session.envelope, body, c.ids(|at|), false, run')
  {
    lines', run' := MessageUnanswered(m, c, conn, at, run, recipients, replies, body);
    assert [StartMail, Queued(c.ids(|at|))] + [] == [StartMail, Queued(c.ids(|at|))];
  }

  lemma {:induction false} MessageRefused(m: Machine, c: Connection, conn: Conn, at: seq<string>, run: Run, recipients: seq<string>,
                       body: string, replies: seq<ReadResult>)
    requires Serves(m, c) && Standing(m, conn, at, run, []) && |replies| == |recipients|
    requires !run.session.closing && run.session.state == RcptTo && |Normal(body)| > c.cfg.maxMessageSize && IsUtf8(body)
    requires replies == ReadAs(m.render, RcptAnswers(c.cfg, recipients, |recipients|))
    ensures SendMessage(m.server, conn, recipients, replies, body).result == Ok(Outcomes(c.cfg, m.render, recipients, body))
  {
    MessageOverflows(m, c, conn, at, run, recipients, replies, body);
    ServesCoded(m, c);
    Concluded(c.cfg, m.render, recipients, body, replies, TooLarge);
  }

  lemma {:induction false} RefusedServed(cfg: Config, run: Run, run1: Run, recipients: seq<string>, id: string, body: string, left: bool, run': Run)
    requires RcptsRecorded(cfg, run, recipients, |recipients|, run1)
    requires AcceptedOf(cfg, recipients, |recipients|) == []
    requires run'.spooled == run1.spooled && Replies(run'.log) == Replies(run1.log) + [Goodbye]
    ensures Served(cfg, Replies(run.log), run.spooled, run.session.envelope, id, recipients, body, left, run')
  {
  }

  /** No recipient has been accepted: the client leaves. */
  lemma NothingSent(m: Machine, c: Connection, conn: Conn, at: seq<string>, run: Run, recipients: seq<string>, body: string,
                    replies: seq<ReadResult>)
    returns (lines': seq<string>, run': Run)
    requires Serves(m, c) && Standing(m, conn, at, run, []) && replies == ReadRcpts(m, c, recipients, |recipients|)
    requires !run.session.closing && run.session.state != ReceivingData
    requires AcceptedOf(c.cfg, recipients, |recipients|) == []
    ensures var a := Leave(m.server, conn, RcptResults(recipients, replies), replies, None);
            a.result == Ok(Outcomes(c.cfg, m.render, recipients, body)) && Standing(m, a.conn, lines', run', [])
    ensures run'.spooled == run.spooled && Replies(run'.log) == Replies(run.log) + [Goodbye]
  {
    ServesCoded(m, c);
    NoneAccepted(c.cfg, m.render, recipients, body);
    run' := LeaveReady(m, c, conn, at, run, RcptResults(recipients, replies), replies, None);
    lines' := at + [Line(C.Quit)];
  }

  // ---------------------------------------------------------------- before the recipients

  /** The greeting. */
  lemma GreetingRead(m: Machine, c: Connection) returns (conn: Conn)
    requires Serves(m, c)
    ensures Receive(Open(m.server)) == (Ok(m.render(Welcome)), conn)
    ensures Standing(m, conn, [], Run(m.start, [], []), [])
  {
    assert ServesAt(m, c, 0);
    OpenStanding(m);
    assert WordsWell(m.render, Welcome);
    ReceiveHolding(m, Open(m.server), [], Run(m.start, [], []), [Welcome]);
    conn := Receive(Open(m.server)).1;
  }

  lemma EhloStep(c: Connection, host: string, freshId: string)
    requires LfFree(host)
    ensures var o := ParsedStep(c.cfg, Fresh(c.peer), Line(C.Ehlo(host)), Ok(C.Ehlo(Trim(host))), freshId);
            && o.exchange.reply == Some(EhloAccepted(Trim(host))) && CleanAnswer(EhloAccepted(Trim(host)))
            && o.session == Greeted(Fresh(c.peer), Trim(host))
  {
    TrimLfFree(host);
  }

  /** Greeting and EHLO. */
  lemma Hello(m: Machine, c: Connection, host: string) returns (conn0: Conn, conn: Conn, run: Run)
    requires Serves(m, c) && m.start == Fresh(c.peer) && OneLine(host) && Trim(host) != ""
    ensures Receive(Open(m.server)) == (Ok(m.render(Welcome)), conn0)
    ensures Ask(m.server, conn0, Line(C.Ehlo(host))) == (Ok(m.render(EhloAccepted(Trim(host)))), conn)
    ensures Standing(m, conn, [Line(C.Ehlo(host))], run, [])
    ensures run.session == Greeted(Fresh(c.peer), Trim(host))
    ensures run.spooled == [] && Replies(run.log) == [EhloAccepted(Trim(host))]
  {
    var line := Line(C.Ehlo(host));
    var start := Run(m.start, [], []);
    conn0 := GreetingRead(m, c);
    HelloIsLine(host);
    HelloParses(host);
    EhloStep(c, host, c.ids(0));
    var parsed: Result<C.Command, C.ParseError> := Ok(C.Ehlo(Trim(host)));
    var o := ParsedStep(c.cfg, start.session, line, parsed, c.ids(0));
    conn, run := AskCommand(m, c, conn0, [], start, line, parsed, o, EhloAccepted(Trim(host)));
    assert Replies([]) == [] && [] + [line] == [line];
  }

  function MailAnswer(cfg: Config, sender: string, size: nat): Answer {
    if C.ValidateAddress(sender).Err? then FaultOf(C.ValidateAddress(sender))
    else if size > cfg.maxMessageSize then TooLarge
    else Accepted
  }

  function MailEnvelope(c: Connection, host: string, sender: string, size: nat): Envelope {
    Envelope("", sender, [], Some(Trim(host)), Some(c.peer), [SizeParameter(size)], 1)
  }

  lemma DeclaresTooMuchIff(size: nat, max: nat)
    requires size <= USIZE_MAX
    ensures DeclaresTooMuch([SizeParameter(size)], max) <==> size > max
  {
    SizeParameterIs(size);
    var p := SizeParameter(size);
    assert p in [p];
  }

  lemma MailStep(c: Connection, s: Session, sender: string, size: nat, line: string, freshId: string,
                 parsed: Result<C.Command, C.ParseError>)
    requires Sendable(sender) && size <= USIZE_MAX && s.state == Ready
    requires parsed == match C.ValidateAddress(sender)
                       case Ok(_) => Ok(C.MailFrom(sender, [SizeParameter(size)]))
                       case Err(e) => Err(e)
    ensures var o := ParsedStep(c.cfg, s, line, parsed, freshId);
            var a := MailAnswer(c.cfg, sender, size);
            && o.exchange.reply == Some(a) && CleanAnswer(a)
            && o.session == if a != Accepted then s else
                 s.(envelope := s.envelope.(sender := sender, mailParameters := [SizeParameter(size)]), state := MailFrom)
  {
    AddressClean(sender);
    DeclaresTooMuchIff(size, c.cfg.maxMessageSize);
  }

  lemma AskMail(m: Machine, c: Connection, host: string, conn: Conn, run: Run, sender: string, size: nat)
    returns (conn': Conn, run': Run, lines': seq<string>)
    requires Serves(m, c) && Standing(m, conn, [Line(C.Ehlo(host))], run, [])
    requires run.session == Greeted(Fresh(c.peer), Trim(host)) && Sendable(sender) && size <= USIZE_MAX
    ensures var a := MailAnswer(c.cfg, sender, size);
            var line := Line(C.MailFrom(sender, [SizeParameter(size)]));
            && Ask(m.server, conn, line) == (Ok(m.render(a)), conn')
            && Standing(m, conn', lines', run', []) && |lines'| == 2
            && (a == Accepted ==> SenderOnly(run'.session) && run'.session.envelope == MailEnvelope(c, host, sender, size))
            && run'.spooled == run.spooled && Replies(run'.log) == Replies(run.log) + [a]
  {
    var line := Line(C.MailFrom(sender, [SizeParameter(size)]));
    var a := MailAnswer(c.cfg, sender, size);
    var parsed := C.Parse(Trim(line));
    MailIsLine(sender, size);
    MailParses(sender, size);
    MailStep(c, run.session, sender, size, line, c.ids(1), parsed);
    var o := ParsedStep(c.cfg, run.session, line, parsed, c.ids(1));
    conn', run' := AskCommand(m, c, conn, [Line(C.Ehlo(host))], run, line, parsed, o, a);
    lines' := [Line(C.Ehlo(host))] + [line];
  }

  // ---------------------------------------------------------------- the theorem

  lemma ConverseIs(server: Server, host: string, sender: string, recipients: seq<string>, body: string,
                   conn0: Conn, greeting: ReadResult, conn1: Conn, hello: ReadResult, conn2: Conn, mail: ReadResult)
    requires Receive(Open(server)) == (greeting, conn0) && IsPositive(greeting)
    requires Ask(server, conn0, Line(C.Ehlo(host))) == (hello, conn1) && IsPositive(hello)
    requires Ask(server, conn1, Line(C.MailFrom(sender, [SizeParameter(|body|)]))) == (mail, conn2)
    ensures Converse(server, host, sender, recipients, body) ==
            if IsPositive(mail) then AfterMail(server, conn2, recipients, body)
            else Attempt(Err(Complaint(mail, MailStage)), conn2, [], None)
  {
  }

  lemma Positives(render: Wording, answer: Answer)
    requires Coded(render)
    ensures IsPositive(Ok(render(answer))) <==> 200 <= Code(answer) < 300
  {
  }

  lemma MailAnswerCode(cfg: Config, sender: string, size: nat)
    ensures 200 <= Code(MailAnswer(cfg, sender, size)) < 300 <==> MailAnswer(cfg, sender, size) == Accepted
  {
  }

  /** The client's last step: the message, if some recipient was accepted, and QUIT. */
  function LastStep(m: Machine, c: Connection, conn: Conn, recipients: seq<string>, body: string, replies: seq<ReadResult>): Attempt
    requires |replies| == |recipients|
  {
    if AcceptedOf(c.cfg, recipients, |recipients|) != [] then SendMessage(m.server, conn, recipients, replies, body)
    else Leave(m.server, conn, RcptResults(recipients, replies), replies, None)
  }

  /** The handler takes the message and keeps its reply to itself. */
  predicate LeftWaiting(m: Machine, cfg: Config, recipients: seq<string>, body: string) {
    !m.flushesText && AcceptedOf(cfg, recipients, |recipients|) != [] && |Normal(body)| <= cfg.maxMessageSize
  }

  /** A message is sent of which the handler, reading lines as text, cannot read some line. */
  predicate BreaksOff(cfg: Config, recipients: seq<string>, body: string) {
    AcceptedOf(cfg, recipients, |recipients|) != [] && !IsUtf8(body)
  }

  /** A message is sent of which, as far as the handler can read it, more arrives than is allowed. */
  predicate Overruns(cfg: Config, recipients: seq<string>, body: string) {
    AcceptedOf(cfg, recipients, |recipients|) != [] && |LegiblePart(body)| > cfg.maxMessageSize
  }

  /** How a conversation ends that got past MAIL: what the client reports and, unless the message
      overruns, what the server has done. */
  ghost predicate Ends(m: Machine, c: Connection, run: Run, recipients: seq<string>, body: string, id: string, a: Attempt,
                       lines': seq<string>, run': Run)
  {
    if BreaksOff(c.cfg, recipients, body) then
      && a.result != Err(Timeout)
      && (!Overruns(c.cfg, recipients, body) ==>
            a.result == Err(IoError) && Abandoned(m, c.cfg, run, recipients, a, lines', run'))
    else
      && a.result == (if LeftWaiting(m, c.cfg, recipients, body) then Err(Timeout) else Ok(Outcomes(c.cfg, m.render, recipients, body)))
      && (!Overruns(c.cfg, recipients, body) ==>
            && Holding(m, a.conn, lines', run', [])
            && Served(c.cfg, Replies(run.log), run.spooled, run.session.envelope, id, recipients, body, m.flushesText, run'))
  }

  /** The handler has given up reading in the text, after `lines'` and with nothing spooled. */
  ghost predicate Abandoned(m: Machine, cfg: Config, run: Run, recipients: seq<string>, a: Attempt, lines': seq<string>, run': Run) {
    && lines' == Handled(a.conn.sent) && run' == m.after(lines') && run'.spooled == run.spooled
    && Replies(run'.log) == Replies(run.log) + RcptAnswers(cfg, recipients, |recipients|) + [StartMail]
  }

  /** The conversation once every recipient has been answered. */
  lemma AfterRcpts(m: Machine, c: Connection, conn: Conn, at: seq<string>, run: Run, run1: Run, recipients: seq<string>,
                   body: string, replies: seq<ReadResult>, id: string, a: Attempt)
    returns (lines': seq<string>, run': Run)
    requires Serves(m, c) && Standing(m, conn, at, run1, []) && replies == ReadRcpts(m, c, recipients, |recipients|)
    requires RcptsRecorded(c.cfg, run, recipients, |recipients|, run1) && SenderOnly(run.session)
    requires id == c.ids(|at|) && IsLastStep(m, c, conn, recipients, body, a)
    ensures Ends(m, c, run, recipients, body, id, a, lines', run')
  {
    ReadyForData(c.cfg, run, recipients, run1);
    if IsUtf8(body) { LegibleText(body); }
    lines', run' := [], run;
    if AcceptedOf(c.cfg, recipients, |recipients|) == [] {
      lines', run' := NothingSent(m, c, conn, at, run1, recipients, body, replies);
      RefusedServed(c.cfg, run, run1, recipients, id, body, m.flushesText, run');
    } else if !IsUtf8(body) {
      BrokenNeverTimesOut(m, c, conn, at, run1, recipients, replies, body);
      if !Overruns(c.cfg, recipients, body) {
        lines', run' := MessageBroken(m, c, conn, at, run1, recipients, replies, body);
      }
    } else if |Normal(body)| > c.cfg.maxMessageSize {
      MessageRefused(m, c, conn, at, run1, recipients, body, replies);
    } else if m.flushesText {
      lines', run' := MessageSent(m, c, conn, at, run1, recipients, body, replies);
      FitsServed(c.cfg, run, run1, recipients, id, body, true, run');
    } else {
      lines', run' := MessageLost(m, c, conn, at, run1, recipients, body, replies);
      FitsServed(c.cfg, run, run1, recipients, id, body, false, run');
    }
  }

  /** The conversation once MAIL has been accepted; `at` is what the server has been sent before DATA. */
  lemma AfterMailOutcome(m: Machine, c: Connection, conn: Conn, lines: seq<string>, run: Run, recipients: seq<string>,
                         body: string)
    returns (at: seq<string>, lines': seq<string>, run': Run)
    requires Serves(m, c) && Standing(m, conn, lines, run, []) && SenderOnly(run.session)
    requires AllSendable(recipients)
    ensures |at| == |lines| + |recipients|
    ensures Ends(m, c, run, recipients, body, c.ids(|at|), AfterMail(m.server, conn, recipients, body), lines', run')
  {
    var commands := RcptLines(recipients);
    var conn1, run1;
    conn1, at, run1 := RcptsAnswered(m, c, conn, lines, run, recipients, commands, |recipients|);
    lines', run' := AfterAnswers(m, c, conn, run, recipients, commands, body, conn1, at, run1);
  }

  lemma AfterAnswers(m: Machine, c: Connection, conn: Conn, run: Run, recipients: seq<string>,
                     commands: seq<string>, body: string, conn1: Conn, at: seq<string>, run1: Run)
    returns (lines': seq<string>, run': Run)
    requires Serves(m, c) && SenderOnly(run.session)
    requires commands == RcptLines(recipients) && RcptsHeard(m, c, conn, recipients, commands, |recipients|, conn1)
    requires Standing(m, conn1, at, run1, [])
    requires RcptsRecorded(c.cfg, run, recipients, |recipients|, run1)
    ensures Ends(m, c, run, recipients, body, c.ids(|at|), AfterMail(m.server, conn, recipients, body), lines', run')
  {
    GoesOn(m, c, conn, recipients, commands, body, conn1);
    lines', run' := AfterRcpts(m, c, conn1, at, run, run1, recipients, body, ReadRcpts(m, c, recipients, |recipients|), c.ids(|at|),
                               AfterMail(m.server, conn, recipients, body));
  }

  lemma HandlesCommands(c: Connection, flushesText: bool, s: Session, line: string, k: nat)
    ensures HandlesAt(MachineOf(c, flushesText), c, s, line, k)
  {
  }

  lemma MachinePlays(c: Connection, flushesText: bool)
    ensures Plays(MachineOf(c, flushesText))
  {
    var m := MachineOf(c, flushesText);
    forall lines ensures RunsAt(m, lines) {}
    forall log ensures ShowsAt(m, log) {}
    forall writes ensures SendsAt(m, writes) {}
  }

  lemma MachineCollects(c: Connection, flushesText: bool)
    requires Deployed(c)
    ensures Collects(MachineOf(c, flushesText), c.cfg)
  {
    var m := MachineOf(c, flushesText);
    MachinePlays(c, flushesText);
    ServerIsPolite(c);
    forall s, line, k ensures CollectsAt(m, c.cfg, s, line, k) {}
    forall a ensures WordsWell(m.render, a) {
      if CleanAnswer(a) { RenderEncodable(c.cfg, a); }
    }
  }

  lemma ServerServes(c: Connection, flushesText: bool)
    requires Deployed(c)
    ensures Serves(MachineOf(c, flushesText), c)
  {
    MachineCollects(c, flushesText);
    forall k ensures ServesAt(MachineOf(c, flushesText), c, k) {
      forall s, line ensures HandlesAt(MachineOf(c, flushesText), c, s, line, k) { HandlesCommands(c, flushesText, s, line, k); }
    }
  }
}
