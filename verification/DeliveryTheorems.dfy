/** The delivery theorem, and what it says in the cases that matter. */
module DeliveryTheorems {
  import opened Numbers
  import opened Text
  import opened Utf8
  import opened Reply
  import opened Answer
  import opened Phrases
  import opened Session
  import opened Delivery
  import opened Politeness
  import opened DotStuffing
  import opened Client
  import opened ClientLines
  import opened Peer
  import opened EndToEnd
  import opened TextTransfer
  import C = Command

  /** What the client is given: a name to greet with, and addresses it can put on a line.  The body is
      any bytes. */
  ghost predicate Addressed(host: string, sender: string, recipients: seq<string>, body: string) {
    && OneLine(host) && Trim(host) != "" && Sendable(sender) && |body| <= USIZE_MAX
    && AllSendable(recipients)
  }

  /** MAIL has been refused: the client goes no further. */
  ghost predicate TurnedAway(m: Machine, c: Connection, host: string, sender: string, recipients: seq<string>, body: string,
                             a: Attempt, lines: seq<string>, run: Run)
  {
    && a.result == DeliveryOutcome(c.cfg, m.render, sender, recipients, body) && Holding(m, a.conn, lines, run, [])
    && run.spooled == [] && Replies(run.log) == [EhloAccepted(Trim(host)), MailAnswer(c.cfg, sender, |body|)]
  }

  /** The text was not text: the handler hung up on it. */
  ghost predicate HungUpOn(m: Machine, c: Connection, host: string, recipients: seq<string>, a: Attempt, lines: seq<string>, run: Run) {
    && a.result == Err(IoError) && lines == Handled(a.conn.sent) && run == m.after(lines) && run.spooled == []
    && Replies(run.log) == [EhloAccepted(Trim(host)), Accepted] + RcptAnswers(c.cfg, recipients, |recipients|) + [StartMail]
  }

  /** Both ends after a delivery: what the client concludes and, unless the message overruns, everything
      the server has answered and spooled. */
  ghost predicate Delivered(m: Machine, c: Connection, host: string, sender: string, recipients: seq<string>,
                            body: string, a: Attempt, lines: seq<string>, run: Run)
  {
    if MailAnswer(c.cfg, sender, |body|) != Accepted then TurnedAway(m, c, host, sender, recipients, body, a, lines, run)
    else if BreaksOff(c.cfg, recipients, body) then
      && a.result != Err(Timeout)
      && (!Overruns(c.cfg, recipients, body) ==> HungUpOn(m, c, host, recipients, a, lines, run))
    else
      && a.result == (if LeftWaiting(m, c.cfg, recipients, body) then Err(Timeout)
                      else DeliveryOutcome(c.cfg, m.render, sender, recipients, body))
      && (!Overruns(c.cfg, recipients, body) ==>
            && Holding(m, a.conn, lines, run, [])
            && Served(c.cfg, [EhloAccepted(Trim(host)), Accepted], [], MailEnvelope(c, host, sender, |body|),
                      c.ids(2 + |recipients|), recipients, body, m.flushesText, run))
  }

  lemma OpeningIs(server: Server, render: Wording, host: string, sender: string, recipients: seq<string>,
                  body: string, conn0: Conn, conn1: Conn, conn2: Conn, a: Answer)
    requires Coded(render) && (200 <= Code(a) < 300 <==> a == Accepted)
    requires Receive(Open(server)) == (Ok(render(Welcome)), conn0)
    requires Ask(server, conn0, Line(C.Ehlo(host))) == (Ok(render(EhloAccepted(Trim(host)))), conn1)
    requires Ask(server, conn1, Line(C.MailFrom(sender, [SizeParameter(|body|)]))) == (Ok(render(a)), conn2)
    ensures Converse(server, host, sender, recipients, body)
         == if a == Accepted then AfterMail(server, conn2, recipients, body)
            else Attempt(Err(Complaint(Ok(render(a)), MailStage)), conn2, [], None)
  {
    Positives(render, Welcome);
    Positives(render, EhloAccepted(Trim(host)));
    Positives(render, a);
    ConverseIs(server, host, sender, recipients, body, conn0, Ok(render(Welcome)), conn1,
               Ok(render(EhloAccepted(Trim(host)))), conn2, Ok(render(a)));
  }

  lemma Pair<T>(x: T, y: T)
    ensures [x] + [y] == [x, y]
  {
  }

  /** The conversation up to the answer to MAIL. */
  lemma Opening(m: Machine, c: Connection, host: string, sender: string, recipients: seq<string>, body: string)
    returns (conn: Conn, run: Run, sofar: seq<string>)
    requires Serves(m, c) && Coded(m.render) && m.start == Fresh(c.peer) && Addressed(host, sender, recipients, body)
    ensures var a := MailAnswer(c.cfg, sender, |body|);
            && Converse(m.server, host, sender, recipients, body)
               == (if a == Accepted then AfterMail(m.server, conn, recipients, body)
                   else Attempt(Err(Complaint(Ok(m.render(a)), MailStage)), conn, [], None))
            && (a == Accepted ==> SenderOnly(run.session) && run.session.envelope == MailEnvelope(c, host, sender, |body|))
            && Replies(run.log) == [EhloAccepted(Trim(host)), a]
    ensures Standing(m, conn, sofar, run, []) && |sofar| == 2 && run.spooled == []
  {
    var conn0, conn1, run1 := Hello(m, c, host);
    conn, run, sofar := AskMail(m, c, host, conn1, run1, sender, |body|);
    var a := MailAnswer(c.cfg, sender, |body|);
    MailAnswerCode(c.cfg, sender, |body|);
    OpeningIs(m.server, m.render, host, sender, recipients, body, conn0, conn1, conn, a);
    Pair(EhloAccepted(Trim(host)), a);
  }

  lemma OutcomeIs(cfg: Config, render: Wording, sender: string, recipients: seq<string>, body: string)
    ensures var a := MailAnswer(cfg, sender, |body|);
            DeliveryOutcome(cfg, render, sender, recipients, body) ==
            if a == Accepted then Ok(Outcomes(cfg, render, recipients, body))
            else Err(Complaint(Ok(render(a)), MailStage))
  {
  }

  lemma DeliverTo(m: Machine, c: Connection, host: string, sender: string, recipients: seq<string>, body: string)
    returns (lines: seq<string>, run: Run)
    requires Serves(m, c) && Coded(m.render) && m.start == Fresh(c.peer) && Addressed(host, sender, recipients, body)
    ensures Delivered(m, c, host, sender, recipients, body,
                      Converse(m.server, host, sender, recipients, body), lines, run)
  {
    var conn, run2, sofar := Opening(m, c, host, sender, recipients, body);
    if MailAnswer(c.cfg, sender, |body|) == Accepted {
      var at;
      at, lines, run := AfterMailOutcome(m, c, conn, sofar, run2, recipients, body);
      EndsDelivered(m, c, host, sender, recipients, body, run2, c.ids(|at|),
                    AfterMail(m.server, conn, recipients, body), lines, run);
    } else {
      lines, run := sofar, run2;
      RefusedDelivered(m, c, host, sender, recipients, body,
                       Attempt(Err(Complaint(Ok(m.render(MailAnswer(c.cfg, sender, |body|))), MailStage)), conn, [], None), lines, run);
    }
  }

  lemma EndsDelivered(m: Machine, c: Connection, host: string, sender: string, recipients: seq<string>, body: string, run2: Run,
                      id: string, a: Attempt, lines: seq<string>, run: Run)
    requires MailAnswer(c.cfg, sender, |body|) == Accepted && run2.spooled == []
    requires Replies(run2.log) == [EhloAccepted(Trim(host)), Accepted]
    requires run2.session.envelope == MailEnvelope(c, host, sender, |body|)
    requires Ends(m, c, run2, recipients, body, id, a, lines, run) && id == c.ids(2 + |recipients|)
    ensures Delivered(m, c, host, sender, recipients, body, a, lines, run)
  {
    OutcomeIs(c.cfg, m.render, sender, recipients, body);
  }

  lemma RefusedDelivered(m: Machine, c: Connection, host: string, sender: string, recipients: seq<string>, body: string,
                         a: Attempt, lines: seq<string>, run: Run)
    requires MailAnswer(c.cfg, sender, |body|) != Accepted && run.spooled == []
    requires a.result == Err(Complaint(Ok(m.render(MailAnswer(c.cfg, sender, |body|))), MailStage))
    requires Replies(run.log) == [EhloAccepted(Trim(host)), MailAnswer(c.cfg, sender, |body|)]
    requires Holding(m, a.conn, lines, run, [])
    ensures Delivered(m, c, host, sender, recipients, body, a, lines, run)
  {
    OutcomeIs(c.cfg, m.render, sender, recipients, body);
  }

  /** The delivery theorem: the client's side and the server's side of one conversation agree, for
      every sender, recipient list, body and pair of limits, whether or not the handler flushes its
      replies to message text. */
  lemma EndToEndDelivery(c: Connection, flushesText: bool, host: string, sender: string, recipients: seq<string>, body: string)
    returns (lines: seq<string>, run: Run)
    requires Deployed(c) && Addressed(host, sender, recipients, body)
    ensures var m := MachineOf(c, flushesText);
            Delivered(m, c, host, sender, recipients, body, Converse(m.server, host, sender, recipients, body), lines, run)
  {
    ServerServes(c, flushesText);
    lines, run := DeliverTo(MachineOf(c, flushesText), c, host, sender, recipients, body);
  }

  /** What the server has done, from what it has been sent. */
  function ServerRun(m: Machine, a: Attempt): Run {
    m.after(Handled(a.conn.sent))
  }

  lemma HoldingIsRun(m: Machine, a: Attempt, lines: seq<string>, run: Run, unread: seq<Answer>)
    requires Holding(m, a.conn, lines, run, unread)
    ensures run == ServerRun(m, a)
  {
    HandledLines(a.conn.sent, lines);
  }

  /** The same, as far as the server's side is concerned. */
  lemma DeliveredRun(m: Machine, c: Connection, host: string, sender: string, recipients: seq<string>, body: string,
                     a: Attempt, lines: seq<string>, run: Run)
    requires Delivered(m, c, host, sender, recipients, body, a, lines, run)
    requires !Overruns(c.cfg, recipients, body)
    ensures run == ServerRun(m, a)
    ensures MailAnswer(c.cfg, sender, |body|) == Accepted && !BreaksOff(c.cfg, recipients, body) ==>
              Served(c.cfg, [EhloAccepted(Trim(host)), Accepted], [], MailEnvelope(c, host, sender, |body|),
                     c.ids(2 + |recipients|), recipients, body, m.flushesText, run)
  {
    if MailAnswer(c.cfg, sender, |body|) != Accepted {
      HoldingIsRun(m, a, lines, run, []);
    } else if !BreaksOff(c.cfg, recipients, body) {
      HoldingIsRun(m, a, lines, run, []);
    }
  }

  // ---------------------------------------------------------------- the handler as it is

  /** What the client has been sent is what the handler has flushed: the formula is the one
      `Server.HandleConnection` ensures whenever its read buffer is empty. */
  lemma {:induction false} SentIsFlushed(c: Connection, groups: seq<seq<string>>)
    requires LineGroups(groups)
    ensures var lines := Ungroup(groups);
            SentInAll(MachineOf(c, false).server, AsWrites(groups))
            == Wire(WordingOf(c), [Welcome] + Flushed(Serve(c, lines, |lines|).log))
  {
    var m, lines := MachineOf(c, false), Ungroup(groups);
    MachinePlays(c, false);
    SentInAllIs(m, groups);
    assert RunsAt(m, lines) && ShowsAt(m, m.after(lines).log);
  }

  predicate ValidRecipient(recipient: string) {
    recipient != "" && C.ValidateAddress(recipient).Ok?
  }

  predicate SomeValid(recipients: seq<string>) {
    exists i :: 0 <= i < |recipients| && ValidRecipient(recipients[i])
  }

  lemma RcptAccepted(cfg: Config, accepted: seq<string>, recipient: string)
    ensures RcptAnswer(cfg, accepted, recipient) == Accepted <==> ValidRecipient(recipient) && |accepted| < cfg.maxRecipients
  {
  }

  lemma {:induction false} AcceptedPrefixIff(cfg: Config, recipients: seq<string>, n: nat)
    requires n <= |recipients|
    ensures AcceptedOf(cfg, recipients, n) != [] <==> cfg.maxRecipients > 0 && SomeValid(recipients[..n])
  {
    if n > 0 {
      AcceptedPrefixIff(cfg, recipients, n - 1);
      RcptAccepted(cfg, AcceptedOf(cfg, recipients, n - 1), recipients[n - 1]);
      SomeValidSnoc(recipients[..n - 1], recipients[n - 1]);
      assert recipients[..n] == recipients[..n - 1] + [recipients[n - 1]];
    }
  }

  lemma SomeValidSnoc(front: seq<string>, last: string)
    ensures SomeValid(front + [last]) <==> SomeValid(front) || ValidRecipient(last)
  {
    var all := front + [last];
    assert all[|front|] == last;
    forall i | 0 <= i < |front| ensures all[i] == front[i] {}
  }

  /** Somebody is accepted if and only if the limit allows anybody and some recipient is valid. */
  lemma {:induction false} AcceptedIff(cfg: Config, recipients: seq<string>)
    ensures AcceptedOf(cfg, recipients, |recipients|) != [] <==> cfg.maxRecipients > 0 && SomeValid(recipients)
  {
    AcceptedPrefixIff(cfg, recipients, |recipients|);
    assert recipients[..|recipients|] == recipients;
  }

  /** The server takes the message. */
  predicate Takes(cfg: Config, sender: string, recipients: seq<string>, body: string) {
    && C.ValidateAddress(sender).Ok? && |body| <= cfg.maxMessageSize
    && cfg.maxRecipients > 0 && SomeValid(recipients)
    && IsUtf8(body) && |Normal(body)| <= cfg.maxMessageSize
  }

  lemma {:induction false} TakesIff(m: Machine, c: Connection, sender: string, recipients: seq<string>, body: string)
    ensures Takes(c.cfg, sender, recipients, body) <==>
              && MailAnswer(c.cfg, sender, |body|) == Accepted && !BreaksOff(c.cfg, recipients, body)
              && AcceptedOf(c.cfg, recipients, |recipients|) != [] && |Normal(body)| <= c.cfg.maxMessageSize
  {
    AcceptedIff(c.cfg, recipients);
  }

  lemma NeverTimeout(cfg: Config, render: Wording, sender: string, recipients: seq<string>, body: string)
    ensures DeliveryOutcome(cfg, render, sender, recipients, body) != Err(Timeout)
  {
  }

  /** The client against the handler as it is, which leaves its reply to a message in the write
      buffer: the delivery is reported as timed out if and only if the server takes the message, and
      then the message has been spooled all the same, unless its body is empty; in every other
      case, bodies that are not text apart, the report is the intended one. */
  lemma {:induction false} ShippedDelivery(c: Connection, host: string, sender: string, recipients: seq<string>, body: string)
    requires Deployed(c) && Addressed(host, sender, recipients, body)
    ensures var m := MachineOf(c, false);
            var a := Converse(m.server, host, sender, recipients, body);
            && (a.result == Err(Timeout) <==> Takes(c.cfg, sender, recipients, body))
            && (!Takes(c.cfg, sender, recipients, body) && IsUtf8(body) ==>
                  a.result == DeliveryOutcome(c.cfg, m.render, sender, recipients, body))
            && (Takes(c.cfg, sender, recipients, body) ==> TakenAs(c.cfg, sender, recipients, body, ServerRun(m, a).spooled))
  {
    var m := MachineOf(c, false);
    var a := Converse(m.server, host, sender, recipients, body);
    var lines, run := EndToEndDelivery(c, false, host, sender, recipients, body);
    TakesIff(m, c, sender, recipients, body);
    NeverTimeout(c.cfg, m.render, sender, recipients, body);
    if Takes(c.cfg, sender, recipients, body) {
      LegibleText(body);
      DeliveredRun(m, c, host, sender, recipients, body, a, lines, run);
    }
  }

  /** What is spooled of a message that is taken. */
  predicate TakenAs(cfg: Config, sender: string, recipients: seq<string>, body: string, spooled: seq<Spooled>) {
    if body == "" then spooled == []
    else |spooled| == 1 && spooled[0].data == Normal(body) && spooled[0].envelope.sender == sender
         && spooled[0].envelope.recipients == AcceptedOf(cfg, recipients, |recipients|)
  }

  // ---------------------------------------------------------------- bodies that are not text

  /** The server offers 8BITMIME, but reads lines as UTF-8: a message that is something else, and does
      not overrun before its first such line, is never taken, and the client finds the connection
      closed. */
  lemma {:induction false} IllegibleBody(c: Connection, flushesText: bool, host: string, sender: string, recipients: seq<string>, body: string)
    requires Deployed(c) && Addressed(host, sender, recipients, body) && !IsUtf8(body)
    requires MailAnswer(c.cfg, sender, |body|) == Accepted && c.cfg.maxRecipients > 0 && SomeValid(recipients)
    requires |LegiblePart(body)| <= c.cfg.maxMessageSize
    ensures var m := MachineOf(c, flushesText);
            var a := Converse(m.server, host, sender, recipients, body);
            a.result == Err(IoError) && ServerRun(m, a).spooled == []
  {
    var m := MachineOf(c, flushesText);
    var lines, run := EndToEndDelivery(c, flushesText, host, sender, recipients, body);
    IllegibleHungUp(m, c, host, sender, recipients, body, Converse(m.server, host, sender, recipients, body), lines, run);
  }

  lemma {:induction false} IllegibleHungUp(m: Machine, c: Connection, host: string, sender: string, recipients: seq<string>,
                                           body: string, a: Attempt, lines: seq<string>, run: Run)
    requires Delivered(m, c, host, sender, recipients, body, a, lines, run) && !IsUtf8(body)
    requires MailAnswer(c.cfg, sender, |body|) == Accepted && c.cfg.maxRecipients > 0 && SomeValid(recipients)
    requires |LegiblePart(body)| <= c.cfg.maxMessageSize
    ensures a.result == Err(IoError) && ServerRun(m, a).spooled == []
  {
    AcceptedIff(c.cfg, recipients);
  }

  // ---------------------------------------------------------------- in the ordinary case

  predicate AllValid(recipients: seq<string>) {
    forall i :: 0 <= i < |recipients| ==> ValidRecipient(recipients[i])
  }

  lemma ValidAnswer(cfg: Config, accepted: seq<string>, recipient: string)
    requires ValidRecipient(recipient)
    ensures RcptAnswer(cfg, accepted, recipient) == if |accepted| < cfg.maxRecipients then Accepted else TooManyRecipients
  {
  }

  lemma TakeUpTo(recipients: seq<string>, n: nat, limit: nat)
    requires 0 < n <= |recipients|
    ensures recipients[..Least(n, limit)]
         == recipients[..Least(n - 1, limit)] + if Least(n - 1, limit) < limit then [recipients[n - 1]] else []
  {
  }

  lemma AcceptedNext(cfg: Config, recipients: seq<string>, n: nat)
    requires 0 < n <= |recipients|
    ensures var before, r := AcceptedOf(cfg, recipients, n - 1), recipients[n - 1];
            AcceptedOf(cfg, recipients, n) == before + if ValidRecipient(r) && |before| < cfg.maxRecipients then [r] else []
  {
    RcptAccepted(cfg, AcceptedOf(cfg, recipients, n - 1), recipients[n - 1]);
  }

  lemma {:induction false} ValidAccepted(cfg: Config, recipients: seq<string>, n: nat)
    requires AllValid(recipients) && n <= |recipients|
    ensures AcceptedOf(cfg, recipients, n) == recipients[..Least(n, cfg.maxRecipients)]
  {
    if n > 0 {
      ValidAccepted(cfg, recipients, n - 1);
      AcceptedNext(cfg, recipients, n);
      TakeUpTo(recipients, n, cfg.maxRecipients);
    }
  }

  /** With valid addresses and a body within both limits: success for exactly the first recipients
      up to the limit, a transient failure for the rest. */
  lemma OrdinaryDelivery(c: Connection, render: Wording, sender: string, recipients: seq<string>, body: string)
    requires Coded(render) && AllValid(recipients) && C.ValidateAddress(sender).Ok?
    requires |body| <= c.cfg.maxMessageSize && |Normal(body)| <= c.cfg.maxMessageSize
    ensures var r := DeliveryOutcome(c.cfg, render, sender, recipients, body);
            && r.Ok? && |r.value| == |recipients|
            && forall i :: 0 <= i < |recipients| ==>
                 && r.value[i].0 == recipients[i]
                 && (i < c.cfg.maxRecipients ==> r.value[i].1.Success?)
                 && (i >= c.cfg.maxRecipients ==> r.value[i].1.TransientFailure?)
  {
    forall i | 0 <= i < |recipients|
      ensures var o := RecipientOutcome(c.cfg, render, recipients, body, i);
              if i < c.cfg.maxRecipients then o.Success? else o.TransientFailure?
    {
      ValidAccepted(c.cfg, recipients, i);
      ValidAnswer(c.cfg, AcceptedOf(c.cfg, recipients, i), recipients[i]);
    }
  }

  lemma {:induction false} RcptsInSequence(cfg: Config, recipients: seq<string>)
    ensures forall i :: 0 <= i < |recipients| ==> !RcptAnswers(cfg, recipients, |recipients|)[i].BadSequence?
  {
    forall i | 0 <= i < |recipients| ensures !RcptAnswers(cfg, recipients, |recipients|)[i].BadSequence? {
      RcptAnswerAt(cfg, recipients, |recipients|, i);
    }
  }

  predicate InSequence(answers: seq<Answer>) {
    forall i :: 0 <= i < |answers| ==> !answers[i].BadSequence?
  }

  lemma {:induction false} AnsweredInOrder(m: Machine, c: Connection, host: string, sender: string, recipients: seq<string>,
                                           body: string, a: Attempt, lines: seq<string>, run: Run)
    returns (rest: seq<Answer>)
    requires Delivered(m, c, host, sender, recipients, body, a, lines, run) && !Overruns(c.cfg, recipients, body)
    requires MailAnswer(c.cfg, sender, |body|) == Accepted
    ensures Replies(run.log) == [EhloAccepted(Trim(host)), Accepted] + RcptAnswers(c.cfg, recipients, |recipients|) + rest
    ensures InSequence(rest)
  {
    if BreaksOff(c.cfg, recipients, body) {
      rest := [StartMail];
    } else {
      rest := LastAnswers(c.cfg, recipients, c.ids(2 + |recipients|), m.flushesText);
      LastInSequence(c.cfg, recipients, c.ids(2 + |recipients|), m.flushesText);
    }
  }

  lemma LastInSequence(cfg: Config, recipients: seq<string>, id: string, left: bool)
    ensures InSequence(LastAnswers(cfg, recipients, id, left))
  {
  }

  lemma Joined(a: seq<Answer>, b: seq<Answer>, c: seq<Answer>)
    requires InSequence(a) && InSequence(b) && InSequence(c)
    ensures InSequence(a + b + c)
  {
  }

  /** Unless a message overruns, no command of the client is ever answered as out of sequence. */
  lemma NeverOutOfSequence(c: Connection, flushesText: bool, host: string, sender: string, recipients: seq<string>, body: string)
    requires Deployed(c) && Addressed(host, sender, recipients, body) && !Overruns(c.cfg, recipients, body)
    ensures var m := MachineOf(c, flushesText);
            InSequence(Replies(ServerRun(m, Converse(m.server, host, sender, recipients, body)).log))
  {
    var m := MachineOf(c, flushesText);
    var a := Converse(m.server, host, sender, recipients, body);
    var lines, run := EndToEndDelivery(c, flushesText, host, sender, recipients, body);
    DeliveredRun(m, c, host, sender, recipients, body, a, lines, run);
    if MailAnswer(c.cfg, sender, |body|) == Accepted {
      var rest := AnsweredInOrder(m, c, host, sender, recipients, body, a, lines, run);
      AcceptedInSequence(c.cfg, host, recipients, rest);
    } else {
      RefusedInSequence(c.cfg, host, sender, |body|);
    }
  }

  lemma RefusedInSequence(cfg: Config, host: string, sender: string, size: nat)
    ensures InSequence([EhloAccepted(Trim(host)), MailAnswer(cfg, sender, size)])
  {
  }

  lemma {:induction false} AcceptedInSequence(cfg: Config, host: string, recipients: seq<string>, rest: seq<Answer>)
    requires InSequence(rest)
    ensures InSequence([EhloAccepted(Trim(host)), Accepted] + RcptAnswers(cfg, recipients, |recipients|) + rest)
  {
    RcptsInSequence(cfg, recipients);
    Joined([EhloAccepted(Trim(host)), Accepted], RcptAnswers(cfg, recipients, |recipients|), rest);
  }
}
