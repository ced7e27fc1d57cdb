/**
 What the client does in a conversation with any server at all, from its own writes and the
 replies to them: which line comes next, where it stops, and what it then reports.
 */
module ClientHistory {
  import opened Numbers
  import opened Text
  import opened Reply
  import opened Delivery
  import opened Client
  import C = Command

  // ---------------------------------------------------------------- playing writes back

  /** The connection after the first `n` writes, one reply having been read on connect and after each. */
  function After(server: Server, writes: seq<string>, n: nat): Conn
    requires n <= |writes|
  {
    if n == 0 then Receive(Open(server)).1 else Ask(server, After(server, writes, n - 1), writes[n - 1]).1
  }

  /** The reply read after write number `n`, counted from one; number 0 is the greeting. */
  function ReplyTo(server: Server, writes: seq<string>, n: nat): ReadResult
    requires n <= |writes|
  {
    if n == 0 then Receive(Open(server)).0 else Ask(server, After(server, writes, n - 1), writes[n - 1]).0
  }

  function RepliesTo(server: Server, writes: seq<string>, from: nat, n: nat): (replies: seq<ReadResult>)
    requires from + n <= |writes|
    ensures |replies| == n
  {
    seq(n, i requires 0 <= i < n => ReplyTo(server, writes, from + 1 + i))
  }

  /** The connection is as the first of `writes` leave it. */
  predicate At(server: Server, writes: seq<string>, conn: Conn) {
    conn.sent <= writes && conn == After(server, writes, |conn.sent|)
  }

  lemma Start(server: Server, writes: seq<string>)
    ensures At(server, writes, Receive(Open(server)).1) && ReplyTo(server, writes, 0) == Receive(Open(server)).0
    ensures Receive(Open(server)).1.sent == []
  {
  }

  /** One more write of these. */
  lemma Write(server: Server, writes: seq<string>, conn: Conn, bytes: string)
    requires At(server, writes, conn) && conn.sent + [bytes] <= writes
    ensures var (r, conn') := Ask(server, conn, bytes);
            && At(server, writes, conn') && conn'.sent == conn.sent + [bytes]
            && r == ReplyTo(server, writes, |conn.sent| + 1) && writes[|conn.sent|] == bytes
  {
    assert writes[..|conn.sent| + 1][|conn.sent|] == bytes;
  }

  // ---------------------------------------------------------------- replies and errors

  predicate Positive(r: ReadResult) {
    r.Ok? && 200 <= r.value.code <= 299
  }

  /** The error a reply at this stage is reported as, when it is not what was hoped for. */
  predicate Means(r: ReadResult, stage: Stage, e: DeliveryError) {
    match r
    case Ok(reply) => e == Rejected(reply.code, Join(reply.messages, " "), stage)
    case Err(ConnectionClosed) => e == IoError
    case Err(TimedOut) => e == Timeout
    case Err(NotAReply(received)) => e == ProtocolError(received)
    case Err(SliceOutOfRange) => e == Panicked
  }

  lemma ComplaintMeans(r: ReadResult, stage: Stage)
    ensures Means(r, stage, Complaint(r, stage)) && (IsPositive(r) <==> Positive(r))
  {
  }

  predicate StopsWith(r: ReadResult, stage: Stage, a: Attempt) {
    a.result.Err? && Means(r, stage, a.result.error)
  }

  // ---------------------------------------------------------------- the rules of a conversation

  predicate ReaderPanicked(r: ReadResult) {
    r == Err(SliceOutOfRange)
  }

  predicate Permanent(r: ReadResult) {
    (r.Ok? && 500 <= r.value.code <= 599) || (r.Err? && r.error.NotAReply?)
  }

  /** A recipient that failed because of this reply. */
  predicate Failed(result: RecipientResult, r: ReadResult, stage: Stage) {
    !result.Success? && Means(r, stage, result.error) && (result.PermanentFailure? <==> Permanent(r))
  }

  /** A recipient's fate: its own refusal, or else what the message drew. */
  predicate Fate(result: RecipientResult, rcpt: ReadResult, final: Option<ReadResult>) {
    if !Positive(rcpt) then Failed(result, rcpt, RcptStage)
    else if final.Some? && Positive(final.value) then result.Success?
    else final.Some? && Failed(result, final.value, BodyStage)
  }

  /** The last write is QUIT; unless reading the reply to it panics, every recipient is listed, in order,
      with its fate. */
  predicate Leaves(server: Server, recipients: seq<string>, rcpts: seq<ReadResult>, final: Option<ReadResult>, q: nat, a: Attempt) {
    var w := a.conn.sent;
    && |w| == q + 1 && w[q] == Line(C.Quit)
    && if ReaderPanicked(ReplyTo(server, w, q + 1)) then a.result == Err(Panicked)
       else a.result.Ok? && |a.result.value| == |recipients| == |rcpts|
            && forall i :: 0 <= i < |recipients| ==>
                 a.result.value[i].0 == recipients[i] && Fate(a.result.value[i].1, rcpts[i], final)
  }

  /** DATA, and the message only if the answer is 354; an answer to the message that cannot be read ends
      the conversation, any other is followed by QUIT. */
  predicate Transfers(server: Server, recipients: seq<string>, rcpts: seq<ReadResult>, body: string, q: nat, a: Attempt) {
    var w := a.conn.sent;
    && |w| > q && w[q] == Line(C.Data)
    && var go := ReplyTo(server, w, q + 1);
       if go.Err? || go.value.code != 354 then |w| == q + 1 && StopsWith(go, DataStage, a)
       else
         && |w| > q + 1 && w[q + 1] == StuffBody(body)
         && var final := ReplyTo(server, w, q + 2);
            if final.Err? then |w| == q + 2 && StopsWith(final, BodyStage, a)
            else Leaves(server, recipients, rcpts, Some(final), q + 2, a)
  }

  predicate NoPanicBefore(replies: seq<ReadResult>) {
    forall i :: 0 <= i < |replies| - 1 ==> !ReaderPanicked(replies[i])
  }

  predicate SomePositive(replies: seq<ReadResult>) {
    exists i :: 0 <= i < |replies| && Positive(replies[i])
  }

  /** One RCPT for each recipient in turn, up to one whose reply makes the reader panic; then the message
      if some recipient was answered positively, else QUIT. */
  predicate Asks(server: Server, recipients: seq<string>, body: string, m: nat, a: Attempt) {
    var w := a.conn.sent;
    && |w| >= m
    && AsksWith(server, recipients, body, m, RepliesTo(server, w, m, Least(|recipients|, |w| - m)), a)
  }

  predicate AsksWith(server: Server, recipients: seq<string>, body: string, m: nat, rcpts: seq<ReadResult>, a: Attempt)
    requires m + |rcpts| <= |a.conn.sent| && |rcpts| <= |recipients|
  {
    var w, k := a.conn.sent, |rcpts|;
    && (forall i :: 0 <= i < k ==> w[m..][i] == Line(C.RcptTo(recipients[i], [])))
    && NoPanicBefore(rcpts)
    && if k > 0 && ReaderPanicked(rcpts[k - 1]) then |w| == m + k && a.result == Err(Panicked)
       else
         && k == |recipients|
         && if SomePositive(rcpts) then Transfers(server, recipients, rcpts, body, m + k, a)
            else Leaves(server, recipients, rcpts, None, m + k, a)
  }

  /** MAIL with the size of the body, and the recipients only if it is answered positively. */
  predicate Mails(server: Server, sender: string, recipients: seq<string>, body: string, h: nat, a: Attempt) {
    var w := a.conn.sent;
    && |w| > h && w[h] == Line(C.MailFrom(sender, [SizeParameter(|body|)]))
    && if !Positive(ReplyTo(server, w, h + 1)) then |w| == h + 1 && StopsWith(ReplyTo(server, w, h + 1), MailStage, a)
       else Asks(server, recipients, body, h + 1, a)
  }

  /** EHLO, if the greeting was positive; HELO if and only if the answer to it was read and not positive;
      MAIL if and only if one of the two was answered positively, and otherwise the error is that of
      the last answer. */
  predicate Greets(server: Server, host: string, sender: string, recipients: seq<string>, body: string, a: Attempt) {
    var w := a.conn.sent;
    && a.conn == After(server, w, |w|)
    && if !Positive(ReplyTo(server, w, 0)) then w == [] && StopsWith(ReplyTo(server, w, 0), Connect, a)
       else
         && |w| >= 1 && w[0] == Line(C.Ehlo(host))
         && var ehlo := ReplyTo(server, w, 1);
            if Positive(ehlo) then Mails(server, sender, recipients, body, 1, a)
            else if ehlo.Err? then |w| == 1 && StopsWith(ehlo, EhloStage, a)
            else
              && |w| >= 2 && w[1] == Line(C.Helo(host))
              && var helo := ReplyTo(server, w, 2);
                 if Positive(helo) then Mails(server, sender, recipients, body, 2, a)
                 else |w| == 2 && StopsWith(helo, EhloStage, a)
  }

  // ---------------------------------------------------------------- every conversation keeps them

  lemma FailureMeans(r: ReadResult, stage: Stage)
    requires !Positive(r)
    ensures Failed(Failure(Complaint(r, stage)), r, stage)
  {
  }

  lemma VerdictIsFate(rcpt: ReadResult, final: ReadResult)
    ensures Fate(Verdict(rcpt, final), rcpt, Some(final))
    ensures !Positive(rcpt) ==> Fate(RcptResult(rcpt), rcpt, None)
  {
    if !Positive(rcpt) { FailureMeans(rcpt, RcptStage); }
    if !Positive(final) { FailureMeans(final, BodyStage); }
  }

  lemma PositiveSame(replies: seq<ReadResult>)
    ensures AnyPositive(replies) <==> SomePositive(replies)
  {
    forall i | 0 <= i < |replies| ensures IsPositive(replies[i]) <==> Positive(replies[i]) {}
  }

  lemma LeaveLaw(server: Server, writes: seq<string>, conn: Conn, recipients: seq<string>, rcpts: seq<ReadResult>,
                 final: Option<ReadResult>, results: Results)
    requires At(server, writes, conn) && |results| == |recipients| == |rcpts|
    requires forall i :: 0 <= i < |results| ==> results[i].0 == recipients[i] && Fate(results[i].1, rcpts[i], final)
    requires var a := Leave(server, conn, results, rcpts, final); a.conn.sent == writes
    ensures Leaves(server, recipients, rcpts, final, |conn.sent|, Leave(server, conn, results, rcpts, final))
    ensures At(server, writes, Leave(server, conn, results, rcpts, final).conn)
  {
    Write(server, writes, conn, Line(C.Quit));
  }

  lemma AskExtends(server: Server, conn: Conn, bytes: string)
    ensures Ask(server, conn, bytes).1.sent == conn.sent + [bytes]
  {
  }

  lemma VerdictsFates(recipients: seq<string>, rcpts: seq<ReadResult>, final: ReadResult)
    requires |rcpts| == |recipients|
    ensures var results := Verdicts(recipients, rcpts, final);
            |results| == |recipients|
            && forall i :: 0 <= i < |results| ==> results[i].0 == recipients[i] && Fate(results[i].1, rcpts[i], Some(final))
  {
    forall i | 0 <= i < |recipients| ensures Fate(Verdict(rcpts[i], final), rcpts[i], Some(final)) { VerdictIsFate(rcpts[i], final); }
  }

  lemma SendLaw(server: Server, writes: seq<string>, conn: Conn, recipients: seq<string>, rcpts: seq<ReadResult>, body: string)
    requires At(server, writes, conn) && |rcpts| == |recipients|
    requires SendMessage(server, conn, recipients, rcpts, body).conn.sent == writes
    ensures var a := SendMessage(server, conn, recipients, rcpts, body);
            Transfers(server, recipients, rcpts, body, |conn.sent|, a) && At(server, writes, a.conn)
  {
    var a := SendMessage(server, conn, recipients, rcpts, body);
    var (go, c1) := Ask(server, conn, Line(C.Data));
    SendExtends(server, conn, recipients, rcpts, body);
    AskExtends(server, conn, Line(C.Data));
    Write(server, writes, conn, Line(C.Data));
    if go.Ok? && go.value.code == 354 {
      var (final, c2) := Ask(server, c1, StuffBody(body));
      AskExtends(server, c1, StuffBody(body));
      Write(server, writes, c1, StuffBody(body));
      if final.Ok? {
        VerdictsFates(recipients, rcpts, final);
        LeaveLaw(server, writes, c2, recipients, rcpts, Some(final), Verdicts(recipients, rcpts, final));
      }
    }
  }

  lemma SendExtends(server: Server, conn: Conn, recipients: seq<string>, rcpts: seq<ReadResult>, body: string)
    requires |rcpts| == |recipients|
    ensures var a := SendMessage(server, conn, recipients, rcpts, body);
            var (go, c1) := Ask(server, conn, Line(C.Data));
            && c1.sent <= a.conn.sent
            && (go.Ok? && go.value.code == 354 ==> Ask(server, c1, StuffBody(body)).1.sent <= a.conn.sent)
  {
  }

  lemma RepliesSnoc(server: Server, writes: seq<string>, from: nat, n: nat)
    requires from + n + 1 <= |writes|
    ensures RepliesTo(server, writes, from, n + 1) == RepliesTo(server, writes, from, n) + [ReplyTo(server, writes, from + n + 1)]
  {
  }

  /** What asking some commands in turn comes to. */
  predicate AskedLaw(server: Server, writes: seq<string>, conn: Conn, commands: seq<string>, n: nat, r: Asked) {
    && n <= |commands| && |r.replies| <= n
    && At(server, writes, r.conn) && r.conn.sent == conn.sent + commands[..|r.replies|]
    && r.replies == RepliesTo(server, writes, |conn.sent|, |r.replies|)
    && NoPanicBefore(r.replies)
    && (|r.replies| < n ==> Panicking(r.replies))
  }

  lemma {:induction false} EachExtends(server: Server, conn: Conn, commands: seq<string>, n: nat)
    requires n <= |commands|
    ensures conn.sent <= AskEach(server, conn, commands, n).conn.sent
    ensures n > 0 ==> AskEach(server, conn, commands, n - 1).conn.sent <= AskEach(server, conn, commands, n).conn.sent
  {
    if n > 0 {
      EachExtends(server, conn, commands, n - 1);
      AskExtends(server, AskEach(server, conn, commands, n - 1).conn, commands[n - 1]);
    }
  }

  lemma {:induction false} EachLaw(server: Server, writes: seq<string>, conn: Conn, commands: seq<string>, n: nat)
    requires At(server, writes, conn) && n <= |commands| && AskEach(server, conn, commands, n).conn.sent <= writes
    ensures AskedLaw(server, writes, conn, commands, n, AskEach(server, conn, commands, n))
  {
    if n > 0 {
      EachExtends(server, conn, commands, n);
      var before := AskEach(server, conn, commands, n - 1);
      EachLaw(server, writes, conn, commands, n - 1);
      if !Panicking(before.replies) {
        EachLawNext(server, writes, conn, commands, n, before);
      }
    }
  }

  lemma EachLawNext(server: Server, writes: seq<string>, conn: Conn, commands: seq<string>, n: nat, before: Asked)
    requires 0 < n <= |commands| && AskedLaw(server, writes, conn, commands, n - 1, before) && !Panicking(before.replies)
    requires Ask(server, before.conn, commands[n - 1]).1.sent <= writes
    ensures var (r, next) := Ask(server, before.conn, commands[n - 1]);
            AskedLaw(server, writes, conn, commands, n, Asked(next, before.replies + [r]))
  {
    AskExtends(server, before.conn, commands[n - 1]);
    Write(server, writes, before.conn, commands[n - 1]);
    assert commands[..n] == commands[..n - 1] + [commands[n - 1]];
    RepliesSnoc(server, writes, |conn.sent|, n - 1);
  }

  lemma {:induction false} AfterMailExtends(server: Server, conn: Conn, recipients: seq<string>, body: string)
    ensures var commands := RcptLines(recipients);
            conn.sent <= AskEach(server, conn, commands, |commands|).conn.sent
                      <= AfterMail(server, conn, recipients, body).conn.sent
  {
    var commands := RcptLines(recipients);
    EachExtends(server, conn, commands, |commands|);
    var r := AskEach(server, conn, commands, |commands|);
    Client.RepliesTo(server, conn, commands, |commands|);
    if !Panicking(r.replies) {
      if AnyPositive(r.replies) {
        SendExtends(server, r.conn, recipients, r.replies, body);
        AskExtends(server, r.conn, Line(C.Data));
      } else {
        AskExtends(server, r.conn, Line(C.Quit));
      }
    }
  }

  lemma AfterMailLaw(server: Server, writes: seq<string>, conn: Conn, recipients: seq<string>, body: string)
    requires At(server, writes, conn) && AfterMail(server, conn, recipients, body).conn.sent == writes
    ensures var a := AfterMail(server, conn, recipients, body);
            Asks(server, recipients, body, |conn.sent|, a) && At(server, writes, a.conn)
  {
    var commands := RcptLines(recipients);
    var r := AskEach(server, conn, commands, |commands|);
    AfterMailExtends(server, conn, recipients, body);
    EachLaw(server, writes, conn, commands, |commands|);
    AfterMailIs(server, conn, recipients, body, r);
    FromAsked(server, writes, conn, recipients, commands, body, r, AfterMail(server, conn, recipients, body));
  }

  /** The conversation once the recipients have been asked. */
  predicate GoesOn(server: Server, recipients: seq<string>, body: string, r: Asked, a: Attempt) {
    if Panicking(r.replies) then a == Attempt(Err(Panicked), r.conn, r.replies, None)
    else
      && |r.replies| == |recipients|
      && a == if AnyPositive(r.replies) then SendMessage(server, r.conn, recipients, r.replies, body)
              else Leave(server, r.conn, RcptResults(recipients, r.replies), r.replies, None)
  }

  lemma FromAsked(server: Server, writes: seq<string>, conn: Conn, recipients: seq<string>, commands: seq<string>, body: string,
                  r: Asked, a: Attempt)
    requires commands == RcptLines(recipients) && AskedLaw(server, writes, conn, commands, |commands|, r)
    requires a.conn.sent == writes && GoesOn(server, recipients, body, r, a)
    ensures Asks(server, recipients, body, |conn.sent|, a) && At(server, writes, a.conn)
  {
    AskedIsSoFar(server, writes, conn, recipients, commands, r, a);
    if Panicking(r.replies) {
      AsksBroken(server, recipients, body, |conn.sent|, r.replies, a);
    } else {
      var q := |r.conn.sent|;
      ClosesRightly(server, writes, recipients, body, r, q, a);
      AsksAll(server, recipients, body, |conn.sent|, r.replies, q, a);
    }
  }

  lemma AskedIsSoFar(server: Server, writes: seq<string>, conn: Conn, recipients: seq<string>, commands: seq<string>,
                     r: Asked, a: Attempt)
    requires commands == RcptLines(recipients) && AskedLaw(server, writes, conn, commands, |commands|, r)
    requires a.conn.sent == writes
    ensures AskedSoFar(server, recipients, |conn.sent|, r.replies, a) && |r.conn.sent| == |conn.sent| + |r.replies|
  {
    RcptsWritten(writes, conn.sent, recipients, |r.replies|);
  }

  lemma ClosesRightly(server: Server, writes: seq<string>, recipients: seq<string>, body: string, r: Asked, q: nat,
                      a: Attempt)
    requires At(server, writes, r.conn) && !Panicking(r.replies) && q == |r.conn.sent|
    requires a.conn.sent == writes && GoesOn(server, recipients, body, r, a)
    ensures At(server, writes, a.conn)
    ensures if SomePositive(r.replies) then Transfers(server, recipients, r.replies, body, q, a)
            else Leaves(server, recipients, r.replies, None, q, a)
  {
    PositiveSame(r.replies);
    if AnyPositive(r.replies) {
      SendLaw(server, writes, r.conn, recipients, r.replies, body);
    } else {
      NobodyLaw(server, writes, r.conn, recipients, r.replies);
    }
  }

  lemma {:induction false} AfterMailIs(server: Server, conn: Conn, recipients: seq<string>, body: string, r: Asked)
    requires r == AskEach(server, conn, RcptLines(recipients), |recipients|)
    requires |r.replies| < |recipients| ==> Panicking(r.replies)
    requires |r.replies| <= |recipients|
    ensures GoesOn(server, recipients, body, r, AfterMail(server, conn, recipients, body))
  {
  }

  /** The recipients asked so far, `rcpts` being the replies to them. */
  predicate AskedSoFar(server: Server, recipients: seq<string>, m: nat, rcpts: seq<ReadResult>, a: Attempt) {
    var w := a.conn.sent;
    && |rcpts| <= |recipients| && m + |rcpts| <= |w| && rcpts == RepliesTo(server, w, m, |rcpts|)
    && (forall i :: 0 <= i < |rcpts| ==> w[m..][i] == Line(C.RcptTo(recipients[i], [])))
    && NoPanicBefore(rcpts)
  }

  lemma AsksBroken(server: Server, recipients: seq<string>, body: string, m: nat, rcpts: seq<ReadResult>, a: Attempt)
    requires AskedSoFar(server, recipients, m, rcpts, a) && Panicking(rcpts)
    requires |a.conn.sent| == m + |rcpts| && a.result == Err(Panicked)
    ensures Asks(server, recipients, body, m, a)
  {
  }

  lemma AsksAll(server: Server, recipients: seq<string>, body: string, m: nat, rcpts: seq<ReadResult>, q: nat, a: Attempt)
    requires AskedSoFar(server, recipients, m, rcpts, a) && |rcpts| == |recipients| && !Panicking(rcpts)
    requires q == m + |rcpts|
    requires if SomePositive(rcpts) then Transfers(server, recipients, rcpts, body, q, a)
             else Leaves(server, recipients, rcpts, None, q, a)
    ensures Asks(server, recipients, body, m, a)
  {
    assert Least(|recipients|, |a.conn.sent| - m) == |rcpts|;
    AllAsked(server, recipients, body, m, rcpts, q, a);
  }

  lemma AllAsked(server: Server, recipients: seq<string>, body: string, m: nat, rcpts: seq<ReadResult>, q: nat, a: Attempt)
    requires AskedSoFar(server, recipients, m, rcpts, a) && |rcpts| == |recipients| && !Panicking(rcpts)
    requires q == m + |rcpts|
    requires if SomePositive(rcpts) then Transfers(server, recipients, rcpts, body, q, a)
             else Leaves(server, recipients, rcpts, None, q, a)
    ensures AsksWith(server, recipients, body, m, rcpts, a)
  {
  }

  lemma NobodyLaw(server: Server, writes: seq<string>, conn: Conn, recipients: seq<string>, rcpts: seq<ReadResult>)
    requires At(server, writes, conn) && |rcpts| == |recipients| && !SomePositive(rcpts)
    requires Leave(server, conn, RcptResults(recipients, rcpts), rcpts, None).conn.sent == writes
    ensures var a := Leave(server, conn, RcptResults(recipients, rcpts), rcpts, None);
            Leaves(server, recipients, rcpts, None, |conn.sent|, a) && At(server, writes, a.conn)
  {
    forall i | 0 <= i < |rcpts| ensures Fate(RcptResult(rcpts[i]), rcpts[i], None) { VerdictIsFate(rcpts[i], rcpts[i]); }
    LeaveLaw(server, writes, conn, recipients, rcpts, None, RcptResults(recipients, rcpts));
  }

  lemma RcptsWritten(writes: seq<string>, before: seq<string>, recipients: seq<string>, k: nat)
    requires k <= |recipients| && before + RcptLines(recipients)[..k] <= writes
    ensures forall i :: 0 <= i < k ==> writes[|before|..][i] == Line(C.RcptTo(recipients[i], []))
  {
    forall i | 0 <= i < k ensures writes[|before|..][i] == Line(C.RcptTo(recipients[i], [])) {
      assert writes[|before| + i] == (before + RcptLines(recipients)[..k])[|before| + i];
    }
  }

  // ---------------------------------------------------------------- the opening

  lemma MailLaw(server: Server, writes: seq<string>, conn: Conn, sender: string, recipients: seq<string>, body: string,
                r: ReadResult, conn': Conn, a: Attempt)
    requires At(server, writes, conn) && Ask(server, conn, Line(C.MailFrom(sender, [SizeParameter(|body|)]))) == (r, conn')
    requires a == if IsPositive(r) then AfterMail(server, conn', recipients, body)
                  else Attempt(Err(Complaint(r, MailStage)), conn', [], None)
    requires a.conn.sent == writes
    ensures Mails(server, sender, recipients, body, |conn.sent|, a) && At(server, writes, a.conn)
  {
    AskExtends(server, conn, Line(C.MailFrom(sender, [SizeParameter(|body|)])));
    AfterMailExtends(server, conn', recipients, body);
    ComplaintMeans(r, MailStage);
    Write(server, writes, conn, Line(C.MailFrom(sender, [SizeParameter(|body|)])));
    if IsPositive(r) { AfterMailLaw(server, writes, conn', recipients, body); }
  }

  lemma MailExtends(server: Server, conn: Conn, sender: string, recipients: seq<string>, body: string, a: Attempt)
    requires var (r, conn') := Ask(server, conn, Line(C.MailFrom(sender, [SizeParameter(|body|)])));
             a == if IsPositive(r) then AfterMail(server, conn', recipients, body)
                  else Attempt(Err(Complaint(r, MailStage)), conn', [], None)
    ensures conn.sent <= a.conn.sent
  {
    var (r, conn') := Ask(server, conn, Line(C.MailFrom(sender, [SizeParameter(|body|)])));
    AskExtends(server, conn, Line(C.MailFrom(sender, [SizeParameter(|body|)])));
    AfterMailExtends(server, conn', recipients, body);
  }

  /** In every conversation each line is the one due after the replies so far, and the result is what
      they amount to. */
  lemma EveryLineIsDue(server: Server, host: string, sender: string, recipients: seq<string>, body: string)
    ensures Greets(server, host, sender, recipients, body, Converse(server, host, sender, recipients, body))
  {
    var a := Converse(server, host, sender, recipients, body);
    var writes := a.conn.sent;
    var (greeting, c0) := Receive(Open(server));
    Start(server, writes);
    ComplaintMeans(greeting, Connect);
    if IsPositive(greeting) {
      HelloLaw(server, writes, c0, host, sender, recipients, body, a);
    }
  }

  lemma HelloLaw(server: Server, writes: seq<string>, c0: Conn, host: string, sender: string, recipients: seq<string>,
                 body: string, a: Attempt)
    requires At(server, writes, c0) && c0.sent == [] && a.conn.sent == writes
    requires var (failed, c1) := SayHello(server, c0, host);
             if failed.Some? then a == Attempt(Err(failed.value), c1, [], None)
             else var (mail, c2) := Ask(server, c1, Line(C.MailFrom(sender, [SizeParameter(|body|)])));
                  a == if IsPositive(mail) then AfterMail(server, c2, recipients, body)
                       else Attempt(Err(Complaint(mail, MailStage)), c2, [], None)
    ensures At(server, writes, a.conn) && |writes| >= 1 && writes[0] == Line(C.Ehlo(host))
    ensures var ehlo := ReplyTo(server, writes, 1);
            if Positive(ehlo) then Mails(server, sender, recipients, body, 1, a)
            else if ehlo.Err? then |writes| == 1 && StopsWith(ehlo, EhloStage, a)
            else
              && |writes| >= 2 && writes[1] == Line(C.Helo(host))
              && var helo := ReplyTo(server, writes, 2);
                 if Positive(helo) then Mails(server, sender, recipients, body, 2, a)
                 else |writes| == 2 && StopsWith(helo, EhloStage, a)
  {
    var (failed, c1) := SayHello(server, c0, host);
    var (ehlo, e1) := Ask(server, c0, Line(C.Ehlo(host)));
    var (helo, e2) := Ask(server, e1, Line(C.Helo(host)));
    AskExtends(server, c0, Line(C.Ehlo(host)));
    AskExtends(server, e1, Line(C.Helo(host)));
    ComplaintMeans(ehlo, EhloStage);
    ComplaintMeans(helo, EhloStage);
    if failed.None? { MailExtends(server, c1, sender, recipients, body, a); }
    Write(server, writes, c0, Line(C.Ehlo(host)));
    if !IsPositive(ehlo) && ehlo.Ok? { Write(server, writes, e1, Line(C.Helo(host))); }
    if failed.None? {
      var (mail, c2) := Ask(server, c1, Line(C.MailFrom(sender, [SizeParameter(|body|)])));
      MailLaw(server, writes, c1, sender, recipients, body, mail, c2, a);
    }
  }
}
