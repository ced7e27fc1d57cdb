/**
 The server's side of the protocol as its history shows it: which state a session is in, and which
 reply every line draws, from the lines and replies before it alone.
 */
module SessionRules {
  import opened Text
  import opened Answer
  import opened Session
  import opened SessionHistory
  import C = Command

  // ---------------------------------------------------------------- what a history shows

  predicate IsGreeting(e: Exchange) {
    e.command.Some? && (e.command.value.Ehlo? || e.command.value.Helo?)
  }

  predicate IsQuit(e: Exchange) {
    e.command == Some(C.Quit)
  }

  predicate GreetedAt(log: seq<Exchange>, i: nat) {
    i < |log| && IsGreeting(log[i])
  }

  predicate QuitAt(log: seq<Exchange>, i: nat) {
    i < |log| && IsQuit(log[i])
  }

  /** The client has said EHLO or HELO. */
  ghost predicate Greeted(log: seq<Exchange>) {
    exists i :: GreetedAt(log, i)
  }

  ghost predicate HasQuit(log: seq<Exchange>) {
    exists i :: QuitAt(log, i)
  }

  /** A MAIL has been accepted, and no reset or end of data has come since. */
  ghost predicate MailOpen(log: seq<Exchange>) {
    exists i :: SenderAt(log, i)
  }

  /** ... and after it a RCPT. */
  ghost predicate RcptOpen(log: seq<Exchange>) {
    exists i, j :: TransactionAt(log, i, j)
  }

  /** A 354, and since then nothing but text lines without an answer. */
  ghost predicate TextOpen(log: seq<Exchange>) {
    exists j :: CollectingFrom(log, j)
  }

  ghost predicate StateIs(log: seq<Exchange>, s: Session) {
    && (s.closing <==> HasQuit(log))
    && (s.state == Closed <==> HasQuit(log))
    && (!HasQuit(log) ==>
          && (s.state == Connected <==> !Greeted(log))
          && (s.state == ReceivingData <==> TextOpen(log))
          && (s.state == RcptTo <==> RcptOpen(log) && !TextOpen(log))
          && (s.state == MailFrom <==> MailOpen(log) && !RcptOpen(log)))
  }

  // ---------------------------------------------------------------- one more entry

  lemma GreetedNext(log: seq<Exchange>, e: Exchange)
    ensures Greeted(log + [e]) <==> Greeted(log) || IsGreeting(e)
    ensures HasQuit(log + [e]) <==> HasQuit(log) || IsQuit(e)
  {
    var all := log + [e];
    forall i | 0 <= i < |log| ensures all[i] == log[i] {}
    forall i | GreetedAt(log, i) ensures GreetedAt(all, i) {}
    forall i | QuitAt(log, i) ensures QuitAt(all, i) {}
    assert IsGreeting(e) ==> GreetedAt(all, |log|);
    assert IsQuit(e) ==> QuitAt(all, |log|);
    forall i: nat | GreetedAt(all, i) ensures Greeted(log) || IsGreeting(e) { assert i < |log| ==> GreetedAt(log, i); }
    forall i: nat | QuitAt(all, i) ensures HasQuit(log) || IsQuit(e) { assert i < |log| ==> QuitAt(log, i); }
  }

  lemma UndisturbedNext(log: seq<Exchange>, e: Exchange, i: nat)
    requires i < |log|
    ensures Undisturbed(log + [e], i) <==> Undisturbed(log, i) && !IsReset(e) && !IsEndOfData(e)
  {
    var all := log + [e];
    forall m | 0 <= m < |log| ensures all[m] == log[m] {}
    assert all[|log|] == e;
  }

  predicate Ends(e: Exchange) {
    IsReset(e) || IsEndOfData(e)
  }

  lemma SenderNext(log: seq<Exchange>, e: Exchange, i: nat)
    ensures i < |log| ==> (SenderAt(log + [e], i) <==> SenderAt(log, i) && !Ends(e))
    ensures i == |log| ==> (SenderAt(log + [e], i) <==> AcceptsSender(e) && !Ends(e))
  {
    if i < |log| { UndisturbedNext(log, e, i); }
  }

  lemma MailOpenNext(log: seq<Exchange>, e: Exchange)
    ensures MailOpen(log + [e]) <==> !Ends(e) && (MailOpen(log) || AcceptsSender(e))
  {
    var all := log + [e];
    if i :| SenderAt(all, i) { SenderNext(log, e, i); }
    if i :| SenderAt(log, i) { SenderNext(log, e, i); }
    SenderNext(log, e, |log|);
  }

  lemma TransactionNext(log: seq<Exchange>, e: Exchange, i: nat, j: nat)
    ensures j < |log| ==> (TransactionAt(log + [e], i, j) <==> TransactionAt(log, i, j) && !Ends(e))
    ensures j == |log| ==> (TransactionAt(log + [e], i, j) <==> SenderAt(log, i) && AcceptsRecipient(e) && !Ends(e))
  {
    SenderNext(log, e, i);
  }

  lemma RcptOpenNext(log: seq<Exchange>, e: Exchange)
    ensures RcptOpen(log + [e]) <==> !Ends(e) && (RcptOpen(log) || (MailOpen(log) && AcceptsRecipient(e)))
  {
    var all := log + [e];
    if i, j :| TransactionAt(all, i, j) { TransactionNext(log, e, i, j); }
    if i, j :| TransactionAt(log, i, j) { TransactionNext(log, e, i, j); }
    if i :| SenderAt(log, i) { TransactionNext(log, e, i, |log|); }
  }

  lemma CollectingNext(log: seq<Exchange>, e: Exchange, j: nat)
    ensures j < |log| ==> (CollectingFrom(log + [e], j) <==> CollectingFrom(log, j) && e.inData && e.reply.None?)
    ensures j == |log| ==> (CollectingFrom(log + [e], j) <==> StartsData(e) && !e.inData)
  {
    var all := log + [e];
    forall m | 0 <= m < |log| ensures all[m] == log[m] {}
    assert all[|log|] == e;
  }

  lemma TextOpenNext(log: seq<Exchange>, e: Exchange)
    ensures TextOpen(log + [e]) <==> (TextOpen(log) && e.inData && e.reply.None?) || (StartsData(e) && !e.inData)
  {
    var all := log + [e];
    if j :| CollectingFrom(all, j) { CollectingNext(log, e, j); }
    if j :| CollectingFrom(log, j) { CollectingNext(log, e, j); }
    CollectingNext(log, e, |log|);
  }

  /** Only an open transaction can have text. */
  lemma RcptNeedsMail(log: seq<Exchange>)
    ensures RcptOpen(log) ==> MailOpen(log)
  {
    if i, j :| TransactionAt(log, i, j) { assert SenderAt(log, i); }
  }

  // ---------------------------------------------------------------- which reply is due

  /** `SIZE=` and a number, which may have a plus sign, that fits the machine's word. */
  predicate Declares(parameter: string, digits: string) {
    && digits != "" && AllDigits(digits) && DigitsValue(digits) <= USIZE_MAX
    && (parameter == "SIZE=" + digits || parameter == "SIZE=+" + digits)
  }

  ghost predicate Excessive(parameters: seq<string>, max: nat) {
    exists p, d :: p in parameters && Declares(p, d) && DigitsValue(d) > max
  }

  /** The reply to a command, given what came before it. */
  ghost predicate Due(cfg: Config, log: seq<Exchange>, cmd: C.Command, reply: Answer) {
    match cmd
    case Ehlo(host) => reply == EhloAccepted(host) && Code(reply) == 250
    case Helo(host) => reply == HeloAccepted(host) && Code(reply) == 250
    case MailFrom(_, parameters) =>
      if !Greeted(log) || MailOpen(log) then reply == BadSequence(MailBeforeHello) && Code(reply) == 503
      else if Excessive(parameters, cfg.maxMessageSize) then reply == TooLarge && Code(reply) == 552
      else reply == Accepted && Code(reply) == 250
    case RcptTo(_, _) =>
      if !MailOpen(log) then reply == BadSequence(RcptBeforeMail) && Code(reply) == 503
      else if |AcceptedSinceReset(log)| >= cfg.maxRecipients then reply == TooManyRecipients && Code(reply) == 452
      else reply == Accepted && Code(reply) == 250
    case Data =>
      if RcptOpen(log) then reply == StartMail && Code(reply) == 354
      else reply == BadSequence(if MailOpen(log) then DataBeforeRcpt else DataBeforeMail) && Code(reply) == 503
    case Quit => reply == Goodbye && Code(reply) == 221
    case Rset => reply == Accepted && Code(reply) == 250
    case Noop => reply == Accepted && Code(reply) == 250
    case Vrfy(_) => reply == CannotVerify && Code(reply) == 252
    case Help(_) => reply == HelpText && Code(reply) == 214
  }

  /** The reply to a line that is no command. */
  predicate Refused(e: C.ParseError, reply: Answer) {
    match e
    case EmptyCommand => reply == NoCommand && Code(reply) == 500
    case UnrecognizedCommand(verb) => reply == Unrecognized(verb) && Code(reply) == 500
    case InvalidSyntax(fault) => reply == BadSyntax(fault) && Code(reply) == 501
    case InvalidAddress(problem) => reply == BadAddress(problem) && Code(reply) == 553
  }

  /** The text since the 354 at `j`, with one more line. */
  function TextWith(log: seq<Exchange>, j: nat, line: string): string
    requires j < |log|
  {
    Collected(log[j + 1..]) + Unstuff(TrimEol(line)) + CRLF
  }

  /** A line of text is answered if it is the final dot or makes the text too long. */
  ghost predicate TextDue(cfg: Config, log: seq<Exchange>, line: string, id: string, reply: Option<Answer>) {
    if TrimEol(line) == "." then reply == Some(Queued(id)) && Code(reply.value) == 250
    else exists j :: CollectingFrom(log, j) &&
           if |TextWith(log, j, line)| > cfg.maxMessageSize then reply == Some(TooLarge) && Code(reply.value) == 552
           else reply == None
  }

  /** The queue id given with the latest 354 since the last reset, `ids` being what the generator
      returns if it is asked at a line. */
  function IdSinceReset(ids: nat -> string, log: seq<Exchange>): string {
    if log == [] then ""
    else
      var n := |log| - 1;
      if IsReset(log[n]) then "" else if StartsData(log[n]) && !log[n].inData then ids(n) else IdSinceReset(ids, log[..n])
  }

  /** The host named in the latest EHLO or HELO. */
  function HostOf(log: seq<Exchange>): Option<string> {
    if log == [] then None
    else
      var n := |log| - 1;
      if IsGreeting(log[n]) then Some(log[n].command.value.host) else HostOf(log[..n])
  }

  /** The parameters of the latest accepted MAIL after the latest reset. */
  function ParametersSinceReset(log: seq<Exchange>): seq<string> {
    if log == [] then []
    else
      var last := log[|log| - 1];
      if IsReset(last) then []
      else if AcceptsSender(last) then last.command.value.parameters
      else ParametersSinceReset(log[..|log| - 1])
  }

  /** The entry a line gets. */
  ghost predicate EntryIs(c: Connection, log: seq<Exchange>, line: string, e: Exchange) {
    && e.line == line && (e.inData <==> TextOpen(log))
    && if TextOpen(log) then e.command == None && TextDue(c.cfg, log, line, IdSinceReset(c.ids, log), e.reply)
       else CommandEntryIs(c.cfg, log, C.Parse(Trim(line)), e)
  }

  ghost predicate CommandEntryIs(cfg: Config, log: seq<Exchange>, parsed: Result<C.Command, C.ParseError>, e: Exchange) {
    && e.reply.Some?
    && match parsed
       case Ok(cmd) => e.command == Some(cmd) && Due(cfg, log, cmd, e.reply.value)
       case Err(error) => e.command == None && Refused(error, e.reply.value)
  }

  /** What else of the envelope the history shows. */
  ghost predicate EnvelopeIs(c: Connection, log: seq<Exchange>, s: Session) {
    && s.envelope.id == IdSinceReset(c.ids, log)
    && s.envelope.clientHostname == HostOf(log) && s.envelope.peerAddr == Some(c.peer)
    && s.envelope.mailParameters == ParametersSinceReset(log) && s.envelope.priority == 1
  }

  ghost predicate Ruled(c: Connection, log: seq<Exchange>, s: Session) {
    Explains(c.cfg, log, s) && StateIs(log, s) && EnvelopeIs(c, log, s)
  }

  // ---------------------------------------------------------------- the replies are the ones due

  lemma {:induction false} DeclaresIff(parameter: string, digits: string)
    requires Declares(parameter, digits)
    ensures DeclaredSize(parameter) == Some(DigitsValue(digits))
  {
    if parameter == "SIZE=" + digits {
      assert parameter[5..] == digits && parameter[..5] == "SIZE=" && digits[0] != '+';
    } else {
      assert parameter[5..] == "+" + digits && parameter[..5] == "SIZE=";
      assert ("+" + digits)[1..] == digits;
    }
  }

  lemma DeclaredIs(parameter: string)
    requires DeclaredSize(parameter).Some?
    ensures exists d :: Declares(parameter, d) && DigitsValue(d) == DeclaredSize(parameter).value
  {
    var rest := parameter[5..];
    assert parameter == "SIZE=" + rest;
    var digits := if rest != "" && rest[0] == '+' then rest[1..] else rest;
    assert rest == digits || rest == "+" + digits;
    assert parameter == "SIZE=" + digits || parameter == "SIZE=+" + digits;
    assert Declares(parameter, digits);
  }

  lemma ExcessiveIff(parameters: seq<string>, max: nat)
    ensures Excessive(parameters, max) <==> DeclaresTooMuch(parameters, max)
  {
    if p, d :| p in parameters && Declares(p, d) && DigitsValue(d) > max {
      DeclaresIff(p, d);
    }
    if p :| p in parameters && DeclaredSize(p).Some? && DeclaredSize(p).value > max {
      DeclaredIs(p);
    }
  }

  lemma RepliesDue(c: Connection, log: seq<Exchange>, s: Session, cmd: C.Command, freshId: string)
    requires Ruled(c, log, s) && !s.closing && s.state != ReceivingData
    ensures Due(c.cfg, log, cmd, HandleCommand(c.cfg, s, cmd, freshId).1)
  {
    NeedsGreeting(c, log, s);
    match cmd
    case MailFrom(_, _) => MailDue(c, log, s, cmd);
    case RcptTo(_, _) => RcptDue(c, log, s, cmd);
    case Data => DataDue(c, log, s, freshId);
    case _ => OtherDue(c, log, s, cmd, freshId);
  }

  lemma RcptDue(c: Connection, log: seq<Exchange>, s: Session, cmd: C.Command)
    requires cmd.RcptTo? && EnvelopeExplained(c.cfg, log, s)
    requires s.state == MailFrom || s.state == RcptTo <==> MailOpen(log)
    ensures Due(c.cfg, log, cmd, HandleRcptTo(c.cfg, s, cmd.address).1)
  {
  }

  lemma DataDue(c: Connection, log: seq<Exchange>, s: Session, freshId: string)
    requires StateIs(log, s) && !s.closing && s.state != ReceivingData
    ensures Due(c.cfg, log, C.Data, HandleData(s, freshId).1)
  {
    RcptNeedsMail(log);
  }

  lemma OtherDue(c: Connection, log: seq<Exchange>, s: Session, cmd: C.Command, freshId: string)
    requires !cmd.MailFrom? && !cmd.RcptTo? && !cmd.Data?
    ensures Due(c.cfg, log, cmd, HandleCommand(c.cfg, s, cmd, freshId).1)
  {
  }

  lemma MailDue(c: Connection, log: seq<Exchange>, s: Session, cmd: C.Command)
    requires cmd.MailFrom? && (s.state == Ready <==> Greeted(log) && !MailOpen(log))
    ensures Due(c.cfg, log, cmd, HandleMailFrom(c.cfg, s, cmd.address, cmd.parameters).1)
  {
    ExcessiveIff(cmd.parameters, c.cfg.maxMessageSize);
  }

  /** A state with an open MAIL is none of the first two. */
  lemma NeedsGreeting(c: Connection, log: seq<Exchange>, s: Session)
    requires StateIs(log, s) && !s.closing && s.state != ReceivingData
    ensures s.state == Ready <==> Greeted(log) && !MailOpen(log)
    ensures s.state == MailFrom || s.state == RcptTo <==> MailOpen(log)
  {
    RcptNeedsMail(log);
  }

  lemma {:induction false} TextRepliesDue(c: Connection, log: seq<Exchange>, s: Session, line: string)
    requires Ruled(c, log, s) && s.state == ReceivingData
    ensures var o := DataStep(c.cfg, s, line); TextDue(c.cfg, log, line, IdSinceReset(c.ids, log), o.exchange.reply)
  {
    var j: nat :| CollectingFrom(log, j) && s.buffer == Collected(log[j + 1..]);
    TextReplyAt(c.cfg, log, s, line, j);
  }

  lemma TextReplyAt(cfg: Config, log: seq<Exchange>, s: Session, line: string, j: nat)
    requires CollectingFrom(log, j) && s.buffer == Collected(log[j + 1..])
    ensures TextDue(cfg, log, line, s.envelope.id, DataStep(cfg, s, line).exchange.reply)
  {
    assert TextWith(log, j, line) == s.buffer + Unstuff(TrimEol(line)) + CRLF;
  }

  // ---------------------------------------------------------------- every step keeps the rules

  /** Whether the history shows a greeting, a QUIT, an open MAIL, an open RCPT, open text. */
  ghost predicate Shows(log: seq<Exchange>, greeted: bool, quit: bool, mail: bool, rcpt: bool, text: bool) {
    Greeted(log) == greeted && HasQuit(log) == quit && MailOpen(log) == mail && RcptOpen(log) == rcpt && TextOpen(log) == text
  }

  lemma ShowsNext(log: seq<Exchange>, e: Exchange, greeted: bool, quit: bool, mail: bool, rcpt: bool, text: bool)
    requires Shows(log, greeted, quit, mail, rcpt, text)
    ensures Shows(log + [e], greeted || IsGreeting(e), quit || IsQuit(e), !Ends(e) && (mail || AcceptsSender(e)),
                  !Ends(e) && (rcpt || (mail && AcceptsRecipient(e))),
                  (text && e.inData && e.reply.None?) || (StartsData(e) && !e.inData))
  {
    GreetedNext(log, e);
    MailOpenNext(log, e);
    RcptOpenNext(log, e);
    TextOpenNext(log, e);
  }

  /** The state as those five say. */
  predicate StateFits(s: Session, greeted: bool, quit: bool, mail: bool, rcpt: bool, text: bool) {
    && (s.closing <==> quit) && (s.state == Closed <==> quit)
    && (!quit ==>
          && (s.state == Connected <==> !greeted) && (s.state == ReceivingData <==> text)
          && (s.state == RcptTo <==> rcpt && !text) && (s.state == MailFrom <==> mail && !rcpt))
    && (rcpt ==> mail)
  }

  lemma FitsNext(c: Connection, s: Session, line: string, freshId: string, parsed: Result<C.Command, C.ParseError>,
                 greeted: bool, quit: bool, mail: bool, rcpt: bool, text: bool)
    requires StateFits(s, greeted, quit, mail, rcpt, text) && !s.closing
    ensures var o := if s.state == ReceivingData then DataStep(c.cfg, s, line) else ParsedStep(c.cfg, s, line, parsed, freshId);
            var e := o.exchange;
            StateFits(o.session, greeted || IsGreeting(e), quit || IsQuit(e), !Ends(e) && (mail || AcceptsSender(e)),
                      !Ends(e) && (rcpt || (mail && AcceptsRecipient(e))),
                      (text && e.inData && e.reply.None?) || (StartsData(e) && !e.inData))
  {
  }

  lemma StateNext(c: Connection, log: seq<Exchange>, s: Session, line: string, freshId: string)
    requires StateIs(log, s) && !s.closing
    ensures var o := Step(c.cfg, s, line, freshId); StateIs(log + [o.exchange], o.session)
  {
    var greeted, quit, mail, rcpt, text := Greeted(log), HasQuit(log), MailOpen(log), RcptOpen(log), TextOpen(log);
    RcptNeedsMail(log);
    FitsNext(c, s, line, freshId, C.Parse(Trim(line)), greeted, quit, mail, rcpt, text);
    ShowsNext(log, Step(c.cfg, s, line, freshId).exchange, greeted, quit, mail, rcpt, text);
  }

  lemma {:induction false} EnvelopeNext(ids: nat -> string, log: seq<Exchange>, e: Exchange)
    ensures IdSinceReset(ids, log + [e])
         == if IsReset(e) then "" else if StartsData(e) && !e.inData then ids(|log|) else IdSinceReset(ids, log)
    ensures HostOf(log + [e]) == if IsGreeting(e) then Some(e.command.value.host) else HostOf(log)
    ensures ParametersSinceReset(log + [e])
         == if IsReset(e) then [] else if AcceptsSender(e) then e.command.value.parameters else ParametersSinceReset(log)
  {
    assert (log + [e])[..|log|] == log;
  }

  lemma EnvelopeInText(c: Connection, log: seq<Exchange>, s: Session, line: string)
    requires EnvelopeIs(c, log, s) && s.state == ReceivingData
    ensures var o := DataStep(c.cfg, s, line); EnvelopeIs(c, log + [o.exchange], o.session)
  {
    EnvelopeNext(c.ids, log, DataStep(c.cfg, s, line).exchange);
  }

  /** The envelope after an entry, given the one before it. */
  predicate EnvelopeFollows(ids: nat -> string, n: nat, s: Session, e: Exchange, s': Session) {
    && s'.envelope.id == (if IsReset(e) then "" else if StartsData(e) && !e.inData then ids(n) else s.envelope.id)
    && s'.envelope.clientHostname == (if IsGreeting(e) then Some(e.command.value.host) else s.envelope.clientHostname)
    && s'.envelope.peerAddr == s.envelope.peerAddr && s'.envelope.priority == s.envelope.priority
    && s'.envelope.mailParameters == (if IsReset(e) then [] else if AcceptsSender(e) then e.command.value.parameters
                                      else s.envelope.mailParameters)
  }

  lemma CommandFollows(c: Connection, n: nat, s: Session, line: string, parsed: Result<C.Command, C.ParseError>)
    ensures var o := ParsedStep(c.cfg, s, line, parsed, c.ids(n)); EnvelopeFollows(c.ids, n, s, o.exchange, o.session)
  {
  }

  lemma EnvelopeInCommand(c: Connection, log: seq<Exchange>, s: Session, line: string, parsed: Result<C.Command, C.ParseError>)
    requires EnvelopeIs(c, log, s)
    ensures var o := ParsedStep(c.cfg, s, line, parsed, c.ids(|log|)); EnvelopeIs(c, log + [o.exchange], o.session)
  {
    var o := ParsedStep(c.cfg, s, line, parsed, c.ids(|log|));
    CommandFollows(c, |log|, s, line, parsed);
    EnvelopeCarried(c, log, s, o.exchange, o.session);
  }

  lemma EnvelopeCarried(c: Connection, log: seq<Exchange>, s: Session, e: Exchange, s': Session)
    requires EnvelopeIs(c, log, s) && EnvelopeFollows(c.ids, |log|, s, e, s')
    ensures EnvelopeIs(c, log + [e], s')
  {
    EnvelopeNext(c.ids, log, e);
  }

  lemma EnvelopeStays(c: Connection, log: seq<Exchange>, s: Session, line: string)
    requires EnvelopeIs(c, log, s)
    ensures var o := Step(c.cfg, s, line, c.ids(|log|)); EnvelopeIs(c, log + [o.exchange], o.session)
  {
    if s.state == ReceivingData {
      EnvelopeInText(c, log, s, line);
    } else {
      EnvelopeInCommand(c, log, s, line, C.Parse(Trim(line)));
    }
  }

  lemma StepRuled(c: Connection, log: seq<Exchange>, s: Session, line: string)
    requires Ruled(c, log, s) && !s.closing
    ensures var o := Step(c.cfg, s, line, c.ids(|log|)); EntryIs(c, log, line, o.exchange) && Ruled(c, log + [o.exchange], o.session)
  {
    StepExplained(c.cfg, log, s, line, c.ids(|log|));
    StateNext(c, log, s, line, c.ids(|log|));
    EnvelopeStays(c, log, s, line);
    EntryFits(c, log, s, line);
  }

  lemma EntryFits(c: Connection, log: seq<Exchange>, s: Session, line: string)
    requires Ruled(c, log, s) && !s.closing
    ensures EntryIs(c, log, line, Step(c.cfg, s, line, c.ids(|log|)).exchange)
  {
    if s.state == ReceivingData {
      TextEntryFits(c, log, s, line);
    } else {
      CommandEntryFits(c, log, s, line, C.Parse(Trim(line)));
    }
  }

  lemma TextEntryFits(c: Connection, log: seq<Exchange>, s: Session, line: string)
    requires Ruled(c, log, s) && !s.closing && s.state == ReceivingData
    ensures TextOpen(log) && EntryIs(c, log, line, DataStep(c.cfg, s, line).exchange)
  {
    TextRepliesDue(c, log, s, line);
  }

  lemma CommandEntryFits(c: Connection, log: seq<Exchange>, s: Session, line: string, parsed: Result<C.Command, C.ParseError>)
    requires Ruled(c, log, s) && !s.closing && s.state != ReceivingData
    ensures var e := ParsedStep(c.cfg, s, line, parsed, c.ids(|log|)).exchange;
            !TextOpen(log) && e.line == line && !e.inData && CommandEntryIs(c.cfg, log, parsed, e)
  {
    if parsed.Ok? { RepliesDue(c, log, s, parsed.value, c.ids(|log|)); }
  }

  // ---------------------------------------------------------------- every run

  lemma FreshRuled(c: Connection)
    ensures Ruled(c, [], Fresh(c.peer))
  {
    FreshExplained(c.cfg, c.peer);
  }

  lemma {:induction false} RunRuled(c: Connection, lines: seq<string>, n: nat)
    requires n <= |lines|
    ensures var run := Serve(c, lines, n); Ruled(c, run.log, run.session) && (!run.session.closing ==> |run.log| == n)
  {
    if n == 0 {
      FreshRuled(c);
    } else {
      RunRuled(c, lines, n - 1);
      var before := Serve(c, lines, n - 1);
      if !before.session.closing { StepRuled(c, before.log, before.session, lines[n - 1]); }
    }
  }

  /** In every run the session's state, envelope and buffer are those the history shows, and every entry
      is the one its line is due after the entries before it. */
  lemma {:induction false} EveryReplyDue(c: Connection, lines: seq<string>, n: nat, k: nat)
    requires n <= |lines| && k < |Serve(c, lines, n).log|
    ensures var run := Serve(c, lines, n);
            k < n && Ruled(c, run.log, run.session) && EntryIs(c, run.log[..k], lines[k], run.log[k])
  {
    RunRuled(c, lines, n);
    ServerEntry(c, lines, n, k);
    RunRuled(c, lines, k);
    var before := Serve(c, lines, k);
    StepRuled(c, before.log, before.session, lines[k]);
  }
}
