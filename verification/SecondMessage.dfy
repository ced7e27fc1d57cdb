/** Two messages over one connection: the second goes to the first one's recipients as well. */
module SecondMessage {
  import opened Text
  import opened Answer
  import opened Session
  import opened Client
  import opened ClientLines
  import opened DotStuffing
  import C = Command

  predicate Usable(address: string) {
    address != "" && '>' !in address && C.ValidateAddress(address).Ok?
  }

  /** EHLO; MAIL, RCPT to `first`, DATA and an empty message; MAIL and RCPT to `second`. */
  function TwoMessages(host: string, sender: string, first: string, second: string): seq<string> {
    [Line(C.Ehlo(host)), Line(C.MailFrom(sender, [])), Line(C.RcptTo(first, [])), Line(C.Data), FINAL_DOT,
     Line(C.MailFrom(sender, [])), Line(C.RcptTo(second, []))]
  }

  predicate FirstLines(lines: seq<string>, host: string, sender: string, first: string) {
    && |lines| >= 5 && lines[0] == Line(C.Ehlo(host)) && lines[1] == Line(C.MailFrom(sender, []))
    && lines[2] == Line(C.RcptTo(first, [])) && lines[3] == Line(C.Data) && lines[4] == FINAL_DOT
  }

  predicate SecondLines(lines: seq<string>, sender: string, second: string) {
    |lines| >= 7 && lines[5] == Line(C.MailFrom(sender, [])) && lines[6] == Line(C.RcptTo(second, []))
  }

  lemma TwoMessagesAre(host: string, sender: string, first: string, second: string)
    ensures FirstLines(TwoMessages(host, sender, first, second), host, sender, first)
    ensures SecondLines(TwoMessages(host, sender, first, second), sender, second)
  {
  }

  predicate StepsAt(handle: Handler, c: Connection, s: Session, line: string, k: nat) {
    handle(s, line, k) == Step(c.cfg, s, line, c.ids(k))
  }

  ghost predicate Steps(handle: Handler, c: Connection) {
    forall s, line, k :: StepsAt(handle, c, s, line, k)
  }

  predicate LeadsTo(handle: Handler, start: Session, lines: seq<string>, n: nat, s: Session)
    requires n <= |lines|
  {
    Drive(handle, start, lines, n).session == s
  }

  lemma OneLine(handle: Handler, c: Connection, start: Session, lines: seq<string>, n: nat, s: Session, line: string, o: Outcome)
    requires n < |lines| && Steps(handle, c) && LeadsTo(handle, start, lines, n, s) && !s.closing
    requires line == lines[n] && o == Step(c.cfg, s, line, c.ids(n))
    ensures LeadsTo(handle, start, lines, n + 1, o.session)
  {
    assert StepsAt(handle, c, s, line, n);
  }

  /** A command in its canonical spelling does what the session makes of it. */
  lemma Commanded(handle: Handler, c: Connection, start: Session, lines: seq<string>, n: nat, s: Session, cmd: C.Command, s': Session)
    requires n < |lines| && Steps(handle, c) && LeadsTo(handle, start, lines, n, s) && !s.closing && s.state != ReceivingData
    requires C.Canonical(cmd) && lines[n] == Line(cmd) && s' == HandleCommand(c.cfg, s, cmd, c.ids(n)).0
    ensures LeadsTo(handle, start, lines, n + 1, s')
  {
    C.ParsePrint(cmd);
    WireParses(cmd);
    OneLine(handle, c, start, lines, n, s, Line(cmd), Step(c.cfg, s, Line(cmd), c.ids(n)));
  }

  lemma Mailed(handle: Handler, c: Connection, start: Session, lines: seq<string>, n: nat, s: Session, sender: string, s': Session)
    requires n < |lines| && Steps(handle, c) && LeadsTo(handle, start, lines, n, s) && !s.closing && s.state == Ready
    requires Usable(sender) && lines[n] == Line(C.MailFrom(sender, []))
    requires s' == s.(envelope := s.envelope.(sender := sender, mailParameters := []), state := MailFrom)
    ensures LeadsTo(handle, start, lines, n + 1, s')
  {
    Commanded(handle, c, start, lines, n, s, C.MailFrom(sender, []), s');
  }

  lemma Named(handle: Handler, c: Connection, start: Session, lines: seq<string>, n: nat, s: Session, recipient: string, s': Session)
    requires n < |lines| && Steps(handle, c) && LeadsTo(handle, start, lines, n, s) && !s.closing && s.state == MailFrom
    requires Usable(recipient) && lines[n] == Line(C.RcptTo(recipient, [])) && |s.envelope.recipients| < c.cfg.maxRecipients
    requires s' == s.(envelope := s.envelope.(recipients := s.envelope.recipients + [recipient]), state := RcptTo)
    ensures LeadsTo(handle, start, lines, n + 1, s')
  {
    Commanded(handle, c, start, lines, n, s, C.RcptTo(recipient, []), s');
  }

  lemma EmptyMessage(cfg: Config, s: Session)
    requires s.buffer == ""
    ensures DataStep(cfg, s, FINAL_DOT).session == s.(state := Ready)
  {
    FeedFinalDot(cfg, s);
  }

  /** DATA and the final dot at once. */
  lemma Sent(handle: Handler, c: Connection, start: Session, lines: seq<string>, n: nat, s: Session, s': Session)
    requires n + 1 < |lines| && Steps(handle, c) && LeadsTo(handle, start, lines, n, s) && !s.closing && s.state == RcptTo
    requires s.buffer == "" && lines[n] == Line(C.Data) && lines[n + 1] == FINAL_DOT
    requires s' == s.(envelope := s.envelope.(id := c.ids(n)), state := Ready)
    ensures LeadsTo(handle, start, lines, n + 2, s')
  {
    var begun := s.(envelope := s.envelope.(id := c.ids(n)), state := ReceivingData);
    Commanded(handle, c, start, lines, n, s, C.Data, begun);
    EmptyMessage(c.cfg, begun);
    OneLine(handle, c, start, lines, n + 1, begun, FINAL_DOT, Step(c.cfg, begun, FINAL_DOT, c.ids(n + 1)));
  }

  function Mail(c: Connection, host: string, sender: string, recipients: seq<string>, id: string, state: State): Session {
    Session(state, Envelope(id, sender, recipients, Some(host), Some(c.peer), [], 1), "", false)
  }

  lemma Hailed(handle: Handler, c: Connection, lines: seq<string>, host: string)
    requires lines != [] && Steps(handle, c) && C.IsArgument(host) && lines[0] == Line(C.Ehlo(host))
    ensures LeadsTo(handle, Fresh(c.peer), lines, 1, Mail(c, host, "", [], "", Ready))
  {
    Commanded(handle, c, Fresh(c.peer), lines, 0, Fresh(c.peer), C.Ehlo(host), Mail(c, host, "", [], "", Ready));
  }

  lemma FirstMailed(handle: Handler, c: Connection, lines: seq<string>, host: string, sender: string)
    requires |lines| >= 2 && lines[0] == Line(C.Ehlo(host)) && lines[1] == Line(C.MailFrom(sender, []))
    requires Steps(handle, c) && C.IsArgument(host) && Usable(sender)
    ensures LeadsTo(handle, Fresh(c.peer), lines, 2, Mail(c, host, sender, [], "", MailFrom))
  {
    Hailed(handle, c, lines, host);
    Mailed(handle, c, Fresh(c.peer), lines, 1, Mail(c, host, "", [], "", Ready), sender, Mail(c, host, sender, [], "", MailFrom));
  }

  lemma FirstAddressed(handle: Handler, c: Connection, lines: seq<string>, host: string, sender: string, first: string)
    requires |lines| >= 3 && lines[0] == Line(C.Ehlo(host)) && lines[1] == Line(C.MailFrom(sender, []))
    requires lines[2] == Line(C.RcptTo(first, [])) && C.IsArgument(host) && Steps(handle, c)
    requires Usable(sender) && Usable(first) && c.cfg.maxRecipients >= 1
    ensures LeadsTo(handle, Fresh(c.peer), lines, 3, Mail(c, host, sender, [first], "", RcptTo))
  {
    FirstMailed(handle, c, lines, host, sender);
    assert [] + [first] == [first];
    Named(handle, c, Fresh(c.peer), lines, 2, Mail(c, host, sender, [], "", MailFrom), first,
          Mail(c, host, sender, [first], "", RcptTo));
  }

  lemma FirstMessage(handle: Handler, c: Connection, lines: seq<string>, host: string, sender: string, first: string)
    requires FirstLines(lines, host, sender, first)
    requires C.IsArgument(host) && Steps(handle, c) && Usable(sender) && Usable(first) && c.cfg.maxRecipients >= 1
    ensures LeadsTo(handle, Fresh(c.peer), lines, 5, Mail(c, host, sender, [first], c.ids(3), Ready))
  {
    FirstAddressed(handle, c, lines, host, sender, first);
    Sent(handle, c, Fresh(c.peer), lines, 3, Mail(c, host, sender, [first], "", RcptTo),
         Mail(c, host, sender, [first], c.ids(3), Ready));
  }

  lemma SecondAddressed(handle: Handler, c: Connection, lines: seq<string>, host: string, sender: string, first: string, second: string)
    requires SecondLines(lines, sender, second)
    requires Steps(handle, c) && Usable(sender) && Usable(second) && c.cfg.maxRecipients >= 2
    requires LeadsTo(handle, Fresh(c.peer), lines, 5, Mail(c, host, sender, [first], c.ids(3), Ready))
    ensures LeadsTo(handle, Fresh(c.peer), lines, 7, Mail(c, host, sender, [first, second], c.ids(3), RcptTo))
  {
    var start := Fresh(c.peer);
    Mailed(handle, c, start, lines, 5, Mail(c, host, sender, [first], c.ids(3), Ready), sender,
           Mail(c, host, sender, [first], c.ids(3), MailFrom));
    assert [first] + [second] == [first, second];
    Named(handle, c, start, lines, 6, Mail(c, host, sender, [first], c.ids(3), MailFrom), second,
          Mail(c, host, sender, [first, second], c.ids(3), RcptTo));
  }

  lemma HandlerSteps(c: Connection)
    ensures Steps(HandlerOf(c), c)
  {
    forall s, line, k ensures StepsAt(HandlerOf(c), c, s, line, k) {}
  }

  lemma BothAddressed(handle: Handler, c: Connection, lines: seq<string>, host: string, sender: string, first: string, second: string)
    requires FirstLines(lines, host, sender, first) && SecondLines(lines, sender, second)
    requires C.IsArgument(host) && Steps(handle, c)
    requires Usable(sender) && Usable(first) && Usable(second) && c.cfg.maxRecipients >= 2
    ensures LeadsTo(handle, Fresh(c.peer), lines, 7, Mail(c, host, sender, [first, second], c.ids(3), RcptTo))
  {
    FirstMessage(handle, c, lines, host, sender, first);
    SecondAddressed(handle, c, lines, host, sender, first, second);
  }

  /** An end of data leaves the recipients on record: after a second MAIL and a RCPT to `second` alone,
      the envelope names `first` too. */
  lemma RecipientsLinger(c: Connection, host: string, sender: string, first: string, second: string)
    requires C.IsArgument(host) && Usable(sender) && Usable(first) && Usable(second) && c.cfg.maxRecipients >= 2
    ensures Serve(c, TwoMessages(host, sender, first, second), 7).session.envelope.recipients == [first, second]
  {
    HandlerSteps(c);
    TwoMessagesAre(host, sender, first, second);
    BothAddressed(HandlerOf(c), c, TwoMessages(host, sender, first, second), host, sender, first, second);
  }
}
