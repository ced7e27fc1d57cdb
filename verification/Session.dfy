/** The server's SMTP session: the state machine over command lines and the DATA collector. */
module Session {
  import opened Text
  import opened Answer
  import C = Command

  datatype State = Connected | Ready | MailFrom | RcptTo | ReceivingData | Closed

  datatype Envelope = Envelope(
    id: string,
    sender: string,
    recipients: seq<string>,
    clientHostname: Option<string>,
    peerAddr: Option<string>,
    mailParameters: seq<string>,
    priority: nat)
  {
    /** The client's name and address outlive a transaction. */
    function Reset(): Envelope {
      this.(id := "", sender := "", recipients := [], mailParameters := [])
    }
  }

  /** The value of a session object. */
  datatype Session = Session(state: State, envelope: Envelope, buffer: string, closing: bool)

  datatype DataResult = Continue | Done(reply: Answer) | Overflow(reply: Answer)

  const USIZE_MAX: nat := 0xFFFF_FFFF_FFFF_FFFF

  function Fresh(peer: string): Session {
    Session(Connected, Envelope("", "", [], None, Some(peer), [], 1), "", false)
  }

  // ---------------------------------------------------------------- commands

  /** The number a `SIZE=` parameter declares, when it is one. */
  function DeclaredSize(parameter: string): Option<nat> {
    if "SIZE=" <= parameter then ParseUnsigned(parameter[5..], USIZE_MAX) else None
  }

  predicate DeclaresTooMuch(parameters: seq<string>, max: nat) {
    exists p :: p in parameters && DeclaredSize(p).Some? && DeclaredSize(p).value > max
  }

  function Greeted(s: Session, host: string): Session {
    s.(envelope := s.envelope.Reset().(clientHostname := Some(host)), state := Ready)
  }

  function HandleMailFrom(cfg: Config, s: Session, address: string, parameters: seq<string>): (Session, Answer) {
    if s.state != Ready then (s, BadSequence(MailBeforeHello))
    else if DeclaresTooMuch(parameters, cfg.maxMessageSize) then (s, TooLarge)
    else (s.(envelope := s.envelope.(sender := address, mailParameters := parameters), state := MailFrom), Accepted)
  }

  function HandleRcptTo(cfg: Config, s: Session, address: string): (Session, Answer) {
    if s.state != MailFrom && s.state != RcptTo then (s, BadSequence(RcptBeforeMail))
    else if |s.envelope.recipients| >= cfg.maxRecipients then (s, TooManyRecipients)
    else (s.(envelope := s.envelope.(recipients := s.envelope.recipients + [address]), state := RcptTo), Accepted)
  }

  function HandleData(s: Session, freshId: string): (Session, Answer) {
    if s.state == RcptTo then
      (s.(envelope := s.envelope.(id := freshId), buffer := "", state := ReceivingData), StartMail)
    else if s.state == MailFrom then (s, BadSequence(DataBeforeRcpt))
    else (s, BadSequence(DataBeforeMail))
  }

  function HandleRset(s: Session): Session {
    s.(envelope := s.envelope.Reset(), buffer := "", state := if s.state == Connected then Connected else Ready)
  }

  /** `freshId` is what the queue-id generator returns if it is asked. */
  function HandleCommand(cfg: Config, s: Session, cmd: C.Command, freshId: string): (Session, Answer) {
    match cmd
    case Ehlo(host) => (Greeted(s, host), EhloAccepted(host))
    case Helo(host) => (Greeted(s, host), HeloAccepted(host))
    case MailFrom(address, parameters) => HandleMailFrom(cfg, s, address, parameters)
    case RcptTo(address, _) => HandleRcptTo(cfg, s, address)
    case Data => HandleData(s, freshId)
    case Quit => (s.(closing := true, state := Closed), Goodbye)
    case Rset => (HandleRset(s), Accepted)
    case Noop => (s, Accepted)
    case Vrfy(_) => (s, CannotVerify)
    case Help(_) => (s, HelpText)
  }

  function ErrorReply(e: C.ParseError): Answer {
    match e
    case EmptyCommand => NoCommand
    case UnrecognizedCommand(verb) => Unrecognized(verb)
    case InvalidSyntax(fault) => BadSyntax(fault)
    case InvalidAddress(problem) => BadAddress(problem)
  }

  function ProcessCommand(cfg: Config, s: Session, line: string, freshId: string): (Session, Answer) {
    match C.Parse(line)
    case Ok(cmd) => HandleCommand(cfg, s, cmd, freshId)
    case Err(e) => (s, ErrorReply(e))
  }

  // ---------------------------------------------------------------- DATA mode

  function TrimEol(s: string): (r: string)
    ensures r <= s && (r != "" ==> r[|r| - 1] != '\r' && r[|r| - 1] != '\n')
    ensures forall i :: |r| <= i < |s| ==> s[i] == '\r' || s[i] == '\n'
  {
    if s != "" && (s[|s| - 1] == '\r' || s[|s| - 1] == '\n') then TrimEol(s[..|s| - 1]) else s
  }

  function Unstuff(trimmed: string): string {
    if ".." <= trimmed then trimmed[1..] else trimmed
  }

  function FeedDataLine(cfg: Config, s: Session, line: string): (Session, DataResult) {
    var trimmed := TrimEol(line);
    if trimmed == "." then (s.(state := Ready), Done(Queued(s.envelope.id)))
    else
      var buffer := s.buffer + Unstuff(trimmed) + CRLF;
      if |buffer| > cfg.maxMessageSize then
        (s.(buffer := "", state := Ready, envelope := s.envelope.Reset()),
         Overflow(TooLarge))
      else (s.(buffer := buffer), Continue)
  }

  function TakeMessageData(s: Session): (Session, Option<string>) {
    if s.buffer == "" then (s, None) else (s.(buffer := ""), Some(s.buffer))
  }

  // ---------------------------------------------------------------- the object

  class SmtpSession {
    const config: Config
    var state: State
    var envelope: Envelope
    var dataBuffer: string
    var closing: bool

    ghost function Model(): Session
      reads this
    {
      Session(state, envelope, dataBuffer, closing)
    }

    constructor (peer: string, config: Config)
      ensures Model() == Fresh(peer) && this.config == config
    {
      this.config := config;
      state := Connected;
      envelope := Envelope("", "", [], None, Some(peer), [], 1);
      dataBuffer := "";
      closing := false;
    }

    method TakeData() returns (data: Option<string>)
      modifies this`dataBuffer
      ensures (Model(), data) == TakeMessageData(old(Model()))
    {
      if dataBuffer == "" {
        data := None;
      } else {
        data := Some(dataBuffer);
        dataBuffer := "";
      }
    }

    method Process(line: string, freshId: string) returns (reply: Answer)
      modifies this
      ensures (Model(), reply) == ProcessCommand(config, old(Model()), line, freshId)
    {
      match C.Parse(line)
      case Ok(cmd) => reply := Handle(cmd, freshId);
      case Err(e) => reply := ErrorReply(e);
    }

    method Handle(cmd: C.Command, freshId: string) returns (reply: Answer)
      modifies this
      ensures (Model(), reply) == HandleCommand(config, old(Model()), cmd, freshId)
    {
      match cmd
      case Ehlo(host) =>
        envelope := envelope.Reset();
        envelope := envelope.(clientHostname := Some(host));
        state := Ready;
        reply := EhloAccepted(host);
      case Helo(host) =>
        envelope := envelope.Reset();
        envelope := envelope.(clientHostname := Some(host));
        state := Ready;
        reply := HeloAccepted(host);
      case MailFrom(address, parameters) =>
        reply := AcceptSender(address, parameters);
      case RcptTo(address, _) =>
        reply := AcceptRecipient(address);
      case Data =>
        reply := BeginData(freshId);
      case Quit =>
        closing := true;
        state := Closed;
        reply := Goodbye;
      case Rset =>
        envelope := envelope.Reset();
        dataBuffer := "";
        if state != Connected {
          state := Ready;
        }
        reply := Accepted;
      case Noop =>
        reply := Accepted;
      case Vrfy(_) =>
        reply := CannotVerify;
      case Help(_) =>
        reply := HelpText;
    }

    method AcceptSender(address: string, parameters: seq<string>) returns (reply: Answer)
      modifies this
      ensures (Model(), reply) == HandleMailFrom(config, old(Model()), address, parameters)
    {
      if state != Ready {
        return BadSequence(MailBeforeHello);
      }
      var i := 0;
      while i < |parameters|
        invariant 0 <= i <= |parameters|
        invariant !DeclaresTooMuch(parameters[..i], config.maxMessageSize)
      {
        var size := DeclaredSize(parameters[i]);
        if size.Some? && size.value > config.maxMessageSize {
          assert parameters[i] in parameters;
          return TooLarge;
        }
        assert parameters[..i + 1] == parameters[..i] + [parameters[i]];
        i := i + 1;
      }
      assert parameters[..i] == parameters;
      envelope := envelope.(sender := address, mailParameters := parameters);
      state := MailFrom;
      reply := Accepted;
    }

    method AcceptRecipient(address: string) returns (reply: Answer)
      modifies this
      ensures (Model(), reply) == HandleRcptTo(config, old(Model()), address)
    {
      if state != MailFrom && state != RcptTo {
        return BadSequence(RcptBeforeMail);
      }
      if |envelope.recipients| >= config.maxRecipients {
        return TooManyRecipients;
      }
      envelope := envelope.(recipients := envelope.recipients + [address]);
      state := RcptTo;
      reply := Accepted;
    }

    method BeginData(freshId: string) returns (reply: Answer)
      modifies this
      ensures (Model(), reply) == HandleData(old(Model()), freshId)
    {
      match state
      case RcptTo =>
        envelope := envelope.(id := freshId);
        dataBuffer := "";
        state := ReceivingData;
        reply := StartMail;
      case MailFrom =>
        reply := BadSequence(DataBeforeRcpt);
      case _ =>
        reply := BadSequence(DataBeforeMail);
    }

    method Feed(line: string) returns (result: DataResult)
      modifies this
      ensures (Model(), result) == FeedDataLine(config, old(Model()), line)
    {
      var trimmed := TrimEol(line);
      if trimmed == "." {
        state := Ready;
        return Done(Queued(envelope.id));
      }
      dataBuffer := dataBuffer + Unstuff(trimmed);
      dataBuffer := dataBuffer + CRLF;
      if |dataBuffer| > config.maxMessageSize {
        dataBuffer := "";
        state := Ready;
        envelope := envelope.Reset();
        return Overflow(TooLarge);
      }
      result := Continue;
    }
  }

  // ---------------------------------------------------------------- the driver's view

  datatype Spooled = Spooled(envelope: Envelope, data: string)

  /** One line of a connection's history: the line, whether it came as message text, the command
      it parses to otherwise, and the reply it drew. */
  datatype Exchange = Exchange(line: string, inData: bool, command: Option<C.Command>, reply: Option<Answer>)

  /** One line as the connection handler treats it: what is recorded and what is spooled. */
  datatype Outcome = Outcome(session: Session, exchange: Exchange, spooled: Option<Spooled>)

  function DataStep(cfg: Config, s: Session, line: string): Outcome {
    var (s', result) := FeedDataLine(cfg, s, line);
    match result
    case Continue => Outcome(s', Exchange(line, true, None, None), None)
    case Overflow(reply) => Outcome(s', Exchange(line, true, None, Some(reply)), None)
    case Done(reply) =>
      var (s'', data) := TakeMessageData(s');
      Outcome(s'', Exchange(line, true, None, Some(reply)),
              if data.Some? then Some(Spooled(s''.envelope, data.value)) else None)
  }

  function ParsedStep(cfg: Config, s: Session, line: string, parsed: Result<C.Command, C.ParseError>, freshId: string): Outcome {
    match parsed
    case Ok(cmd) =>
      var (s', reply) := HandleCommand(cfg, s, cmd, freshId);
      Outcome(s', Exchange(line, false, Some(cmd), Some(reply)), None)
    case Err(e) => Outcome(s, Exchange(line, false, None, Some(ErrorReply(e))), None)
  }

  function Step(cfg: Config, s: Session, line: string, freshId: string): Outcome {
    if s.state == ReceivingData then DataStep(cfg, s, line)
    else ParsedStep(cfg, s, line, C.Parse(Trim(line)), freshId)
  }

  /** A connection: the limits, the client's address, and the queue ids the generator would
      return, `ids(k)` being the one used if line `k` starts a message. */
  datatype Connection = Connection(cfg: Config, peer: string, ids: nat -> string)

  datatype Run = Run(session: Session, log: seq<Exchange>, spooled: seq<Spooled>)

  /** How a connection handles line number `k` in a given state. */
  type Handler = (Session, string, nat) -> Outcome

  function HandlerOf(c: Connection): Handler {
    (s: Session, line: string, k: nat) => Step(c.cfg, s, line, c.ids(k))
  }

  /** Handling the first `n` lines one at a time, each answered before the next is read, until QUIT. */
  function Drive(handle: Handler, start: Session, lines: seq<string>, n: nat): Run
    requires n <= |lines|
  {
    if n == 0 then Run(start, [], [])
    else
      var before := Drive(handle, start, lines, n - 1);
      if before.session.closing then before
      else Advance(before, handle(before.session, lines[n - 1], n - 1))
  }

  function Serve(c: Connection, lines: seq<string>, n: nat): Run
    requires n <= |lines|
  {
    Drive(HandlerOf(c), Fresh(c.peer), lines, n)
  }

  function Advance(before: Run, o: Outcome): Run {
    Run(o.session, before.log + [o.exchange],
        if o.spooled.Some? then before.spooled + [o.spooled.value] else before.spooled)
  }

  /** The replies a history holds, in order. */
  function Replies(log: seq<Exchange>): seq<Answer> {
    if log == [] then []
    else
      var last := log[|log| - 1].reply;
      Replies(log[..|log| - 1]) + if last.Some? then [last.value] else []
  }

  function OptionSeq<T>(o: Option<T>): seq<T> {
    if o.Some? then [o.value] else []
  }

  lemma RepliesNext(before: Run, o: Outcome)
    ensures Replies(Advance(before, o).log) == Replies(before.log) + OptionSeq(o.exchange.reply)
  {
    assert (before.log + [o.exchange])[..|before.log|] == before.log;
  }

  /** The last line handled was message text that drew a reply, which is written but not flushed. */
  predicate EndsUnflushed(log: seq<Exchange>) {
    log != [] && log[|log| - 1].inData && log[|log| - 1].reply.Some?
  }

  /** The replies that are certain to have left the write buffer, when none is held back. */
  function Flushed(log: seq<Exchange>): seq<Answer> {
    if EndsUnflushed(log) then Replies(log[..|log| - 1]) else Replies(log)
  }

  lemma FlushedNext(before: Run, o: Outcome)
    ensures var after := Advance(before, o);
            && Flushed(after.log) == Replies(before.log) + OptionSeq(if o.exchange.inData then None else o.exchange.reply)
            && (EndsUnflushed(after.log) <==> o.exchange.inData && o.exchange.reply.Some?)
            && (!EndsUnflushed(after.log) ==> Flushed(after.log) == Replies(after.log))
  {
    RepliesNext(before, o);
    assert (before.log + [o.exchange])[..|before.log|] == before.log;
    assert Replies(before.log) + [] == Replies(before.log);
  }
}
