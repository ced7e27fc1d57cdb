/**
 Whatever lines it is sent, the server only ever answers with replies its wire format can
 carry, so a client that reads them gets exactly what was meant.
 */
module Politeness {
  import opened Text
  import opened Utf8
  import opened Reply
  import opened Answer
  import opened Session
  import C = Command
  import Peer
  import Client
  import Pipelining = Server
  import opened Phrases

  // ---------------------------------------------------------------- what the parser hands on

  predicate CleanParse(r: Result<C.Command, C.ParseError>) {
    match r
    case Ok(Ehlo(host)) => LfFree(host)
    case Ok(Helo(host)) => LfFree(host)
    case Err(UnrecognizedCommand(verb)) => LfFree(verb)
    case Err(InvalidAddress(problem)) => CleanFault(problem)
    case _ => true
  }

  lemma {:induction false} SplitClean(s: string, c: char)
    requires LfFree(s)
    ensures forall i :: 0 <= i < |C.SplitAt(s, c)| ==> LfFree(C.SplitAt(s, c)[i])
    decreases |s|
  {
    var i := IndexOf(s, c);
    if i < |s| { SplitClean(s[i + 1..], c); }
  }

  lemma {:induction false} LabelsClean(labels: seq<string>)
    requires forall i :: 0 <= i < |labels| ==> LfFree(labels[i])
    ensures var r := C.CheckLabels(labels);
            r.Err? ==> r.error.InvalidAddress? && CleanFault(r.error.problem)
  {
    if labels != [] { LabelsClean(labels[1..]); }
  }

  lemma AddressClean(addr: string)
    requires LfFree(addr)
    ensures var r := C.ValidateAddress(addr);
            r.Err? ==> r.error.InvalidAddress? && CleanFault(r.error.problem)
  {
    var at := LastIndexOf(addr, '@');
    if at.Some? {
      var domain := addr[at.value + 1..];
      SplitClean(domain, '.');
      LabelsClean(C.SplitAt(domain, '.'));
    }
  }

  lemma AngleClean(input: string)
    requires LfFree(input)
    ensures var r := C.AngleAddress(input);
            (r.Ok? ==> LfFree(r.value.0)) && (r.Err? ==> r.error.InvalidSyntax?)
  {
    TrimLfFree(input);
  }

  lemma DispatchClean(verb: string, args: string)
    requires LfFree(verb) && LfFree(args)
    ensures CleanParse(C.Dispatch(verb, args))
  {
    match C.ReadVerb(verb)
    case VerbMail =>
      if StartsWithUpper(args, "FROM:") {
        TrimLfFree(args[5..]);
        AngleClean(Trim(args[5..]));
        var r := C.AngleAddress(Trim(args[5..]));
        if r.Ok? { AddressClean(r.value.0); }
      }
    case VerbRcpt =>
      if StartsWithUpper(args, "TO:") {
        TrimLfFree(args[3..]);
        AngleClean(Trim(args[3..]));
        var r := C.AngleAddress(Trim(args[3..]));
        if r.Ok? { AddressClean(r.value.0); }
      }
    case _ =>
  }

  lemma ParseClean(line: string)
    requires LfFree(line)
    ensures CleanParse(C.Parse(line))
  {
    TrimLfFree(line);
    var input := Trim(line);
    var pos := IndexOf(input, ' ');
    if input != "" {
      if pos < |input| {
        TrimLfFree(input[pos + 1..]);
        DispatchClean(input[..pos], Trim(input[pos + 1..]));
      } else {
        DispatchClean(input, "");
      }
    }
  }

  lemma TrimmedLine(line: string)
    requires IsLine(line) || LfFree(line)
    ensures LfFree(Trim(line))
  {
    if IsLine(line) {
      var text := line[..|line| - 1];
      assert line == "" + text + "\n";
      TrimPadded("", text, "\n");
      TrimLfFree(text);
    } else {
      TrimLfFree(line);
    }
  }

  // ---------------------------------------------------------------- every answer

  predicate CleanSession(s: Session) {
    LfFree(s.envelope.id)
  }

  lemma HandleClean(cfg: Config, s: Session, line: string, parsed: Result<C.Command, C.ParseError>, freshId: string)
    requires CleanSession(s) && CleanParse(parsed) && LfFree(freshId)
    ensures var o := ParsedStep(cfg, s, line, parsed, freshId);
            CleanSession(o.session) && o.exchange.reply.Some? && CleanAnswer(o.exchange.reply.value)
  {
  }

  lemma DataClean(cfg: Config, s: Session, line: string)
    requires CleanSession(s)
    ensures var o := DataStep(cfg, s, line);
            CleanSession(o.session) && (o.exchange.reply.Some? ==> CleanAnswer(o.exchange.reply.value))
  {
  }

  /** A deployment whose own name and queue ids have no line feed. */
  ghost predicate Deployed(c: Connection) {
    LfFree(c.cfg.hostname) && forall k :: LfFree(c.ids(k))
  }

  predicate PoliteAt(handle: Handler, render: Wording, s: Session, line: string, k: nat) {
    CleanSession(s) && (IsLine(line) || LfFree(line)) ==>
      var o := handle(s, line, k);
      CleanSession(o.session) && (o.exchange.reply.Some? ==> Encodable(render(o.exchange.reply.value)))
  }

  ghost predicate Polite(handle: Handler, render: Wording) {
    forall s, line, k :: PoliteAt(handle, render, s, line, k)
  }

  function WordingOf(c: Connection): Wording {
    (a: Answer) => Render(c.cfg, a)
  }

  function VisibleTo(flushesText: bool): seq<Exchange> -> seq<Answer> {
    (log: seq<Exchange>) => if flushesText then Replies(log) else Flushed(log)
  }

  /** The server of a connection; the one in `Server` does not flush replies to message text. */
  function MachineOf(c: Connection, flushesText: bool): Peer.Machine {
    var after := (lines: seq<string>) => Drive(HandlerOf(c), Fresh(c.peer), lines, |lines|);
    var visible := VisibleTo(flushesText);
    var says := (writes: seq<string>) => Peer.SentBack(after, visible, WordingOf(c), writes);
    var hangsUp := (writes: seq<string>) => Peer.HangsUp(after, writes);
    Peer.Machine(HandlerOf(c), Fresh(c.peer), WordingOf(c), after, flushesText, visible, Client.Server(says, hangsUp))
  }

  /** Every answer has at least one line, whatever it quotes, so the pipelining handler works with
      this wording. */
  lemma WordingIsWorded(c: Connection)
    ensures Pipelining.Worded(WordingOf(c))
  {
    forall a ensures WordingOf(c)(a).messages != [] {}
  }

  lemma StepClean(c: Connection, s: Session, line: string, k: nat)
    requires Deployed(c) && CleanSession(s) && (IsLine(line) || LfFree(line))
    ensures var o := Step(c.cfg, s, line, c.ids(k));
            CleanSession(o.session) && (o.exchange.reply.Some? ==> CleanAnswer(o.exchange.reply.value))
  {
    if s.state == ReceivingData {
      DataClean(c.cfg, s, line);
    } else {
      TrimmedLine(line);
      ParseClean(Trim(line));
      HandleClean(c.cfg, s, line, C.Parse(Trim(line)), c.ids(k));
    }
  }

  lemma ServerIsPolite(c: Connection)
    requires Deployed(c)
    ensures Polite(HandlerOf(c), WordingOf(c))
  {
    forall s, line, k: nat ensures PoliteAt(HandlerOf(c), WordingOf(c), s, line, k) {
      if CleanSession(s) && (IsLine(line) || LfFree(line)) {
        StepClean(c, s, line, k);
        var o := HandlerOf(c)(s, line, k);
        if o.exchange.reply.Some? { RenderEncodable(c.cfg, o.exchange.reply.value); }
      }
    }
  }

  predicate EncodableAt(render: Wording, a: Answer) {
    Encodable(render(a))
  }

  predicate EncodableAll(render: Wording, answers: seq<Answer>) {
    forall i :: 0 <= i < |answers| ==> EncodableAt(render, answers[i])
  }

  lemma PoliteStep(render: Wording, before: Run, o: Outcome)
    requires EncodableAll(render, Replies(before.log))
    requires o.exchange.reply.Some? ==> Encodable(render(o.exchange.reply.value))
    ensures EncodableAll(render, Replies(Advance(before, o).log))
  {
    RepliesNext(before, o);
  }

  lemma {:induction false} PoliteRun(handle: Handler, render: Wording, start: Session, lines: seq<string>, n: nat)
    requires Polite(handle, render) && CleanSession(start) && n <= |lines|
    requires forall i :: 0 <= i < |lines| ==> IsLine(lines[i]) || LfFree(lines[i])
    ensures var run := Drive(handle, start, lines, n);
            CleanSession(run.session) && EncodableAll(render, Replies(run.log))
  {
    if n > 0 {
      PoliteRun(handle, render, start, lines, n - 1);
      var before := Drive(handle, start, lines, n - 1);
      if !before.session.closing {
        assert PoliteAt(handle, render, before.session, lines[n - 1], n - 1);
        PoliteStep(render, before, handle(before.session, lines[n - 1], n - 1));
      }
    } else {
      assert Replies([]) == [];
    }
  }

  function Rendered(render: Wording, answers: seq<Answer>): seq<Response> {
    seq(|answers|, i requires 0 <= i < |answers| => render(answers[i]))
  }

  lemma {:induction false} WireIsToWires(render: Wording, answers: seq<Answer>)
    requires EncodableAll(render, answers)
    ensures AllEncodable(Rendered(render, answers))
    ensures Wire(render, answers) == ToWires(Rendered(render, answers))
  {
    if answers != [] {
      WireIsToWires(render, answers[1..]);
      assert Rendered(render, answers)[1..] == Rendered(render, answers[1..]);
    }
  }

  lemma {:induction false} WiredReads(render: Wording, answers: seq<Answer>)
    requires EncodableAll(render, answers)
    ensures ReadReplies(|answers|, Wire(render, answers)) == (Read(Rendered(render, answers)), "")
  {
    WireIsToWires(render, answers);
    var replies := Rendered(render, answers);
    RepliesRoundTrip(replies, "");
    assert ToWires(replies) + "" == ToWires(replies);
  }

  /** What the client reads of a machine's greeting and replies. */
  lemma {:induction false} TranscriptReads(handle: Handler, render: Wording, start: Session, lines: seq<string>)
    requires Polite(handle, render) && CleanSession(start) && Encodable(render(Welcome))
    requires forall i :: 0 <= i < |lines| ==> IsLine(lines[i]) || LfFree(lines[i])
    ensures var answers := [Welcome] + Replies(Drive(handle, start, lines, |lines|).log);
            ReadReplies(|answers|, Wire(render, answers)) == (Read(Rendered(render, answers)), "")
  {
    PoliteRun(handle, render, start, lines, |lines|);
    WiredReads(render, [Welcome] + Replies(Drive(handle, start, lines, |lines|).log));
  }

  /** The lines the server takes of some input: those before the first that is not text. */
  function LinesTaken(input: string): seq<string> {
    Readable(Chunks(input))
  }

  lemma {:induction false} TakenAreLines(input: string)
    ensures forall i :: 0 <= i < |LinesTaken(input)| ==> IsLine(LinesTaken(input)[i]) || LfFree(LinesTaken(input)[i])
  {
    ChunksAreLines(input);
  }

  /** Session, wording and codec together: whatever bytes a client sends, reading the server's side
      of the connection yields its replies one by one, and never an error. */
  lemma {:induction false} EveryTranscriptReads(c: Connection, input: string)
    requires Deployed(c)
    ensures var answers := [Welcome] + Replies(Serve(c, LinesTaken(input), |LinesTaken(input)|).log);
            var replies := Rendered(WordingOf(c), answers);
            ReadReplies(|answers|, Wire(WordingOf(c), answers)) == (Read(replies), "")
  {
    ServerIsPolite(c);
    TakenAreLines(input);
    RenderEncodable(c.cfg, Welcome);
    TranscriptReads(HandlerOf(c), WordingOf(c), Fresh(c.peer), LinesTaken(input));
  }
}
