/** The server's replies in words.  No text has a line feed unless what it quotes has one. */
module Phrases {
  import opened Text
  import opened Reply
  import opened Answer
  import C = Command

  // ---------------------------------------------------------------- the parser's complaints

  function NeedsHostText(fault: C.SyntaxFault): (s: string)
    ensures LfFree(s)
  {
    (if fault.EhloNeedsHost? then "EHLO" else "HELO") + " requires a domain or address literal"
  }

  function HelloText(fault: C.SyntaxFault): (s: string)
    ensures LfFree(s)
  {
    if fault.VrfyNeedsString? then "VRFY requires a string parameter" else NeedsHostText(fault)
  }

  function BracketText(fault: C.SyntaxFault): (s: string)
    ensures LfFree(s)
  {
    if fault.NotEnclosed? then "address must be enclosed in < >" else "missing closing >"
  }

  function PathText(fault: C.SyntaxFault): (s: string)
    ensures LfFree(s)
  {
    match fault
    case ExpectedMailFrom => "expected MAIL FROM:<address>"
    case ExpectedRcptTo => "expected RCPT TO:<address>"
    case _ => BracketText(fault)
  }

  function SyntaxText(fault: C.SyntaxFault): (s: string)
    ensures LfFree(s)
  {
    if fault.EhloNeedsHost? || fault.HeloNeedsHost? || fault.VrfyNeedsString? then HelloText(fault) else PathText(fault)
  }

  function Quoted(s: string): (r: string)
    ensures LfFree(s) ==> LfFree(r)
  {
    "'" + s + "'"
  }

  function MissingAtText(address: string): (s: string)
    ensures LfFree(address) ==> LfFree(s)
  {
    "missing '@' in address: " + address
  }

  function BadLabelText(part: string): (s: string)
    ensures LfFree(part) ==> LfFree(s)
  {
    "invalid domain label: " + Quoted(part)
  }

  function EdgeHyphenText(part: string): (s: string)
    ensures LfFree(part) ==> LfFree(s)
  {
    "domain label cannot start/end with hyphen: " + Quoted(part)
  }

  function BadCharactersText(part: string): (s: string)
    ensures LfFree(part) ==> LfFree(s)
  {
    "invalid characters in domain label: " + Quoted(part)
  }

  function PartLengthText(problem: C.AddressFault): (s: string)
    ensures LfFree(s)
  {
    (if problem.LocalPartLength? then "local part must be 1-64" else "domain must be 1-255") + " characters"
  }

  function LengthText(problem: C.AddressFault): (s: string)
    ensures LfFree(s)
  {
    if problem.EmptyRecipient? then "RCPT TO requires a non-empty address" else PartLengthText(problem)
  }

  predicate CleanFault(problem: C.AddressFault) {
    match problem
    case MissingAt(address) => LfFree(address)
    case BadLabel(part) => LfFree(part)
    case EdgeHyphen(part) => LfFree(part)
    case BadCharacters(part) => LfFree(part)
    case _ => true
  }

  function AddressText(problem: C.AddressFault): (s: string)
    ensures CleanFault(problem) ==> LfFree(s)
  {
    match problem
    case MissingAt(address) => MissingAtText(address)
    case BadLabel(part) => BadLabelText(part)
    case EdgeHyphen(part) => EdgeHyphenText(part)
    case BadCharacters(part) => BadCharactersText(part)
    case _ => LengthText(problem)
  }

  function EarlyPathText(what: Misplaced): (s: string)
    ensures LfFree(s)
  {
    (if what.MailBeforeHello? then "MAIL FROM requires EHLO/HELO" else "RCPT TO requires MAIL FROM") + " first"
  }

  function EarlyDataText(what: Misplaced): (s: string)
    ensures LfFree(s)
  {
    if what.DataBeforeRcpt? then "DATA requires at least one RCPT TO" else "DATA requires MAIL FROM and RCPT TO first"
  }

  function MisplacedText(what: Misplaced): (s: string)
    ensures LfFree(s)
  {
    if what.DataBeforeRcpt? || what.DataBeforeMail? then EarlyDataText(what) else EarlyPathText(what)
  }

  // ---------------------------------------------------------------- whole replies

  predicate Sayable(lines: seq<string>) {
    lines != [] && AllLfFree(lines)
  }

  function DecimalText(n: nat): (s: string)
    ensures LfFree(s)
  {
    DecimalIsToken(n);
    ToDecimal(n)
  }

  function HostLines(hostname: string, a: Answer): (r: seq<string>)
    ensures LfFree(hostname) ==> Sayable(r)
  {
    if a.Welcome? then [hostname + " ESMTP MyMTA Service ready"]
    else ["2.0.0 " + hostname + " closing connection"]
  }

  function GreetsText(hostname: string, client: string): (s: string)
    ensures LfFree(hostname) && LfFree(client) ==> LfFree(s)
  {
    hostname + " greets " + client
  }

  function EhloLines(cfg: Config, client: string): (r: seq<string>)
    ensures LfFree(cfg.hostname) && LfFree(client) ==> Sayable(r)
  {
    [GreetsText(cfg.hostname, client), "PIPELINING", "SIZE " + DecimalText(cfg.maxMessageSize),
     "8BITMIME", "ENHANCEDSTATUSCODES", "HELP"]
  }

  function VerbList(): (s: string)
    ensures LfFree(s)
  {
    LfFreeConcat("  EHLO HELO MAIL RCPT DATA QUIT", " RSET NOOP VRFY HELP");
    "  EHLO HELO MAIL RCPT DATA QUIT" + " RSET NOOP VRFY HELP"
  }

  function HelpLines(): (r: seq<string>)
    ensures Sayable(r)
  {
    ["Commands supported:", VerbList(), "For more info see RFC 5321"]
  }

  function QueuedText(id: string): (s: string)
    ensures LfFree(id) ==> LfFree(s)
  {
    "2.0.0 OK queued as " + id
  }

  function UnrecognizedText(verb: string): (s: string)
    ensures LfFree(verb) ==> LfFree(s)
  {
    "5.5.2 Error: command not recognized: " + verb
  }

  function TooLargeText(max: nat): (s: string)
    ensures LfFree(s)
  {
    "5.3.4 Message size exceeds maximum of " + DecimalText(max) + " bytes"
  }

  function TooManyText(max: nat): (s: string)
    ensures LfFree(s)
  {
    "4.5.3 Too many recipients (max " + DecimalText(max) + ")"
  }

  function CannotVerifyText(): (s: string)
    ensures LfFree(s)
  {
    LfFreeConcat("2.5.2 Cannot VRFY user; ", "will accept message and attempt delivery");
    "2.5.2 Cannot VRFY user; " + "will accept message and attempt delivery"
  }

  function StartMailText(): (s: string)
    ensures LfFree(s)
  {
    "Start mail input; end with <CRLF>.<CRLF>"
  }

  function ShortText(a: Answer): (s: string)
    ensures LfFree(s)
  {
    if a.Accepted? then "2.0.0 OK" else "5.5.2 Error: bad syntax"
  }

  function BadSyntaxText(fault: C.SyntaxFault): (s: string)
    ensures LfFree(s)
  {
    "5.5.4 " + SyntaxText(fault)
  }

  function BadSequenceText(what: Misplaced): (s: string)
    ensures LfFree(s)
  {
    "5.5.1 " + MisplacedText(what)
  }

  function BadAddressText(problem: C.AddressFault): (s: string)
    ensures CleanFault(problem) ==> LfFree(s)
  {
    "5.1.3 " + AddressText(problem)
  }

  /** No text in the answer has a line feed. */
  predicate CleanAnswer(a: Answer) {
    match a
    case Queued(id) => LfFree(id)
    case EhloAccepted(client) => LfFree(client)
    case HeloAccepted(client) => LfFree(client)
    case Unrecognized(verb) => LfFree(verb)
    case BadAddress(problem) => CleanFault(problem)
    case _ => true
  }

  function FaultText(a: Answer): (r: seq<string>)
    ensures CleanAnswer(a) ==> Sayable(r)
  {
    match a
    case BadSyntax(fault) => [BadSyntaxText(fault)]
    case BadSequence(what) => [BadSequenceText(what)]
    case BadAddress(problem) => [BadAddressText(problem)]
    case _ => [ShortText(a)]
  }

  function MessageLines(cfg: Config, a: Answer): (r: seq<string>)
    ensures LfFree(cfg.hostname) && CleanAnswer(a) ==> Sayable(r)
  {
    match a
    case Welcome => HostLines(cfg.hostname, a)
    case Goodbye => HostLines(cfg.hostname, a)
    case Accepted => [ShortText(a)]
    case Queued(id) => [QueuedText(id)]
    case EhloAccepted(client) => EhloLines(cfg, client)
    case HeloAccepted(client) => [GreetsText(cfg.hostname, client)]
    case StartMail => [StartMailText()]
    case NoCommand => [ShortText(a)]
    case Unrecognized(verb) => [UnrecognizedText(verb)]
    case TooLarge => [TooLargeText(cfg.maxMessageSize)]
    case TooManyRecipients => [TooManyText(cfg.maxRecipients)]
    case HelpText => HelpLines()
    case CannotVerify => [CannotVerifyText()]
    case _ => FaultText(a)
  }

  function Render(cfg: Config, a: Answer): Response {
    Response(Code(a), MessageLines(cfg, a))
  }

  lemma LfFreeIsEncodable(code: nat, lines: seq<string>)
    requires 100 <= code <= 999 && Sayable(lines)
    ensures Encodable(Response(code, lines))
  {
    forall i | 0 <= i < |lines| ensures NoCrlf(lines[i]) { assert LfFree(lines[i]); }
  }

  /** Every reply the server words can be carried by the wire format. */
  lemma RenderEncodable(cfg: Config, a: Answer)
    requires LfFree(cfg.hostname) && CleanAnswer(a)
    ensures Encodable(Render(cfg, a))
  {
    LfFreeIsEncodable(Code(a), MessageLines(cfg, a));
  }

  /** The reply to EHLO offers exactly this: pipelining, the size limit in decimal, eight-bit text,
      enhanced codes and help, after a line that greets the client. */
  lemma EhloOffers(cfg: Config, client: string)
    ensures var r := Render(cfg, EhloAccepted(client));
            && r.code == 250 && |r.messages| == 6
            && r.messages[1..] == ["PIPELINING", "SIZE " + ToDecimal(cfg.maxMessageSize), "8BITMIME", "ENHANCEDSTATUSCODES", "HELP"]
  {
  }

  /** The server says who it is when the client connects and when it leaves. */
  lemma NamesItself(cfg: Config)
    ensures Render(cfg, Welcome) == Response(220, [cfg.hostname + " ESMTP MyMTA Service ready"])
    ensures Render(cfg, Goodbye) == Response(221, ["2.0.0 " + cfg.hostname + " closing connection"])
  {
  }
}
