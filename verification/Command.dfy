/** SMTP command lines: the parser, the address checks, and the canonical way to print a command. */
module Command {
  import opened Text

  datatype Command =
    | Ehlo(host: string)
    | Helo(host: string)
    | MailFrom(address: string, parameters: seq<string>)
    | RcptTo(address: string, parameters: seq<string>)
    | Data
    | Quit
    | Rset
    | Noop
    | Vrfy(query: string)
    | Help(topic: Option<string>)

  /** The parser's complaints; module Phrases has their texts. */
  datatype SyntaxFault =
    EhloNeedsHost | HeloNeedsHost | VrfyNeedsString | ExpectedMailFrom | ExpectedRcptTo | NotEnclosed | MissingClose

  datatype AddressFault =
    | MissingAt(address: string)
    | LocalPartLength
    | DomainLength
    | BadLabel(part: string)
    | EdgeHyphen(part: string)
    | BadCharacters(part: string)
    | EmptyRecipient

  datatype ParseError =
    | EmptyCommand
    | UnrecognizedCommand(verb: string)
    | InvalidSyntax(fault: SyntaxFault)
    | InvalidAddress(problem: AddressFault)

  // ---------------------------------------------------------------- addresses

  function SplitAt(s: string, c: char): (parts: seq<string>)
    ensures parts != []
    decreases |s|
  {
    var i := IndexOf(s, c);
    if i == |s| then [s] else [s[..i]] + SplitAt(s[i + 1..], c)
  }

  predicate IsAlphanumeric(c: char) {
    IsDigit(c) || 'a' <= c <= 'z' || 'A' <= c <= 'Z'
  }

  predicate LabelChars(part: string) {
    forall i :: 0 <= i < |part| ==> IsAlphanumeric(part[i]) || part[i] == '-'
  }

  function CheckLabels(labels: seq<string>): Result<(), ParseError> {
    if labels == [] then Ok(())
    else
      var part := labels[0];
      if part == "" || |part| > 63 then
        Err(InvalidAddress(BadLabel(part)))
      else if part[0] == '-' || part[|part| - 1] == '-' then
        Err(InvalidAddress(EdgeHyphen(part)))
      else if !LabelChars(part) then
        Err(InvalidAddress(BadCharacters(part)))
      else
        CheckLabels(labels[1..])
  }

  function ValidateAddress(addr: string): Result<(), ParseError> {
    if addr == "" then Ok(()) else
    var at := LastIndexOf(addr, '@');
    if at.None? then Err(InvalidAddress(MissingAt(addr))) else
    var local, domain := addr[..at.value], addr[at.value + 1..];
    if local == "" || |local| > 64 then
      Err(InvalidAddress(LocalPartLength))
    else if domain == "" || |domain| > 255 then
      Err(InvalidAddress(DomainLength))
    else if domain[0] == '[' && domain[|domain| - 1] == ']' then
      Ok(())
    else
      CheckLabels(SplitAt(domain, '.'))
  }

  predicate ValidLabel(part: string) {
    1 <= |part| <= 63 && LabelChars(part) && part[0] != '-' && part[|part| - 1] != '-'
  }

  /** What the address check promises: a local part, an at sign, and a domain that is a
      literal or a dot-separated list of labels. */
  ghost predicate AddressShape(addr: string, local: string, domain: string, labels: seq<string>) {
    && addr == local + "@" + domain && '@' !in domain
    && 1 <= |local| <= 64 && 1 <= |domain| <= 255
    && (|| (domain[0] == '[' && domain[|domain| - 1] == ']')
        || (&& labels != [] && domain == Join(labels, ".")
            && forall i :: 0 <= i < |labels| ==> ValidLabel(labels[i])))
  }

  lemma {:induction false} CheckLabelsIff(labels: seq<string>)
    ensures CheckLabels(labels).Ok? <==> forall i :: 0 <= i < |labels| ==> ValidLabel(labels[i])
  {
    if labels != [] {
      CheckLabelsIff(labels[1..]);
      var rest := labels[1..];
      assert forall i :: 0 < i < |labels| ==> labels[i] == rest[i - 1];
    }
  }

  lemma {:induction false} JoinSplit(s: string, c: char)
    ensures Join(SplitAt(s, c), [c]) == s
    decreases |s|
  {
    var i := IndexOf(s, c);
    if i < |s| {
      JoinSplit(s[i + 1..], c);
      assert SplitAt(s, c)[1..] == SplitAt(s[i + 1..], c);
      assert s == s[..i] + [c] + s[i + 1..];
    }
  }

  lemma {:induction false} SplitJoin(parts: seq<string>, c: char)
    requires parts != [] && forall i :: 0 <= i < |parts| ==> c !in parts[i]
    ensures SplitAt(Join(parts, [c]), c) == parts
    decreases |parts|
  {
    var s := Join(parts, [c]);
    if |parts| == 1 {
      IndexOfAbsent(s, c);
    } else {
      var rest := Join(parts[1..], [c]);
      IndexOfAt(parts[0], c, rest);
      assert s == parts[0] + [c] + rest;
      assert s[..|parts[0]|] == parts[0] && s[|parts[0]| + 1..] == rest;
      SplitJoin(parts[1..], c);
    }
  }

  /** The check accepts exactly the empty (null) address and the well-shaped ones. */
  lemma ValidateAddressIff(addr: string)
    ensures ValidateAddress(addr).Ok? <==>
            addr == "" || exists local, domain, labels :: AddressShape(addr, local, domain, labels)
  {
    if addr != "" {
      if ValidateAddress(addr).Ok? {
        var at := LastIndexOf(addr, '@').value;
        var local, domain := addr[..at], addr[at + 1..];
        var labels := SplitAt(domain, '.');
        JoinSplit(domain, '.');
        CheckLabelsIff(labels);
        assert addr == local + "@" + domain;
        assert AddressShape(addr, local, domain, labels);
      }
      forall local, domain, labels | AddressShape(addr, local, domain, labels)
        ensures ValidateAddress(addr).Ok?
      {
        ShapeIsAccepted(addr, local, domain, labels);
      }
    }
  }

  lemma ShapeIsAccepted(addr: string, local: string, domain: string, labels: seq<string>)
    requires AddressShape(addr, local, domain, labels)
    ensures ValidateAddress(addr).Ok?
  {
    LastIndexOfAt(local, '@', domain);
    assert addr == local + ['@'] + domain;
    assert addr[..|local|] == local && addr[|local| + 1..] == domain;
    if !(domain[0] == '[' && domain[|domain| - 1] == ']') {
      LabelsAccepted(labels);
    }
  }

  lemma LabelHasNoDot(part: string)
    requires ValidLabel(part)
    ensures '.' !in part
  {
  }

  lemma {:induction false} LabelsAccepted(labels: seq<string>)
    requires labels != [] && forall i :: 0 <= i < |labels| ==> ValidLabel(labels[i])
    ensures CheckLabels(SplitAt(Join(labels, "."), '.')).Ok?
  {
    assert SplitAt(Join(labels, "."), '.') == labels by {
      forall i | 0 <= i < |labels| ensures '.' !in labels[i] { LabelHasNoDot(labels[i]); }
      SplitJoin(labels, '.');
    }
    CheckLabelsIff(labels);
  }

  // ---------------------------------------------------------------- parsing

  /** `<addr>` and the ESMTP parameters that follow it. */
  function AngleAddress(input: string): Result<(string, seq<string>), ParseError> {
    var s := Trim(input);
    if s == "" || s[0] != '<' then Err(InvalidSyntax(NotEnclosed)) else
    var close := IndexOf(s, '>');
    if close == |s| then Err(InvalidSyntax(MissingClose)) else
    Ok((s[1..close], Words(Trim(s[close + 1..]))))
  }

  function ParseMailFrom(args: string): Result<Command, ParseError> {
    if !StartsWithUpper(args, "FROM:") then Err(InvalidSyntax(ExpectedMailFrom)) else
    match AngleAddress(Trim(args[5..]))
    case Err(e) => Err(e)
    case Ok((address, parameters)) =>
      match ValidateAddress(address)
      case Err(e) => Err(e)
      case Ok(_) => Ok(MailFrom(address, parameters))
  }

  function ParseRcptTo(args: string): Result<Command, ParseError> {
    if !StartsWithUpper(args, "TO:") then Err(InvalidSyntax(ExpectedRcptTo)) else
    match AngleAddress(Trim(args[3..]))
    case Err(e) => Err(e)
    case Ok((address, parameters)) =>
      if address == "" then Err(InvalidAddress(EmptyRecipient)) else
      match ValidateAddress(address)
      case Err(e) => Err(e)
      case Ok(_) => Ok(RcptTo(address, parameters))
  }

  datatype Verb =
    VerbEhlo | VerbHelo | VerbMail | VerbRcpt | VerbData | VerbQuit | VerbRset | VerbNoop | VerbVrfy | VerbHelp | VerbOther

  /** All verbs have four letters, recognised in any case. */
  predicate IsVerb(s: string, a: char, b: char, c: char, d: char) {
    |s| == 4 && Upper(s[0]) == a && Upper(s[1]) == b && Upper(s[2]) == c && Upper(s[3]) == d
  }

  function ReadVerb(verb: string): Verb {
    if IsVerb(verb, 'E', 'H', 'L', 'O') then VerbEhlo
    else if IsVerb(verb, 'H', 'E', 'L', 'O') then VerbHelo
    else if IsVerb(verb, 'M', 'A', 'I', 'L') then VerbMail
    else if IsVerb(verb, 'R', 'C', 'P', 'T') then VerbRcpt
    else if IsVerb(verb, 'D', 'A', 'T', 'A') then VerbData
    else if IsVerb(verb, 'Q', 'U', 'I', 'T') then VerbQuit
    else if IsVerb(verb, 'R', 'S', 'E', 'T') then VerbRset
    else if IsVerb(verb, 'N', 'O', 'O', 'P') then VerbNoop
    else if IsVerb(verb, 'V', 'R', 'F', 'Y') then VerbVrfy
    else if IsVerb(verb, 'H', 'E', 'L', 'P') then VerbHelp
    else VerbOther
  }

  function Dispatch(verb: string, args: string): Result<Command, ParseError> {
    match ReadVerb(verb)
    case VerbEhlo =>
      if args == "" then Err(InvalidSyntax(EhloNeedsHost)) else Ok(Ehlo(args))
    case VerbHelo =>
      if args == "" then Err(InvalidSyntax(HeloNeedsHost)) else Ok(Helo(args))
    case VerbMail => ParseMailFrom(args)
    case VerbRcpt => ParseRcptTo(args)
    case VerbData => Ok(Data)
    case VerbQuit => Ok(Quit)
    case VerbRset => Ok(Rset)
    case VerbNoop => Ok(Noop)
    case VerbVrfy =>
      if args == "" then Err(InvalidSyntax(VrfyNeedsString)) else Ok(Vrfy(args))
    case VerbHelp => Ok(Help(if args == "" then None else Some(args)))
    case VerbOther => Err(UnrecognizedCommand(verb))
  }

  function Parse(line: string): Result<Command, ParseError> {
    var input := Trim(line);
    if input == "" then Err(EmptyCommand) else
    var pos := IndexOf(input, ' ');
    if pos < |input| then Dispatch(input[..pos], Trim(input[pos + 1..])) else Dispatch(input, "")
  }

  // ---------------------------------------------------------------- printing

  function PrintParameters(parameters: seq<string>): string {
    if parameters == [] then "" else " " + Join(parameters, " ")
  }

  function AddressArgs(keyword: string, address: string, parameters: seq<string>): string {
    keyword + ("<" + address + ">" + PrintParameters(parameters))
  }

  /** One line, without its line ending, for each command. */
  function Print(cmd: Command): string {
    match cmd
    case Ehlo(host) => "EHLO" + " " + host
    case Helo(host) => "HELO" + " " + host
    case MailFrom(address, parameters) => "MAIL" + " " + AddressArgs("FROM:", address, parameters)
    case RcptTo(address, parameters) => "RCPT" + " " + AddressArgs("TO:", address, parameters)
    case Data => "DATA"
    case Quit => "QUIT"
    case Rset => "RSET"
    case Noop => "NOOP"
    case Vrfy(query) => "VRFY" + " " + query
    case Help(None) => "HELP"
    case Help(Some(topic)) => "HELP" + " " + topic
  }

  predicate IsArgument(s: string) {
    s != "" && Trimmed(s)
  }

  predicate Canonical(cmd: Command) {
    match cmd
    case Ehlo(host) => IsArgument(host)
    case Helo(host) => IsArgument(host)
    case MailFrom(address, parameters) =>
      '>' !in address && ValidateAddress(address).Ok? && forall i :: 0 <= i < |parameters| ==> IsToken(parameters[i])
    case RcptTo(address, parameters) =>
      && address != "" && '>' !in address && ValidateAddress(address).Ok?
      && forall i :: 0 <= i < |parameters| ==> IsToken(parameters[i])
    case Vrfy(query) => IsArgument(query)
    case Help(Some(topic)) => IsArgument(topic)
    case _ => true
  }

  lemma AngleAddressClean(input: string)
    requires AngleAddress(input).Ok?
    ensures '>' !in AngleAddress(input).value.0
    ensures forall i :: 0 <= i < |AngleAddress(input).value.1| ==> IsToken(AngleAddress(input).value.1[i])
  {
  }

  lemma DispatchIsCanonical(verb: string, args: string)
    requires Trimmed(args) && Dispatch(verb, args).Ok?
    ensures Canonical(Dispatch(verb, args).value)
  {
    match ReadVerb(verb)
    case VerbMail => AngleAddressClean(Trim(args[5..]));
    case VerbRcpt => AngleAddressClean(Trim(args[3..]));
    case _ =>
  }

  lemma ParsedIsCanonical(line: string)
    requires Parse(line).Ok?
    ensures Canonical(Parse(line).value)
  {
    var input := Trim(line);
    var pos := IndexOf(input, ' ');
    if pos < |input| {
      TrimTrimmed(input[pos + 1..]);
      DispatchIsCanonical(input[..pos], Trim(input[pos + 1..]));
    } else {
      DispatchIsCanonical(input, "");
    }
  }

  lemma SplitVerb(verb: string, core: string)
    requires IsToken(verb) && core != "" && !IsSpace(core[|core| - 1])
    ensures var s := verb + " " + core;
            Trimmed(s) && IndexOf(s, ' ') == |verb| < |s| && s[..|verb|] == verb && s[|verb| + 1..] == core
  {
    var s := verb + " " + core;
    assert s[0] == verb[0] && s[|s| - 1] == core[|core| - 1];
    IndexOfAt(verb, ' ', core);
    assert s == verb + [' '] + core;
  }

  lemma TrimCore(args: string) returns (core: string, after: string)
    requires Trim(args) != ""
    ensures core != "" && !IsSpace(core[|core| - 1]) && Trim(core) == Trim(args)
    ensures args == core + after && AllSpace(after)
  {
    var before;
    before, after := TrimSplits(args);
    var t := Trim(args);
    core := before + t;
    assert core[|core| - 1] == t[|t| - 1];
    TrimUnique(before, t, "");
    assert before + t + "" == core;
  }

  lemma TrimVerb(verb: string, core: string, after: string)
    requires IsToken(verb) && core != "" && !IsSpace(core[|core| - 1]) && AllSpace(after)
    ensures Trim(verb + " " + (core + after)) == verb + " " + core
  {
    SplitVerb(verb, core);
    var s := verb + " " + core;
    assert verb + " " + (core + after) == s + after;
    TrimAfter(s, after);
  }

  /** A verb, a space and an argument: how the parser takes a line apart. */
  lemma ParseVerb(verb: string, args: string)
    requires IsToken(verb) && Trim(args) != ""
    ensures Parse(verb + " " + args) == Dispatch(verb, Trim(args))
  {
    var core, after := TrimCore(args);
    TrimVerb(verb, core, after);
    SplitVerb(verb, core);
  }

  lemma ParseBare(verb: string)
    requires IsToken(verb)
    ensures Parse(verb) == Dispatch(verb, "")
  {
    TrimTrimmed(verb);
    IndexOfAbsent(verb, ' ');
  }

  lemma ParametersRoundTrip(parameters: seq<string>)
    requires forall i :: 0 <= i < |parameters| ==> IsToken(parameters[i])
    ensures Words(Trim(PrintParameters(parameters))) == parameters
    ensures var p := PrintParameters(parameters); p != "" ==> !IsSpace(p[|p| - 1])
  {
    var joined := Join(parameters, " ");
    JoinTrimmed(parameters);
    WordsJoin(parameters);
    TrimTrimmed(joined);
    TrimPadded(" ", joined, "");
    assert " " + joined + "" == " " + joined;
  }

  lemma AngleAddressAt(s: string, close: nat)
    requires Trimmed(s) && 0 < close < |s| && s[0] == '<' && s[close] == '>' && '>' !in s[..close]
    ensures AngleAddress(s) == Ok((s[1..close], Words(Trim(s[close + 1..]))))
  {
    TrimTrimmed(s);
    IndexOfAt(s[..close], '>', s[close + 1..]);
    assert s == s[..close] + [s[close]] + s[close + 1..];
  }

  lemma BracketsAt(address: string, tail: string)
    requires '>' !in address
    ensures var s, close := "<" + address + ">" + tail, |address| + 1;
            && close < |s| && s[0] == '<' && s[close] == '>' && s[|s| - 1] == (if tail == "" then '>' else tail[|tail| - 1])
            && s[..close] == "<" + address && s[1..close] == address && s[close + 1..] == tail
  {
  }

  lemma AngleAddressOf(address: string, parameters: seq<string>)
    requires '>' !in address && forall i :: 0 <= i < |parameters| ==> IsToken(parameters[i])
    ensures var s := "<" + address + ">" + PrintParameters(parameters);
            Trimmed(s) && AngleAddress(s) == Ok((address, parameters))
  {
    var tail := PrintParameters(parameters);
    ParametersRoundTrip(parameters);
    BracketsAt(address, tail);
    AngleAddressAt("<" + address + ">" + tail, |address| + 1);
  }

  predicate IsKeyword(p: string) {
    IsToken(p) && forall i :: 0 <= i < |p| ==> Upper(p[i]) == p[i]
  }

  lemma Keywords()
    ensures IsToken("MAIL") && IsToken("RCPT") && IsKeyword("FROM:") && IsKeyword("TO:")
    ensures |"FROM:"| == 5 && |"TO:"| == 3
  {
  }

  /** MAIL and RCPT lines share their shape: a verb, a keyword, and an address in angle brackets. */
  lemma AddressLine(verb: string, keyword: string, address: string, parameters: seq<string>) returns (args: string)
    requires IsToken(verb) && IsKeyword(keyword)
    requires '>' !in address && forall i :: 0 <= i < |parameters| ==> IsToken(parameters[i])
    ensures args == AddressArgs(keyword, address, parameters) && |args| >= |keyword|
    ensures Parse(verb + " " + args) == Dispatch(verb, args)
    ensures StartsWithUpper(args, keyword)
    ensures AngleAddress(Trim(args[|keyword|..])) == Ok((address, parameters))
  {
    var angle := "<" + address + ">" + PrintParameters(parameters);
    args := keyword + angle;
    AngleAddressOf(address, parameters);
    assert args[0] == keyword[0] && args[|args| - 1] == angle[|angle| - 1];
    TrimTrimmed(angle);
    TrimTrimmed(args);
    ParseVerb(verb, args);
    assert args[|keyword|..] == angle;
  }

  lemma DispatchAddress(args: string)
    ensures Dispatch("MAIL", args) == ParseMailFrom(args) && Dispatch("RCPT", args) == ParseRcptTo(args)
  {
    ReadVerbs();
  }

  lemma ParseArguments(args: string, address: string, parameters: seq<string>)
    ensures StartsWithUpper(args, "FROM:") && AngleAddress(Trim(args[5..])) == Ok((address, parameters)) ==>
              ParseMailFrom(args) ==
              match ValidateAddress(address)
              case Ok(_) => Ok(MailFrom(address, parameters))
              case Err(e) => Err(e)
    ensures StartsWithUpper(args, "TO:") && AngleAddress(Trim(args[3..])) == Ok((address, parameters)) ==>
              ParseRcptTo(args) ==
              if address == "" then Err(InvalidAddress(EmptyRecipient)) else
              match ValidateAddress(address)
              case Ok(_) => Ok(RcptTo(address, parameters))
              case Err(e) => Err(e)
  {
  }

  lemma ParseMailLine(address: string, parameters: seq<string>)
    requires '>' !in address && forall i :: 0 <= i < |parameters| ==> IsToken(parameters[i])
    ensures Parse(Print(MailFrom(address, parameters))) ==
            match ValidateAddress(address)
            case Ok(_) => Ok(MailFrom(address, parameters))
            case Err(e) => Err(e)
  {
    Keywords();
    var args := AddressLine("MAIL", "FROM:", address, parameters);
    DispatchAddress(args);
    ParseArguments(args, address, parameters);
  }

  lemma ParseRcptLine(address: string, parameters: seq<string>)
    requires '>' !in address && forall i :: 0 <= i < |parameters| ==> IsToken(parameters[i])
    ensures Parse(Print(RcptTo(address, parameters))) ==
            if address == "" then Err(InvalidAddress(EmptyRecipient)) else
            match ValidateAddress(address)
            case Ok(_) => Ok(RcptTo(address, parameters))
            case Err(e) => Err(e)
  {
    Keywords();
    var args := AddressLine("RCPT", "TO:", address, parameters);
    DispatchAddress(args);
    ParseArguments(args, address, parameters);
  }

  lemma ReadVerbs()
    ensures ReadVerb("EHLO") == VerbEhlo && ReadVerb("HELO") == VerbHelo && ReadVerb("MAIL") == VerbMail
    ensures ReadVerb("RCPT") == VerbRcpt && ReadVerb("DATA") == VerbData && ReadVerb("QUIT") == VerbQuit
    ensures ReadVerb("RSET") == VerbRset && ReadVerb("NOOP") == VerbNoop && ReadVerb("VRFY") == VerbVrfy
    ensures ReadVerb("HELP") == VerbHelp
  {
  }

  lemma ParseArgument(verb: string, args: string)
    requires IsToken(verb) && IsArgument(args)
    ensures Parse(verb + " " + args) == Dispatch(verb, args)
  {
    TrimTrimmed(args);
    ParseVerb(verb, args);
  }

  lemma PlainVerbs()
    ensures IsToken("EHLO") && IsToken("HELO") && IsToken("DATA") && IsToken("QUIT") && IsToken("RSET")
    ensures IsToken("NOOP") && IsToken("VRFY") && IsToken("HELP")
  {
  }

  lemma ParseBareVerbs()
    ensures Parse("DATA") == Ok(Data) && Parse("QUIT") == Ok(Quit) && Parse("RSET") == Ok(Rset)
    ensures Parse("NOOP") == Ok(Noop) && Parse("HELP") == Ok(Help(None))
  {
    PlainVerbs();
    ReadVerbs();
    ParseBare("DATA");
    ParseBare("QUIT");
    ParseBare("RSET");
    ParseBare("NOOP");
    ParseBare("HELP");
  }

  /** Printing a canonical command and parsing the line gives the command back ... */
  lemma ParsePrint(cmd: Command)
    requires Canonical(cmd)
    ensures Parse(Print(cmd)) == Ok(cmd)
  {
    PlainVerbs();
    ReadVerbs();
    match cmd
    case Ehlo(host) => ParseArgument("EHLO", host);
    case Helo(host) => ParseArgument("HELO", host);
    case MailFrom(address, parameters) => ParseMailLine(address, parameters);
    case RcptTo(address, parameters) => ParseRcptLine(address, parameters);
    case Vrfy(query) => ParseArgument("VRFY", query);
    case Help(Some(topic)) => ParseArgument("HELP", topic);
    case _ => ParseBareVerbs();
  }

  /** ... so the parser's range is exactly the canonical commands, and whatever spelling a
      line used, parsing its canonical print means the same. */
  lemma ParserRange(cmd: Command)
    ensures Canonical(cmd) <==> exists line :: Parse(line) == Ok(cmd)
    ensures (exists line :: Parse(line) == Ok(cmd)) ==> Parse(Print(cmd)) == Ok(cmd)
  {
    if Canonical(cmd) {
      ParsePrint(cmd);
    }
    forall line | Parse(line) == Ok(cmd)
      ensures Canonical(cmd)
    {
      ParsedIsCanonical(line);
    }
  }

  /** The session trims what it is given, so surrounding white space never matters. */
  lemma ParseIgnoresPadding(before: string, line: string, after: string)
    requires AllSpace(before) && AllSpace(after)
    ensures Parse(before + line + after) == Parse(line)
  {
    TrimPadded(before, line, after);
  }
}
