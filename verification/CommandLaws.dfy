/** What every command line means, told from its bytes: any spelling, any spacing, any mistake. */
module CommandLaws {
  import opened Text
  import opened Command

  // ---------------------------------------------------------------- words in any case

  /** `c` is the capital letter or other byte `capital`, or that letter in lower case. */
  predicate IsLetter(c: char, capital: char) {
    c == capital || ('A' <= capital <= 'Z' && c as int == capital as int + 32)
  }

  predicate Spells(s: string, word: string) {
    |s| == |word| && forall i :: 0 <= i < |s| ==> IsLetter(s[i], word[i])
  }

  /** `s` begins with the keyword in some spelling, and `rest` follows it. */
  predicate Begins(s: string, keyword: string, rest: string) {
    |keyword| <= |s| && Spells(s[..|keyword|], keyword) && rest == s[|keyword|..]
  }

  // ---------------------------------------------------------------- what a line means

  /** A line's first word, and what follows it without white space around it. */
  ghost predicate Parts(line: string, verb: string, args: string) {
    && verb != "" && ' ' !in verb
    && ((Trim(line) == verb && args == "") || exists rest :: HasRest(line, verb, rest) && args == Trim(rest))
  }

  predicate HasRest(line: string, verb: string, rest: string) {
    Trim(line) == verb + " " + rest
  }

  /** An argument that may not be missing. */
  predicate Needs(args: string, cmd: Command, fault: SyntaxFault, r: Result<Command, ParseError>) {
    r == if args == "" then Err(InvalidSyntax(fault)) else Ok(cmd)
  }

  /** `<address>` and parameters separated by white space. */
  predicate Bracketed(s: string, address: string, tail: string) {
    s == "<" + address + ">" + tail && '>' !in address
  }

  ghost predicate Acceptable(address: string) {
    address == "" || exists local, domain, labels :: AddressShape(address, local, domain, labels)
  }

  /** An address in brackets after a keyword, in some spelling. */
  ghost predicate Addresses(args: string, keyword: string, missing: SyntaxFault, mail: bool, r: Result<Command, ParseError>) {
    if rest :| Begins(args, keyword, rest) then PathMeans(Trim(rest), mail, r)
    else r == Err(InvalidSyntax(missing))
  }

  ghost predicate PathMeans(s: string, mail: bool, r: Result<Command, ParseError>) {
    if s == "" || s[0] != '<' then r == Err(InvalidSyntax(NotEnclosed))
    else if '>' !in s then r == Err(InvalidSyntax(MissingClose))
    else forall address, tail :: Bracketed(s, address, tail) ==> AddressMeans(address, tail, mail, r)
  }

  ghost predicate AddressMeans(address: string, tail: string, mail: bool, r: Result<Command, ParseError>) {
    if address == "" && !mail then r == Err(InvalidAddress(EmptyRecipient))
    else if !Acceptable(address) then r.Err? && r.error.InvalidAddress?
    else r == Ok(if mail then MailFrom(address, Words(tail)) else RcptTo(address, Words(tail)))
  }

  ghost predicate Means(verb: string, args: string, r: Result<Command, ParseError>) {
    if Spells(verb, "EHLO") then Needs(args, Ehlo(args), EhloNeedsHost, r)
    else if Spells(verb, "HELO") then Needs(args, Helo(args), HeloNeedsHost, r)
    else if Spells(verb, "MAIL") then Addresses(args, "FROM:", ExpectedMailFrom, true, r)
    else if Spells(verb, "RCPT") then Addresses(args, "TO:", ExpectedRcptTo, false, r)
    else if Spells(verb, "DATA") then r == Ok(Data)
    else if Spells(verb, "QUIT") then r == Ok(Quit)
    else if Spells(verb, "RSET") then r == Ok(Rset)
    else if Spells(verb, "NOOP") then r == Ok(Noop)
    else if Spells(verb, "VRFY") then Needs(args, Vrfy(args), VrfyNeedsString, r)
    else if Spells(verb, "HELP") then r == Ok(Help(if args == "" then None else Some(args)))
    else r == Err(UnrecognizedCommand(verb))
  }

  // ---------------------------------------------------------------- and how it is parsed

  lemma UpperIs(c: char, capital: char)
    requires Upper(capital) == capital
    ensures Upper(c) == capital <==> IsLetter(c, capital)
  {
  }

  lemma VerbIs(s: string, word: string)
    requires |word| == 4 && forall i :: 0 <= i < 4 ==> Upper(word[i]) == word[i]
    ensures IsVerb(s, word[0], word[1], word[2], word[3]) <==> Spells(s, word)
  {
    if |s| == 4 {
      UpperIs(s[0], word[0]);
      UpperIs(s[1], word[1]);
      UpperIs(s[2], word[2]);
      UpperIs(s[3], word[3]);
    }
  }

  lemma KeywordIs(s: string, keyword: string)
    requires forall i :: 0 <= i < |keyword| ==> Upper(keyword[i]) == keyword[i]
    ensures StartsWithUpper(s, keyword) <==> |keyword| <= |s| && Begins(s, keyword, s[|keyword|..])
    ensures forall rest :: Begins(s, keyword, rest) ==> rest == s[|keyword|..]
  {
    if |keyword| <= |s| {
      forall i | 0 <= i < |keyword| ensures Upper(s[i]) == keyword[i] <==> IsLetter(s[..|keyword|][i], keyword[i]) {
        UpperIs(s[i], keyword[i]);
      }
    }
  }

  lemma {:induction false} WordsOfTrimmed(s: string)
    ensures Words(Trim(s)) == Words(s)
  {
    var before, after := TrimSplits(s);
    WordsOfPadded(before, Trim(s), after);
  }

  lemma {:induction false} WordsOfPadded(before: string, s: string, after: string)
    requires AllSpace(before) && AllSpace(after) && Trimmed(s)
    ensures Words(before + s + after) == Words(s)
  {
    WordsBefore(before, s + after);
    assert before + (s + after) == before + s + after;
    WordsAfter(s, after);
  }

  lemma {:induction false} WordsBefore(before: string, s: string)
    requires AllSpace(before)
    ensures Words(before + s) == Words(s)
  {
    var j := StartFrom(s, 0);
    var p := before + s;
    var q := p[..|before| + j];
    forall i | 0 <= i < |q| ensures IsSpace(q[i]) {
      if i < |before| { assert q[i] == before[i]; } else { assert q[i] == s[i - |before|]; }
    }
    assert j < |s| ==> p[|before| + j] == s[j];
    StartFromUnique(p, |before| + j);
    assert p[|before| + j..] == s[j..];
    WordsOfStart(p, s);
  }

  lemma {:induction false} WordsAfter(s: string, after: string)
    requires AllSpace(after)
    ensures Words(s + after) == Words(s)
    decreases |s|
  {
    var j := StartFrom(s, 0);
    var t := s[j..];
    StartWith(s, after, j);
    if t == "" {
      WordsBefore(s + after, "");
      assert s + after + "" == s + after;
      WordsBefore(s, "");
      assert s + "" == s;
    } else {
      WordsAfter(t[TokenEnd(t)..], after);
      WordsStep(s);
      WordsStep(s + after);
      TokenEndWith(t, after);
      CutTogether(t, TokenEnd(t), after);
    }
  }

  lemma {:induction false} WordsStep(s: string)
    requires TrimStart(s) != ""
    ensures var t := TrimStart(s); Words(s) == [t[..TokenEnd(t)]] + Words(t[TokenEnd(t)..])
  {
  }

  lemma CutTogether(t: string, n: nat, after: string)
    requires n <= |t|
    ensures (t + after)[..n] == t[..n] && (t + after)[n..] == t[n..] + after
  {
  }

  lemma {:induction false} StartWith(s: string, after: string, j: nat)
    requires AllSpace(after) && j == StartFrom(s, 0)
    ensures j < |s| ==> TrimStart(s + after) == s[j..] + after
    ensures j == |s| ==> AllSpace(s + after) && AllSpace(s)
  {
    var p := s + after;
    if j < |s| {
      forall i | 0 <= i < j ensures IsSpace(p[..j][i]) { assert p[i] == s[i]; }
      assert p[j] == s[j];
      StartFromUnique(p, j);
      assert p[j..] == s[j..] + after;
    }
  }

  lemma {:induction false} TokenEndWith(t: string, after: string)
    requires t != "" && !IsSpace(t[0]) && AllSpace(after)
    ensures TokenEnd(t + after) == TokenEnd(t)
  {
    var n := TokenEnd(t);
    var rest := t[n..] + after;
    assert IsToken(t[..n]);
    assert t + after == t[..n] + rest;
    if rest != "" { assert IsSpace(rest[0]); }
    TokenEndAt(t[..n], rest);
  }

  lemma {:induction false} BracketedAt(s: string, address: string, tail: string)
    requires Bracketed(s, address, tail)
    ensures IndexOf(s, '>') == |address| + 1 < |s| && s[0] == '<' && s[1..|address| + 1] == address && s[|address| + 2..] == tail
  {
    IndexOfAt("<" + address, '>', tail);
    assert s == ("<" + address) + ['>'] + tail;
  }

  /** A path that cannot be read. */
  lemma PathRefused(s: string, mail: bool)
    requires Trimmed(s) && AngleAddress(s).Err?
    ensures PathMeans(s, mail, Err(AngleAddress(s).error))
  {
    AngleIs(s);
    if s != "" && IndexOf(s, '>') == |s| { assert '>' !in s; }
  }

  /** A path that can. */
  lemma PathRead(s: string) returns (tail: string)
    requires Trimmed(s) && AngleAddress(s).Ok?
    ensures Bracketed(s, AngleAddress(s).value.0, tail) && AngleAddress(s).value.1 == Words(tail)
  {
    AngleIs(s);
    var close := IndexOf(s, '>');
    tail := s[close + 1..];
    BracketsFound(s, close);
    WordsOfTrimmed(tail);
  }

  lemma {:induction false} AngleIs(s: string)
    requires Trimmed(s)
    ensures AngleAddress(s) ==
            if s == "" || s[0] != '<' then Err(InvalidSyntax(NotEnclosed))
            else if IndexOf(s, '>') == |s| then Err(InvalidSyntax(MissingClose))
            else Ok((s[1..IndexOf(s, '>')], Words(Trim(s[IndexOf(s, '>') + 1..]))))
  {
    TrimKeeps(s);
    AngleOf(s, s);
  }

  lemma TrimKeeps(s: string)
    requires Trimmed(s)
    ensures Trim(s) == s
  {
    TrimTrimmed(s);
  }

  lemma {:induction false} AngleOf(input: string, s: string)
    requires Trim(input) == s
    ensures AngleAddress(input) ==
            if s == "" || s[0] != '<' then Err(InvalidSyntax(NotEnclosed))
            else if IndexOf(s, '>') == |s| then Err(InvalidSyntax(MissingClose))
            else Ok((s[1..IndexOf(s, '>')], Words(Trim(s[IndexOf(s, '>') + 1..]))))
  {
  }

  lemma BracketsFound(s: string, close: nat)
    requires 0 < close < |s| && s[0] == '<' && s[close] == '>' && '>' !in s[..close]
    ensures Bracketed(s, s[1..close], s[close + 1..])
  {
    assert s == s[..close] + [s[close]] + s[close + 1..];
    assert s[..close] == "<" + s[1..close];
    assert forall c :: c in s[1..close] ==> c in s[..close];
  }

  lemma BracketedOnce(s: string, address: string, tail: string, other: string, rest: string)
    requires Bracketed(s, address, tail) && Bracketed(s, other, rest)
    ensures address == other && tail == rest
  {
    BracketedAt(s, address, tail);
    BracketedAt(s, other, rest);
  }

  lemma PathParsed(s: string, mail: bool, address: string, tail: string, r: Result<Command, ParseError>)
    requires Bracketed(s, address, tail) && AddressMeans(address, tail, mail, r)
    ensures PathMeans(s, mail, r)
  {
    BracketedAt(s, address, tail);
    assert s[IndexOf(s, '>')] == '>';
    forall other, rest | Bracketed(s, other, rest) ensures AddressMeans(other, rest, mail, r) {
      BracketedOnce(s, address, tail, other, rest);
    }
  }

  lemma MailMeans(args: string)
    ensures Addresses(args, "FROM:", ExpectedMailFrom, true, ParseMailFrom(args))
  {
    KeywordIs(args, "FROM:");
    if StartsWithUpper(args, "FROM:") { MailPathMeans(args, Trim(args[5..])); }
  }

  lemma MailPathMeans(args: string, s: string)
    requires StartsWithUpper(args, "FROM:") && s == Trim(args[5..])
    ensures PathMeans(s, true, ParseMailFrom(args))
  {
    TrimTrimmed(args[5..]);
    if AngleAddress(s).Ok? {
      var address := AngleAddress(s).value.0;
      var tail := PathRead(s);
      ValidateAddressIff(address);
      OnlyAddressFaults(address);
      PathParsed(s, true, address, tail, ParseMailFrom(args));
    } else {
      PathRefused(s, true);
    }
  }

  lemma RcptMeans(args: string)
    ensures Addresses(args, "TO:", ExpectedRcptTo, false, ParseRcptTo(args))
  {
    KeywordIs(args, "TO:");
    if StartsWithUpper(args, "TO:") { RcptPathMeans(args, Trim(args[3..])); }
  }

  lemma RcptPathMeans(args: string, s: string)
    requires StartsWithUpper(args, "TO:") && s == Trim(args[3..])
    ensures PathMeans(s, false, ParseRcptTo(args))
  {
    TrimTrimmed(args[3..]);
    if AngleAddress(s).Ok? {
      var address := AngleAddress(s).value.0;
      var tail := PathRead(s);
      ValidateAddressIff(address);
      OnlyAddressFaults(address);
      PathParsed(s, false, address, tail, ParseRcptTo(args));
    } else {
      PathRefused(s, false);
    }
  }

  lemma OnlyAddressFaults(address: string)
    ensures ValidateAddress(address).Err? ==> ValidateAddress(address).error.InvalidAddress?
  {
    var at := LastIndexOf(address, '@');
    if at.Some? { OnlyLabelFaults(SplitAt(address[at.value + 1..], '.')); }
  }

  lemma {:induction false} OnlyLabelFaults(labels: seq<string>)
    ensures CheckLabels(labels).Err? ==> CheckLabels(labels).error.InvalidAddress?
  {
    if labels != [] { OnlyLabelFaults(labels[1..]); }
  }

  lemma VerbsAre(verb: string)
    ensures ReadVerb(verb) ==
            if Spells(verb, "EHLO") then VerbEhlo else if Spells(verb, "HELO") then VerbHelo
            else if Spells(verb, "MAIL") then VerbMail else if Spells(verb, "RCPT") then VerbRcpt
            else if Spells(verb, "DATA") then VerbData else if Spells(verb, "QUIT") then VerbQuit
            else if Spells(verb, "RSET") then VerbRset else if Spells(verb, "NOOP") then VerbNoop
            else if Spells(verb, "VRFY") then VerbVrfy else if Spells(verb, "HELP") then VerbHelp
            else VerbOther
  {
    VerbIs(verb, "EHLO");
    VerbIs(verb, "HELO");
    VerbIs(verb, "MAIL");
    VerbIs(verb, "RCPT");
    VerbIs(verb, "DATA");
    VerbIs(verb, "QUIT");
    VerbIs(verb, "RSET");
    VerbIs(verb, "NOOP");
    VerbIs(verb, "VRFY");
    VerbIs(verb, "HELP");
  }

  lemma DispatchMeans(verb: string, args: string)
    ensures Means(verb, args, Dispatch(verb, args))
  {
    VerbsAre(verb);
    match ReadVerb(verb)
    case VerbMail => MailMeans(args);
    case VerbRcpt => RcptMeans(args);
    case _ =>
  }

  lemma PartsAre(line: string, verb: string, args: string)
    requires Parts(line, verb, args)
    ensures Parse(line) == Dispatch(verb, args)
  {
    if Trim(line) == verb && args == "" {
      IndexOfAbsent(verb, ' ');
    } else {
      var rest :| HasRest(line, verb, rest) && args == Trim(rest);
      IndexOfAt(verb, ' ', rest);
      assert Trim(line) == verb + [' '] + rest;
      assert Trim(line)[..|verb|] == verb && Trim(line)[|verb| + 1..] == rest;
    }
  }

  lemma FirstWord(line: string) returns (verb: string, args: string)
    requires Trim(line) != ""
    ensures Parts(line, verb, args)
  {
    TrimTrimmed(line);
    var rest;
    verb, rest := CutAtSpace(Trim(line));
    args := if rest.Some? then Trim(rest.value) else "";
    if rest.Some? { assert HasRest(line, verb, rest.value); }
  }

  lemma CutAtSpace(input: string) returns (verb: string, rest: Option<string>)
    requires input != "" && !IsSpace(input[0])
    ensures verb != "" && ' ' !in verb && input == if rest.Some? then verb + " " + rest.value else verb
  {
    var pos := IndexOf(input, ' ');
    verb := input[..pos];
    rest := if pos < |input| then Some(input[pos + 1..]) else None;
    assert pos > 0;
    assert pos < |input| ==> input == input[..pos] + [input[pos]] + input[pos + 1..];
  }

  lemma NeverEmpty(verb: string, args: string)
    ensures Dispatch(verb, args) != Err(EmptyCommand)
  {
    match ReadVerb(verb)
    case VerbMail => if StartsWithUpper(args, "FROM:") && AngleAddress(Trim(args[5..])).Ok? {
                       OnlyAddressFaults(AngleAddress(Trim(args[5..])).value.0);
                     }
    case VerbRcpt => if StartsWithUpper(args, "TO:") && AngleAddress(Trim(args[3..])).Ok? {
                       OnlyAddressFaults(AngleAddress(Trim(args[3..])).value.0);
                     }
    case _ =>
  }

  /** The spelling of a verb does not matter, nor that of the keyword of MAIL and RCPT: a line is told by its
      parts, and its parts mean what they spell. */
  lemma PartsMean(line: string, verb: string, args: string)
    requires Parts(line, verb, args)
    ensures Means(verb, args, Parse(line))
  {
    PartsAre(line, verb, args);
    DispatchMeans(verb, args);
  }

  /** Every line that is not blank has a first word and what follows it, and is parsed to what they mean. */
  lemma EveryLineMeans(line: string) returns (verb: string, args: string)
    ensures Trim(line) == "" <==> Parse(line) == Err(EmptyCommand)
    ensures Trim(line) != "" ==> Parts(line, verb, args) && Means(verb, args, Parse(line))
  {
    verb, args := "", "";
    if Trim(line) != "" {
      verb, args := FirstWord(line);
      PartsMean(line, verb, args);
      PartsAre(line, verb, args);
      NeverEmpty(verb, args);
    }
  }

  // ---------------------------------------------------------------- which address is at fault how

  /** The complaint about the part before or after the last at sign, or about its absence. */
  lemma {:induction false} AddressFaultIs(local: string, domain: string)
    requires '@' !in domain
    ensures domain != "" ==> ValidateAddress(domain) == Err(InvalidAddress(MissingAt(domain)))
    ensures var r := ValidateAddress(local + "@" + domain);
            if |local| == 0 || |local| > 64 then r == Err(InvalidAddress(LocalPartLength))
            else if |domain| == 0 || |domain| > 255 then r == Err(InvalidAddress(DomainLength))
            else if domain[0] == '[' && domain[|domain| - 1] == ']' then r.Ok?
            else r == CheckLabels(SplitAt(domain, '.'))
  {
    var address := local + "@" + domain;
    LastIndexOfAt(local, '@', domain);
    assert address == local + ['@'] + domain;
    assert address[..|local|] == local && address[|local| + 1..] == domain;
  }

  /** A label has 1 to 63 letters, digits and hyphens, and a hyphen at neither end. */
  lemma LabelIs(part: string)
    ensures ValidLabel(part) <==>
              && 1 <= |part| <= 63 && part[0] != '-' && part[|part| - 1] != '-'
              && forall i :: 0 <= i < |part| ==>
                   var c := part[i] as int; 48 <= c <= 57 || 65 <= c <= 90 || 97 <= c <= 122 || c == 45
  {
    if ValidLabel(part) {
      forall i | 0 <= i < |part|
        ensures var c := part[i] as int; 48 <= c <= 57 || 65 <= c <= 90 || 97 <= c <= 122 || c == 45
      {
        assert IsAlphanumeric(part[i]) || part[i] == '-';
      }
    }
  }

  /** The complaint is about the first label that is not valid. */
  lemma {:induction false} LabelFaultIs(good: seq<string>, bad: string, rest: seq<string>)
    requires forall i :: 0 <= i < |good| ==> ValidLabel(good[i])
    requires !ValidLabel(bad)
    ensures CheckLabels(good + [bad] + rest) == Err(InvalidAddress(
              if |bad| == 0 || |bad| > 63 then BadLabel(bad)
              else if bad[0] == '-' || bad[|bad| - 1] == '-' then EdgeHyphen(bad)
              else BadCharacters(bad)))
  {
    var labels := good + [bad] + rest;
    if good != [] {
      assert labels[1..] == good[1..] + [bad] + rest && labels[0] == good[0];
      LabelFaultIs(good[1..], bad, rest);
    } else {
      assert labels[0] == bad;
    }
  }
}
