/** The lines the client writes, as the server's parser takes them. */
module ClientLines {
  import opened Text
  import opened Utf8
  import opened Session
  import opened Client
  import C = Command

  /** Text on one line. */
  predicate OneLine(s: string) {
    LfFree(s) && IsUtf8(s)
  }

  /** An address the client can put between angle brackets on one line. */
  predicate Sendable(address: string) {
    '>' !in address && OneLine(address)
  }

  lemma OneLineConcat(a: string, b: string)
    requires OneLine(a) && OneLine(b)
    ensures OneLine(a + b)
  {
    LfFreeConcat(a, b);
    Utf8Concat(a, b);
  }

  lemma PlainOneLine(s: string)
    requires AllAscii(s) && LfFree(s)
    ensures OneLine(s)
  {
    AsciiIsUtf8(s);
  }

  // ---------------------------------------------------------------- the client's lines

  lemma ParseWire(text: string)
    ensures C.Parse(Trim(text + CRLF)) == C.Parse(text)
  {
    TrimLine(text);
    TrimTrimmed(text);
  }

  lemma WireParses(command: C.Command)
    requires C.Parse(C.Print(command)) == Ok(command)
    ensures C.Parse(Trim(Line(command))) == Ok(command)
  {
    ParseWire(C.Print(command));
  }

  lemma {:induction false} TextIsLine(text: string)
    requires OneLine(text)
    ensures IsLine(text + CRLF) && IsUtf8(text + CRLF)
  {
    var line := text + CRLF;
    assert line[..|line| - 1] == text + "\r";
    AsciiIsUtf8(CRLF);
    Utf8Concat(text, CRLF);
  }

  lemma HelloIsLine(host: string)
    requires OneLine(host)
    ensures IsLine(Line(C.Ehlo(host))) && IsUtf8(Line(C.Ehlo(host)))
  {
    PlainOneLine("EHLO" + " ");
    OneLineConcat("EHLO" + " ", host);
    TextIsLine("EHLO" + " " + host);
  }

  /** The parser trims the host, whatever white space surrounds it. */
  lemma HelloParses(host: string)
    requires Trim(host) != ""
    ensures C.Parse(Trim(Line(C.Ehlo(host)))) == Ok(C.Ehlo(Trim(host)))
  {
    C.PlainVerbs();
    C.ReadVerbs();
    C.ParseVerb("EHLO", host);
    ParseWire("EHLO" + " " + host);
  }

  lemma SizeParameterUtf8(n: nat)
    ensures IsUtf8(SizeParameter(n))
  {
    DecimalIsUtf8(n);
    AsciiBefore("SIZE=", ToDecimal(n));
  }

  lemma {:induction false} AsciiBefore(a: string, b: string)
    requires AllAscii(a) && IsUtf8(b)
    ensures IsUtf8(a + b)
  {
    AsciiIsUtf8(a);
    Utf8Concat(a, b);
  }

  lemma SizeParameterIs(n: nat)
    requires n <= USIZE_MAX
    ensures IsToken(SizeParameter(n)) && OneLine(SizeParameter(n)) && DeclaredSize(SizeParameter(n)) == Some(n)
  {
    var p := SizeParameter(n);
    DecimalIsToken(n);
    ParseDecimal(n, USIZE_MAX);
    assert p[5..] == ToDecimal(n) && p[..5] == "SIZE=";
    SizeParameterUtf8(n);
    forall i | 0 <= i < |p| ensures !IsSpace(p[i]) && p[i] != '\n' {
      if i >= 5 { assert p[i] == ToDecimal(n)[i - 5]; }
    }
  }

  lemma {:induction false} MailArgsOneLine(sender: string, size: nat)
    requires OneLine(sender) && size <= USIZE_MAX
    ensures OneLine(C.AddressArgs("FROM:", sender, [SizeParameter(size)]))
  {
    SizeParameterIs(size);
    PlainOneLine("FROM:");
    AddressArgsOneLine("FROM:", sender, [SizeParameter(size)]);
  }

  lemma MailIsLine(sender: string, size: nat)
    requires OneLine(sender) && size <= USIZE_MAX
    ensures var line := Line(C.MailFrom(sender, [SizeParameter(size)])); IsLine(line) && IsUtf8(line)
  {
    MailArgsOneLine(sender, size);
    PlainOneLine("MAIL" + " ");
    OneLineConcat("MAIL" + " ", C.AddressArgs("FROM:", sender, [SizeParameter(size)]));
    TextIsLine("MAIL" + " " + C.AddressArgs("FROM:", sender, [SizeParameter(size)]));
  }

  lemma MailParses(sender: string, size: nat)
    requires Sendable(sender) && size <= USIZE_MAX
    ensures C.Parse(Trim(Line(C.MailFrom(sender, [SizeParameter(size)])))) ==
            match C.ValidateAddress(sender)
            case Ok(_) => Ok(C.MailFrom(sender, [SizeParameter(size)]))
            case Err(e) => Err(e)
  {
    SizeParameterIs(size);
    C.ParseMailLine(sender, [SizeParameter(size)]);
    ParseWire(C.Print(C.MailFrom(sender, [SizeParameter(size)])));
  }

  lemma AddressArgsOneLine(keyword: string, address: string, parameters: seq<string>)
    requires OneLine(keyword) && OneLine(address) && |parameters| <= 1
    requires parameters != [] ==> OneLine(parameters[0])
    ensures OneLine(C.AddressArgs(keyword, address, parameters))
  {
    PlainOneLine("<");
    PlainOneLine(">");
    PlainOneLine(" ");
    PlainOneLine("");
    OneLineConcat("<", address);
    OneLineConcat("<" + address, ">");
    if parameters != [] {
      OneLineConcat(" ", parameters[0]);
    }
    OneLineConcat("<" + address + ">", C.PrintParameters(parameters));
    OneLineConcat(keyword, "<" + address + ">" + C.PrintParameters(parameters));
  }

  lemma RcptIsLine(recipient: string)
    requires OneLine(recipient)
    ensures var line := Line(C.RcptTo(recipient, [])); IsLine(line) && IsUtf8(line)
  {
    PlainOneLine("TO:");
    PlainOneLine("RCPT" + " ");
    AddressArgsOneLine("TO:", recipient, []);
    OneLineConcat("RCPT" + " ", C.AddressArgs("TO:", recipient, []));
    TextIsLine("RCPT" + " " + C.AddressArgs("TO:", recipient, []));
  }

  lemma RcptParses(recipient: string)
    requires Sendable(recipient)
    ensures C.Parse(Trim(Line(C.RcptTo(recipient, [])))) ==
            if recipient == "" then Err(C.InvalidAddress(C.EmptyRecipient)) else
            match C.ValidateAddress(recipient)
            case Ok(_) => Ok(C.RcptTo(recipient, []))
            case Err(e) => Err(e)
  {
    C.ParseRcptLine(recipient, []);
    ParseWire(C.Print(C.RcptTo(recipient, [])));
  }

  lemma BareLines()
    ensures IsLine(Line(C.Data)) && IsUtf8(Line(C.Data))
    ensures IsLine(Line(C.Quit)) && IsUtf8(Line(C.Quit))
  {
    PlainOneLine("DATA");
    PlainOneLine("QUIT");
    TextIsLine("DATA");
    TextIsLine("QUIT");
  }

  lemma DataParses()
    ensures C.Parse(Trim(Line(C.Data))) == Ok(C.Data)
  {
    C.ParsePrint(C.Data);
    WireParses(C.Data);
  }

  lemma QuitParses()
    ensures C.Parse(Trim(Line(C.Quit))) == Ok(C.Quit)
  {
    C.ParsePrint(C.Quit);
    WireParses(C.Quit);
  }
}
