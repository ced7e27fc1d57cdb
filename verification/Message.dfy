/** Messages: reading headers and body out of raw text, and writing them back. */
module Message {
  import opened Text

  const MAX_LINE_LENGTH: nat := 998

  datatype Header = Header(name: string, value: string)

  /** The value of a parsed message. */
  datatype Message = Message(headers: seq<Header>, body: string, raw: string)

  datatype HeaderFault = NoPrecedingHeader | BadName(name: string) | NotAHeader(line: string)

  datatype MessageError =
    | MissingHeader(name: string)
    | InvalidHeader(fault: HeaderFault)
    | LineTooLong(lineNumber: nat, length: nat)

  // ---------------------------------------------------------------- reading

  const BLANK_LINE := "\r\n\r\n"

  /** Cutting at the first blank line: one between CRLFs anywhere, or else one between line feeds. */
  function SplitMessage(text: string): (string, string) {
    match Find(text, BLANK_LINE)
    case Some(i) => (text[..i], text[i + 4..])
    case None =>
      match Find(text, "\n\n")
      case Some(i) => (text[..i], text[i + 2..])
      case None => (text, "")
  }

  predicate IsGraphic(c: char) {
    '!' <= c <= '~'
  }

  predicate IsFieldName(name: string) {
    name != "" && forall i :: 0 <= i < |name| ==> IsGraphic(name[i]) && name[i] != ':'
  }

  predicate IsFolded(line: string) {
    line != "" && (line[0] == ' ' || line[0] == '\t')
  }

  /** The headers and complaints so far. */
  datatype Block = Block(headers: seq<Header>, errors: seq<MessageError>)
  {
    function Complain(fault: HeaderFault): Block {
      this.(errors := errors + [InvalidHeader(fault)])
    }
  }

  function Extended(headers: seq<Header>, text: string): seq<Header>
    requires headers != []
  {
    var n := |headers| - 1;
    headers[n := Header(headers[n].name, headers[n].value + " " + text)]
  }

  /** One physical line: a continuation of the header before it, a header, or neither. */
  function Absorb(b: Block, line: string): Block {
    if IsFolded(line) then
      if b.headers == [] then b.Complain(NoPrecedingHeader) else b.(headers := Extended(b.headers, Trim(line)))
    else
      var colon := IndexOf(line, ':');
      if colon < |line| then
        var name := Trim(line[..colon]);
        if IsFieldName(name) then b.(headers := b.headers + [Header(name, Trim(line[colon + 1..]))])
        else b.Complain(BadName(name))
      else if line == "" then b else b.Complain(NotAHeader(line))
  }

  function HeadersOf(lines: seq<string>): Block {
    if lines == [] then Block([], []) else Absorb(HeadersOf(lines[..|lines| - 1]), lines[|lines| - 1])
  }

  /** The complaints about lines over the limit, numbered from one. */
  function TooLong(lines: seq<string>): (errors: seq<MessageError>)
    ensures errors == [] <==> forall i :: 0 <= i < |lines| ==> |lines[i]| <= MAX_LINE_LENGTH
  {
    if lines == [] then []
    else
      var n := |lines|;
      var before := TooLong(lines[..n - 1]);
      if |lines[n - 1]| > MAX_LINE_LENGTH then before + [LineTooLong(n, |lines[n - 1]|)] else before
  }

  predicate HasHeader(headers: seq<Header>, name: string) {
    exists i :: 0 <= i < |headers| && ToLower(headers[i].name) == ToLower(name)
  }

  function Missing(headers: seq<Header>): seq<MessageError> {
    (if HasHeader(headers, "From") then [] else [MissingHeader("From")])
    + (if HasHeader(headers, "Date") then [] else [MissingHeader("Date")])
  }

  function Parse(raw: string): Result<Message, seq<MessageError>> {
    var (head, body) := SplitMessage(raw);
    var block := HeadersOf(Lines(head));
    var errors := block.errors + TooLong(Lines(raw)) + Missing(block.headers);
    if errors != [] then Err(errors) else Ok(Message(block.headers, body, raw))
  }

  // ---------------------------------------------------------------- writing

  function HeaderText(h: Header): string {
    h.name + ": " + h.value
  }

  function HeaderLines(headers: seq<Header>): (lines: seq<string>)
    ensures |lines| == |headers|
  {
    seq(|headers|, i requires 0 <= i < |headers| => HeaderText(headers[i]) + CRLF)
  }

  function ToBytes(m: Message): string {
    Flatten(HeaderLines(m.headers)) + CRLF + m.body
  }

  // ---------------------------------------------------------------- the object

  /** One line of the header block, added to what the lines before it gave. */
  method ParseLine(line: string, headers: seq<Header>, errors: seq<MessageError>)
    returns (headers': seq<Header>, errors': seq<MessageError>)
    ensures Block(headers', errors') == Absorb(Block(headers, errors), line)
  {
    headers', errors' := headers, errors;
    if IsFolded(line) {
      if headers != [] {
        headers' := Extended(headers, Trim(line));
      } else {
        errors' := errors + [InvalidHeader(NoPrecedingHeader)];
      }
      return;
    }
    var colon := IndexOf(line, ':');
    if colon < |line| {
      var name, value := Trim(line[..colon]), Trim(line[colon + 1..]);
      if IsFieldName(name) {
        headers' := headers + [Header(name, value)];
      } else {
        errors' := errors + [InvalidHeader(BadName(name))];
      }
    } else if line != "" {
      errors' := errors + [InvalidHeader(NotAHeader(line))];
    }
  }

  lemma HeadersOfNext(lines: seq<string>, i: nat)
    requires i < |lines|
    ensures HeadersOf(lines[..i + 1]) == Absorb(HeadersOf(lines[..i]), lines[i])
  {
    assert lines[..i + 1][..i] == lines[..i];
  }

  method ParseHeaders(head: string) returns (block: Block)
    ensures block == HeadersOf(Lines(head))
  {
    var lines := Lines(head);
    var headers: seq<Header>, errors: seq<MessageError> := [], [];
    var i := 0;
    while i < |lines|
      invariant 0 <= i <= |lines|
      invariant Block(headers, errors) == HeadersOf(lines[..i])
    {
      HeadersOfNext(lines, i);
      headers, errors := ParseLine(lines[i], headers, errors);
      i := i + 1;
    }
    assert lines[..i] == lines;
    block := Block(headers, errors);
  }

  class ParsedMessage {
    var headers: seq<Header>
    var body: string
    var raw: string

    ghost function Model(): Message
      reads this
    {
      Message(headers, body, raw)
    }

    constructor (headers: seq<Header>, body: string, raw: string)
      ensures Model() == Message(headers, body, raw)
    {
      this.headers := headers;
      this.body := body;
      this.raw := raw;
    }

    /** The first value of a header, by its name in any case. */
    function ValueOf(name: string): (r: Option<string>)
      reads this
      ensures r.Some? <==> HasHeader(headers, name)
    {
      FirstValue(headers, name)
    }

    method EnsureMessageId(messageId: string)
      modifies this`headers
      ensures Model() == old(Model()).(headers := WithMessageId(old(headers), messageId))
    {
      if ValueOf("Message-ID").None? {
        headers := headers + [Header("Message-ID", messageId)];
      }
    }

    method PrependReceived(line: string)
      modifies this`headers
      ensures Model() == old(Model()).(headers := [Header("Received", ReceivedValue(line))] + old(headers))
    {
      headers := [Header("Received", ReceivedValue(line))] + headers;
    }

    method Serialize() returns (bytes: string)
      ensures bytes == ToBytes(Model())
    {
      bytes := "";
      var i := 0;
      while i < |headers|
        invariant 0 <= i <= |headers|
        invariant bytes == Flatten(HeaderLines(headers)[..i])
      {
        var lines := HeaderLines(headers);
        assert lines[..i + 1] == lines[..i] + [lines[i]];
        FlattenAppend(lines[..i], [lines[i]]);
        FlattenOne(lines[i]);
        bytes := bytes + (headers[i].name + ": " + headers[i].value + CRLF);
        i := i + 1;
      }
      assert HeaderLines(headers)[..i] == HeaderLines(headers);
      bytes := bytes + CRLF + body;
    }
  }

  method CheckLengths(lines: seq<string>, before: seq<MessageError>) returns (errors: seq<MessageError>)
    ensures errors == before + TooLong(lines)
  {
    errors := before;
    var i := 0;
    while i < |lines|
      invariant 0 <= i <= |lines|
      invariant errors == before + TooLong(lines[..i])
    {
      assert lines[..i + 1][..i] == lines[..i];
      if |lines[i]| > MAX_LINE_LENGTH {
        errors := errors + [LineTooLong(i + 1, |lines[i]|)];
      }
      i := i + 1;
    }
    assert lines[..i] == lines;
  }

  /** Reading raw text: an object, or every complaint about it. */
  method ReadMessage(raw: string) returns (r: Result<ParsedMessage, seq<MessageError>>)
    ensures match r
            case Ok(m) => fresh(m) && Parse(raw) == Ok(m.Model())
            case Err(errors) => Parse(raw) == Err(errors)
  {
    var (head, body) := SplitMessage(raw);
    var block := ParseHeaders(head);
    var errors := CheckLengths(Lines(raw), block.errors);
    errors := errors + Missing(block.headers);
    if errors != [] {
      return Err(errors);
    }
    var message := new ParsedMessage(block.headers, body, raw);
    r := Ok(message);
  }

  function FirstValue(headers: seq<Header>, name: string): (r: Option<string>)
    ensures r.Some? <==> HasHeader(headers, name)
  {
    if headers == [] then None
    else if ToLower(headers[0].name) == ToLower(name) then Some(headers[0].value)
    else FirstValue(headers[1..], name)
  }

  /** The value is that of the first header of the name. */
  lemma {:induction false} FirstValueIs(headers: seq<Header>, name: string, i: nat)
    requires i < |headers| && ToLower(headers[i].name) == ToLower(name)
    requires forall j :: 0 <= j < i ==> ToLower(headers[j].name) != ToLower(name)
    ensures FirstValue(headers, name) == Some(headers[i].value)
  {
    if i > 0 { FirstValueIs(headers[1..], name, i - 1); }
  }

  function WithMessageId(headers: seq<Header>, messageId: string): seq<Header> {
    if HasHeader(headers, "Message-ID") then headers else headers + [Header("Message-ID", messageId)]
  }

  const RECEIVED := "Received:"

  function ReceivedValue(line: string): string {
    if RECEIVED <= line then Trim(line[|RECEIVED|..]) else line
  }

  /** The value of a trace line is what follows the name, or, without the name, the line as it is. */
  lemma ReceivedIs(text: string, line: string)
    ensures ReceivedValue("Received:" + text) == Trim(text)
    ensures !("Received:" <= line) ==> ReceivedValue(line) == line
  {
    assert ("Received:" + text)[|RECEIVED|..] == text;
  }

  // ---------------------------------------------------------------- what parsing yields

  predicate WellFormedHeader(h: Header) {
    IsFieldName(h.name) && LfFree(h.value)
  }

  predicate WellFormed(headers: seq<Header>) {
    forall i :: 0 <= i < |headers| ==> WellFormedHeader(headers[i])
  }

  lemma TakeLfFree(s: string, i: nat, j: nat)
    requires LfFree(s) && i <= j <= |s|
    ensures LfFree(s[i..j])
  {
  }

  lemma StrippedLfFree(chunk: string)
    requires IsLine(chunk) || '\n' !in chunk
    ensures LfFree(StripEol(chunk))
  {
    if IsLine(chunk) {
      var t := chunk[..|chunk| - 1];
      forall i | 0 <= i < |t| ensures t[i] != '\n' { assert t[i] in t; }
    } else {
      assert chunk == "" || chunk[|chunk| - 1] in chunk;
      forall i | 0 <= i < |chunk| ensures chunk[i] != '\n' { assert chunk[i] in chunk; }
    }
  }

  lemma LinesLfFree(s: string)
    ensures AllLfFree(Lines(s))
  {
    ChunksAreLines(s);
    forall i | 0 <= i < |Lines(s)| ensures LfFree(Lines(s)[i]) { StrippedLfFree(Chunks(s)[i]); }
  }

  lemma AbsorbWellFormed(b: Block, line: string)
    requires WellFormed(b.headers) && LfFree(line)
    ensures WellFormed(Absorb(b, line).headers)
  {
    if IsFolded(line) {
      TrimLfFree(line);
    } else {
      var colon := IndexOf(line, ':');
      if colon < |line| {
        TakeLfFree(line, colon + 1, |line|);
        TrimLfFree(line[colon + 1..]);
      }
    }
  }

  lemma {:induction false} HeadersWellFormed(lines: seq<string>)
    requires AllLfFree(lines)
    ensures WellFormed(HeadersOf(lines).headers)
  {
    if lines != [] {
      HeadersWellFormed(lines[..|lines| - 1]);
      AbsorbWellFormed(HeadersOf(lines[..|lines| - 1]), lines[|lines| - 1]);
    }
  }

  /** A message with proper headers, none of the required ones missing. */
  predicate Complete(m: Message) {
    WellFormed(m.headers) && Missing(m.headers) == []
  }

  lemma ParsedIsComplete(raw: string)
    requires Parse(raw).Ok?
    ensures Complete(Parse(raw).value)
  {
    var lines := Lines(SplitMessage(raw).0);
    LinesLfFree(SplitMessage(raw).0);
    HeadersWellFormed(lines);
    assert Missing(HeadersOf(lines).headers) == [];
  }

  // ---------------------------------------------------------------- where the blank line is

  /** A header line: text without line feeds, at least three characters of it, and CRLF. */
  predicate IsHeaderLine(line: string) {
    IsLine(line) && |line| >= 5 && line[|line| - 2] == '\r'
  }

  predicate AllHeaderLines(lines: seq<string>) {
    forall i :: 0 <= i < |lines| ==> IsHeaderLine(lines[i])
  }

  lemma HeaderLineIs(h: Header)
    requires WellFormedHeader(h)
    ensures LfFree(HeaderText(h)) && IsHeaderLine(HeaderText(h) + CRLF)
    ensures StripEol(HeaderText(h) + CRLF) == HeaderText(h)
  {
    var text := HeaderText(h);
    LfFreeConcat(h.name + ": ", h.value);
    var line := text + CRLF;
    assert line[..|line| - 1] == text + "\r" && line[..|line| - 1][..|line| - 2] == text;
  }

  lemma HeaderLinesAre(headers: seq<Header>)
    requires WellFormed(headers)
    ensures AllHeaderLines(HeaderLines(headers)) && AllLines(HeaderLines(headers))
  {
    forall i | 0 <= i < |headers| ensures IsHeaderLine(HeaderLines(headers)[i]) { HeaderLineIs(headers[i]); }
  }

  lemma LfOnlyLast(line: string, k: nat)
    requires IsLine(line) && k < |line| - 1
    ensures line[k] != '\n'
  {
    var front := line[..|line| - 1];
    assert front[k] == line[k] && front[k] in front;
  }

  /** Among header lines no two line feeds are two apart. */
  lemma {:induction false} LfsApart(lines: seq<string>, k: nat)
    requires AllHeaderLines(lines) && k + 2 < |Flatten(lines)| && Flatten(lines)[k] == '\n'
    ensures Flatten(lines)[k + 2] != '\n'
    decreases |lines|
  {
    var first, rest := lines[0], Flatten(lines[1..]);
    var all := first + rest;
    if k >= |first| {
      assert all[k] == rest[k - |first|] && all[k + 2] == rest[k - |first| + 2];
      LfsApart(lines[1..], k - |first|);
    } else {
      assert all[k] == first[k];
      if k < |first| - 1 { LfOnlyLast(first, k); } else {
        assert all[k + 2] == rest[1] == lines[1][1];
        LfOnlyLast(lines[1], 1);
      }
    }
  }

  lemma {:induction false} FlattenEnds(lines: seq<string>)
    requires AllHeaderLines(lines) && lines != []
    ensures var p := Flatten(lines); |p| >= 5 && p[|p| - 2..] == CRLF
    decreases |lines|
  {
    if |lines| == 1 {
      FlattenOne(lines[0]);
      assert lines == [lines[0]];
    } else {
      FlattenEnds(lines[1..]);
    }
  }

  lemma NoBlankBefore(p: string, body: string, j: nat)
    requires |p| >= 5 && j + 2 < |p|
    requires forall k: nat :: k + 2 < |p| && p[k] == '\n' ==> p[k + 2] != '\n'
    ensures !OccursAt(p + CRLF + body, BLANK_LINE, j)
  {
    var text := p + CRLF + body;
    var here := text[j..j + 4];
    assert here[1] == text[j + 1] && here[3] == text[j + 3];
    assert text[|p|] == '\r' && BLANK_LINE[1] == '\n' && BLANK_LINE[3] == '\n';
  }

  lemma {:induction false} SplitsAfterHeaders(lines: seq<string>, body: string)
    requires AllHeaderLines(lines) && lines != []
    ensures var p := Flatten(lines);
            |p| >= 5 && SplitMessage(p + CRLF + body) == (p[..|p| - 2], body)
  {
    var p := Flatten(lines);
    var text := p + CRLF + body;
    FlattenEnds(lines);
    forall k: nat | k + 2 < |p| && p[k] == '\n' ensures p[k + 2] != '\n' { LfsApart(lines, k); }
    var i := |p| - 2;
    assert text[i..i + 4] == p[i..] + CRLF == BLANK_LINE;
    forall j | 0 <= j < i ensures !OccursAt(text, BLANK_LINE, j) { NoBlankBefore(p, body, j); }
    FindAt(text, BLANK_LINE, i);
    assert text[..i] == p[..i] && text[i + 4..] == body;
  }

  // ---------------------------------------------------------------- reading back what was written

  function Texts(headers: seq<Header>): (texts: seq<string>)
    ensures |texts| == |headers|
  {
    seq(|headers|, i requires 0 <= i < |headers| => HeaderText(headers[i]))
  }

  lemma StripsToTexts(headers: seq<Header>)
    requires WellFormed(headers)
    ensures StripAll(HeaderLines(headers)) == Texts(headers)
  {
    forall i | 0 <= i < |headers| ensures StripEol(HeaderLines(headers)[i]) == HeaderText(headers[i]) { HeaderLineIs(headers[i]); }
  }

  lemma StripAllAppend(a: seq<string>, b: seq<string>)
    ensures StripAll(a + b) == StripAll(a) + StripAll(b)
  {
  }

  lemma {:induction false} OneChunk(s: string)
    requires LfFree(s) && s != ""
    ensures Chunks(s) == [s] && Lines(s) == [s]
  {
    IndexOfAbsent(s, '\n');
    assert s[..|s|] == s && s[|s|..] == "";
    assert Chunks(s[|s|..]) == [];
  }

  lemma {:induction false} LinesThenText(lines: seq<string>, last: string)
    requires AllLines(lines) && LfFree(last) && last != ""
    ensures Lines(Flatten(lines) + last) == StripAll(lines) + [last]
  {
    ChunksOfLines(lines, last);
    OneChunk(last);
    StripAllAppend(lines, [last]);
    assert StripAll([last]) == [last];
  }

  lemma {:induction false} WithoutLastCrlf(lines: seq<string>, last: string)
    ensures var p := Flatten(lines + [last + CRLF]);
            |p| >= 2 && p[..|p| - 2] == Flatten(lines) + last
  {
    FlattenAppend(lines, [last + CRLF]);
    FlattenOne(last + CRLF);
  }

  lemma HeaderLinesSnoc(headers: seq<Header>)
    requires headers != []
    ensures var n := |headers| - 1;
            && HeaderLines(headers) == HeaderLines(headers[..n]) + [HeaderText(headers[n]) + CRLF]
            && Texts(headers) == Texts(headers[..n]) + [HeaderText(headers[n])]
  {
  }

  /** The lines of the header block: the last one has lost its CRLF to the blank line. */
  lemma BlockLines(headers: seq<Header>)
    requires WellFormed(headers) && headers != []
    ensures var p := Flatten(HeaderLines(headers));
            |p| >= 2 && Lines(p[..|p| - 2]) == Texts(headers)
  {
    var front, h := headers[..|headers| - 1], headers[|headers| - 1];
    HeaderLinesSnoc(headers);
    WithoutLastCrlf(HeaderLines(front), HeaderText(h));
    HeaderLinesAre(front);
    HeaderLineIs(h);
    LinesThenText(HeaderLines(front), HeaderText(h));
    StripsToTexts(front);
  }

  function TrimValue(h: Header): Header {
    Header(h.name, Trim(h.value))
  }

  /** The same headers, their values without outer white space. */
  function TrimAll(headers: seq<Header>): (r: seq<Header>)
    ensures |r| == |headers|
  {
    seq(|headers|, i requires 0 <= i < |headers| => TrimValue(headers[i]))
  }

  lemma NameIsTrimmed(name: string)
    requires IsFieldName(name)
    ensures Trim(name) == name && !IsFolded(name + ": ") && ':' !in name
  {
    assert IsGraphic(name[0]) && IsGraphic(name[|name| - 1]);
    TrimTrimmed(name);
    assert (name + ": ")[0] == name[0];
  }

  lemma AbsorbText(b: Block, h: Header)
    requires WellFormedHeader(h)
    ensures Absorb(b, HeaderText(h)) == b.(headers := b.headers + [TrimValue(h)])
  {
    var line := HeaderText(h);
    NameIsTrimmed(h.name);
    assert line == h.name + [':'] + (" " + h.value);
    IndexOfAt(h.name, ':', " " + h.value);
    assert line[0] == h.name[0];
    assert line[..|h.name|] == h.name && line[|h.name| + 1..] == " " + h.value;
    TrimPadded(" ", h.value, "");
    assert " " + h.value + "" == " " + h.value;
  }

  lemma {:induction false} ReadsNext(lines: seq<string>, h: Header, b: Block)
    requires HeadersOf(lines) == b && WellFormedHeader(h)
    ensures HeadersOf(lines + [HeaderText(h)]) == b.(headers := b.headers + [TrimValue(h)])
  {
    var all := lines + [HeaderText(h)];
    assert all[..|all| - 1] == lines;
    AbsorbText(b, h);
  }

  lemma TrimAllSnoc(headers: seq<Header>, h: Header)
    ensures TrimAll(headers + [h]) == TrimAll(headers) + [TrimValue(h)]
    ensures Texts(headers + [h]) == Texts(headers) + [HeaderText(h)]
  {
  }

  predicate ReadsAs(headers: seq<Header>) {
    HeadersOf(Texts(headers)) == Block(TrimAll(headers), [])
  }

  lemma TextsReadNext(front: seq<Header>, h: Header)
    requires ReadsAs(front) && WellFormedHeader(h)
    ensures ReadsAs(front + [h])
  {
    ReadsNext(Texts(front), h, Block(TrimAll(front), []));
    TrimAllSnoc(front, h);
  }

  lemma {:induction false} TextsRead(headers: seq<Header>, n: nat)
    requires WellFormed(headers) && n <= |headers|
    ensures ReadsAs(headers[..n])
  {
    if n > 0 {
      TextsRead(headers, n - 1);
      TextsReadNext(headers[..n - 1], headers[n - 1]);
      assert headers[..n] == headers[..n - 1] + [headers[n - 1]];
    } else {
      assert headers[..0] == [] && TrimAll([]) == [];
    }
  }

  lemma TrimmedHas(headers: seq<Header>, name: string)
    ensures HasHeader(TrimAll(headers), name) <==> HasHeader(headers, name)
  {
    forall i | 0 <= i < |headers| ensures TrimAll(headers)[i].name == headers[i].name {}
    if HasHeader(headers, name) {
      var i :| 0 <= i < |headers| && ToLower(headers[i].name) == ToLower(name);
      assert ToLower(TrimAll(headers)[i].name) == ToLower(name);
    }
  }

  function Head(headers: seq<Header>): string {
    var p := Flatten(HeaderLines(headers));
    if |p| >= 2 then p[..|p| - 2] else ""
  }

  lemma PrintedSplits(m: Message)
    requires WellFormed(m.headers) && m.headers != []
    ensures SplitMessage(ToBytes(m)) == (Head(m.headers), m.body)
  {
    HeaderLinesAre(m.headers);
    SplitsAfterHeaders(HeaderLines(m.headers), m.body);
  }

  lemma {:induction false} LinesRead(lines: seq<string>, headers: seq<Header>)
    requires WellFormed(headers) && lines == Texts(headers)
    ensures HeadersOf(lines) == Block(TrimAll(headers), [])
  {
    TextsRead(headers, |headers|);
    assert headers[..|headers|] == headers;
  }

  lemma HeadLines(headers: seq<Header>)
    requires WellFormed(headers) && headers != []
    ensures Lines(Head(headers)) == Texts(headers)
  {
    BlockLines(headers);
  }

  lemma ParsedFrom(raw: string, headers: seq<Header>)
    requires HeadersOf(Lines(SplitMessage(raw).0)) == Block(headers, []) && Missing(headers) == []
    ensures Parse(raw) == if TooLong(Lines(raw)) == [] then Ok(Message(headers, SplitMessage(raw).1, raw))
                          else Err(TooLong(Lines(raw)))
  {
    NothingAround(TooLong(Lines(raw)));
  }

  lemma NothingAround(errors: seq<MessageError>)
    ensures [] + errors + [] == errors
  {
  }

  lemma NothingMissing(headers: seq<Header>)
    ensures Missing(TrimAll(headers)) == Missing(headers)
    ensures HasHeader(headers, "From") && HasHeader(headers, "Date") <==> Missing(headers) == []
  {
    TrimmedHas(headers, "From");
    TrimmedHas(headers, "Date");
  }

  /** What is written is read back: the same body and the same headers in the same order, values up
      to outer white space, if and only if no line is too long. */
  lemma PrintedParses(m: Message)
    requires Complete(m)
    ensures Parse(ToBytes(m)) ==
            if TooLong(Lines(ToBytes(m))) == [] then Ok(Message(TrimAll(m.headers), m.body, ToBytes(m)))
            else Err(TooLong(Lines(ToBytes(m))))
  {
    PrintedSplits(m);
    HeadLines(m.headers);
    LinesRead(Lines(Head(m.headers)), m.headers);
    NothingMissing(m.headers);
    ParsedFrom(ToBytes(m), TrimAll(m.headers));
  }

  // ---------------------------------------------------------------- a fixed point

  lemma BlankThen(body: string)
    ensures Lines(CRLF + body) == [""] + Lines(body)
  {
    ChunksCons(CRLF, body);
    StripAllAppend([CRLF], Chunks(body));
    assert StripAll([CRLF]) == [""];
  }

  lemma {:induction false} LinesAfter(lines: seq<string>, rest: string)
    requires AllLines(lines)
    ensures Lines(Flatten(lines) + rest) == StripAll(lines) + Lines(rest)
  {
    ChunksOfLines(lines, rest);
    StripAllAppend(lines, Chunks(rest));
  }

  lemma PrintedLines(m: Message)
    requires WellFormed(m.headers)
    ensures Lines(ToBytes(m)) == Texts(m.headers) + [""] + Lines(m.body)
  {
    var lines := HeaderLines(m.headers);
    HeaderLinesAre(m.headers);
    assert ToBytes(m) == Flatten(lines) + (CRLF + m.body);
    LinesAfter(lines, CRLF + m.body);
    BlankThen(m.body);
    StripsToTexts(m.headers);
    assert Texts(m.headers) + ([""] + Lines(m.body)) == Texts(m.headers) + [""] + Lines(m.body);
  }

  lemma TrimIdempotent(s: string)
    ensures Trim(Trim(s)) == Trim(s) && |Trim(s)| <= |s|
  {
    var before, after := TrimSplits(s);
    TrimTrimmed(Trim(s));
  }

  lemma TrimAllTwice(headers: seq<Header>)
    ensures TrimAll(TrimAll(headers)) == TrimAll(headers)
    ensures WellFormed(headers) ==> WellFormed(TrimAll(headers))
  {
    forall i | 0 <= i < |headers|
      ensures TrimValue(TrimValue(headers[i])) == TrimValue(headers[i])
      ensures WellFormedHeader(headers[i]) ==> WellFormedHeader(TrimValue(headers[i]))
    {
      TrimIdempotent(headers[i].value);
      if LfFree(headers[i].value) { TrimLfFree(headers[i].value); }
    }
  }

  lemma ShorterStaysShort(m: Message)
    requires WellFormed(m.headers) && TooLong(Lines(ToBytes(m))) == []
    ensures TooLong(Lines(ToBytes(m.(headers := TrimAll(m.headers))))) == []
  {
    var trimmed := m.(headers := TrimAll(m.headers));
    var before, after := Lines(ToBytes(m)), Lines(ToBytes(trimmed));
    TrimAllTwice(m.headers);
    PrintedLines(m);
    PrintedLines(trimmed);
    forall i | 0 <= i < |after| ensures |after[i]| <= MAX_LINE_LENGTH {
      assert |before[i]| <= MAX_LINE_LENGTH;
      if i < |m.headers| {
        TrimIdempotent(m.headers[i].value);
      }
    }
  }

  /** Parsing, printing and parsing again: the body is the same, the headers are the same up to
      outer white space; and from then on printing and parsing change nothing. */
  lemma ParsePrintParse(raw: string)
    requires Parse(raw).Ok?
    ensures var m := Parse(raw).value;
            var again := Parse(ToBytes(m));
            && (again.Ok? <==> TooLong(Lines(ToBytes(m))) == [])
            && (again.Ok? ==>
                  && again.value == Message(TrimAll(m.headers), m.body, ToBytes(m))
                  && Parse(ToBytes(again.value)) == Ok(again.value.(raw := ToBytes(again.value))))
  {
    var m := Parse(raw).value;
    ParsedIsComplete(raw);
    PrintedParses(m);
    if TooLong(Lines(ToBytes(m))) == [] {
      var second := Message(TrimAll(m.headers), m.body, ToBytes(m));
      TrimAllTwice(m.headers);
      NothingMissing(m.headers);
      ShorterStaysShort(m);
      assert ToBytes(m.(headers := TrimAll(m.headers))) == ToBytes(second);
      PrintedParses(second);
    }
  }

  // ---------------------------------------------------------------- an accepted message that does not reprint

  /** A folded line behind the last of some headers. */
  function FoldedLines(headers: seq<Header>, more: string): seq<string> {
    HeaderLines(headers) + [" " + more + CRLF]
  }

  lemma FoldedLineIs(more: string)
    requires IsToken(more) && |more| >= 2
    ensures LfFree(" " + more) && IsHeaderLine(" " + more + CRLF) && StripEol(" " + more + CRLF) == " " + more
  {
    TokenLfFree(more);
    LfFreeConcat(" ", more);
    TextLine(" " + more);
  }

  lemma TextLine(text: string)
    requires LfFree(text) && |text| >= 3
    ensures IsHeaderLine(text + CRLF) && StripEol(text + CRLF) == text
  {
    var line := text + CRLF;
    assert line[..|line| - 1] == text + "\r" && (text + "\r")[..|text|] == text;
  }

  lemma FoldedTrim(more: string)
    requires IsToken(more)
    ensures Trim(" " + more) == more
  {
    TrimPadded(" ", more, "");
    assert " " + more + "" == " " + more;
    TrimTrimmed(more);
  }

  lemma TokenLfFree(s: string)
    requires IsToken(s)
    ensures LfFree(s)
  {
    forall i | 0 <= i < |s| ensures s[i] != '\n' { assert !IsSpace(s[i]); }
  }

  /** Reading such a block unfolds the line. */
  lemma FoldedBlock(headers: seq<Header>, more: string)
    requires WellFormed(headers) && headers != [] && IsToken(more) && |more| >= 2
    ensures HeadersOf(Texts(headers) + [" " + more]) == Block(Extended(TrimAll(headers), more), [])
  {
    var lines := Texts(headers) + [" " + more];
    assert lines[..|lines| - 1] == Texts(headers);
    TextsRead(headers, |headers|);
    assert headers[..|headers|] == headers;
    FoldedTrim(more);
  }

  lemma FoldedHead(headers: seq<Header>, more: string)
    requires WellFormed(headers) && IsToken(more) && |more| >= 2
    ensures var p := Flatten(FoldedLines(headers, more));
            |p| >= 2 && Lines(p[..|p| - 2]) == Texts(headers) + [" " + more]
  {
    FoldedLineIs(more);
    HeaderLinesAre(headers);
    WithoutLastCrlf(HeaderLines(headers), " " + more);
    LinesThenText(HeaderLines(headers), " " + more);
    StripsToTexts(headers);
  }

  function FoldedText(headers: seq<Header>, more: string): string {
    Flatten(FoldedLines(headers, more)) + CRLF + ""
  }

  lemma FoldedSplits(headers: seq<Header>, more: string)
    requires WellFormed(headers) && headers != [] && IsToken(more) && |more| >= 2
    ensures var p := Flatten(FoldedLines(headers, more));
            |p| >= 2 && SplitMessage(FoldedText(headers, more)) == (p[..|p| - 2], "")
  {
    FoldedLineIs(more);
    HeaderLinesAre(headers);
    SplitsAfterHeaders(FoldedLines(headers, more), "");
  }

  lemma FoldedReads(headers: seq<Header>, more: string)
    requires WellFormed(headers) && headers != [] && IsToken(more) && |more| >= 2
    ensures HeadersOf(Lines(SplitMessage(FoldedText(headers, more)).0)) == Block(Extended(TrimAll(headers), more), [])
    ensures SplitMessage(FoldedText(headers, more)).1 == ""
  {
    FoldedSplits(headers, more);
    FoldedHead(headers, more);
    FoldedBlock(headers, more);
  }

  lemma FoldedTextLines(headers: seq<Header>, more: string)
    requires WellFormed(headers) && IsToken(more) && |more| >= 2
    ensures Lines(FoldedText(headers, more)) == Texts(headers) + [" " + more] + [""]
  {
    var lines := FoldedLines(headers, more);
    FoldedLineIs(more);
    HeaderLinesAre(headers);
    assert Flatten(lines) + CRLF + "" == Flatten(lines) + CRLF;
    ChunksOfLines(lines, CRLF);
    ChunksCons(CRLF, "");
    assert CRLF + "" == CRLF && [CRLF] + Chunks("") == [CRLF];
    StripAllAppend(lines, [CRLF]);
    StripAllAppend(HeaderLines(headers), [" " + more + CRLF]);
    StripsToTexts(headers);
    assert StripAll([CRLF]) == [""] && StripAll([" " + more + CRLF]) == [" " + more];
  }

  /** The headers of a message whose subject is `subject`. */
  function Plain(subject: string): seq<Header> {
    [Header("From", "x"), Header("Date", "y"), Header("Subject", subject)]
  }

  lemma PlainIsComplete(subject: string)
    requires LfFree(subject)
    ensures WellFormed(Plain(subject)) && Missing(Plain(subject)) == []
  {
    var headers := Plain(subject);
    assert IsFieldName("From") && IsFieldName("Date") && IsFieldName("Subject");
    assert headers[0].name == "From" && headers[1].name == "Date";
  }

  lemma PlainTrimmed(subject: string)
    requires IsToken(subject)
    ensures TrimAll(Plain(subject)) == Plain(subject)
  {
    TrimTrimmed("x");
    TrimTrimmed("y");
    TrimTrimmed(subject);
  }

  /** A message is accepted whose subject is folded after 600 characters, with 600 more on the next line. */
  lemma FoldedAccepted(first: string, more: string)
    requires IsToken(first) && IsToken(more) && |first| == |more| == 600
    ensures Parse(FoldedText(Plain(first), more)) == Ok(Message(Plain(first + " " + more), "", FoldedText(Plain(first), more)))
  {
    var raw, headers := FoldedText(Plain(first), more), Plain(first);
    TokenLfFree(first);
    PlainIsComplete(first);
    PlainTrimmed(first);
    FoldedReads(headers, more);
    FoldedTextLines(headers, more);
    SubjectLfFree(first, more);
    FoldedHeaders(first, more);
    ShortTexts(first, more);
    ParsedFrom(raw, Plain(first + " " + more));
  }

  lemma FoldedHeaders(first: string, more: string)
    requires LfFree(first + " " + more)
    ensures Extended(Plain(first), more) == Plain(first + " " + more)
    ensures Missing(Plain(first + " " + more)) == []
  {
    PlainIsComplete(first + " " + more);
  }

  lemma ShortTexts(first: string, more: string)
    requires |first| == |more| == 600
    ensures TooLong(Texts(Plain(first)) + [" " + more] + [""]) == []
  {
  }

  lemma SubjectLfFree(first: string, more: string)
    requires IsToken(first) && IsToken(more)
    ensures LfFree(first + " " + more)
  {
    TokenLfFree(first);
    TokenLfFree(more);
    LfFreeConcat(first, " ");
    LfFreeConcat(first + " ", more);
  }

  lemma LongHeaderRefused(m: Message, i: nat)
    requires Complete(m) && i < |m.headers| && |HeaderText(m.headers[i])| > MAX_LINE_LENGTH
    ensures Parse(ToBytes(m)).Err?
  {
    PrintedLines(m);
    assert Lines(ToBytes(m))[i] == HeaderText(m.headers[i]);
    PrintedParses(m);
  }

  /** Its printed form has the subject on one line, and is refused. */
  lemma FoldedDoesNotReprint(first: string, more: string)
    requires IsToken(first) && IsToken(more) && |first| == |more| == 600
    ensures var m := Parse(FoldedText(Plain(first), more));
            m.Ok? && Parse(ToBytes(m.value)).Err?
  {
    FoldedAccepted(first, more);
    SubjectLfFree(first, more);
    PlainIsComplete(first + " " + more);
    LongHeaderRefused(Message(Plain(first + " " + more), "", FoldedText(Plain(first), more)), 2);
  }
}
