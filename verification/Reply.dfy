/** SMTP replies: how the server writes them and how the client reads them back. */
module Reply {
  import opened Text
  import opened Utf8

  datatype Response = Response(code: nat, messages: seq<string>)

  function Single(code: nat, message: string): Response {
    Response(code, [message])
  }

  // ---------------------------------------------------------------- writing

  function WireLine(code: nat, sep: char, message: string): string {
    ToDecimal(code) + [sep] + message + CRLF
  }

  /** Every line but the last has a dash after the code, the last one a space. */
  function WireLines(code: nat, messages: seq<string>): string {
    if messages == [] then ""
    else WireLine(code, if |messages| > 1 then '-' else ' ', messages[0]) + WireLines(code, messages[1..])
  }

  /** The source panics on a reply without lines; no constructor makes one. */
  function ToWire(r: Response): string
    requires r.messages != []
  {
    WireLines(r.code, r.messages)
  }

  lemma {:induction false} WireLinesStep(code: nat, messages: seq<string>, i: nat)
    requires i < |messages|
    ensures WireLines(code, messages[i..])
         == WireLine(code, if i < |messages| - 1 then '-' else ' ', messages[i]) + WireLines(code, messages[i + 1..])
  {
    assert messages[i..][1..] == messages[i + 1..];
  }

  method Serialize(r: Response) returns (buf: string)
    requires r.messages != []
    ensures buf == ToWire(r)
  {
    buf := "";
    var last := |r.messages| - 1;
    var i := 0;
    while i < |r.messages|
      invariant 0 <= i <= |r.messages|
      invariant buf + WireLines(r.code, r.messages[i..]) == ToWire(r)
    {
      var sep := if i < last then '-' else ' ';
      WireLinesStep(r.code, r.messages, i);
      buf := buf + WireLine(r.code, sep, r.messages[i]);
      i := i + 1;
    }
  }

  // ---------------------------------------------------------------- reading

  datatype ReadError =
    | ConnectionClosed
    | TimedOut
    | NotAReply(received: string)
    | SliceOutOfRange        // the source slices a line where it cannot be sliced, and panics

  type ReadResult = Result<Response, ReadError>

  datatype LineOutcome = Stop(result: ReadResult) | More(code: nat, lines: seq<string>)

  const U16_MAX: nat := 65535

  /** A string slice panics at an offset beyond the end, or inside a character. */
  predicate Unsliceable(line: string) {
    |line| < 3 || (|line| > 3 && IsTrailing(line[3]))
  }

  function Classify(code: nat, lines: seq<string>, line: string): LineOutcome {
    if |line| >= 4 && line[3] == ' ' then Stop(Ok(Response(code, lines + [line[4..]])))
    else if |line| >= 4 && line[3] == '-' then More(code, lines + [line[4..]])
    else if Unsliceable(line) then Stop(Err(SliceOutOfRange))
    else Stop(Ok(Response(code, lines + [line[3..]])))
  }

  /** One complete line: the code is taken from the first line that yields a non-zero one. */
  function TakeLine(code: nat, lines: seq<string>, line: string): LineOutcome {
    if code == 0 && |line| >= 3 then
      if Unsliceable(line) then Stop(Err(SliceOutOfRange)) else
      match ParseUnsigned(line[..3], U16_MAX)
      case None => Stop(Err(NotAReply(line)))
      case Some(c) => Classify(c, lines, line)
    else Classify(code, lines, line)
  }

  /** The reading loop, byte by byte: what it makes of `inbox` and what it leaves unread, if nothing
      comes after `inbox` but the end of the stream. */
  function ReadLoop(code: nat, lines: seq<string>, buffer: string, inbox: string): (ReadResult, string)
    decreases |inbox|
  {
    if inbox == "" then (Err(ConnectionClosed), "")
    else
      var b := buffer + [inbox[0]];
      if !EndsInCrlf(b) then ReadLoop(code, lines, b, inbox[1..])
      else
        match TakeLine(code, lines, b[..|b| - 2])
        case Stop(result) => (result, inbox[1..])
        case More(code', lines') => ReadLoop(code', lines', "", inbox[1..])
  }

  function Resume(outcome: LineOutcome, rest: string): (ReadResult, string) {
    match outcome
    case Stop(result) => (result, rest)
    case More(code, lines) => ReadLoop(code, lines, "", rest)
  }

  function ReadReply(inbox: string): (ReadResult, string) {
    ReadLoop(0, [], "", inbox)
  }

  // ---------------------------------------------------------------- the codec

  predicate NoCrlf(s: string) {
    forall i {:trigger s[i]} :: 0 <= i < |s| - 1 ==> !(s[i] == '\r' && s[i + 1] == '\n')
  }

  /** What the wire format can carry: a three-digit code and lines without a line ending. */
  predicate Encodable(r: Response) {
    100 <= r.code <= 999 && r.messages != [] && forall i :: 0 <= i < |r.messages| ==> NoCrlf(r.messages[i])
  }

  lemma {:induction false} ReadToCrlf(code: nat, lines: seq<string>, buffer: string, line: string, rest: string)
    requires NoCrlf(buffer + line)
    ensures ReadLoop(code, lines, buffer, line + CRLF + rest) ==
            Resume(TakeLine(code, lines, buffer + line), rest)
    decreases |line|
  {
    var inbox := line + CRLF + rest;
    var b := buffer + [inbox[0]];
    if line == "" {
      assert buffer + line == buffer;
      assert inbox[0] == '\r' && inbox[1..] == "\n" + rest;
      var b' := b + ['\n'];
      assert b'[..|b'| - 2] == buffer;
      assert inbox[1..][1..] == rest;
    } else {
      assert buffer + line == b + line[1..];
      assert inbox[1..] == line[1..] + CRLF + rest;
      if |b| >= 2 {
        assert b[|b| - 2] == (buffer + line)[|b| - 2] && b[|b| - 1] == (buffer + line)[|b| - 1];
      }
      ReadToCrlf(code, lines, b, line[1..], rest);
    }
  }

  lemma {:induction false} ReadLineOf(code: nat, lines: seq<string>, text: string, rest: string)
    requires NoCrlf(text)
    ensures ReadLoop(code, lines, "", text + CRLF + rest) ==
            Resume(TakeLine(code, lines, text), rest)
  {
    assert "" + text == text;
    ReadToCrlf(code, lines, "", text, rest);
  }

  lemma {:induction false} CodedLine(seen: nat, code: nat, lines: seq<string>, sep: char, message: string)
    requires 100 <= code <= 999 && seen in {0, code} && sep in {'-', ' '} && NoCrlf(message)
    ensures var text := ToDecimal(code) + [sep] + message;
            && NoCrlf(text)
            && TakeLine(seen, lines, text) ==
               if sep == '-' then More(code, lines + [message]) else Stop(Ok(Response(code, lines + [message])))
  {
    var digits := ToDecimal(code);
    var text := digits + [sep] + message;
    ThreeDigits(code);
    ParseDecimal(code, U16_MAX);
    assert text[..3] == digits && text[3] == sep && text[4..] == message;
    forall i | 0 <= i < |text| - 1 ensures !(text[i] == '\r' && text[i + 1] == '\n') {
      if i < 3 { assert IsDigit(digits[i]); } else if i > 3 { assert text[i] == message[i - 4]; }
    }
  }

  /** A line that is not the last: the reader goes on with what follows. */
  lemma {:induction false} ReadMore(seen: nat, code: nat, before: seq<string>, message: string, rest: string)
    requires 100 <= code <= 999 && seen in {0, code} && NoCrlf(message)
    ensures ReadLoop(seen, before, "", ToDecimal(code) + ['-'] + message + CRLF + rest)
         == ReadLoop(code, before + [message], "", rest)
  {
    CodedLine(seen, code, before, '-', message);
    ReadLineOf(seen, before, ToDecimal(code) + ['-'] + message, rest);
  }

  lemma {:induction false} ReadLast(seen: nat, code: nat, before: seq<string>, message: string, rest: string)
    requires 100 <= code <= 999 && seen in {0, code} && NoCrlf(message)
    ensures ReadLoop(seen, before, "", ToDecimal(code) + [' '] + message + CRLF + rest)
         == (Ok(Response(code, before + [message])), rest)
  {
    CodedLine(seen, code, before, ' ', message);
    ReadLineOf(seen, before, ToDecimal(code) + [' '] + message, rest);
  }

  lemma {:induction false} ReadLines(seen: nat, code: nat, before: seq<string>, messages: seq<string>, rest: string)
    requires 100 <= code <= 999 && seen in {0, code}
    requires messages != [] && forall i :: 0 <= i < |messages| ==> NoCrlf(messages[i])
    ensures ReadLoop(seen, before, "", WireLines(code, messages) + rest) == (Ok(Response(code, before + messages)), rest)
    decreases |messages|
  {
    var tail := WireLines(code, messages[1..]);
    if |messages| > 1 {
      var line := ToDecimal(code) + ['-'] + messages[0] + CRLF;
      ReadMore(seen, code, before, messages[0], tail + rest);
      ReadLines(code, code, before + [messages[0]], messages[1..], rest);
      assert WireLines(code, messages) + rest == line + (tail + rest);
      assert before + [messages[0]] + messages[1..] == before + messages;
    } else {
      ReadLast(seen, code, before, messages[0], rest);
      assert messages == [messages[0]] && tail == "";
      assert WireLines(code, messages) == ToDecimal(code) + [' '] + messages[0] + CRLF;
    }
  }

  /** Reading a reply off the front of a stream undoes writing it and takes exactly its bytes. */
  lemma ReadWritten(r: Response, rest: string)
    requires Encodable(r)
    ensures ReadReply(ToWire(r) + rest) == (Ok(r), rest)
  {
    ReadLines(0, r.code, [], r.messages, rest);
    assert [] + r.messages == r.messages;
  }

  predicate AllEncodable(rs: seq<Response>) {
    forall i :: 0 <= i < |rs| ==> Encodable(rs[i])
  }

  function ToWires(rs: seq<Response>): string
    requires AllEncodable(rs)
  {
    if rs == [] then "" else ToWire(rs[0]) + ToWires(rs[1..])
  }

  /** Applying the reader `n` times. */
  function ReadReplies(n: nat, inbox: string): (seq<ReadResult>, string) {
    if n == 0 then ([], inbox)
    else
      var (first, rest) := ReadReply(inbox);
      var (others, left) := ReadReplies(n - 1, rest);
      ([first] + others, left)
  }

  function Read(rs: seq<Response>): seq<ReadResult> {
    seq(|rs|, i requires 0 <= i < |rs| => Ok(rs[i]))
  }

  /** The reply codec (sections 4.2 and 4.2.1 of RFC 5321): a run of replies is read back one by
      one, with the same codes and lines, and nothing after them is touched. */
  lemma {:induction false} RepliesRoundTrip(rs: seq<Response>, rest: string)
    requires AllEncodable(rs)
    ensures ReadReplies(|rs|, ToWires(rs) + rest) == (Read(rs), rest)
    decreases |rs|
  {
    if rs == [] {
      assert ToWires(rs) + rest == rest && Read(rs) == [];
    } else {
      var others := rs[1..];
      RepliesRoundTrip(others, rest);
      ReadOneMore(rs[0], ToWires(others) + rest, |others|);
      FirstOfAll(rs, rest);
    }
  }

  lemma {:induction false} FirstOfAll(rs: seq<Response>, rest: string)
    requires AllEncodable(rs) && rs != []
    ensures ToWires(rs) + rest == ToWire(rs[0]) + (ToWires(rs[1..]) + rest)
    ensures Read(rs) == [Ok(rs[0])] + Read(rs[1..])
  {
    assert ToWires(rs) == ToWire(rs[0]) + ToWires(rs[1..]);
  }

  lemma ReadOneMore(r: Response, tail: string, n: nat)
    requires Encodable(r)
    ensures var (others, left) := ReadReplies(n, tail);
            ReadReplies(n + 1, ToWire(r) + tail) == ([Ok(r)] + others, left)
  {
    ReadWritten(r, tail);
  }

  lemma {:induction false} ShortCode(code: nat, message: string)
    requires code < 100
    ensures var text := ToDecimal(code) + " " + message; TakeLine(0, [], text) != Stop(Ok(Single(code, message)))
  {
    var digits := ToDecimal(code);
    assert |digits| < 3 by {
      if code >= 10 { assert |ToDecimal(code / 10)| == 1; }
    }
    var text := digits + " " + message;
    assert |text| >= 3 ==> !AllDigits(text[..3]) by { assert text[|digits|] == ' '; }
  }

  lemma {:induction false} ThreeDigitsAtMost(s: string)
    requires |s| == 3 && AllDigits(s)
    ensures DigitsValue(s) <= 999
  {
    var one, two := s[..1], s[..2];
    assert one[..0] == "" && two[..1] == one && IsDigit(s[0]) && IsDigit(s[1]) && IsDigit(s[2]);
    assert DigitsValue(one) <= 9;
    assert DigitsValue(two) <= 99;
    assert s[..3 - 1] == s[..2];
  }

  lemma {:induction false} FourDigits(n: nat)
    requires n >= 1000
    ensures |ToDecimal(n)| >= 4
  {
    assert n / 10 >= 100 && n / 10 / 10 >= 10 && n / 10 / 10 / 10 >= 1;
    assert |ToDecimal(n / 10 / 10)| >= 2;
    assert |ToDecimal(n / 10)| >= 3;
  }

  lemma {:induction false} LongCode(code: nat, message: string)
    requires code >= 1000
    ensures var text := ToDecimal(code) + " " + message; TakeLine(0, [], text) != Stop(Ok(Single(code, message)))
    ensures var text := ToDecimal(code) + " " + message; TakeLine(0, [], text).Stop?
  {
    FourDigits(code);
    var digits := ToDecimal(code);
    var text := digits + " " + message;
    assert text[..3] == digits[..3] && text[3] == digits[3] && IsDigit(digits[3]) && IsDigit(digits[0]);
    ThreeDigitsAtMost(digits[..3]);
  }

  lemma {:induction false} CodeLineClean(code: nat, message: string)
    requires NoCrlf(message)
    ensures var text := ToDecimal(code) + " " + message;
            NoCrlf(text) && ToWire(Single(code, message)) == text + CRLF
  {
    var digits := ToDecimal(code);
    var text := digits + " " + message;
    forall i | 0 <= i < |text| - 1 ensures !(text[i] == '\r' && text[i + 1] == '\n') {
      if i < |digits| { assert IsDigit(digits[i]); } else if i > |digits| { assert text[i] == message[i - |digits| - 1]; }
    }
    assert WireLines(code, [message][1..]) == "";
  }

  /** A reply of one line comes back as it was if and only if its code has three digits. */
  lemma CodeSurvivesIff(code: nat, message: string)
    requires NoCrlf(message)
    ensures ReadReply(ToWire(Single(code, message))).0 == Ok(Single(code, message)) <==> 100 <= code <= 999
  {
    var text := ToDecimal(code) + " " + message;
    CodeLineClean(code, message);
    assert text + CRLF + "" == text + CRLF;
    ReadLineOf(0, [], text, "");
    if code < 100 {
      ShortCode(code, message);
    } else if code > 999 {
      LongCode(code, message);
    } else {
      ReadWritten(Single(code, message), "");
      assert ToWire(Single(code, message)) + "" == ToWire(Single(code, message));
    }
  }

  /** One complete line, on its own: whatever its code, a fourth byte that is no dash ends the reply. */
  lemma ReadLineAlone(code: nat, text: string, rest: string)
    requires NoCrlf(text) && |text| >= 3 && AllDigits(text[..3]) && DigitsValue(text[..3]) == code
    requires |text| == 3 || (text[3] != '-' && !IsTrailing(text[3]))
    ensures ReadReply(text + CRLF + rest)
         == (Ok(Response(code, [if |text| == 3 then "" else if text[3] == ' ' then text[4..] else text[3..]])), rest)
  {
    ThreeDigitsAtMost(text[..3]);
    assert IsDigit(text[..3][0]);
    ReadLineOf(0, [], text, rest);
    assert ParseUnsigned(text[..3], U16_MAX) == Some(code);
    assert |text| == 3 ==> text[3..] == "";
    assert [] + [text[3..]] == [text[3..]];
    assert |text| > 3 ==> [] + [text[4..]] == [text[4..]];
  }

  /** A bare code is a reply with one empty line. */
  lemma BareCode(rest: string)
    ensures ReadReply("250" + CRLF + rest) == (Ok(Response(250, [""])), rest)
  {
    var text := "250";
    assert text[..3] == text && text[..2] == "25" && "25"[..1] == "2" && "2"[..0] == "";
    assert DigitsValue("") == 0 && DigitsValue("2") == 2 && DigitsValue("25") == 25 && DigitsValue(text) == 250;
    ReadLineAlone(250, text, rest);
  }

  /** A line without a code is reported as it is, unless it is too short to be sliced or cannot be. */
  lemma NoCode(text: string, rest: string)
    requires NoCrlf(text) && !Unsliceable(text) && !AllDigits(text[..3]) && text[0] != '+'
    ensures ReadReply(text + CRLF + rest) == (Err(NotAReply(text)), rest)
  {
    ReadLineOf(0, [], text, rest);
    assert text[..3][0] == text[0];
  }

  // ---------------------------------------------------------------- when the reader panics

  /** The lines that end in CRLF. */
  function CrlfLines(s: string): seq<string>
    decreases |s|
  {
    match Find(s, CRLF)
    case None => []
    case Some(i) => [s[..i]] + CrlfLines(s[i + 2..])
  }

  predicate IsContinuation(line: string) {
    |line| >= 4 && line[3] == '-'
  }

  function CodeAt(line: string): Option<nat>
    requires |line| >= 3
  {
    ParseUnsigned(line[..3], U16_MAX)
  }

  /** Line `k` is the first that is no continuation, and it cannot be sliced after its third byte; and
      as long as no line before it has given a code other than zero, each gives one. */
  ghost predicate StopsShort(code: nat, lines: seq<string>, k: nat) {
    && k < |lines| && Unsliceable(lines[k])
    && (forall j :: 0 <= j < k ==> IsContinuation(lines[j]))
    && (forall j :: 0 <= j < k && code == 0 && AllZero(lines, j) ==> CodeAt(lines[j]).Some?)
  }

  lemma FindNoCrlf(s: string)
    ensures Find(s, CRLF).None? ==> NoCrlf(s)
    ensures Find(s, CRLF).Some? ==> var i := Find(s, CRLF).value;
                                    NoCrlf(s[..i]) && i + 2 <= |s| && s == s[..i] + CRLF + s[i + 2..]
  {
    var end := if Find(s, CRLF).Some? then Find(s, CRLF).value else |s|;
    forall j | 0 <= j < end - 1 ensures !(s[j] == '\r' && s[j + 1] == '\n') {
      assert !OccursAt(s, CRLF, j);
      assert j + 2 <= |s| && s[j..j + 2] == [s[j], s[j + 1]];
    }
  }

  lemma {:induction false} ReadUnended(code: nat, lines: seq<string>, buffer: string, inbox: string)
    requires NoCrlf(buffer + inbox)
    ensures ReadLoop(code, lines, buffer, inbox) == (Err(ConnectionClosed), "")
    decreases |inbox|
  {
    if inbox != "" {
      var all, b := buffer + inbox, buffer + [inbox[0]];
      assert b + inbox[1..] == all;
      assert |b| >= 2 ==> b[|b| - 2] == all[|b| - 2] && b[|b| - 1] == all[|b| - 1];
      ReadUnended(code, lines, b, inbox[1..]);
    }
  }

  /** Only the end of the stream ends the reading without a line. */
  lemma {:induction false} NeverTimedOut(code: nat, lines: seq<string>, buffer: string, inbox: string)
    ensures ReadLoop(code, lines, buffer, inbox).0 != Err(TimedOut)
    decreases |inbox|
  {
    if inbox != "" {
      var b := buffer + [inbox[0]];
      if !EndsInCrlf(b) {
        NeverTimedOut(code, lines, b, inbox[1..]);
      } else {
        match TakeLine(code, lines, b[..|b| - 2])
        case Stop(result) =>
        case More(code', lines') => NeverTimedOut(code', lines', "", inbox[1..]);
      }
    }
  }

  lemma {:induction false} ReadFirstLine(code: nat, lines: seq<string>, inbox: string)
    ensures ReadLoop(code, lines, "", inbox) ==
            match Find(inbox, CRLF)
            case None => (Err(ConnectionClosed), "")
            case Some(i) => Resume(TakeLine(code, lines, inbox[..i]), inbox[i + 2..])
  {
    FindNoCrlf(inbox);
    match Find(inbox, CRLF)
    case None =>
      assert "" + inbox == inbox;
      ReadUnended(code, lines, "", inbox);
    case Some(i) =>
      ReadLineOf(code, lines, inbox[..i], inbox[i + 2..]);
  }

  function CodeNext(code: nat, line: string): Option<nat>
    requires |line| >= 3
  {
    if code == 0 then CodeAt(line) else Some(code)
  }

  lemma StopsShortLater(code: nat, lines: seq<string>, k: nat)
    requires k > 0 && lines != []
    ensures StopsShort(code, lines, k) <==>
            IsContinuation(lines[0]) && CodeNext(code, lines[0]).Some?
            && StopsShort(CodeNext(code, lines[0]).value, lines[1..], k - 1)
  {
    var rest := lines[1..];
    forall j | 0 < j < |lines| ensures rest[j - 1] == lines[j] {}
    assert AllZero(lines, 0);
    if IsContinuation(lines[0]) && CodeNext(code, lines[0]).Some? {
      ChecksShift(code, lines, CodeNext(code, lines[0]).value);
    }
  }

  predicate AllZero(lines: seq<string>, j: nat)
    requires j <= |lines|
  {
    forall i :: 0 <= i < j ==> |lines[i]| >= 3 && CodeAt(lines[i]) == Some(0)
  }

  /** Whether a later line is checked is the same with and without the first. */
  lemma ChecksShift(code: nat, lines: seq<string>, next: nat)
    requires lines != [] && |lines[0]| >= 3 && CodeNext(code, lines[0]) == Some(next)
    ensures forall j :: 0 < j <= |lines| ==> (code == 0 && AllZero(lines, j) <==> next == 0 && AllZero(lines[1..], j - 1))
  {
    var rest := lines[1..];
    forall j | 0 < j <= |lines| ensures code == 0 && AllZero(lines, j) <==> next == 0 && AllZero(rest, j - 1) {
      forall i | 0 < i < j ensures lines[i] == rest[i - 1] {}
      if next == 0 && AllZero(rest, j - 1) {
        forall i | 0 <= i < j ensures |lines[i]| >= 3 && CodeAt(lines[i]) == Some(0) {
          if i > 0 { assert lines[i] == rest[i - 1]; }
        }
      }
      if code == 0 && AllZero(lines, j) {
        forall i | 0 <= i < j - 1 ensures |rest[i]| >= 3 && CodeAt(rest[i]) == Some(0) { assert rest[i] == lines[i + 1]; }
      }
    }
  }

  lemma TakenShort(code: nat, lines: seq<string>, line: string)
    ensures Unsliceable(line) ==> TakeLine(code, lines, line) == Stop(Err(SliceOutOfRange))
    ensures !Unsliceable(line) && (CodeNext(code, line).None? || !IsContinuation(line)) ==>
              TakeLine(code, lines, line).Stop? && TakeLine(code, lines, line) != Stop(Err(SliceOutOfRange))
    ensures IsContinuation(line) && CodeNext(code, line).Some? ==>
              TakeLine(code, lines, line) == More(CodeNext(code, line).value, lines + [line[4..]])
  {
  }

  ghost predicate SomeStopsShort(code: nat, lines: seq<string>) {
    exists k: nat :: StopsShort(code, lines, k)
  }

  lemma ShortNow(code: nat, lines: seq<string>)
    requires lines != [] && Unsliceable(lines[0])
    ensures SomeStopsShort(code, lines)
  {
    assert StopsShort(code, lines, 0);
  }

  /** Past a line that can be sliced, only a continuation that passes its check lets the reader on. */
  lemma ShortLater(code: nat, lines: seq<string>)
    requires lines != [] && !Unsliceable(lines[0])
    ensures SomeStopsShort(code, lines) <==>
            IsContinuation(lines[0]) && CodeNext(code, lines[0]).Some? && SomeStopsShort(CodeNext(code, lines[0]).value, lines[1..])
  {
    if k: nat :| StopsShort(code, lines, k) {
      StopsShortLater(code, lines, k);
      var before: nat := k - 1;
      assert StopsShort(CodeNext(code, lines[0]).value, lines[1..], before);
    }
    if IsContinuation(lines[0]) && CodeNext(code, lines[0]).Some? {
      var next := CodeNext(code, lines[0]).value;
      if k: nat :| StopsShort(next, lines[1..], k) {
        StopsShortLater(code, lines, k + 1);
        assert StopsShort(code, lines, k + 1);
      }
    }
  }

  lemma {:induction false} LoopPanicsIff(code: nat, lines: seq<string>, inbox: string)
    ensures ReadLoop(code, lines, "", inbox).0 == Err(SliceOutOfRange) <==> SomeStopsShort(code, CrlfLines(inbox))
    decreases |inbox|
  {
    ReadFirstLine(code, lines, inbox);
    if Find(inbox, CRLF).Some? {
      var i := Find(inbox, CRLF).value;
      var line, rest := inbox[..i], inbox[i + 2..];
      assert CrlfLines(inbox)[0] == line && CrlfLines(inbox)[1..] == CrlfLines(rest);
      TakenShort(code, lines, line);
      if Unsliceable(line) {
        ShortNow(code, CrlfLines(inbox));
      } else {
        ShortLater(code, CrlfLines(inbox));
        if IsContinuation(line) && CodeNext(code, line).Some? {
          LoopPanicsIff(CodeNext(code, line).value, lines + [line[4..]], rest);
        }
      }
    }
  }

  /** Reading a reply panics if and only if the first line that is no continuation is shorter than
      three bytes or has a character across its third and fourth, every line before it having
      passed the check of its code. */
  lemma {:induction false} ReadPanicsIff(inbox: string)
    ensures ReadReply(inbox).0 == Err(SliceOutOfRange) <==> exists k: nat :: StopsShort(0, CrlfLines(inbox), k)
  {
    LoopPanicsIff(0, [], inbox);
  }

  /** A line of two digits is enough, and so is a letter with an accent in the third place. */
  lemma ShortLinesPanic()
    ensures ReadReply("25\r\n") == (Err(SliceOutOfRange), "")
    ensures ReadReply("25\U{C3}\U{A9}\r\n") == (Err(SliceOutOfRange), "")
  {
    ReadLineOf(0, [], "25", "");
    assert "25" + CRLF + "" == "25\r\n";
    var accented := "25\U{C3}\U{A9}";
    ReadLineOf(0, [], accented, "");
    assert accented + CRLF + "" == "25\U{C3}\U{A9}\r\n";
  }
}
