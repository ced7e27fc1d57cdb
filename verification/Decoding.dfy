/**
 Bytes into text: what the client makes of a peer that does not write UTF-8.

 The reply reader gathers the bytes of a line and only then decodes it, putting a replacement
 character for whatever is not UTF-8.  The other modules let it read text that has been decoded
 beforehand; `DecodedFirst` says that this is the same.
 */
module Decoding {
  import opened Text
  import opened Utf8
  import opened Reply

  // ---------------------------------------------------------------- lines

  lemma {:induction false} LossyFirst(s: string)
    requires s != ""
    ensures Lossy(s) != "" && (IsAscii(s[0]) <==> IsAscii(Lossy(s)[0])) && (IsAscii(s[0]) ==> Lossy(s)[0] == s[0])
  {
  }

  /** Decoding makes no line endings. */
  lemma {:induction false} LossyNoCrlf(s: string)
    requires NoCrlf(s)
    ensures NoCrlf(Lossy(s))
    decreases |s|
  {
    if s != "" {
      var n := Taken(s);
      var first, rest := FirstDecoded(s), s[n..];
      forall i | 0 <= i < |rest| - 1 ensures !(rest[i] == '\r' && rest[i + 1] == '\n') { assert rest[i] == s[n + i]; }
      LossyNoCrlf(rest);
      if rest != "" { LossyFirst(rest); }
      var t := first + Lossy(rest);
      forall i | 0 <= i < |t| - 1 ensures !(t[i] == '\r' && t[i + 1] == '\n') {
        if i >= |first| {
          assert t[i] == Lossy(rest)[i - |first|];
        } else if i == |first| - 1 && rest != "" {
          assert n == 1 ==> s[0] == s[n - 1] && s[1] == rest[0];
        }
      }
    }
  }

  lemma {:induction false} LossyAtCrlf(line: string, rest: string)
    ensures Lossy(line + CRLF + rest) == Lossy(line) + CRLF + Lossy(rest)
  {
    CrlfSplits(line, rest);
    LossyAtAscii(line, '\r', ['\n'] + rest);
    LossyStep(['\n'], rest);
    CrlfSplits(Lossy(line), Lossy(rest));
  }

  lemma CrlfSplits(line: string, rest: string)
    ensures line + ['\r'] + (['\n'] + rest) == line + CRLF + rest
  {
  }

  lemma FindFirstCrlf(line: string, rest: string)
    requires NoCrlf(line)
    ensures Find(line + CRLF + rest, CRLF) == Some(|line|)
  {
    var s := line + CRLF + rest;
    forall j | 0 <= j < |line| ensures !OccursAt(s, CRLF, j) {
      assert s[j..j + 2] == [s[j], s[j + 1]];
    }
    assert s[|line|..|line| + 2] == CRLF;
    FindAt(s, CRLF, |line|);
  }

  lemma NoCrlfNotFound(s: string)
    requires NoCrlf(s)
    ensures Find(s, CRLF).None?
  {
    forall j | 0 <= j && j + 2 <= |s| ensures !OccursAt(s, CRLF, j) { assert s[j..j + 2] == [s[j], s[j + 1]]; }
  }

  /** The decoded bytes break into lines where the bytes do. */
  lemma {:induction false} FirstLineDecoded(bytes: string)
    ensures match Find(bytes, CRLF)
            case None => Find(Lossy(bytes), CRLF).None?
            case Some(i) => var decoded := Lossy(bytes[..i]);
                            && NoCrlf(bytes[..i]) && Find(Lossy(bytes), CRLF) == Some(|decoded|)
                            && Lossy(bytes)[..|decoded|] == decoded && Lossy(bytes)[|decoded| + 2..] == Lossy(bytes[i + 2..])
  {
    FindNoCrlf(bytes);
    match Find(bytes, CRLF)
    case None =>
      LossyNoCrlf(bytes);
      NoCrlfNotFound(Lossy(bytes));
    case Some(i) =>
      var line, rest := bytes[..i], bytes[i + 2..];
      LossyNoCrlf(line);
      LossyAtCrlf(line, rest);
      FindFirstCrlf(Lossy(line), Lossy(rest));
  }

  // ---------------------------------------------------------------- the reader of bytes

  /** The reading loop over bytes: each line is decoded when it is complete. */
  function ReadBytes(code: nat, lines: seq<string>, buffer: string, bytes: string): (ReadResult, string)
    decreases |bytes|
  {
    if bytes == "" then (Err(ConnectionClosed), "")
    else
      var b := buffer + [bytes[0]];
      if !EndsInCrlf(b) then ReadBytes(code, lines, b, bytes[1..])
      else
        match TakeLine(code, lines, Lossy(b[..|b| - 2]))
        case Stop(result) => (result, bytes[1..])
        case More(code', lines') => ReadBytes(code', lines', "", bytes[1..])
  }

  lemma {:induction false} ReadBytesToCrlf(code: nat, lines: seq<string>, buffer: string, line: string, rest: string)
    requires NoCrlf(buffer + line)
    ensures ReadBytes(code, lines, buffer, line + CRLF + rest) ==
            match TakeLine(code, lines, Lossy(buffer + line))
            case Stop(result) => (result, rest)
            case More(code', lines') => ReadBytes(code', lines', "", rest)
    decreases |line|
  {
    var bytes := line + CRLF + rest;
    var b := buffer + [bytes[0]];
    if line == "" {
      assert buffer + line == buffer;
      assert bytes[0] == '\r' && bytes[1..] == "\n" + rest;
      var b' := b + ['\n'];
      assert b'[..|b'| - 2] == buffer;
      assert bytes[1..][1..] == rest;
    } else {
      assert buffer + line == b + line[1..];
      assert bytes[1..] == line[1..] + CRLF + rest;
      if |b| >= 2 {
        assert b[|b| - 2] == (buffer + line)[|b| - 2] && b[|b| - 1] == (buffer + line)[|b| - 1];
      }
      ReadBytesToCrlf(code, lines, b, line[1..], rest);
    }
  }

  lemma {:induction false} ReadBytesUnended(code: nat, lines: seq<string>, buffer: string, bytes: string)
    requires NoCrlf(buffer + bytes)
    ensures ReadBytes(code, lines, buffer, bytes) == (Err(ConnectionClosed), "")
    decreases |bytes|
  {
    if bytes != "" {
      var all, b := buffer + bytes, buffer + [bytes[0]];
      assert b + bytes[1..] == all;
      assert |b| >= 2 ==> b[|b| - 2] == all[|b| - 2] && b[|b| - 1] == all[|b| - 1];
      ReadBytesUnended(code, lines, b, bytes[1..]);
    }
  }

  /** Decoding line by line while reading is reading what has been decoded: the same reply or error, and
      the same left for later. */
  lemma {:induction false} DecodedFirst(code: nat, lines: seq<string>, bytes: string)
    ensures var (r, rest) := ReadBytes(code, lines, "", bytes);
            ReadLoop(code, lines, "", Lossy(bytes)) == (r, Lossy(rest))
    decreases |bytes|
  {
    FirstLineDecoded(bytes);
    ReadFirstLine(code, lines, Lossy(bytes));
    match Find(bytes, CRLF)
    case None =>
      FindNoCrlf(bytes);
      assert "" + bytes == bytes;
      ReadBytesUnended(code, lines, "", bytes);
    case Some(i) =>
      var line, rest := bytes[..i], bytes[i + 2..];
      FindNoCrlf(bytes);
      assert "" + line == line;
      ReadBytesToCrlf(code, lines, "", line, rest);
      match TakeLine(code, lines, Lossy(line)) {
        case Stop(result) =>
        case More(code', lines') => DecodedFirst(code', lines', rest);
      }
  }

  function AllDecoded(lines: seq<string>): (r: seq<string>)
    ensures |r| == |lines|
  {
    seq(|lines|, i requires 0 <= i < |lines| => Lossy(lines[i]))
  }

  lemma {:induction false} DecodedCons(line: string, lines: seq<string>)
    ensures AllDecoded([line] + lines) == [Lossy(line)] + AllDecoded(lines)
  {
  }

  lemma {:induction false} LinesDecoded(bytes: string)
    ensures CrlfLines(Lossy(bytes)) == AllDecoded(CrlfLines(bytes))
    decreases |bytes|
  {
    FirstLineDecoded(bytes);
    match Find(bytes, CRLF)
    case None =>
    case Some(i) =>
      LinesDecoded(bytes[i + 2..]);
      DecodedCons(bytes[..i], CrlfLines(bytes[i + 2..]));
  }

  /** Whatever bytes a peer sends: the reader panics if and only if the first decoded line that is no
      continuation is shorter than three bytes or has a character across its third and fourth,
      every line before it having passed the check of its code. */
  lemma {:induction false} BytesPanicIff(bytes: string)
    ensures ReadBytes(0, [], "", bytes).0 == Err(SliceOutOfRange)
            <==> exists k: nat :: StopsShort(0, AllDecoded(CrlfLines(bytes)), k)
  {
    DecodedFirst(0, [], bytes);
    ReadPanicsIff(Lossy(bytes));
    LinesDecoded(bytes);
  }

  /** Two digits and a byte that is not UTF-8: the replacement character takes the third place and
      reaches beyond it. */
  lemma StrayBytePanics()
    ensures ReadBytes(0, [], "", "25\U{FF}\r\n").0 == Err(SliceOutOfRange)
  {
    var line := "25\U{FF}";
    assert "" + line == line && line + CRLF + "" == "25\U{FF}\r\n";
    ReadBytesToCrlf(0, [], "", line, "");
    StrayByteDecoded();
  }

  lemma StrayByteDecoded()
    ensures var line := Lossy("25\U{FF}"); |line| == 5 && IsTrailing(line[3])
  {
    LossyStep("2", "5\U{FF}");
    LossyStep("5", "\U{FF}");
    assert Lossy("") == "";
  }
}
