/**
 Message text on the wire: the client's line endings and dot-stuffing against the server's
 collector (section 4.5.2 of RFC 5321).
 */
module DotStuffing {
  import opened Text
  import opened Utf8
  import opened Answer
  import opened Session
  import Client

  // ---------------------------------------------------------------- trimming line endings

  predicate AllEol(s: string) {
    forall i :: 0 <= i < |s| ==> s[i] == '\r' || s[i] == '\n'
  }

  predicate NoEolAtEnd(s: string) {
    s != "" ==> s[|s| - 1] != '\r' && s[|s| - 1] != '\n'
  }

  lemma {:induction false} TrimEolUnique(s: string, t: string)
    requires NoEolAtEnd(s) && AllEol(t)
    ensures TrimEol(s + t) == s
    decreases |t|
  {
    if t != "" {
      assert (s + t)[..|s + t| - 1] == s + t[..|t| - 1];
      TrimEolUnique(s, t[..|t| - 1]);
    } else {
      assert s + t == s;
    }
  }

  lemma TrimEolSplits(s: string) returns (t: string)
    ensures s == TrimEol(s) + t && AllEol(t) && NoEolAtEnd(TrimEol(s))
  {
    t := s[|TrimEol(s)|..];
  }

  lemma {:induction false} TrimEolAppend(s: string, after: string)
    requires AllEol(after)
    ensures TrimEol(s + after) == TrimEol(s)
  {
    var t := TrimEolSplits(s);
    assert s + after == TrimEol(s) + (t + after);
    TrimEolUnique(TrimEol(s), t + after);
  }

  lemma {:induction false} TrimEolPrepend(before: string, s: string)
    requires TrimEol(s) != ""
    ensures TrimEol(before + s) == before + TrimEol(s)
  {
    var t := TrimEolSplits(s);
    var kept := before + TrimEol(s);
    assert before + s == kept + t;
    assert kept[|kept| - 1] == TrimEol(s)[|TrimEol(s)| - 1];
    TrimEolUnique(kept, t);
  }

  // ---------------------------------------------------------------- one line

  /** What a body line becomes in the message the server collects. */
  function NormalLine(chunk: string): string {
    TrimEol(chunk) + CRLF
  }

  function NormalLines(chunks: seq<string>): string {
    if chunks == [] then "" else NormalLine(chunks[0]) + NormalLines(chunks[1..])
  }

  /** The body with CRLF line endings, and any stray carriage returns before them removed. */
  function Normal(body: string): string {
    NormalLines(Chunks(body))
  }

  lemma {:induction false} StripThenTrim(chunk: string)
    ensures TrimEol(StripEol(chunk)) == TrimEol(chunk)
  {
    var content := StripEol(chunk);
    assert content + chunk[|content|..] == chunk;
    TrimEolAppend(content, chunk[|content|..]);
  }

  lemma {:induction false} StuffedDot(content: string)
    requires content != "" && content[0] == '.'
    ensures var trimmed := TrimEol(Client.StuffLine(content));
            trimmed != "." && Unstuff(trimmed) == TrimEol(content)
  {
    DotStays(content);
    TrimEolAppend("." + content, CRLF);
    TrimEolPrepend(".", content);
    UnstuffDot(TrimEol(content));
  }

  lemma {:induction false} StuffedPlain(content: string)
    requires content == "" || content[0] != '.'
    ensures var trimmed := TrimEol(Client.StuffLine(content));
            trimmed != "." && Unstuff(trimmed) == TrimEol(content)
  {
    assert Client.StuffLine(content) == content + CRLF;
    TrimEolAppend(content, CRLF);
    FirstStays(content);
    NoLeadingDot(TrimEol(content));
  }

  lemma {:induction false} FirstStays(s: string)
    ensures TrimEol(s) != "" ==> s != "" && TrimEol(s)[0] == s[0]
  {
  }

  lemma NoLeadingDot(s: string)
    requires s == "" || s[0] != '.'
    ensures s != "." && Unstuff(s) == s
  {
  }

  /** A stuffed line never looks like the end of the message, and unstuffing restores it. */
  lemma {:induction false} StuffedLine(content: string)
    ensures var trimmed := TrimEol(Client.StuffLine(content));
            trimmed != "." && Unstuff(trimmed) == TrimEol(content)
  {
    if content != "" && content[0] == '.' { StuffedDot(content); } else { StuffedPlain(content); }
  }

  /** Of a text line that begins with two dots the first is dropped; a single dot stays. */
  lemma UnstuffIs(s: string)
    ensures Unstuff(".." + s) == "." + s
    ensures (|s| < 2 || s[0] != '.' || s[1] != '.') ==> Unstuff(s) == s
  {
    assert (".." + s)[1..] == "." + s;
    assert |s| >= 2 && ".." <= s ==> s[0] == '.' && s[1] == '.';
  }

  lemma UnstuffDot(s: string)
    requires s != "" && s[0] == '.'
    ensures "." + s != "." && Unstuff("." + s) == s
  {
    var t := "." + s;
    assert t[0] == '.' && t[1] == '.' && t[1..] == s;
  }

  lemma {:induction false} DotStays(s: string)
    requires s != "" && s[0] == '.'
    ensures TrimEol(s) != "" && TrimEol(s)[0] == '.'
  {
    if TrimEol(s) == "" { assert false; }
  }

  // ---------------------------------------------------------------- the whole text

  function StuffedLines(chunks: seq<string>): (lines: seq<string>)
    ensures |lines| == |chunks|
  {
    seq(|chunks|, i requires 0 <= i < |chunks| => Client.StuffLine(StripEol(chunks[i])))
  }

  const FINAL_DOT: string := "." + CRLF

  function BodyLines(body: string): seq<string> {
    StuffedLines(Chunks(body)) + [FINAL_DOT]
  }

  lemma StripEolOfChunk(chunk: string)
    requires IsLine(chunk) || '\n' !in chunk
    ensures '\n' !in StripEol(chunk)
  {
    if chunk != "" && chunk[|chunk| - 1] == '\n' {
      var t := chunk[..|chunk| - 1];
      assert '\n' !in t;
    }
  }

  lemma StuffLineIsLine(content: string)
    requires '\n' !in content
    ensures IsLine(Client.StuffLine(content))
  {
    var before := if content != "" && content[0] == '.' then "." else "";
    var line := Client.StuffLine(content);
    assert line[..|line| - 1] == before + content + "\r";
  }

  lemma {:induction false} FlattenStuffed(chunks: seq<string>)
    ensures Flatten(StuffedLines(chunks)) == Client.StuffLines(chunks)
  {
    if chunks != [] {
      assert StuffedLines(chunks)[1..] == StuffedLines(chunks[1..]);
      FlattenStuffed(chunks[1..]);
    }
  }

  lemma BodyLinesAreLines(body: string)
    ensures AllLines(BodyLines(body))
  {
    var chunks := Chunks(body);
    ChunksAreLines(body);
    forall i | 0 <= i < |BodyLines(body)| ensures IsLine(BodyLines(body)[i]) {
      if i < |chunks| {
        StripEolOfChunk(chunks[i]);
        StuffLineIsLine(StripEol(chunks[i]));
      }
    }
  }

  lemma BodyBytes(body: string)
    ensures Client.StuffBody(body) == Flatten(BodyLines(body))
  {
    var chunks := Chunks(body);
    FlattenStuffed(chunks);
    FlattenAppend(StuffedLines(chunks), [FINAL_DOT]);
    FlattenOne(FINAL_DOT);
    assert Client.StuffLines(chunks) + "." + CRLF == Client.StuffLines(chunks) + FINAL_DOT;
  }

  /** The bytes the client sends break into one line per body line and the final dot. */
  lemma BodyLinesOf(body: string)
    ensures Chunks(Client.StuffBody(body)) == BodyLines(body)
  {
    var lines := BodyLines(body);
    BodyLinesAreLines(body);
    BodyBytes(body);
    ChunksOfLines(lines, "");
    assert Flatten(lines) + "" == Flatten(lines);
    assert lines + [] == lines;
  }

  // ---------------------------------------------------------------- bodies that are text

  lemma {:induction false} ContentUtf8(content: string, ending: string)
    requires ending == "" || ending == "\n" || ending == CRLF
    ensures IsUtf8(content + ending) <==> IsUtf8(content)
  {
    if ending == "" {
      assert content + ending == content;
    } else {
      assert content + ending == content + [ending[0]] + ending[1..];
      Utf8AtAscii(content, ending[0], ending[1..]);
      AsciiIsUtf8(ending[1..]);
    }
  }

  lemma {:induction false} StuffedUtf8(content: string)
    ensures IsUtf8(Client.StuffLine(content)) <==> IsUtf8(content)
  {
    var before := if content != "" && content[0] == '.' then "." else "";
    AsciiIsUtf8(before);
    Utf8Concat(before, content + CRLF);
    ContentUtf8(content, CRLF);
    assert before + (content + CRLF) == Client.StuffLine(content);
  }

  /** A body line is text if and only if the line it is sent as is. */
  lemma {:induction false} LineUtf8(chunk: string)
    ensures IsUtf8(Client.StuffLine(StripEol(chunk))) <==> IsUtf8(chunk)
  {
    var content := StripEol(chunk);
    StuffedUtf8(content);
    ContentUtf8(content, chunk[|content|..]);
    assert content + chunk[|content|..] == chunk;
  }

  lemma {:induction false} AllUtf8Cons(first: string, rest: seq<string>)
    ensures AllUtf8([first] + rest) <==> IsUtf8(first) && AllUtf8(rest)
  {
    var all := [first] + rest;
    assert all[0] == first;
    forall i | 0 <= i < |rest| ensures all[i + 1] == rest[i] {}
  }

  lemma {:induction false} ChunksUtf8(s: string)
    ensures AllUtf8(Chunks(s)) <==> IsUtf8(s)
    decreases |s|
  {
    if s != "" {
      var n := LineLength(s);
      var first, rest := s[..n], s[n..];
      ChunksUtf8(rest);
      AllUtf8Cons(first, Chunks(rest));
      assert s == first + rest;
      FirstUtf8(s, first, rest);
    }
  }

  lemma {:induction false} FirstUtf8(s: string, first: string, rest: string)
    requires s != "" && first == s[..LineLength(s)] && rest == s[LineLength(s)..]
    ensures IsUtf8(s) <==> IsUtf8(first) && IsUtf8(rest)
  {
    FirstChunk(s);
    assert s == first + rest;
    if IsLine(first) {
      var content := first[..|first| - 1];
      assert s == content + ['\n'] + rest;
      assert first == content + "\n";
      Utf8AtAscii(content, '\n', rest);
      ContentUtf8(content, "\n");
    } else {
      assert first == s && rest == "";
    }
  }

  lemma {:induction false} SameReadable(a: seq<string>, b: seq<string>)
    requires |a| == |b| && forall i :: 0 <= i < |a| ==> (IsUtf8(a[i]) <==> IsUtf8(b[i]))
    ensures AllUtf8(a) <==> AllUtf8(b)
    ensures |Readable(a)| == |Readable(b)|
  {
    if a != [] { SameReadable(a[1..], b[1..]); }
  }

  lemma {:induction false} StuffedLinesUtf8(chunks: seq<string>)
    ensures AllUtf8(StuffedLines(chunks)) <==> AllUtf8(chunks)
    ensures Readable(StuffedLines(chunks)) == StuffedLines(Readable(chunks))
  {
    var lines := StuffedLines(chunks);
    forall i | 0 <= i < |chunks| ensures IsUtf8(lines[i]) <==> IsUtf8(chunks[i]) { LineUtf8(chunks[i]); }
    SameReadable(lines, chunks);
    StuffedTake(chunks, |Readable(chunks)|);
  }

  lemma StuffedTake(chunks: seq<string>, n: nat)
    requires n <= |chunks|
    ensures StuffedLines(chunks)[..n] == StuffedLines(chunks[..n])
  {
  }

  lemma {:induction false} ReadableBefore(lines: seq<string>, more: seq<string>)
    ensures AllUtf8(lines + more) <==> AllUtf8(lines) && AllUtf8(more)
    ensures !AllUtf8(lines) ==> Readable(lines + more) == Readable(lines)
  {
    if lines == [] {
      assert lines + more == more;
    } else {
      var all := lines + more;
      assert all == [lines[0]] + (lines[1..] + more) && lines == [lines[0]] + lines[1..] && all[1..] == lines[1..] + more;
      ReadableBefore(lines[1..], more);
      AllUtf8Cons(lines[0], lines[1..] + more);
      AllUtf8Cons(lines[0], lines[1..]);
    }
  }

  lemma FinalDotUtf8()
    ensures AllUtf8([FINAL_DOT])
  {
    assert FINAL_DOT == ".\r\n";
    AsciiIsUtf8(FINAL_DOT);
  }

  /** The lines sent are text if and only if the body is; otherwise they are text exactly as far as the
      body's own lines are. */
  lemma {:induction false} BodyUtf8(body: string)
    ensures AllUtf8(BodyLines(body)) <==> IsUtf8(body)
    ensures !IsUtf8(body) ==> Readable(BodyLines(body)) == StuffedLines(Readable(Chunks(body)))
  {
    ChunksUtf8(body);
    StuffedLinesUtf8(Chunks(body));
    FinalDotUtf8();
    ReadableBefore(StuffedLines(Chunks(body)), [FINAL_DOT]);
  }

  /** What is collected of a body before its first line that is not text. */
  function LegiblePart(body: string): string {
    NormalLines(Readable(Chunks(body)))
  }

  lemma {:induction false} AllReadable(lines: seq<string>)
    requires AllUtf8(lines)
    ensures Readable(lines) == lines
  {
    ReadableIs(lines, []);
    assert lines + [] == lines;
  }

  /** Of text, that is all. */
  lemma {:induction false} LegibleText(body: string)
    requires IsUtf8(body)
    ensures LegiblePart(body) == Normal(body)
  {
    ChunksUtf8(body);
    AllReadable(Chunks(body));
  }

  // ---------------------------------------------------------------- feeding it to the collector

  /** Feeding lines until one is not answered `Continue`: the session then, how many lines went
      in, and that line's result. */
  function FeedUntil(cfg: Config, s: Session, lines: seq<string>): (Session, nat, DataResult)
    decreases |lines|
  {
    if lines == [] then (s, 0, Continue)
    else
      var (s', result) := FeedDataLine(cfg, s, lines[0]);
      if result != Continue then (s', 1, result)
      else
        var (s'', n, r) := FeedUntil(cfg, s', lines[1..]);
        (s'', n + 1, r)
  }

  function Overflowed(s: Session): Session {
    s.(buffer := "", state := Ready, envelope := s.envelope.Reset())
  }

  predicate Fits(cfg: Config, s: Session, chunks: seq<string>) {
    |s.buffer + NormalLines(chunks)| <= cfg.maxMessageSize
  }

  lemma FeedStuffedLine(cfg: Config, s: Session, chunk: string)
    ensures FeedDataLine(cfg, s, Client.StuffLine(StripEol(chunk))) ==
            var buffer := s.buffer + NormalLine(chunk);
            if |buffer| > cfg.maxMessageSize then (Overflowed(s), Overflow(TooLarge))
            else (s.(buffer := buffer), Continue)
  {
    StuffedLine(StripEol(chunk));
    StripThenTrim(chunk);
    assert s.buffer + TrimEol(chunk) + CRLF == s.buffer + NormalLine(chunk);
  }

  lemma FeedFinalDot(cfg: Config, s: Session)
    ensures FeedDataLine(cfg, s, FINAL_DOT) == (s.(state := Ready), Done(Queued(s.envelope.id)))
  {
    TrimEolUnique(".", CRLF);
  }

  /** What feeding the lines of `chunks` and the final dot should come to. */
  predicate FeedsTo(cfg: Config, s: Session, chunks: seq<string>, fed: (Session, nat, DataResult)) {
    if Fits(cfg, s, chunks)
    then fed == (s.(buffer := s.buffer + NormalLines(chunks), state := Ready), |chunks| + 1, Done(Queued(s.envelope.id)))
    else fed.0 == Overflowed(s) && fed.1 <= |chunks| && fed.2 == Overflow(TooLarge)
  }

  lemma FeedsToNext(cfg: Config, s: Session, chunks: seq<string>, fed: (Session, nat, DataResult))
    requires chunks != []
    requires var buffer := s.buffer + NormalLine(chunks[0]);
             |buffer| <= cfg.maxMessageSize && FeedsTo(cfg, s.(buffer := buffer), chunks[1..], fed)
    ensures FeedsTo(cfg, s, chunks, (fed.0, fed.1 + 1, fed.2))
  {
    Grouped(s.buffer, NormalLine(chunks[0]), NormalLines(chunks[1..]));
  }

  lemma Grouped(a: string, b: string, c: string)
    ensures a + b + c == a + (b + c)
  {
  }

  lemma StuffedTail(chunks: seq<string>)
    requires chunks != []
    ensures var lines := StuffedLines(chunks) + [FINAL_DOT];
            lines[0] == Client.StuffLine(StripEol(chunks[0])) && lines[1..] == StuffedLines(chunks[1..]) + [FINAL_DOT]
  {
  }

  lemma {:induction false} FeedNone(cfg: Config, s: Session)
    requires |s.buffer| <= cfg.maxMessageSize
    ensures FeedsTo(cfg, s, [], FeedUntil(cfg, s, StuffedLines([]) + [FINAL_DOT]))
  {
    assert StuffedLines([]) + [FINAL_DOT] == [FINAL_DOT];
    FeedFinalDot(cfg, s);
    assert s.buffer + NormalLines([]) == s.buffer;
  }

  lemma {:induction false} FeedFrom(cfg: Config, s: Session, chunks: seq<string>)
    requires |s.buffer| <= cfg.maxMessageSize
    ensures FeedsTo(cfg, s, chunks, FeedUntil(cfg, s, StuffedLines(chunks) + [FINAL_DOT]))
    decreases |chunks|
  {
    if chunks == [] {
      FeedNone(cfg, s);
    } else {
      StuffedTail(chunks);
      FeedStuffedLine(cfg, s, chunks[0]);
      var buffer := s.buffer + NormalLine(chunks[0]);
      if |buffer| <= cfg.maxMessageSize {
        FeedFrom(cfg, s.(buffer := buffer), chunks[1..]);
        FeedsToNext(cfg, s, chunks, FeedUntil(cfg, s.(buffer := buffer), StuffedLines(chunks[1..]) + [FINAL_DOT]));
      }
    }
  }

  /** Lines that fit are all collected. */
  lemma {:induction false} FeedSome(cfg: Config, s: Session, chunks: seq<string>)
    requires Fits(cfg, s, chunks)
    ensures FeedUntil(cfg, s, StuffedLines(chunks)) == (s.(buffer := s.buffer + NormalLines(chunks)), |chunks|, Continue)
    decreases |chunks|
  {
    if chunks == [] {
      assert s.buffer + "" == s.buffer;
    } else {
      var lines := StuffedLines(chunks);
      assert lines[0] == Client.StuffLine(StripEol(chunks[0])) && lines[1..] == StuffedLines(chunks[1..]);
      FeedStuffedLine(cfg, s, chunks[0]);
      Grouped(s.buffer, NormalLine(chunks[0]), NormalLines(chunks[1..]));
      FeedSome(cfg, s.(buffer := s.buffer + NormalLine(chunks[0])), chunks[1..]);
    }
  }

  /** The round trip, for every body and every limit.  When the normalised text fits, every line
      but the last is answered `Continue`, exactly the last ends the message, and the buffer is the
      text; when it does not fit, the message is refused before its end. */
  lemma {:induction false} DotStuffingRoundTrip(cfg: Config, s: Session, body: string)
    requires s.buffer == ""
    ensures var (s', n, r) := FeedUntil(cfg, s, Chunks(Client.StuffBody(body)));
            if |Normal(body)| <= cfg.maxMessageSize
            then n == |Chunks(Client.StuffBody(body))| && r == Done(Queued(s.envelope.id))
                 && s' == s.(buffer := Normal(body), state := Ready)
            else n < |Chunks(Client.StuffBody(body))| && r == Overflow(TooLarge) && s' == Overflowed(s)
  {
    BodyLinesOf(body);
    FeedFrom(cfg, s, Chunks(body));
    assert "" + NormalLines(Chunks(body)) == Normal(body);
  }

  // ---------------------------------------------------------------- when nothing is changed

  /** Every line ends in CRLF and has no other carriage return before it. */
  predicate IsNormal(body: string) {
    forall i {:trigger Chunks(body)[i]} :: 0 <= i < |Chunks(body)| ==> NormalLine(Chunks(body)[i]) == Chunks(body)[i]
  }

  lemma {:induction false} NormalLinesFixed(chunks: seq<string>)
    ensures (forall i :: 0 <= i < |chunks| ==> NormalLine(chunks[i]) == chunks[i]) ==> NormalLines(chunks) == Flatten(chunks)
  {
    if chunks != [] { NormalLinesFixed(chunks[1..]); }
  }

  /** A body already in CRLF form arrives byte for byte; in general what arrives is in CRLF form
      and sending it on changes nothing more. */
  lemma NormalForm(body: string)
    ensures IsNormal(body) <==> Normal(body) == body
    ensures IsNormal(Normal(body)) && Normal(Normal(body)) == Normal(body)
    ensures Normal(body) == "" <==> body == ""
  {
    NormalLinesFixed(Chunks(body));
    ChunksFlatten(body);
    var lines := seq(|Chunks(body)|, i requires 0 <= i < |Chunks(body)| => NormalLine(Chunks(body)[i]));
    NormalLinesAre(Chunks(body), lines);
    forall i | 0 <= i < |lines| ensures IsLine(lines[i]) && NormalLine(lines[i]) == lines[i] {
      NormalLineIsLine(body, i);
    }
    ChunksOfLines(lines, "");
    assert Flatten(lines) + "" == Flatten(lines) && lines + [] == lines;
    NormalLinesFixed(lines);
  }

  lemma {:induction false} NormalLinesAre(chunks: seq<string>, lines: seq<string>)
    requires |lines| == |chunks| && forall i :: 0 <= i < |chunks| ==> lines[i] == NormalLine(chunks[i])
    ensures NormalLines(chunks) == Flatten(lines)
  {
    if chunks != [] { NormalLinesAre(chunks[1..], lines[1..]); }
  }

  lemma {:induction false} NormalLineIsLine(body: string, i: nat)
    requires i < |Chunks(body)|
    ensures var line := NormalLine(Chunks(body)[i]); IsLine(line) && NormalLine(line) == line
  {
    ChunksAreLines(body);
    TrimmedHasNoLf(Chunks(body)[i]);
    var content := TrimEol(Chunks(body)[i]);
    var line := content + CRLF;
    assert line[..|line| - 1] == content + "\r";
    TrimEolUnique(content, CRLF);
  }

  lemma {:induction false} TrimmedHasNoLf(chunk: string)
    requires IsLine(chunk) || '\n' !in chunk
    ensures '\n' !in TrimEol(chunk)
  {
    if IsLine(chunk) {
      assert TrimEol(chunk) <= chunk[..|chunk| - 1];
    }
  }

  function BlankLines(k: nat): string {
    if k == 0 then "" else "\n" + BlankLines(k - 1)
  }

  /** A body of bare line feeds doubles on its way, so a size that was accepted when declared can
      still be refused when it arrives. */
  lemma {:induction false} BlankLinesDouble(k: nat)
    ensures |BlankLines(k)| == k && |Normal(BlankLines(k))| == 2 * k
  {
    if k > 0 {
      var rest := BlankLines(k - 1);
      BlankLinesDouble(k - 1);
      ChunksCons("\n", rest);
      assert Chunks(BlankLines(k))[1..] == Chunks(rest);
      assert TrimEol("\n") == "" by { assert "\n"[..0] == ""; }
    }
  }
}
