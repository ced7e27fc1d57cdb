/** DKIM text transforms: canonical bodies and headers, the header hash input, and signature folding. */
module Dkim {
  import opened Text
  import opened Message

  datatype Canonicalization = Simple | Relaxed

  // ---------------------------------------------------------------- canonical bodies

  predicate IsBlank(line: string) {
    TrimEnd(line) == ""
  }

  /** The lines up to the last that is not blank. */
  function DropBlank(lines: seq<string>): (r: seq<string>)
    ensures r <= lines && (r != [] ==> !IsBlank(r[|r| - 1]))
    ensures forall i :: |r| <= i < |lines| ==> IsBlank(lines[i])
  {
    if lines != [] && IsBlank(lines[|lines| - 1]) then DropBlank(lines[..|lines| - 1]) else lines
  }

  function TrimEnds(lines: seq<string>): (r: seq<string>)
    ensures |r| == |lines|
    ensures forall i :: 0 <= i < |r| ==> r[i] == TrimEnd(lines[i])
  {
    seq(|lines|, i requires 0 <= i < |lines| => TrimEnd(lines[i]))
  }

  function WithCrlf(lines: seq<string>): (r: seq<string>)
    ensures |r| == |lines|
    ensures forall i :: 0 <= i < |r| ==> r[i] == lines[i] + CRLF
  {
    seq(|lines|, i requires 0 <= i < |lines| => lines[i] + CRLF)
  }

  /** The lines of a body that count: without white space at their ends, and without blank ones at
      the end. */
  function Essence(body: string): seq<string> {
    DropBlank(TrimEnds(Lines(body)))
  }

  function Written(lines: seq<string>): string {
    if lines == [] then CRLF else Flatten(WithCrlf(lines))
  }

  function CanonicalBody(body: string, canon: Canonicalization): string {
    match canon
    case Simple => if EndsInCrlf(body) then body else body + CRLF
    case Relaxed => Written(Essence(body))
  }

  lemma TrimEndTwice(s: string)
    ensures TrimEnd(TrimEnd(s)) == TrimEnd(s)
  {
    var t := TrimEnd(s);
    if t != "" { assert !IsSpace(t[|t| - 1]); }
    assert t[|t|..] == "";
    EndFromUnique(t, |t|);
  }

  lemma TrimEndsFront(lines: seq<string>)
    requires lines != []
    ensures TrimEnds(lines)[..|lines| - 1] == TrimEnds(lines[..|lines| - 1])
    ensures IsBlank(TrimEnds(lines)[|lines| - 1]) <==> IsBlank(lines[|lines| - 1])
  {
    TrimEndTwice(lines[|lines| - 1]);
  }

  lemma {:induction false} DropThenTrim(lines: seq<string>)
    ensures TrimEnds(DropBlank(lines)) == DropBlank(TrimEnds(lines))
    decreases |lines|
  {
    if lines != [] {
      TrimEndsFront(lines);
      if IsBlank(lines[|lines| - 1]) { DropThenTrim(lines[..|lines| - 1]); }
    }
  }

  lemma TrimEndsSnoc(lines: seq<string>, line: string)
    ensures TrimEnds(lines + [line]) == TrimEnds(lines) + [TrimEnd(line)]
    ensures WithCrlf(lines + [line]) == WithCrlf(lines) + [line + CRLF]
  {
  }

  method CanonicalizeBody(body: string, canon: Canonicalization) returns (r: string)
    ensures r == CanonicalBody(body, canon)
  {
    if canon.Simple? {
      if body == "" {
        return CRLF;
      }
      r := body;
      if !EndsInCrlf(r) {
        r := r + CRLF;
      }
      return;
    }
    if body == "" {
      return CRLF;
    }
    var lines := Lines(body);
    while lines != [] && IsBlank(lines[|lines| - 1])
      invariant DropBlank(lines) == DropBlank(Lines(body))
      decreases |lines|
    {
      lines := lines[..|lines| - 1];
    }
    assert lines == DropBlank(Lines(body));
    DropThenTrim(Lines(body));
    if lines == [] {
      return CRLF;
    }
    r := WriteLines(lines);
  }

  method WriteLines(lines: seq<string>) returns (r: string)
    ensures r == Flatten(WithCrlf(TrimEnds(lines)))
  {
    r := "";
    var i := 0;
    while i < |lines|
      invariant 0 <= i <= |lines|
      invariant r == Flatten(WithCrlf(TrimEnds(lines[..i])))
    {
      assert lines[..i + 1] == lines[..i] + [lines[i]];
      TrimEndsSnoc(lines[..i], lines[i]);
      TrimEndsSnoc(TrimEnds(lines[..i]), TrimEnd(lines[i]));
      FlattenAppend(WithCrlf(TrimEnds(lines[..i])), [TrimEnd(lines[i]) + CRLF]);
      FlattenOne(TrimEnd(lines[i]) + CRLF);
      r := r + (TrimEnd(lines[i]) + CRLF);
      i := i + 1;
    }
    assert lines[..i] == lines;
  }

  // ---------------------------------------------------------------- what canonical bodies forget

  /** Lines as `Essence` yields them. */
  predicate Essential(lines: seq<string>) {
    && (forall i :: 0 <= i < |lines| ==> LfFree(lines[i]) && TrimEnd(lines[i]) == lines[i])
    && DropBlank(lines) == lines
  }

  lemma TrimEndLfFree(s: string)
    requires LfFree(s)
    ensures LfFree(TrimEnd(s))
  {
  }

  lemma {:induction false} DropBlankTwice(lines: seq<string>)
    ensures DropBlank(DropBlank(lines)) == DropBlank(lines)
    decreases |lines|
  {
    if lines != [] && IsBlank(lines[|lines| - 1]) { DropBlankTwice(lines[..|lines| - 1]); }
  }

  lemma EssenceIsEssential(body: string)
    ensures Essential(Essence(body))
  {
    var lines := Lines(body);
    var trimmed := TrimEnds(lines);
    LinesLfFree(body);
    DropBlankTwice(trimmed);
    forall i | 0 <= i < |Essence(body)| ensures LfFree(Essence(body)[i]) && TrimEnd(Essence(body)[i]) == Essence(body)[i] {
      assert Essence(body)[i] == trimmed[i];
      TrimEndLfFree(lines[i]);
      TrimEndTwice(lines[i]);
    }
  }

  lemma CrlfStrips(line: string)
    requires LfFree(line)
    ensures IsLine(line + CRLF) && StripEol(line + CRLF) == line
  {
    var s := line + CRLF;
    assert s[..|s| - 1] == line + "\r" && s[..|s| - 1][..|s| - 2] == line;
  }

  lemma CrlfLines(lines: seq<string>)
    requires forall i :: 0 <= i < |lines| ==> LfFree(lines[i])
    ensures Lines(Flatten(WithCrlf(lines))) == lines
  {
    forall i | 0 <= i < |lines| ensures IsLine(WithCrlf(lines)[i]) && StripEol(WithCrlf(lines)[i]) == lines[i] {
      CrlfStrips(lines[i]);
    }
    ChunksOfLines(WithCrlf(lines), "");
    assert Flatten(WithCrlf(lines)) + "" == Flatten(WithCrlf(lines)) && WithCrlf(lines) + [] == WithCrlf(lines);
  }

  lemma BlankEssence()
    ensures Essence(CRLF) == []
  {
    CrlfLines([""]);
    assert "" + CRLF == CRLF;
    assert WithCrlf([""]) == [CRLF];
    FlattenOne(CRLF);
    assert TrimEnds([""]) == [""] && [""][..0] == [];
  }

  /** Writing the essential lines and taking the essence again changes nothing. */
  lemma EssenceOfWritten(lines: seq<string>)
    requires Essential(lines)
    ensures Essence(Written(lines)) == lines
  {
    if lines == [] {
      BlankEssence();
    } else {
      CrlfLines(lines);
      assert TrimEnds(lines) == lines;
    }
  }

  /** Canonicalizing twice is canonicalizing once. */
  lemma CanonicalBodyIdempotent(body: string, canon: Canonicalization)
    ensures CanonicalBody(CanonicalBody(body, canon), canon) == CanonicalBody(body, canon)
  {
    match canon
    case Simple =>
      assert (body + CRLF)[|body + CRLF| - 2..] == CRLF;
    case Relaxed =>
      EssenceIsEssential(body);
      EssenceOfWritten(Essence(body));
  }

  /** Two bodies have the same relaxed form exactly when their essential lines are the same. */
  lemma RelaxedSameIff(a: string, b: string)
    ensures CanonicalBody(a, Relaxed) == CanonicalBody(b, Relaxed) <==> Essence(a) == Essence(b)
  {
    EssenceIsEssential(a);
    EssenceIsEssential(b);
    EssenceOfWritten(Essence(a));
    EssenceOfWritten(Essence(b));
  }

  // ---------------------------------------------------------------- line endings and white space

  /** White space and a line feed, however written: LF, CRLF, or more before it. */
  predicate IsEnding(s: string) {
    IsLine(s) && AllSpace(s)
  }

  predicate AllEndings(endings: seq<string>) {
    forall i :: 0 <= i < |endings| ==> IsEnding(endings[i])
  }

  /** Texts with endings put behind them. */
  function Ended(texts: seq<string>, endings: seq<string>): (r: seq<string>)
    requires |endings| == |texts|
    ensures |r| == |texts|
    ensures forall i :: 0 <= i < |r| ==> r[i] == texts[i] + endings[i]
  {
    seq(|texts|, i requires 0 <= i < |texts| => texts[i] + endings[i])
  }

  lemma TrimEndAppend(s: string, after: string)
    requires AllSpace(after)
    ensures TrimEnd(s + after) == TrimEnd(s)
  {
    var m := EndFrom(s, |s|);
    var all := s + after;
    forall i | m <= i < |all| ensures IsSpace(all[i]) {
      if i < |s| { assert all[i] == s[i]; } else { assert all[i] == after[i - |s|]; }
    }
    assert m > 0 ==> all[m - 1] == s[m - 1];
    assert AllSpace(all[m..]);
    EndFromUnique(all, m);
    assert all[..m] == s[..m];
  }

  lemma StripThenTrimEnd(chunk: string)
    ensures TrimEnd(StripEol(chunk)) == TrimEnd(chunk)
  {
    var line := StripEol(chunk);
    var after := chunk[|line|..];
    assert chunk == line + after;
    TrimEndAppend(line, after);
  }

  lemma {:induction false} TrimmedChunks(body: string)
    ensures TrimEnds(Lines(body)) == TrimEnds(Chunks(body))
  {
    forall i | 0 <= i < |Chunks(body)| ensures TrimEnd(StripEol(Chunks(body)[i])) == TrimEnd(Chunks(body)[i]) {
      StripThenTrimEnd(Chunks(body)[i]);
    }
  }

  lemma EndedIsLine(text: string, ending: string)
    requires LfFree(text) && IsEnding(ending)
    ensures IsLine(text + ending) && TrimEnd(text + ending) == TrimEnd(text)
  {
    var s := text + ending;
    var front := ending[..|ending| - 1];
    assert s[..|s| - 1] == text + front;
    TrimEndAppend(text, ending);
  }

  lemma EssenceOfEnded(texts: seq<string>, endings: seq<string>)
    requires |endings| == |texts| && AllEndings(endings)
    requires forall i :: 0 <= i < |texts| ==> LfFree(texts[i])
    ensures Essence(Flatten(Ended(texts, endings))) == DropBlank(TrimEnds(texts))
  {
    var lines := Ended(texts, endings);
    forall i | 0 <= i < |lines| ensures IsLine(lines[i]) && TrimEnd(lines[i]) == TrimEnd(texts[i]) {
      EndedIsLine(texts[i], endings[i]);
    }
    ChunksOfLines(lines, "");
    assert Flatten(lines) + "" == Flatten(lines) && lines + [] == lines;
    TrimmedChunks(Flatten(lines));
    assert TrimEnds(lines) == TrimEnds(texts);
  }

  /** The relaxed form does not depend on how lines end: LF or CRLF, with or without white space
      before it. */
  lemma EndingsIgnored(texts: seq<string>, endings: seq<string>, others: seq<string>)
    requires |endings| == |texts| == |others| && AllEndings(endings) && AllEndings(others)
    requires forall i :: 0 <= i < |texts| ==> LfFree(texts[i])
    ensures CanonicalBody(Flatten(Ended(texts, endings)), Relaxed) == CanonicalBody(Flatten(Ended(texts, others)), Relaxed)
  {
    EssenceOfEnded(texts, endings);
    EssenceOfEnded(texts, others);
  }

  // ---------------------------------------------------------------- white space at the end

  lemma {:induction false} DropBlankTail(lines: seq<string>, blanks: seq<string>)
    requires forall i :: 0 <= i < |blanks| ==> IsBlank(blanks[i])
    ensures DropBlank(lines + blanks) == DropBlank(lines)
    decreases |blanks|
  {
    var all := lines + blanks;
    if blanks == [] {
      assert all == lines;
    } else {
      var n := |blanks| - 1;
      assert all[|all| - 1] == blanks[n] && all[..|all| - 1] == lines + blanks[..n];
      DropBlankTail(lines, blanks[..n]);
    }
  }

  lemma SpaceIsBlank(s: string)
    requires AllSpace(s)
    ensures TrimEnd(s) == "" && IsBlank(s)
  {
    assert "" + s == s;
    TrimEndAppend("", s);
  }

  lemma {:induction false} SpaceChunks(s: string)
    requires AllSpace(s)
    ensures forall i :: 0 <= i < |Chunks(s)| ==> AllSpace(Chunks(s)[i])
    decreases |s|
  {
    if s != "" { SpaceChunks(s[LineLength(s)..]); }
  }

  lemma FirstLineCovers(tail: string, s: string)
    requires LfFree(tail) && tail + s != ""
    ensures |tail| <= LineLength(tail + s)
  {
    var all := tail + s;
    forall k | 0 <= k < |tail| ensures all[k] != '\n' { assert all[k] == tail[k]; }
  }

  lemma TailChunks(tail: string, s: string) returns (cut: nat)
    requires LfFree(tail) && tail + s != ""
    ensures cut <= |s| && Chunks(tail + s) == [tail + s[..cut]] + Chunks(s[cut..])
  {
    var all := tail + s;
    FirstLineCovers(tail, s);
    cut := LineLength(all) - |tail|;
    assert all[..LineLength(all)] == tail + s[..cut] && all[LineLength(all)..] == s[cut..];
  }

  lemma TrimmedTail(tail: string, s: string) returns (blanks: seq<string>)
    requires LfFree(tail) && AllSpace(s) && tail + s != ""
    ensures TrimEnds(Chunks(tail + s)) == [TrimEnd(tail)] + blanks
    ensures forall i :: 0 <= i < |blanks| ==> IsBlank(blanks[i])
  {
    var cut := TailChunks(tail, s);
    var rest := Chunks(s[cut..]);
    TrimEndAppend(tail, s[..cut]);
    SpaceChunks(s[cut..]);
    blanks := TrimEnds(rest);
    forall i | 0 <= i < |rest| ensures IsBlank(blanks[i]) {
      SpaceIsBlank(rest[i]);
      SpaceIsBlank("");
    }
  }

  lemma EssenceTail(tail: string, s: string)
    requires LfFree(tail) && AllSpace(s)
    ensures Essence(tail + s) == DropBlank([TrimEnd(tail)])
  {
    TrimmedChunks(tail + s);
    if tail + s == "" {
      SpaceIsBlank("");
      assert tail == "" && [TrimEnd(tail)][..0] == [];
    } else {
      var blanks := TrimmedTail(tail, s);
      DropBlankTail([TrimEnd(tail)], blanks);
    }
  }

  lemma {:induction false} DropBlankCons(x: string, a: seq<string>, b: seq<string>)
    requires DropBlank(a) == DropBlank(b)
    ensures DropBlank([x] + a) == DropBlank([x] + b)
  {
    DropBlankFirst(x, a);
    DropBlankFirst(x, b);
  }

  lemma {:induction false} DropBlankFirst(x: string, a: seq<string>)
    ensures DropBlank([x] + a) == if DropBlank(a) == [] then DropBlank([x]) else [x] + DropBlank(a)
    decreases |a|
  {
    var all := [x] + a;
    if a == [] {
      assert all == [x];
    } else {
      var n := |a| - 1;
      assert all[|all| - 1] == a[n] && all[..|all| - 1] == [x] + a[..n];
      if IsBlank(a[n]) { DropBlankFirst(x, a[..n]); }
    }
  }

  /** A line before the rest: the essence depends on the essence of the rest. */
  lemma EssenceLine(line: string, rest: string) returns (trimmed: seq<string>)
    requires IsLine(line)
    ensures Essence(line + rest) == DropBlank([TrimEnd(line)] + trimmed) && Essence(rest) == DropBlank(trimmed)
  {
    TrimmedChunks(line + rest);
    TrimmedChunks(rest);
    trimmed := TrimEnds(Lines(rest));
    ChunksCons(line, rest);
    TrimEndsCons(line, Chunks(rest));
  }

  lemma TrimEndsCons(line: string, lines: seq<string>)
    ensures TrimEnds([line] + lines) == [TrimEnd(line)] + TrimEnds(lines)
  {
  }

  lemma FirstLine(body: string) returns (line: string, rest: string)
    requires '\n' in body
    ensures body == line + rest && IsLine(line) && |rest| < |body|
  {
    var i := IndexOf(body, '\n');
    line, rest := body[..i + 1], body[i + 1..];
    assert line[..i] == body[..i];
  }

  lemma TailIgnored(tail: string, s: string)
    requires LfFree(tail) && AllSpace(s)
    ensures Essence(tail + s) == Essence(tail)
  {
    EssenceTail(tail, s);
    EssenceTail(tail, "");
    assert tail + "" == tail;
  }

  /** What is the same behind a line is the same with it. */
  lemma SameAfterLine(line: string, a: string, b: string)
    requires IsLine(line) && Essence(a) == Essence(b)
    ensures Essence(line + a) == Essence(line + b)
  {
    var with := EssenceLine(line, a);
    var without := EssenceLine(line, b);
    DropBlankCons(TrimEnd(line), with, without);
  }

  lemma Regroup(a: string, b: string, c: string)
    ensures a + b + c == a + (b + c)
  {
  }

  lemma SpaceAfterLine(line: string, rest: string, s: string)
    requires IsLine(line) && Essence(rest + s) == Essence(rest)
    ensures Essence(line + rest + s) == Essence(line + rest)
  {
    Regroup(line, rest, s);
    SameAfterLine(line, rest + s, rest);
  }

  lemma {:induction false} SpaceAtEndOfEssence(body: string, s: string)
    requires AllSpace(s)
    ensures Essence(body + s) == Essence(body)
    decreases |body|
  {
    if '\n' in body {
      var line, rest := FirstLine(body);
      SpaceAtEndOfEssence(rest, s);
      SpaceAfterLine(line, rest, s);
    } else {
      TailIgnored(body, s);
    }
  }

  /** White space behind a body, blank lines included, does not change its relaxed form. */
  lemma SpaceAtEndIgnored(body: string, s: string)
    requires AllSpace(s)
    ensures CanonicalBody(body + s, Relaxed) == CanonicalBody(body, Relaxed)
  {
    SpaceAtEndOfEssence(body, s);
  }

  // ---------------------------------------------------------------- canonical headers

  predicate NoBreaks(s: string) {
    forall i :: 0 <= i < |s| ==> s[i] != '\r' && s[i] != '\n'
  }

  lemma NoBreaksConcat(a: string, b: string)
    requires NoBreaks(a) && NoBreaks(b)
    ensures NoBreaks(a + b)
  {
  }

  /** Without carriage returns and line feeds. */
  function Unfolded(value: string): (r: string)
    ensures NoBreaks(r)
  {
    if value == "" then ""
    else (if value[0] == '\r' || value[0] == '\n' then "" else [value[0]]) + Unfolded(value[1..])
  }

  function CanonicalValue(value: string): string {
    Join(Words(Unfolded(value)), " ")
  }

  function CanonicalHeader(name: string, value: string, canon: Canonicalization): string {
    match canon
    case Simple => name + ":" + value
    case Relaxed => ToLower(name) + ":" + CanonicalValue(value)
  }

  lemma {:induction false} UnfoldedFixed(value: string)
    requires NoBreaks(value)
    ensures Unfolded(value) == value
  {
    if value != "" {
      UnfoldedFixed(value[1..]);
      assert value == [value[0]] + value[1..];
    }
  }

  lemma {:induction false} JoinedHasNoBreaks(words: seq<string>)
    requires forall i :: 0 <= i < |words| ==> IsToken(words[i])
    ensures NoBreaks(Join(words, " "))
  {
    if words != [] {
      forall i | 0 <= i < |words[0]| ensures words[0][i] != '\r' && words[0][i] != '\n' { assert !IsSpace(words[0][i]); }
      if |words| > 1 {
        JoinedHasNoBreaks(words[1..]);
        NoBreaksConcat(words[0], " ");
        NoBreaksConcat(words[0] + " ", Join(words[1..], " "));
      }
    }
  }

  /** The canonical value consists of the words of the value, and taking it again changes nothing. */
  lemma {:induction false} CanonicalValueIdempotent(value: string)
    ensures Words(CanonicalValue(value)) == Words(Unfolded(value))
    ensures CanonicalValue(CanonicalValue(value)) == CanonicalValue(value)
  {
    var words := Words(Unfolded(value));
    WordsJoin(words);
    JoinedHasNoBreaks(words);
    UnfoldedFixed(CanonicalValue(value));
  }

  /** Two values have the same canonical form exactly when, unfolded, they have the same words. */
  lemma {:induction false} CanonicalValueIff(a: string, b: string)
    ensures CanonicalValue(a) == CanonicalValue(b) <==> Words(Unfolded(a)) == Words(Unfolded(b))
  {
    CanonicalValueIdempotent(a);
    CanonicalValueIdempotent(b);
  }

  lemma {:induction false} UnfoldedAppend(a: string, b: string)
    ensures Unfolded(a + b) == Unfolded(a) + Unfolded(b)
  {
    if a == "" {
      assert a + b == b;
    } else {
      assert (a + b)[1..] == a[1..] + b;
      UnfoldedAppend(a[1..], b);
    }
  }

  /** Folding a value at any place does not change its canonical form. */
  lemma FoldingIgnored(a: string, b: string)
    ensures CanonicalValue(a + CRLF + b) == CanonicalValue(a + b)
  {
    UnfoldedAppend(a + CRLF, b);
    UnfoldedAppend(a, CRLF);
    UnfoldedAppend(a, b);
    assert CRLF[1..] == "\n" && "\n"[1..] == "";
    assert Unfolded("\n") == "" && Unfolded(CRLF) == "";
    assert Unfolded(a) + "" == Unfolded(a);
  }

  // ---------------------------------------------------------------- the header hash input

  /** The value of the last header of that name, the name being given in lower case. */
  function LastValue(headers: seq<Header>, name: string): Option<string> {
    if headers == [] then None
    else
      var n := |headers| - 1;
      if ToLower(headers[n].name) == name then Some(headers[n].value) else LastValue(headers[..n], name)
  }

  const SIGNATURE := "dkim-signature"

  function SignedHeader(headers: seq<Header>, name: string, canon: Canonicalization, signature: string): string {
    if name == SIGNATURE then CanonicalHeader(SIGNATURE, signature, canon) + CRLF
    else
      match LastValue(headers, name)
      case Some(value) => CanonicalHeader(name, value, canon) + CRLF
      case None => ""
  }

  function HashInput(headers: seq<Header>, signed: seq<string>, canon: Canonicalization, signature: string): string {
    if signed == [] then ""
    else
      var n := |signed| - 1;
      HashInput(headers, signed[..n], canon, signature) + SignedHeader(headers, ToLower(signed[n]), canon, signature)
  }

  function ValuesOf(headers: seq<Header>, name: string): seq<string> {
    if headers == [] then []
    else
      var n := |headers| - 1;
      ValuesOf(headers[..n], name) + if ToLower(headers[n].name) == name then [headers[n].value] else []
  }

  lemma {:induction false} LastOfValues(headers: seq<Header>, name: string)
    ensures var vs := ValuesOf(headers, name);
            LastValue(headers, name) == if vs == [] then None else Some(vs[|vs| - 1])
  {
    if headers != [] { LastOfValues(headers[..|headers| - 1], name); }
  }

  predicate GroupedAt(groups: map<string, seq<string>>, headers: seq<Header>, name: string) {
    ValuesOf(headers, name) == if name in groups then groups[name] else []
  }

  ghost predicate Grouped(groups: map<string, seq<string>>, headers: seq<Header>) {
    forall name :: GroupedAt(groups, headers, name)
  }

  lemma GroupedNext(groups: map<string, seq<string>>, headers: seq<Header>, i: nat, name: string)
    requires i < |headers| && GroupedAt(groups, headers[..i], name)
    ensures var key := ToLower(headers[i].name);
            var values := if key in groups then groups[key] else [];
            GroupedAt(groups[key := values + [headers[i].value]], headers[..i + 1], name)
  {
    assert headers[..i + 1][..i] == headers[..i];
  }

  lemma GroupedStep(groups: map<string, seq<string>>, headers: seq<Header>, i: nat, groups': map<string, seq<string>>)
    requires i < |headers| && Grouped(groups, headers[..i])
    requires var key := ToLower(headers[i].name);
             groups' == groups[key := (if key in groups then groups[key] else []) + [headers[i].value]]
    ensures Grouped(groups', headers[..i + 1])
  {
    var upto := headers[..i + 1];
    forall name ensures GroupedAt(groups', upto, name) {
      assert GroupedAt(groups, headers[..i], name);
      GroupedNext(groups, headers, i, name);
    }
  }

  method GroupHeaders(headers: seq<Header>) returns (groups: map<string, seq<string>>)
    ensures Grouped(groups, headers)
  {
    groups := map[];
    assert Grouped(groups, []);
    assert headers[..0] == [];
    var i := 0;
    while i < |headers|
      invariant 0 <= i <= |headers|
      invariant Grouped(groups, headers[..i])
    {
      ghost var before := groups;
      var key := ToLower(headers[i].name);
      var values := if key in groups then groups[key] else [];
      groups := groups[key := values + [headers[i].value]];
      GroupedStep(before, headers, i, groups);
      i := i + 1;
    }
    assert headers[..i] == headers;
  }

  /** The contribution of a signed name whose headers have these values. */
  function SignedValue(name: string, values: seq<string>, canon: Canonicalization, signature: string): string {
    if name == SIGNATURE then CanonicalHeader(SIGNATURE, signature, canon) + CRLF
    else if values == [] then ""
    else CanonicalHeader(name, values[|values| - 1], canon) + CRLF
  }

  lemma {:induction false} SignedFromGroup(headers: seq<Header>, name: string, canon: Canonicalization, signature: string)
    ensures SignedHeader(headers, name, canon, signature) == SignedValue(name, ValuesOf(headers, name), canon, signature)
  {
    LastOfValues(headers, name);
  }

  lemma {:induction false} HashInputNext(headers: seq<Header>, signed: seq<string>, i: nat, canon: Canonicalization, signature: string)
    requires i < |signed|
    ensures HashInput(headers, signed[..i + 1], canon, signature)
         == HashInput(headers, signed[..i], canon, signature) + SignedHeader(headers, ToLower(signed[i]), canon, signature)
  {
    assert signed[..i + 1][..i] == signed[..i];
  }

  method TakeSigned(ghost headers: seq<Header>, groups: map<string, seq<string>>, name: string, canon: Canonicalization,
                    signature: string)
    returns (part: string)
    requires GroupedAt(groups, headers, name)
    ensures part == SignedHeader(headers, name, canon, signature)
  {
    SignedFromGroup(headers, name, canon, signature);
    part := SignedValue(name, if name in groups then groups[name] else [], canon, signature);
  }

  method BuildHashInput(headers: seq<Header>, signed: seq<string>, canon: Canonicalization, signature: string)
    returns (r: string)
    ensures r == HashInput(headers, signed, canon, signature)
  {
    var groups := GroupHeaders(headers);
    r := "";
    var i := 0;
    while i < |signed|
      invariant 0 <= i <= |signed|
      invariant r == HashInput(headers, signed[..i], canon, signature)
    {
      HashInputNext(headers, signed, i, canon, signature);
      assert GroupedAt(groups, headers, ToLower(signed[i]));
      var part := TakeSigned(headers, groups, ToLower(signed[i]), canon, signature);
      r := r + part;
      i := i + 1;
    }
    assert signed[..i] == signed;
  }

  lemma {:induction false} LastValueAround(before: seq<Header>, h: Header, after: seq<Header>, name: string)
    requires ToLower(h.name) != name || LastValue(after, name).Some?
    ensures LastValue(before + [h] + after, name) == LastValue(before + after, name)
    decreases |after|
  {
    var all, less := before + [h] + after, before + after;
    if after == [] {
      assert less == before && all == before + [h];
      assert all[..|all| - 1] == before;
    } else {
      var n := |after| - 1;
      assert all[..|all| - 1] == before + [h] + after[..n] && less[..|less| - 1] == before + after[..n];
      assert all[|all| - 1] == after[n] && less[|less| - 1] == after[n];
      if ToLower(after[n].name) != name { LastValueAround(before, h, after[..n], name); }
    }
  }

  /** A header whose name is not signed, or that another of its name follows, may come or go
      anywhere without changing the hash input. */
  lemma {:induction false} HeaderIrrelevant(before: seq<Header>, h: Header, after: seq<Header>, signed: seq<string>,
                                            canon: Canonicalization, signature: string)
    requires LastValue(after, ToLower(h.name)).Some? || forall i :: 0 <= i < |signed| ==> ToLower(signed[i]) != ToLower(h.name)
    ensures HashInput(before + [h] + after, signed, canon, signature) == HashInput(before + after, signed, canon, signature)
    decreases |signed|
  {
    if signed != [] {
      var n := |signed| - 1;
      HeaderIrrelevant(before, h, after, signed[..n], canon, signature);
      LastValueAround(before, h, after, ToLower(signed[n]));
    }
  }

  // ---------------------------------------------------------------- folding a signature

  const MAX_LINE: nat := 76

  const FOLD := "\r\n "

  function Pieces(s: string): seq<string>
    decreases |s|
  {
    if s == "" then [] else if |s| <= MAX_LINE then [s] else [s[..MAX_LINE]] + Pieces(s[MAX_LINE..])
  }

  function Fold(s: string): string {
    Join(Pieces(s), FOLD)
  }

  method FoldSignature(s: string) returns (r: string)
    ensures r == Fold(s)
  {
    if |s| <= MAX_LINE {
      return s;
    }
    r := "";
    var pos := 0;
    while pos < |s|
      invariant 0 <= pos <= |s|
      invariant r + Fold(s[pos..]) == Fold(s)
    {
      var end := if pos + MAX_LINE <= |s| then pos + MAX_LINE else |s|;
      FoldStep(s[pos..]);
      assert s[pos..][..end - pos] == s[pos..end] && s[pos..][end - pos..] == s[end..];
      r := r + s[pos..end];
      if end < |s| {
        r := r + FOLD;
      }
      pos := end;
    }
    assert s[pos..] == "" && r + "" == r;
  }

  lemma FoldStep(s: string)
    ensures |s| <= MAX_LINE ==> Fold(s) == s
    ensures |s| > MAX_LINE ==> Fold(s) == s[..MAX_LINE] + FOLD + Fold(s[MAX_LINE..])
  {
    if |s| > MAX_LINE {
      assert Pieces(s)[1..] == Pieces(s[MAX_LINE..]);
      assert Pieces(s[MAX_LINE..]) != [];
    }
  }

  /** Removing the folds. */
  function Unfold(s: string): string {
    if s == "" then ""
    else if FOLD <= s then Unfold(s[3..])
    else [s[0]] + Unfold(s[1..])
  }

  lemma {:induction false} UnfoldPlain(a: string, b: string)
    requires '\r' !in a
    ensures Unfold(a + b) == a + Unfold(b)
  {
    if a == "" {
      assert a + b == b;
    } else {
      var s := a + b;
      assert s[0] == a[0] && s[1..] == a[1..] + b;
      UnfoldPlain(a[1..], b);
      assert a == [a[0]] + a[1..];
    }
  }

  /** Unfolding a folded signature gives it back. */
  lemma {:induction false} FoldRoundTrip(s: string)
    requires '\r' !in s
    ensures Unfold(Fold(s)) == s
    decreases |s|
  {
    FoldStep(s);
    if |s| <= MAX_LINE {
      UnfoldPlain(s, "");
      assert s + "" == s;
    } else {
      var first, rest := s[..MAX_LINE], s[MAX_LINE..];
      FoldRoundTrip(rest);
      assert Fold(s) == first + (FOLD + Fold(rest));
      UnfoldPlain(first, FOLD + Fold(rest));
      assert (FOLD + Fold(rest))[3..] == Fold(rest);
      assert s == first + rest;
    }
  }

  /** The pieces between the folds make up the signature; each is at most 76 characters long, and
      all but the last are exactly that. */
  lemma {:induction false} PiecesAre(s: string)
    ensures Flatten(Pieces(s)) == s
    ensures forall i :: 0 <= i < |Pieces(s)| ==> 0 < |Pieces(s)[i]| <= MAX_LINE
    ensures forall i :: 0 <= i < |Pieces(s)| - 1 ==> |Pieces(s)[i]| == MAX_LINE
    decreases |s|
  {
    if s == "" {
    } else if |s| <= MAX_LINE {
      FlattenOne(s);
    } else {
      PiecesAre(s[MAX_LINE..]);
      assert Pieces(s)[1..] == Pieces(s[MAX_LINE..]);
      assert s == s[..MAX_LINE] + s[MAX_LINE..];
    }
  }

  function Indented(pieces: seq<string>): (r: seq<string>)
    ensures |r| == |pieces|
  {
    seq(|pieces|, i requires 0 <= i < |pieces| => " " + pieces[i])
  }

  lemma LinesCons(text: string, rest: string)
    requires LfFree(text)
    ensures Lines(text + CRLF + rest) == [text] + Lines(rest)
  {
    CrlfStrips(text);
    ChunksCons(text + CRLF, rest);
    assert text + CRLF + rest == (text + CRLF) + rest;
  }

  lemma IndentedCons(pieces: seq<string>)
    requires pieces != []
    ensures Indented(pieces) == [" " + pieces[0]] + Indented(pieces[1..])
  {
  }

  lemma FoldedNext(prefix: string, first: string, rest: string, lines: seq<string>)
    requires LfFree(prefix) && LfFree(first) && Lines(" " + rest) == lines
    ensures Lines(prefix + (first + FOLD + rest)) == [prefix + first] + lines
  {
    LfFreeConcat(prefix, first);
    assert prefix + (first + FOLD + rest) == (prefix + first) + CRLF + (" " + rest);
    LinesCons(prefix + first, " " + rest);
  }

  lemma {:induction false} FoldedLines(prefix: string, s: string)
    requires LfFree(prefix) && LfFree(s) && s != ""
    ensures Pieces(s) != []
    ensures Lines(prefix + Fold(s)) == [prefix + Pieces(s)[0]] + Indented(Pieces(s)[1..])
    decreases |s|
  {
    FoldStep(s);
    if |s| <= MAX_LINE {
      LfFreeConcat(prefix, s);
      OneChunk(prefix + s);
    } else {
      var first, rest := s[..MAX_LINE], s[MAX_LINE..];
      FoldedLines(" ", rest);
      FoldedNext(prefix, first, Fold(rest), Lines(" " + Fold(rest)));
      assert Pieces(s)[1..] == Pieces(rest);
      IndentedCons(Pieces(rest));
    }
  }

  /** The lines of a folded text: its pieces, each but the first behind a space. */
  lemma {:induction false} LinesOfFold(s: string)
    requires LfFree(s) && s != ""
    ensures Pieces(s) != [] && Lines(Fold(s)) == [Pieces(s)[0]] + Indented(Pieces(s)[1..])
  {
    FoldedLines("", s);
    assert "" + Fold(s) == Fold(s) && "" + Pieces(s)[0] == Pieces(s)[0];
  }

  /** Every line of a folded signature, the leading space included, is within the 76 characters that
      are promised if and only if the signature has at most 151. */
  lemma FoldedWithinIff(s: string)
    requires LfFree(s)
    ensures (forall i :: 0 <= i < |Lines(Fold(s))| ==> |Lines(Fold(s))[i]| <= MAX_LINE) <==> |s| <= 2 * MAX_LINE - 1
  {
    if s != "" {
      LinesOfFold(s);
      if |s| > MAX_LINE {
        var lines := Lines(Fold(s));
        assert Pieces(s)[1..] == Pieces(s[MAX_LINE..]);
        assert lines[1] == " " + Pieces(s[MAX_LINE..])[0];
      }
    } else {
      assert Lines(Fold(s)) == [];
    }
  }

  /** At 152 characters the second line has 77. */
  lemma FoldedTooLong(s: string)
    requires LfFree(s) && |s| == 2 * MAX_LINE
    ensures |Lines(Fold(s))| == 2 && |Lines(Fold(s))[1]| == MAX_LINE + 1
  {
    LinesOfFold(s);
    assert Pieces(s)[1..] == Pieces(s[MAX_LINE..]) == [s[MAX_LINE..]];
  }
}
