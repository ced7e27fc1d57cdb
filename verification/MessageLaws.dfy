/** What the message parser makes of raw text, told line by line. */
module MessageLaws {
  import opened Text
  import opened Message

  // ---------------------------------------------------------------- folded headers

  /** A line that continues the header before it. */
  predicate Continues(line: string) {
    line != "" && (line[0] == ' ' || line[0] == '\t')
  }

  /** A header on several lines. */
  datatype Field = Field(name: string, first: string, more: seq<string>)

  /** Visible ASCII without a colon. */
  predicate IsName(name: string) {
    name != "" && forall i :: 0 <= i < |name| ==> 33 <= name[i] as int <= 126 && name[i] != ':'
  }

  predicate IsField(f: Field) {
    && IsName(f.name)
    && forall i :: 0 <= i < |f.more| ==> Continues(f.more[i])
  }

  function FieldLines(f: Field): seq<string> {
    [f.name + ":" + f.first] + f.more
  }

  /** The texts of the lines, trimmed, with a space between each two. */
  function Unfolded(first: string, more: seq<string>): string {
    if more == [] then Trim(first) else Unfolded(first, more[..|more| - 1]) + " " + Trim(more[|more| - 1])
  }

  function LinesOf(fields: seq<Field>): seq<string> {
    if fields == [] then [] else LinesOf(fields[..|fields| - 1]) + FieldLines(fields[|fields| - 1])
  }

  function Read(fields: seq<Field>): seq<Header> {
    seq(|fields|, i requires 0 <= i < |fields| => Header(fields[i].name, Unfolded(fields[i].first, fields[i].more)))
  }

  lemma NameIs(name: string)
    ensures IsName(name) <==> IsFieldName(name)
  {
    if IsFieldName(name) {
      forall i | 0 <= i < |name| ensures 33 <= name[i] as int <= 126 { assert IsGraphic(name[i]); }
    }
  }

  lemma NameIsTrimmed(name: string)
    requires IsFieldName(name)
    ensures Trim(name) == name && ':' !in name
  {
    assert IsGraphic(name[0]) && IsGraphic(name[|name| - 1]);
    TrimAfter(name, "");
    assert name + "" == name;
  }

  lemma {:induction false} HeadersSnoc(lines: seq<string>, line: string)
    ensures HeadersOf(lines + [line]) == Absorb(HeadersOf(lines), line)
  {
    assert (lines + [line])[..|lines|] == lines;
  }

  /** The line that begins a header. */
  lemma FirstLine(b: Block, name: string, first: string)
    requires IsFieldName(name)
    ensures Absorb(b, name + ":" + first) == b.(headers := b.headers + [Header(name, Trim(first))])
  {
    var line := name + ":" + first;
    NameIsTrimmed(name);
    IndexOfAt(name, ':', first);
    assert line == name + [':'] + first;
    assert line[..|name|] == name && line[|name| + 1..] == first && line[0] == name[0];
  }

  lemma MoreLine(b: Block, h: Header, line: string)
    requires Continues(line) && b.headers != [] && b.headers[|b.headers| - 1] == h
    ensures Absorb(b, line)
         == b.(headers := b.headers[..|b.headers| - 1] + [Header(h.name, h.value + " " + Trim(line))])
  {
  }

  lemma {:induction false} OneField(before: seq<string>, f: Field, n: nat)
    requires IsField(f) && n <= |f.more|
    ensures HeadersOf(before + ([f.name + ":" + f.first] + f.more[..n]))
         == HeadersOf(before).(headers := HeadersOf(before).headers + [Header(f.name, Unfolded(f.first, f.more[..n]))])
  {
    var start := [f.name + ":" + f.first];
    if n == 0 {
      NoMore(before, f);
    } else {
      var line := f.more[n - 1];
      OneField(before, f, n - 1);
      OneMore(before, start, f.more, n);
      HeadersSnoc(before + (start + f.more[..n - 1]), line);
      UnfoldedSnoc(f.first, f.more, n);
      Replaced(HeadersOf(before), Header(f.name, Unfolded(f.first, f.more[..n - 1])), line);
    }
  }

  lemma {:induction false} NoMore(before: seq<string>, f: Field)
    requires IsField(f)
    ensures HeadersOf(before + ([f.name + ":" + f.first] + f.more[..0]))
         == HeadersOf(before).(headers := HeadersOf(before).headers + [Header(f.name, Unfolded(f.first, f.more[..0]))])
  {
    var start := [f.name + ":" + f.first];
    assert start + f.more[..0] == start;
    HeadersSnoc(before, start[0]);
    NameIs(f.name);
    FirstLine(HeadersOf(before), f.name, f.first);
  }

  lemma OneMore(before: seq<string>, start: seq<string>, more: seq<string>, n: nat)
    requires 0 < n <= |more|
    ensures before + (start + more[..n]) == before + (start + more[..n - 1]) + [more[n - 1]]
  {
    assert more[..n] == more[..n - 1] + [more[n - 1]];
  }

  lemma {:induction false} UnfoldedSnoc(first: string, more: seq<string>, n: nat)
    requires 0 < n <= |more|
    ensures Unfolded(first, more[..n]) == Unfolded(first, more[..n - 1]) + " " + Trim(more[n - 1])
  {
    assert more[..n][..n - 1] == more[..n - 1];
  }

  lemma Replaced(b: Block, h: Header, line: string)
    requires Continues(line)
    ensures Absorb(b.(headers := b.headers + [h]), line)
         == b.(headers := b.headers + [Header(h.name, h.value + " " + Trim(line))])
  {
    var with := b.(headers := b.headers + [h]);
    MoreLine(with, h, line);
    assert with.headers[..|with.headers| - 1] == b.headers;
  }

  /** Headers that may be folded anywhere, at spaces or tabs, are read with each fold as one space. */
  lemma {:induction false} FieldsRead(fields: seq<Field>)
    requires forall i :: 0 <= i < |fields| ==> IsField(fields[i])
    ensures HeadersOf(LinesOf(fields)) == Block(Read(fields), [])
  {
    if fields != [] {
      var n := |fields| - 1;
      var last := fields[n];
      FieldsRead(fields[..n]);
      OneField(LinesOf(fields[..n]), last, |last.more|);
      assert last.more[..|last.more|] == last.more;
      ReadSnoc(fields);
    }
  }

  lemma ReadSnoc(fields: seq<Field>)
    requires fields != []
    ensures var n := |fields| - 1;
            Read(fields) == Read(fields[..n]) + [Header(fields[n].name, Unfolded(fields[n].first, fields[n].more))]
  {
  }

  // ---------------------------------------------------------------- which lines are at fault

  /** `line` has its first colon at `k`. */
  predicate ColonAt(line: string, k: nat) {
    k < |line| && line[k] == ':' && ':' !in line[..k]
  }

  predicate BeginsHeader(line: string) {
    !Continues(line) && exists k: nat :: k < |line| && ColonAt(line, k) && IsName(Trim(line[..k]))
  }

  predicate SomeBegins(lines: seq<string>) {
    exists i :: 0 <= i < |lines| && BeginsHeader(lines[i])
  }

  /** What is wrong with a line, `before` being the lines before it. */
  ghost predicate Faulty(before: seq<string>, line: string, fault: HeaderFault) {
    match fault
    case NoPrecedingHeader => Continues(line) && !SomeBegins(before)
    case BadName(name) => !Continues(line) && exists k: nat :: ColonAt(line, k) && name == Trim(line[..k]) && !IsName(name)
    case NotAHeader(text) => text == line && line != "" && !Continues(line) && ':' !in line
  }

  ghost predicate Faultless(before: seq<string>, line: string) {
    forall fault :: !Faulty(before, line, fault)
  }

  lemma {:induction false} ColonIs(line: string)
    ensures IndexOf(line, ':') < |line| ==> ColonAt(line, IndexOf(line, ':'))
    ensures forall k: nat :: ColonAt(line, k) ==> IndexOf(line, ':') == k
  {
    forall k: nat | ColonAt(line, k) ensures IndexOf(line, ':') == k {
      IndexOfAt(line[..k], ':', line[k + 1..]);
      assert line == line[..k] + [':'] + line[k + 1..];
    }
  }

  lemma {:induction false} SomeHeaderIff(lines: seq<string>)
    ensures HeadersOf(lines).headers != [] <==> SomeBegins(lines)
  {
    if lines != [] {
      var front, line := lines[..|lines| - 1], lines[|lines| - 1];
      SomeHeaderIff(front);
      ColonIs(line);
      NameIs(Trim(line[..IndexOf(line, ':')]));
      forall i | 0 <= i < |front| ensures front[i] == lines[i] {}
      assert lines[|front|] == line;
    }
  }

  /** Each faulty line adds one complaint, which says what is wrong with it; the others add none. */
  lemma {:induction false} ComplaintsAre(lines: seq<string>, line: string)
    ensures var before, after := HeadersOf(lines).errors, HeadersOf(lines + [line]).errors;
            || (Faultless(lines, line) && after == before)
            || exists fault :: Faulty(lines, line, fault) && after == before + [InvalidHeader(fault)]
  {
    HeadersSnoc(lines, line);
    SomeHeaderIff(lines);
    ColonIs(line);
    var before, after := HeadersOf(lines).errors, HeadersOf(lines + [line]).errors;
    var k := IndexOf(line, ':');
    NameIs(Trim(line[..k]));
    if Continues(line) {
      if !SomeBegins(lines) { assert Faulty(lines, line, NoPrecedingHeader); }
    } else if k < |line| {
      if !IsFieldName(Trim(line[..k])) { assert Faulty(lines, line, BadName(Trim(line[..k]))); }
    } else if line != "" {
      assert Faulty(lines, line, NotAHeader(line));
    }
  }

  // ---------------------------------------------------------------- whole messages

  /** Where the text is cut: at its first empty line between CRLFs, or, if there is none, at its first
      between line feeds. */
  lemma SplitIs(text: string)
    ensures var (head, body) := SplitMessage(text);
            || (text == head + BLANK_LINE + body && FirstAt(text, BLANK_LINE, |head|))
            || (text == head + "\n\n" + body && FirstAt(text, "\n\n", |head|) && Nowhere(text, BLANK_LINE))
            || (text == head && body == "" && Nowhere(text, "\n\n") && Nowhere(text, BLANK_LINE))
  {
    match Find(text, BLANK_LINE)
    case Some(i) => assert text == text[..i] + BLANK_LINE + text[i + 4..];
    case None =>
      match Find(text, "\n\n")
      case Some(i) => assert text == text[..i] + "\n\n" + text[i + 2..];
      case None =>
  }

  predicate FirstAt(text: string, pat: string, i: nat) {
    OccursAt(text, pat, i) && forall j :: 0 <= j < i ==> !OccursAt(text, pat, j)
  }

  predicate Nowhere(text: string, pat: string) {
    forall j :: 0 <= j <= |text| ==> !OccursAt(text, pat, j)
  }

  predicate Named(headers: seq<Header>, name: string) {
    exists i :: 0 <= i < |headers| && ToLower(headers[i].name) == name
  }

  /** A line over 998 bytes adds a complaint with its number, counted from one, and its length; no other
      line adds any. */
  lemma {:induction false} LongLinesAre(lines: seq<string>, line: string)
    ensures TooLong([]) == []
    ensures TooLong(lines + [line]) == TooLong(lines) + if |line| > 998 then [LineTooLong(|lines| + 1, |line|)] else []
  {
    var all := lines + [line];
    assert all[..|all| - 1] == lines && all[|all| - 1] == line;
  }

  /** The complaints are those about lines of the head, in order, then one for each line over 998 bytes,
      then one for each of From and Date that is missing; without any the message is accepted, with
      the headers and the body read. */
  lemma {:induction false} ParseIs(raw: string)
    ensures var (head, body) := SplitMessage(raw);
            var block := HeadersOf(Lines(head));
            var missing := (if Named(block.headers, "from") then [] else [MissingHeader("From")])
                           + (if Named(block.headers, "date") then [] else [MissingHeader("Date")]);
            Parse(raw) ==
            if block.errors == [] && missing == [] && forall i :: 0 <= i < |Lines(raw)| ==> |Lines(raw)[i]| <= 998
            then Ok(Message(block.headers, body, raw)) else Err(block.errors + TooLong(Lines(raw)) + missing)
  {
    assert ToLower("From") == "from" && ToLower("Date") == "date";
  }
}
