/** What canonical bodies and the header hash input are, line by line, in terms of their inputs. */
module DkimLaws {
  import opened Text
  import opened Message
  import opened Dkim

  // ---------------------------------------------------------------- bodies

  /** `kept` is `line` without the white space at its end. */
  predicate IsTrimmed(line: string, kept: string) {
    kept <= line && AllSpace(line[|kept|..]) && (kept != "" ==> !IsSpace(kept[|kept| - 1]))
  }

  /** The lines of a body without white space at their ends, up to the last that has anything else. */
  predicate AreLinesOf(body: string, lines: seq<string>) {
    var all := Lines(body);
    && |lines| <= |all| && (forall i :: 0 <= i < |lines| ==> IsTrimmed(all[i], lines[i]))
    && (forall i :: |lines| <= i < |all| ==> AllSpace(all[i]))
    && (lines != [] ==> lines[|lines| - 1] != "")
  }

  lemma TrimmedIs(line: string)
    ensures IsTrimmed(line, TrimEnd(line))
    ensures TrimEnd(line) == "" <==> AllSpace(line)
  {
    var n := EndFrom(line, |line|);
    assert line[..n] == TrimEnd(line);
    forall i | 0 <= i < |line| - n ensures IsSpace(line[n..][i]) { assert line[n..][i] == line[n + i]; }
    if AllSpace(line) {
      assert line[0..] == line;
      EndFromUnique(line, 0);
    }
  }

  /** The simple form is the body, with CRLF put behind it if and only if it does not end so. */
  lemma SimpleBodyIs(body: string)
    ensures var r := CanonicalBody(body, Simple);
            EndsInCrlf(r) && (r == body || (r == body + CRLF && !EndsInCrlf(body)))
  {
  }

  /** The relaxed form writes each of the lines that count with CRLF behind it; if none counts it is CRLF. */
  lemma RelaxedBodyIs(body: string) returns (lines: seq<string>)
    ensures AreLinesOf(body, lines)
    ensures CanonicalBody(body, Relaxed) == if lines == [] then CRLF else Flatten(WithCrlf(lines))
  {
    lines := Essence(body);
    var all, trimmed := Lines(body), TrimEnds(Lines(body));
    forall i | 0 <= i < |lines| ensures IsTrimmed(all[i], lines[i]) {
      TrimmedIs(all[i]);
      assert lines[i] == trimmed[i];
    }
    forall i | |lines| <= i < |all| ensures AllSpace(all[i]) {
      TrimmedIs(all[i]);
      assert IsBlank(trimmed[i]);
      TrimEndTwice(all[i]);
    }
    if lines != [] {
      var last := lines[|lines| - 1];
      assert !IsBlank(last);
      assert TrimEnd("") == "";
    }
  }

  // ---------------------------------------------------------------- headers

  /** Header `i` is the last of its name, letter case aside. */
  predicate IsLast(headers: seq<Header>, i: nat, name: string) {
    && i < |headers| && ToLower(headers[i].name) == name
    && forall j :: i < j < |headers| ==> ToLower(headers[j].name) != name
  }

  ghost predicate HasLast(headers: seq<Header>, name: string) {
    exists i: nat :: IsLast(headers, i, name)
  }

  /** A value without its line breaks. */
  function WithoutBreaks(value: string): string {
    if value == "" then ""
    else
      var n := |value| - 1;
      WithoutBreaks(value[..n]) + if value[n] == '\r' || value[n] == '\n' then "" else [value[n]]
  }

  /** As it is, or, relaxed, its words with single spaces between them. */
  function Rendered(value: string, canon: Canonicalization): string {
    match canon
    case Simple => value
    case Relaxed => Join(Words(WithoutBreaks(value)), " ")
  }

  /** The line a signed name, in lower case, contributes. */
  ghost predicate IsLineFor(headers: seq<Header>, name: string, canon: Canonicalization, signature: string, line: string) {
    if name == "dkim-signature" then line == name + ":" + Rendered(signature, canon)
    else exists i: nat :: IsLast(headers, i, name) && line == name + ":" + Rendered(headers[i].value, canon)
  }

  /** The signed names, in lower case, that are the signature's own or that some header has. */
  ghost function Present(headers: seq<Header>, signed: seq<string>): seq<string> {
    if signed == [] then []
    else
      var n := |signed| - 1;
      var name := ToLower(signed[n]);
      Present(headers, signed[..n]) + if name == "dkim-signature" || HasLast(headers, name) then [name] else []
  }

  lemma LastOfFront(headers: seq<Header>, i: nat, name: string)
    requires headers != [] && ToLower(headers[|headers| - 1].name) != name
    ensures IsLast(headers, i, name) <==> IsLast(headers[..|headers| - 1], i, name)
  {
    var n := |headers| - 1;
    forall j | 0 <= j < n ensures headers[..n][j] == headers[j] {}
    assert i == n ==> !IsLast(headers, i, name);
  }

  lemma {:induction false} LastValueIs(headers: seq<Header>, name: string)
    ensures LastValue(headers, name).Some? <==> HasLast(headers, name)
    ensures forall i: nat :: IsLast(headers, i, name) ==> LastValue(headers, name) == Some(headers[i].value)
  {
    if headers != [] {
      var n := |headers| - 1;
      LastValueIs(headers[..n], name);
      if ToLower(headers[n].name) == name {
        assert IsLast(headers, n, name);
      } else {
        forall i: nat ensures IsLast(headers, i, name) <==> IsLast(headers[..n], i, name) { LastOfFront(headers, i, name); }
      }
    }
  }

  lemma {:induction false} UnfoldedIs(value: string)
    ensures Unfolded(value) == WithoutBreaks(value)
  {
    if value != "" {
      var n := |value| - 1;
      UnfoldedIs(value[..n]);
      UnfoldedAppend(value[..n], [value[n]]);
      assert value == value[..n] + [value[n]];
      assert [value[n]][1..] == "" && Unfolded("") == "";
    }
  }

  lemma LowerTwice(s: string)
    ensures ToLower(ToLower(s)) == ToLower(s)
  {
  }

  lemma HeaderIs(name: string, value: string, canon: Canonicalization)
    requires ToLower(name) == name
    ensures CanonicalHeader(name, value, canon) == name + ":" + Rendered(value, canon)
  {
    UnfoldedIs(value);
  }

  lemma ContributionIs(headers: seq<Header>, name: string, canon: Canonicalization, signature: string) returns (lines: seq<string>)
    requires ToLower(name) == name
    ensures SignedHeader(headers, name, canon, signature) == Flatten(WithCrlf(lines))
    ensures |lines| == if name == "dkim-signature" || HasLast(headers, name) then 1 else 0
    ensures lines != [] ==> IsLineFor(headers, name, canon, signature, lines[0])
  {
    LastValueIs(headers, name);
    lines := [];
    if name == "dkim-signature" {
      HeaderIs(name, signature, canon);
      lines := [name + ":" + Rendered(signature, canon)];
      FlattenOne(lines[0] + CRLF);
    } else if LastValue(headers, name).Some? {
      var i: nat :| IsLast(headers, i, name);
      HeaderIs(name, headers[i].value, canon);
      lines := [name + ":" + Rendered(headers[i].value, canon)];
      FlattenOne(lines[0] + CRLF);
    }
    if lines != [] { assert WithCrlf(lines) == [lines[0] + CRLF]; }
  }

  /** The hash input is one line, ended by CRLF, for each signed name that is present, in the order of the
      names: the name in lower case, a colon, and the last value under that name. */
  lemma {:induction false} HashInputIs(headers: seq<Header>, signed: seq<string>, canon: Canonicalization, signature: string)
    returns (lines: seq<string>)
    ensures HashInput(headers, signed, canon, signature) == Flatten(WithCrlf(lines))
    ensures AreLinesFor(headers, Present(headers, signed), canon, signature, lines)
  {
    if signed == [] {
      lines := [];
    } else {
      var n := |signed| - 1;
      var before := HashInputIs(headers, signed[..n], canon, signature);
      LowerTwice(signed[n]);
      var own := ContributionIs(headers, ToLower(signed[n]), canon, signature);
      lines := before + own;
      WrittenAppend(before, own);
      LinesAppend(headers, Present(headers, signed[..n]), ToLower(signed[n]), canon, signature, before, own);
    }
  }

  /** One line for each name. */
  ghost predicate AreLinesFor(headers: seq<Header>, names: seq<string>, canon: Canonicalization, signature: string, lines: seq<string>) {
    |lines| == |names| && forall i :: 0 <= i < |lines| ==> IsLineFor(headers, names[i], canon, signature, lines[i])
  }

  lemma LinesAppend(headers: seq<Header>, names: seq<string>, name: string, canon: Canonicalization, signature: string,
                    lines: seq<string>, own: seq<string>)
    requires AreLinesFor(headers, names, canon, signature, lines) && |own| <= 1
    requires own != [] ==> IsLineFor(headers, name, canon, signature, own[0])
    ensures AreLinesFor(headers, names + if own == [] then [] else [name], canon, signature, lines + own)
  {
  }

  lemma WrittenAppend(a: seq<string>, b: seq<string>)
    ensures Flatten(WithCrlf(a + b)) == Flatten(WithCrlf(a)) + Flatten(WithCrlf(b))
  {
    assert WithCrlf(a + b) == WithCrlf(a) + WithCrlf(b);
    FlattenAppend(WithCrlf(a), WithCrlf(b));
  }

  predicate OnOneLine(headers: seq<Header>, signed: seq<string>, signature: string) {
    && LfFree(signature) && (forall i :: 0 <= i < |headers| ==> LfFree(headers[i].value)) && AllLfFree(signed)
  }

  lemma {:induction false} RenderedOnOneLine(value: string, canon: Canonicalization)
    requires LfFree(value)
    ensures LfFree(Rendered(value, canon))
  {
    if canon.Relaxed? {
      JoinedHasNoBreaks(Words(WithoutBreaks(value)));
      var r := Rendered(value, canon);
      forall i | 0 <= i < |r| ensures r[i] != '\n' {}
    }
  }

  lemma {:induction false} PresentOnOneLine(headers: seq<Header>, signed: seq<string>)
    requires AllLfFree(signed)
    ensures AllLfFree(Present(headers, signed))
  {
    if signed != [] {
      var n := |signed| - 1;
      PresentOnOneLine(headers, signed[..n]);
      LowerLfFree(signed[n]);
    }
  }

  lemma LowerLfFree(s: string)
    requires LfFree(s)
    ensures LfFree(ToLower(s))
  {
    var r := ToLower(s);
    forall i | 0 <= i < |r| ensures r[i] != '\n' { assert r[i] == Lower(s[i]); }
  }

  lemma LineOnOneLine(headers: seq<Header>, name: string, canon: Canonicalization, signature: string, line: string)
    requires IsLineFor(headers, name, canon, signature, line) && LfFree(name) && LfFree(signature)
    requires forall i :: 0 <= i < |headers| ==> LfFree(headers[i].value)
    ensures LfFree(line)
  {
    LfFreeConcat(name, ":");
    if name == "dkim-signature" {
      RenderedOnOneLine(signature, canon);
      LfFreeConcat(name + ":", Rendered(signature, canon));
    } else {
      var i: nat :| IsLast(headers, i, name) && line == name + ":" + Rendered(headers[i].value, canon);
      RenderedOnOneLine(headers[i].value, canon);
      LfFreeConcat(name + ":", Rendered(headers[i].value, canon));
    }
  }

  lemma LinesWritten(lines: seq<string>)
    requires AllLfFree(lines)
    ensures Lines(Flatten(WithCrlf(lines))) == lines
  {
    var written := WithCrlf(lines);
    forall i | 0 <= i < |written| ensures IsLine(written[i]) && StripEol(written[i]) == lines[i] {
      assert written[i][..|written[i]| - 1] == lines[i] + "\r";
      assert (lines[i] + "\r")[..|lines[i]|] == lines[i];
    }
    ChunksOfLines(written, "");
    assert Flatten(written) + "" == Flatten(written) && written + [] == written;
  }

  /** If nothing in it spans lines, those are its lines. */
  lemma {:induction false} HashInputLines(headers: seq<Header>, signed: seq<string>, canon: Canonicalization, signature: string)
    requires OnOneLine(headers, signed, signature)
    ensures var names, lines := Present(headers, signed), Lines(HashInput(headers, signed, canon, signature));
            AreLinesFor(headers, names, canon, signature, lines)
  {
    var lines := HashInputIs(headers, signed, canon, signature);
    var names := Present(headers, signed);
    PresentOnOneLine(headers, signed);
    forall i | 0 <= i < |lines| ensures LfFree(lines[i]) { LineOnOneLine(headers, names[i], canon, signature, lines[i]); }
    LinesWritten(lines);
  }
}
