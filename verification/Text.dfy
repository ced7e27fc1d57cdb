/**
 Byte strings and the string operations the mail code relies on.

 Text is `string`, and one `char` stands for one byte, so `|s|` is the byte
 length; module Utf8 says which strings are UTF-8.  Only ASCII white space and
 ASCII letters take part in trimming and case folding.
 */
module Text {

  datatype Option<+T> = None | Some(value: T)

  datatype Result<+T, +E> = Ok(value: T) | Err(error: E)

  const CRLF := "\r\n"

  // ---------------------------------------------------------------- white space

  predicate IsSpace(c: char) {
    c == ' ' || '\t' <= c <= '\r'
  }

  predicate IsToken(s: string) {
    s != "" && forall i :: 0 <= i < |s| ==> !IsSpace(s[i])
  }

  /** The length of `s` without the white space at its end. */
  function EndFrom(s: string, n: nat): (m: nat)
    requires n <= |s|
    ensures m <= n && (m > 0 ==> !IsSpace(s[m - 1]))
    ensures forall i :: m <= i < n ==> IsSpace(s[i])
  {
    if n == 0 || !IsSpace(s[n - 1]) then n else EndFrom(s, n - 1)
  }

  /** The position of the first byte from `i` on that is not white space. */
  function StartFrom(s: string, i: nat): (j: nat)
    requires i <= |s|
    ensures i <= j <= |s| && (j < |s| ==> !IsSpace(s[j]))
    ensures forall k :: i <= k < j ==> IsSpace(s[k])
    decreases |s| - i
  {
    if i == |s| || !IsSpace(s[i]) then i else StartFrom(s, i + 1)
  }

  function TrimEnd(s: string): string {
    s[..EndFrom(s, |s|)]
  }

  function TrimStart(s: string): string {
    s[StartFrom(s, 0)..]
  }

  function Trim(s: string): string {
    TrimStart(TrimEnd(s))
  }

  predicate Trimmed(s: string) {
    s != "" ==> !IsSpace(s[0]) && !IsSpace(s[|s| - 1])
  }

  predicate AllSpace(s: string) {
    forall i :: 0 <= i < |s| ==> IsSpace(s[i])
  }

  lemma {:induction false} EndFromUnique(s: string, m: nat)
    requires m <= |s| && (m > 0 ==> !IsSpace(s[m - 1]))
    requires AllSpace(s[m..])
    ensures EndFrom(s, |s|) == m
  {
    forall i | m <= i < |s| ensures IsSpace(s[i]) { assert s[i] == s[m..][i - m]; }
  }

  lemma {:induction false} StartFromUnique(s: string, j: nat)
    requires j <= |s| && (j < |s| ==> !IsSpace(s[j]))
    requires AllSpace(s[..j])
    ensures StartFrom(s, 0) == j
  {
    forall i | 0 <= i < j ensures IsSpace(s[i]) { assert s[i] == s[..j][i]; }
  }

  /** Cutting white space off both ends determines the result: whatever is left
      when `s` is white space around a trimmed core is that core. */
  lemma TrimUnique(before: string, core: string, after: string)
    requires AllSpace(before) && AllSpace(after) && Trimmed(core)
    ensures Trim(before + core + after) == core
  {
    var s := before + core + after;
    if core == "" {
      forall i | 0 <= i < |s| ensures IsSpace(s[i]) {
        if i < |before| { assert s[i] == before[i]; } else { assert s[i] == after[i - |before|]; }
      }
      EndFromUnique(s, 0);
      assert TrimEnd(s) == "";
    } else {
      var m := |before| + |core|;
      assert s[m - 1] == core[|core| - 1];
      assert s[m..] == after;
      EndFromUnique(s, m);
      var e := before + core;
      assert TrimEnd(s) == e;
      assert e[|before|] == core[0] && e[..|before|] == before;
      StartFromUnique(e, |before|);
      assert e[|before|..] == core;
    }
  }

  lemma TrimAfter(core: string, after: string)
    requires Trimmed(core) && AllSpace(after)
    ensures Trim(core + after) == core
  {
    assert "" + core + after == core + after;
    TrimUnique("", core, after);
  }

  /** A trimmed string is a factor of the original and is itself trimmed. */
  lemma TrimIs(s: string) returns (j: nat, m: nat)
    ensures j <= m <= |s| && Trim(s) == s[j..m]
    ensures j < m ==> !IsSpace(s[j]) && !IsSpace(s[m - 1])
    ensures forall i :: 0 <= i < j ==> IsSpace(s[i])
    ensures forall i :: m <= i < |s| ==> IsSpace(s[i])
  {
    m := EndFrom(s, |s|);
    var e := s[..m];
    j := StartFrom(e, 0);
    assert e[j..] == s[j..m];
  }

  lemma TrimSplits(s: string) returns (before: string, after: string)
    ensures s == before + Trim(s) + after
    ensures AllSpace(before) && AllSpace(after) && Trimmed(Trim(s))
  {
    var j, m := TrimIs(s);
    before, after := s[..j], s[m..];
    CutTwice(s, j, m);
  }

  lemma CutTwice(s: string, j: nat, m: nat)
    requires j <= m <= |s|
    ensures s == s[..j] + s[j..m] + s[m..]
  {
  }

  lemma TrimPadded(before: string, s: string, after: string)
    requires AllSpace(before) && AllSpace(after)
    ensures Trim(before + s + after) == Trim(s)
  {
    var b, a := TrimSplits(s);
    var t := Trim(s);
    assert before + (b + t + a) + after == (before + b) + t + (a + after);
    TrimUnique(before + b, t, a + after);
  }

  lemma TrimTrimmed(s: string)
    ensures Trimmed(Trim(s))
    ensures Trimmed(s) ==> Trim(s) == s
    ensures Trim(Trim(s)) == Trim(s)
  {
    var b, a := TrimSplits(s);
    TrimUnique("", Trim(s), "");
    assert "" + Trim(s) + "" == Trim(s);
    if Trimmed(s) {
      TrimUnique("", s, "");
      assert "" + s + "" == s;
    }
  }

  lemma TrimLfFree(s: string)
    requires LfFree(s)
    ensures LfFree(Trim(s))
  {
    var b, a := TrimSplits(s);
    LfFreeConcat(b + Trim(s), a);
    LfFreeConcat(b, Trim(s));
  }

  lemma TrimLine(s: string)
    ensures Trim(s + CRLF) == Trim(s)
  {
    TrimPadded("", s, CRLF);
    assert "" + s + CRLF == s + CRLF;
  }

  // ---------------------------------------------------------------- searching

  /** The position of the first `c`, or the length when there is none. */
  function IndexOf(s: string, c: char): (i: nat)
    ensures i <= |s|
    ensures forall k :: 0 <= k < i ==> s[k] != c
    ensures i < |s| ==> s[i] == c
  {
    if s == "" || s[0] == c then 0 else 1 + IndexOf(s[1..], c)
  }

  lemma {:induction false} IndexOfAt(a: string, c: char, b: string)
    requires c !in a
    ensures IndexOf(a + [c] + b, c) == |a|
  {
    var s := a + [c] + b;
    assert s[|a|] == c;
    forall k | 0 <= k < |a| ensures s[k] != c { assert s[k] == a[k]; }
  }

  lemma {:induction false} IndexOfAbsent(s: string, c: char)
    requires c !in s
    ensures IndexOf(s, c) == |s|
  {
  }

  /** The position of the last `c` before `n`, if any. */
  function LastBefore(s: string, c: char, n: nat): (r: Option<nat>)
    requires n <= |s|
    ensures r.Some? ==> r.value < n && s[r.value] == c && forall k :: r.value < k < n ==> s[k] != c
    ensures r.None? ==> forall k :: 0 <= k < n ==> s[k] != c
  {
    if n == 0 then None else if s[n - 1] == c then Some(n - 1) else LastBefore(s, c, n - 1)
  }

  function LastIndexOf(s: string, c: char): Option<nat> {
    LastBefore(s, c, |s|)
  }

  lemma LastIndexOfAt(a: string, c: char, b: string)
    requires c !in b
    ensures LastIndexOf(a + [c] + b, c) == Some(|a|)
  {
    var s := a + [c] + b;
    assert s[|a|] == c;
    forall k | |a| < k < |s| ensures s[k] != c { assert s[k] == b[k - |a| - 1]; }
  }

  predicate OccursAt(s: string, pat: string, i: nat) {
    i + |pat| <= |s| && s[i..i + |pat|] == pat
  }

  /** The position of the first occurrence of `pat`, if any. */
  function Find(s: string, pat: string): (r: Option<nat>)
    ensures r.Some? ==> OccursAt(s, pat, r.value) && forall j :: 0 <= j < r.value ==> !OccursAt(s, pat, j)
    ensures r.None? ==> forall j :: 0 <= j ==> !OccursAt(s, pat, j)
  {
    FindFrom(s, pat, 0)
  }

  function FindFrom(s: string, pat: string, i: nat): (r: Option<nat>)
    requires i <= |s|
    ensures r.Some? ==> i <= r.value && OccursAt(s, pat, r.value)
                        && forall j :: i <= j < r.value ==> !OccursAt(s, pat, j)
    ensures r.None? ==> forall j :: i <= j ==> !OccursAt(s, pat, j)
    decreases |s| - i
  {
    if OccursAt(s, pat, i) then Some(i)
    else if i == |s| then None
    else FindFrom(s, pat, i + 1)
  }

  lemma FindAt(s: string, pat: string, i: nat)
    requires OccursAt(s, pat, i) && forall j :: 0 <= j < i ==> !OccursAt(s, pat, j)
    ensures Find(s, pat) == Some(i)
  {
  }

  predicate EndsInCrlf(s: string) {
    |s| >= 2 && s[|s| - 2] == '\r' && s[|s| - 1] == '\n'
  }

  /** No line feed anywhere. */
  predicate LfFree(s: string) {
    forall i :: 0 <= i < |s| ==> s[i] != '\n'
  }

  predicate AllLfFree(lines: seq<string>) {
    forall i :: 0 <= i < |lines| ==> LfFree(lines[i])
  }

  lemma LfFreeConcat(a: string, b: string)
    ensures LfFree(a + b) <==> LfFree(a) && LfFree(b)
  {
    forall i | 0 <= i < |a| ensures a[i] == (a + b)[i] {}
    forall i | 0 <= i < |b| ensures b[i] == (a + b)[|a| + i] {}
  }

  // ---------------------------------------------------------------- case

  function Upper(c: char): char {
    if 'a' <= c <= 'z' then c - ('a' - 'A') else c
  }

  function Lower(c: char): char {
    if 'A' <= c <= 'Z' then c + ('a' - 'A') else c
  }

  /** White space is the space and the five control characters from tab to carriage return. */
  lemma SpacesAre(c: char)
    ensures IsSpace(c) <==> c as int == 32 || 9 <= c as int <= 13
  {
  }

  /** Case concerns the 26 letters of ASCII and nothing else. */
  lemma CasesAre(c: char)
    ensures Lower(c) as int == if 'A' <= c <= 'Z' then c as int + 32 else c as int
    ensures Upper(c) as int == if 'a' <= c <= 'z' then c as int - 32 else c as int
  {
  }

  /** Whether `s`, put in upper case, starts with `p`. */
  predicate StartsWithUpper(s: string, p: string) {
    |p| <= |s| && forall i :: 0 <= i < |p| ==> Upper(s[i]) == p[i]
  }

  function ToLower(s: string): (r: string) {
    seq(|s|, i requires 0 <= i < |s| => Lower(s[i]))
  }

  // ---------------------------------------------------------------- decimals

  predicate IsDigit(c: char) {
    '0' <= c <= '9'
  }

  predicate AllDigits(s: string) {
    forall i :: 0 <= i < |s| ==> IsDigit(s[i])
  }

  function DigitsValue(s: string): nat
    requires AllDigits(s)
  {
    if s == "" then 0 else 10 * DigitsValue(s[..|s| - 1]) + (s[|s| - 1] as int - '0' as int)
  }

  function ToDecimal(n: nat): (s: string)
    ensures s != "" && AllDigits(s)
    ensures DigitsValue(s) == n
  {
    var d := [('0' as int + n % 10) as char];
    assert DigitsValue(d) == n % 10 by { assert d[..|d| - 1] == ""; }
    if n < 10 then d
    else
      var s := ToDecimal(n / 10) + d;
      assert s[..|s| - 1] == ToDecimal(n / 10);
      s
  }

  /** Rust's `str::parse` for an unsigned integer type whose largest value is `max`:
      an optional plus sign, then at least one digit. */
  function ParseUnsigned(s: string, max: nat): Option<nat> {
    var digits := if s != "" && s[0] == '+' then s[1..] else s;
    if digits != "" && AllDigits(digits) && DigitsValue(digits) <= max then Some(DigitsValue(digits)) else None
  }

  lemma {:induction false} ParseDecimal(n: nat, max: nat)
    requires n <= max
    ensures ParseUnsigned(ToDecimal(n), max) == Some(n)
  {
    assert IsDigit(ToDecimal(n)[0]);
  }

  lemma {:induction false} DecimalIsToken(n: nat)
    ensures IsToken(ToDecimal(n)) && '\n' !in ToDecimal(n) && '\r' !in ToDecimal(n)
  {
    var s := ToDecimal(n);
    forall i | 0 <= i < |s| ensures !IsSpace(s[i]) { assert IsDigit(s[i]); }
  }

  /** Three digits are exactly the numbers from 100 to 999. */
  lemma {:induction false} ThreeDigits(n: nat)
    requires 100 <= n <= 999
    ensures |ToDecimal(n)| == 3
  {
    assert |ToDecimal(n / 100)| == 1;
    assert n / 10 / 10 == n / 100;
    assert |ToDecimal(n / 10)| == 2;
  }

  // ---------------------------------------------------------------- words

  function TokenEnd(s: string): (i: nat)
    ensures i <= |s|
    ensures forall j :: 0 <= j < i ==> !IsSpace(s[j])
    ensures i < |s| ==> IsSpace(s[i])
  {
    if s == "" || IsSpace(s[0]) then 0 else 1 + TokenEnd(s[1..])
  }

  /** Rust's `split_whitespace`. */
  function Words(s: string): (ws: seq<string>)
    ensures forall i :: 0 <= i < |ws| ==> IsToken(ws[i])
    decreases |s|
  {
    var t := TrimStart(s);
    if t == "" then []
    else
      var n := TokenEnd(t);
      assert IsToken(t[..n]);
      [t[..n]] + Words(t[n..])
  }

  function Join(ws: seq<string>, sep: string): string {
    if ws == [] then ""
    else if |ws| == 1 then ws[0]
    else ws[0] + sep + Join(ws[1..], sep)
  }

  lemma {:induction false} TokenEndAt(t: string, s: string)
    requires IsToken(t) && (s == "" || IsSpace(s[0]))
    ensures TokenEnd(t + s) == |t| && TrimStart(t + s) == t + s
  {
    forall j | 0 <= j < |t| ensures !IsSpace((t + s)[j]) { assert (t + s)[j] == t[j]; }
    if s != "" { assert (t + s)[|t|] == s[0]; }
  }

  /** Splitting at white space undoes joining tokens with single spaces. */
  lemma {:induction false} WordsJoin(ws: seq<string>)
    requires forall i :: 0 <= i < |ws| ==> IsToken(ws[i])
    ensures Words(Join(ws, " ")) == ws
  {
    if ws == [] {
    } else if |ws| == 1 {
      WordsCons(ws[0], "");
      assert ws[0] + "" == ws[0];
    } else {
      var rest := Join(ws[1..], " ");
      assert Join(ws, " ") == ws[0] + (" " + rest);
      WordsCons(ws[0], " " + rest);
      WordsJoin(ws[1..]);
      WordsSkipSpace(rest);
    }
  }

  lemma {:induction false} WordsCons(t: string, s: string)
    requires IsToken(t) && (s == "" || IsSpace(s[0]))
    ensures Words(t + s) == [t] + Words(s)
  {
    TokenEndAt(t, s);
    assert (t + s)[..|t|] == t && (t + s)[|t|..] == s;
  }

  lemma TrimStartSkip(s: string)
    ensures TrimStart(" " + s) == TrimStart(s)
  {
    var j := StartFrom(s, 0);
    var p := " " + s;
    var q := p[..j + 1];
    forall i | 0 <= i < |q| ensures IsSpace(q[i]) {
      if i > 0 { assert p[i] == s[i - 1]; }
    }
    assert j < |s| ==> p[j + 1] == s[j];
    StartFromUnique(p, j + 1);
    assert p[j + 1..] == s[j..];
  }

  lemma {:induction false} WordsOfStart(a: string, b: string)
    requires TrimStart(a) == TrimStart(b)
    ensures Words(a) == Words(b)
  {
  }

  lemma {:induction false} WordsSkipSpace(s: string)
    ensures Words(" " + s) == Words(s)
  {
    TrimStartSkip(s);
    WordsOfStart(" " + s, s);
  }

  lemma {:induction false} JoinTrimmed(ws: seq<string>)
    requires forall i :: 0 <= i < |ws| ==> IsToken(ws[i])
    ensures Trimmed(Join(ws, " "))
    ensures ws != [] ==> Join(ws, " ") != ""
  {
    if |ws| > 1 {
      JoinTrimmed(ws[1..]);
      var r := Join(ws[1..], " ");
      var s := Join(ws, " ");
      assert s[0] == ws[0][0];
      assert s[|s| - 1] == r[|r| - 1];
    }
  }

  // ---------------------------------------------------------------- lines

  function LineLength(s: string): (n: nat)
    requires s != ""
    ensures 0 < n <= |s|
  {
    var i := IndexOf(s, '\n');
    if i < |s| then i + 1 else i
  }

  /** The pieces of `s` that end in a line feed, and what follows the last one. */
  function Chunks(s: string): (r: seq<string>)
    decreases |s|
  {
    if s == "" then [] else [s[..LineLength(s)]] + Chunks(s[LineLength(s)..])
  }

  function Flatten(parts: seq<string>): string {
    if parts == [] then "" else parts[0] + Flatten(parts[1..])
  }

  predicate IsLine(s: string) {
    s != "" && s[|s| - 1] == '\n' && '\n' !in s[..|s| - 1]
  }

  predicate AllLines(ls: seq<string>) {
    forall i :: 0 <= i < |ls| ==> IsLine(ls[i])
  }

  lemma {:induction false} FlattenAppend(a: seq<string>, b: seq<string>)
    ensures Flatten(a + b) == Flatten(a) + Flatten(b)
  {
    if a == [] {
      assert a + b == b;
    } else {
      assert (a + b)[1..] == a[1..] + b;
      FlattenAppend(a[1..], b);
    }
  }

  lemma FlattenOne(s: string)
    ensures Flatten([s]) == s
  {
    assert [s][1..] == [];
  }

  lemma {:induction false} ChunksFlatten(s: string)
    ensures Flatten(Chunks(s)) == s
    decreases |s|
  {
    if s != "" {
      ChunksFlatten(s[LineLength(s)..]);
      assert Chunks(s)[1..] == Chunks(s[LineLength(s)..]);
    }
  }

  lemma {:induction false} ChunksCons(line: string, rest: string)
    requires IsLine(line)
    ensures Chunks(line + rest) == [line] + Chunks(rest)
  {
    var s := line + rest;
    var body := line[..|line| - 1];
    assert s == body + ['\n'] + rest;
    IndexOfAt(body, '\n', rest);
    assert s[..LineLength(s)] == line && s[LineLength(s)..] == rest;
  }

  lemma {:induction false} ChunksStep(line: string, ls: seq<string>, text: string, rest: string)
    requires IsLine(line) && Chunks(text + rest) == ls + Chunks(rest)
    ensures Chunks(line + text + rest) == [line] + ls + Chunks(rest)
  {
    assert line + text + rest == line + (text + rest);
    ChunksCons(line, text + rest);
    assert [line] + (ls + Chunks(rest)) == [line] + ls + Chunks(rest);
  }

  lemma {:induction false} ChunksOfLines(ls: seq<string>, rest: string)
    requires AllLines(ls)
    ensures Chunks(Flatten(ls) + rest) == ls + Chunks(rest)
  {
    if ls == [] {
      assert Flatten(ls) + rest == rest;
      assert ls + Chunks(rest) == Chunks(rest);
    } else {
      ChunksOfLines(ls[1..], rest);
      ChunksStep(ls[0], ls[1..], Flatten(ls[1..]), rest);
      assert ls == [ls[0]] + ls[1..];
    }
  }

  lemma FirstChunk(s: string)
    requires s != ""
    ensures var n := LineLength(s); IsLine(s[..n]) || (s[..n] == s && '\n' !in s)
  {
    var i := IndexOf(s, '\n');
    if i < |s| {
      assert s[..i + 1][..i] == s[..i];
    } else {
      assert s[..i] == s;
    }
  }

  /** Every piece but possibly the last is a full line. */
  lemma {:induction false} ChunksAreLines(s: string)
    ensures forall i :: 0 <= i < |Chunks(s)| ==> Chunks(s)[i] != ""
    ensures forall i :: 0 <= i < |Chunks(s)| - 1 ==> IsLine(Chunks(s)[i])
    ensures Chunks(s) != [] ==>
              var last := Chunks(s)[|Chunks(s)| - 1]; IsLine(last) || '\n' !in last
    decreases |s|
  {
    if s != "" {
      FirstChunk(s);
      ChunksAreLines(s[LineLength(s)..]);
    }
  }

  /** Rust's `str::lines` on one piece: drop the line feed and a carriage return before it. */
  function StripEol(chunk: string): string {
    if chunk != "" && chunk[|chunk| - 1] == '\n' then
      var t := chunk[..|chunk| - 1];
      if t != "" && t[|t| - 1] == '\r' then t[..|t| - 1] else t
    else chunk
  }

  function StripAll(chunks: seq<string>): (r: seq<string>)
    ensures |r| == |chunks|
    ensures forall i :: 0 <= i < |r| ==> r[i] == StripEol(chunks[i])
  {
    seq(|chunks|, i requires 0 <= i < |chunks| => StripEol(chunks[i]))
  }

  /** Rust's `str::lines`. */
  function Lines(s: string): seq<string> {
    StripAll(Chunks(s))
  }
}
