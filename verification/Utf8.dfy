/** Which bytes are text: UTF-8 (section 4 of RFC 3629), and what replaces the bytes that are not. */
module Utf8 {
  import opened Text

  /** A byte inside a character, not its first. */
  predicate IsTrailing(c: char) {
    0x80 <= c as int <= 0xBF
  }

  const REPLACEMENT := "\U{EF}\U{BF}\U{BD}"

  /** How many bytes the character that starts with `lead` has; 0 if none does. */
  function Width(lead: char): nat {
    var b := lead as int;
    if b < 0x80 then 1
    else if 0xC2 <= b <= 0xDF then 2
    else if 0xE0 <= b <= 0xEF then 3
    else if 0xF0 <= b <= 0xF4 then 4
    else 0
  }

  /** Some second bytes would make a number that is too long, a surrogate, or too large. */
  predicate SecondFits(lead: char, second: char) {
    var l, b := lead as int, second as int;
    if l == 0xE0 then 0xA0 <= b <= 0xBF
    else if l == 0xED then 0x80 <= b <= 0x9F
    else if l == 0xF0 then 0x90 <= b <= 0xBF
    else if l == 0xF4 then 0x80 <= b <= 0x8F
    else IsTrailing(second)
  }

  /** The length of the longest beginning of `s` that begins one character; at least 1. */
  function Taken(s: string): (n: nat)
    requires s != ""
    ensures 1 <= n <= |s| && n <= 4
  {
    var w := Width(s[0]);
    if w <= 1 || |s| < 2 || !SecondFits(s[0], s[1]) then 1
    else if w == 2 || |s| < 3 || !IsTrailing(s[2]) then 2
    else if w == 3 || |s| < 4 || !IsTrailing(s[3]) then 3
    else 4
  }

  /** The character `s` begins with is complete. */
  predicate Complete(s: string)
    requires s != ""
  {
    Taken(s) == Width(s[0])
  }

  predicate IsUtf8(s: string)
    decreases |s|
  {
    s == "" || (Complete(s) && IsUtf8(s[Taken(s)..]))
  }

  /** The first character, or its replacement. */
  function FirstDecoded(s: string): (r: string)
    requires s != ""
    ensures r != ""
  {
    if Complete(s) then s[..Taken(s)] else REPLACEMENT
  }

  /** Rust's `String::from_utf8_lossy`. */
  function Lossy(s: string): string
    decreases |s|
  {
    if s == "" then ""
    else FirstDecoded(s) + Lossy(s[Taken(s)..])
  }

  predicate IsAscii(c: char) {
    c as int < 0x80
  }

  /** Only the bytes of the first character matter. */
  lemma TakenSame(s: string, more: string)
    requires s != "" && (Taken(s) < |s| || more == "" || IsAscii(more[0]) || Complete(s))
    ensures Taken(s + more) == Taken(s) && (Complete(s + more) <==> Complete(s))
  {
    var t := s + more;
    assert t[0] == s[0];
    forall i | 0 <= i < |s| ensures t[i] == s[i] {}
    if more != "" { assert t[|s|] == more[0]; }
  }

  lemma {:induction false} LossyStep(c: string, rest: string)
    requires c != "" && Taken(c) == |c| && Complete(c)
    ensures Lossy(c + rest) == c + Lossy(rest)
  {
    TakenSame(c, rest);
    assert (c + rest)[..|c|] == c && (c + rest)[|c|..] == rest;
  }

  /** A byte of ASCII is a character wherever it stands, so decoding stops and starts anew at it. */
  lemma {:induction false} LossyAtAscii(a: string, c: char, b: string)
    requires IsAscii(c)
    ensures Lossy(a + [c] + b) == Lossy(a) + [c] + Lossy(b)
    decreases |a|
  {
    if a == "" {
      assert a + [c] + b == [c] + b;
      LossyStep([c], b);
    } else {
      var n := Taken(a);
      LossyCharacter(a, [c] + b);
      Regroup3(a, [c], b);
      Regroup3(a[n..], [c], b);
      LossyAtAscii(a[n..], c, b);
      Regroup(FirstDecoded(a), Lossy(a[n..]), [c], Lossy(b));
    }
  }

  lemma {:induction false} LossyCharacter(s: string, more: string)
    requires s != "" && (more == "" || IsAscii(more[0]))
    ensures Lossy(s + more) == FirstDecoded(s) + Lossy(s[Taken(s)..] + more)
  {
    var n := Taken(s);
    TakenSame(s, more);
    assert (s + more)[..n] == s[..n] && (s + more)[n..] == s[n..] + more;
  }

  lemma Regroup3(a: string, b: string, c: string)
    ensures a + (b + c) == a + b + c
  {
  }

  lemma Regroup(a: string, b: string, c: string, d: string)
    ensures a + (b + c + d) == (a + b) + c + d
  {
  }

  /** What is decoded is UTF-8 ... */
  lemma {:induction false} LossyIsUtf8(s: string)
    ensures IsUtf8(Lossy(s))
    decreases |s|
  {
    if s != "" {
      var rest := Lossy(s[Taken(s)..]);
      LossyIsUtf8(s[Taken(s)..]);
      var first := FirstDecoded(s);
      assert Taken(first) == |first| && Complete(first);
      TakenSame(first, rest);
      assert (first + rest)[|first|..] == rest;
    }
  }

  /** ... and decoding changes exactly what is not; it never shortens. */
  lemma {:induction false} LossyKeepsIff(s: string)
    ensures Lossy(s) == s <==> IsUtf8(s)
    ensures |Lossy(s)| >= |s|
    decreases |s|
  {
    if s != "" {
      var n := Taken(s);
      LossyKeepsIff(s[n..]);
      assert s == s[..n] + s[n..];
      if Complete(s) {
        assert Lossy(s)[n..] == Lossy(s[n..]);
      }
    }
  }

  /** So a byte of ASCII divides text into texts. */
  lemma {:induction false} Utf8AtAscii(a: string, c: char, b: string)
    requires IsAscii(c)
    ensures IsUtf8(a + [c] + b) <==> IsUtf8(a) && IsUtf8(b)
  {
    LossyAtAscii(a, c, b);
    LossyKeepsIff(a + [c] + b);
    LossyKeepsIff(a);
    LossyKeepsIff(b);
    SameParts(Lossy(a), Lossy(b), a, b, c);
  }

  lemma SameParts(a': string, b': string, a: string, b: string, c: char)
    requires |a'| >= |a| && |b'| >= |b|
    ensures a' + [c] + b' == a + [c] + b <==> a' == a && b' == b
  {
    var s, s' := a + [c] + b, a' + [c] + b';
    if s' == s {
      assert |a'| == |a|;
      assert s[..|a|] == a && s'[..|a|] == a' && s[|a| + 1..] == b && s'[|a| + 1..] == b';
    }
  }

  lemma {:induction false} Utf8Concat(a: string, b: string)
    requires IsUtf8(a)
    ensures IsUtf8(a + b) <==> IsUtf8(b)
    decreases |a|
  {
    if a == "" {
      assert a + b == b;
    } else {
      TakenSame(a, b);
      assert (a + b)[Taken(a)..] == a[Taken(a)..] + b;
      Utf8Concat(a[Taken(a)..], b);
    }
  }

  predicate AllAscii(s: string) {
    forall i :: 0 <= i < |s| ==> IsAscii(s[i])
  }

  lemma {:induction false} AsciiIsUtf8(s: string)
    requires AllAscii(s)
    ensures IsUtf8(s)
  {
    if s != "" { AsciiIsUtf8(s[1..]); }
  }

  lemma {:induction false} DecimalIsUtf8(n: nat)
    ensures IsUtf8(ToDecimal(n))
  {
    forall i | 0 <= i < |ToDecimal(n)| ensures IsAscii(ToDecimal(n)[i]) { assert IsDigit(ToDecimal(n)[i]); }
    AsciiIsUtf8(ToDecimal(n));
  }

  // ---------------------------------------------------------------- lines that can be read

  predicate AllUtf8(lines: seq<string>) {
    forall i :: 0 <= i < |lines| ==> IsUtf8(lines[i])
  }

  /** Reading lines as text stops at the first that is none. */
  function Readable(lines: seq<string>): (r: seq<string>)
    ensures |r| <= |lines| && r == lines[..|r|] && AllUtf8(r)
    ensures |r| < |lines| ==> !IsUtf8(lines[|r|])
  {
    if lines == [] || !IsUtf8(lines[0]) then [] else [lines[0]] + Readable(lines[1..])
  }

  lemma {:induction false} ReadableIs(lines: seq<string>, more: seq<string>)
    requires AllUtf8(lines) && (more == [] || !IsUtf8(more[0]))
    ensures Readable(lines + more) == lines
  {
    if lines == [] {
      assert lines + more == more;
    } else {
      assert (lines + more)[1..] == lines[1..] + more;
      ReadableIs(lines[1..], more);
    }
  }
}
