/** UTF-8 by its definition (section 3 of RFC 3629): the strings that are encodings of characters. */
module Utf8Laws {
  import opened Utf8

  /** Unicode's characters: no surrogates, nothing beyond 10FFFF. */
  predicate IsScalar(c: nat) {
    c <= 0x10FFFF && !(0xD800 <= c <= 0xDFFF)
  }

  function Byte(b: nat): char
    requires b < 0x100
  {
    b as char
  }

  /** The bytes of one character: its bits, six to each byte but the first. */
  function Encode(c: nat): (s: string)
    requires IsScalar(c)
    ensures 1 <= |s| <= 4
  {
    if c < 0x80 then [Byte(c)]
    else if c < 0x800 then [Byte(0xC0 + c / 0x40), Byte(0x80 + c % 0x40)]
    else if c < 0x10000 then [Byte(0xE0 + c / 0x1000), Byte(0x80 + c / 0x40 % 0x40), Byte(0x80 + c % 0x40)]
    else [Byte(0xF0 + c / 0x40000), Byte(0x80 + c / 0x1000 % 0x40), Byte(0x80 + c / 0x40 % 0x40), Byte(0x80 + c % 0x40)]
  }

  predicate AllScalar(cs: seq<nat>) {
    forall i :: 0 <= i < |cs| ==> IsScalar(cs[i])
  }

  function EncodeAll(cs: seq<nat>): string
    requires AllScalar(cs)
  {
    if cs == [] then "" else Encode(cs[0]) + EncodeAll(cs[1..])
  }

  lemma EncodedIsComplete(c: nat)
    requires IsScalar(c)
    ensures Taken(Encode(c)) == |Encode(c)| && Complete(Encode(c))
  {
    var e := Encode(c);
    if c < 0x80 {
    } else if c < 0x800 {
      assert Width(e[0]) == 2 && SecondFits(e[0], e[1]);
    } else if c < 0x10000 {
      assert Width(e[0]) == 3 && IsTrailing(e[1]) && IsTrailing(e[2]);
      ThreeFit(c);
    } else {
      assert Width(e[0]) == 4 && IsTrailing(e[1]) && IsTrailing(e[2]) && IsTrailing(e[3]);
      FourFit(c);
    }
  }

  lemma ThreeFit(c: nat)
    requires IsScalar(c) && 0x800 <= c < 0x10000
    ensures SecondFits(Encode(c)[0], Encode(c)[1])
  {
  }

  lemma FourFit(c: nat)
    requires IsScalar(c) && 0x10000 <= c
    ensures SecondFits(Encode(c)[0], Encode(c)[1])
  {
  }

  function Bits(b: char): nat
    requires IsTrailing(b)
  {
    b as nat - 0x80
  }

  /** The character some complete bytes encode. */
  lemma Decoded(s: string) returns (c: nat)
    requires s != "" && Complete(s)
    ensures IsScalar(c) && Encode(c) == s[..Taken(s)]
  {
    var b := s[0] as nat;
    if b < 0x80 {
      c := b;
    } else if b < 0xE0 {
      c := (b - 0xC0) * 0x40 + Bits(s[1]);
      TwoBytes(c, b - 0xC0, Bits(s[1]));
    } else if b < 0xF0 {
      c := (b - 0xE0) * 0x1000 + Bits(s[1]) * 0x40 + Bits(s[2]);
      ThreeBytes(c, b - 0xE0, Bits(s[1]), Bits(s[2]));
    } else {
      c := (b - 0xF0) * 0x40000 + Bits(s[1]) * 0x1000 + Bits(s[2]) * 0x40 + Bits(s[3]);
      FourBytes(c, b - 0xF0, Bits(s[1]), Bits(s[2]), Bits(s[3]));
    }
  }

  lemma TwoBytes(c: nat, x: nat, y: nat)
    requires c == x * 0x40 + y && y < 0x40
    ensures c / 0x40 == x && c % 0x40 == y
  {
  }

  lemma ThreeBytes(c: nat, x: nat, y: nat, z: nat)
    requires c == x * 0x1000 + y * 0x40 + z && y < 0x40 && z < 0x40
    ensures c / 0x1000 == x && c / 0x40 % 0x40 == y && c % 0x40 == z
  {
    TwoBytes(c, x * 0x40 + y, z);
    TwoBytes(x * 0x40 + y, x, y);
  }

  lemma FourBytes(c: nat, w: nat, x: nat, y: nat, z: nat)
    requires c == w * 0x40000 + x * 0x1000 + y * 0x40 + z && x < 0x40 && y < 0x40 && z < 0x40
    ensures c / 0x40000 == w && c / 0x1000 % 0x40 == x && c / 0x40 % 0x40 == y && c % 0x40 == z
  {
    TwoBytes(c, w * 0x1000 + x * 0x40 + y, z);
    TwoBytes(w * 0x1000 + x * 0x40 + y, w * 0x40 + x, y);
    TwoBytes(w * 0x40 + x, w, x);
  }

  lemma {:induction false} EncodedIsUtf8(cs: seq<nat>)
    requires AllScalar(cs)
    ensures IsUtf8(EncodeAll(cs))
  {
    if cs != [] {
      EncodedIsUtf8(cs[1..]);
      EncodedIsComplete(cs[0]);
      TakenSame(Encode(cs[0]), EncodeAll(cs[1..]));
      assert (Encode(cs[0]) + EncodeAll(cs[1..]))[|Encode(cs[0])|..] == EncodeAll(cs[1..]);
    }
  }

  lemma {:induction false} Utf8IsEncoded(s: string) returns (cs: seq<nat>)
    requires IsUtf8(s)
    ensures AllScalar(cs) && s == EncodeAll(cs)
    decreases |s|
  {
    if s == "" {
      cs := [];
    } else {
      var c, n := FirstCharacter(s);
      var rest := Utf8IsEncoded(s[n..]);
      cs := [c] + rest;
      EncodedCons(c, rest);
      assert s == s[..n] + s[n..];
    }
  }

  lemma FirstCharacter(s: string) returns (c: nat, n: nat)
    requires s != "" && IsUtf8(s)
    ensures IsScalar(c) && 0 < n <= |s| && Encode(c) == s[..n] && IsUtf8(s[n..])
  {
    c := Decoded(s);
    n := Taken(s);
  }

  lemma {:induction false} EncodedCons(c: nat, cs: seq<nat>)
    requires IsScalar(c) && AllScalar(cs)
    ensures AllScalar([c] + cs) && EncodeAll([c] + cs) == Encode(c) + EncodeAll(cs)
  {
    assert ([c] + cs)[1..] == cs;
  }

  predicate Encodes(cs: seq<nat>, s: string) {
    AllScalar(cs) && EncodeAll(cs) == s
  }

  /** The strings the decoder leaves alone are exactly the encodings. */
  lemma {:induction false} IsUtf8Iff(s: string)
    ensures IsUtf8(s) <==> exists cs :: Encodes(cs, s)
    ensures IsUtf8(s) <==> Lossy(s) == s
  {
    LossyKeepsIff(s);
    if IsUtf8(s) {
      var cs := Utf8IsEncoded(s);
      assert Encodes(cs, s);
    }
    if cs :| Encodes(cs, s) { EncodedIsUtf8(cs); }
  }

  // ---------------------------------------------------------------- how much is replaced

  /** Some character's bytes begin like this. */
  ghost predicate BeginsSome(s: string) {
    exists c :: IsScalar(c) && s <= Encode(c)
  }

  lemma {:induction false} NoneLonger(s: string, m: nat, c: nat)
    requires s != "" && !Complete(s) && Taken(s) < m <= |s| && IsScalar(c)
    ensures !(s[..m] <= Encode(c))
  {
    if s[..m] <= Encode(c) {
      var e := Encode(c);
      EncodedIsComplete(c);
      forall i | 0 <= i < m ensures e[i] == s[i] { assert s[..m][i] == s[i]; }
    }
  }

  /** `s`, cut where its first character breaks off, and filled up to a character. */
  function Filled(s: string): string
    requires s != "" && !Complete(s)
  {
    var n := Taken(s);
    if Width(s[0]) == 3 then s[..n] + "\U{80}" else if n == 2 then s[..n] + "\U{80}\U{80}" else s[..n] + "\U{80}"
  }

  lemma FilledIsComplete(s: string)
    requires s != "" && !Complete(s) && Taken(s) > 1
    ensures Filled(s) != "" && Complete(Filled(s)) && Taken(Filled(s)) == |Filled(s)| && s[..Taken(s)] <= Filled(s)
  {
    var n, t := Taken(s), Filled(s);
    forall i | 0 <= i < n ensures t[i] == s[i] {}
  }

  /** Where no character is complete, one replacement stands for the longest run of bytes that begins some
      character, or, if there is none, for one byte. */
  lemma {:induction false} ReplacedIs(s: string)
    requires s != "" && !Complete(s)
    ensures Lossy(s) == Encode(0xFFFD) + Lossy(s[Taken(s)..])
    ensures Taken(s) == 1 || BeginsSome(s[..Taken(s)])
    ensures forall m :: Taken(s) < m <= |s| ==> !BeginsSome(s[..m])
  {
    if Taken(s) > 1 {
      FilledIsComplete(s);
      var c := Decoded(Filled(s));
      assert Filled(s)[..Taken(Filled(s))] == Filled(s);
      assert s[..Taken(s)] <= Encode(c);
    }
    forall m | Taken(s) < m <= |s| ensures !BeginsSome(s[..m]) {
      forall c | IsScalar(c) ensures !(s[..m] <= Encode(c)) { NoneLonger(s, m, c); }
    }
  }
}
