/** SPF network matching: bit masks over address segments against arithmetic on whole addresses
    (section 5.6 of RFC 7208). */
module Cidr {
  import opened Text

  function Pow2(n: nat): (p: nat)
    ensures p > 0
  {
    if n == 0 then 1 else 2 * Pow2(n - 1)
  }

  // ---------------------------------------------------------------- bits

  /** Bitwise and. */
  function And(a: nat, b: nat): nat {
    if a == 0 || b == 0 then 0 else 2 * And(a / 2, b / 2) + (a % 2) * (b % 2)
  }

  /** All ones in `width` bits, shifted left: the last `shift` bits are zero. */
  function HighMask(width: nat, shift: nat): nat
    requires shift <= width
  {
    (Pow2(width - shift) - 1) * Pow2(shift)
  }

  lemma {:induction false} AndOnes(a: nat, width: nat)
    requires a < Pow2(width)
    ensures And(a, Pow2(width) - 1) == a
  {
    if a > 0 {
      var ones := Pow2(width) - 1;
      assert ones / 2 == Pow2(width - 1) - 1 && ones % 2 == 1;
      AndOnes(a / 2, width - 1);
    }
  }

  lemma {:induction false} AndEven(a: nat, m: nat)
    ensures And(a, 2 * m) == 2 * And(a / 2, m)
  {
    assert (2 * m) / 2 == m && (2 * m) % 2 == 0;
  }

  /** Masking is dropping the low bits. */
  lemma {:induction false} AndHighMask(a: nat, width: nat, shift: nat)
    requires shift <= width && a < Pow2(width)
    ensures And(a, HighMask(width, shift)) == a / Pow2(shift) * Pow2(shift)
  {
    if shift == 0 {
      AndOnes(a, width);
    } else {
      HighMaskDoubles(width, shift);
      AndEven(a, HighMask(width - 1, shift - 1));
      AndHighMask(a / 2, width - 1, shift - 1);
      HalfMasked(a, shift);
    }
  }

  lemma HighMaskDoubles(width: nat, shift: nat)
    requires 0 < shift <= width
    ensures HighMask(width, shift) == 2 * HighMask(width - 1, shift - 1)
  {
    Doubled(Pow2(width - shift) - 1, Pow2(shift - 1));
  }

  lemma HalfMasked(a: nat, shift: nat)
    requires 0 < shift
    ensures 2 * (a / 2 / Pow2(shift - 1) * Pow2(shift - 1)) == a / Pow2(shift) * Pow2(shift)
  {
    DivTwice(a, 2, Pow2(shift - 1));
    Doubled(a / Pow2(shift), Pow2(shift - 1));
  }

  lemma Doubled(a: nat, b: nat)
    ensures a * (2 * b) == 2 * (a * b)
  {
  }

  // ---------------------------------------------------------------- division

  lemma QuotientIs(a: nat, d: nat, q: nat, r: nat)
    requires a == q * d + r && r < d
    ensures a / d == q && a % d == r
  {
    var q', r' := a / d, a % d;
    assert q' * d + r' == a;
    if q' < q {
      MulLe(q' + 1, q, d);
      assert false;
    } else if q < q' {
      MulLe(q + 1, q', d);
      assert false;
    }
  }

  lemma MulLe(a: nat, b: nat, d: nat)
    requires a <= b
    ensures a * d <= b * d
  {
  }

  lemma QuotientTwice(b: nat, c: nat, s: nat, t: nat, r: nat)
    requires r < b && t < c
    ensures b * c > 0 && ((s * c + t) * b + r) / (b * c) == s
  {
    Distribute(s, c, t, b);
    MulLe(t + 1, c, b);
    Distribute(t, 1, 1, b);
    QuotientIs((s * c + t) * b + r, b * c, s, t * b + r);
  }

  lemma DivTwice(a: nat, b: nat, c: nat)
    requires b > 0 && c > 0
    ensures b * c > 0 && a / b / c == a / (b * c)
  {
    var q, r := a / b, a % b;
    var s, t := q / c, q % c;
    assert a == q * b + r && q == s * c + t;
    QuotientTwice(b, c, s, t, r);
  }

  lemma Distribute(s: nat, c: nat, t: nat, b: nat)
    ensures (s * c + t) * b == s * (b * c) + t * b && s * (b * c) == s * c * b
  {
  }

  lemma {:induction false} Pow2Add(a: nat, b: nat)
    ensures Pow2(a + b) == Pow2(a) * Pow2(b)
  {
    if a > 0 {
      Pow2Add(a - 1, b);
      Twice(Pow2(a - 1), Pow2(b));
      assert a + b - 1 == a - 1 + b;
    }
  }

  lemma Twice(x: nat, y: nat)
    ensures 2 * (x * y) == (2 * x) * y
  {
  }

  // ---------------------------------------------------------------- prefixes

  /** The first `cidr` of `width` bits. */
  function Prefix(address: nat, width: nat, cidr: nat): int
    requires cidr <= width
  {
    address / Pow2(width - cidr)
  }

  predicate SamePrefix(a: nat, b: nat, width: nat, cidr: nat)
    requires cidr <= width
  {
    Prefix(a, width, cidr) == Prefix(b, width, cidr)
  }

  /** A longer common prefix implies every shorter one. */
  lemma PrefixShorter(a: nat, b: nat, width: nat, longer: nat, shorter: nat)
    requires shorter <= longer <= width && SamePrefix(a, b, width, longer)
    ensures SamePrefix(a, b, width, shorter)
  {
    var cut := Pow2(width - longer);
    Pow2Add(width - longer, longer - shorter);
    DivTwice(a, cut, Pow2(longer - shorter));
    DivTwice(b, cut, Pow2(longer - shorter));
  }

  lemma {:induction false} MaskedEqual(a: nat, b: nat, width: nat, shift: nat)
    requires shift <= width && a < Pow2(width) && b < Pow2(width)
    ensures And(a, HighMask(width, shift)) == And(b, HighMask(width, shift)) <==> a / Pow2(shift) == b / Pow2(shift)
  {
    AndHighMask(a, width, shift);
    AndHighMask(b, width, shift);
    TimesInjective(a / Pow2(shift), b / Pow2(shift), Pow2(shift));
  }

  lemma TimesInjective(p: int, q: int, d: nat)
    requires d > 0
    ensures p * d == q * d <==> p == q
  {
    if p * d == q * d {
      assert (p - q) * d == 0;
    }
  }

  // ---------------------------------------------------------------- IPv4

  type Ipv4 = a: nat | a < 0x1_0000_0000

  /** Prefix lengths over 32 overflow in the subtraction. */
  function IpInCidr4(ip: Ipv4, network: Ipv4, cidr: nat): Option<bool> {
    if cidr > 32 then None
    else
      var mask := if cidr == 0 then 0 else HighMask(32, 32 - cidr);
      Some(And(ip, mask) == And(network, mask))
  }

  lemma TwoTo32()
    ensures Pow2(32) == 0x1_0000_0000
  {
    TwoTo16();
    Pow2Add(16, 16);
  }

  lemma DivAll(a: nat, d: nat)
    requires a < d
    ensures a / d == 0
  {
    QuotientIs(a, d, 0, a);
  }

  /** The mask test compares exactly the first `cidr` bits. */
  lemma Cidr4IsPrefix(ip: Ipv4, network: Ipv4, cidr: nat)
    ensures IpInCidr4(ip, network, cidr) == if cidr <= 32 then Some(SamePrefix(ip, network, 32, cidr)) else None
  {
    TwoTo32();
    if cidr == 0 {
      DivAll(ip, Pow2(32));
      DivAll(network, Pow2(32));
    } else if cidr <= 32 {
      MaskedEqual(ip, network, 32, 32 - cidr);
    }
  }

  // ---------------------------------------------------------------- IPv6

  const SEGMENT: nat := 0x1_0000

  predicate IsIpv6(s: seq<nat>) {
    |s| == 8 && forall i :: 0 <= i < 8 ==> s[i] < SEGMENT
  }

  type Segments = s: seq<nat> | IsIpv6(s) witness [0, 0, 0, 0, 0, 0, 0, 0]

  /** The first `n` segments as one number, the first segment the most significant. */
  function Number(s: Segments, n: nat): nat
    requires n <= 8
  {
    if n == 0 then 0 else Number(s, n - 1) * SEGMENT + s[n - 1]
  }

  /** The whole address. */
  function Address(s: Segments): nat {
    Number(s, 8)
  }

  /** Segment by segment, with a mask for a partial one.  Indexing fails beyond the last segment. */
  method IpInCidr6(ip: Segments, network: Segments, cidr: nat) returns (r: Option<bool>)
    ensures r == if cidr >= 144 && ip == network then None
                 else Some(SamePrefix(Address(ip), Address(network), 128, if cidr <= 128 then cidr else 128))
  {
    var full, remaining := cidr / 16, cidr % 16;
    var i := 0;
    while i < full
      invariant 0 <= i <= full && i <= 8
      invariant ip[..i] == network[..i]
    {
      if i >= 8 {
        assert ip[..8] == ip && network[..8] == network;
        return None;
      }
      if ip[i] != network[i] {
        DifferentSegment(ip, network, i, cidr);
        return Some(false);
      }
      i := i + 1;
    }
    if remaining > 0 && full < 8 {
      var mask := HighMask(16, 16 - remaining);
      PartialSegment(ip, network, full, remaining);
      if And(ip[full], mask) != And(network[full], mask) {
        return Some(false);
      }
    } else {
      WholeSegments(ip, network, full);
    }
    r := Some(true);
  }

  lemma TwoTo16()
    ensures Pow2(16) == SEGMENT
  {
    assert Pow2(2) == 4 && Pow2(4) == 16;
    Pow2Add(4, 4);
    Pow2Add(8, 8);
  }

  lemma {:induction false} NumberInjective(a: Segments, b: Segments, n: nat)
    requires n <= 8
    ensures Number(a, n) == Number(b, n) <==> a[..n] == b[..n]
  {
    if n > 0 {
      NumberInjective(a, b, n - 1);
      QuotientIs(Number(a, n), SEGMENT, Number(a, n - 1), a[n - 1]);
      QuotientIs(Number(b, n), SEGMENT, Number(b, n - 1), b[n - 1]);
      assert a[..n] == a[..n - 1] + [a[n - 1]] && b[..n] == b[..n - 1] + [b[n - 1]];
    }
  }

  /** Dropping whole segments. */
  lemma {:induction false} NumberCut(s: Segments, n: nat, m: nat)
    requires n + m <= 8
    ensures Number(s, n + m) / Pow2(16 * m) == Number(s, n)
    decreases m
  {
    if m > 0 {
      NumberCut(s, n, m - 1);
      TwoTo16();
      QuotientIs(Number(s, n + m), SEGMENT, Number(s, n + m - 1), s[n + m - 1]);
      DivTwice(Number(s, n + m), SEGMENT, Pow2(16 * (m - 1)));
      Pow2Add(16, 16 * (m - 1));
    }
  }

  lemma {:induction false} CutSegments(s: Segments, n: nat)
    requires n <= 8
    ensures Prefix(Address(s), 128, 16 * n) == Number(s, n)
  {
    NumberCut(s, n, 8 - n);
    assert 16 * (8 - n) == 128 - 16 * n;
  }

  /** The first `n` segments and `r` bits of the next. */
  lemma CutInside(s: Segments, n: nat, r: nat)
    requires n < 8 && 0 < r < 16
    ensures Prefix(Address(s), 128, 16 * n + r) == Number(s, n) * Pow2(r) + s[n] / Pow2(16 - r)
    ensures s[n] / Pow2(16 - r) < Pow2(r)
  {
    var cut := Pow2(16 - r);
    CutSegments(s, n + 1);
    Pow2Add(16 * (7 - n), 16 - r);
    assert 128 - 16 * (n + 1) == 16 * (7 - n) && 128 - (16 * n + r) == 16 * (7 - n) + (16 - r);
    DivTwice(Address(s), Pow2(16 * (7 - n)), cut);
    assert Prefix(Address(s), 128, 16 * n + r) == Number(s, n + 1) / cut;
    TwoTo16();
    Pow2Add(r, 16 - r);
    SplitQuotient(Number(s, n), s[n], Pow2(r), cut);
  }

  lemma SplitQuotient(high: nat, low: nat, p: nat, cut: nat)
    requires p > 0 && cut > 0 && low < p * cut
    ensures (high * (p * cut) + low) / cut == high * p + low / cut && low / cut < p
  {
    var q, r := low / cut, low % cut;
    assert low == q * cut + r;
    Distribute(high, p, q, cut);
    QuotientIs(high * (p * cut) + low, cut, high * p + q, r);
    if q >= p { MulLe(p, q, cut); assert false; }
  }

  lemma WholeSegments(a: Segments, b: Segments, full: nat)
    requires a[..if full <= 8 then full else 8] == b[..if full <= 8 then full else 8]
    ensures SamePrefix(Address(a), Address(b), 128, if full <= 8 then 16 * full else 128)
  {
    var n := if full <= 8 then full else 8;
    CutSegments(a, n);
    CutSegments(b, n);
    NumberInjective(a, b, n);
  }

  /** With the whole segments equal, the masked segment decides. */
  lemma PartialSegment(a: Segments, b: Segments, n: nat, r: nat)
    requires n < 8 && 0 < r < 16 && a[..n] == b[..n]
    ensures And(a[n], HighMask(16, 16 - r)) == And(b[n], HighMask(16, 16 - r))
            <==> SamePrefix(Address(a), Address(b), 128, 16 * n + r)
  {
    TwoTo16();
    MaskedEqual(a[n], b[n], 16, 16 - r);
    CutInside(a, n, r);
    CutInside(b, n, r);
    NumberInjective(a, b, n);
  }

  lemma DifferentSegment(a: Segments, b: Segments, i: nat, cidr: nat)
    requires i < 8 && i < cidr / 16 && a[i] != b[i]
    ensures !SamePrefix(Address(a), Address(b), 128, if cidr <= 128 then cidr else 128)
  {
    var all := if cidr <= 128 then cidr else 128;
    CutSegments(a, i + 1);
    CutSegments(b, i + 1);
    NumberInjective(a, b, i + 1);
    assert a[..i + 1][i] == a[i] && b[..i + 1][i] == b[i];
    if SamePrefix(Address(a), Address(b), 128, all) {
      PrefixShorter(Address(a), Address(b), 128, all, 16 * (i + 1));
      assert false;
    }
  }
}
