/**
  Which corruptions of a StrKey its checksum always notices. The checksum travels low
  byte first, so bursts that straddle the end of the body do not enjoy the 16-bit
  guarantee of the plain cyclic code; twelve bits is what is left.
 */
module Crc16Bursts {
  import opened JsBits
  import opened Crc16

  /** A body followed by its checksum, low byte first. */
  ghost predicate Codeword(f: seq<bool>) {
    |f| >= 16 && Crc(f[..|f| - 16]) == FromBits(f[|f| - 8..] + f[|f| - 16..|f| - 8])
  }

  /** f and g differ at most at the positions from a up to a + w. */
  ghost predicate DifferWithin(f: seq<bool>, g: seq<bool>, a: nat, w: nat) {
    |f| == |g| && forall i :: 0 <= i < |f| && !(a <= i < a + w) ==> f[i] == g[i]
  }

  function XorBitstrings(a: seq<bool>, b: seq<bool>): (c: seq<bool>)
    requires |a| == |b|
    ensures |c| == |a| && forall i :: 0 <= i < |a| ==> c[i] == (a[i] != b[i])
  {
    seq(|a|, i requires 0 <= i < |a| => a[i] != b[i])
  }

  /** Feeding more message bits to a checksum polynomial. */
  ghost function Run(p: Poly, bits: seq<bool>): Poly
    decreases |bits|
  {
    if bits == [] then p else Run(Plus(TimesX(p), Generator(bits[0])), bits[1..])
  }

  lemma {:induction false} CrcRun(prefix: seq<bool>, bits: seq<bool>)
    ensures Crc(prefix + bits) == Run(Crc(prefix), bits)
    decreases |bits|
  {
    hide Crc, Plus, TimesX, Generator;
    if bits == [] {
      assert prefix + bits == prefix;
    } else {
      CrcSnoc(prefix, bits[0]);
      CrcRun(prefix + [bits[0]], bits[1..]);
      assert prefix + bits == prefix + [bits[0]] + bits[1..];
    }
  }

  lemma {:induction false} RunInjective(p: Poly, q: Poly, bits: seq<bool>)
    requires Run(p, bits) == Run(q, bits)
    ensures p == q
    decreases |bits|
  {
    hide Plus, TimesX, Generator;
    if bits != [] {
      var g := Generator(bits[0]);
      RunInjective(Plus(TimesX(p), g), Plus(TimesX(q), g), bits[1..]);
      Cancel(TimesX(p), TimesX(q), g);
      TimesXInjective(p, q);
    }
  }

  lemma Cancel(p: Poly, q: Poly, r: Poly)
    requires Plus(p, r) == Plus(q, r)
    ensures p == q
  {
  }

  lemma {:induction false} RunPlus(p: Poly, q: Poly, a: seq<bool>, b: seq<bool>)
    requires |a| == |b|
    ensures Run(Plus(p, q), XorBitstrings(a, b)) == Plus(Run(p, a), Run(q, b))
    decreases |a|
  {
    hide Plus, TimesX, Generator, XorBitstrings;
    if a != [] {
      TimesXPlus(p, q);
      GeneratorPlus(a[0], b[0]);
      PlusSwap(TimesX(p), TimesX(q), Generator(a[0]), Generator(b[0]));
      XorTail(a, b);
      RunPlus(Plus(TimesX(p), Generator(a[0])), Plus(TimesX(q), Generator(b[0])), a[1..], b[1..]);
    }
  }

  lemma XorTail(a: seq<bool>, b: seq<bool>)
    requires |a| == |b| > 0
    ensures XorBitstrings(a, b)[0] == (a[0] != b[0])
    ensures XorBitstrings(a, b)[1..] == XorBitstrings(a[1..], b[1..])
  {
  }

  lemma GeneratorPlus(b: bool, c: bool)
    ensures Generator(b != c) == Plus(Generator(b), Generator(c))
  {
  }

  /** A short message is its own remainder. */
  lemma {:induction false} RemainderShort(bits: seq<bool>)
    requires |bits| <= 16
    ensures Remainder(bits) == FromBits(Zeros(16 - |bits|) + bits)
  {
    hide TimesX, Plus, Generator;
    if bits != [] {
      var init, last := bits[..|bits| - 1], bits[|bits| - 1];
      RemainderShort(init);
      var r := Zeros(17 - |bits|) + init;
      assert r[1..] + [last] == Zeros(16 - |bits|) + bits;
      AppendBit(r, last);
    }
  }

  lemma AppendBit(r: seq<bool>, b: bool)
    requires |r| == 16 && !r[0]
    ensures Plus(TimesX(FromBits(r)), Constant(b)) == FromBits(r[1..] + [b])
  {
    hide Plus;
    var s := r[1..] + [b];
    assert forall i :: 0 <= i < 15 ==> s[i] == r[i + 1];
    AppendConstant(TimesX(FromBits(r)), b);
  }

  lemma AppendConstant(p: Poly, b: bool)
    requires !p.c0
    ensures Plus(p, Constant(b)) == p.(c0 := b)
  {
  }

  /** The checksum difference two message tails cause, whatever came before them, is the checksum of their difference. */
  lemma TailDifference(prefix: seq<bool>, a: seq<bool>, b: seq<bool>)
    requires |a| == |b|
    ensures Plus(Crc(prefix + a), Crc(prefix + b)) == Crc(XorBitstrings(a, b))
  {
    hide Crc, Plus, TimesX, Generator, Run, XorBitstrings;
    var c, d := Crc(prefix), XorBitstrings(a, b);
    CrcRun(prefix, a);
    CrcRun(prefix, b);
    RunPlus(c, c, a, b);
    PlusZero(c, c);
    CrcEmpty();
    assert [] + d == d;
    CrcRun([], d);
  }

  /** A short message is moved up by n places as it stands; for n = 16 this is its checksum. */
  lemma RemainderShifted(d: seq<bool>, n: nat)
    requires |d| <= 16
    ensures Remainder(d + Zeros(n)) == Shifted(FromBits(Zeros(16 - |d|) + d), n)
  {
    hide Shifted, FromBits, TimesX, Plus;
    RemainderZeros(d, n);
    RemainderShort(d);
  }

  /** Only zeros have no checksum. */
  lemma CrcZero(d: seq<bool>)
    requires |d| <= 16 && Crc(d) == Constant(false)
    ensures forall i :: 0 <= i < |d| ==> !d[i]
  {
    hide Shifted, FromBits, TimesX, Plus, Remainder;
    RemainderShifted(d, 16);
    ConstantZeroShifted();
    ShiftedInjective(FromBits(Zeros(16 - |d|) + d), Constant(false), 16);
    AllZero(d);
  }

  lemma CrcEmpty()
    ensures Crc([]) == Constant(false)
  {
    hide Shifted;
    assert [] + Zeros(16) == Zeros(16);
    RemainderZeros([], 16);
    ConstantShifted(false);
  }

  lemma AllZero(d: seq<bool>)
    requires |d| <= 16 && FromBits(Zeros(16 - |d|) + d) == Constant(false)
    ensures forall i :: 0 <= i < |d| ==> !d[i]
  {
    var z := Zeros(16 - |d|) + d;
    forall i | 0 <= i < |d| ensures !d[i] {
      assert d[i] == z[16 - |d| + i];
    }
  }

  /** Messages that differ within 16 consecutive bits have different checksums. */
  lemma BodyBurst(prefix: seq<bool>, a: seq<bool>, b: seq<bool>, suffix: seq<bool>)
    requires |a| == |b| <= 16
    requires Crc(prefix + a + suffix) == Crc(prefix + b + suffix)
    ensures a == b
  {
    hide Crc, Plus, XorBitstrings;
    CrcRun(prefix + a, suffix);
    CrcRun(prefix + b, suffix);
    RunInjective(Crc(prefix + a), Crc(prefix + b), suffix);
    var d := XorBitstrings(a, b);
    TailDifference(prefix, a, b);
    PlusZero(Crc(prefix + a), Crc(prefix + b));
    CrcZero(d);
  }

  lemma ConstantZeroShifted()
    ensures Shifted(Constant(false), 16) == Constant(false)
  {
    hide Shifted;
    ConstantShifted(false);
  }

  // ---------------------------------------------------------------------------
  // Bursts across the end of the body
  // ---------------------------------------------------------------------------

  /** p has degree below i, for i up to 11. */
  ghost predicate DegreeBelow(p: Poly, i: nat) {
    && !p.c15 && !p.c14 && !p.c13 && !p.c12 && !p.c11
    && (i <= 10 ==> !p.c10) && (i <= 9 ==> !p.c9) && (i <= 8 ==> !p.c8) && (i <= 7 ==> !p.c7)
    && (i <= 6 ==> !p.c6) && (i <= 5 ==> !p.c5) && (i <= 4 ==> !p.c4) && (i <= 3 ==> !p.c3)
    && (i <= 2 ==> !p.c2) && (i <= 1 ==> !p.c1) && (i <= 0 ==> !p.c0)
  }

  /** Sent low byte first, p has no coefficient from position j on. */
  ghost predicate SentBefore(p: Poly, j: nat) {
    && (j <= 1 ==> !p.c6) && (j <= 2 ==> !p.c5) && (j <= 3 ==> !p.c4) && (j <= 4 ==> !p.c3)
    && (j <= 5 ==> !p.c2) && (j <= 6 ==> !p.c1) && (j <= 7 ==> !p.c0)
    && (j <= 8 ==> !p.c15) && (j <= 9 ==> !p.c14) && (j <= 10 ==> !p.c13) && (j <= 11 ==> !p.c12)
    && !p.c11 && !p.c10 && !p.c9 && !p.c8
  }

  /** A difference of fewer than twelve bits at the end of the body is not made up for by the bits that follow. */
  lemma BoundaryBurst(d: seq<bool>)
    requires 1 <= |d| <= 11 && SentBefore(Crc(d), 12 - |d|)
    ensures forall i :: 0 <= i < |d| ==> !d[i]
  {
    hide Shifted, FromBits, SentBefore, DegreeBelow, Remainder;
    var p := FromBits(Zeros(16 - |d|) + d);
    RemainderShifted(d, 16);
    LowDegree(d);
    BoundaryPoly(p, |d|);
    AllZero(d);
  }

  lemma BoundaryPoly(p: Poly, i: nat)
    requires 1 <= i <= 11 && DegreeBelow(p, i) && SentBefore(Shifted(p, 16), 12 - i)
    ensures p == Constant(false)
  {
    hide Shifted;
    ShiftedFour(p);
    var p4 := TimesX(TimesX(TimesX(TimesX(p))));
    ShiftedFour(p4);
    var p8 := TimesX(TimesX(TimesX(TimesX(p4))));
    ShiftedFour(p8);
    var p12 := TimesX(TimesX(TimesX(TimesX(p8))));
    ShiftedFour(p12);
    ShiftedAdd(p, 4, 4);
    ShiftedAdd(p, 8, 4);
    ShiftedAdd(p, 12, 4);
  }

  lemma BoundaryCase(f: seq<bool>, g: seq<bool>, a: nat)
    requires Codeword(f) && Codeword(g) && DifferWithin(f, g, a, 12)
    requires a < |f| - 16 < a + 12
    ensures f == g
  {
    hide Crc, Plus, XorBitstrings, SentBefore;
    var n := |f| - 16;
    var prefix, u, v := f[..a], f[a..n], g[a..n];
    var d := XorBitstrings(u, v);
    assert prefix == g[..a] && f[..n] == prefix + u && g[..n] == prefix + v;
    TailDifference(prefix, u, v);
    SentDifference(f, g, a);
    BoundaryBurst(d);
    assert u == v;
    assert f[..n] == g[..n];
    SameBody(f, g);
  }

  lemma LowDegree(d: seq<bool>)
    requires 1 <= |d| <= 11
    ensures DegreeBelow(FromBits(Zeros(16 - |d|) + d), |d|)
  {
  }

  /** The difference of two checksums, read off the transmitted bits. */
  lemma SentDifference(f: seq<bool>, g: seq<bool>, a: nat)
    requires Codeword(f) && Codeword(g) && DifferWithin(f, g, a, 12)
    requires a < |f| - 16 < a + 12
    ensures SentBefore(Plus(Crc(f[..|f| - 16]), Crc(g[..|f| - 16])), 12 - (|f| - 16 - a))
  {
    hide Crc;
    var n := |f| - 16;
    var s, t := f[n + 8..] + f[n..n + 8], g[n + 8..] + g[n..n + 8];
    assert forall k :: 0 <= k < 8 ==> s[k] == f[n + 8 + k] && t[k] == g[n + 8 + k];
    assert forall k :: 8 <= k < 16 ==> s[k] == f[n + k - 8] && t[k] == g[n + k - 8];
  }

  lemma FromBitsInjective(s: seq<bool>, t: seq<bool>)
    requires |s| == |t| == 16 && FromBits(s) == FromBits(t)
    ensures s == t
  {
    hide Coefficient, FromBits;
    forall i | 0 <= i < 16 ensures s[i] == t[i] {
      CoefficientOf(s, i);
      CoefficientOf(t, i);
    }
  }

  ghost function Coefficient(p: Poly, i: nat): bool
    requires i < 16
  {
    if i < 8 then
      if i < 4 then (if i == 0 then p.c15 else if i == 1 then p.c14 else if i == 2 then p.c13 else p.c12)
      else (if i == 4 then p.c11 else if i == 5 then p.c10 else if i == 6 then p.c9 else p.c8)
    else
      if i < 12 then (if i == 8 then p.c7 else if i == 9 then p.c6 else if i == 10 then p.c5 else p.c4)
      else (if i == 12 then p.c3 else if i == 13 then p.c2 else if i == 14 then p.c1 else p.c0)
  }

  lemma CoefficientOf(b: seq<bool>, i: nat)
    requires |b| == 16 && i < 16
    ensures Coefficient(FromBits(b), i) == b[i]
  {
  }

  /** Codewords with the same body are the same. */
  lemma SameBody(f: seq<bool>, g: seq<bool>)
    requires Codeword(f) && Codeword(g) && |f| == |g| && f[..|f| - 16] == g[..|f| - 16]
    ensures f == g
  {
    hide Crc, FromBits;
    var n := |f| - 16;
    var s, t := f[n + 8..] + f[n..n + 8], g[n + 8..] + g[n..n + 8];
    FromBitsInjective(s, t);
    assert f == f[..n] + s[8..] + s[..8];
    assert g == g[..n] + t[8..] + t[..8];
  }

  /** Every error confined to twelve consecutive bits, wherever it falls, is noticed. */
  lemma BurstDetected(f: seq<bool>, g: seq<bool>, a: nat)
    requires Codeword(f) && Codeword(g) && DifferWithin(f, g, a, 12)
    ensures f == g
  {
    hide Crc, FromBits;
    var n := |f| - 16;
    if a >= n {
      assert f[..n] == g[..n];
      SameBody(f, g);
    } else if n < a + 12 {
      BoundaryCase(f, g, a);
    } else {
      var prefix, u, v, suffix := f[..a], f[a..a + 12], g[a..a + 12], f[a + 12..n];
      assert prefix == g[..a] && suffix == g[a + 12..n];
      assert f[..n] == prefix + u + suffix && g[..n] == prefix + v + suffix;
      assert f[n..] == g[n..];
      assert f[n + 8..] + f[n..n + 8] == g[n + 8..] + g[n..n + 8];
      BodyBurst(prefix, u, v, suffix);
      assert f[..n] == g[..n];
      SameBody(f, g);
    }
  }

  // ---------------------------------------------------------------------------
  // Which errors are noticed
  // ---------------------------------------------------------------------------

  lemma FromBitsPlus(a: seq<bool>, b: seq<bool>)
    requires |a| == |b| == 16
    ensures FromBits(XorBitstrings(a, b)) == Plus(FromBits(a), FromBits(b))
  {
  }

  lemma CancelLeft(p: Poly, q: Poly, r: Poly)
    ensures Plus(p, q) == Plus(p, r) <==> q == r
  {
  }

  /** Whether a corrupted codeword is one again depends on the error alone: it has to be a codeword itself. */
  lemma ErrorExactly(f: seq<bool>, g: seq<bool>)
    requires Codeword(f) && |g| == |f|
    ensures Codeword(g) <==> Codeword(XorBitstrings(f, g))
  {
    hide Crc, Plus, FromBits;
    var n := |f| - 16;
    var e := XorBitstrings(f, g);
    var s, t := f[n + 8..] + f[n..n + 8], g[n + 8..] + g[n..n + 8];
    assert e[..n] == XorBitstrings(f[..n], g[..n]);
    assert e[n + 8..] + e[n..n + 8] == XorBitstrings(s, t);
    assert [] + f[..n] == f[..n] && [] + g[..n] == g[..n];
    TailDifference([], f[..n], g[..n]);
    FromBitsPlus(s, t);
    CancelLeft(Crc(f[..n]), Crc(g[..n]), FromBits(t));
  }
}
