/**
  The checksum of packages/shared/src/strkey.ts. The byte-wise shift register is proved
  to compute the remainder of the message times x^16 modulo x^16 + x^12 + x^5 + 1 over
  the two-element field, and the errors that remainder detects are worked out.
 */
module Crc16 {
  import opened JsBits
  import opened Base32
  import opened Wrappers

  // ---------------------------------------------------------------------------
  // Polynomials of degree below 16 over the two-element field
  // ---------------------------------------------------------------------------

  datatype Poly = Poly(c15: bool, c14: bool, c13: bool, c12: bool, c11: bool, c10: bool, c9: bool, c8: bool,
                       c7: bool, c6: bool, c5: bool, c4: bool, c3: bool, c2: bool, c1: bool, c0: bool)

  /** The coefficients as a bit string, highest degree first. */
  function FromBits(b: seq<bool>): Poly
    requires |b| == 16
  {
    Poly(b[0], b[1], b[2], b[3], b[4], b[5], b[6], b[7], b[8], b[9], b[10], b[11], b[12], b[13], b[14], b[15])
  }

  function ToBits(p: Poly): (b: seq<bool>)
    ensures |b| == 16
    ensures FromBits(b) == p
  {
    [p.c15, p.c14, p.c13, p.c12, p.c11, p.c10, p.c9, p.c8, p.c7, p.c6, p.c5, p.c4, p.c3, p.c2, p.c1, p.c0]
  }

  function Plus(p: Poly, q: Poly): Poly {
    Poly(p.c15 != q.c15, p.c14 != q.c14, p.c13 != q.c13, p.c12 != q.c12,
         p.c11 != q.c11, p.c10 != q.c10, p.c9 != q.c9, p.c8 != q.c8,
         p.c7 != q.c7, p.c6 != q.c6, p.c5 != q.c5, p.c4 != q.c4,
         p.c3 != q.c3, p.c2 != q.c2, p.c1 != q.c1, p.c0 != q.c0)
  }

  function Constant(b: bool): Poly {
    Poly(false, false, false, false, false, false, false, false,
         false, false, false, false, false, false, false, b)
  }

  /** b times x^12 + x^5 + 1, which is what b times x^16 leaves after division. */
  function Generator(b: bool): Poly {
    Poly(false, false, false, b, false, false, false, false,
         false, false, b, false, false, false, false, b)
  }

  /** Multiplication by x, then division by x^16 + x^12 + x^5 + 1. */
  function TimesX(p: Poly): Poly {
    Poly(p.c14, p.c13, p.c12, p.c11 != p.c15, p.c10, p.c9, p.c8, p.c7,
         p.c6, p.c5, p.c4 != p.c15, p.c3, p.c2, p.c1, p.c0, p.c15)
  }

  function Shifted(p: Poly, n: nat): Poly {
    if n == 0 then p else TimesX(Shifted(p, n - 1))
  }

  /** What long division leaves of the polynomial with these coefficients, highest first. */
  ghost function Remainder(bits: seq<bool>): Poly {
    if bits == [] then Constant(false)
    else Plus(TimesX(Remainder(bits[..|bits| - 1])), Constant(bits[|bits| - 1]))
  }

  /** The checksum polynomial of a message: the remainder of the message times x^16. */
  ghost function Crc(bits: seq<bool>): Poly {
    Remainder(bits + Zeros(16))
  }

  /** The 16-bit checksum of a byte string. */
  ghost function Checksum(bytes: seq<byte>): (r: nat)
    ensures r < Pow2(16)
  {
    Value(ToBits(Crc(Group(bytes, 8))))
  }

  lemma PlusSwap(a: Poly, b: Poly, c: Poly, d: Poly)
    ensures Plus(Plus(a, b), Plus(c, d)) == Plus(Plus(a, c), Plus(b, d))
  {
  }

  lemma PlusZero(p: Poly, q: Poly)
    ensures Plus(p, q) == Constant(false) <==> p == q
    ensures Plus(p, Constant(false)) == p
  {
  }

  lemma TimesXPlus(p: Poly, q: Poly)
    ensures TimesX(Plus(p, q)) == Plus(TimesX(p), TimesX(q))
  {
  }

  lemma TimesXInjective(p: Poly, q: Poly)
    requires TimesX(p) == TimesX(q)
    ensures p == q
  {
  }

  lemma {:induction false} ShiftedPlus(p: Poly, q: Poly, n: nat)
    ensures Shifted(Plus(p, q), n) == Plus(Shifted(p, n), Shifted(q, n))
  {
    hide Plus, TimesX;
    if n > 0 {
      ShiftedPlus(p, q, n - 1);
      TimesXPlus(Shifted(p, n - 1), Shifted(q, n - 1));
    }
  }

  lemma {:induction false} ShiftedTimesX(p: Poly, n: nat)
    ensures Shifted(TimesX(p), n) == TimesX(Shifted(p, n))
  {
    hide TimesX;
    if n > 0 {
      ShiftedTimesX(p, n - 1);
    }
  }

  lemma {:induction false} ShiftedInjective(p: Poly, q: Poly, n: nat)
    requires Shifted(p, n) == Shifted(q, n)
    ensures p == q
  {
    hide TimesX;
    if n > 0 {
      TimesXInjective(Shifted(p, n - 1), Shifted(q, n - 1));
      ShiftedInjective(p, q, n - 1);
    }
  }

  lemma {:induction false} ShiftedAdd(p: Poly, m: nat, n: nat)
    ensures Shifted(Shifted(p, m), n) == Shifted(p, m + n)
  {
    hide TimesX;
    if n > 0 {
      ShiftedAdd(p, m, n - 1);
    }
  }

  lemma ShiftedFour(p: Poly)
    ensures Shifted(p, 4) == TimesX(TimesX(TimesX(TimesX(p))))
  {
    hide TimesX;
    assert Shifted(p, 1) == TimesX(p);
    assert Shifted(p, 2) == TimesX(TimesX(p));
  }

  /** x^16 is congruent to x^12 + x^5 + 1. */
  lemma ConstantShifted(b: bool)
    ensures Shifted(Constant(b), 16) == Generator(b)
  {
    hide Shifted;
    var p0 := Constant(b);
    ShiftedFour(p0);
    var p4 := TimesX(TimesX(TimesX(TimesX(p0))));
    ShiftedFour(p4);
    var p8 := TimesX(TimesX(TimesX(TimesX(p4))));
    ShiftedFour(p8);
    var p12 := TimesX(TimesX(TimesX(TimesX(p8))));
    ShiftedFour(p12);
    ShiftedAdd(p0, 4, 4);
    ShiftedAdd(p0, 8, 4);
    ShiftedAdd(p0, 12, 4);
  }

  lemma {:induction false} RemainderZeros(bits: seq<bool>, n: nat)
    ensures Remainder(bits + Zeros(n)) == Shifted(Remainder(bits), n)
  {
    hide Plus, TimesX;
    var all := bits + Zeros(n);
    if n == 0 {
      assert all == bits;
    } else {
      RemainderZeros(bits, n - 1);
      assert all[..|all| - 1] == bits + Zeros(n - 1) && !all[|all| - 1];
      PlusZero(TimesX(Remainder(all[..|all| - 1])), Constant(false));
    }
  }

  /** One more message bit. */
  lemma CrcSnoc(bits: seq<bool>, b: bool)
    ensures Crc(bits + [b]) == Plus(TimesX(Crc(bits)), Generator(b))
  {
    hide Plus, TimesX, Shifted, Generator, Constant;
    var all := bits + [b];
    assert all[..|all| - 1] == bits;
    RemainderZeros(bits, 16);
    RemainderZeros(all, 16);
    ShiftedPlus(TimesX(Remainder(bits)), Constant(b), 16);
    ShiftedTimesX(Remainder(bits), 16);
    ConstantShifted(b);
  }

  // ---------------------------------------------------------------------------
  // The shift register of the source
  // ---------------------------------------------------------------------------

  /** The register's content as a polynomial. */
  ghost function Register(crc: nat): Poly {
    FromBits(Bits(crc, 16))
  }

  lemma {:induction false} AndBit(x: nat, k: nat)
    ensures And(x, Pow2(k)) != 0 <==> Bits(x, k + 1)[0]
  {
    if k > 0 && x > 0 {
      AndBit(x / 2, k - 1);
      assert And(x, 2 * Pow2(k - 1)) == 2 * And(x / 2, Pow2(k - 1));
    } else if x > 0 {
      assert And(x, 1) == x % 2;
    } else {
      BitsZero(0, k + 1);
    }
  }

  /** Shifting the register left by one and dropping the bit that leaves. */
  lemma RegisterShift(x: nat)
    ensures And(x, 0xffff) < 65536
    ensures Bits(And(x, 0xffff), 16) == Bits(x, 16)
  {
    assert Pow2(16) == 65536 by { Pow2Values(); }
    AndMask(x, 16);
  }

  lemma DoubleBits(crc: nat)
    ensures Bits(2 * crc, 16) == Bits(crc, 16)[1..] + [false]
  {
    BitsTail(crc, 16);
    assert Bits(2 * crc, 16) == Bits(crc, 15) + [false];
  }

  lemma NibbleBits()
    ensures Bits(0, 4) == [false, false, false, false] && Bits(1, 4) == [false, false, false, true]
    ensures Bits(2, 4) == [false, false, true, false]
  {
  }

  lemma JoinBits(v: nat, n: nat, w: nat, k: nat)
    requires v < Pow2(n) && w < Pow2(k)
    ensures Bits(Scale(v, k) + w, n + k) == Bits(v, n) + Bits(w, k)
  {
    BitsAppend(v, n, w, k);
    OrIsSum(v, w, k);
  }

  lemma GeneratorBits()
    ensures Register(0x1021) == Generator(true)
  {
    hide Bits, Scale;
    Pow2Values();
    JoinBits(1, 4, 0, 4);
    JoinBits(2, 4, 1, 4);
    JoinBits(0x10, 8, 0x21, 8);
    ScaleValues(1);
    ScaleValues(2);
    ScaleValues(0x10);
    NibbleBits();
  }

  lemma RegisterXor(x: nat, y: nat)
    requires x < 65536 && y < 65536
    ensures Xor(x, y) < 65536
    ensures Register(Xor(x, y)) == Plus(Register(x), Register(y))
  {
    hide Bits, Xor;
    assert Pow2(16) == 65536 by { Pow2Values(); }
    XorBound(x, y, 16);
    XorBits(x, y, 16);
  }

  lemma RegisterDouble(crc: nat)
    requires crc < 65536
    ensures Scale(crc, 1) < INT32_LIMIT
    ensures And(Shl(crc, 1), 0xffff) < 65536
    ensures Register(And(Shl(crc, 1), 0xffff)) == FromBits(Bits(crc, 16)[1..] + [false])
  {
    hide And;
    ScaleValues(crc);
    DoubleBits(crc);
    RegisterShift(2 * crc);
  }

  /** One turn of the inner loop multiplies the register by x. */
  lemma RegisterStep(crc: nat)
    requires crc < 65536
    ensures Scale(crc, 1) < INT32_LIMIT
    ensures var next := if And(crc, 0x8000) != 0 then And(Xor(Shl(crc, 1), 0x1021), 0xffff) else And(Shl(crc, 1), 0xffff);
            next < 65536 && Register(next) == TimesX(Register(crc))
  {
    hide And, Xor, Bits;
    ScaleValues(crc);
    assert Pow2(15) == 0x8000 && Pow2(16) == 0x10000 by { Pow2Values(); }
    AndBit(crc, 15);
    RegisterDouble(crc);
    if And(crc, 0x8000) != 0 {
      var x := Xor(2 * crc, 0x1021);
      RegisterShift(x);
      XorBits(2 * crc, 0x1021, 16);
      DoubleBits(crc);
      GeneratorBits();
    }
  }

  /** The register before the k-th turn of the inner loop on a byte whose bits are b. */
  ghost predicate Feeding(crc: nat, message: seq<bool>, b: seq<bool>, k: nat)
    requires |b| == 8 && k <= 8
  {
    crc < 65536 && Register(crc) == Plus(Crc(message + b[..k]), FromBits(b[k..] + Zeros(8 + k)))
  }

  lemma FeedingStart(crc: nat, message: seq<bool>, x: byte)
    requires crc < 65536 && Register(crc) == Crc(message)
    ensures Scale(x, 8) < INT32_LIMIT
    ensures Feeding(Xor(crc, Shl(x, 8)), message, Bits(x, 8), 0)
  {
    hide Bits, Xor, Crc;
    assert Pow2(8) == 256 by { Pow2Values(); }
    ScaleValues(x);
    RegisterXor(crc, 256 * x);
    JoinBits(x, 8, 0, 8);
    BitsZero(0, 8);
    assert message + Bits(x, 8)[..0] == message && Bits(x, 8)[0..] == Bits(x, 8);
  }

  lemma FeedingStep(crc: nat, next: nat, message: seq<bool>, b: seq<bool>, k: nat)
    requires |b| == 8 && k < 8 && Feeding(crc, message, b, k)
    requires next < 65536 && Register(next) == TimesX(Register(crc))
    ensures Feeding(next, message, b, k + 1)
  {
    hide Register, Crc, FromBits, Plus, TimesX, Generator;
    var rest, shorter := b[k..] + Zeros(8 + k), b[k + 1..] + Zeros(9 + k);
    assert rest == [b[k]] + b[k + 1..] + Zeros(8 + k);
    assert shorter == rest[1..] + [false];
    TimesXBits(rest);
    TimesXPlus(Crc(message + b[..k]), FromBits(rest));
    CrcSnoc(message + b[..k], b[k]);
    assert message + b[..k] + [b[k]] == message + b[..k + 1];
    FeedingSum(TimesX(Crc(message + b[..k])), FromBits(shorter), Generator(b[k]));
  }

  /** The tail of r, one place up, has the bits of r at each place but the last, which is empty. */
  lemma ShiftedBits(r: seq<bool>)
    requires |r| == 16
    ensures var t := r[1..] + [false];
            && |t| == 16 && !t[15]
            && t[0] == r[1] && t[1] == r[2] && t[2] == r[3] && t[3] == r[4] && t[4] == r[5]
            && t[5] == r[6] && t[6] == r[7] && t[7] == r[8] && t[8] == r[9] && t[9] == r[10]
            && t[10] == r[11] && t[11] == r[12] && t[12] == r[13] && t[13] == r[14] && t[14] == r[15]
  {
  }

  /** Multiplying by x moves every coefficient up and adds the generator for the one that leaves. */
  lemma TimesXSplit(p: Poly, q: Poly, top: bool)
    requires top == p.c15 && !q.c0
    requires q.c1 == p.c0 && q.c2 == p.c1 && q.c3 == p.c2 && q.c4 == p.c3 && q.c5 == p.c4
    requires q.c6 == p.c5 && q.c7 == p.c6 && q.c8 == p.c7 && q.c9 == p.c8 && q.c10 == p.c9
    requires q.c11 == p.c10 && q.c12 == p.c11 && q.c13 == p.c12 && q.c14 == p.c13 && q.c15 == p.c14
    ensures TimesX(p) == Plus(q, Generator(top))
  {
  }

  lemma TimesXBits(r: seq<bool>)
    requires |r| == 16
    ensures TimesX(FromBits(r)) == Plus(FromBits(r[1..] + [false]), Generator(r[0]))
  {
    hide TimesX, Plus, Generator;
    ShiftedBits(r);
    TimesXSplit(FromBits(r), FromBits(r[1..] + [false]), r[0]);
  }

  lemma FeedingSum(p: Poly, q: Poly, g: Poly)
    ensures Plus(p, Plus(q, g)) == Plus(Plus(p, g), q)
  {
  }

  lemma FeedingEnd(crc: nat, message: seq<bool>, b: seq<bool>)
    requires |b| == 8 && Feeding(crc, message, b, 8)
    ensures crc < 65536 && Register(crc) == Crc(message + b)
  {
    hide Register, Crc;
    assert b[..8] == b && b[8..] + Zeros(16) == Zeros(16);
    PlusZero(Crc(message + b), Constant(false));
  }

  /** A register that holds the checksum polynomial is the checksum. */
  lemma RegisterChecksum(crc: nat, bytes: seq<byte>)
    requires crc < 65536
    ensures Register(crc) == Crc(Group(bytes, 8)) <==> crc == Checksum(bytes)
  {
    hide Bits, Crc, Group;
    assert Pow2(16) == 65536 by { Pow2Values(); }
    ValueOfBits(crc, 16);
    var b := ToBits(Crc(Group(bytes, 8)));
    BitsOfValue(b);
    if Register(crc) == Crc(Group(bytes, 8)) {
      assert ToBits(Register(crc)) == Bits(crc, 16);
    }
  }

  method Crc16Xmodem(bytes: seq<byte>) returns (crc: nat)
    ensures crc == Checksum(bytes)
  {
    hide *;
    crc := 0;
    CrcStart();
    for i := 0 to |bytes|
      invariant crc < 65536 && Register(crc) == Crc(Group(bytes[..i], 8))
    {
      ghost var message, b := Group(bytes[..i], 8), Bits(bytes[i], 8);
      FeedingStart(crc, message, bytes[i]);
      crc := Xor(crc, Shl(bytes[i], 8));
      for bit := 0 to 8
        invariant Feeding(crc, message, b, bit)
      {
        FeedingBound(crc, message, b, bit);
        RegisterStep(crc);
        ghost var was := crc;
        crc := if And(crc, 0x8000) != 0 then And(Xor(Shl(crc, 1), 0x1021), 0xffff) else And(Shl(crc, 1), 0xffff);
        FeedingStep(was, crc, message, b, bit);
      }
      FeedingEnd(crc, message, b);
      assert bytes[..i + 1] == bytes[..i] + [bytes[i]];
      GroupSnoc(bytes[..i], bytes[i], 8);
    }
    assert bytes[..|bytes|] == bytes;
    RegisterChecksum(crc, bytes);
  }

  lemma CrcStart()
    ensures Register(0) == Crc(Group([], 8))
  {
    hide Shifted;
    BitsZero(0, 16);
    assert Group([], 8) == [];
    RemainderZeros([], 16);
    ConstantShifted(false);
  }

  lemma FeedingBound(crc: nat, message: seq<bool>, b: seq<bool>, k: nat)
    requires |b| == 8 && k <= 8 && Feeding(crc, message, b, k)
    ensures crc < 65536
  {
  }
}
