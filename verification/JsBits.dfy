/**
  JavaScript's bitwise operators on non-negative 32-bit operands, and the bit strings
  they act on.

  The operators are defined bit by bit. Shl demands that its result fits in a signed
  32-bit integer, so every use of it in the project carries a proof that JavaScript's
  wrap-around cannot happen there.
 */
module JsBits {

  const INT32_LIMIT: nat := 0x8000_0000

  function Pow2(n: nat): (r: nat)
    ensures r > 0
  {
    if n == 0 then 1 else 2 * Pow2(n - 1)
  }

  function And(x: nat, y: nat): nat {
    if x == 0 || y == 0 then 0
    else 2 * And(x / 2, y / 2) + (if x % 2 == 1 && y % 2 == 1 then 1 else 0)
  }

  function Or(x: nat, y: nat): nat
    decreases x + y
  {
    if x == 0 && y == 0 then 0
    else 2 * Or(x / 2, y / 2) + (if x % 2 == 1 || y % 2 == 1 then 1 else 0)
  }

  function Xor(x: nat, y: nat): nat
    decreases x + y
  {
    if x == 0 && y == 0 then 0
    else 2 * Xor(x / 2, y / 2) + (if x % 2 != y % 2 then 1 else 0)
  }

  /** x doubled n times. */
  function Scale(x: nat, n: nat): nat {
    if n == 0 then x else 2 * Scale(x, n - 1)
  }

  function Shl(x: nat, n: nat): nat
    requires Scale(x, n) < INT32_LIMIT
  {
    Scale(x, n)
  }

  /** The mask (1 << n) - 1. */
  function LowMask(n: nat): (r: nat)
    requires n <= 16
    ensures r == Pow2(n) - 1
  {
    ScaleOne(n);
    Shl(1, n) - 1
  }

  lemma ScaleOne(n: nat)
    requires n <= 16
    ensures Scale(1, n) == Pow2(n) < INT32_LIMIT
  {
    ScaleIsPow2(n);
    Pow2Mono(n, 16);
    Pow2Values();
  }

  lemma {:induction false} ScaleIsPow2(n: nat)
    ensures Scale(1, n) == Pow2(n)
  {
    if n > 0 {
      ScaleIsPow2(n - 1);
    }
  }

  /** x halved n times, as the unsigned shift does. */
  function Shr(x: nat, n: nat): nat {
    if n == 0 then x else Shr(x / 2, n - 1)
  }

  /** The n low bits of v, most significant first. */
  function Bits(v: nat, n: nat): (r: seq<bool>)
    ensures |r| == n
  {
    if n == 0 then [] else Bits(v / 2, n - 1) + [v % 2 == 1]
  }

  /** The number a bit string denotes, most significant bit first. */
  function Value(bits: seq<bool>): (r: nat)
    ensures r < Pow2(|bits|)
  {
    if bits == [] then 0
    else 2 * Value(bits[..|bits| - 1]) + (if bits[|bits| - 1] then 1 else 0)
  }

  function Zeros(n: nat): (r: seq<bool>)
    ensures |r| == n && forall i :: 0 <= i < n ==> !r[i]
  {
    seq(n, i => false)
  }

  lemma Pow2Values()
    ensures Pow2(0) == 1 && Pow2(1) == 2 && Pow2(2) == 4 && Pow2(3) == 8 && Pow2(4) == 16
    ensures Pow2(5) == 32 && Pow2(6) == 64 && Pow2(7) == 128 && Pow2(8) == 256
    ensures Pow2(12) == 4096 && Pow2(15) == 32768 && Pow2(16) == 65536
  {
    assert Pow2(4) == 16;
    assert Pow2(8) == 256;
    assert Pow2(12) == 4096;
    assert Pow2(16) == 65536;
  }

  lemma {:induction false} Pow2Mono(a: nat, b: nat)
    requires a <= b
    ensures Pow2(a) <= Pow2(b)
    decreases b
  {
    if a < b {
      Pow2Mono(a, b - 1);
    }
  }

  lemma {:induction false} BitsOfValue(bits: seq<bool>)
    ensures Bits(Value(bits), |bits|) == bits
  {
    if bits != [] {
      BitsOfValue(bits[..|bits| - 1]);
      assert bits == bits[..|bits| - 1] + [bits[|bits| - 1]];
    }
  }

  lemma {:induction false} ValueOfBits(v: nat, n: nat)
    requires v < Pow2(n)
    ensures Value(Bits(v, n)) == v
  {
    if n > 0 {
      ValueOfBits(v / 2, n - 1);
      assert Bits(v, n)[..n - 1] == Bits(v / 2, n - 1);
    }
  }

  /** Shifting v left by k and filling with w appends the k bits of w. */
  lemma {:induction false} BitsAppend(v: nat, n: nat, w: nat, k: nat)
    requires v < Pow2(n) && w < Pow2(k)
    ensures Or(Scale(v, k), w) < Pow2(n + k)
    ensures Bits(Or(Scale(v, k), w), n + k) == Bits(v, n) + Bits(w, k)
  {
    hide Or, Bits;
    if k == 0 {
      OrZero(v);
      assert w == 0 && Bits(v, n) + Bits(w, 0) == Bits(v, n);
    } else {
      var half := Or(Scale(v, k - 1), w / 2);
      BitsAppend(v, n, w / 2, k - 1);
      OrHalf(Scale(v, k - 1), w);
      LowBit(half, w % 2, n + k - 1);
      LowBit(w / 2, w % 2, k - 1);
      assert w == 2 * (w / 2) + w % 2;
      assert Bits(v, n) + (Bits(w / 2, k - 1) + [w % 2 == 1]) == Bits(v, n) + Bits(w / 2, k - 1) + [w % 2 == 1];
    }
  }

  /** Or of operands that share no bit is addition. */
  lemma {:induction false} OrIsSum(v: nat, w: nat, k: nat)
    requires w < Pow2(k)
    ensures Or(Scale(v, k), w) == Scale(v, k) + w
  {
    if k == 0 {
      OrZero(v);
    } else {
      OrIsSum(v, w / 2, k - 1);
      OrHalf(Scale(v, k - 1), w);
    }
  }

  lemma ScaleValues(x: nat)
    ensures Scale(x, 1) == 2 * x && Scale(x, 2) == 4 * x && Scale(x, 3) == 8 * x && Scale(x, 4) == 16 * x
    ensures Scale(x, 5) == 32 * x && Scale(x, 8) == 256 * x
  {
    assert Scale(x, 4) == 2 * Scale(x, 3) && Scale(x, 3) == 2 * Scale(x, 2) && Scale(x, 2) == 2 * Scale(x, 1);
    assert Scale(x, 8) == 2 * Scale(x, 7) && Scale(x, 7) == 2 * Scale(x, 6) && Scale(x, 6) == 2 * Scale(x, 5);
  }

  lemma OrHalf(x: nat, w: nat)
    ensures Or(2 * x, w) == 2 * Or(x, w / 2) + w % 2
  {
  }

  lemma {:induction false} OrZero(v: nat)
    ensures Or(v, 0) == v
  {
    if v > 0 {
      OrZero(v / 2);
    }
  }

  /** Dropping the top bit of a bit string. */
  lemma {:induction false} BitsTail(v: nat, n: nat)
    requires n > 0
    ensures Bits(v, n)[1..] == Bits(v, n - 1)
  {
    if n > 1 {
      BitsTail(v / 2, n - 1);
      assert Bits(v, n)[1..] == Bits(v / 2, n - 1)[1..] + [v % 2 == 1];
    }
  }

  /** A bit string falls apart at any point into the shifted number and its low bits. */
  lemma {:induction false} BitsSplit(v: nat, n: nat, k: nat)
    ensures Bits(v, n + k) == Bits(Shr(v, k), n) + Bits(v, k)
  {
    if k > 0 {
      BitsSplit(v / 2, n, k - 1);
      var low := [v % 2 == 1];
      assert Bits(v, n + k) == Bits(v / 2, n + k - 1) + low;
      assert Bits(v, k) == Bits(v / 2, k - 1) + low;
      assert Bits(v, n + k) == Bits(Shr(v, k), n) + (Bits(v / 2, k - 1) + low);
    }
  }

  lemma {:induction false} BitsZero(v: nat, n: nat)
    requires v < Pow2(n)
    ensures v == 0 <==> Bits(v, n) == Zeros(n)
  {
    if n > 0 {
      BitsZero(v / 2, n - 1);
      assert Zeros(n)[..n - 1] == Zeros(n - 1);
      assert Bits(v, n)[..n - 1] == Bits(v / 2, n - 1);
      assert Bits(v, n)[n - 1] == (v % 2 == 1);
    }
  }

  /** Masking with 2^k - 1 keeps the k low bits and nothing else. */
  lemma {:induction false} AndMask(x: nat, k: nat)
    ensures And(x, Pow2(k) - 1) < Pow2(k)
    ensures Bits(And(x, Pow2(k) - 1), k) == Bits(x, k)
    ensures x < Pow2(k) ==> And(x, Pow2(k) - 1) == x
  {
    hide And, Bits;
    if k == 0 {
      AndZero(x);
    } else {
      var half := Pow2(k - 1);
      AndMask(x / 2, k - 1);
      assert Pow2(k) - 1 == 2 * (half - 1) + 1;
      AndOdd(x, half - 1);
      var low := And(x / 2, half - 1);
      LowBit(low, x % 2, k - 1);
      LowBit(x / 2, x % 2, k - 1);
      assert x == 2 * (x / 2) + x % 2;
    }
  }

  lemma AndZero(x: nat)
    ensures And(x, 0) == 0
  {
  }

  lemma LowBit(v: nat, b: nat, n: nat)
    requires b < 2
    ensures Bits(2 * v + b, n + 1) == Bits(v, n) + [b == 1]
  {
    assert (2 * v + b) / 2 == v && (2 * v + b) % 2 == b;
  }

  lemma AndOdd(x: nat, m: nat)
    ensures And(x, 2 * m + 1) == 2 * And(x / 2, m) + x % 2
  {
    assert (2 * m + 1) / 2 == m && (2 * m + 1) % 2 == 1;
  }

  /** Xor acts bit by bit. */
  lemma {:induction false} XorBits(x: nat, y: nat, n: nat)
    ensures forall i :: 0 <= i < n ==> Bits(Xor(x, y), n)[i] == (Bits(x, n)[i] != Bits(y, n)[i])
  {
    if n > 0 {
      XorBits(x / 2, y / 2, n - 1);
      assert Xor(x, y) / 2 == Xor(x / 2, y / 2);
      assert (Xor(x, y) % 2 == 1) == ((x % 2 == 1) != (y % 2 == 1));
    }
  }

  lemma {:induction false} XorBound(x: nat, y: nat, n: nat)
    requires x < Pow2(n) && y < Pow2(n)
    ensures Xor(x, y) < Pow2(n)
  {
    if n > 0 {
      XorBound(x / 2, y / 2, n - 1);
    }
  }
}
