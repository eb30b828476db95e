/**
  bytesToDecimalString of packages/shared/src/strkey.ts: schoolbook conversion from base
  256 to base 10 over a growing list of digits, least significant first.
 */
module Decimal {
  import opened Wrappers

  /** The number a big-endian byte string denotes. */
  ghost function BigEndian(bytes: seq<byte>): nat {
    if bytes == [] then 0 else 256 * BigEndian(bytes[..|bytes| - 1]) + bytes[|bytes| - 1]
  }

  const DIGITS: string := "0123456789"

  /** The usual decimal numeral of n. */
  function Numeral(n: nat): string {
    if n < 10 then [DIGITS[n]] else Numeral(n / 10) + [DIGITS[n % 10]]
  }

  /** The number a numeral denotes. */
  function NumeralValue(s: string): nat {
    if s == "" then 0
    else 10 * NumeralValue(s[..|s| - 1]) + (if '0' <= s[|s| - 1] <= '9' then s[|s| - 1] as int - '0' as int else 0)
  }

  lemma {:induction false} NumeralRoundTrip(n: nat)
    ensures NumeralValue(Numeral(n)) == n
  {
    DigitCode(n % 10);
    var s := Numeral(n);
    if n >= 10 {
      NumeralRoundTrip(n / 10);
      assert s[..|s| - 1] == Numeral(n / 10);
    } else {
      assert s[..0] == "";
    }
  }

  lemma DigitCode(d: nat)
    requires d < 10
    ensures '0' <= DIGITS[d] <= '9' && DIGITS[d] as int == '0' as int + d
  {
  }

  /** Numerals are digits only and start with zero only when they are zero. */
  lemma {:induction false} NumeralShape(n: nat)
    ensures Numeral(n) != "" && (Numeral(n)[0] == '0' ==> n == 0)
    ensures forall i :: 0 <= i < |Numeral(n)| ==> '0' <= Numeral(n)[i] <= '9'
  {
    DigitCode(n % 10);
    if n >= 10 {
      NumeralShape(n / 10);
    }
  }

  // ---------------------------------------------------------------------------
  // Digit lists, least significant first
  // ---------------------------------------------------------------------------

  ghost predicate IsDigits(digits: seq<nat>) {
    forall i :: 0 <= i < |digits| ==> digits[i] < 10
  }

  /** The digits of low, with x above them. */
  ghost function Above(low: seq<nat>, x: nat): nat {
    if low == [] then x else low[0] + 10 * Above(low[1..], x)
  }

  lemma {:induction false} AboveSnoc(low: seq<nat>, a: nat, x: nat)
    ensures Above(low + [a], x) == Above(low, a + 10 * x)
    decreases |low|
  {
    if low != [] {
      AboveSnoc(low[1..], a, x);
      assert (low + [a])[1..] == low[1..] + [a];
    }
  }

  /** No zero on top, except in the list that is just zero. */
  ghost predicate Normal(digits: seq<nat>) {
    |digits| > 0 && IsDigits(digits) && (|digits| > 1 ==> digits[|digits| - 1] != 0)
  }

  function Render(digits: seq<nat>): string
    requires forall i :: 0 <= i < |digits| ==> digits[i] < 10
  {
    seq(|digits|, i requires 0 <= i < |digits| => DIGITS[digits[|digits| - 1 - i]])
  }

  lemma RenderStep(digits: seq<nat>)
    requires |digits| > 0 && IsDigits(digits)
    ensures Render(digits) == Render(digits[1..]) + [DIGITS[digits[0]]]
  {
  }

  lemma {:induction false} RenderNumeral(digits: seq<nat>)
    requires Normal(digits)
    ensures Render(digits) == Numeral(Above(digits, 0))
    ensures Above(digits, 0) == 0 ==> digits == [0]
    decreases |digits|
  {
    hide Render, Numeral;
    var rest := digits[1..];
    RenderStep(digits);
    if rest == [] {
      assert digits == [digits[0]] && Above(rest, 0) == 0;
      OneDigit(digits[0]);
    } else {
      assert rest[|rest| - 1] == digits[|digits| - 1];
      RenderNumeral(rest);
      NumeralStep(Above(rest, 0), digits[0]);
    }
  }

  lemma OneDigit(d: nat)
    requires d < 10
    ensures Render([]) + [DIGITS[d]] == Numeral(d)
  {
  }

  lemma NumeralStep(n: nat, d: nat)
    requires n > 0 && d < 10
    ensures Numeral(d + 10 * n) == Numeral(n) + [DIGITS[d]]
  {
    var all := d + 10 * n;
    Quotient(n, d);
    assert all >= 10 && Numeral(all) == Numeral(all / 10) + [DIGITS[all % 10]];
  }

  lemma Quotient(n: nat, d: nat)
    requires d < 10
    ensures (d + 10 * n) / 10 == n && (d + 10 * n) % 10 == d
  {
  }

  /** The inner loop's invariant: converted digits below, the rest still to be multiplied by 256. */
  ghost predicate Multiplying(digits: seq<nat>, was: seq<nat>, d: nat, carry: nat, total: nat) {
    && d <= |was| == |digits| && IsDigits(digits[..d]) && digits[d..] == was[d..]
    && Above(digits[..d], carry + 256 * Above(was[d..], 0)) == total
  }

  lemma MultiplyingStart(was: seq<nat>, b: nat)
    ensures Multiplying(was, was, 0, b, 256 * Above(was, 0) + b)
  {
    assert was[0..] == was && was[..0] == [];
  }

  lemma MultiplyingStep(digits: seq<nat>, was: seq<nat>, d: nat, carry: nat, total: nat)
    requires Multiplying(digits, was, d, carry, total) && d < |was|
    ensures var next := digits[d] * 256 + carry;
            Multiplying(digits[d := next % 10], was, d + 1, next / 10, total)
  {
    var next := digits[d] * 256 + carry;
    var low, digits' := digits[..d], digits[d := next % 10];
    var rest := was[d + 1..];
    assert digits[d] == digits[d..][0] == was[d];
    assert was[d..][1..] == rest;
    assert carry + 256 * Above(was[d..], 0) == next % 10 + 10 * (next / 10 + 256 * Above(rest, 0));
    AboveSnoc(low, next % 10, next / 10 + 256 * Above(rest, 0));
    assert digits'[..d + 1] == low + [next % 10];
    assert digits'[d + 1..] == rest by { assert digits[d + 1..] == digits[d..][1..]; }
  }

  lemma MultiplyingEnd(digits: seq<nat>, was: seq<nat>, carry: nat, total: nat)
    requires Multiplying(digits, was, |was|, carry, total)
    ensures IsDigits(digits) && Above(digits, carry) == total
  {
    assert digits[..|was|] == digits && was[|was|..] == [];
  }

  /** The carry loop's invariant. */
  ghost predicate Carrying(digits: seq<nat>, carry: nat, total: nat) {
    && |digits| > 0 && IsDigits(digits) && Above(digits, carry) == total
    && (carry == 0 ==> Normal(digits))
  }

  lemma CarryingStep(digits: seq<nat>, carry: nat, total: nat)
    requires Carrying(digits, carry, total) && carry > 0
    ensures Carrying(digits + [carry % 10], carry / 10, total)
  {
    AboveSnoc(digits, carry % 10, carry / 10);
  }

  method BytesToDecimalString(bytes: seq<byte>) returns (s: string)
    ensures s == Numeral(BigEndian(bytes))
  {
    hide Multiplying, Above, IsDigits, BigEndian, Numeral, Render;
    var digits: seq<nat> := [0];
    ConversionStart();
    for i := 0 to |bytes|
      invariant Normal(digits) && Above(digits, 0) == BigEndian(bytes[..i])
    {
      var carry: nat := bytes[i];
      ghost var was, total := digits, 256 * Above(digits, 0) + bytes[i];
      MultiplyingStart(was, carry);
      for d := 0 to |digits|
        invariant |digits| == |was| && Multiplying(digits, was, d, carry, total)
        invariant d < |was| ==> digits[d..] == was[d..]
        invariant d == |was| > 1 ==> carry > 0
      {
        MultiplyingStep(digits, was, d, carry, total);
        TopDigit(digits, was, d);
        var next := digits[d] * 256 + carry;
        digits := digits[d := next % 10];
        carry := next / 10;
      }
      MultiplyingEnd(digits, was, carry, total);
      SingleDigit(digits, carry);
      while carry > 0
        invariant Carrying(digits, carry, total)
      {
        CarryingStep(digits, carry, total);
        digits := digits + [carry % 10];
        carry := carry / 10;
      }
      BigEndianStep(bytes, i);
    }
    assert bytes[..|bytes|] == bytes;
    RenderNumeral(digits);
    assert forall i :: 0 <= i < |digits| ==> digits[i] < 10 by { DigitsBelow(digits); }
    s := Render(digits);
  }

  lemma ConversionStart()
    ensures Normal([0]) && Above([0], 0) == BigEndian([])
  {
    assert Above([0], 0) == 0 + 10 * Above([], 0);
  }

  lemma TopDigit(digits: seq<nat>, was: seq<nat>, d: nat)
    requires Normal(was) && d < |was| == |digits| && digits[d..] == was[d..]
    ensures digits[d] == was[d]
    ensures d + 1 == |was| > 1 ==> digits[d] > 0
    ensures d + 1 < |was| ==> digits[d + 1..] == was[d + 1..]
  {
    assert digits[d] == digits[d..][0] == was[d..][0] == was[d];
    assert digits[d + 1..] == digits[d..][1..] == was[d..][1..] == was[d + 1..];
  }

  lemma SingleDigit(digits: seq<nat>, carry: nat)
    requires |digits| > 0 && IsDigits(digits) && (|digits| > 1 ==> carry > 0)
    ensures carry == 0 ==> Normal(digits)
  {
  }

  lemma BigEndianStep(bytes: seq<byte>, i: nat)
    requires i < |bytes|
    ensures BigEndian(bytes[..i + 1]) == 256 * BigEndian(bytes[..i]) + bytes[i]
  {
    assert bytes[..i + 1][..i] == bytes[..i];
  }

  lemma DigitsBelow(digits: seq<nat>)
    requires IsDigits(digits)
    ensures forall i :: 0 <= i < |digits| ==> digits[i] < 10
  {
  }
}
