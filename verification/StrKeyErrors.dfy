/**
  What validation promises about mistyped StrKeys: corrupting up to two neighbouring
  characters is always noticed, and three is already too many.
 */
module StrKeyErrors {
  import opened Wrappers
  import opened JsBits
  import opened Base32
  import Crc16
  import Crc16Bursts
  import opened StrKey

  /** The sealed bytes, bit by bit, are a codeword. */
  lemma SealedCodeword(body: seq<byte>)
    ensures Crc16Bursts.Codeword(Group(Sealed(body), 8))
    ensures Group(Sealed(body), 8)[..8 * |body|] == Group(body, 8)
  {
    hide Crc16.Crc, Bits, Group, Crc16.Checksum;
    var c := Crc16.Checksum(body);
    assert c < 65536 by { Pow2Values(); }
    var lo, hi := c % 256, c / 256;
    GroupSnoc(body, lo, 8);
    GroupSnoc(body + [lo], hi, 8);
    assert Sealed(body) == body + [lo] + [hi];
    var g, f := Group(body, 8), Group(Sealed(body), 8);
    assert f == g + Bits(lo, 8) + Bits(hi, 8);
    var n := |f| - 16;
    assert f[..n] == g && f[n..n + 8] == Bits(lo, 8) && f[n + 8..] == Bits(hi, 8);
    Crc16.RegisterChecksum(c, body);
    ChecksumBits(c);
  }

  lemma ChecksumBits(c: nat)
    requires c < 65536
    ensures Bits(c, 16) == Bits(c / 256, 8) + Bits(c % 256, 8)
  {
    hide Bits, Scale;
    ScaleValues(c / 256);
    assert Pow2(8) == 256 by { Pow2Values(); }
    Crc16.JoinBits(c / 256, 8, c % 256, 8);
  }

  /** The bits of an accepted text are those of its bytes, then zeros. */
  lemma AcceptedBits(s: string, kind: Kind)
    requires Decoded(Text(s), kind).Ok?
    ensures InAlphabet(s)
    ensures var f := Group(Decoded(Text(s), kind).value, 8);
            && |f| == 8 * (PayloadSize(kind) + 3) <= 5 * |s|
            && Group(Indices(s), 5)[..|f|] == f
            && Crc16Bursts.Codeword(f)
  {
    hide Group, Crc16.Checksum, Indices, Split, Crc16Bursts.Codeword, Sealed;
    AcceptedEncoded(s, kind);
    var bytes := Decoded(Text(s), kind).value;
    var n := |bytes|;
    var bits := Group(Indices(s), 5);
    Lengths(s, bytes);
    GroupSplit(bits[..8 * n], n, 8);
    SealedCodeword([VersionByte(kind)] + bytes[1..n - 2]);
  }

  lemma SameCharacterSameBits(s: string, t: string, i: nat)
    requires InAlphabet(s) && InAlphabet(t) && |s| == |t| && i < 5 * |s| && s[i / 5] == t[i / 5]
    ensures Group(Indices(s), 5)[i] == Group(Indices(t), 5)[i]
  {
    hide Group, BitAt;
    Position(|s|, i, 5);
    GroupBit(Indices(s), 5, i);
    GroupBit(Indices(t), 5, i);
  }

  /**
    Replacing a character of a valid StrKey, exchanging it with its neighbour, or any
    other change confined to two neighbouring characters gives a rejected text.
   */
  lemma TwoCharacterErrors(s: string, t: string, kind: Kind, k: nat)
    requires Decoded(Text(s), kind).Ok?
    requires |t| == |s| && t != s
    requires forall i :: 0 <= i < |s| && i != k && i != k + 1 ==> t[i] == s[i]
    ensures Decoded(Text(t), kind).Err?
  {
    hide Group, Indices, Decoded, Crc16Bursts.Codeword;
    if Decoded(Text(t), kind).Ok? {
      AcceptedBits(s, kind);
      AcceptedBits(t, kind);
      var a, b := Decoded(Text(s), kind).value, Decoded(Text(t), kind).value;
      var f, g := Group(a, 8), Group(b, 8);
      forall i | 0 <= i < |f| && !(5 * k <= i < 5 * k + 12) ensures f[i] == g[i] {
        SameCharacterSameBits(s, t, i);
        assert f[i] == Group(Indices(s), 5)[..|f|][i] == Group(Indices(s), 5)[i];
        assert g[i] == Group(Indices(t), 5)[..|g|][i] == Group(Indices(t), 5)[i];
      }
      Crc16Bursts.BurstDetected(f, g, 5 * k);
      SameBytes(a, b);
      AcceptedEncoded(s, kind);
      AcceptedEncoded(t, kind);
      assert false;
    }
  }

  lemma SameBytes(a: seq<byte>, b: seq<byte>)
    requires |a| == |b| && Group(a, 8) == Group(b, 8)
    ensures a == b
  {
    hide Group, Split;
    SplitBytes(a);
    SplitBytes(b);
  }

  // ---------------------------------------------------------------------------
  // Which errors are noticed
  // ---------------------------------------------------------------------------

  lemma CodewordSealed(bytes: seq<byte>)
    requires |bytes| >= 2 && Crc16Bursts.Codeword(Group(bytes, 8))
    ensures bytes == Sealed(bytes[..|bytes| - 2])
  {
    hide Group, Sealed, Crc16Bursts.Codeword;
    var n := |bytes| - 2;
    var body := bytes[..n];
    var f, g := Group(bytes, 8), Group(Sealed(body), 8);
    SealedCodeword(body);
    SealedLength(body);
    assert bytes == body + [bytes[n]] + [bytes[n + 1]];
    GroupSnoc(body, bytes[n], 8);
    GroupSnoc(body + [bytes[n]], bytes[n + 1], 8);
    assert f[..8 * n] == Group(body, 8) == g[..8 * n];
    Crc16Bursts.SameBody(f, g);
    SameBytes(bytes, Sealed(body));
  }

  lemma FirstByte(bytes: seq<byte>, v: byte)
    requires bytes != []
    ensures bytes[0] == v <==> Group(bytes, 8)[..8] == Bits(v, 8)
  {
    hide Group, Bits;
    GroupWord(bytes, 0, 8);
    assert Pow2(8) == 256 by { Pow2Values(); }
    ValueOfBits(bytes[0], 8);
    ValueOfBits(v, 8);
  }

  /** What the bits of a StrKey of a kind look like: version byte, checksum, and nothing left over. */
  ghost predicate KeyBits(kind: Kind, bits: seq<bool>) {
    var n := 8 * (PayloadSize(kind) + 3);
    && |bits| == 5 * StrKeyLength(kind)
    && bits[..8] == Bits(VersionByte(kind), 8)
    && Crc16Bursts.Codeword(bits[..n])
    && bits[n..] == Zeros(|bits| - n)
  }

  lemma DecodeOfBits(t: string, n: nat)
    requires InAlphabet(t) && n == ByteCount(|t|) && Group(Indices(t), 5)[8 * n..] == Zeros(5 * |t| - 8 * n)
    ensures Decode(t).Some?
  {
    hide Group, Indices, InAlphabet, Split;
  }

  lemma AcceptedExactly(t: string, kind: Kind)
    requires InAlphabet(t) && |t| == StrKeyLength(kind)
    ensures Decoded(Text(t), kind).Ok? <==> KeyBits(kind, Group(Indices(t), 5))
  {
    hide Group, Indices, InAlphabet, Sealed, Decode, Bits, Crc16Bursts.Codeword;
    var bits, n := Group(Indices(t), 5), PayloadSize(kind) + 3;
    assert n == ByteCount(|t|);
    if Decoded(Text(t), kind).Ok? {
      AcceptedBits(t, kind);
      DecodedIs(t);
      FirstByte(Decoded(Text(t), kind).value, VersionByte(kind));
      assert bits[..8 * n][..8] == bits[..8];
    }
    if KeyBits(kind, bits) {
      DecodeOfBits(t, n);
      DecodedIs(t);
      var bytes := Decode(t).value;
      assert bits[..8 * n][..8] == bits[..8];
      FirstByte(bytes, VersionByte(kind));
      CodewordSealed(bytes);
    }
  }

  /** Where the bits of two texts differ. */
  ghost function ErrorPattern(s: string, t: string): (e: seq<bool>)
    requires InAlphabet(s) && InAlphabet(t) && |s| == |t|
    ensures |e| == 5 * |s|
  {
    Crc16Bursts.XorBitstrings(Group(Indices(s), 5), Group(Indices(t), 5))
  }

  /** The error touches neither version byte nor left-over bits, and is itself a multiple of the generator. */
  ghost predicate SlipsThrough(kind: Kind, e: seq<bool>) {
    var n := 8 * (PayloadSize(kind) + 3);
    n <= |e| && e[..8] == Zeros(8) && Crc16Bursts.Codeword(e[..n]) && e[n..] == Zeros(|e| - n)
  }

  /**
    A corrupted StrKey of the same length is accepted if and only if it keeps to the alphabet
    and its error pattern slips through: which characters it had does not matter, only which
    bits changed.
   */
  lemma ErrorsExactly(s: string, t: string, kind: Kind)
    requires Decoded(Text(s), kind).Ok? && |t| == |s|
    ensures InAlphabet(s)
    ensures Decoded(Text(t), kind).Ok? <==> InAlphabet(t) && SlipsThrough(kind, ErrorPattern(s, t))
  {
    hide Group, Indices, InAlphabet, Decoded, Bits, Crc16Bursts.Codeword;
    AcceptedBits(s, kind);
    OkForm(s, kind);
    AcceptedExactly(s, kind);
    if Decoded(Text(t), kind).Ok? {
      OkForm(t, kind);
    }
    if InAlphabet(t) {
      AcceptedExactly(t, kind);
      BitsSlip(kind, Group(Indices(s), 5), Group(Indices(t), 5));
    }
  }

  lemma OkForm(s: string, kind: Kind)
    requires Decoded(Text(s), kind).Ok?
    ensures |s| == StrKeyLength(kind) && InAlphabet(s)
  {
    hide Sealed, Group, Indices, InAlphabet, Split;
  }

  lemma BitsSlip(kind: Kind, f: seq<bool>, g: seq<bool>)
    requires KeyBits(kind, f) && |g| == |f|
    ensures KeyBits(kind, g) <==> SlipsThrough(kind, Crc16Bursts.XorBitstrings(f, g))
  {
    hide Bits, Crc16Bursts.Codeword;
    var n := 8 * (PayloadSize(kind) + 3);
    var e := Crc16Bursts.XorBitstrings(f, g);
    assert e[..n] == Crc16Bursts.XorBitstrings(f[..n], g[..n]);
    Crc16Bursts.ErrorExactly(f[..n], g[..n]);
    SameWhereZero(f, g, 0, 8);
    SameWhereZero(f, g, n, |f|);
  }

  lemma SameWhereZero(f: seq<bool>, g: seq<bool>, a: nat, b: nat)
    requires |f| == |g| && a <= b <= |f|
    ensures Crc16Bursts.XorBitstrings(f, g)[a..b] == Zeros(b - a) <==> f[a..b] == g[a..b]
  {
    var e := Crc16Bursts.XorBitstrings(f, g);
    if e[a..b] == Zeros(b - a) {
      forall i | a <= i < b
        ensures f[i] == g[i]
      {
        assert e[a..b][i - a] == Zeros(b - a)[i - a];
      }
    }
    if f[a..b] == g[a..b] {
      forall i | a <= i < b
        ensures e[i] == false
      {
        assert f[a..b][i - a] == g[a..b][i - a];
      }
    }
  }

  // ---------------------------------------------------------------------------
  // Three neighbouring characters can slip through
  // ---------------------------------------------------------------------------

  /** The payload with the last-but-one bit of its last byte flipped. */
  ghost function Flipped(payload: seq<byte>): seq<byte>
    requires payload != []
  {
    var x := payload[|payload| - 1];
    assert Xor(x, 2) < 256 by { FlipBits(x); }
    payload[|payload| - 1 := Xor(x, 2)]
  }

  lemma FlipBits(x: byte)
    ensures Xor(x, 2) < 256 && Xor(x, 2) != x
    ensures Crc16Bursts.XorBitstrings(Bits(x, 8), Bits(Xor(x, 2), 8)) == Zeros(6) + [true, false]
  {
    hide Xor;
    assert Pow2(8) == 256 by { Pow2Values(); }
    XorBound(x, 2, 8);
    XorBits(x, 2, 8);
    Crc16.JoinBits(0, 4, 2, 4);
    Crc16.NibbleBits();
    assert Pow2(4) == 16 by { Pow2Values(); }
    assert Scale(0, 4) == 0 by { ScaleValues(0); }
    var two := Bits(2, 8);
    assert two == Zeros(6) + [true, false];
    assert two[6];
    var d := Crc16Bursts.XorBitstrings(Bits(x, 8), Bits(Xor(x, 2), 8));
    assert forall i :: 0 <= i < 8 ==> d[i] == two[i];
  }

  /** Flipping that bit adds x^13 + x^6 + x to the checksum polynomial. */
  lemma FlippedChecksum(prefix: seq<bool>, u: seq<bool>, v: seq<bool>)
    requires |u| == |v| == 8 && Crc16Bursts.XorBitstrings(u, v) == Zeros(6) + [true, false]
    ensures Crc16.Plus(Crc16.Crc(prefix + u), Crc16.Crc(prefix + v)) == Crc16.TimesX(Crc16.Generator(true))
  {
    hide Crc16.Remainder, Crc16.Plus, Crc16.Shifted;
    Crc16Bursts.TailDifference(prefix, u, v);
    var d := Zeros(6) + [true, false];
    Crc16Bursts.RemainderShifted(d, 16);
    assert Zeros(16 - |d|) + d == Zeros(14) + [true, false];
    assert Crc16.FromBits(Zeros(14) + [true, false]) == Crc16.TimesX(Crc16.Constant(true));
    Crc16.ShiftedTimesX(Crc16.Constant(true), 16);
    Crc16.ConstantShifted(true);
  }

  /** Where two codewords differ when only that bit of the body does. */
  lemma FlippedCodeword(f: seq<bool>, g: seq<bool>)
    requires Crc16Bursts.Codeword(f) && Crc16Bursts.Codeword(g) && |f| == |g| >= 24
    requires f[..|f| - 24] == g[..|f| - 24]
    requires Crc16Bursts.XorBitstrings(f[|f| - 24..|f| - 16], g[|f| - 24..|f| - 16]) == Zeros(6) + [true, false]
    ensures Crc16Bursts.DifferWithin(f, g, |f| - 18, 13)
  {
    hide Crc16.Crc, Crc16.FromBits, Crc16.Plus, Crc16.Generator, Crc16.TimesX;
    var n := |f| - 16;
    var u, v := f[n - 8..n], g[n - 8..n];
    assert f[..n] == f[..n - 8] + u && g[..n] == f[..n - 8] + v;
    FlippedChecksum(f[..n - 8], u, v);
    forall i | 0 <= i < |f| && !(n - 2 <= i < n + 11) ensures f[i] == g[i] {
      if i < n - 8 {
        assert f[i] == f[..n - 8][i] && g[i] == g[..n - 8][i];
      } else if i < n {
        assert Crc16Bursts.XorBitstrings(u, v)[i - (n - 8)] == (f[i] != g[i]);
      } else {
        HighCoefficient(f, g, i - n - 8);
      }
    }
  }

  lemma HighCoefficient(f: seq<bool>, g: seq<bool>, j: nat)
    requires Crc16Bursts.Codeword(f) && Crc16Bursts.Codeword(g) && |f| == |g| && 3 <= j < 8
    requires Crc16.Plus(Crc16.Crc(f[..|f| - 16]), Crc16.Crc(g[..|g| - 16])) == Crc16.TimesX(Crc16.Generator(true))
    ensures f[|f| - 8 + j] == g[|f| - 8 + j]
  {
    hide Crc16.Crc, Crc16.FromBits;
    var n := |f| - 16;
    var a, b := f[n + 8..] + f[n..n + 8], g[n + 8..] + g[n..n + 8];
    Crc16Bursts.CoefficientOf(a, j);
    Crc16Bursts.CoefficientOf(b, j);
    assert a[j] == f[n + 8 + j] && b[j] == g[n + 8 + j];
  }

  /** A character of an encoding depends on its five bits only. */
  lemma EncodedCharacter(a: seq<byte>, b: seq<byte>, i: nat)
    requires |a| == |b| && i < CharCount(|a|)
    requires forall j :: 5 * i <= j < 5 * i + 5 && j < 8 * |a| ==> Group(a, 8)[j] == Group(b, 8)[j]
    ensures |Encode(a)| == |Encode(b)| == CharCount(|a|) && Encode(a)[i] == Encode(b)[i]
  {
    hide Group, Value;
    var n := CharCount(|a|);
    var pad := Zeros(5 * n - 8 * |a|);
    var p, q := Group(a, 8) + pad, Group(b, 8) + pad;
    assert p[5 * i..5 * i + 5] == q[5 * i..5 * i + 5];
    assert Split(p, n, 5)[i] == Split(q, n, 5)[i];
  }

  /**
    Two neighbouring characters are the most that can be promised: every StrKey shares
    all but three neighbouring characters with another valid one.
   */
  lemma ThreeCharacterErrors(kind: Kind, payload: seq<byte>)
    requires |payload| == PayloadSize(kind)
    ensures var s := Encoded(VersionByte(kind), payload);
            var t := Encoded(VersionByte(kind), Flipped(payload));
            var k := if kind == MuxedAddress then 65 else 52;
            && Decoded(Text(s), kind).Ok? && Decoded(Text(t), kind).Ok?
            && s != t && |s| == |t| == StrKeyLength(kind)
            && forall i :: 0 <= i < |s| && i != k && i != k + 1 && i != k + 2 ==> s[i] == t[i]
  {
    hide Decoded, Encode, Group, Sealed, Xor, Bits, Crc16Bursts.Codeword, Crc16Bursts.XorBitstrings;
    var n := |payload|;
    var x := payload[n - 1];
    FlipBits(x);
    var flipped := Flipped(payload);
    EncodedAccepted(kind, payload);
    EncodedAccepted(kind, flipped);
    assert flipped[n - 1] != payload[n - 1];
    if Encoded(VersionByte(kind), payload) == Encoded(VersionByte(kind), flipped) {
      EncodedUnique(VersionByte(kind), payload, VersionByte(kind), flipped);
      assert false;
    }
    var head := [VersionByte(kind)] + payload[..n - 1];
    assert [VersionByte(kind)] + payload == head + [x];
    assert [VersionByte(kind)] + flipped == head + [Xor(x, 2)];
    FlippedSealed(head, x);
    var a, b := Sealed(head + [x]), Sealed(head + [Xor(x, 2)]);
    SealedLength(head + [x]);
    SealedLength(head + [Xor(x, 2)]);
    Lengths("", a);
    Lengths("", b);
    var k := if kind == MuxedAddress then 65 else 52;
    forall i | 0 <= i < StrKeyLength(kind) && i != k && i != k + 1 && i != k + 2
      ensures |Encode(a)| == |Encode(b)| == StrKeyLength(kind) && Encode(a)[i] == Encode(b)[i]
    {
      EncodedCharacter(a, b, i);
    }
  }

  lemma SealedLength(body: seq<byte>)
    ensures |Sealed(body)| == |body| + 2
  {
  }

  lemma FlippedSealed(head: seq<byte>, x: byte)
    ensures Xor(x, 2) < 256
    ensures var a, b := Sealed(head + [x]), Sealed(head + [Xor(x, 2)]);
            Crc16Bursts.DifferWithin(Group(a, 8), Group(b, 8), 8 * |head| + 6, 13)
  {
    hide Group, Xor, Bits, Crc16Bursts.Codeword, Crc16Bursts.XorBitstrings, Crc16.Checksum;
    FlipBits(x);
    var y := Xor(x, 2);
    var a, b := Sealed(head + [x]), Sealed(head + [y]);
    SealedCodeword(head + [x]);
    SealedCodeword(head + [y]);
    GroupSnoc(head, x, 8);
    GroupSnoc(head, y, 8);
    var f, g, m := Group(a, 8), Group(b, 8), 8 * |head|;
    assert f[..m + 8] == Group(head, 8) + Bits(x, 8) && g[..m + 8] == Group(head, 8) + Bits(y, 8);
    assert f[..m] == f[..m + 8][..m] == Group(head, 8) && g[..m] == g[..m + 8][..m] == Group(head, 8);
    assert f[m..m + 8] == f[..m + 8][m..] == Bits(x, 8) && g[m..m + 8] == g[..m + 8][m..] == Bits(y, 8);
    FlippedCodeword(f, g);
  }
}
