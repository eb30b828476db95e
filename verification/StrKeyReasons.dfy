/**
  Why decoding refuses a text: the reasons are machine-readable, and each can be told from
  the text, or from how a valid StrKey was corrupted.
 */
module StrKeyReasons {
  import opened Wrappers
  import opened JsBits
  import opened Base32
  import Crc16
  import Crc16Bursts
  import opened StrKey
  import opened StrKeyErrors

  /** The bits behind the last whole byte. */
  ghost predicate Padded(kind: Kind, bits: seq<bool>) {
    var n := 8 * (PayloadSize(kind) + 3);
    n <= |bits| && bits[n..] == Zeros(|bits| - n)
  }

  lemma SealedExactly(bytes: seq<byte>)
    requires |bytes| >= 2
    ensures bytes == Sealed(bytes[..|bytes| - 2]) <==> Crc16Bursts.Codeword(Group(bytes, 8))
  {
    hide Group, Sealed, Crc16Bursts.Codeword;
    if bytes == Sealed(bytes[..|bytes| - 2]) {
      SealedCodeword(bytes[..|bytes| - 2]);
    }
    if Crc16Bursts.Codeword(Group(bytes, 8)) {
      CodewordSealed(bytes);
    }
  }

  /** A text of the right length over the alphabet: the answer by its bits. */
  lemma AnswerOfBits(t: string, kind: Kind)
    requires InAlphabet(t) && |t| == StrKeyLength(kind)
    ensures var (answer, bits) := (Decoded(Text(t), kind), Group(Indices(t), 5));
            if !Padded(kind, bits) then answer == Err(InvalidBase32)
            else if bits[..8] != Bits(VersionByte(kind), 8) then answer == Err(WrongVersionByte)
            else if !Crc16Bursts.Codeword(bits[..8 * (PayloadSize(kind) + 3)]) then answer == Err(InvalidChecksum)
            else answer.Ok?
  {
    hide Group, Indices, InAlphabet, Sealed, Bits, Crc16Bursts.Codeword, Split;
    var bits, n := Group(Indices(t), 5), PayloadSize(kind) + 3;
    assert n == ByteCount(|t|);
    if Padded(kind, bits) {
      DecodedIs(t);
      var bytes := Decode(t).value;
      hide Decode;
      assert bits[..8 * n][..8] == bits[..8];
      FirstByte(bytes, VersionByte(kind));
      SealedExactly(bytes);
    }
  }

  /** Every answer, by the text. */
  lemma ReasonExactly(value: Input, kind: Kind)
    ensures var answer := Decoded(value, kind);
            && (answer == Err(NotAString) <==> value.NotText?)
            && (answer == Err(Empty) <==> value == Text(""))
            && (answer == Err(WrongLength) <==> value.Text? && value.text != "" && |value.text| != StrKeyLength(kind))
            && (answer == Err(InvalidBase32) <==>
                  && value.Text? && |value.text| == StrKeyLength(kind)
                  && (!InAlphabet(value.text) || !Padded(kind, Group(Indices(value.text), 5))))
  {
    hide Group, Indices, InAlphabet, Padded, Bits, Crc16Bursts.Codeword, Sealed, Split;
    if value.Text? && |value.text| == StrKeyLength(kind) {
      if InAlphabet(value.text) {
        hide Decoded;
        AnswerOfBits(value.text, kind);
      }
    }
  }

  /**
    What a corruption of a valid StrKey of the same length is answered with: a character
    outside the alphabet or left-over bits come before a changed version byte, and that
    before a checksum that does not match, which is the answer to any other error pattern
    that is not a codeword.
   */
  lemma CorruptionReason(s: string, t: string, kind: Kind)
    requires Decoded(Text(s), kind).Ok? && |t| == |s|
    ensures InAlphabet(s)
    ensures var answer, n := Decoded(Text(t), kind), 8 * (PayloadSize(kind) + 3);
            if !InAlphabet(t) then answer == Err(InvalidBase32)
            else
              var e := ErrorPattern(s, t);
              && |e| >= n
              && if e[n..] != Zeros(|e| - n) then answer == Err(InvalidBase32)
                 else if e[..8] != Zeros(8) then answer == Err(WrongVersionByte)
                 else if !Crc16Bursts.Codeword(e[..n]) then answer == Err(InvalidChecksum)
                 else answer.Ok?
  {
    hide Group, Indices, InAlphabet, Decoded, Bits, Crc16Bursts.Codeword;
    OkForm(s, kind);
    AcceptedExactly(s, kind);
    if InAlphabet(t) {
      AnswerOfBits(t, kind);
      PatternOf(kind, Group(Indices(s), 5), Group(Indices(t), 5));
    } else {
      ReasonExactly(Text(t), kind);
    }
  }

  /** Comparing the bits of a StrKey with others, part by part. */
  lemma PatternOf(kind: Kind, f: seq<bool>, g: seq<bool>)
    requires KeyBits(kind, f) && |g| == |f|
    ensures var e, n := Crc16Bursts.XorBitstrings(f, g), 8 * (PayloadSize(kind) + 3);
            && (e[n..] == Zeros(|e| - n) <==> Padded(kind, g))
            && (e[..8] == Zeros(8) <==> g[..8] == Bits(VersionByte(kind), 8))
            && (Crc16Bursts.Codeword(e[..n]) <==> Crc16Bursts.Codeword(g[..n]))
  {
    hide Bits, Crc16Bursts.Codeword;
    var n := 8 * (PayloadSize(kind) + 3);
    var e := Crc16Bursts.XorBitstrings(f, g);
    assert e[..n] == Crc16Bursts.XorBitstrings(f[..n], g[..n]);
    Crc16Bursts.ErrorExactly(f[..n], g[..n]);
    SameWhereZero(f, g, 0, 8);
    SameWhereZero(f, g, n, |f|);
  }

  /** A valid StrKey read as another kind: the version byte tells them apart, where the length does not. */
  lemma OtherKindReason(s: string, kind: Kind, other: Kind)
    requires Decoded(Text(s), kind).Ok? && other != kind
    ensures Decoded(Text(s), other) == Err(if StrKeyLength(other) == StrKeyLength(kind) then WrongVersionByte else WrongLength)
  {
    hide Decode, Sealed;
  }

  /**
    A change of a valid StrKey confined to two neighbouring characters of the alphabet, after
    the second character and before the last one: the checksum does not match.
   */
  lemma MistypedReason(s: string, t: string, kind: Kind, k: nat)
    requires Decoded(Text(s), kind).Ok? && |t| == |s| && t != s && InAlphabet(t)
    requires 2 <= k < |s| - 2 && forall i :: 0 <= i < |s| && i != k && i != k + 1 ==> t[i] == s[i]
    ensures Decoded(Text(t), kind) == Err(InvalidChecksum)
  {
    hide Group, Indices, InAlphabet, Decoded, Crc16Bursts.Codeword;
    OkForm(s, kind);
    CorruptionReason(s, t, kind);
    TwoCharacterErrors(s, t, kind, k);
    var e := ErrorPattern(s, t);
    forall i | 0 <= i < |e| && (i < 8 || i >= 5 * |s| - 5)
      ensures !e[i]
    {
      SameCharacterSameBits(s, t, i);
    }
  }

  // ---------------------------------------------------------------------------
  // How StrKeys begin
  // ---------------------------------------------------------------------------

  /** Public keys begin with G, contract ids with C, muxed addresses with M. */
  lemma FirstCharacter(kind: Kind, payload: seq<byte>)
    requires |payload| == PayloadSize(kind)
    ensures var s := Encoded(VersionByte(kind), payload);
            s != "" && s[0] == match kind
                               case Ed25519PublicKey => 'G'
                               case ContractId => 'C'
                               case MuxedAddress => 'M'
  {
    hide *;
    var s := Encoded(VersionByte(kind), payload);
    EncodedAccepted(kind, payload);
    OkForm(s, kind);
    Beginning(s, kind);
    FirstIndex(s, VersionByte(kind));
    Initial(s[0], kind);
  }

  lemma Initial(c: char, kind: Kind)
    requires c in ALPHABET && IndexOf(c) == VersionByte(kind) / 8
    ensures c == match kind
                 case Ed25519PublicKey => 'G'
                 case ContractId => 'C'
                 case MuxedAddress => 'M'
  {
    hide IndexOf;
    var i :| 0 <= i < |ALPHABET| && ALPHABET[i] == c;
    AlphabetIndex(i);
    AlphabetOrder(i);
  }

  lemma Beginning(s: string, kind: Kind)
    requires Decoded(Text(s), kind).Ok? && InAlphabet(s) && |s| == StrKeyLength(kind)
    ensures |s| >= 2 && s[0] in ALPHABET && Group(Indices(s), 5)[..8] == Bits(VersionByte(kind), 8)
  {
    hide Decoded, Group, Indices, Bits;
    AcceptedExactly(s, kind);
  }

  lemma FirstIndex(s: string, x: byte)
    requires InAlphabet(s) && |s| >= 2 && Group(Indices(s), 5)[..8] == Bits(x, 8)
    ensures IndexOf(s[0]) == x / 8
  {
    hide Group, Indices, Bits, InAlphabet;
    GroupWord(Indices(s), 0, 5);
    var bits := Group(Indices(s), 5);
    assert bits[..8][..5] == bits[..5] == Bits(IndexOf(s[0]), 5);
    HighBits(x);
    Pow2Values();
    ValueOfBits(IndexOf(s[0]), 5);
    ValueOfBits(x / 8, 5);
  }

  lemma HighBits(x: byte)
    ensures Bits(x, 8)[..5] == Bits(x / 8, 5)
  {
    assert Bits(x, 8) == Bits(x / 2, 7) + [Bits(x, 8)[7]];
    assert Bits(x / 2, 7) == Bits(x / 4, 6) + [Bits(x / 2, 7)[6]];
    assert Bits(x / 4, 6) == Bits(x / 8, 5) + [Bits(x / 4, 6)[5]];
  }
}
