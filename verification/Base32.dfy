/**
  The base32 half of packages/shared/src/strkey.ts: two loops that push bits through a
  small integer buffer, each proved equal to regrouping one bit string into words of
  another width (section 6 of RFC 4648).
 */
module Base32 {
  import opened JsBits
  import opened Wrappers

  const ALPHABET: string := "ABCDEFGHIJKLMNOPQRSTUVWXYZ234567"

  /** String.prototype.indexOf for one character. */
  function IndexIn(s: string, c: char): (i: int)
    ensures -1 <= i < |s|
    ensures i == -1 <==> c !in s
    ensures i >= 0 ==> s[i] == c && forall j :: 0 <= j < i ==> s[j] != c
  {
    if c !in s then -1
    else if s[0] == c then 0
    else 1 + IndexIn(s[1..], c)
  }

  function IndexOf(c: char): (i: int)
    ensures -1 <= i < 32
  {
    IndexIn(ALPHABET, c)
  }

  /** The letters then the digits 2 to 7: no character occurs twice. */
  lemma AlphabetIndex(i: nat)
    requires i < 32
    ensures IndexOf(ALPHABET[i]) == i
  {
    AlphabetOrder(i);
    AlphabetOrder(IndexIn(ALPHABET, ALPHABET[i]));
  }

  lemma AlphabetOrder(i: nat)
    requires i < 32
    ensures ALPHABET[i] as int == if i < 26 then 65 + i else 24 + i
  {
  }

  // ---------------------------------------------------------------------------
  // Words of a fixed width and the bit string they spell
  // ---------------------------------------------------------------------------

  /** The two word widths: a base32 character and a byte. */
  type width = w: nat | w == 5 || w == 8 witness 5

  /** The length of n words. */
  function Span(n: nat, w: width): nat {
    if w == 5 then 5 * n else 8 * n
  }

  ghost predicate Fits(words: seq<nat>, w: width) {
    forall i :: 0 <= i < |words| ==> words[i] < Pow2(w)
  }

  function WordAt(i: nat, w: width): nat {
    if w == 5 then i / 5 else i / 8
  }

  function BitAt(i: nat, w: width): nat {
    if w == 5 then i % 5 else i % 8
  }

  lemma Position(n: nat, i: nat, w: width)
    requires i < Span(n, w)
    ensures WordAt(i, w) < n && BitAt(i, w) < w && i == Span(WordAt(i, w), w) + BitAt(i, w)
  {
  }

  lemma PositionOf(k: nat, j: nat, w: width)
    requires j < w
    ensures WordAt(Span(k, w) + j, w) == k && BitAt(Span(k, w) + j, w) == j
  {
  }

  /** The concatenated bits of words that are w bits wide. */
  function Group(words: seq<nat>, w: width): (r: seq<bool>)
    ensures |r| == Span(|words|, w)
  {
    seq(Span(|words|, w), i requires 0 <= i < Span(|words|, w) =>
      Position(|words|, i, w);
      Bits(words[WordAt(i, w)], w)[BitAt(i, w)])
  }

  /** A bit string cut into n words of w bits. */
  function Split(bits: seq<bool>, n: nat, w: width): (r: seq<nat>)
    requires |bits| == Span(n, w)
    ensures |r| == n && Fits(r, w)
  {
    seq(n, k requires 0 <= k < n => Value(bits[Span(k, w)..Span(k + 1, w)]))
  }

  lemma GroupWord(words: seq<nat>, k: nat, w: width)
    requires k < |words|
    ensures Group(words, w)[Span(k, w)..Span(k + 1, w)] == Bits(words[k], w)
  {
    hide Bits;
    var bits := Group(words, w)[Span(k, w)..Span(k + 1, w)];
    forall j | 0 <= j < w ensures bits[j] == Bits(words[k], w)[j] {
      PositionOf(k, j, w);
    }
  }

  lemma SplitGroup(words: seq<nat>, w: width)
    requires Fits(words, w)
    ensures Split(Group(words, w), |words|, w) == words
  {
    var r := Split(Group(words, w), |words|, w);
    forall k | 0 <= k < |words| ensures r[k] == words[k] {
      GroupWord(words, k, w);
      ValueOfBits(words[k], w);
    }
  }

  lemma GroupBit(words: seq<nat>, w: width, i: nat)
    requires i < Span(|words|, w)
    ensures WordAt(i, w) < |words| && BitAt(i, w) < w
    ensures Group(words, w)[i] == Bits(words[WordAt(i, w)], w)[BitAt(i, w)]
  {
    hide Bits, Span, WordAt, BitAt;
    Position(|words|, i, w);
  }

  lemma SplitBit(bits: seq<bool>, n: nat, w: width, i: nat)
    requires |bits| == Span(n, w) && i < |bits|
    ensures WordAt(i, w) < n && BitAt(i, w) < w
    ensures Bits(Split(bits, n, w)[WordAt(i, w)], w)[BitAt(i, w)] == bits[i]
  {
    hide Bits, Value;
    Position(n, i, w);
    var k := WordAt(i, w);
    var chunk := bits[Span(k, w)..Span(k + 1, w)];
    assert |chunk| == w && chunk[BitAt(i, w)] == bits[i];
    BitsOfValue(chunk);
  }

  lemma GroupSplit(bits: seq<bool>, n: nat, w: width)
    requires |bits| == Span(n, w)
    ensures Group(Split(bits, n, w), w) == bits
  {
    hide *;
    var words := Split(bits, n, w);
    forall i | 0 <= i < |bits| ensures Group(words, w)[i] == bits[i] {
      GroupBit(words, w, i);
      SplitBit(bits, n, w, i);
    }
  }

  lemma SpanNext(n: nat, w: width)
    ensures Span(n + 1, w) == Span(n, w) + w
  {
  }

  lemma GroupSnoc(words: seq<nat>, x: nat, w: width)
    ensures Group(words + [x], w) == Group(words, w) + Bits(x, w)
  {
    hide Bits, Group, Span, WordAt, BitAt;
    var longer, n := words + [x], |words|;
    SpanNext(n, w);
    forall i | 0 <= i < Span(n + 1, w) ensures Group(longer, w)[i] == (Group(words, w) + Bits(x, w))[i] {
      GroupBit(longer, w, i);
      if i < Span(n, w) {
        GroupBit(words, w, i);
      } else {
        PositionOf(n, i - Span(n, w), w);
      }
    }
  }

  // ---------------------------------------------------------------------------
  // What encoding and decoding mean
  // ---------------------------------------------------------------------------

  function Chars(quintets: seq<nat>): (s: string)
    requires Fits(quintets, 5)
    ensures |s| == |quintets|
    ensures forall i :: 0 <= i < |s| ==> quintets[i] < 32 && s[i] == ALPHABET[quintets[i]]
  {
    Pow2Values();
    seq(|quintets|, i requires 0 <= i < |quintets| => ALPHABET[quintets[i]])
  }

  ghost predicate InAlphabet(s: string) {
    forall i :: 0 <= i < |s| ==> s[i] in ALPHABET
  }

  ghost function Indices(s: string): (r: seq<nat>)
    requires InAlphabet(s)
    ensures |r| == |s| && Fits(r, 5)
    ensures forall i :: 0 <= i < |s| ==> r[i] == IndexOf(s[i])
  {
    Pow2Values();
    seq(|s|, i requires 0 <= i < |s| => IndexOf(s[i]))
  }

  /** How many characters n bytes take, and how many whole bytes n characters hold. */
  function CharCount(n: nat): nat {
    (8 * n + 4) / 5
  }

  function ByteCount(n: nat): nat {
    5 * n / 8
  }

  function Bytes(words: seq<nat>): (r: seq<byte>)
    requires Fits(words, 8)
    ensures r == words
  {
    assert Pow2(8) == 256 by { Pow2Values(); }
    words
  }

  /** The bytes' bits, padded with zeros to a multiple of five, five bits a character. */
  ghost function Encode(bytes: seq<byte>): string {
    var n := CharCount(|bytes|);
    Chars(Split(Group(bytes, 8) + Zeros(5 * n - 8 * |bytes|), n, 5))
  }

  /** The characters' bits, eight bits a byte; what is left over must be zero. */
  ghost function Decode(s: string): Option<seq<byte>> {
    if !InAlphabet(s) then None
    else
      var bits := Group(Indices(s), 5);
      var n := ByteCount(|s|);
      if bits[8 * n..] != Zeros(5 * |s| - 8 * n) then None
      else Some(Bytes(Split(bits[..8 * n], n, 8)))
  }

  // ---------------------------------------------------------------------------
  // The loops of the source
  // ---------------------------------------------------------------------------

  method Base32Decode(input: string) returns (result: Option<seq<byte>>)
    ensures result == Decode(input)
  {
    hide *;
    var bits, buffer := 0, 0;
    var bytes: seq<byte> := [];
    DecodingStart();
    for i := 0 to |input|
      invariant 0 <= bits < 8 && 0 <= buffer < Pow2(bits)
      invariant Decoding(bytes, buffer, bits, input[..i])
    {
      var index := IndexOf(input[i]);
      if index == -1 {
        DecodingReject(input, i);
        return None;
      }
      assert input[..i + 1] == input[..i] + [input[i]];
      PushQuintet(buffer, bits, index);
      DecodingPush(bytes, buffer, bits, input[..i], input[i]);
      buffer := Or(Shl(buffer, 5), index);
      bits := bits + 5;
      if bits >= 8 {
        bits := bits - 8;
        DecodingTake(bytes, buffer, bits, input[..i + 1]);
        bytes := bytes + [And(Shr(buffer, bits), 0xff)];
      }
      DecodingMask(bytes, buffer, bits, input[..i + 1]);
      buffer := And(buffer, LowMask(bits));
    }
    assert input[..|input|] == input;
    DecodingEnd(bytes, buffer, bits, input);
    if bits > 0 && buffer != 0 {
      return None;
    }
    return Some(bytes);
  }

  /** The decoding loop's invariant: the bytes and the buffer's low bits are the bits of the text read. */
  ghost predicate Decoding(bytes: seq<byte>, buffer: nat, bits: nat, text: string) {
    InAlphabet(text) && Group(bytes, 8) + Bits(buffer, bits) == Group(Indices(text), 5)
  }

  lemma DecodingStart()
    ensures Decoding([], 0, 0, "") && Pow2(0) == 1
  {
  }

  lemma DecodingReject(text: string, i: nat)
    requires i < |text| && IndexOf(text[i]) == -1
    ensures Decode(text) == None
  {
  }

  lemma DecodingMask(bytes: seq<byte>, buffer: nat, bits: nat, text: string)
    requires bits <= 16 && Decoding(bytes, buffer, bits, text)
    ensures And(buffer, LowMask(bits)) < Pow2(bits) && Decoding(bytes, And(buffer, LowMask(bits)), bits, text)
  {
    hide Group, Bits, And;
    AndMask(buffer, bits);
  }

  lemma DecodingPush(bytes: seq<byte>, buffer: nat, bits: nat, text: string, c: char)
    requires Decoding(bytes, buffer, bits, text) && IndexOf(c) >= 0 && Scale(buffer, 5) < INT32_LIMIT
    requires Bits(Or(Shl(buffer, 5), IndexOf(c)), bits + 5) == Bits(buffer, bits) + Bits(IndexOf(c), 5)
    ensures Decoding(bytes, Or(Shl(buffer, 5), IndexOf(c)), bits + 5, text + [c])
  {
    hide Group, Bits, Split, Chars, And, Or, Pow2, Indices, InAlphabet, IndexOf, Scale;
    var index, before, g := IndexOf(c), Indices(text), Group(bytes, 8);
    IndicesSnoc(text, c);
    GroupSnoc(before, index, 5);
    assert g + (Bits(buffer, bits) + Bits(index, 5)) == g + Bits(buffer, bits) + Bits(index, 5);
  }

  lemma IndicesSnoc(text: string, c: char)
    requires InAlphabet(text) && IndexOf(c) >= 0
    ensures InAlphabet(text + [c]) && Indices(text + [c]) == Indices(text) + [IndexOf(c)]
  {
  }

  lemma DecodingTake(bytes: seq<byte>, buffer: nat, bits: nat, text: string)
    requires Decoding(bytes, buffer, bits + 8, text)
    ensures And(Shr(buffer, bits), 0xff) < 256
    ensures Decoding(bytes + [And(Shr(buffer, bits), 0xff)], buffer, bits, text)
  {
    hide Group, Bits, Split, Chars, And, Or, Pow2;
    var b := And(Shr(buffer, bits), 0xff);
    TakeWord(buffer, bits, 8);
    assert b < 256 by { Pow2Values(); }
    GroupSnoc(bytes, b, 8);
    var g := Group(bytes, 8);
    assert g + (Bits(b, 8) + Bits(buffer, bits)) == g + Bits(b, 8) + Bits(buffer, bits);
  }

  lemma DecodingEnd(bytes: seq<byte>, buffer: nat, bits: nat, text: string)
    requires bits < 8 && buffer < Pow2(bits) && Decoding(bytes, buffer, bits, text)
    ensures Decode(text) == if bits > 0 && buffer != 0 then None else Some(bytes)
  {
    var all := Group(Indices(text), 5);
    var n := |bytes|;
    assert ByteCount(|text|) == n;
    assert all[..8 * n] == Group(bytes, 8) && all[8 * n..] == Bits(buffer, bits);
    BitsZero(buffer, bits);
    SplitBytes(bytes);
  }

  /** The decoding loop's buffer after one more character: below 2^12, five bits longer. */
  lemma PushQuintet(buffer: nat, bits: nat, index: nat)
    requires bits < 8 && buffer < Pow2(bits) && index < 32
    ensures Scale(buffer, 5) < INT32_LIMIT
    ensures Or(Shl(buffer, 5), index) < Pow2(bits + 5) <= 4096
    ensures Bits(Or(Shl(buffer, 5), index), bits + 5) == Bits(buffer, bits) + Bits(index, 5)
  {
    Pow2Values();
    Pow2Mono(bits, 7);
    Pow2Mono(bits + 5, 12);
    ScaleValues(buffer);
    BitsAppend(buffer, bits, index, 5);
  }

  /** The word of w bits that sits above the k low bits of the buffer. */
  lemma TakeWord(buffer: nat, k: nat, w: width)
    ensures And(Shr(buffer, k), if w == 8 then 0xff else 0x1f) < Pow2(w)
    ensures Bits(buffer, w + k) == Bits(And(Shr(buffer, k), if w == 8 then 0xff else 0x1f), w) + Bits(buffer, k)
  {
    Pow2Values();
    BitsSplit(buffer, w, k);
    AndMask(Shr(buffer, k), w);
  }

  method Base32Encode(bytes: seq<byte>) returns (out: string)
    ensures out == Encode(bytes)
  {
    hide *;
    var bits, buffer := 0, 0;
    out := "";
    ghost var quintets: seq<nat> := [];
    EncodingStart();
    for i := 0 to |bytes|
      invariant 0 <= bits < 5 && 0 <= buffer < Pow2(bits)
      invariant Encoding(quintets, out, buffer, bits, bytes[..i])
    {
      assert bytes[..i + 1] == bytes[..i] + [bytes[i]];
      PushByte(buffer, bits, bytes[i]);
      EncodingByte(quintets, out, buffer, bits, bytes[..i], bytes[i]);
      buffer := Or(Shl(buffer, 8), bytes[i]);
      bits := bits + 8;
      while bits >= 5
        invariant 0 <= bits <= 12
        invariant Encoding(quintets, out, buffer, bits, bytes[..i + 1])
      {
        bits := bits - 5;
        EncodingQuintet(quintets, out, buffer, bits, bytes[..i + 1]);
        ghost var q := And(Shr(buffer, bits), 0x1f);
        quintets := quintets + [q];
        out := out + [ALPHABET[And(Shr(buffer, bits), 0x1f)]];
      }
      EncodingMask(quintets, out, buffer, bits, bytes[..i + 1]);
      buffer := And(buffer, LowMask(bits));
    }
    assert bytes[..|bytes|] == bytes;
    EncodingEnd(quintets, out, buffer, bits, bytes);
    if bits > 0 {
      out := out + [ALPHABET[And(Shl(buffer, 5 - bits), 0x1f)]];
    }
  }

  /** The encoding loops' invariant: the characters written and the low bits of the buffer hold the bits read. */
  ghost predicate Encoding(quintets: seq<nat>, out: string, buffer: nat, bits: nat, read: seq<byte>) {
    && Fits(quintets, 5) && out == Chars(quintets)
    && Group(quintets, 5) + Bits(buffer, bits) == Group(read, 8)
  }

  lemma EncodingStart()
    ensures Encoding([], "", 0, 0, []) && Pow2(0) == 1 && |ALPHABET| == 32
  {
  }

  lemma EncodingMask(quintets: seq<nat>, out: string, buffer: nat, bits: nat, read: seq<byte>)
    requires bits <= 16 && Encoding(quintets, out, buffer, bits, read)
    ensures And(buffer, LowMask(bits)) < Pow2(bits) && Encoding(quintets, out, And(buffer, LowMask(bits)), bits, read)
  {
    hide Group, Bits, And, Chars;
    AndMask(buffer, bits);
  }

  lemma EncodingByte(quintets: seq<nat>, out: string, buffer: nat, bits: nat, read: seq<byte>, b: byte)
    requires Encoding(quintets, out, buffer, bits, read)
    requires Scale(buffer, 8) < INT32_LIMIT
    requires Bits(Or(Shl(buffer, 8), b), bits + 8) == Bits(buffer, bits) + Bits(b, 8)
    ensures Encoding(quintets, out, Or(Shl(buffer, 8), b), bits + 8, read + [b])
  {
    hide Group, Bits, Chars, Or;
    GroupSnoc(read, b, 8);
    var g := Group(quintets, 5);
    assert g + (Bits(buffer, bits) + Bits(b, 8)) == g + Bits(buffer, bits) + Bits(b, 8);
  }

  lemma EncodingQuintet(quintets: seq<nat>, out: string, buffer: nat, bits: nat, read: seq<byte>)
    requires Encoding(quintets, out, buffer, bits + 5, read)
    ensures var q := And(Shr(buffer, bits), 0x1f);
            q < 32 && Encoding(quintets + [q], out + [ALPHABET[q]], buffer, bits, read)
  {
    hide Group, Bits, Split, Chars, And, Or, Pow2;
    var q := And(Shr(buffer, bits), 0x1f);
    TakeWord(buffer, bits, 5);
    EmitQuintet(quintets, out, q);
    var g := Group(quintets, 5);
    assert g + (Bits(q, 5) + Bits(buffer, bits)) == g + Bits(q, 5) + Bits(buffer, bits);
  }

  lemma EmitQuintet(quintets: seq<nat>, out: string, q: nat)
    requires Fits(quintets, 5) && out == Chars(quintets) && q < Pow2(5)
    ensures q < 32 && Fits(quintets + [q], 5) && Chars(quintets + [q]) == out + [ALPHABET[q]]
    ensures Group(quintets + [q], 5) == Group(quintets, 5) + Bits(q, 5)
  {
    Pow2Values();
    GroupSnoc(quintets, q, 5);
  }

  lemma EncodingEnd(quintets: seq<nat>, out: string, buffer: nat, bits: nat, read: seq<byte>)
    requires bits < 5 && buffer < Pow2(bits) && Encoding(quintets, out, buffer, bits, read)
    ensures bits == 0 ==> Encode(read) == out
    ensures bits > 0 ==>
              && Scale(buffer, 5 - bits) < INT32_LIMIT
              && And(Shl(buffer, 5 - bits), 0x1f) < 32
              && Encode(read) == out + [ALPHABET[And(Shl(buffer, 5 - bits), 0x1f)]]
  {
    var g, n := Group(read, 8), CharCount(|read|);
    if bits == 0 {
      assert n == |quintets| && g + Zeros(0) == Group(quintets, 5);
      SplitGroup(quintets, 5);
    } else {
      PadQuintet(buffer, bits);
      EncodingLast(quintets, out, buffer, bits, read, And(Shl(buffer, 5 - bits), 0x1f));
    }
  }

  lemma EncodingLast(quintets: seq<nat>, out: string, buffer: nat, bits: nat, read: seq<byte>, q: nat)
    requires 0 < bits < 5 && q < Pow2(5) && Encoding(quintets, out, buffer, bits, read)
    requires Bits(q, 5) == Bits(buffer, bits) + Zeros(5 - bits)
    ensures q < 32 && Encode(read) == out + [ALPHABET[q]]
  {
    hide Group, Bits, Split, Chars, And, Or, Pow2;
    var g, n := Group(read, 8), CharCount(|read|);
    EmitQuintet(quintets, out, q);
    assert n == |quintets| + 1;
    assert g + Zeros(5 - bits) == Group(quintets + [q], 5);
    SplitGroup(quintets + [q], 5);
  }

  /** The encoding loop's buffer after one more byte: below 2^12, eight bits longer. */
  lemma PushByte(buffer: nat, bits: nat, b: byte)
    requires bits < 5 && buffer < Pow2(bits)
    ensures Scale(buffer, 8) < INT32_LIMIT
    ensures Or(Shl(buffer, 8), b) < Pow2(bits + 8) <= 4096
    ensures Bits(Or(Shl(buffer, 8), b), bits + 8) == Bits(buffer, bits) + Bits(b, 8)
  {
    Pow2Values();
    Pow2Mono(bits, 4);
    Pow2Mono(bits + 8, 12);
    ScaleValues(buffer);
    BitsAppend(buffer, bits, b, 8);
  }

  lemma PadQuintet(buffer: nat, bits: nat)
    requires 0 < bits < 5 && buffer < Pow2(bits)
    ensures Scale(buffer, 5 - bits) < INT32_LIMIT
    ensures And(Shl(buffer, 5 - bits), 0x1f) < Pow2(5)
    ensures Bits(And(Shl(buffer, 5 - bits), 0x1f), 5) == Bits(buffer, bits) + Zeros(5 - bits)
  {
    hide Bits, And, Or;
    var k := 5 - bits;
    var v := Scale(buffer, k);
    assert Pow2(5) == 32 by { Pow2Values(); }
    BitsZero(0, k);
    OrZero(v);
    BitsAppend(buffer, bits, 0, k);
    AndMask(v, 5);
  }

  // ---------------------------------------------------------------------------
  // Round trips
  // ---------------------------------------------------------------------------

  lemma IndicesOfChars(quintets: seq<nat>)
    requires Fits(quintets, 5)
    ensures InAlphabet(Chars(quintets)) && Indices(Chars(quintets)) == quintets
  {
    var s := Chars(quintets);
    forall i | 0 <= i < |s| ensures s[i] in ALPHABET && IndexOf(s[i]) == quintets[i] {
      AlphabetIndex(quintets[i]);
    }
  }

  lemma CharsOfIndices(s: string)
    requires InAlphabet(s)
    ensures Chars(Indices(s)) == s
  {
  }

  lemma SplitBytes(bytes: seq<byte>)
    ensures Split(Group(bytes, 8), |bytes|, 8) == bytes
  {
    assert Fits(bytes, 8) by { Pow2Values(); }
    SplitGroup(bytes, 8);
  }

  /** Decoding undoes encoding, for every byte string. */
  lemma DecodeEncode(bytes: seq<byte>)
    ensures Decode(Encode(bytes)) == Some(bytes)
  {
    var bits, n := Group(bytes, 8), CharCount(|bytes|);
    var pad := 5 * n - 8 * |bytes|;
    IndicesOfChars(Split(bits + Zeros(pad), n, 5));
    GroupSplit(bits + Zeros(pad), n, 5);
    SplitBytes(bytes);
    assert ByteCount(n) == |bytes|;
    assert (bits + Zeros(pad))[..8 * |bytes|] == bits && (bits + Zeros(pad))[8 * |bytes|..] == Zeros(pad);
  }

  /** What a text that decodes looks like, and what its bytes are. */
  lemma DecodedIs(s: string)
    requires Decode(s).Some?
    ensures InAlphabet(s)
    ensures var bits, n, bytes := Group(Indices(s), 5), ByteCount(|s|), Decode(s).value;
            && bits[8 * n..] == Zeros(5 * |s| - 8 * n)
            && |bytes| == n && Group(bytes, 8) == bits[..8 * n]
  {
    hide Group, Split, Indices;
    GroupSplit(Group(Indices(s), 5)[..8 * ByteCount(|s|)], ByteCount(|s|), 8);
  }

  lemma EncodedIs(bytes: seq<byte>, bits: seq<bool>)
    requires |bits| == Span(CharCount(|bytes|), 5) && bits == Group(bytes, 8) + Zeros(5 * CharCount(|bytes|) - 8 * |bytes|)
    ensures Encode(bytes) == Chars(Split(bits, CharCount(|bytes|), 5)) && |Encode(bytes)| == CharCount(|bytes|)
  {
    hide Group, Split, Chars;
  }

  /** Whole bytes fill whole characters again exactly when fewer than five bits are left over. */
  lemma Counts(n: nat)
    ensures CharCount(ByteCount(n)) <= n && (CharCount(ByteCount(n)) == n <==> 5 * n % 8 < 5)
    ensures 8 * ByteCount(n) <= 5 * n && 8 * ByteCount(n) <= 5 * CharCount(ByteCount(n))
  {
  }

  /**
    Encoding undoes decoding exactly when the text has a length the encoder can
    produce: fewer than five bits are left over.
   */
  lemma EncodeDecode(s: string)
    requires Decode(s).Some?
    ensures Encode(Decode(s).value) == s <==> 5 * |s| % 8 < 5
  {
    hide Group, Split, Indices, InAlphabet, Decode, Encode, CharCount, ByteCount, Chars;
    DecodedIs(s);
    var bits, n, bytes := Group(Indices(s), 5), ByteCount(|s|), Decode(s).value;
    Counts(|s|);
    var m := CharCount(n);
    if m == |s| {
      assert bits[..8 * n] + Zeros(5 * |s| - 8 * n) == bits;
      EncodedIs(bytes, bits);
      SplitGroup(Indices(s), 5);
      CharsOfIndices(s);
    } else {
      EncodedIs(bytes, bits[..8 * n] + Zeros(5 * m - 8 * n));
    }
  }

  /** How long a decoded byte string is, and how long an encoded one is. */
  lemma Lengths(s: string, bytes: seq<byte>)
    ensures Decode(s).Some? ==> |Decode(s).value| == 5 * |s| / 8
    ensures |Encode(bytes)| == (8 * |bytes| + 4) / 5
  {
  }
}
