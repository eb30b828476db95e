/**
  packages/shared/src/strkey.ts above its base32 and checksum loops: encoding and
  decoding StrKeys of the three kinds, and taking a muxed address apart.
 */
module StrKey {
  import opened Wrappers
  import opened JsBits
  import opened Base32
  import Crc16
  import Decimal

  datatype Kind = Ed25519PublicKey | ContractId | MuxedAddress

  /** A value of unknown type: a string, or anything else. */
  datatype Input = Text(text: string) | NotText

  datatype Reason = NotAString | Empty | WrongLength | InvalidBase32 | WrongVersionByte | InvalidChecksum

  function VersionByte(kind: Kind): byte {
    match kind
    case Ed25519PublicKey => 48
    case ContractId => 16
    case MuxedAddress => 96
  }

  lemma VersionBytes()
    ensures Scale(6, 3) == VersionByte(Ed25519PublicKey) && Scale(2, 3) == VersionByte(ContractId)
    ensures Scale(12, 3) == VersionByte(MuxedAddress)
  {
    ScaleValues(6);
    ScaleValues(2);
    ScaleValues(12);
  }

  function StrKeyLength(kind: Kind): nat {
    match kind
    case Ed25519PublicKey => 56
    case ContractId => 56
    case MuxedAddress => 69
  }

  /** The payload each kind carries: a key or hash, with a 64-bit id for muxed addresses. */
  function PayloadSize(kind: Kind): nat {
    match kind
    case Ed25519PublicKey => 32
    case ContractId => 32
    case MuxedAddress => 40
  }

  // ---------------------------------------------------------------------------
  // What a StrKey is
  // ---------------------------------------------------------------------------

  /** The body with its checksum appended, low byte first. */
  ghost function Sealed(body: seq<byte>): seq<byte> {
    var c := Crc16.Checksum(body);
    assert c < 65536 by { Pow2Values(); }
    body + [c % 256, c / 256]
  }

  /** The StrKey with this version byte and payload. */
  ghost function Encoded(version: byte, payload: seq<byte>): string {
    Encode(Sealed([version] + payload))
  }

  /** What decodeStrKey answers. */
  ghost function Decoded(value: Input, kind: Kind): Result<seq<byte>, Reason> {
    if value.NotText? then Err(NotAString)
    else if value.text == "" then Err(Empty)
    else if |value.text| != StrKeyLength(kind) then Err(WrongLength)
    else
      match Decode(value.text)
      case None => Err(InvalidBase32)
      case Some(bytes) =>
        if |bytes| < 3 then Err(WrongLength)
        else if bytes[0] != VersionByte(kind) then Err(WrongVersionByte)
        else if bytes != Sealed(bytes[..|bytes| - 2]) then Err(InvalidChecksum)
        else Ok(bytes)
  }

  // ---------------------------------------------------------------------------
  // The code
  // ---------------------------------------------------------------------------

  method EncodeStrKey(version: byte, payload: seq<byte>) returns (s: string)
    ensures s == Encoded(version, payload)
  {
    hide *;
    var body := new byte[|payload| + 1];
    body[0] := version;
    forall i | 0 <= i < |payload| {
      body[i + 1] := payload[i];
    }
    ghost var b := [version] + payload;
    assert body[..] == b;
    var checksum := Crc16.Crc16Xmodem(body[..]);
    SealedBytes(b, checksum);
    var full := new byte[body.Length + 2];
    forall i | 0 <= i < body.Length {
      full[i] := body[i];
    }
    full[body.Length] := And(checksum, 0xff);
    full[body.Length + 1] := And(Shr(checksum, 8), 0xff);
    assert full[..] == b + [And(checksum, 0xff), And(Shr(checksum, 8), 0xff)];
    EncodedIs(version, payload);
    s := Base32Encode(full[..]);
  }

  lemma EncodedIs(version: byte, payload: seq<byte>)
    ensures Encoded(version, payload) == Encode(Sealed([version] + payload))
  {
  }

  lemma SealedBytes(body: seq<byte>, checksum: nat)
    requires checksum == Crc16.Checksum(body)
    ensures And(checksum, 0xff) < 256 && And(Shr(checksum, 8), 0xff) < 256
    ensures Sealed(body) == body + [And(checksum, 0xff), And(Shr(checksum, 8), 0xff)]
  {
    hide And, Shr, Crc16.Checksum;
    assert checksum < 65536 by { Pow2Values(); }
    SplitWord(checksum);
  }

  method DecodeStrKey(value: Input, kind: Kind) returns (r: Result<seq<byte>, Reason>)
    ensures r == Decoded(value, kind)
  {
    hide Decode, Sealed, Crc16.Checksum, Or, Scale, Shl;
    if value.NotText? { return Err(NotAString); }
    if |value.text| == 0 { return Err(Empty); }
    if |value.text| != StrKeyLength(kind) { return Err(WrongLength); }
    var decoded := Base32Decode(value.text);
    if decoded.None? { return Err(InvalidBase32); }
    var bytes := decoded.value;
    if |bytes| < 3 { return Err(WrongLength); }
    if bytes[0] != VersionByte(kind) { return Err(WrongVersionByte); }
    var payload := bytes[..|bytes| - 2];
    JoinWord(bytes[|bytes| - 2], bytes[|bytes| - 1]);
    var checksum := Or(bytes[|bytes| - 2], Shl(bytes[|bytes| - 1], 8));
    var crc := Crc16.Crc16Xmodem(payload);
    SealedSplit(bytes);
    if crc != checksum { return Err(InvalidChecksum); }
    return Ok(bytes);
  }

  lemma SplitWord(x: nat)
    requires x < 65536
    ensures And(x, 0xff) == x % 256 && And(Shr(x, 8), 0xff) == x / 256
  {
    hide And, Shr, Scale, Pow2, Bits;
    assert Pow2(8) == 256 by { Pow2Values(); }
    var high, low := Shr(x, 8), And(x, 0xff);
    assert x == Scale(high, 8) + low by { ShrAnd(x, 8); }
    assert Scale(high, 8) == 256 * high by { ScaleValues(high); }
    assert low < 256 by { AndMask(x, 8); }
    Quotient(x, high, low);
    assert And(high, 0xff) == high by { AndMask(high, 8); }
  }

  lemma Quotient(x: nat, high: nat, low: nat)
    requires x == 256 * high + low && low < 256 && x < 65536
    ensures high == x / 256 && low == x % 256 && high < 256
  {
  }

  lemma {:induction false} ShrAnd(x: nat, k: nat)
    ensures x == Scale(Shr(x, k), k) + And(x, Pow2(k) - 1)
  {
    if k > 0 {
      ShrAnd(x / 2, k - 1);
      AndOdd(x, Pow2(k - 1) - 1);
    } else if x > 0 {
      assert And(x, 0) == 0;
    }
  }

  lemma JoinWord(lo: byte, hi: byte)
    ensures Scale(hi, 8) < INT32_LIMIT && Or(lo, Shl(hi, 8)) == lo + 256 * hi
  {
    ScaleValues(hi);
    assert Pow2(8) == 256 by { Pow2Values(); }
    OrIsSum(hi, lo, 8);
    OrCommutes(lo, Scale(hi, 8));
  }

  lemma {:induction false} OrCommutes(x: nat, y: nat)
    ensures Or(x, y) == Or(y, x)
    decreases x + y
  {
    if x != 0 || y != 0 {
      OrCommutes(x / 2, y / 2);
    }
  }

  lemma SealedSplit(bytes: seq<byte>)
    requires |bytes| >= 3
    ensures bytes == Sealed(bytes[..|bytes| - 2])
            <==> Crc16.Checksum(bytes[..|bytes| - 2]) == 256 * bytes[|bytes| - 1] as int + bytes[|bytes| - 2]
  {
    hide Crc16.Checksum;
    var n := |bytes| - 2;
    var c := Crc16.Checksum(bytes[..n]);
    assert c < 65536 by { Pow2Values(); }
    assert bytes == bytes[..n] + [bytes[n], bytes[n + 1]];
  }

  // ---------------------------------------------------------------------------
  // Decoding accepts exactly the encodings
  // ---------------------------------------------------------------------------

  /** Every StrKey of the kind is accepted, and decoding gives its bytes back. */
  lemma EncodedAccepted(kind: Kind, payload: seq<byte>)
    requires |payload| == PayloadSize(kind)
    ensures Decoded(Text(Encoded(VersionByte(kind), payload)), kind) == Ok(Sealed([VersionByte(kind)] + payload))
  {
    hide Crc16.Checksum, Encode, Decode;
    var body := [VersionByte(kind)] + payload;
    var bytes := Sealed(body);
    DecodeEncode(bytes);
    Lengths("", bytes);
    assert bytes[..|bytes| - 2] == body;
  }

  /** Every accepted text is the StrKey of the payload it carries. */
  lemma AcceptedEncoded(s: string, kind: Kind)
    requires Decoded(Text(s), kind).Ok?
    ensures var bytes := Decoded(Text(s), kind).value;
            && |bytes| == PayloadSize(kind) + 3
            && bytes[0] == VersionByte(kind)
            && s == Encoded(VersionByte(kind), bytes[1..|bytes| - 2])
            && bytes == Sealed([VersionByte(kind)] + bytes[1..|bytes| - 2])
  {
    hide Crc16.Checksum, Encode, Decode;
    var bytes := Decoded(Text(s), kind).value;
    Lengths(s, bytes);
    EncodeDecode(s);
    assert bytes[..|bytes| - 2] == [bytes[0]] + bytes[1..|bytes| - 2];
  }

  /** A text is accepted for a kind exactly when it encodes some payload of the right size. */
  lemma DecodeExactly(s: string, kind: Kind)
    ensures Decoded(Text(s), kind).Ok?
            <==> exists payload: seq<byte> :: |payload| == PayloadSize(kind) && s == Encoded(VersionByte(kind), payload)
  {
    hide Crc16.Checksum, Encode, Decode, Encoded, Sealed, Decoded;
    if Decoded(Text(s), kind).Ok? {
      AcceptedEncoded(s, kind);
      var bytes := Decoded(Text(s), kind).value;
      assert |bytes[1..|bytes| - 2]| == PayloadSize(kind);
    }
    if payload: seq<byte> :| |payload| == PayloadSize(kind) && s == Encoded(VersionByte(kind), payload) {
      EncodedAccepted(kind, payload);
    }
  }

  /** Version byte and payload can be read off a StrKey: no two pairs share one. */
  lemma EncodedUnique(v: byte, p: seq<byte>, w: byte, q: seq<byte>)
    requires Encoded(v, p) == Encoded(w, q)
    ensures v == w && p == q
  {
    hide Crc16.Checksum, Encode, Decode;
    var a, b := Sealed([v] + p), Sealed([w] + q);
    DecodeEncode(a);
    DecodeEncode(b);
    assert a[..|a| - 2] == [v] + p && b[..|b| - 2] == [w] + q;
    assert ([v] + p)[0] == v && ([v] + p)[1..] == p;
    assert ([w] + q)[0] == w && ([w] + q)[1..] == q;
  }

  // ---------------------------------------------------------------------------
  // Muxed addresses
  // ---------------------------------------------------------------------------

  datatype MuxedParts = MuxedParts(accountId: string, id: string)

  ghost function Parsed(value: Input): Option<MuxedParts> {
    match Decoded(value, MuxedAddress)
    case Err(_) => None
    case Ok(bytes) =>
      AcceptedInput(value);
      Some(MuxedParts(Encoded(VersionByte(Ed25519PublicKey), bytes[1..33]),
                      Decimal.Numeral(Decimal.BigEndian(bytes[33..41]))))
  }

  method ParseMuxedAddress(value: Input) returns (r: Option<MuxedParts>)
    ensures r == Parsed(value)
  {
    hide Decoded, Encoded, Decimal.Numeral, Decimal.BigEndian;
    var decoded := DecodeStrKey(value, MuxedAddress);
    if decoded.Err? { return None; }
    var bytes := decoded.value;
    AcceptedInput(value);
    var accountId := EncodeStrKey(VersionByte(Ed25519PublicKey), bytes[1..33]);
    var id := Decimal.BytesToDecimalString(bytes[33..41]);
    return Some(MuxedParts(accountId, id));
  }

  lemma AcceptedInput(value: Input)
    requires Decoded(value, MuxedAddress).Ok?
    ensures value.Text? && |Decoded(value, MuxedAddress).value| == 43
  {
    AcceptedEncoded(value.text, MuxedAddress);
  }

  lemma {:induction false} BigEndianInjective(a: seq<byte>, b: seq<byte>)
    requires |a| == |b| && Decimal.BigEndian(a) == Decimal.BigEndian(b)
    ensures a == b
    decreases |a|
  {
    if a != [] {
      var n := |a| - 1;
      BigEndianInjective(a[..n], b[..n]);
      assert a == a[..n] + [a[n]] && b == b[..n] + [b[n]];
    }
  }

  lemma {:induction false} BigEndianBound(a: seq<byte>)
    ensures Decimal.BigEndian(a) < Power256(|a|)
  {
    if a != [] {
      BigEndianBound(a[..|a| - 1]);
    }
  }

  function Power256(n: nat): nat {
    if n == 0 then 1 else 256 * Power256(n - 1)
  }

  /**
    The muxed address of an account and a 64-bit id parses back into the account's own
    valid StrKey and the id's decimal numeral.
   */
  lemma MuxedRoundTrip(account: seq<byte>, id: seq<byte>)
    requires |account| == 32 && |id| == 8
    ensures var muxed := Encoded(VersionByte(MuxedAddress), account + id);
            var key := Encoded(VersionByte(Ed25519PublicKey), account);
            && Parsed(Text(muxed)) == Some(MuxedParts(key, Decimal.Numeral(Decimal.BigEndian(id))))
            && Decoded(Text(key), Ed25519PublicKey).Ok?
    ensures Decimal.BigEndian(id) < 0x1_0000_0000_0000_0000
  {
    hide Decoded, Encoded, Decimal.Numeral, Decimal.BigEndian, Crc16.Checksum;
    EncodedAccepted(MuxedAddress, account + id);
    EncodedAccepted(Ed25519PublicKey, account);
    var bytes := Sealed([VersionByte(MuxedAddress)] + (account + id));
    assert bytes[1..33] == account && bytes[33..41] == id;
    BigEndianBound(id);
    assert Power256(2) == 0x1_0000 && Power256(3) == 0x100_0000 && Power256(4) == 0x1_0000_0000;
    assert Power256(6) == 0x1_0000_0000_0000;
    assert Power256(8) == 0x1_0000_0000_0000_0000;
  }

  /** Account and id together determine the muxed address. */
  lemma MuxedUnique(s: string, t: string)
    requires Parsed(Text(s)).Some? && Parsed(Text(s)) == Parsed(Text(t))
    ensures s == t
  {
    hide Decoded, Encoded, Decimal.Numeral, Decimal.BigEndian, Crc16.Checksum;
    var a, b := Decoded(Text(s), MuxedAddress).value, Decoded(Text(t), MuxedAddress).value;
    AcceptedEncoded(s, MuxedAddress);
    AcceptedEncoded(t, MuxedAddress);
    EncodedUnique(VersionByte(Ed25519PublicKey), a[1..33], VersionByte(Ed25519PublicKey), b[1..33]);
    Decimal.NumeralRoundTrip(Decimal.BigEndian(a[33..41]));
    Decimal.NumeralRoundTrip(Decimal.BigEndian(b[33..41]));
    BigEndianInjective(a[33..41], b[33..41]);
    assert a[1..41] == a[1..33] + a[33..41] && b[1..41] == b[1..33] + b[33..41];
  }
}
