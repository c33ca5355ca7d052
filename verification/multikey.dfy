/** Multikey strings: a multicodec prefix and a 32-byte key in base58btc behind a 'z'. */
module Multikey {
  import opened Texts
  import opened Radix
  import opened Base58

  const MULTIBASE_PREFIX: CodeUnit := 'z' as int
  const ED25519_PUB: seq<Byte> := [0xed, 0x01]
  const X25519_PUB: seq<Byte> := [0xec, 0x01]

  /** `None` is the error thrown for a key that is not 32 bytes long. */
  function EncodeMultikey(codec: seq<Byte>, raw: seq<Byte>): Option<Text> {
    if |raw| != 32 then None else Some([MULTIBASE_PREFIX] + Encoding(codec + raw))
  }

  /** `None` is the error thrown for anything but a key of this codec. */
  function DecodeMultikey(codec: seq<Byte>, key: Text): Option<seq<nat>> {
    if !([MULTIBASE_PREFIX] <= key) then None
    else
      var decoded := Decoding(key[1..]);
      if decoded.None? || |decoded.value| != 34 || decoded.value[..2] != codec then None
      else Some(decoded.value[2..])
  }

  function EncodeEd25519(raw: seq<Byte>): Option<Text> {
    EncodeMultikey(ED25519_PUB, raw)
  }

  function DecodeEd25519(key: Text): Option<seq<nat>> {
    DecodeMultikey(ED25519_PUB, key)
  }

  function EncodeX25519(raw: seq<Byte>): Option<Text> {
    EncodeMultikey(X25519_PUB, raw)
  }

  function DecodeX25519(key: Text): Option<seq<nat>> {
    DecodeMultikey(X25519_PUB, key)
  }

  /** Any codec whose first byte is not zero. */
  ghost predicate IsCodec(codec: seq<Byte>) {
    |codec| == 2 && codec[0] != 0
  }

  /** Decoding undoes encoding, and no other codec's decoder accepts the result. */
  lemma MultikeyRoundTrip(codec: seq<Byte>, other: seq<Byte>, raw: seq<Byte>)
    requires IsCodec(codec) && IsCodec(other) && |raw| == 32
    ensures DecodeMultikey(other, EncodeMultikey(codec, raw).value) == if other == codec then Some(raw) else None
  {
    var bytes := codec + raw;
    assert bytes[0] != 0 && !AllZero(bytes);
    DecodeEncode(bytes);
    assert ([MULTIBASE_PREFIX] + Encoding(bytes))[1..] == Encoding(bytes);
    assert bytes[..2] == codec && bytes[2..] == raw && |bytes| == 34;
  }

  /** Every accepted string is the encoding of the key it decodes to. */
  lemma AcceptedReencodes(codec: seq<Byte>, key: Text)
    requires IsCodec(codec) && DecodeMultikey(codec, key).Some?
    ensures |DecodeMultikey(codec, key).value| == 32 && AreDigits(DecodeMultikey(codec, key).value, 256)
    ensures EncodeMultikey(codec, DecodeMultikey(codec, key).value) == Some(key)
  {
    var decoded := Decoding(key[1..]).value;
    assert decoded == decoded[..2] + decoded[2..];
    assert decoded[0] == decoded[..2][0];
    NonZeroReencodes(key[1..]);
    assert key == [MULTIBASE_PREFIX] + key[1..];
  }

  lemma NonZeroReencodes(s: Text)
    requires Decoding(s).Some? && Decoding(s).value != [] && Decoding(s).value[0] != 0
    ensures Encoding(Decoding(s).value) == s
  {
    EncodeDecode(s);
    if forall i :: 0 <= i < |s| ==> s[i] == ONE {
      AllOnesDecode(s);
    }
  }

  lemma AllOnesDecode(s: Text)
    requires Decoding(s).Some? && forall i :: 0 <= i < |s| ==> s[i] == ONE
    ensures forall i :: 0 <= i < |Decoding(s).value| ==> Decoding(s).value[i] == 0
  {
    if s != [] {
      var ds := Unspelled(s).value;
      forall i | 0 <= i < |ds|
        ensures ds[i] == 0
      {
        LetterIsAlphabet(ds[i]);
      }
      DecodingOfOnes(s, ds);
    }
  }

  // ---------------------------------------------------------------- the shape of a multikey

  lemma Pow58To44()
    ensures Pow(58, 44) == 389790918707373377135528568990913592653094657612049369038476873218241589149696
  {
    assert Pow(58, 2) == 3364;
    PowAdd(58, 2, 2);
    assert Pow(58, 4) == 11316496;
    PowAdd(58, 4, 4);
    assert Pow(58, 8) == 128063081718016;
    PowAdd(58, 8, 8);
    assert Pow(58, 16) == 16400152899115243850138976256;
    PowAdd(58, 16, 16);
    PowAdd(58, 32, 8);
    PowAdd(58, 40, 4);
  }

  lemma Pow256To32()
    ensures Pow(256, 32) == 115792089237316195423570985008687907853269984665640564039457584007913129639936
  {
    assert Pow(256, 2) == 0x1_0000;
    PowAdd(256, 2, 2);
    PowAdd(256, 4, 4);
    PowAdd(256, 8, 8);
    PowAdd(256, 16, 16);
  }

  /** The numbers that start with this codec all start with the digits `lead` in base 58, and have
      44 more. */
  ghost predicate LeadsWith(codec: nat, lead: nat) {
    && lead * Pow(58, 44) <= codec * Pow(256, 32)
    && (codec + 1) * Pow(256, 32) <= (lead + 1) * Pow(58, 44)
  }

  lemma CodecDigits(codec: nat, lead: nat, raw: seq<Byte>, v: nat)
    requires |raw| == 32 && lead > 0 && LeadsWith(codec, lead)
    requires v == codec * Pow(256, 32) + Value(raw, 256)
    ensures exists tail :: |tail| == 44 && Digits(v, 58) == Digits(lead, 58) + tail
  {
    ValueBelow(raw, 256);
    Distribute(codec, 1, Pow(256, 32));
    Distribute(lead, 1, Pow(58, 44));
    var r := v - lead * Pow(58, 44);
    DigitsSplit(lead, r, 44, 58);
    assert |Fixed(r, 44, 58)| == 44;
  }

  lemma ThreeDigits(a: nat, b: nat, c: nat)
    requires 0 < a < 58 && b < 58 && c < 58
    ensures Digits((a * 58 + b) * 58 + c, 58) == [a, b, c]
  {
    DigitsOfValue([a, b, c], 58);
    assert [a, b, c][..2] == [a, b] && [a, b][..1] == [a] && [a][..0] == [];
    assert Value([], 58) == 0;
    assert Value([a], 58) == a;
    assert Value([a, b], 58) == a * 58 + b;
  }

  /** A key under the codec bytes `[hi, 1]`: 48 characters, the first four fixed. */
  lemma MultikeyShape(hi: Byte, a: nat, b: nat, c: nat, raw: seq<Byte>)
    requires hi > 0 && |raw| == 32 && 0 < a < 58 && b < 58 && c < 58
    requires LeadsWith(hi * 256 + 1, (a * 58 + b) * 58 + c)
    ensures var key := EncodeMultikey([hi, 1], raw).value;
            |key| == 48 && key[..4] == [MULTIBASE_PREFIX, Letter(a), Letter(b), Letter(c)]
  {
    var bytes: seq<Byte> := [hi, 1] + raw;
    CodecValue(hi, raw);
    CodecDigits(hi * 256 + 1, (a * 58 + b) * 58 + c, raw, Value(bytes, 256));
    ThreeDigits(a, b, c);
    ShapeOf(bytes, a, b, c);
  }

  lemma CodecValue(hi: Byte, raw: seq<Byte>)
    requires |raw| == 32
    ensures Value([hi, 1] + raw, 256) == (hi * 256 + 1) * Pow(256, 32) + Value(raw, 256)
  {
    ValueConcat([hi, 1], raw, 256);
    assert [hi, 1][..1] == [hi] && [hi][..0] == [];
    assert Value([], 256) == 0;
    assert Value([hi], 256) == hi;
  }

  lemma ShapeOf(bytes: seq<Byte>, a: nat, b: nat, c: nat)
    requires bytes != [] && bytes[0] != 0 && a < 58 && b < 58 && c < 58
    requires |Digits(Value(bytes, 256), 58)| == 47 && Digits(Value(bytes, 256), 58)[..3] == [a, b, c]
    ensures var key := [MULTIBASE_PREFIX] + Encoding(bytes);
            |key| == 48 && key[..4] == [MULTIBASE_PREFIX, Letter(a), Letter(b), Letter(c)]
  {
    var ds := Digits(Value(bytes, 256), 58);
    assert Spelled(Zeros(0)) + Spelled(ds) == Spelled(ds);
    assert ds[0] == ds[..3][0] && ds[1] == ds[..3][1] && ds[2] == ds[..3][2];
  }

  /** Every Ed25519 multikey has 48 characters and starts with `z6Mk`. */
  lemma Ed25519Shape(raw: seq<Byte>)
    requires |raw| == 32
    ensures EncodeEd25519(raw).Some? && |EncodeEd25519(raw).value| == 48
    ensures Ascii("z6Mk") <= EncodeEd25519(raw).value
  {
    Pow58To44();
    Pow256To32();
    assert (5 * 58 + 20) * 58 + 43 == 18023 && 0xed * 256 + 1 == 0xed01;
    MultikeyShape(0xed, 5, 20, 43, raw);
    assert [MULTIBASE_PREFIX, Letter(5), Letter(20), Letter(43)] == Ascii("z6Mk");
  }

  /** Every X25519 multikey has 48 characters and starts with `z6LS`. */
  lemma X25519Shape(raw: seq<Byte>)
    requires |raw| == 32
    ensures EncodeX25519(raw).Some? && |EncodeX25519(raw).value| == 48
    ensures Ascii("z6LS") <= EncodeX25519(raw).value
  {
    Pow58To44();
    Pow256To32();
    assert (5 * 58 + 19) * 58 + 25 == 17947 && 0xec * 256 + 1 == 0xec01;
    MultikeyShape(0xec, 5, 19, 25, raw);
    assert [MULTIBASE_PREFIX, Letter(5), Letter(19), Letter(25)] == Ascii("z6LS");
  }

  /** An identity key and an encryption key can never be taken for one another. */
  lemma KeysNeverConfused(raw: seq<Byte>)
    requires |raw| == 32
    ensures DecodeEd25519(EncodeEd25519(raw).value) == Some(raw) && DecodeX25519(EncodeEd25519(raw).value) == None
    ensures DecodeX25519(EncodeX25519(raw).value) == Some(raw) && DecodeEd25519(EncodeX25519(raw).value) == None
  {
    assert ED25519_PUB[0] != X25519_PUB[0];
    MultikeyRoundTrip(ED25519_PUB, ED25519_PUB, raw);
    MultikeyRoundTrip(ED25519_PUB, X25519_PUB, raw);
    MultikeyRoundTrip(X25519_PUB, X25519_PUB, raw);
    MultikeyRoundTrip(X25519_PUB, ED25519_PUB, raw);
  }

  /** Exactly the encodings of 32-byte keys are accepted, so each codec's keys and strings are in
      one-to-one correspondence. */
  lemma MultikeyBijection(codec: seq<Byte>, key: Text)
    requires IsCodec(codec)
    ensures DecodeMultikey(codec, key).Some?
       <==> exists raw: seq<Byte> :: |raw| == 32 && EncodeMultikey(codec, raw) == Some(key)
    ensures forall raw: seq<Byte> :: EncodeMultikey(codec, raw).Some? <==> |raw| == 32
  {
    if DecodeMultikey(codec, key).Some? {
      AcceptedReencodes(codec, key);
      var raw: seq<Byte> := DecodeMultikey(codec, key).value;
      assert EncodeMultikey(codec, raw) == Some(key);
    }
    if exists raw: seq<Byte> :: |raw| == 32 && EncodeMultikey(codec, raw) == Some(key) {
      var raw: seq<Byte> :| |raw| == 32 && EncodeMultikey(codec, raw) == Some(key);
      MultikeyRoundTrip(codec, codec, raw);
    }
  }
}
