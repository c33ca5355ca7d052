/** Base58btc: big-integer radix conversion with leading zeros kept as leading '1's. */
module Base58 {
  import opened Texts
  import opened Radix

  type Byte = b: nat | b < 256

  /** The Bitcoin alphabet: digits and letters without 0, O, I and l. */
  const ALPHABET: Text := Ascii("123456789") + Ascii("ABCDEFGH") + Ascii("JKLMN") + Ascii("PQRSTUVWXYZ")
                          + Ascii("abcdefghijk") + Ascii("mnopqrstuvwxyz")
  const ONE: CodeUnit := '1' as int

  /** `ALPHABET[d]`: six runs of consecutive characters. */
  function Letter(d: nat): (c: CodeUnit)
    requires d < 58
  {
    if d < 9 then '1' as int + d
    else if d < 17 then 'A' as int + (d - 9)
    else if d < 22 then 'J' as int + (d - 17)
    else if d < 33 then 'P' as int + (d - 22)
    else if d < 44 then 'a' as int + (d - 33)
    else 'm' as int + (d - 44)
  }

  /** `ALPHABET_MAP.get(char)`. */
  function DigitOf(c: CodeUnit): (d: Option<nat>)
    ensures d.Some? ==> d.value < 58 && Letter(d.value) == c
    ensures d.None? ==> forall e: nat :: e < 58 ==> Letter(e) != c
  {
    if '1' as int <= c <= '9' as int then Some(c - '1' as int)
    else if 'A' as int <= c <= 'H' as int then Some(c - 'A' as int + 9)
    else if 'J' as int <= c <= 'N' as int then Some(c - 'J' as int + 17)
    else if 'P' as int <= c <= 'Z' as int then Some(c - 'P' as int + 22)
    else if 'a' as int <= c <= 'k' as int then Some(c - 'a' as int + 33)
    else if 'm' as int <= c <= 'z' as int then Some(c - 'm' as int + 44)
    else None
  }

  lemma LetterIsAlphabet(d: nat)
    requires d < 58
    ensures |ALPHABET| == 58 && Letter(d) == ALPHABET[d]
    ensures DigitOf(Letter(d)) == Some(d)
    ensures d > 0 ==> Letter(d) > Letter(d - 1) >= ONE
  {
    assert Ascii("123456789") == Consecutive('1', 9);
    assert Ascii("ABCDEFGH") == Consecutive('A', 8);
    assert Ascii("JKLMN") == Consecutive('J', 5);
    assert Ascii("PQRSTUVWXYZ") == Consecutive('P', 11);
    assert Ascii("abcdefghijk") == Consecutive('a', 11);
    assert Ascii("mnopqrstuvwxyz") == Consecutive('m', 14);
  }

  function Consecutive(first: char, n: nat): Text {
    seq(n, i => first as int + i)
  }

  function Spelled(ds: seq<nat>): (t: Text)
    requires AreDigits(ds, 58)
    ensures |t| == |ds| && forall i :: 0 <= i < |ds| ==> t[i] == Letter(ds[i])
  {
    seq(|ds|, i requires 0 <= i < |ds| => Letter(ds[i]))
  }

  /** The digits a string spells, if every character is in the alphabet. */
  function Unspelled(s: Text): (ds: Option<seq<nat>>)
    ensures ds.Some? ==> |ds.value| == |s| && AreDigits(ds.value, 58) && Spelled(ds.value) == s
  {
    if s == [] then Some([])
    else
      var front, last := Unspelled(s[..|s| - 1]), DigitOf(s[|s| - 1]);
      if front.None? || last.None? then None else
        assert s == s[..|s| - 1] + [s[|s| - 1]];
        Some(front.value + [last.value])
  }

  lemma {:induction false} UnspelledSpelled(ds: seq<nat>)
    requires AreDigits(ds, 58)
    ensures Unspelled(Spelled(ds)) == Some(ds)
  {
    if ds != [] {
      var n := |ds| - 1;
      assert Spelled(ds)[..n] == Spelled(ds[..n]);
      UnspelledSpelled(ds[..n]);
      assert ds == ds[..n] + [ds[n]];
    }
  }

  // ---------------------------------------------------------------- encoding

  /** What encoding means: one '1' per leading zero byte, then the number in base 58. */
  function Encoding(bytes: seq<Byte>): Text {
    Spelled(Zeros(LeadingZeros(bytes))) + Spelled(Digits(Value(bytes, 256), 58))
  }

  method Encode(bytes: seq<Byte>) returns (out: Text)
    ensures out == Encoding(bytes)
  {
    if |bytes| == 0 {
      return [];
    }
    var value: nat := 0;
    for i := 0 to |bytes|
      invariant value == Value(bytes[..i], 256)
    {
      assert bytes[..i + 1][..i] == bytes[..i];
      value := value * 256 + bytes[i];
    }
    assert bytes[..|bytes|] == bytes;
    out := SpellNumber(value);
    var z := LeadingZeros(bytes);
    ghost var digits := out;
    for i := 0 to |bytes|
      invariant i <= z && out == Spelled(Zeros(i)) + digits
    {
      if bytes[i] != 0 {
        ZerosBelow(bytes, i);
        break;
      }
      ZerosAt(bytes, i);
      OneMoreOne(i, digits);
      out := [Letter(0)] + out;
    }
  }

  lemma OneMoreOne(i: nat, digits: Text)
    ensures [Letter(0)] + (Spelled(Zeros(i)) + digits) == Spelled(Zeros(i + 1)) + digits
  {
    assert Spelled(Zeros(i + 1)) == [Letter(0)] + Spelled(Zeros(i));
  }

  /** The loop that peels digits off the number, last digit first. */
  method SpellNumber(n: nat) returns (out: Text)
    ensures out == Spelled(Digits(n, 58))
  {
    var value := n;
    ghost var done := [];
    out := [];
    while value > 0
      invariant AreDigits(done, 58) && out == Spelled(done)
      invariant Digits(n, 58) == Digits(value, 58) + done
    {
      Quotient(value, 58);
      var remainder := value % 58;
      DigitMoves(Digits(value / 58, 58), remainder, done);
      value := value / 58;
      out := [Letter(remainder)] + out;
      done := [remainder] + done;
    }
  }

  lemma DigitMoves(front: seq<nat>, d: nat, done: seq<nat>)
    requires d < 58 && AreDigits(done, 58)
    ensures (front + [d]) + done == front + ([d] + done)
    ensures [Letter(d)] + Spelled(done) == Spelled([d] + done)
  {
  }

  lemma ZerosBelow(ds: seq<nat>, i: nat)
    requires i < |ds| && ds[i] != 0 && i <= LeadingZeros(ds)
    ensures LeadingZeros(ds) == i
  {
    var z := LeadingZeros(ds);
    assert forall j :: 0 <= j < z ==> ds[j] == ds[..z][j] == Zeros(z)[j];
  }

  lemma ZerosAt(ds: seq<nat>, i: nat)
    requires i < |ds| && ds[i] == 0 && i <= LeadingZeros(ds)
    ensures i < LeadingZeros(ds)
  {
  }

  // ---------------------------------------------------------------- decoding

  /** `value.toString(16)`, as digits. */
  function HexDigits(v: nat): (h: seq<nat>)
    ensures AreDigits(h, 16) && h != []
  {
    DigitsLead(v, 16);
    if v == 0 then [0] else Digits(v, 16)
  }

  /** `Buffer.from(hex, 'hex')`: two digits a byte. */
  function FromHex(h: seq<nat>): (bytes: seq<nat>)
    requires |h| % 2 == 0 && AreDigits(h, 16)
    ensures |bytes| == |h| / 2 && AreDigits(bytes, 256)
  {
    if h == [] then []
    else
      var n := |h|;
      assert |h[..n - 2]| % 2 == 0;
      FromHex(h[..n - 2]) + [h[n - 2] * 16 + h[n - 1]]
  }

  function HexBytes(v: nat): (bytes: seq<nat>)
    ensures AreDigits(bytes, 256)
  {
    var h := HexDigits(v);
    FromHex(if |h| % 2 == 1 then [0] + h else h)
  }

  lemma {:induction false} FromHexValue(h: seq<nat>)
    requires |h| % 2 == 0 && AreDigits(h, 16)
    ensures Value(FromHex(h), 256) == Value(h, 16)
    ensures h != [] ==> FromHex(h)[0] == h[0] * 16 + h[1]
  {
    if h != [] {
      var n := |h|;
      var front := h[..n - 2];
      FromHexValue(front);
      assert h[..n - 1][..n - 2] == front && h[..n - 1][n - 2] == h[n - 2];
      assert Value(h, 16) == (Value(front, 16) * 16 + h[n - 2]) * 16 + h[n - 1];
      assert FromHex(h)[..|FromHex(h)| - 1] == FromHex(front);
    }
  }

  /** Going through a padded hexadecimal string gives the minimal big-endian bytes, except that
      zero becomes one zero byte. */
  lemma HexBytesMinimal(v: nat)
    ensures HexBytes(v) == if v == 0 then [0] else Digits(v, 256)
  {
    if v == 0 {
      assert [0] + HexDigits(0) == [0, 0];
      assert FromHex([0, 0]) == FromHex([]) + [0] by {
        assert [0, 0][..0] == [];
      }
    } else {
      var h := Digits(v, 16);
      DigitsLead(v, 16);
      ValueOfDigits(v, 16);
      if |h| % 2 == 1 {
        assert Zeros(1) == [0];
        ZerosValue(1, h, 16);
        FromHexMinimal([0] + h);
      } else {
        FromHexMinimal(h);
      }
    }
  }

  lemma FromHexMinimal(h: seq<nat>)
    requires |h| % 2 == 0 && h != [] && AreDigits(h, 16) && (h[0] != 0 || h[1] != 0)
    ensures FromHex(h) == Digits(Value(h, 16), 256)
  {
    FromHexValue(h);
    DigitsOfValue(FromHex(h), 256);
  }

  lemma ZerosValue(z: nat, ds: seq<nat>, b: nat)
    ensures Value(Zeros(z) + ds, b) == Value(ds, b)
  {
    ValueConcat(Zeros(z), ds, b);
    ValueZeros(z, b);
    assert 0 * Pow(b, |ds|) == 0;
  }

  /** What decoding means. `None` is the error thrown for a character outside the alphabet. */
  function Decoding(s: Text): (bytes: Option<seq<nat>>)
    ensures bytes.Some? ==> AreDigits(bytes.value, 256)
  {
    var ds := Unspelled(s);
    if ds.None? then None
    else if s == [] then Some([])
    else Some(Zeros(LeadingZeros(ds.value)) + HexBytes(Value(ds.value, 58)))
  }

  method Decode(s: Text) returns (bytes: Option<seq<nat>>)
    ensures bytes == Decoding(s)
  {
    if |s| == 0 {
      return Some([]);
    }
    var value := ReadNumber(s);
    if value.None? {
      return None;
    }
    var tail := BytesOf(value.value);
    var leadingZeros := CountOnes(s);
    return Some(Zeros(leadingZeros) + tail);
  }

  /** The number in hex, padded to whole bytes and read back. */
  method BytesOf(value: nat) returns (tail: seq<nat>)
    ensures tail == HexBytes(value)
  {
    var h := HexDigits(value);
    if |h| % 2 == 1 {
      h := [0] + h;
    }
    tail := FromHex(h);
  }

  /** The loop that counts the leading ones. */
  method CountOnes(s: Text) returns (leadingZeros: nat)
    requires Unspelled(s).Some?
    ensures leadingZeros == LeadingZeros(Unspelled(s).value)
  {
    ghost var ds := Unspelled(s).value;
    leadingZeros := 0;
    for i := 0 to |s|
      invariant leadingZeros == i <= LeadingZeros(ds)
    {
      if s[i] != Letter(0) {
        ZerosBelow(ds, i);
        break;
      }
      ZerosAt(ds, i);
      leadingZeros := leadingZeros + 1;
    }
  }

  /** The loop that reads the digits, most significant first, until an invalid character. */
  method ReadNumber(s: Text) returns (number: Option<nat>)
    ensures Unspelled(s).None? ==> number == None
    ensures Unspelled(s).Some? ==> number == Some(Value(Unspelled(s).value, 58))
  {
    var value: nat := 0;
    ghost var ds := [];
    for i := 0 to |s|
      invariant Unspelled(s[..i]) == Some(ds) && value == Value(ds, 58)
    {
      assert s[..i + 1][..i] == s[..i];
      var digit := DigitOf(s[i]);
      if digit.None? {
        InvalidStays(s, i + 1);
        return None;
      }
      value := value * 58 + digit.value;
      assert (ds + [digit.value])[..|ds|] == ds;
      ds := ds + [digit.value];
    }
    assert s[..|s|] == s;
    return Some(value);
  }

  lemma {:induction false} InvalidStays(s: Text, k: nat)
    requires k <= |s| && Unspelled(s[..k]).None?
    ensures Unspelled(s).None?
    decreases |s|
  {
    if k < |s| {
      assert s[..|s| - 1][..k] == s[..k];
      InvalidStays(s[..|s| - 1], k);
    } else {
      assert s[..k] == s;
    }
  }

  // ---------------------------------------------------------------- round trips

  ghost predicate AllZero(bytes: seq<nat>) {
    forall i :: 0 <= i < |bytes| ==> bytes[i] == 0
  }

  /** Leading zeros stay leading: splitting a digit string where they end. */
  lemma SplitZeros(ds: seq<nat>, b: nat)
    requires b > 1 && AreDigits(ds, b)
    ensures var z := LeadingZeros(ds);
            && ds == Zeros(z) + ds[z..]
            && Value(ds, b) == Value(ds[z..], b)
            && Digits(Value(ds, b), b) == ds[z..]
            && (AllZero(ds) <==> z == |ds|)
  {
    var z := LeadingZeros(ds);
    assert ds == ds[..z] + ds[z..];
    ValueConcat(Zeros(z), ds[z..], b);
    ValueZeros(z, b);
    assert 0 * Pow(b, |ds[z..]|) == 0;
    DigitsOfValue(ds[z..], b);
    assert z == |ds| ==> ds == Zeros(z);
  }

  lemma {:induction false} LeadingZerosOf(z: nat, ds: seq<nat>)
    requires ds == [] || ds[0] != 0
    ensures LeadingZeros(Zeros(z) + ds) == z
  {
    if z == 0 {
      assert Zeros(0) + ds == ds;
    } else {
      assert (Zeros(z) + ds)[1..] == Zeros(z - 1) + ds;
      LeadingZerosOf(z - 1, ds);
    }
  }

  lemma SpelledConcat(xs: seq<nat>, ys: seq<nat>)
    requires AreDigits(xs, 58) && AreDigits(ys, 58)
    ensures AreDigits(xs + ys, 58) && Spelled(xs + ys) == Spelled(xs) + Spelled(ys)
  {
  }

  /** Read back letter by letter in base 58, an encoding is the number its bytes make, behind as many ones as
      there are leading zero bytes. */
  lemma EncodingReads(bytes: seq<Byte>) returns (ds: seq<nat>)
    ensures |ds| == |Encoding(bytes)|
    ensures forall i :: 0 <= i < |ds| ==> Writes(Encoding(bytes)[i], ds[i])
    ensures Value(ds, 58) == Value(bytes, 256)
    ensures LeadingZeros(ds) == LeadingZeros(bytes)
  {
    var z, v := LeadingZeros(bytes), Value(bytes, 256);
    ds := Zeros(z) + Digits(v, 58);
    SplitZeros(bytes, 256);
    SpelledConcat(Zeros(z), Digits(v, 58));
    DigitsLead(v, 58);
    LeadingZerosOf(z, Digits(v, 58));
    ZerosValue(z, Digits(v, 58), 58);
    ValueOfDigits(v, 58);
    SpelledLetters(ds);
  }

  /** The letter stands at this place of the alphabet. */
  ghost predicate Writes(letter: CodeUnit, d: nat) {
    d < |ALPHABET| == 58 && letter == ALPHABET[d]
  }

  lemma SpelledLetters(ds: seq<nat>)
    requires AreDigits(ds, 58)
    ensures forall i :: 0 <= i < |ds| ==> Writes(Spelled(ds)[i], ds[i])
  {
    forall i | 0 <= i < |ds| ensures Writes(Spelled(ds)[i], ds[i]) {
      LetterIsAlphabet(ds[i]);
    }
  }

  /** Decoding undoes encoding, except that one or more zero bytes and nothing else come back
      one byte longer. */
  lemma DecodeEncode(bytes: seq<Byte>)
    ensures Decoding(Encoding(bytes))
         == Some(if bytes != [] && AllZero(bytes) then Zeros(|bytes| + 1) else bytes)
  {
    var z, v := LeadingZeros(bytes), Value(bytes, 256);
    var ds := Digits(v, 58);
    SplitZeros(bytes, 256);
    SpelledConcat(Zeros(z), ds);
    UnspelledSpelled(Zeros(z) + ds);
    DigitsLead(v, 58);
    LeadingZerosOf(z, ds);
    ZerosValue(z, ds, 58);
    ValueOfDigits(v, 58);
    HexBytesMinimal(v);
    if bytes != [] && AllZero(bytes) {
      assert bytes[z..] == [] && v == 0;
      assert Zeros(z) + [0] == Zeros(z + 1);
    } else if bytes != [] {
      LeadPositive(bytes[z..], 256);
      assert HexBytes(v) == bytes[z..];
    }
  }

  /** Encoding undoes decoding on every string of the alphabet, except that a string of '1's only
      comes back one character longer. */
  lemma EncodeDecode(s: Text)
    requires Decoding(s).Some?
    ensures Encoding(Decoding(s).value)
         == if s != [] && forall i :: 0 <= i < |s| ==> s[i] == ONE then s + [ONE] else s
  {
    if s != [] {
      var ds := Unspelled(s).value;
      assert forall i :: 0 <= i < |s| ==> (s[i] == ONE <==> ds[i] == 0);
      if AllZero(ds) {
        OnlyOnes(s, ds);
      } else {
        NotOnlyOnes(s, ds);
      }
    }
  }

  lemma OnlyOnes(s: Text, ds: seq<nat>)
    requires s != [] && Unspelled(s) == Some(ds) && AllZero(ds)
    ensures Encoding(Decoding(s).value) == s + [ONE]
  {
    DecodingOfOnes(s, ds);
    EncodingOfZeros(|ds| + 1);
    assert ds == Zeros(|ds|);
    assert Spelled(Zeros(|ds| + 1)) == Spelled(Zeros(|ds|)) + [ONE];
  }

  lemma DecodingOfOnes(s: Text, ds: seq<nat>)
    requires s != [] && Unspelled(s) == Some(ds) && AllZero(ds)
    ensures Decoding(s) == Some(Zeros(|ds| + 1))
  {
    SplitZeros(ds, 58);
    assert LeadingZeros(ds) == |ds| && Value(ds, 58) == 0 by {
      assert ds[|ds|..] == [];
    }
    HexBytesMinimal(0);
    ZerosSnoc(|ds|);
  }

  lemma ZerosSnoc(n: nat)
    ensures Zeros(n) + [0] == Zeros(n + 1)
  {
  }

  lemma EncodingOfZeros(z: nat)
    ensures Encoding(Zeros(z)) == Spelled(Zeros(z))
  {
    assert Zeros(z) + [] == Zeros(z);
    LeadingZerosOf(z, []);
    ValueZeros(z, 256);
    assert Spelled(Zeros(z)) + Spelled([]) == Spelled(Zeros(z));
  }

  lemma NotOnlyOnes(s: Text, ds: seq<nat>)
    requires s != [] && Unspelled(s) == Some(ds) && !AllZero(ds)
    ensures Encoding(Decoding(s).value) == s
  {
    var z, v := LeadingZeros(ds), Value(ds, 58);
    SplitZeros(ds, 58);
    LeadPositive(ds[z..], 58);
    HexBytesMinimal(v);
    DigitsLead(v, 256);
    LeadingZerosOf(z, Digits(v, 256));
    ZerosValue(z, Digits(v, 256), 256);
    ValueOfDigits(v, 256);
    SpelledConcat(Zeros(z), ds[z..]);
  }
}
