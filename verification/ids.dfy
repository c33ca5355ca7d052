/** Sortable ids: 48 bits of time and 80 of randomness in Crockford base 32. */
module Ids {
  import opened Texts
  import opened Radix
  import opened Base58

  const CROCKFORD_ALPHABET: Text := Ascii("0123456789ABCDEFGHJKMNPQRSTVWXYZ")

  /** Base-32 digits in the letters of the alphabet. */
  function Spelled32(ds: seq<nat>): Text
    requires AreDigits(ds, 32)
  {
    Spell(ds, CROCKFORD_ALPHABET)
  }

  function Letter32(d: nat): CodeUnit
    requires d < 32
  {
    CROCKFORD_ALPHABET[d]
  }

  lemma {:induction false} Rises(t: Text, i: nat, j: nat)
    requires (forall k :: 0 <= k < |t| - 1 ==> t[k] < t[k + 1]) && i < j < |t|
    ensures t[i] < t[j]
    decreases j
  {
    if i < j - 1 {
      Rises(t, i, j - 1);
    }
    assert t[j - 1] < t[j - 1 + 1];
  }

  lemma CrockfordIncreasing()
    ensures |CROCKFORD_ALPHABET| == 32 && Increasing(CROCKFORD_ALPHABET)
  {
    var t := CROCKFORD_ALPHABET;
    assert forall k :: 0 <= k < 31 ==> t[k] < t[k + 1];
    forall i, j | 0 <= i < j < |t| ensures t[i] < t[j] {
      Rises(t, i, j);
    }
  }

  /** Digits spelled in the alphabet sort as the digits do. */
  lemma CrockfordOrder(xs: seq<nat>, ys: seq<nat>)
    requires AreDigits(xs, 32) && AreDigits(ys, 32)
    ensures Less(Spelled32(xs), Spelled32(ys)) <==> Less(xs, ys)
  {
    CrockfordIncreasing();
    SpellOrder(xs, ys, CROCKFORD_ALPHABET);
  }

  // ---------------------------------------------------------------- arithmetic of shifting

  lemma NestedDigits(s: nat, t: nat, r: nat, a: nat, b: nat)
    requires t < b && r < a
    ensures (s * b + t) * a + r == s * (a * b) + (t * a + r)
    ensures 0 <= t * a + r < a * b
  {
    Distribute(s * b, t, a);
    Associates(s, b, a);
    Commutes(a, b);
    MulStep(t, b, a);
    MulMonotone(0, t, a);
  }

  lemma Commutes(a: int, b: int)
    ensures a * b == b * a
  {
  }

  lemma DivDiv(x: nat, a: nat, b: nat)
    requires a > 0 && b > 0
    ensures a * b > 0 && (x / a) / b == x / (a * b)
  {
    Quotient(x, a);
    Quotient(x / a, b);
    NestedDigits((x / a) / b, (x / a) % b, x % a, a, b);
    DivRem((x / a) / b, ((x / a) % b) * a + x % a, a * b);
  }

  lemma ScaledDiv(x: nat, p: nat, q: nat)
    requires p > 0 && q > 0
    ensures q * p > 0 && (x * q) / (q * p) == x / p
  {
    DivRem(x, 0, q);
    DivDiv(x * q, q, p);
  }

  lemma PowSplit(e: nat, f: nat)
    requires f <= e
    ensures Pow(2, e) == Pow(2, e - f) * Pow(2, f) && Pow(2, e - f) > 0 && Pow(2, f) > 0
  {
    PowAdd(2, e - f, f);
    PowPositive(2, e - f);
    PowPositive(2, f);
  }

  lemma SmallPows()
    ensures Pow(2, 5) == 32 && Pow(2, 8) == 256
  {
    assert Pow(2, 2) == 4;
    PowAdd(2, 2, 2);
    PowAdd(2, 4, 1);
    PowAdd(2, 4, 4);
  }

  lemma {:induction false} PowOfPow(e: nat, n: nat)
    ensures Pow(Pow(2, e), n) == Pow(2, e * n)
  {
    if n > 0 {
      PowOfPow(e, n - 1);
      PowAdd(2, e, e * (n - 1));
      assert e * n == e + e * (n - 1);
    }
  }

  // ---------------------------------------------------------------- the encoder

  /** The characters for `n` bytes. */
  function Chars(n: nat): nat {
    (8 * n + 4) / 5
  }

  /** What encoding means: the bytes as one number, zero bits appended to a multiple of five. */
  function Base32Number(bytes: seq<Byte>): nat {
    Value(bytes, 256) * Pow(2, 5 * Chars(|bytes|) - 8 * |bytes|)
  }

  function Base32(bytes: seq<Byte>): Text {
    Spelled32(Fixed(Base32Number(bytes), Chars(|bytes|), 32))
  }

  /** `(bits >> shift) & 0x1f`. */
  function ShiftRight(bits: nat, shift: nat): (d: nat)
    ensures d < 32
  {
    PowPositive(2, shift);
    (bits / Pow(2, shift)) % 32
  }

  /** `(bits << shift) & 0x1f`. */
  function ShiftLeft(bits: nat, shift: nat): (d: nat)
    ensures d < 32
  {
    (bits * Pow(2, shift)) % 32
  }

  /** The encoder's bookkeeping: `out` spells the bits read so far but for the last `bitCount`. */
  ghost predicate Emitted(out: Text, bits: nat, bitCount: nat, count: nat) {
    && |out| == count
    && Pow(2, bitCount) > 0
    && out == Spelled32(Fixed(bits / Pow(2, bitCount), count, 32))
  }

  lemma EmitFive(out: Text, bits: nat, bitCount: nat, count: nat)
    requires bitCount >= 5 && Emitted(out, bits, bitCount, count)
    ensures Pow(2, bitCount - 5) > 0
    ensures Emitted(out + [Letter32(ShiftRight(bits, bitCount - 5))], bits, bitCount - 5, count + 1)
  {
    SmallPows();
    PowSplit(bitCount, 5);
    var x := bits / Pow(2, bitCount - 5);
    DivDiv(bits, Pow(2, bitCount - 5), 32);
    Quotient(x, 32);
    assert Fixed(x, count + 1, 32) == Fixed(x / 32, count, 32) + [x % 32];
  }

  lemma TakeByte(out: Text, bits: nat, bitCount: nat, count: nat, byte: Byte)
    requires Emitted(out, bits, bitCount, count)
    ensures Emitted(out, bits * 256 + byte, bitCount + 8, count)
  {
    SmallPows();
    PowSplit(bitCount + 8, 8);
    DivRem(bits, byte, 256);
    DivDiv(bits * 256 + byte, 256, Pow(2, bitCount));
  }

  lemma EmitRest(out: Text, bits: nat, bitCount: nat, count: nat)
    requires 0 < bitCount < 5 && Emitted(out, bits, bitCount, count)
    ensures Emitted(out + [Letter32(ShiftLeft(bits, 5 - bitCount))], bits * Pow(2, 5 - bitCount), 0, count + 1)
  {
    SmallPows();
    PowSplit(5, bitCount);
    var x := bits * Pow(2, 5 - bitCount);
    ScaledDiv(bits, Pow(2, bitCount), Pow(2, 5 - bitCount));
    Quotient(x, 32);
    assert Pow(2, 0) == 1;
    assert Fixed(x, count + 1, 32) == Fixed(x / 32, count, 32) + [x % 32];
  }

  /** The encoder after `i` bytes: their bits are in `bits`, all but the last `bitCount` are out. */
  ghost predicate HasRead(bytes: seq<Byte>, i: nat, out: Text, bits: nat, bitCount: nat)
    requires i <= |bytes|
  {
    bits == Value(bytes[..i], 256) && 8 * i == 5 * |out| + bitCount && Emitted(out, bits, bitCount, |out|)
  }

  lemma ReadByte(bytes: seq<Byte>, i: nat, out: Text, bits: nat, bitCount: nat)
    requires i < |bytes| && HasRead(bytes, i, out, bits, bitCount)
    ensures HasRead(bytes, i + 1, out, bits * 256 + bytes[i], bitCount + 8)
  {
    assert bytes[..i + 1][..i] == bytes[..i];
    TakeByte(out, bits, bitCount, |out|, bytes[i]);
  }

  lemma WriteLetter(bytes: seq<Byte>, i: nat, out: Text, bits: nat, bitCount: nat)
    requires i <= |bytes| && bitCount >= 5 && HasRead(bytes, i, out, bits, bitCount)
    ensures HasRead(bytes, i, out + [Letter32(ShiftRight(bits, bitCount - 5))], bits, bitCount - 5)
  {
    EmitFive(out, bits, bitCount, |out|);
  }

  lemma AllRead(bytes: seq<Byte>, out: Text, bits: nat, bitCount: nat)
    requires HasRead(bytes, |bytes|, out, bits, bitCount) && bitCount < 5
    ensures Base32(bytes) == out + if bitCount > 0 then [Letter32(ShiftLeft(bits, 5 - bitCount))] else []
  {
    assert bytes[..|bytes|] == bytes;
    if bitCount > 0 {
      EmitRest(out, bits, bitCount, |out|);
      AllEmitted(bytes, out + [Letter32(ShiftLeft(bits, 5 - bitCount))], 5 - bitCount);
    } else {
      assert Pow(2, 0) == 1 && bits * Pow(2, 0) == bits;
      AllEmitted(bytes, out, 0);
      assert out + [] == out;
    }
  }

  lemma NothingRead(bytes: seq<Byte>)
    ensures HasRead(bytes, 0, [], 0, 0)
  {
    assert Pow(2, 0) == 1;
  }

  /** The bit-stream loop: `>>` and `<<` are division and multiplication by powers of two,
      `& 0x1f` is the remainder by 32. */
  method EncodeBase32(bytes: seq<Byte>) returns (out: Text)
    ensures out == Base32(bytes)
  {
    var bits: nat := 0;
    var bitCount: nat := 0;
    out := [];
    NothingRead(bytes);
    for i := 0 to |bytes|
      invariant bitCount < 5 && HasRead(bytes, i, out, bits, bitCount)
    {
      ReadByte(bytes, i, out, bits, bitCount);
      bits := bits * 256 + bytes[i];
      bitCount := bitCount + 8;
      while bitCount >= 5
        invariant HasRead(bytes, i + 1, out, bits, bitCount)
      {
        WriteLetter(bytes, i + 1, out, bits, bitCount);
        bitCount := bitCount - 5;
        out := out + [Letter32(ShiftRight(bits, bitCount))];
      }
    }
    AllRead(bytes, out, bits, bitCount);
    if bitCount > 0 {
      out := out + [Letter32(ShiftLeft(bits, 5 - bitCount))];
    }
  }

  lemma AllEmitted(bytes: seq<Byte>, out: Text, padding: nat)
    requires padding < 5 && 8 * |bytes| + padding == 5 * |out|
    requires Emitted(out, Value(bytes, 256) * Pow(2, padding), 0, |out|)
    ensures out == Base32(bytes)
  {
    var n, x := |out|, Base32Number(bytes);
    assert n == Chars(|bytes|) && x == Value(bytes, 256) * Pow(2, padding);
    WholeNumber(out, x);
  }

  lemma WholeNumber(out: Text, x: nat)
    requires Emitted(out, x, 0, |out|)
    ensures out == Spelled32(Fixed(x, |out|, 32))
  {
    assert Pow(2, 0) == 1;
    assert x / 1 == x;
  }

  // ---------------------------------------------------------------- order

  lemma BytesOrder(a: seq<Byte>, b: seq<Byte>)
    requires |a| == |b|
    ensures Less(a, b) <==> Value(a, 256) < Value(b, 256)
  {
    ValueBelow(a, 256);
    ValueBelow(b, 256);
    FixedOfValue(a, 256);
    FixedOfValue(b, 256);
    FixedOrder(Value(a, 256), Value(b, 256), |a|, 256);
  }

  lemma Base32NumberFits(bytes: seq<Byte>)
    ensures Base32Number(bytes) < Pow(32, Chars(|bytes|))
  {
    var n, m := |bytes|, Chars(|bytes|);
    ValueBelow(bytes, 256);
    var p := Pow(2, 5 * m - 8 * n);
    assert Pow(32, m) == p * Pow(256, n) && p > 0 by {
      SmallPows();
      PowOfPow(8, n);
      PowOfPow(5, m);
      PowSplit(5 * m, 8 * n);
    }
    MulStep(Value(bytes, 256), Pow(256, n), p);
  }

  /** Read back letter by letter, an encoding is the number its bytes make, with zero bits behind it up to a
      multiple of five: nothing of the bytes is lost, and nothing is added. */
  lemma Base32Reads(bytes: seq<Byte>) returns (ds: seq<nat>)
    ensures |ds| == |Base32(bytes)| == (8 * |bytes| + 4) / 5
    ensures forall i :: 0 <= i < |ds| ==>
              ds[i] < 32 && Base32(bytes)[i] == Ascii("0123456789ABCDEFGHJKMNPQRSTVWXYZ")[ds[i]]
    ensures Value(ds, 32) == Value(bytes, 256) * Pow(2, 5 * |ds| - 8 * |bytes|)
  {
    ds := Fixed(Base32Number(bytes), Chars(|bytes|), 32);
    Base32NumberFits(bytes);
    ValueOfFixed(Base32Number(bytes), Chars(|bytes|), 32);
  }

  lemma NumberKeepsOrder(a: seq<Byte>, b: seq<Byte>)
    requires |a| == |b|
    ensures Base32Number(a) < Base32Number(b) <==> Less(a, b)
  {
    var padding := 5 * Chars(|a|) - 8 * |a|;
    BytesOrder(a, b);
    PowPositive(2, padding);
    ScaleOrder(Value(a, 256), Value(b, 256), Pow(2, padding));
  }

  /** Encoding is a strict order embedding: byte strings of one length and their encodings sort
      alike. */
  lemma Base32KeepsOrder(a: seq<Byte>, b: seq<Byte>)
    requires |a| == |b|
    ensures |Base32(a)| == |Base32(b)| == Chars(|a|)
    ensures Less(Base32(a), Base32(b)) <==> Less(a, b)
  {
    var m, x, y := Chars(|a|), Base32Number(a), Base32Number(b);
    NumberKeepsOrder(a, b);
    Base32NumberFits(a);
    Base32NumberFits(b);
    FixedOrder(x, y, m, 32);
    CrockfordOrder(Fixed(x, m, 32), Fixed(y, m, 32));
  }

  lemma ScaleOrder(x: nat, y: nat, p: nat)
    requires p > 0
    ensures x * p < y * p <==> x < y
  {
    if x < y {
      MulStep(x, y, p);
    } else {
      MulMonotone(y, x, p);
    }
  }

  // ---------------------------------------------------------------- minting

  /** `now` in six big-endian bytes, modulo 2^48. */
  function TimeBytes(now: nat): (bytes: seq<nat>)
    ensures |bytes| == 6 && AreDigits(bytes, 256)
  {
    Fixed(now % 0x1_0000_0000_0000, 6, 256)
  }

  function LocalId(now: nat, random: seq<Byte>): Text {
    var time: seq<Byte> := TimeBytes(now);
    Base32(time + random)
  }

  method MintLocalId(now: nat, random: seq<Byte>) returns (id: Text)
    requires |random| == 10
    ensures id == LocalId(now, random) && |id| == 26
  {
    var time: seq<Byte> := TimeBytes(now);
    id := EncodeBase32(time + random);
  }

  lemma Pow256To6()
    ensures Pow(256, 6) == 0x1_0000_0000_0000
  {
    assert Pow(256, 2) == 0x1_0000;
    PowAdd(256, 2, 2);
    PowAdd(256, 4, 2);
  }

  /** A local id is its time modulo 2^48 followed by its random bytes: its letters, read as base-32 digits,
      are that 128-bit number and two zero bits. */
  lemma LocalIdReads(now: nat, random: seq<Byte>) returns (ds: seq<nat>)
    requires |random| == 10
    ensures |ds| == |LocalId(now, random)| == 26
    ensures forall i :: 0 <= i < 26 ==>
              ds[i] < 32 && LocalId(now, random)[i] == Ascii("0123456789ABCDEFGHJKMNPQRSTVWXYZ")[ds[i]]
    ensures Value(ds, 32) == ((now % 0x1_0000_0000_0000) * Pow(256, 10) + Value(random, 256)) * 4
  {
    var time: seq<Byte> := TimeBytes(now);
    ds := Base32Reads(time + random);
    Pow256To6();
    ValueOfFixed(now % 0x1_0000_0000_0000, 6, 256);
    ValueConcat(time, random, 256);
    assert Pow(2, 2) == 4;
  }

  /** Local ids sort by time modulo 2^48, and those of one millisecond by their random bytes; so no two
      different pairs of time and random bytes share an id. */
  lemma LocalIdsSort(now1: nat, r1: seq<Byte>, now2: nat, r2: seq<Byte>)
    requires |r1| == 10 && |r2| == 10
    ensures var m1, m2 := now1 % 0x1_0000_0000_0000, now2 % 0x1_0000_0000_0000;
            && (Less(LocalId(now1, r1), LocalId(now2, r2)) <==> m1 < m2 || (m1 == m2 && Less(r1, r2)))
            && (LocalId(now1, r1) == LocalId(now2, r2) <==> m1 == m2 && r1 == r2)
  {
    var m1, m2 := now1 % 0x1_0000_0000_0000, now2 % 0x1_0000_0000_0000;
    var t1: seq<Byte>, t2: seq<Byte> := TimeBytes(now1), TimeBytes(now2);
    Pow256To6();
    FixedOrder(m1, m2, 6, 256);
    FixedOrder(m2, m1, 6, 256);
    FixedInjective(m1, m2, 6, 256);
    Base32KeepsOrder(t1 + r1, t2 + r2);
    Base32KeepsOrder(t2 + r2, t1 + r1);
    LessSplit(t1, r1, t2, r2);
    LessSplit(t2, r2, t1, r1);
    LessTotal(r1, r2);
    LessIrreflexive(LocalId(now1, r1));
  }

  /** An id minted earlier sorts first whatever the random bytes, exactly when its time is smaller
      modulo 2^48: so for all times below 2^48, and not across a wrap. */
  lemma LocalIdsSortByTime(now1: nat, now2: nat)
    ensures (forall r1: seq<Byte>, r2: seq<Byte> :: |r1| == 10 && |r2| == 10 ==>
               Less(LocalId(now1, r1), LocalId(now2, r2)))
       <==> now1 % 0x1_0000_0000_0000 < now2 % 0x1_0000_0000_0000
  {
    var m1, m2 := now1 % 0x1_0000_0000_0000, now2 % 0x1_0000_0000_0000;
    forall r1: seq<Byte>, r2: seq<Byte> | |r1| == 10 && |r2| == 10
      ensures Less(LocalId(now1, r1), LocalId(now2, r2)) <==> m1 < m2 || (m1 == m2 && Less(r1, r2))
    {
      LocalIdsSort(now1, r1, now2, r2);
    }
    var zeros: seq<Byte> := Zeros(10);
    LessIrreflexive(zeros);
    if m1 >= m2 {
      assert !Less(LocalId(now1, zeros), LocalId(now2, zeros));
    }
  }

  /** `mintId`; `None` is the error for a missing base or collection. */
  function MintId(actorBase: Text, collection: Text, localId: Text): Option<Text> {
    if actorBase == [] || collection == [] then None
    else
      var slash := Ascii("/");
      var base := if actorBase[|actorBase| - 1] == slash[0] then actorBase[..|actorBase| - 1] else actorBase;
      Some(base + slash + collection + slash + localId)
  }

  /** A full id is the base without one trailing slash, the collection and the local id, with slashes. */
  lemma MintedIdIs(actorBase: Text, collection: Text, localId: Text)
    requires collection != []
    ensures var id := actorBase + Ascii("/") + collection + Ascii("/") + localId;
            && MintId(actorBase + Ascii("/"), collection, localId) == Some(id)
            && (actorBase != [] && actorBase[|actorBase| - 1] != '/' as int ==>
                  MintId(actorBase, collection, localId) == Some(id))
  {
    var slashed := actorBase + Ascii("/");
    assert slashed[..|slashed| - 1] == actorBase;
  }

  /** Full ids under one actor and collection sort as their local ids do. */
  lemma MintedIdsSort(actorBase: Text, collection: Text, l1: Text, l2: Text)
    requires actorBase != [] && collection != []
    ensures Less(MintId(actorBase, collection, l1).value, MintId(actorBase, collection, l2).value) <==> Less(l1, l2)
  {
    var slash := Ascii("/");
    var base := if actorBase[|actorBase| - 1] == slash[0] then actorBase[..|actorBase| - 1] else actorBase;
    LessAfterPrefix(base + slash + collection + slash, l1, l2);
  }
}
