/** The canonical text of each kind of value, spelled out: sections 3.2.2 and 3.2.3 of RFC 8785. */
module JsonTexts {
  import opened Texts
  import opened Canonicalize
  import opened JsonReader

  // ---------------------------------------------------------------- strings

  /** A lower-case hexadecimal digit and its value. */
  ghost predicate LowerHex(d: CodeUnit, value: nat) {
    (48 <= d <= 57 && value == d - 48) || (97 <= d <= 102 && value == d - 87)
  }

  ghost predicate FourDigits(digits: Text, c: CodeUnit) {
    |digits| == 4 && exists p: nat, q: nat, r: nat, s: nat ::
      && LowerHex(digits[0], p) && LowerHex(digits[1], q) && LowerHex(digits[2], r) && LowerHex(digits[3], s)
      && c == 4096 * p + 256 * q + 16 * r + s
  }

  /** The two-character escapes. */
  ghost function ShortEscape(c: CodeUnit): Option<CodeUnit> {
    if c == '\"' as int then Some('\"' as int)
    else if c == '\\' as int then Some('\\' as int)
    else if c == 8 then Some('b' as int)
    else if c == 9 then Some('t' as int)
    else if c == 10 then Some('n' as int)
    else if c == 12 then Some('f' as int)
    else if c == 13 then Some('r' as int)
    else None
  }

  /** How one unit that is not half of a surrogate pair is written: with its two-character escape if it has
      one, else with four lower-case digits if it is a control character or a lone surrogate, else as it is. */
  ghost predicate WrittenAs(c: CodeUnit, text: Text) {
    if ShortEscape(c).Some? then text == ['\\' as int, ShortEscape(c).value]
    else if c < 0x20 || 0xD800 <= c <= 0xDFFF then
      |text| == 6 && text[..2] == Ascii("\\u") && FourDigits(text[2..], c)
    else text == [c]
  }

  /** `t` is the text between the quotes. */
  ghost predicate PrintsAs(s: Text, t: Text) {
    CanonicalizeValue(Str(s)) == Ok(['\"' as int] + t + ['\"' as int])
  }

  lemma PrintsEscape(s: Text)
    ensures forall t :: PrintsAs(s, t) <==> t == Escape(s)
  {
    forall t | PrintsAs(s, t) ensures t == Escape(s) {
      assert (['\"' as int] + t + ['\"' as int])[1..|t| + 1] == t;
      assert ([QUOTE] + Escape(s) + [QUOTE])[1..|Escape(s)| + 1] == Escape(s);
      assert |['\"' as int] + t + ['\"' as int]| == |t| + 2;
    }
  }

  lemma HexDigitsOf(c: CodeUnit)
    requires c < 65536
    ensures FourDigits(UnicodeEscape(c)[2..], c)
  {
    var p, q, r, s := c / 4096, c / 256 % 16, c / 16 % 16, c % 16;
    assert c / 256 == c / 16 / 16 && c / 4096 == c / 256 / 16;
    assert c == 16 * (c / 16) + s && c / 16 == 16 * (c / 256) + r && c / 256 == 16 * p + q;
    var digits := UnicodeEscape(c)[2..];
    assert LowerHex(digits[0], p) && LowerHex(digits[1], q) && LowerHex(digits[2], r) && LowerHex(digits[3], s);
  }

  /** A single unit prints so and no other way. */
  lemma UnitPrints(c: CodeUnit)
    ensures exists t :: PrintsAs([c], t) && WrittenAs(c, t)
  {
    PrintsEscape([c]);
    assert [c][1..] == [] && Escape([]) == [];
    assert Escape([c]) == EscapeUnit(c);
    if ShortEscape(c).None? && (c < 0x20 || 0xD800 <= c <= 0xDFFF) {
      HexDigitsOf(c);
      assert UnicodeEscape(c)[..2] == Ascii("\\u");
    }
    assert PrintsAs([c], EscapeUnit(c)) && WrittenAs(c, EscapeUnit(c));
  }

  /** A surrogate pair prints as it is. */
  lemma PairPrints(high: CodeUnit, low: CodeUnit)
    requires 0xD800 <= high < 0xDC00 <= low < 0xE000
    ensures PrintsAs([high, low], [high, low])
  {
    var s := [high, low];
    assert s[2..] == [] && Escape(s) == [s[0], s[1]] + Escape(s[2..]);
    PrintsEscape(s);
  }

  /** The two halves of a pair meet. */
  ghost predicate PairAcross(s: Text, t: Text) {
    s != [] && t != [] && 0xD800 <= s[|s| - 1] < 0xDC00 <= t[0] < 0xE000
  }

  lemma {:induction false} EscapeConcat(s: Text, t: Text)
    requires !PairAcross(s, t)
    ensures Escape(s + t) == Escape(s) + Escape(t)
    decreases |s|
  {
    if s == [] {
      assert s + t == t;
    } else if |s| >= 2 && IsHigh(s[0]) && IsLow(s[1]) {
      assert (s + t)[2..] == s[2..] + t;
      EscapeConcat(s[2..], t);
      Regroup([s[0], s[1]], Escape(s[2..]), Escape(t));
    } else {
      assert (s + t)[1..] == s[1..] + t;
      EscapeConcat(s[1..], t);
      Regroup(EscapeUnit(s[0]), Escape(s[1..]), Escape(t));
    }
  }

  /** Where no pair is cut, the text of a string is the texts of its parts one after the other. With
      `UnitPrints` and `PairPrints` this says how every string prints. */
  lemma PartsPrint(s: Text, t: Text, a: Text, b: Text)
    requires !PairAcross(s, t) && PrintsAs(s, a) && PrintsAs(t, b)
    ensures PrintsAs(s + t, a + b)
  {
    PrintsEscape(s);
    PrintsEscape(t);
    PrintsEscape(s + t);
    EscapeConcat(s, t);
  }

  /** Nothing to escape: no quote, no backslash, no control character, no lone surrogate. */
  ghost predicate Clean(s: Text) {
    forall i :: 0 <= i < |s| ==> CleanAt(s, i)
  }

  ghost predicate CleanAt(s: Text, i: nat)
    requires i < |s|
  {
    && s[i] != '\"' as int && s[i] != '\\' as int && s[i] >= 0x20
    && (0xD800 <= s[i] < 0xDC00 ==> i + 1 < |s| && 0xDC00 <= s[i + 1] < 0xE000)
    && (0xDC00 <= s[i] < 0xE000 ==> i > 0 && 0xD800 <= s[i - 1] < 0xDC00)
  }

  lemma CleanTail(s: Text, n: nat)
    requires Clean(s) && n <= |s| && (0 < n < |s| ==> !(0xDC00 <= s[n] < 0xE000))
    ensures Clean(s[n..])
  {
    var rest := s[n..];
    forall i | 0 <= i < |rest| ensures CleanAt(rest, i) {
      assert CleanAt(s, i + n) && rest[i] == s[i + n];
      assert i > 0 ==> rest[i - 1] == s[i + n - 1];
      assert i + 1 < |rest| ==> rest[i + 1] == s[i + n + 1];
    }
  }

  lemma {:induction false} CleanEscape(s: Text)
    requires Clean(s)
    ensures Escape(s) == s
    decreases |s|
  {
    if s == [] {
    } else if IsHigh(s[0]) {
      assert CleanAt(s, 0) && (|s| > 2 ==> CleanAt(s, 2));
      CleanTail(s, 2);
      CleanEscape(s[2..]);
      assert s == [s[0], s[1]] + s[2..];
    } else {
      assert CleanAt(s, 0) && (|s| > 1 ==> CleanAt(s, 1));
      CleanTail(s, 1);
      CleanEscape(s[1..]);
      assert !IsLow(s[0]) && EscapeUnit(s[0]) == [s[0]];
      assert s == [s[0]] + s[1..];
    }
  }

  /** Then the string prints as itself between quotes. */
  lemma CleanPrints(s: Text)
    ensures Clean(s) ==> PrintsAs(s, s)
  {
    if Clean(s) {
      CleanEscape(s);
      PrintsEscape(s);
    }
  }

  // ---------------------------------------------------------------- other values

  lemma AtomsPrint(token: Text)
    ensures CanonicalizeValue(Null) == Ok(Ascii("null"))
    ensures CanonicalizeValue(Bool(true)) == Ok(Ascii("true")) && CanonicalizeValue(Bool(false)) == Ok(Ascii("false"))
    ensures CanonicalizeValue(Num(Finite(token))) == Ok(token)
    ensures CanonicalizeValue(Num(NegativeZero)) == Ok(Ascii("0"))
  {
  }

  /** An array prints its items between brackets, with commas; undefined items as null. */
  lemma ArrayPrints(items: seq<Json>, texts: seq<Text>)
    requires |texts| == |items|
    requires forall i :: 0 <= i < |items| ==>
               if items[i].Undefined? then texts[i] == Ascii("null") else CanonicalizeValue(items[i]) == Ok(texts[i])
    ensures CanonicalizeValue(Arr(items)) == Ok(['[' as int] + Join(texts, [',' as int]) + [']' as int])
  {
    AllOk(ItemParts(Arr(items)), texts);
  }

  /** `shown` are the members that are not undefined, in ascending order of their keys. */
  ghost predicate Shown(members: seq<Member>, shown: seq<Member>) {
    && (forall i, j :: 0 <= i < j < |shown| ==> Less(shown[i].key, shown[j].key))
    && (forall m :: m in shown <==> m in members && !m.value.Undefined?)
  }

  /** An object prints these members between braces: the key as a string, a colon and the value, with commas. */
  lemma ObjectPrints(members: seq<Member>, shown: seq<Member>, keyTexts: seq<Text>, texts: seq<Text>,
        parts: seq<Text>)
    requires DistinctKeys(members) && Shown(members, shown)
    requires |keyTexts| == |texts| == |parts| == |shown|
    requires forall i :: 0 <= i < |shown| ==>
               && CanonicalizeValue(Str(shown[i].key)) == Ok(keyTexts[i])
               && CanonicalizeValue(shown[i].value) == Ok(texts[i])
               && parts[i] == keyTexts[i] + [':' as int] + texts[i]
    ensures CanonicalizeValue(Obj(members)) == Ok(['{' as int] + Join(parts, [',' as int]) + ['}' as int])
  {
    var keys := seq(|shown|, i requires 0 <= i < |shown| => shown[i].key);
    ShownKeys(members, shown, keys);
    forall i | 0 <= i < |shown| ensures MemberParts(Obj(members))[i] == Ok(parts[i]) {
      assert shown[i] in shown && keys[i] == shown[i].key;
      PartIs(Obj(members), shown[i], i);
      MemberPrints(shown[i].key, keyTexts[i], shown[i].value, texts[i]);
    }
    ObjectEncloses(Obj(members), parts);
  }

  lemma ObjectEncloses(v: Json, parts: seq<Text>)
    requires v.Obj? && |parts| == |MemberParts(v)|
    requires forall i :: 0 <= i < |parts| ==> MemberParts(v)[i] == Ok(parts[i])
    ensures CanonicalizeValue(v) == Ok(['{' as int] + Join(parts, [',' as int]) + ['}' as int])
  {
    ObjectIsEnclosed(v);
    Encloses(LBRACE, MemberParts(v), parts, RBRACE);
  }

  lemma Encloses(open: CodeUnit, parts: seq<Outcome<Text>>, texts: seq<Text>, close: CodeUnit)
    requires |parts| == |texts| && forall i :: 0 <= i < |parts| ==> parts[i] == Ok(texts[i])
    ensures Enclose(open, parts, close) == Ok([open] + Join(texts, [',' as int]) + [close])
  {
    AllOk(parts, texts);
  }

  lemma PartIs(v: Json, m: Member, i: nat)
    requires v.Obj? && DistinctKeys(v.members) && m in v.members && !m.value.Undefined?
    requires i < |Sorted(Present(v.members))| && Sorted(Present(v.members))[i] == m.key
    ensures |MemberParts(v)| == |Sorted(Present(v.members))|
    ensures MemberParts(v)[i] == Label(m.key, CanonicalizeValue(m.value))
  {
    GetIs(v.members, m);
  }

  lemma GetIs(members: seq<Member>, m: Member)
    requires DistinctKeys(members) && m in members && !m.value.Undefined?
    ensures m.key in Present(members) && Get(members, m.key) == m.value
  {
    assert Member(m.key, Get(members, m.key)) in members;
  }

  lemma MemberPrints(key: Text, keyText: Text, value: Json, text: Text)
    requires CanonicalizeValue(Str(key)) == Ok(keyText) && CanonicalizeValue(value) == Ok(text)
    ensures Label(key, CanonicalizeValue(value)) == Ok(keyText + [':' as int] + text)
  {
  }

  lemma ShownKeys(members: seq<Member>, shown: seq<Member>, keys: seq<Text>)
    requires DistinctKeys(members) && Shown(members, shown) && |keys| == |shown|
    requires forall i :: 0 <= i < |shown| ==> keys[i] == shown[i].key
    ensures keys == Sorted(Present(members))
  {
    forall key ensures key in keys <==> key in Present(members) {
      if key in Present(members) {
        var m :| m in members && !m.value.Undefined? && m.key == key;
        assert m in shown;
        var i :| 0 <= i < |shown| && shown[i] == m;
        assert keys[i] == key;
      }
      if key in keys {
        var i :| 0 <= i < |keys| && keys[i] == key;
        assert shown[i] in shown;
      }
    }
    SortedIs(Present(members), keys);
  }

  // ---------------------------------------------------------------- what throws

  /** `w` is `v`, or stands somewhere in it, other than as an undefined item or member. */
  ghost predicate Contains(v: Json, w: Json) {
    v == w ||
    match v
    case Arr(items) => exists i :: 0 <= i < |items| && !items[i].Undefined? && Contains(items[i], w)
    case Obj(members) => exists m :: m in members && !m.value.Undefined? && Contains(m.value, w)
    case _ => false
  }

  /** The failure a value without a text causes. */
  ghost predicate Causes(w: Json, failure: Failure) {
    match failure
    case NonFinite => w.Num? && (w.n.NaN? || w.n.Infinite?)
    case BigIntValue => w.BigInt?
    case UnsupportedType => w.Undefined? || w.Other?
  }

  lemma {:induction false} FirstFailure<T>(parts: seq<Outcome<T>>) returns (i: nat)
    requires All(parts).Throws?
    ensures i < |parts| && parts[i].Throws? && All(parts) == Throws(parts[i].failure)
    ensures forall j :: 0 <= j < i ==> parts[j].Ok?
  {
    i := 0;
    if parts[0].Ok? {
      i := FirstFailure(parts[1..]);
      i := i + 1;
      assert parts[i] == parts[1..][i - 1];
      assert forall j :: 0 < j < i ==> parts[j] == parts[1..][j - 1];
    }
  }

  /** Every value somewhere inside that has no text makes the whole throw, and only such a value does, with its
      own failure. */
  lemma {:induction false} ThrowsForContents(v: Json)
    requires WellFormed(v)
    ensures CanonicalizeValue(v).Throws? ==>
              exists w :: Contains(v, w) && Causes(w, CanonicalizeValue(v).failure)
    ensures CanonicalizeValue(v).Ok? ==> forall w, failure :: Contains(v, w) ==> !Causes(w, failure)
    decreases v
  {
    match v
    case Arr(items) =>
      forall i | 0 <= i < |items| { ThrowsForContents(items[i]); }
      ArrayThrows(v);
    case Obj(members) =>
      forall m | m in members { ThrowsForContents(m.value); }
      ObjectThrows(v);
    case _ =>
      assert Contains(v, v);
  }

  ghost predicate Settled(v: Json) {
    && (CanonicalizeValue(v).Throws? ==> exists w :: Contains(v, w) && Causes(w, CanonicalizeValue(v).failure))
    && (CanonicalizeValue(v).Ok? ==> forall w, failure :: Contains(v, w) ==> !Causes(w, failure))
  }

  lemma ArrayThrows(v: Json)
    requires v.Arr? && forall i :: 0 <= i < |v.items| ==> Settled(v.items[i])
    ensures Settled(v)
  {
    var parts := ItemParts(v);
    if All(parts).Throws? {
      var i := FirstFailure(parts);
      assert Settled(v.items[i]);
      var w :| Contains(v.items[i], w) && Causes(w, CanonicalizeValue(v).failure);
      assert Contains(v, w);
    } else {
      forall w, failure | Contains(v, w) ensures !Causes(w, failure) {
        if v != w {
          var i :| 0 <= i < |v.items| && !v.items[i].Undefined? && Contains(v.items[i], w);
          NoneThrows(parts, i);
          assert Settled(v.items[i]);
        }
      }
    }
  }

  lemma {:induction false} NoneThrows<T>(parts: seq<Outcome<T>>, i: nat)
    requires All(parts).Ok? && i < |parts|
    ensures parts[i].Ok?
  {
    if parts[i].Throws? {
      AllThrows(parts, i);
    }
  }

  lemma ObjectThrows(v: Json)
    requires v.Obj? && DistinctKeys(v.members) && forall m :: m in v.members ==> Settled(m.value)
    ensures Settled(v)
  {
    var parts, keys := MemberParts(v), Sorted(Present(v.members));
    if All(parts).Throws? {
      var i := FirstFailure(parts);
      var value := Get(v.members, keys[i]);
      assert Member(keys[i], value) in v.members && !value.Undefined? && Settled(value);
      assert parts[i] == Label(keys[i], CanonicalizeValue(value));
      var w :| Contains(value, w) && Causes(w, CanonicalizeValue(v).failure);
      ContainsMember(v, Member(keys[i], value), w);
    } else {
      forall w, failure | Contains(v, w) ensures !Causes(w, failure) {
        if v != w {
          var m :| m in v.members && !m.value.Undefined? && Contains(m.value, w);
          MemberSettles(v, m);
        }
      }
    }
  }

  lemma ContainsMember(v: Json, m: Member, w: Json)
    requires v.Obj? && m in v.members && !m.value.Undefined? && Contains(m.value, w)
    ensures Contains(v, w)
  {
  }

  lemma MemberSettles(v: Json, m: Member)
    requires v.Obj? && DistinctKeys(v.members) && m in v.members && !m.value.Undefined?
    requires All(MemberParts(v)).Ok?
    ensures CanonicalizeValue(m.value).Ok?
  {
    var keys := Sorted(Present(v.members));
    GetIs(v.members, m);
    assert m.key in keys;
    var i :| 0 <= i < |keys| && keys[i] == m.key;
    NoneThrows(MemberParts(v), i);
  }
}
