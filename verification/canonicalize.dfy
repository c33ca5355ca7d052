/** The JSON Canonicalization Scheme of RFC 8785: the printer, and what a printed value means. */
module Canonicalize {
  import opened Texts

  const QUOTE: CodeUnit := 34
  const COMMA: CodeUnit := 44
  const COLON: CodeUnit := 58
  const LBRACKET: CodeUnit := 91
  const BACKSLASH: CodeUnit := 92
  const RBRACKET: CodeUnit := 93
  const LOWER_U: CodeUnit := 117
  const LBRACE: CodeUnit := 123
  const RBRACE: CodeUnit := 125
  const NULL: Text := Ascii("null")
  const TRUE: Text := Ascii("true")
  const FALSE: Text := Ascii("false")
  const ZERO: Text := Ascii("0")

  // ---------------------------------------------------------------- values

  /** A number is known by its shortest decimal form, `String(value)`; only -0 shares one, with 0. */
  datatype Number = NaN | Infinite | NegativeZero | Finite(token: Text)

  datatype Member = Member(key: Text, value: Json)

  /** The values a caller may pass. `Other` is a function or a symbol. */
  datatype Json =
    | Undefined
    | Null
    | Bool(b: bool)
    | Num(n: Number)
    | Str(s: Text)
    | BigInt
    | Other
    | Arr(items: seq<Json>)
    | Obj(members: seq<Member>)

  datatype Failure = NonFinite | BigIntValue | UnsupportedType

  datatype Outcome<+T> = Ok(value: T) | Throws(failure: Failure)

  predicate IsTokenUnit(c: CodeUnit) {
    48 <= c <= 57 || c == 43 || c == 45 || c == 46 || c == 101
  }

  predicate IsToken(t: Text) {
    t != [] && forall i :: 0 <= i < |t| ==> IsTokenUnit(t[i])
  }

  predicate DistinctKeys(members: seq<Member>) {
    forall i, j :: 0 <= i < j < |members| ==> members[i].key != members[j].key
  }

  predicate WellFormed(v: Json) {
    match v
    case Num(Finite(token)) => IsToken(token)
    case Arr(items) => forall i :: 0 <= i < |items| ==> WellFormed(items[i])
    case Obj(members) => DistinctKeys(members) && forall i :: 0 <= i < |members| ==> WellFormed(members[i].value)
    case _ => true
  }

  // ---------------------------------------------------------------- strings

  predicate IsHigh(c: CodeUnit) {
    0xD800 <= c < 0xDC00
  }

  predicate IsLow(c: CodeUnit) {
    0xDC00 <= c < 0xE000
  }

  function HexLetter(d: nat): CodeUnit {
    if d < 10 then 48 + d else 87 + d
  }

  /** `\u` and four lower-case digits. */
  function UnicodeEscape(c: CodeUnit): Text {
    [BACKSLASH, LOWER_U, HexLetter(c / 4096), HexLetter(c / 256 % 16), HexLetter(c / 16 % 16), HexLetter(c % 16)]
  }

  function EscapeUnit(c: CodeUnit): Text {
    if c == QUOTE || c == BACKSLASH then [BACKSLASH, c]
    else if c == 8 then [BACKSLASH, 98]
    else if c == 9 then [BACKSLASH, 116]
    else if c == 10 then [BACKSLASH, 110]
    else if c == 12 then [BACKSLASH, 102]
    else if c == 13 then [BACKSLASH, 114]
    else if c < 32 || IsHigh(c) || IsLow(c) then UnicodeEscape(c)
    else [c]
  }

  /** A surrogate pair stays as it is; a lone surrogate is escaped. */
  function Escape(s: Text): Text {
    if s == [] then []
    else if |s| >= 2 && IsHigh(s[0]) && IsLow(s[1]) then [s[0], s[1]] + Escape(s[2..])
    else EscapeUnit(s[0]) + Escape(s[1..])
  }

  /** `JSON.stringify` of a string. */
  function Quote(s: Text): Text {
    [QUOTE] + Escape(s) + [QUOTE]
  }

  // ---------------------------------------------------------------- canonicalizeValue

  /** The first failure, or all the values. */
  function All<T>(parts: seq<Outcome<T>>): Outcome<seq<T>> {
    if parts == [] then Ok([])
    else
      match parts[0]
      case Throws(e) => Throws(e)
      case Ok(first) =>
        match All(parts[1..])
        case Throws(e) => Throws(e)
        case Ok(others) => Ok([first] + others)
  }

  function Bracketed(open: CodeUnit, parts: seq<Text>, close: CodeUnit): Text {
    [open] + Join(parts, [COMMA]) + [close]
  }

  function Enclose(open: CodeUnit, parts: seq<Outcome<Text>>, close: CodeUnit): Outcome<Text> {
    match All(parts)
    case Throws(e) => Throws(e)
    case Ok(texts) => Ok(Bracketed(open, texts, close))
  }

  function Labelled(key: Text, text: Text): Text {
    Quote(key) + [COLON] + text
  }

  function Label(key: Text, part: Outcome<Text>): Outcome<Text> {
    match part
    case Throws(e) => Throws(e)
    case Ok(text) => Ok(Labelled(key, text))
  }

  /** The keys whose value is not undefined. */
  function Present(members: seq<Member>): set<Text> {
    set m | m in members && !m.value.Undefined? :: m.key
  }

  /** `value[key]`. */
  function Get(members: seq<Member>, key: Text): (v: Json)
    requires key in Present(members)
    ensures Member(key, v) in members && !v.Undefined?
  {
    if members[0].key == key && !members[0].value.Undefined? then members[0].value
    else
      assert members == [members[0]] + members[1..];
      Get(members[1..], key)
  }

  ghost function CanonicalizeValue(v: Json): Outcome<Text>
    decreases v, 1
  {
    match v
    case Null => Ok(NULL)
    case Bool(b) => Ok(if b then TRUE else FALSE)
    case Num(Finite(token)) => Ok(token)
    case Num(NegativeZero) => Ok(ZERO)
    case Num(_) => Throws(NonFinite)
    case Str(s) => Ok(Quote(s))
    case BigInt => Throws(BigIntValue)
    case Arr(_) => Enclose(LBRACKET, ItemParts(v), RBRACKET)
    case Obj(_) => Enclose(LBRACE, MemberParts(v), RBRACE)
    case _ => Throws(UnsupportedType)
  }

  ghost function ItemParts(v: Json): (parts: seq<Outcome<Text>>)
    requires v.Arr?
    ensures |parts| == |v.items|
    ensures forall i :: 0 <= i < |parts| ==>
              parts[i] == if v.items[i].Undefined? then Ok(NULL) else CanonicalizeValue(v.items[i])
    decreases v, 0
  {
    seq(|v.items|, i requires 0 <= i < |v.items| =>
      if v.items[i].Undefined? then Ok(NULL) else CanonicalizeValue(v.items[i]))
  }

  /** The members in ascending order of their keys. */
  ghost function MemberParts(v: Json): (parts: seq<Outcome<Text>>)
    requires v.Obj?
    ensures var keys := Sorted(Present(v.members));
            |parts| == |keys| &&
            forall i :: 0 <= i < |parts| ==>
              keys[i] in Present(v.members) && parts[i] == Label(keys[i], CanonicalizeValue(Get(v.members, keys[i])))
    decreases v, 0
  {
    var keys := Sorted(Present(v.members));
    assert forall i :: 0 <= i < |keys| ==> keys[i] in keys;
    seq(|keys|, i requires 0 <= i < |keys| => Label(keys[i], CanonicalizeValue(Get(v.members, keys[i]))))
  }

  // ---------------------------------------------------------------- what a value means

  /** A value without its accidents: no order of members, no undefined, one zero. */
  datatype Plain =
    | PNull
    | PBool(b: bool)
    | PNum(token: Text)
    | PStr(s: Text)
    | PArr(items: seq<Plain>)
    | PObj(members: map<Text, Plain>)

  /** The values with a canonical form: no NaN, infinity, bigint, function or symbol anywhere, and
      undefined only as an item or a member. */
  ghost predicate Accepted(v: Json) {
    match v
    case Num(n) => !n.NaN? && !n.Infinite?
    case Undefined | BigInt | Other => false
    case Arr(items) => forall i :: 0 <= i < |items| ==> items[i].Undefined? || Accepted(items[i])
    case Obj(members) => forall m :: m in members ==> m.value.Undefined? || Accepted(m.value)
    case _ => true
  }

  ghost function Meaning(v: Json): Plain
    requires Accepted(v)
  {
    match v
    case Null => PNull
    case Bool(b) => PBool(b)
    case Num(n) => PNum(if n.NegativeZero? then ZERO else n.token)
    case Str(s) => PStr(s)
    case Arr(items) =>
      PArr(seq(|items|, i requires 0 <= i < |items| =>
        if items[i].Undefined? then PNull else Meaning(items[i])))
    case Obj(members) => PObj(map key | key in Present(members) :: key := Meaning(Get(members, key)))
  }

  /** The canonical text of a meaning. */
  ghost function Render(p: Plain): Text
    decreases p, 1
  {
    match p
    case PNull => NULL
    case PBool(b) => if b then TRUE else FALSE
    case PNum(token) => token
    case PStr(s) => Quote(s)
    case PArr(_) => Bracketed(LBRACKET, ItemTexts(p), RBRACKET)
    case PObj(_) => Bracketed(LBRACE, MemberTexts(p), RBRACE)
  }

  ghost function ItemTexts(p: Plain): (texts: seq<Text>)
    requires p.PArr?
    ensures |texts| == |p.items| && forall i :: 0 <= i < |texts| ==> texts[i] == Render(p.items[i])
    decreases p, 0
  {
    seq(|p.items|, i requires 0 <= i < |p.items| => Render(p.items[i]))
  }

  ghost function MemberTexts(p: Plain): (texts: seq<Text>)
    requires p.PObj?
    ensures var keys := Sorted(p.members.Keys);
            |texts| == |keys| &&
            forall i :: 0 <= i < |texts| ==>
              keys[i] in p.members && texts[i] == Labelled(keys[i], Render(p.members[keys[i]]))
    decreases p, 0
  {
    var keys := Sorted(p.members.Keys);
    assert forall i :: 0 <= i < |keys| ==> keys[i] in keys;
    seq(|keys|, i requires 0 <= i < |keys| => Labelled(keys[i], Render(p.members[keys[i]])))
  }

  ghost predicate TokensIn(p: Plain) {
    match p
    case PNum(token) => IsToken(token)
    case PArr(items) => forall i :: 0 <= i < |items| ==> TokensIn(items[i])
    case PObj(members) => forall key :: key in members ==> TokensIn(members[key])
    case _ => true
  }

  // ---------------------------------------------------------------- printing a value prints its meaning

  lemma {:induction false} AllOk<T>(parts: seq<Outcome<T>>, values: seq<T>)
    requires |parts| == |values| && forall i :: 0 <= i < |parts| ==> parts[i] == Ok(values[i])
    ensures All(parts) == Ok(values)
  {
    if parts != [] {
      AllOk(parts[1..], values[1..]);
      assert values == [values[0]] + values[1..];
    }
  }

  lemma {:induction false} AllThrows<T>(parts: seq<Outcome<T>>, i: nat)
    requires i < |parts| && parts[i].Throws?
    ensures All(parts).Throws?
  {
    if i > 0 {
      AllThrows(parts[1..], i - 1);
    }
  }

  lemma {:induction false} MeaningTokens(v: Json)
    requires WellFormed(v) && Accepted(v)
    ensures TokensIn(Meaning(v))
  {
    match v
    case Arr(items) =>
      forall i | 0 <= i < |items| && !items[i].Undefined? ensures TokensIn(Meaning(items[i])) {
        MeaningTokens(items[i]);
      }
    case Obj(members) =>
      forall key | key in Present(members) ensures TokensIn(Meaning(Get(members, key))) {
        MeaningTokens(Get(members, key));
      }
    case _ =>
  }

  /** What the code accepts prints as the canonical text of its meaning. */
  lemma {:induction false} CanonicalizeAccepted(v: Json)
    requires WellFormed(v) && Accepted(v)
    ensures CanonicalizeValue(v) == Ok(Render(Meaning(v)))
    decreases v, 1
  {
    match v
    case Arr(_) => ArrayAccepted(v);
    case Obj(_) => ObjectAccepted(v);
    case _ =>
  }

  lemma {:induction false} ArrayAccepted(v: Json)
    requires v.Arr? && WellFormed(v) && Accepted(v)
    ensures All(ItemParts(v)) == Ok(ItemTexts(Meaning(v)))
    ensures CanonicalizeValue(v) == Ok(Render(Meaning(v)))
    decreases v, 0
  {
    forall i | 0 <= i < |v.items| && !v.items[i].Undefined?
      ensures CanonicalizeValue(v.items[i]) == Ok(Render(Meaning(v.items[i])))
    {
      CanonicalizeAccepted(v.items[i]);
    }
    AllOk(ItemParts(v), ItemTexts(Meaning(v)));
  }

  lemma {:induction false} ObjectAccepted(v: Json)
    requires v.Obj? && WellFormed(v) && Accepted(v)
    ensures All(MemberParts(v)) == Ok(MemberTexts(Meaning(v)))
    ensures CanonicalizeValue(v) == Ok(Render(Meaning(v)))
    decreases v, 0
  {
    forall key | key in Present(v.members)
      ensures CanonicalizeValue(Get(v.members, key)) == Ok(Render(Meaning(Get(v.members, key))))
    {
      CanonicalizeAccepted(Get(v.members, key));
    }
    var p := Meaning(v);
    assert p.members.Keys == Present(v.members);
    var keys, parts, texts := Sorted(Present(v.members)), MemberParts(v), MemberTexts(p);
    forall i | 0 <= i < |keys| ensures parts[i] == Ok(texts[i]) {
      assert keys[i] in Present(v.members) && p.members[keys[i]] == Meaning(Get(v.members, keys[i]));
    }
    AllOk(parts, texts);
  }

  /** And nothing else prints. */
  lemma {:induction false} CanonicalizeRejects(v: Json)
    requires WellFormed(v) && !Accepted(v)
    ensures CanonicalizeValue(v).Throws?
    decreases v, 1
  {
    match v
    case Arr(items) =>
      var i :| 0 <= i < |items| && !items[i].Undefined? && !Accepted(items[i]);
      CanonicalizeRejects(items[i]);
      AllThrows(ItemParts(v), i);
    case Obj(members) =>
      var m :| m in members && !m.value.Undefined? && !Accepted(m.value);
      MemberRejects(v, m);
    case _ =>
  }

  lemma {:induction false} MemberRejects(v: Json, m: Member)
    requires v.Obj? && WellFormed(v)
    requires m in v.members && !m.value.Undefined? && !Accepted(m.value)
    ensures All(MemberParts(v)).Throws?
    decreases v, 0
  {
    CanonicalizeRejects(m.value);
    var keys := Sorted(Present(v.members));
    assert m.key in keys;
    var i :| 0 <= i < |keys| && keys[i] == m.key;
    assert Get(v.members, m.key) == m.value;
    AllThrows(MemberParts(v), i);
  }
}
