/** A reader for canonical JSON text. It undoes the printer, which makes the printer injective. */
module JsonReader {
  import opened Texts
  import opened Canonicalize

  datatype Parsed<+T> = Failed | Parsed(value: T, rest: Text)

  // ---------------------------------------------------------------- strings

  function HexDigit(c: CodeUnit): Option<nat> {
    if 48 <= c <= 57 then Some(c - 48) else if 97 <= c <= 102 then Some(c - 87) else None
  }

  function ReadHex(t: Text): Parsed<CodeUnit> {
    if |t| < 4 then Failed
    else
      var a, b, c, d := HexDigit(t[0]), HexDigit(t[1]), HexDigit(t[2]), HexDigit(t[3]);
      if a.None? || b.None? || c.None? || d.None? then Failed
      else Parsed(4096 * a.value + 256 * b.value + 16 * c.value + d.value, t[4..])
  }

  /** One code unit of a string, escaped or not. */
  function ReadUnit(t: Text): (r: Parsed<CodeUnit>)
    ensures r.Parsed? ==> |r.rest| < |t|
  {
    if t == [] || t[0] == QUOTE || t[0] < 32 then Failed
    else if t[0] != BACKSLASH then Parsed(t[0], t[1..])
    else if |t| < 2 then Failed
    else if t[1] == QUOTE || t[1] == BACKSLASH then Parsed(t[1], t[2..])
    else if t[1] == 98 then Parsed(8, t[2..])
    else if t[1] == 116 then Parsed(9, t[2..])
    else if t[1] == 110 then Parsed(10, t[2..])
    else if t[1] == 102 then Parsed(12, t[2..])
    else if t[1] == 114 then Parsed(13, t[2..])
    else if t[1] == LOWER_U then ReadHex(t[2..])
    else Failed
  }

  /** The units up to the closing quote. */
  function ReadUnits(t: Text): (r: Parsed<Text>)
    ensures r.Parsed? ==> |r.rest| < |t|
    decreases |t|
  {
    if t == [] then Failed
    else if t[0] == QUOTE then Parsed([], t[1..])
    else
      match ReadUnit(t)
      case Failed => Failed
      case Parsed(c, rest) =>
        match ReadUnits(rest)
        case Failed => Failed
        case Parsed(s, after) => Parsed([c] + s, after)
  }

  // ---------------------------------------------------------------- values

  function TokenLength(t: Text): (n: nat)
    ensures n <= |t|
  {
    if t == [] || !IsTokenUnit(t[0]) then 0 else 1 + TokenLength(t[1..])
  }

  function ParseValue(t: Text): (r: Parsed<Plain>)
    ensures r.Parsed? ==> |r.rest| < |t|
    decreases |t|, 1
  {
    if t == [] then Failed
    else if NULL <= t then Parsed(PNull, t[|NULL|..])
    else if TRUE <= t then Parsed(PBool(true), t[|TRUE|..])
    else if FALSE <= t then Parsed(PBool(false), t[|FALSE|..])
    else if t[0] == QUOTE then
      match ReadUnits(t[1..])
      case Failed => Failed
      case Parsed(s, rest) => Parsed(PStr(s), rest)
    else if t[0] == LBRACKET then
      match ParseArray(t[1..])
      case Failed => Failed
      case Parsed(items, rest) => Parsed(PArr(items), rest)
    else if t[0] == LBRACE then
      match ParseObject(t[1..])
      case Failed => Failed
      case Parsed(members, rest) => Parsed(PObj(members), rest)
    else
      var n := TokenLength(t);
      if n == 0 then Failed else Parsed(PNum(t[..n]), t[n..])
  }

  /** What follows an opening bracket. */
  function ParseArray(t: Text): (r: Parsed<seq<Plain>>)
    ensures r.Parsed? ==> |r.rest| < |t|
    decreases |t|, 3
  {
    if t != [] && t[0] == RBRACKET then Parsed([], t[1..]) else ParseItems(t)
  }

  function ParseItems(t: Text): (r: Parsed<seq<Plain>>)
    ensures r.Parsed? ==> |r.rest| < |t|
    decreases |t|, 2
  {
    match ParseValue(t)
    case Failed => Failed
    case Parsed(item, rest) =>
      if rest == [] then Failed
      else if rest[0] == RBRACKET then Parsed([item], rest[1..])
      else if rest[0] == COMMA then
        match ParseItems(rest[1..])
        case Failed => Failed
        case Parsed(items, after) => Parsed([item] + items, after)
      else Failed
  }

  /** What follows an opening brace. */
  function ParseObject(t: Text): (r: Parsed<map<Text, Plain>>)
    ensures r.Parsed? ==> |r.rest| < |t|
    decreases |t|, 3
  {
    if t != [] && t[0] == RBRACE then Parsed(map[], t[1..]) else ParseMembers(t)
  }

  function ParseMembers(t: Text): (r: Parsed<map<Text, Plain>>)
    ensures r.Parsed? ==> |r.rest| < |t|
    decreases |t|, 2
  {
    match ParseMember(t)
    case Failed => Failed
    case Parsed(member, rest) =>
      if rest == [] then Failed
      else if rest[0] == RBRACE then Parsed(map[member.0 := member.1], rest[1..])
      else if rest[0] == COMMA then
        match ParseMembers(rest[1..])
        case Failed => Failed
        case Parsed(members, after) => Parsed(map[member.0 := member.1] + members, after)
      else Failed
  }

  function ParseMember(t: Text): (r: Parsed<(Text, Plain)>)
    ensures r.Parsed? ==> |r.rest| < |t|
    decreases |t|, 1
  {
    if t == [] || t[0] != QUOTE then Failed
    else
      match ReadUnits(t[1..])
      case Failed => Failed
      case Parsed(key, rest) =>
        if rest == [] || rest[0] != COLON then Failed
        else
          match ParseValue(rest[1..])
          case Failed => Failed
          case Parsed(value, after) => Parsed((key, value), after)
  }

  // ---------------------------------------------------------------- strings come back

  lemma HexDigits(c: CodeUnit)
    requires c < 65536
    ensures c / 4096 < 16 && c == 4096 * (c / 4096) + 256 * (c / 256 % 16) + 16 * (c / 16 % 16) + c % 16
  {
    assert c / 256 == c / 16 / 16 && c / 4096 == c / 256 / 16;
    assert c == 16 * (c / 16) + c % 16;
  }

  lemma HexLetterBack(d: nat)
    requires d < 16
    ensures HexDigit(HexLetter(d)) == Some(d)
  {
  }

  lemma HexBack(c: CodeUnit, rest: Text)
    requires c < 65536
    ensures ReadHex(UnicodeEscape(c)[2..] + rest) == Parsed(c, rest)
  {
    HexDigits(c);
    HexLetterBack(c / 4096);
    HexLetterBack(c / 256 % 16);
    HexLetterBack(c / 16 % 16);
    HexLetterBack(c % 16);
    assert (UnicodeEscape(c)[2..] + rest)[4..] == rest;
  }

  lemma UnitBack(c: CodeUnit, rest: Text)
    ensures ReadUnit(EscapeUnit(c) + rest) == Parsed(c, rest)
    ensures EscapeUnit(c) != [] && EscapeUnit(c)[0] != QUOTE
  {
    var t := EscapeUnit(c) + rest;
    if EscapeUnit(c) == UnicodeEscape(c) && c < 65536 {
      HexBack(c, rest);
      assert t[2..] == UnicodeEscape(c)[2..] + rest;
    } else {
      assert t[|EscapeUnit(c)|..] == rest;
    }
  }

  lemma ReadUnitsStep(t: Text, c: CodeUnit, rest: Text, s: Text, after: Text)
    requires t != [] && t[0] != QUOTE && ReadUnit(t) == Parsed(c, rest) && ReadUnits(rest) == Parsed(s, after)
    ensures ReadUnits(t) == Parsed([c] + s, after)
  {
  }

  lemma {:induction false} UnitsBack(s: Text, tail: Text)
    requires tail != [] && tail[0] == QUOTE
    ensures ReadUnits(Escape(s) + tail) == Parsed(s, tail[1..])
    decreases |s|
  {
    if s == [] {
      assert Escape(s) + tail == tail;
    } else if |s| >= 2 && IsHigh(s[0]) && IsLow(s[1]) {
      UnitsBack(s[2..], tail);
      Regroup([s[0], s[1]], Escape(s[2..]), tail);
      PairBack(s[0], s[1], Escape(s[2..]) + tail, s[2..], tail[1..]);
      assert s == [s[0], s[1]] + s[2..];
    } else {
      UnitsBack(s[1..], tail);
      Regroup(EscapeUnit(s[0]), Escape(s[1..]), tail);
      SingleBack(s[0], Escape(s[1..]) + tail, s[1..], tail[1..]);
      assert s == [s[0]] + s[1..];
    }
  }

  lemma SingleBack(c: CodeUnit, t: Text, s: Text, after: Text)
    requires ReadUnits(t) == Parsed(s, after)
    ensures ReadUnits(EscapeUnit(c) + t) == Parsed([c] + s, after)
  {
    UnitBack(c, t);
    ReadUnitsStep(EscapeUnit(c) + t, c, t, s, after);
  }

  lemma PairBack(high: CodeUnit, low: CodeUnit, t: Text, s: Text, after: Text)
    requires IsHigh(high) && IsLow(low) && ReadUnits(t) == Parsed(s, after)
    ensures ReadUnits([high, low] + t) == Parsed([high, low] + s, after)
  {
    var inner, whole := [low] + t, [high, low] + t;
    assert inner[1..] == t && whole[1..] == inner;
    ReadUnitsStep(inner, low, t, s, after);
    ReadUnitsStep(whole, high, inner, [low] + s, after);
    assert [high] + ([low] + s) == [high, low] + s;
  }

  // ---------------------------------------------------------------- values come back

  /** No number runs on into what follows it. */
  ghost predicate Ends(rest: Text) {
    rest == [] || !IsTokenUnit(rest[0])
  }

  /** The text `text` is read as `p` whatever ends it. */
  ghost predicate ReadAs(text: Text, p: Plain) {
    && text != [] && text[0] != RBRACKET
    && forall rest :: Ends(rest) ==> ParseValue(text + rest) == Parsed(p, rest)
  }

  lemma {:induction false} TokenBack(token: Text, rest: Text)
    requires (forall i :: 0 <= i < |token| ==> IsTokenUnit(token[i])) && Ends(rest)
    ensures TokenLength(token + rest) == |token|
  {
    if token == [] {
      assert token + rest == rest;
    } else {
      assert (token + rest)[1..] == token[1..] + rest;
      TokenBack(token[1..], rest);
    }
  }

  lemma NumberBack(token: Text, rest: Text)
    requires IsToken(token) && Ends(rest)
    ensures ParseValue(token + rest) == Parsed(PNum(token), rest)
  {
    var t := token + rest;
    TokenBack(token, rest);
    assert IsTokenUnit(t[0]);
    assert t[..|token|] == token && t[|token|..] == rest;
  }

  lemma QuotedText(escaped: Text, rest: Text)
    ensures ([QUOTE] + escaped + [QUOTE]) + rest == [QUOTE] + (escaped + ([QUOTE] + rest))
  {
  }

  lemma StringOpens(inner: Text)
    requires ReadUnits(inner).Parsed?
    ensures ParseValue([QUOTE] + inner) == Parsed(PStr(ReadUnits(inner).value), ReadUnits(inner).rest)
  {
    assert ([QUOTE] + inner)[1..] == inner;
    assert NULL[0] == 110 && TRUE[0] == 116 && FALSE[0] == 102;
  }

  lemma StringBack(s: Text, rest: Text)
    ensures ParseValue(Quote(s) + rest) == Parsed(PStr(s), rest)
  {
    var tail := [QUOTE] + rest;
    UnitsBack(s, tail);
    QuotedText(Escape(s), rest);
    StringOpens(Escape(s) + tail);
    assert tail[1..] == rest;
  }

  lemma WordBack(word: Text, rest: Text)
    requires word == NULL || word == TRUE || word == FALSE
    ensures ParseValue(word + rest) ==
            Parsed(if word == NULL then PNull else PBool(word == TRUE), rest)
  {
    var t := word + rest;
    assert t[0] == word[0] && t[|word|..] == rest;
    assert NULL[0] == 110 && TRUE[0] == 116 && FALSE[0] == 102;
  }

  /** A joined list is its first part, a comma, and the others. */
  lemma JoinedList(texts: seq<Text>, tail: Text)
    requires |texts| >= 2
    ensures Join(texts, [COMMA]) + tail == texts[0] + ([COMMA] + (Join(texts[1..], [COMMA]) + tail))
  {
  }

  lemma ItemsCons(text: Text, item: Plain, more: Text, items: seq<Plain>, after: Text)
    requires ReadAs(text, item) && ParseItems(more) == Parsed(items, after)
    ensures ParseItems(text + ([COMMA] + more)) == Parsed([item] + items, after)
  {
    var rest := [COMMA] + more;
    assert rest[1..] == more && Ends(rest);
    assert ParseValue(text + rest) == Parsed(item, rest);
  }

  lemma ItemsLast(text: Text, item: Plain, tail: Text)
    requires ReadAs(text, item) && tail != [] && tail[0] == RBRACKET
    ensures ParseItems(text + tail) == Parsed([item], tail[1..])
  {
    assert Ends(tail);
    assert ParseValue(text + tail) == Parsed(item, tail);
  }

  ghost predicate ItemsRead(items: seq<Plain>, texts: seq<Text>) {
    |texts| == |items| && forall i :: 0 <= i < |items| ==> ReadAs(texts[i], items[i])
  }

  lemma {:induction false} ItemsBack(items: seq<Plain>, texts: seq<Text>, tail: Text)
    requires items != [] && ItemsRead(items, texts) && tail != [] && tail[0] == RBRACKET
    ensures ParseItems(Join(texts, [COMMA]) + tail) == Parsed(items, tail[1..])
    decreases |items|
  {
    var text, item := texts[0], items[0];
    if |items| == 1 {
      ItemsLast(text, item, tail);
      assert items == [item];
    } else {
      assert items == [item] + items[1..];
      JoinedList(texts, tail);
      ItemsBack(items[1..], texts[1..], tail);
      ItemsCons(text, item, Join(texts[1..], [COMMA]) + tail, items[1..], tail[1..]);
    }
  }

  lemma ParseMemberStep(t: Text, key: Text, rest: Text, value: Plain, after: Text)
    requires t != [] && t[0] == QUOTE && ReadUnits(t[1..]) == Parsed(key, rest)
    requires rest != [] && rest[0] == COLON && ParseValue(rest[1..]) == Parsed(value, after)
    ensures ParseMember(t) == Parsed((key, value), after)
  {
  }

  lemma MemberBack(key: Text, text: Text, p: Plain, rest: Text)
    requires ReadAs(text, p) && Ends(rest)
    ensures ParseMember(Labelled(key, text) + rest) == Parsed((key, p), rest)
  {
    var colon := [COLON] + (text + rest);
    var tail := [QUOTE] + colon;
    UnitsBack(key, tail);
    LabelledText(Escape(key), text, rest);
    assert tail[1..] == colon && colon[1..] == text + rest;
    KeyThenValue(Escape(key) + tail, key, colon, p, rest);
  }

  lemma LabelledText(escaped: Text, text: Text, rest: Text)
    ensures ([QUOTE] + escaped + [QUOTE]) + [COLON] + text + rest ==
            [QUOTE] + (escaped + ([QUOTE] + ([COLON] + (text + rest))))
  {
  }

  lemma KeyThenValue(inner: Text, key: Text, rest: Text, value: Plain, after: Text)
    requires ReadUnits(inner) == Parsed(key, rest)
    requires rest != [] && rest[0] == COLON && ParseValue(rest[1..]) == Parsed(value, after)
    ensures ParseMember([QUOTE] + inner) == Parsed((key, value), after)
  {
    assert ([QUOTE] + inner)[1..] == inner;
    ParseMemberStep([QUOTE] + inner, key, rest, value, after);
  }

  lemma MembersCons(key: Text, text: Text, p: Plain, more: Text, members: map<Text, Plain>, after: Text)
    requires ReadAs(text, p) && ParseMembers(more) == Parsed(members, after)
    ensures ParseMembers(Labelled(key, text) + ([COMMA] + more)) == Parsed(map[key := p] + members, after)
  {
    var rest := [COMMA] + more;
    assert rest[1..] == more;
    MemberBack(key, text, p, rest);
  }

  lemma MembersLast(key: Text, text: Text, p: Plain, tail: Text)
    requires ReadAs(text, p) && tail != [] && tail[0] == RBRACE
    ensures ParseMembers(Labelled(key, text) + tail) == Parsed(map[key := p], tail[1..])
  {
    MemberBack(key, text, p, tail);
  }

  /** The part of a map that these keys cover. */
  ghost function Restrict(m: map<Text, Plain>, keys: seq<Text>): map<Text, Plain> {
    map key | key in m && key in keys :: m[key]
  }

  lemma RestrictStep(m: map<Text, Plain>, keys: seq<Text>)
    requires keys != [] && keys[0] in m && Ascending(keys)
    ensures Restrict(m, keys) == map[keys[0] := m[keys[0]]] + Restrict(m, keys[1..])
  {
    forall key ensures key in keys[1..] <==> key in keys && key != keys[0] {
      TailElements(keys, key);
    }
    HeadIsElement(keys);
  }

  ghost predicate MembersRead(m: map<Text, Plain>, keys: seq<Text>, texts: seq<Text>) {
    && |texts| == |keys|
    && forall i :: 0 <= i < |keys| ==>
        keys[i] in m && exists text :: texts[i] == Labelled(keys[i], text) && ReadAs(text, m[keys[i]])
  }

  lemma {:induction false} MembersBack(m: map<Text, Plain>, keys: seq<Text>, texts: seq<Text>, tail: Text)
    requires keys != [] && Ascending(keys) && MembersRead(m, keys, texts)
    requires tail != [] && tail[0] == RBRACE
    ensures ParseMembers(Join(texts, [COMMA]) + tail) == Parsed(Restrict(m, keys), tail[1..])
    decreases |keys|
  {
    var key := keys[0];
    var text :| texts[0] == Labelled(key, text) && ReadAs(text, m[key]);
    RestrictStep(m, keys);
    if |keys| == 1 {
      MembersLast(key, text, m[key], tail);
      assert Restrict(m, keys[1..]) == map[];
      assert map[key := m[key]] + map[] == map[key := m[key]];
    } else {
      MembersBack(m, keys[1..], texts[1..], tail);
      JoinedList(texts, tail);
      MembersCons(key, text, m[key], Join(texts[1..], [COMMA]) + tail, Restrict(m, keys[1..]), tail[1..]);
    }
  }

  /** The canonical text of a meaning is read as that meaning. */
  lemma {:induction false} ValueBack(p: Plain)
    requires TokensIn(p)
    ensures ReadAs(Render(p), p)
    decreases p, 1
  {
    match p
    case PNull => forall rest { WordBack(NULL, rest); }
    case PBool(b) => forall rest { WordBack(Render(p), rest); }
    case PNum(token) => forall rest | Ends(rest) { NumberBack(token, rest); }
    case PStr(s) => forall rest { StringBack(s, rest); }
    case PArr(_) => ArrayBack(p);
    case PObj(_) => ObjectBack(p);
  }

  lemma {:induction false} ArrayBack(p: Plain)
    requires p.PArr? && TokensIn(p)
    ensures ReadAs(Render(p), p)
    decreases p, 0
  {
    var texts := ItemTexts(p);
    forall i | 0 <= i < |p.items| ensures ReadAs(texts[i], p.items[i]) {
      ValueBack(p.items[i]);
    }
    forall rest ensures ParseValue(Render(p) + rest) == Parsed(p, rest) {
      BracketsBack(p.items, texts, rest);
    }
  }

  lemma BracketsBack(items: seq<Plain>, texts: seq<Text>, rest: Text)
    requires ItemsRead(items, texts)
    ensures ParseValue(Bracketed(LBRACKET, texts, RBRACKET) + rest) == Parsed(PArr(items), rest)
  {
    var tail := [RBRACKET] + rest;
    var inner := Join(texts, [COMMA]) + tail;
    assert tail[1..] == rest && Bracketed(LBRACKET, texts, RBRACKET) + rest == [LBRACKET] + inner;
    if items == [] {
      assert inner == tail;
    } else {
      ItemsBack(items, texts, tail);
      assert ReadAs(texts[0], items[0]) && inner[0] == texts[0][0];
    }
    ArrayOpens(inner);
  }

  lemma ArrayOpens(inner: Text)
    requires ParseArray(inner).Parsed?
    ensures ParseValue([LBRACKET] + inner) == Parsed(PArr(ParseArray(inner).value), ParseArray(inner).rest)
  {
    assert ([LBRACKET] + inner)[1..] == inner;
    assert NULL[0] == 110 && TRUE[0] == 116 && FALSE[0] == 102;
  }

  lemma {:induction false} ObjectBack(p: Plain)
    requires p.PObj? && TokensIn(p)
    ensures ReadAs(Render(p), p)
    decreases p, 0
  {
    var keys, texts := Sorted(p.members.Keys), MemberTexts(p);
    forall i | 0 <= i < |keys| ensures keys[i] in p.members && ReadAs(Render(p.members[keys[i]]), p.members[keys[i]]) {
      assert keys[i] in keys;
      ValueBack(p.members[keys[i]]);
    }
    forall rest ensures ParseValue(Render(p) + rest) == Parsed(p, rest) {
      BracesBack(p.members, keys, texts, rest);
    }
  }

  lemma BracesBack(m: map<Text, Plain>, keys: seq<Text>, texts: seq<Text>, rest: Text)
    requires Ascending(keys) && MembersRead(m, keys, texts) && forall key :: key in m <==> key in keys
    ensures ParseValue(Bracketed(LBRACE, texts, RBRACE) + rest) == Parsed(PObj(m), rest)
  {
    var tail := [RBRACE] + rest;
    var inner := Join(texts, [COMMA]) + tail;
    assert tail[1..] == rest && Bracketed(LBRACE, texts, RBRACE) + rest == [LBRACE] + inner;
    assert Restrict(m, keys) == m;
    if keys == [] {
      assert inner == tail;
    } else {
      MembersBack(m, keys, texts, tail);
      assert inner[0] == texts[0][0] == QUOTE;
    }
    ObjectOpens(inner);
  }

  lemma ObjectOpens(inner: Text)
    requires ParseObject(inner).Parsed?
    ensures ParseValue([LBRACE] + inner) == Parsed(PObj(ParseObject(inner).value), ParseObject(inner).rest)
  {
    assert ([LBRACE] + inner)[1..] == inner;
    assert NULL[0] == 110 && TRUE[0] == 116 && FALSE[0] == 102;
  }

  // ---------------------------------------------------------------- main results

  /** Canonical text is read back as what was meant. */
  lemma ParseUndoesPrint(v: Json)
    requires WellFormed(v) && CanonicalizeValue(v).Ok?
    ensures Accepted(v) && ParseValue(CanonicalizeValue(v).value) == Parsed(Meaning(v), [])
  {
    if !Accepted(v) {
      CanonicalizeRejects(v);
    }
    CanonicalizeAccepted(v);
    MeaningTokens(v);
    ValueBack(Meaning(v));
    assert Render(Meaning(v)) + [] == Render(Meaning(v));
  }

  /** Two values print alike exactly when they mean the same: equal but for the order of members,
      undefined members, undefined items that stand for null, and the sign of zero. */
  lemma CanonicalTextIsMeaning(v: Json, w: Json)
    requires WellFormed(v) && WellFormed(w) && Accepted(v) && Accepted(w)
    ensures CanonicalizeValue(v).Ok? && CanonicalizeValue(w).Ok?
    ensures CanonicalizeValue(v) == CanonicalizeValue(w) <==> Meaning(v) == Meaning(w)
  {
    CanonicalizeAccepted(v);
    CanonicalizeAccepted(w);
    ParseUndoesPrint(v);
    ParseUndoesPrint(w);
  }

  /** The code prints exactly the values without a NaN, an infinity, a bigint, a function, a symbol
      or a bare undefined. */
  lemma PrintsExactlyTheAccepted(v: Json)
    requires WellFormed(v)
    ensures CanonicalizeValue(v).Ok? <==> Accepted(v)
  {
    if Accepted(v) {
      CanonicalizeAccepted(v);
    } else {
      CanonicalizeRejects(v);
    }
  }

  /** The order in which the members were written makes no difference, not even to which failure
      is reported. */
  lemma MemberOrderIsLost(members: seq<Member>, others: seq<Member>)
    requires DistinctKeys(members) && DistinctKeys(others)
    requires forall m :: m in members <==> m in others
    ensures CanonicalizeValue(Obj(members)) == CanonicalizeValue(Obj(others))
  {
    SamePresent(members, others);
    forall key | key in Present(members) ensures Get(members, key) == Get(others, key) {
      SameKeySameValue(members, Get(members, key), Get(others, key), key);
    }
    SameParts(Obj(members), Obj(others));
    ObjectIsEnclosed(Obj(members));
    ObjectIsEnclosed(Obj(others));
  }

  lemma ObjectIsEnclosed(v: Json)
    requires v.Obj?
    ensures CanonicalizeValue(v) == Enclose(LBRACE, MemberParts(v), RBRACE)
  {
  }

  lemma SameParts(v: Json, w: Json)
    requires v.Obj? && w.Obj? && Present(v.members) == Present(w.members)
    requires forall key :: key in Present(v.members) ==> Get(v.members, key) == Get(w.members, key)
    ensures MemberParts(v) == MemberParts(w)
  {
  }

  lemma SamePresent(members: seq<Member>, others: seq<Member>)
    requires forall m :: m in members <==> m in others
    ensures Present(members) == Present(others)
  {
  }

  lemma SameKeySameValue(members: seq<Member>, v: Json, w: Json, key: Text)
    requires DistinctKeys(members) && Member(key, v) in members && Member(key, w) in members
    ensures v == w
  {
  }
}
