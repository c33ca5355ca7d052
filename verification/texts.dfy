/** Strings as sequences of UTF-16 code units, compared the way JavaScript's `<` and
    `Array.prototype.sort` compare them. A unit is any natural number, so every theorem
    covers all JavaScript strings, lone surrogates included. */
module Texts {
  type CodeUnit = nat
  type Text = seq<CodeUnit>

  datatype Option<+T> = None | Some(value: T)

  function Ascii(s: string): (t: Text)
    ensures |t| == |s| && forall i :: 0 <= i < |s| ==> t[i] == s[i] as int
  {
    seq(|s|, i requires 0 <= i < |s| => s[i] as int)
  }

  lemma Regroup<T>(a: seq<T>, b: seq<T>, c: seq<T>)
    ensures (a + b) + c == a + (b + c)
  {
  }

  /** `parts.join(separator)`. */
  function Join(parts: seq<Text>, separator: Text): Text {
    if parts == [] then []
    else if |parts| == 1 then parts[0]
    else parts[0] + separator + Join(parts[1..], separator)
  }

  /** `t.split(separator)` for a one-unit separator. */
  function Split(t: Text, separator: CodeUnit): (parts: seq<Text>)
    ensures parts != []
    decreases |t|
  {
    if t == [] then [[]]
    else
      var rest := Split(t[1..], separator);
      if t[0] == separator then [[]] + rest else [[t[0]] + rest[0]] + rest[1..]
  }

  predicate Free(t: Text, c: CodeUnit) {
    forall i :: 0 <= i < |t| ==> t[i] != c
  }

  lemma {:induction false} SplitWhole(t: Text, separator: CodeUnit)
    requires Free(t, separator)
    ensures Split(t, separator) == [t]
    decreases |t|
  {
    if t != [] {
      SplitWhole(t[1..], separator);
      assert [t[0]] + t[1..] == t;
    }
  }

  lemma {:induction false} SplitFirst(t: Text, rest: Text, separator: CodeUnit)
    requires Free(t, separator)
    ensures Split(t + [separator] + rest, separator) == [t] + Split(rest, separator)
    decreases |t|
  {
    var whole := t + [separator] + rest;
    if t == [] {
      assert whole[1..] == rest;
    } else {
      SplitFirst(t[1..], rest, separator);
      assert whole[1..] == t[1..] + [separator] + rest;
      assert [t[0]] + t[1..] == t;
    }
  }

  /** The first separator marks where a field ends. */
  lemma FieldInjective(a: Text, x: Text, b: Text, y: Text, separator: CodeUnit)
    requires Free(a, separator) && Free(b, separator) && a + [separator] + x == b + [separator] + y
    ensures a == b && x == y
  {
    var t := a + [separator] + x;
    assert t[|a|] == separator && t[|b|] == separator;
    assert forall i :: 0 <= i < |a| ==> t[i] == a[i];
    assert forall i :: 0 <= i < |b| ==> t[i] == b[i];
    assert t[..|a|] == a && t[..|b|] == b;
    assert t[|a| + 1..] == x && t[|b| + 1..] == y;
  }

  /** Splitting undoes joining. */
  lemma {:induction false} SplitJoin(parts: seq<Text>, separator: CodeUnit)
    requires parts != [] && forall i :: 0 <= i < |parts| ==> Free(parts[i], separator)
    ensures Split(Join(parts, [separator]), separator) == parts
  {
    if |parts| == 1 {
      SplitWhole(parts[0], separator);
      assert parts == [parts[0]];
    } else {
      SplitJoin(parts[1..], separator);
      SplitFirst(parts[0], Join(parts[1..], [separator]), separator);
      assert parts == [parts[0]] + parts[1..];
    }
  }

  /** `a < b` on strings. */
  predicate Less(a: Text, b: Text) {
    if b == [] then false
    else if a == [] then true
    else a[0] < b[0] || (a[0] == b[0] && Less(a[1..], b[1..]))
  }

  lemma {:induction false} LessIrreflexive(a: Text)
    ensures !Less(a, a)
  {
    if a != [] {
      LessIrreflexive(a[1..]);
    }
  }

  lemma {:induction false} LessTotal(a: Text, b: Text)
    ensures Less(a, b) || a == b || Less(b, a)
  {
    if a != [] && b != [] && a[0] == b[0] {
      LessTotal(a[1..], b[1..]);
      assert a == [a[0]] + a[1..] && b == [b[0]] + b[1..];
    }
  }

  lemma {:induction false} LessTransitive(a: Text, b: Text, c: Text)
    requires Less(a, b) && Less(b, c)
    ensures Less(a, c)
  {
    if a != [] && a[0] == b[0] == c[0] {
      LessTransitive(a[1..], b[1..], c[1..]);
    }
  }

  lemma LessAsymmetric(a: Text, b: Text)
    requires Less(a, b)
    ensures !Less(b, a) && a != b
  {
    LessIrreflexive(a);
    if Less(b, a) {
      LessTransitive(a, b, a);
    }
  }

  /** Fixed-width fields compare field by field: this is what makes padded keys sortable. */
  lemma {:induction false} LessSplit(a: Text, x: Text, b: Text, y: Text)
    requires |a| == |b|
    ensures Less(a + x, b + y) <==> Less(a, b) || (a == b && Less(x, y))
  {
    if a == [] {
      assert a + x == x && b + y == y;
    } else {
      assert (a + x)[1..] == a[1..] + x && (b + y)[1..] == b[1..] + y;
      LessSplit(a[1..], x, b[1..], y);
      assert a == [a[0]] + a[1..] && b == [b[0]] + b[1..];
    }
  }

  lemma LessAfterPrefix(p: Text, x: Text, y: Text)
    ensures Less(p + x, p + y) <==> Less(x, y)
  {
    LessSplit(p, x, p, y);
    LessIrreflexive(p);
  }

  ghost predicate Ascending(ks: seq<Text>) {
    forall i, j :: 0 <= i < j < |ks| ==> Less(ks[i], ks[j])
  }

  /** A sequence in ascending order is determined by its elements. */
  lemma {:induction false} AscendingUnique(a: seq<Text>, b: seq<Text>)
    requires Ascending(a) && Ascending(b)
    requires forall k :: k in a <==> k in b
    ensures a == b
  {
    HeadIsElement(a);
    HeadIsElement(b);
    if a != [] && b != [] {
      if a[0] != b[0] {
        var i :| 0 <= i < |b| && b[i] == a[0];
        var j :| 0 <= j < |a| && a[j] == b[0];
        LessAsymmetric(a[0], b[0]);
      }
      forall k
        ensures k in a[1..] <==> k in b[1..]
      {
        TailElements(a, k);
        TailElements(b, k);
      }
      AscendingUnique(a[1..], b[1..]);
      assert a == [a[0]] + a[1..] && b == [b[0]] + b[1..];
    }
  }

  lemma HeadIsElement(ks: seq<Text>)
    ensures ks != [] ==> ks[0] in ks
  {
  }

  lemma TailElements(a: seq<Text>, k: Text)
    requires a != [] && Ascending(a)
    ensures k in a[1..] <==> k in a && k != a[0]
  {
    assert a == [a[0]] + a[1..];
    if k in a[1..] {
      var i :| 0 <= i < |a[1..]| && a[1..][i] == k;
      LessAsymmetric(a[0], a[i + 1]);
    }
  }

  ghost predicate IsMinimum(m: Text, s: set<Text>) {
    m in s && forall k :: k in s && k != m ==> Less(m, k)
  }

  lemma {:induction false} MinimumExists(s: set<Text>)
    requires s != {}
    ensures exists m :: IsMinimum(m, s)
    decreases |s|
  {
    var x :| x in s;
    if s == {x} {
      assert IsMinimum(x, s);
    } else {
      MinimumExists(s - {x});
      var m :| IsMinimum(m, s - {x});
      LessTotal(x, m);
      if Less(x, m) {
        forall k | k in s && k != x && k != m
          ensures Less(x, k)
        {
          LessTransitive(x, m, k);
        }
        assert IsMinimum(x, s);
      } else {
        assert IsMinimum(m, s);
      }
    }
  }

  ghost function Minimum(s: set<Text>): (m: Text)
    requires s != {}
    ensures IsMinimum(m, s)
  {
    MinimumExists(s);
    var m :| IsMinimum(m, s);
    m
  }

  /** `[...keys].sort()` on a set of distinct keys. */
  ghost function Sorted(s: set<Text>): (ks: seq<Text>)
    ensures Ascending(ks)
    ensures forall k :: k in ks <==> k in s
    ensures |ks| == |s|
    decreases |s|
  {
    if s == {} then [] else
      var m := Minimum(s);
      var rest := Sorted(s - {m});
      assert forall i :: 0 <= i < |rest| ==> rest[i] in rest;
      [m] + rest
  }

  lemma SortedIs(s: set<Text>, ks: seq<Text>)
    requires Ascending(ks)
    requires forall k :: k in ks <==> k in s
    ensures Sorted(s) == ks
  {
    AscendingUnique(Sorted(s), ks);
  }
}
