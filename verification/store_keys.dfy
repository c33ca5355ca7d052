/** The flat string keys of the store: one namespace for documents, one for the index
    `(collection, ts, id)`. */
module StoreKeys {
  import opened Texts
  import opened Cursor

  const OBJECT_PREFIX: Text := Ascii("obj/")
  const INDEX_PREFIX: Text := Ascii("idx/")
  const COLLECTION_DELIM: CodeUnit := 1

  /** Collection ids never contain the delimiter. */
  predicate DelimFree(c: Text) {
    COLLECTION_DELIM !in c
  }

  function ObjectKey(id: Text): Text {
    OBJECT_PREFIX + id
  }

  function IndexPrefix(c: Text): Text {
    INDEX_PREFIX + c + [COLLECTION_DELIM]
  }

  function IndexKey(c: Text, e: Entry): Text
    requires Encodable(e.ts)
  {
    IndexPrefix(c) + CursorOf(e)
  }

  lemma ObjectKeyInjective(id: Text, id': Text)
    requires ObjectKey(id) == ObjectKey(id')
    ensures id == id'
  {
    assert ObjectKey(id)[4..] == id && ObjectKey(id')[4..] == id';
  }

  lemma NamespacesDisjoint(id: Text, c: Text, e: Entry)
    requires Encodable(e.ts)
    ensures ObjectKey(id) != IndexKey(c, e)
  {
    assert ObjectKey(id)[0] == 'o' as int;
    assert IndexKey(c, e)[0] == 'i' as int;
  }

  /** Two delimited names can only be one a prefix of the other when they are equal. */
  lemma DelimitedPrefix(c: Text, c': Text, rest: Text)
    requires DelimFree(c) && DelimFree(c')
    requires c + [COLLECTION_DELIM] <= c' + [COLLECTION_DELIM] + rest
    ensures c == c'
  {
    var whole := c' + [COLLECTION_DELIM] + rest;
    assert whole[|c|] == COLLECTION_DELIM;
    assert whole[|c'|] == COLLECTION_DELIM;
    assert forall i :: 0 <= i < |c| ==> whole[i] == c[i];
    assert forall i :: 0 <= i < |c'| ==> whole[i] == c'[i];
    assert forall i :: 0 <= i < |c| ==> c[i] in c && c[i] != COLLECTION_DELIM;
    assert forall i :: 0 <= i < |c'| ==> c'[i] in c' && c'[i] != COLLECTION_DELIM;
    assert |c| == |c'|;
  }

  /** Listing by one collection's prefix finds that collection's keys and no others, also when
      one collection id is a prefix of another. */
  lemma PrefixSelects(c: Text, c': Text, e: Entry)
    requires DelimFree(c) && DelimFree(c') && Encodable(e.ts)
    ensures IndexPrefix(c) <= IndexKey(c', e) <==> c == c'
    ensures !(IndexPrefix(c) <= ObjectKey(e.id))
  {
    if IndexPrefix(c) <= IndexKey(c', e) {
      var left, right := c + [COLLECTION_DELIM], c' + [COLLECTION_DELIM] + CursorOf(e);
      assert IndexPrefix(c) == INDEX_PREFIX + left && IndexKey(c', e) == INDEX_PREFIX + right;
      assert left == IndexPrefix(c)[4..] && right == IndexKey(c', e)[4..];
      forall i | 0 <= i < |left|
        ensures left[i] == right[i]
      {
        assert left[i] == IndexPrefix(c)[i + 4] == IndexKey(c', e)[i + 4] == right[i];
      }
      DelimitedPrefix(c, c', CursorOf(e));
    }
    assert IndexPrefix(c)[0] == 'i' as int;
    assert ObjectKey(e.id)[0] == 'o' as int;
  }

  lemma IndexKeyInjective(c: Text, e: Entry, c': Text, e': Entry)
    requires DelimFree(c) && DelimFree(c') && Encodable(e.ts) && Encodable(e'.ts)
    requires IndexKey(c, e) == IndexKey(c', e')
    ensures c == c' && e == e'
  {
    PrefixSelects(c, c', e');
    assert IndexKey(c, e)[|IndexPrefix(c)|..] == CursorOf(e);
    assert IndexKey(c', e')[|IndexPrefix(c)|..] == CursorOf(e');
    CursorInjective(e, e');
  }

  /** Key order within a collection is `(ts, id)` order. */
  lemma IndexKeyOrder(c: Text, e: Entry, f: Entry)
    requires Encodable(e.ts) && Encodable(f.ts)
    ensures Less(IndexKey(c, e), IndexKey(c, f)) <==> Before(e, f)
  {
    LessAfterPrefix(IndexPrefix(c), CursorOf(e), CursorOf(f));
    CursorOrder(e, f);
  }

  /** A collection id that goes on, past the delimiter, with the start of another entry's cursor, while
      that entry's id goes on with the rest of this one's key. */
  ghost predicate Swallows(c: Text, e: Entry, c': Text, e': Entry)
    requires Encodable(e.ts) && Encodable(e'.ts)
  {
    exists u: Text ::
      && c' == c + [COLLECTION_DELIM] + (Stamp(e.ts) + [SEPARATOR] + u)
      && e.id == u + [COLLECTION_DELIM] + CursorOf(e')
  }

  /** Exactly when two index keys meet, for any collection ids: they stand for the same entry of the same
      collection, or one collection id swallows the delimiter and part of the other's cursor. */
  lemma IndexKeysMeet(c: Text, e: Entry, c': Text, e': Entry)
    requires Encodable(e.ts) && Encodable(e'.ts)
    ensures IndexKey(c, e) == IndexKey(c', e')
       <==> (c == c' && e == e') || Swallows(c, e, c', e') || Swallows(c', e', c, e)
  {
    if IndexKey(c, e) == IndexKey(c', e') {
      if |c| < |c'| {
        ShorterIsSwallowed(c, e, c', e');
      } else if |c'| < |c| {
        ShorterIsSwallowed(c', e', c, e);
      } else {
        SameLengthMeets(c, e, c', e');
      }
    }
    if Swallows(c, e, c', e') {
      SwallowedMeets(c, e, c', e');
    }
    if Swallows(c', e', c, e) {
      SwallowedMeets(c', e', c, e);
    }
  }

  lemma SwallowedMeets(c: Text, e: Entry, c': Text, e': Entry)
    requires Encodable(e.ts) && Encodable(e'.ts) && Swallows(c, e, c', e')
    ensures IndexKey(c, e) == IndexKey(c', e')
  {
    var s := Stamp(e.ts) + [SEPARATOR];
    var u: Text :| c' == c + [COLLECTION_DELIM] + (s + u) && e.id == u + [COLLECTION_DELIM] + CursorOf(e');
    Reassociate(INDEX_PREFIX, c, [COLLECTION_DELIM], s, u, CursorOf(e'));
  }

  lemma SameLengthMeets(c: Text, e: Entry, c': Text, e': Entry)
    requires Encodable(e.ts) && Encodable(e'.ts) && |c| == |c'| && IndexKey(c, e) == IndexKey(c', e')
    ensures c == c' && e == e'
  {
    var k, n := IndexKey(c, e), |INDEX_PREFIX|;
    assert k[n..n + |c|] == c && k[n..n + |c'|] == c';
    assert k[n + |c| + 1..] == CursorOf(e) && k[n + |c'| + 1..] == CursorOf(e');
    CursorInjective(e, e');
  }

  /** The delimiter does not occur in the fixed-width part of a cursor. */
  lemma StampHasNoDelimiter(e: Entry)
    requires Encodable(e.ts)
    ensures |Stamp(e.ts)| == TS_WIDTH && DelimFree(Stamp(e.ts) + [SEPARATOR])
  {
  }

  lemma ShorterIsSwallowed(c: Text, e: Entry, c': Text, e': Entry)
    requires Encodable(e.ts) && Encodable(e'.ts) && |c| < |c'| && IndexKey(c, e) == IndexKey(c', e')
    ensures Swallows(c, e, c', e')
  {
    var d, s, k, n := [COLLECTION_DELIM], Stamp(e.ts) + [SEPARATOR], IndexKey(c, e), |INDEX_PREFIX|;
    var w := c'[|c| + 1..];
    assert k[n..] == c + d + CursorOf(e) && k[n..] == c' + d + CursorOf(e');
    KeysSplit(c, CursorOf(e), c', CursorOf(e'));
    assert CursorOf(e) == s + e.id == w + d + CursorOf(e');
    StampHasNoDelimiter(e);
    DelimiterBehind(s, e.id, w, CursorOf(e'));
    var u := w[|s|..];
    assert c' == c + d + (s + u) && e.id == u + d + CursorOf(e');
  }

  /** Cutting both sides of an equation of keys behind the shorter collection id. */
  lemma KeysSplit(c: Text, x: Text, c': Text, x': Text)
    requires |c| < |c'| && c + [COLLECTION_DELIM] + x == c' + [COLLECTION_DELIM] + x'
    ensures c' == c + [COLLECTION_DELIM] + c'[|c| + 1..] && x == c'[|c| + 1..] + [COLLECTION_DELIM] + x'
  {
    var k := c + [COLLECTION_DELIM] + x;
    assert k[..|c'|] == c' && k[..|c|] == c && k[|c|] == COLLECTION_DELIM;
    assert k[|c| + 1..] == x;
    assert (c' + [COLLECTION_DELIM] + x')[|c| + 1..] == c'[|c| + 1..] + [COLLECTION_DELIM] + x';
  }

  lemma DelimiterBehind(s: Text, id: Text, w: Text, x: Text)
    requires DelimFree(s) && s + id == w + [COLLECTION_DELIM] + x
    ensures |s| <= |w| && w == s + w[|s|..] && id == w[|s|..] + [COLLECTION_DELIM] + x
  {
    var k := s + id;
    assert k[|w|] == COLLECTION_DELIM;
    assert forall i :: 0 <= i < |s| ==> k[i] == s[i] && k[i] in s;
    assert k[..|s|] == s && k[|s|..] == id;
    assert k[..|s|] == w[..|s|];
    assert (w + [COLLECTION_DELIM] + x)[|s|..] == w[|s|..] + [COLLECTION_DELIM] + x;
  }

  /** So with delimiter-free ids no two keys meet, and otherwise they can: one key can stand for two
      different entries of two different collections. */
  lemma DelimiterCollision()
    ensures exists c: Text, e: Entry, c': Text, e': Entry ::
              && DelimFree(c) && !DelimFree(c')
              && Encodable(e.ts) && Encodable(e'.ts)
              && c != c' && IndexKey(c, e) == IndexKey(c', e')
  {
    var c: Text, x := [97], Entry(7, [120]);
    var u, d := x.id, [COLLECTION_DELIM];
    var e := Entry(7, u + d + CursorOf(x));
    var c': Text := c + d + (Stamp(7) + [SEPARATOR] + u);
    assert c'[1] == COLLECTION_DELIM;
    assert Swallows(c, e, c', x);
    IndexKeysMeet(c, e, c', x);
  }

  lemma Reassociate(p: Text, c: Text, d: Text, s: Text, u: Text, v: Text)
    ensures p + c + d + (s + (u + d + v)) == p + (c + d + (s + u)) + d + v
  {
  }
}
