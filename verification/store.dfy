/** The persistent tier of the store: a record per id, and an index that `put` and `delete`
    maintain by hand. */
module StoreModel {
  import opened Texts
  import opened Cursor
  import opened Documents
  import opened StoreKeys
  import opened MemoryAdapter

  // ---------------------------------------------------------------- the abstract store

  /** A record that names collections but whose timestamp no cursor can hold. Writing it throws
      half-way: the record is kept, the index entries are not. */
  predicate Unindexable(r: Record) {
    r.collections != [] && !Encodable(r.ts)
  }

  /** What `put` does to the records, and how it ends. */
  function PutEffect(records: Records, doc: Doc, collections: seq<Text>, ts: int): (Records, Outcome) {
    var r := Record(ts, doc, collections);
    if doc.id == [] then (records, IdRequired)
    else if doc.id in records && Unindexable(records[doc.id]) then (records, RangeError)
    else (records[doc.id := r], if Unindexable(r) then RangeError else Done)
  }

  /** What `delete` does: the record always goes, but an unindexable one throws before the event. */
  function DeleteEffect(records: Records, id: Text): (Records, Outcome) {
    (records - {id}, if id in records && Unindexable(records[id]) then RangeError else Done)
  }

  predicate InCollection(r: Record, c: Text) {
    c in r.collections && Encodable(r.ts)
  }

  ghost predicate Lists(records: Records, c: Text, e: Entry) {
    e.id in records && records[e.id].ts == e.ts && InCollection(records[e.id], c)
  }

  ghost function CursorsOf(records: Records, c: Text): set<Text> {
    set id | id in records && InCollection(records[id], c) :: CursorOf(Entry(records[id].ts, id))
  }

  /** The members of a collection, oldest first. */
  ghost function Listing(records: Records, c: Text): (es: seq<Entry>)
    ensures InOrder(es) && AllEncodable(es)
    ensures forall e :: e in es <==> Lists(records, c, e)
  {
    var ks := Sorted(CursorsOf(records, c));
    var es := seq(|ks|, i requires 0 <= i < |ks| => EntryAt(records, c, ks, i));
    ListingOrdered(records, c, ks, es);
    es
  }

  ghost function EntryAt(records: Records, c: Text, ks: seq<Text>, i: nat): (e: Entry)
    requires ks == Sorted(CursorsOf(records, c)) && i < |ks|
    ensures Lists(records, c, e) && CursorOf(e) == ks[i]
  {
    assert ks[i] in ks;
    var id :| id in records && InCollection(records[id], c) && CursorOf(Entry(records[id].ts, id)) == ks[i];
    Entry(records[id].ts, id)
  }

  lemma ListingOrdered(records: Records, c: Text, ks: seq<Text>, es: seq<Entry>)
    requires ks == Sorted(CursorsOf(records, c)) && |es| == |ks|
    requires forall i :: 0 <= i < |ks| ==> es[i] == EntryAt(records, c, ks, i)
    ensures InOrder(es)
    ensures forall e :: e in es <==> Lists(records, c, e)
  {
    forall i, j | 0 <= i < j < |es|
      ensures Before(es[i], es[j])
    {
      CursorOrder(es[i], es[j]);
    }
    forall e | Lists(records, c, e)
      ensures e in es
    {
      assert CursorOf(Entry(records[e.id].ts, e.id)) in ks;
      var i :| 0 <= i < |ks| && ks[i] == CursorOf(e);
      CursorInjective(e, es[i]);
    }
  }

  /** The documents behind a list of entries. */
  ghost function DocsOf(records: Records, es: seq<Entry>): (docs: seq<Doc>)
    requires forall i :: 0 <= i < |es| ==> es[i].id in records
    ensures |docs| == |es| && forall i :: 0 <= i < |es| ==> docs[i] == records[es[i].id].doc
  {
    seq(|es|, i requires 0 <= i < |es| => records[es[i].id].doc)
  }

  ghost predicate AllEncodable(es: seq<Entry>) {
    forall i :: 0 <= i < |es| ==> Encodable(es[i].ts)
  }

  /** The entries of a listing strictly after a cursor; an absent or empty cursor means all. */
  ghost function After(es: seq<Entry>, since: Option<Text>): (later: seq<Entry>)
    requires AllEncodable(es)
    ensures AllEncodable(later) && |later| <= |es|
  {
    if es == [] then []
    else (if IsAfter(es[0], since) then [es[0]] else []) + After(es[1..], since)
  }

  lemma {:induction false} AfterElements(es: seq<Entry>, since: Option<Text>, e: Entry)
    requires AllEncodable(es)
    ensures e in After(es, since) <==> e in es && IsAfter(e, since)
  {
    if es != [] {
      assert es == [es[0]] + es[1..];
      AfterElements(es[1..], since, e);
    }
  }

  ghost predicate IsAfter(e: Entry, since: Option<Text>) {
    Encodable(e.ts) && (since.None? || since.value == [] || Less(since.value, CursorOf(e)))
  }

  // ---------------------------------------------------------------- representation

  ghost predicate Holds(entries: Entries, k: Text, v: Value) {
    k in entries && entries[k] == v
  }

  ghost predicate IsObjectKey(records: Records, k: Text) {
    exists id :: id in records && k == ObjectKey(id)
  }

  ghost predicate IsIndexKey(records: Records, k: Text) {
    exists c, id :: id in records && InCollection(records[id], c) && k == IndexKey(c, Entry(records[id].ts, id))
  }

  ghost predicate WellFormed(records: Records) {
    forall id :: id in records ==>
      id != [] && records[id].doc.id == id && forall c :: c in records[id].collections ==> DelimFree(c)
  }

  /** The adapter holds exactly the documents and their index entries: nothing is missing,
      stale or dangling. */
  ghost predicate Represents(entries: Entries, records: Records) {
    && WellFormed(records)
    && (forall id {:trigger ObjectKey(id)} :: id in records ==> Holds(entries, ObjectKey(id), Stored(records[id])))
    && (forall c, id {:trigger IndexKey(c, Entry(records[id].ts, id))} ::
          id in records && InCollection(records[id], c) ==>
          Holds(entries, IndexKey(c, Entry(records[id].ts, id)), Ref(id)))
    && (forall k {:trigger IsObjectKey(records, k)} {:trigger IsIndexKey(records, k)} :: k in entries ==>
          IsObjectKey(records, k) || IsIndexKey(records, k))
  }

  /** The delete loop over an old record's collections. */
  ghost function DropIndex(entries: Entries, cs: seq<Text>, e: Entry): Entries
    requires Encodable(e.ts)
  {
    if cs == [] then entries
    else DropIndex(entries, cs[..|cs| - 1], e) - {IndexKey(cs[|cs| - 1], e)}
  }

  /** The insert loop over a new record's collections. */
  ghost function AddIndex(entries: Entries, cs: seq<Text>, e: Entry): Entries
    requires Encodable(e.ts)
  {
    if cs == [] then entries
    else AddIndex(entries, cs[..|cs| - 1], e)[IndexKey(cs[|cs| - 1], e) := Ref(e.id)]
  }

  ghost predicate KeyOfAny(k: Text, cs: seq<Text>, e: Entry)
    requires Encodable(e.ts)
  {
    exists c :: c in cs && k == IndexKey(c, e)
  }

  lemma {:induction false} DropIndexKeys(entries: Entries, cs: seq<Text>, e: Entry, k: Text)
    requires Encodable(e.ts)
    ensures k in DropIndex(entries, cs, e) <==> k in entries && !KeyOfAny(k, cs, e)
    ensures k in DropIndex(entries, cs, e) ==> DropIndex(entries, cs, e)[k] == entries[k]
  {
    if cs != [] {
      DropIndexKeys(entries, cs[..|cs| - 1], e, k);
      assert cs == cs[..|cs| - 1] + [cs[|cs| - 1]];
    }
  }

  lemma {:induction false} AddIndexKeys(entries: Entries, cs: seq<Text>, e: Entry, k: Text)
    requires Encodable(e.ts)
    ensures k in AddIndex(entries, cs, e) <==> k in entries || KeyOfAny(k, cs, e)
    ensures KeyOfAny(k, cs, e) ==> AddIndex(entries, cs, e)[k] == Ref(e.id)
    ensures k in entries && !KeyOfAny(k, cs, e) ==> AddIndex(entries, cs, e)[k] == entries[k]
  {
    if cs != [] {
      AddIndexKeys(entries, cs[..|cs| - 1], e, k);
      assert cs == cs[..|cs| - 1] + [cs[|cs| - 1]];
    }
  }

  ghost function Unindexed(entries: Entries, records: Records, id: Text): Entries {
    if id in records && Encodable(records[id].ts)
    then DropIndex(entries, records[id].collections, Entry(records[id].ts, id))
    else entries
  }

  /** The delete loop removes nothing of any other record, and no object key. */
  lemma UnindexedKeeps(entries: Entries, records: Records, id: Text, k: Text)
    requires Represents(entries, records)
    requires k in entries && (IsObjectKey(records, k) || IsIndexKey(records - {id}, k))
    ensures k in Unindexed(entries, records, id)
  {
    var rest := records - {id};
    if id in records && Encodable(records[id].ts) {
      var e := Entry(records[id].ts, id);
      DropIndexKeys(entries, records[id].collections, e, k);
      if KeyOfAny(k, records[id].collections, e) {
        var c :| c in records[id].collections && k == IndexKey(c, e);
        if IsObjectKey(records, k) {
          var i :| i in records && k == ObjectKey(i);
          NamespacesDisjoint(i, c, e);
        } else {
          var c', i :| i in rest && InCollection(rest[i], c') && k == IndexKey(c', Entry(rest[i].ts, i));
          IndexKeyInjective(c, e, c', Entry(rest[i].ts, i));
        }
      }
    }
  }

  lemma OwnKey(records: Records, id: Text, c: Text, k: Text)
    ensures id in records && InCollection(records[id], c) && k == IndexKey(c, Entry(records[id].ts, id)) ==>
              KeyOfAny(k, records[id].collections, Entry(records[id].ts, id))
  {
  }

  /** After the delete loop, what is left is the other records plus this id's object key. */
  lemma UnindexedKeys(entries: Entries, records: Records, id: Text, k: Text)
    requires Represents(entries, records)
    ensures k in Unindexed(entries, records, id) ==>
              k in entries && Unindexed(entries, records, id)[k] == entries[k]
    ensures k in Unindexed(entries, records, id) ==>
              (k == ObjectKey(id) || IsObjectKey(records - {id}, k) || IsIndexKey(records - {id}, k))
  {
    var rest := records - {id};
    if id in records && Encodable(records[id].ts) {
      DropIndexKeys(entries, records[id].collections, Entry(records[id].ts, id), k);
    }
    if k in Unindexed(entries, records, id) && !IsObjectKey(rest, k) && k != ObjectKey(id) {
      forall i | i in records
        ensures k != ObjectKey(i)
      {
        assert i != id ==> i in rest;
      }
      assert !IsObjectKey(records, k);
      var c, i :| i in records && InCollection(records[i], c) && k == IndexKey(c, Entry(records[i].ts, i));
      OwnKey(records, id, c, k);
      if i != id {
        assert i in rest && rest[i] == records[i];
      }
    }
  }

  /** The adapter after a write: old index entries out, record in, new index entries in. */
  ghost function Written(entries: Entries, records: Records, r: Record): Entries {
    var id := r.doc.id;
    var stored := Unindexed(entries, records, id)[ObjectKey(id) := Stored(r)];
    if Encodable(r.ts) then AddIndex(stored, r.collections, Entry(r.ts, id)) else stored
  }

  ghost predicate Writable(r: Record) {
    r.doc.id != [] && forall c :: c in r.collections ==> DelimFree(c)
  }

  /** What one key of the adapter holds after a write. */
  lemma WrittenKeys(entries: Entries, records: Records, r: Record, k: Text)
    requires Represents(entries, records) && Writable(r)
    ensures var w, old' := Written(entries, records, r), Unindexed(entries, records, r.doc.id);
            var added := Encodable(r.ts) && KeyOfAny(k, r.collections, Entry(r.ts, r.doc.id));
            && (k in w <==> added || k == ObjectKey(r.doc.id) || k in old')
            && (added ==> w[k] == Ref(r.doc.id) && k != ObjectKey(r.doc.id))
            && (k == ObjectKey(r.doc.id) ==> w[k] == Stored(r))
            && (!added && k != ObjectKey(r.doc.id) && k in old' ==> w[k] == old'[k])
  {
    var id := r.doc.id;
    var stored := Unindexed(entries, records, id)[ObjectKey(id) := Stored(r)];
    if Encodable(r.ts) {
      var e := Entry(r.ts, id);
      AddIndexKeys(stored, r.collections, e, k);
      if KeyOfAny(k, r.collections, e) {
        var c :| c in r.collections && k == IndexKey(c, e);
        NamespacesDisjoint(id, c, e);
      }
    }
  }

  lemma PutKeepsObject(entries: Entries, records: Records, r: Record, i: Text)
    requires Represents(entries, records) && Writable(r)
    requires i in records && i != r.doc.id
    ensures Holds(Written(entries, records, r), ObjectKey(i), Stored(records[i]))
  {
    var k := ObjectKey(i);
    WrittenKeys(entries, records, r, k);
    UnindexedKeys(entries, records, r.doc.id, k);
    assert Holds(entries, k, Stored(records[i])) && IsObjectKey(records, k);
    UnindexedKeeps(entries, records, r.doc.id, k);
    if k == ObjectKey(r.doc.id) {
      ObjectKeyInjective(i, r.doc.id);
    }
    if Encodable(r.ts) && KeyOfAny(k, r.collections, Entry(r.ts, r.doc.id)) {
      var c :| c in r.collections && k == IndexKey(c, Entry(r.ts, r.doc.id));
      NamespacesDisjoint(i, c, Entry(r.ts, r.doc.id));
    }
  }

  lemma PutKeepsIndex(entries: Entries, records: Records, r: Record, c: Text, i: Text)
    requires Represents(entries, records) && Writable(r)
    requires i in records && i != r.doc.id && InCollection(records[i], c)
    ensures Holds(Written(entries, records, r), IndexKey(c, Entry(records[i].ts, i)), Ref(i))
  {
    var f := Entry(records[i].ts, i);
    var k := IndexKey(c, f);
    WrittenKeys(entries, records, r, k);
    UnindexedKeys(entries, records, r.doc.id, k);
    var rest := records - {r.doc.id};
    assert i in rest && rest[i] == records[i];
    assert IsIndexKey(rest, k) && Holds(entries, k, Ref(i));
    UnindexedKeeps(entries, records, r.doc.id, k);
    NamespacesDisjoint(r.doc.id, c, f);
    if Encodable(r.ts) && KeyOfAny(k, r.collections, Entry(r.ts, r.doc.id)) {
      var c' :| c' in r.collections && k == IndexKey(c', Entry(r.ts, r.doc.id));
      IndexKeyInjective(c, f, c', Entry(r.ts, r.doc.id));
    }
  }

  lemma PutHoldsNew(entries: Entries, records: Records, r: Record)
    requires Represents(entries, records) && Writable(r)
    ensures Holds(Written(entries, records, r), ObjectKey(r.doc.id), Stored(r))
    ensures forall c :: InCollection(r, c) ==>
              Holds(Written(entries, records, r), IndexKey(c, Entry(r.ts, r.doc.id)), Ref(r.doc.id))
  {
    WrittenKeys(entries, records, r, ObjectKey(r.doc.id));
    forall c | InCollection(r, c)
      ensures Holds(Written(entries, records, r), IndexKey(c, Entry(r.ts, r.doc.id)), Ref(r.doc.id))
    {
      var k := IndexKey(c, Entry(r.ts, r.doc.id));
      assert KeyOfAny(k, r.collections, Entry(r.ts, r.doc.id));
      WrittenKeys(entries, records, r, k);
    }
  }

  lemma PutAddsNothingElse(entries: Entries, records: Records, r: Record, k: Text)
    requires Represents(entries, records) && Writable(r)
    requires k in Written(entries, records, r)
    ensures IsObjectKey(records[r.doc.id := r], k) || IsIndexKey(records[r.doc.id := r], k)
  {
    var id, records' := r.doc.id, records[r.doc.id := r];
    var rest := records - {id};
    assert forall i :: i in rest ==> i in records' && records'[i] == rest[i];
    WrittenKeys(entries, records, r, k);
    UnindexedKeys(entries, records, id, k);
    if Encodable(r.ts) && KeyOfAny(k, r.collections, Entry(r.ts, id)) {
      var c :| c in r.collections && k == IndexKey(c, Entry(r.ts, id));
      assert id in records' && InCollection(records'[id], c);
    } else if k == ObjectKey(id) {
      assert id in records';
    } else if IsIndexKey(rest, k) {
      var c, i :| i in rest && InCollection(rest[i], c) && k == IndexKey(c, Entry(rest[i].ts, i));
      assert i in records' && InCollection(records'[i], c);
    }
  }

  /** Writing keeps the representation: nothing stale, nothing missing, nothing dangling. */
  lemma PutRepresents(entries: Entries, records: Records, r: Record)
    requires Represents(entries, records) && Writable(r)
    ensures Represents(Written(entries, records, r), records[r.doc.id := r])
  {
    var records', w := records[r.doc.id := r], Written(entries, records, r);
    PutHoldsNew(entries, records, r);
    forall i | i in records'
      ensures Holds(w, ObjectKey(i), Stored(records'[i]))
    {
      if i != r.doc.id {
        PutKeepsObject(entries, records, r, i);
      }
    }
    forall c, i | i in records' && InCollection(records'[i], c)
      ensures Holds(w, IndexKey(c, Entry(records'[i].ts, i)), Ref(i))
    {
      if i != r.doc.id {
        PutKeepsIndex(entries, records, r, c, i);
      }
    }
    forall k | k in w
      ensures IsObjectKey(records', k) || IsIndexKey(records', k)
    {
      PutAddsNothingElse(entries, records, r, k);
    }
  }

  ghost function Erased(entries: Entries, records: Records, id: Text): Entries {
    Unindexed(entries, records, id) - {ObjectKey(id)}
  }

  lemma DeleteRepresents(entries: Entries, records: Records, id: Text)
    requires Represents(entries, records)
    ensures Represents(Erased(entries, records, id), records - {id})
  {
    var w, rest := Erased(entries, records, id), records - {id};
    forall i | i in rest
      ensures Holds(w, ObjectKey(i), Stored(rest[i]))
    {
      assert Holds(entries, ObjectKey(i), Stored(records[i])) && IsObjectKey(records, ObjectKey(i));
      UnindexedKeys(entries, records, id, ObjectKey(i));
      UnindexedKeeps(entries, records, id, ObjectKey(i));
      if ObjectKey(i) == ObjectKey(id) {
        ObjectKeyInjective(i, id);
      }
    }
    forall c, i | i in rest && InCollection(rest[i], c)
      ensures Holds(w, IndexKey(c, Entry(rest[i].ts, i)), Ref(i))
    {
      var k := IndexKey(c, Entry(rest[i].ts, i));
      assert Holds(entries, k, Ref(i)) && IsIndexKey(rest, k);
      UnindexedKeys(entries, records, id, k);
      UnindexedKeeps(entries, records, id, k);
      NamespacesDisjoint(id, c, Entry(rest[i].ts, i));
    }
    forall k | k in w
      ensures IsObjectKey(rest, k) || IsIndexKey(rest, k)
    {
      UnindexedKeys(entries, records, id, k);
    }
  }

  ghost function IndexKeys(c: Text, es: seq<Entry>): (ks: seq<Text>)
    requires forall i :: 0 <= i < |es| ==> Encodable(es[i].ts)
    ensures |ks| == |es| && forall i :: 0 <= i < |es| ==> ks[i] == IndexKey(c, es[i])
  {
    seq(|es|, i requires 0 <= i < |es| => IndexKey(c, es[i]))
  }

  lemma ListedHeld(entries: Entries, records: Records, c: Text, e: Entry)
    requires Represents(entries, records) && DelimFree(c) && Lists(records, c, e)
    ensures Holds(entries, IndexKey(c, e), Ref(e.id)) && IndexPrefix(c) <= IndexKey(c, e)
    ensures Holds(entries, ObjectKey(e.id), Stored(records[e.id]))
  {
    assert e == Entry(records[e.id].ts, e.id);
    PrefixSelects(c, c, e);
  }

  ghost function ListingKeys(records: Records, c: Text): (ks: seq<Text>)
    ensures Ascending(ks) && |ks| == |Listing(records, c)|
    ensures forall i :: 0 <= i < |ks| ==>
              Lists(records, c, Listing(records, c)[i]) && ks[i] == IndexKey(c, Listing(records, c)[i])
  {
    var es := Listing(records, c);
    assert forall i :: 0 <= i < |es| ==> es[i] in es;
    var ks := IndexKeys(c, es);
    IndexKeysAscending(c, es);
    ks
  }

  lemma IndexKeysAscending(c: Text, es: seq<Entry>)
    requires InOrder(es) && forall i :: 0 <= i < |es| ==> Encodable(es[i].ts)
    ensures Ascending(IndexKeys(c, es))
  {
    forall i, j | 0 <= i < j < |es|
      ensures Less(IndexKey(c, es[i]), IndexKey(c, es[j]))
    {
      IndexKeyOrder(c, es[i], es[j]);
    }
  }

  /** Listing the adapter by a collection's prefix gives the collection's members, in order. */
  lemma RangeIsListing(entries: Entries, records: Records, c: Text)
    requires Represents(entries, records) && DelimFree(c)
    ensures Sorted(KeysUnder(entries, IndexPrefix(c))) == ListingKeys(records, c)
  {
    var es, ks := Listing(records, c), ListingKeys(records, c);
    forall k
      ensures k in ks <==> k in KeysUnder(entries, IndexPrefix(c))
    {
      if k in ks {
        var i :| 0 <= i < |ks| && ks[i] == k;
        ListedHeld(entries, records, c, es[i]);
      }
      if k in KeysUnder(entries, IndexPrefix(c)) {
        UnderPrefix(entries, records, c, k);
        var e :| Lists(records, c, e) && k == IndexKey(c, e);
        assert e in es;
        var i :| 0 <= i < |es| && es[i] == e;
        assert ks[i] == k;
      }
    }
    SortedIs(KeysUnder(entries, IndexPrefix(c)), ks);
  }

  lemma UnderPrefix(entries: Entries, records: Records, c: Text, k: Text)
    requires Represents(entries, records) && DelimFree(c)
    requires k in KeysUnder(entries, IndexPrefix(c))
    ensures exists e :: Lists(records, c, e) && k == IndexKey(c, e)
  {
    if IsObjectKey(records, k) {
      var id :| id in records && k == ObjectKey(id);
      PrefixSelects(c, c, Entry(0, id));
    }
    var c', id :| id in records && InCollection(records[id], c') && k == IndexKey(c', Entry(records[id].ts, id));
    PrefixSelects(c, c', Entry(records[id].ts, id));
    assert Lists(records, c, Entry(records[id].ts, id));
  }
}
