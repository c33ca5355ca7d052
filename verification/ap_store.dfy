/** The store itself, over the adapter's flat keys. */
module ApStoreModel {
  import opened Texts
  import opened Cursor
  import opened Documents
  import opened StoreKeys
  import opened MemoryAdapter
  import opened StoreModel
  import opened VolatileStore

  const EPHEMERAL_DEDUP_TTL_MS := 30_000

  datatype Child = Child(cursor: Text, doc: Doc)

  /** The members of a listing with the cursor to resume from after each. */
  ghost function Children(records: Records, es: seq<Entry>): (cs: seq<Child>)
    requires forall i :: 0 <= i < |es| ==> es[i].id in records && Encodable(es[i].ts)
    ensures |cs| == |es|
    ensures forall i :: 0 <= i < |es| ==> cs[i] == Child(CursorOf(es[i]), records[es[i].id].doc)
  {
    seq(|es|, i requires 0 <= i < |es| => Child(CursorOf(es[i]), records[es[i].id].doc))
  }

  function ChildDocs(cs: seq<Child>): (docs: seq<Doc>)
    ensures |docs| == |cs| && forall i :: 0 <= i < |cs| ==> docs[i] == cs[i].doc
  {
    seq(|cs|, i requires 0 <= i < |cs| => cs[i].doc)
  }

  lemma ChildDocsOf(records: Records, es: seq<Entry>)
    requires forall i :: 0 <= i < |es| ==> es[i].id in records && Encodable(es[i].ts)
    ensures ChildDocs(Children(records, es)) == DocsOf(records, es)
  {
  }

  /** What `getChildrenSince` returns. */
  ghost function Since(records: Records, c: Text, since: Option<Text>, limit: Option<nat>): seq<Child> {
    Children(records, EntriesSince(records, c, since, limit))
  }

  /** What `getChildren` returns: newest first. */
  ghost function Newest(records: Records, c: Text, limit: Option<nat>): seq<Doc> {
    var es := NewestEntries(records, c, limit);
    DocsOf(records, es)
  }

  class ApStore {
    const adapter: MemoryStoreAdapter
    const dedup: VolatileAdapter
    /** The documents held, as the operations define them; the adapter's keys represent it. */
    ghost var records: Records
    /** The events handed to the bus, oldest first. */
    var emitted: seq<Change>
    var announced: seq<Doc>

    ghost predicate Valid()
      reads this, adapter
    {
      Represents(adapter.entries, records)
    }

    constructor ()
      ensures Valid() && fresh(adapter) && fresh(dedup)
      ensures records == map[] && emitted == [] && announced == []
      ensures dedup.entries == map[] && dedup.defaultTtlMs == EPHEMERAL_DEDUP_TTL_MS
    {
      adapter := new MemoryStoreAdapter();
      dedup := new VolatileAdapter(EPHEMERAL_DEDUP_TTL_MS);
      records := map[];
      emitted := [];
      announced := [];
    }

    /** `put` in the persistent tier. */
    method Put(doc: Doc, collections: seq<Text>, ts: int) returns (outcome: Outcome)
      requires Valid()
      requires forall c :: c in collections ==> DelimFree(c)
      modifies this`records, this`emitted, adapter
      ensures Valid()
      ensures (records, outcome) == PutEffect(old(records), doc, collections, ts)
      ensures emitted == if outcome == Done
                         then old(emitted) + [Change(doc.id, Some(doc), collections, Some(ts))]
                         else old(emitted)
    {
      if doc.id == [] {
        return IdRequired;
      }
      var existing := adapter.Get(ObjectKey(doc.id));
      AbsentKeys(adapter.entries, records, doc.id);
      if existing.Some? {
        var removed := RemoveIndexEntries(doc.id, existing.value.record);
        if !removed {
          return RangeError;
        }
      }
      var r := Record(ts, doc, collections);
      assert adapter.entries == Unindexed(old(adapter.entries), old(records), doc.id);
      PutRepresents(old(adapter.entries), old(records), r);
      adapter.Put(ObjectKey(doc.id), Stored(r));
      records := records[doc.id := r];
      var indexed := AddIndexEntries(doc.id, r);
      if !indexed {
        return RangeError;
      }
      emitted := emitted + [Change(doc.id, Some(doc), collections, Some(ts))];
      return Done;
    }

    /** The loop that deletes a record's index entries; false when `encodeCursor` throws. */
    method RemoveIndexEntries(id: Text, r: Record) returns (ok: bool)
      requires id != []
      modifies adapter
      ensures ok <==> !Unindexable(r)
      ensures adapter.entries == if Encodable(r.ts) then DropIndex(old(adapter.entries), r.collections, Entry(r.ts, id))
                                 else old(adapter.entries)
    {
      for i := 0 to |r.collections|
        invariant i > 0 ==> Encodable(r.ts)
        invariant Encodable(r.ts) ==>
                    adapter.entries == DropIndex(old(adapter.entries), r.collections[..i], Entry(r.ts, id))
        invariant !Encodable(r.ts) ==> adapter.entries == old(adapter.entries)
      {
        EncodeCursorIs(r.ts, id);
        var cursor := EncodeCursor(r.ts, id);
        if cursor.None? {
          return false;
        }
        assert r.collections[..i + 1][..i] == r.collections[..i];
        adapter.Delete(IndexPrefix(r.collections[i]) + cursor.value);
      }
      assert r.collections[..|r.collections|] == r.collections;
      return true;
    }

    /** The loop that inserts a record's index entries; false when `encodeCursor` throws. */
    method AddIndexEntries(id: Text, r: Record) returns (ok: bool)
      requires id != []
      modifies adapter
      ensures ok <==> !Unindexable(r)
      ensures adapter.entries == if Encodable(r.ts) then AddIndex(old(adapter.entries), r.collections, Entry(r.ts, id))
                                 else old(adapter.entries)
    {
      for i := 0 to |r.collections|
        invariant i > 0 ==> Encodable(r.ts)
        invariant Encodable(r.ts) ==>
                    adapter.entries == AddIndex(old(adapter.entries), r.collections[..i], Entry(r.ts, id))
        invariant !Encodable(r.ts) ==> adapter.entries == old(adapter.entries)
      {
        EncodeCursorIs(r.ts, id);
        var cursor := EncodeCursor(r.ts, id);
        if cursor.None? {
          return false;
        }
        assert r.collections[..i + 1][..i] == r.collections[..i];
        adapter.Put(IndexPrefix(r.collections[i]) + cursor.value, Ref(id));
      }
      assert r.collections[..|r.collections|] == r.collections;
      return true;
    }

    method Get(id: Text) returns (doc: Option<Doc>)
      requires Valid()
      ensures doc == if id in records then Some(records[id].doc) else None
    {
      AbsentKeys(adapter.entries, records, id);
      var record := adapter.Get(ObjectKey(id));
      doc := if record.Some? then Some(record.value.record.doc) else None;
    }

    method Delete(id: Text) returns (outcome: Outcome)
      requires Valid()
      modifies this`records, this`emitted, adapter
      ensures Valid()
      ensures (records, outcome) == DeleteEffect(old(records), id)
      ensures emitted == if outcome == Done && id in old(records)
                         then old(emitted) + [Change(id, None, old(records)[id].collections, None)]
                         else old(emitted)
    {
      AbsentKeys(adapter.entries, records, id);
      var record := adapter.Get(ObjectKey(id));
      if record.None? {
        assert records - {id} == records;
        return Done;
      }
      var r := record.value.record;
      DeleteRepresents(adapter.entries, records, id);
      RemoveCommutes(adapter.entries, r, id);
      adapter.Delete(ObjectKey(id));
      records := records - {id};
      var removed := RemoveIndexEntries(id, r);
      if !removed {
        return RangeError;
      }
      emitted := emitted + [Change(id, None, r.collections, None)];
      return Done;
    }

    /** `getChildren`: the newest members of a collection, at most `limit`. */
    method GetChildren(c: Text, limit: Option<nat>) returns (docs: seq<Doc>)
      requires Valid() && DelimFree(c)
      ensures docs == Newest(records, c, limit)
    {
      var entries := adapter.List(IndexPrefix(c), limit, true);
      NewestFound(adapter.entries, records, c, limit);
      var children := Resolve(IndexPrefix(c), entries, c, NewestEntries(records, c, limit));
      docs := ChildDocs(children);
      ChildDocsOf(records, NewestEntries(records, c, limit));
    }

    /** `getChildrenSince`: the members strictly after a cursor, oldest first, at most `limit`. */
    method GetChildrenSince(c: Text, sinceCursor: Option<Text>, limit: Option<nat>) returns (results: seq<Child>)
      requires Valid() && DelimFree(c)
      ensures results == Since(records, c, sinceCursor, limit)
    {
      var prefix := IndexPrefix(c);
      var entries := adapter.List(prefix, None, false);
      AllFound(adapter.entries, records, c);
      SinceFound(records, c, entries, sinceCursor, limit);
      var after := if sinceCursor.None? || sinceCursor.value == [] then entries
                   else KeysAfter(entries, prefix + sinceCursor.value);
      results := Resolve(prefix, Take(after, limit), c, EntriesSince(records, c, sinceCursor, limit));
    }

    /** The loop both listings share: read each entry's document back, skipping missing ones. */
    method Resolve(prefix: Text, entries: seq<(Text, Value)>, ghost c: Text, ghost es: seq<Entry>)
      returns (results: seq<Child>)
      requires Valid() && prefix == IndexPrefix(c) && Finds(records, c, es, entries)
      ensures results == Children(records, es)
    {
      results := [];
      for i := 0 to |entries|
        invariant |results| == i
        invariant forall j :: 0 <= j < i ==> results[j] == Child(CursorOf(es[j]), records[es[j].id].doc)
      {
        assert Lists(records, c, es[i]);
        var doc := Get(entries[i].1.id);
        if doc.Some? {
          assert entries[i].0[|prefix|..] == CursorOf(es[i]);
          results := results + [Child(entries[i].0[|prefix|..], doc.value)];
        }
      }
    }

    /** `put` in the ephemeral tier: never stored, announced once per dedup window. */
    method PutEphemeral(doc: Doc, d: Delivery) returns (outcome: Outcome)
      requires d.id == doc.id
      modifies this`announced, dedup
      ensures doc.id == [] ==>
                outcome == IdRequired && announced == old(announced) && dedup.entries == old(dedup.entries)
      ensures doc.id != [] ==>
                && outcome == Done
                && dedup.entries == Accept(old(dedup.entries), d, dedup.defaultTtlMs)
                && announced == old(announced) + if Announces(old(dedup.entries), d) then [doc] else []
    {
      if doc.id == [] {
        return IdRequired;
      }
      var alreadySeen := dedup.Has(doc.id, d.readAt);
      dedup.Put(doc.id, SEEN, None, d.pruneAt, d.stampAt);
      if !alreadySeen {
        announced := announced + [doc];
      }
      return Done;
    }
  }

  lemma AbsentKeys(entries: Entries, records: Records, id: Text)
    requires Represents(entries, records)
    ensures ObjectKey(id) in entries <==> id in records
    ensures id in records ==> entries[ObjectKey(id)] == Stored(records[id])
  {
    if id in records {
      assert Holds(entries, ObjectKey(id), Stored(records[id]));
    } else if ObjectKey(id) in entries {
      if IsObjectKey(records, ObjectKey(id)) {
        var i :| i in records && ObjectKey(id) == ObjectKey(i);
        ObjectKeyInjective(id, i);
      } else {
        var c, i :|
          i in records && InCollection(records[i], c) && ObjectKey(id) == IndexKey(c, Entry(records[i].ts, i));
        NamespacesDisjoint(id, c, Entry(records[i].ts, i));
      }
    }
  }

  lemma RemoveCommutes(entries: Entries, r: Record, id: Text)
    ensures Encodable(r.ts) ==>
              DropIndex(entries - {ObjectKey(id)}, r.collections, Entry(r.ts, id))
              == DropIndex(entries, r.collections, Entry(r.ts, id)) - {ObjectKey(id)}
  {
    if Encodable(r.ts) {
      var e := Entry(r.ts, id);
      var x := DropIndex(entries - {ObjectKey(id)}, r.collections, e);
      var y := DropIndex(entries, r.collections, e) - {ObjectKey(id)};
      forall k
        ensures k in x <==> k in y
        ensures k in x ==> x[k] == y[k]
      {
        DropIndexKeys(entries - {ObjectKey(id)}, r.collections, e, k);
        DropIndexKeys(entries, r.collections, e, k);
      }
    }
  }

  /** Index entries found in the adapter, for a list of members of one collection. */
  ghost predicate Finds(records: Records, c: Text, es: seq<Entry>, found: seq<(Text, Value)>) {
    && |found| == |es|
    && forall i :: 0 <= i < |es| ==>
         Lists(records, c, es[i]) && found[i] == (IndexKey(c, es[i]), Ref(es[i].id))
  }

  lemma LookupFinds(held: Entries, records: Records, c: Text, ks: seq<Text>, es: seq<Entry>)
    requires Represents(held, records) && DelimFree(c)
    requires forall k :: k in ks ==> k in held
    requires |ks| == |es|
    requires forall i :: 0 <= i < |es| ==> Lists(records, c, es[i]) && ks[i] == IndexKey(c, es[i])
    ensures Finds(records, c, es, Lookup(held, ks))
  {
    forall i | 0 <= i < |es|
      ensures Lookup(held, ks)[i] == (IndexKey(c, es[i]), Ref(es[i].id))
    {
      ListedHeld(held, records, c, es[i]);
    }
  }

  ghost function NewestEntries(records: Records, c: Text, limit: Option<nat>): (es: seq<Entry>)
    ensures forall i :: 0 <= i < |es| ==> Lists(records, c, es[i])
  {
    var es := Listing(records, c);
    assert forall i :: 0 <= i < |es| ==> es[i] in es;
    Take(Reverse(es), limit)
  }

  ghost function EntriesSince(records: Records, c: Text, since: Option<Text>, limit: Option<nat>): (es: seq<Entry>)
    ensures forall i :: 0 <= i < |es| ==> Lists(records, c, es[i])
  {
    var later := After(Listing(records, c), since);
    assert forall i :: 0 <= i < |later| ==> Lists(records, c, later[i]) by {
      forall i | 0 <= i < |later|
        ensures Lists(records, c, later[i])
      {
        AfterElements(Listing(records, c), since, later[i]);
      }
    }
    Take(later, limit)
  }

  lemma NewestKeys(records: Records, c: Text, limit: Option<nat>)
    ensures var ks, es := Take(Reverse(ListingKeys(records, c)), limit), NewestEntries(records, c, limit);
            |ks| == |es| && forall i :: 0 <= i < |es| ==> Lists(records, c, es[i]) && ks[i] == IndexKey(c, es[i])
  {
    KeysReversed(c, Listing(records, c), ListingKeys(records, c), limit);
  }

  lemma KeysReversed(c: Text, es: seq<Entry>, ks: seq<Text>, limit: Option<nat>)
    requires |ks| == |es| && forall i :: 0 <= i < |es| ==> Encodable(es[i].ts) && ks[i] == IndexKey(c, es[i])
    ensures var es', ks' := Take(Reverse(es), limit), Take(Reverse(ks), limit);
            |ks'| == |es'| && forall i :: 0 <= i < |es'| ==> Encodable(es'[i].ts) && ks'[i] == IndexKey(c, es'[i])
  {
    forall i | 0 <= i < |es|
      ensures Reverse(ks)[i] == IndexKey(c, Reverse(es)[i])
    {
      assert ks[|es| - 1 - i] == IndexKey(c, es[|es| - 1 - i]);
    }
  }

  lemma NewestFound(held: Entries, records: Records, c: Text, limit: Option<nat>)
    requires Represents(held, records) && DelimFree(c)
    ensures Finds(records, c, NewestEntries(records, c, limit),
                  Lookup(held, Range(held, IndexPrefix(c), limit, true)))
  {
    RangeIsListing(held, records, c);
    var ks, es := Range(held, IndexPrefix(c), limit, true), NewestEntries(records, c, limit);
    NewestKeys(records, c, limit);
    LookupFinds(held, records, c, ks, es);
  }

  lemma AllFound(held: Entries, records: Records, c: Text)
    requires Represents(held, records) && DelimFree(c)
    ensures Finds(records, c, Listing(records, c), Lookup(held, Range(held, IndexPrefix(c), None, false)))
  {
    RangeIsListing(held, records, c);
    var ks := Range(held, IndexPrefix(c), None, false);
    assert ks == ListingKeys(records, c);
    LookupFinds(held, records, c, ks, Listing(records, c));
  }

  /** `entries.filter((entry) => entry.key > sinceKey)`. */
  function KeysAfter(entries: seq<(Text, Value)>, sinceKey: Text): seq<(Text, Value)> {
    if entries == [] then []
    else (if Less(sinceKey, entries[0].0) then [entries[0]] else []) + KeysAfter(entries[1..], sinceKey)
  }

  /** Filtering whole keys is filtering the entries by their cursors. */
  lemma {:induction false} FilterFinds(records: Records, c: Text, es: seq<Entry>, found: seq<(Text, Value)>,
        since: Text)
    requires Finds(records, c, es, found) && since != []
    requires AllEncodable(es)
    ensures Finds(records, c, After(es, Some(since)), KeysAfter(found, IndexPrefix(c) + since))
  {
    if es != [] {
      var es', found' := es[1..], found[1..];
      assert forall i :: 0 <= i < |es'| ==> es'[i] == es[i + 1] && found'[i] == found[i + 1];
      FilterFinds(records, c, es', found', since);
      LessAfterPrefix(IndexPrefix(c), since, CursorOf(es[0]));
      FindsMore(records, c, es[0], After(es', Some(since)), found[0], KeysAfter(found', IndexPrefix(c) + since));
    }
  }

  lemma FindsMore(records: Records, c: Text, e: Entry, es: seq<Entry>, entry: (Text, Value), found: seq<(Text, Value)>)
    requires Finds(records, c, es, found)
    requires Lists(records, c, e) && entry == (IndexKey(c, e), Ref(e.id))
    ensures Finds(records, c, [e] + es, [entry] + found) && Finds(records, c, [] + es, [] + found)
  {
    assert [] + es == es && [] + found == found;
  }

  lemma {:induction false} AfterNothing(es: seq<Entry>, since: Option<Text>)
    requires AllEncodable(es)
    requires since.None? || since.value == []
    ensures After(es, since) == es
  {
    if es != [] {
      AfterNothing(es[1..], since);
    }
  }

  lemma TakeFinds(records: Records, c: Text, es: seq<Entry>, found: seq<(Text, Value)>, limit: Option<nat>)
    requires Finds(records, c, es, found)
    ensures Finds(records, c, Take(es, limit), Take(found, limit))
  {
  }

  lemma SinceFound(records: Records, c: Text, found: seq<(Text, Value)>, since: Option<Text>, limit: Option<nat>)
    requires Finds(records, c, Listing(records, c), found)
    ensures var after := if since.None? || since.value == [] then found
                         else KeysAfter(found, IndexPrefix(c) + since.value);
            Finds(records, c, EntriesSince(records, c, since, limit), Take(after, limit))
  {
    var es, later := Listing(records, c), After(Listing(records, c), since);
    if since.None? || since.value == [] {
      AfterNothing(es, since);
      TakeFinds(records, c, later, found, limit);
    } else {
      FilterFinds(records, c, es, found, since.value);
      TakeFinds(records, c, later, KeysAfter(found, IndexPrefix(c) + since.value), limit);
    }
  }
}
