/** What the store promises its callers, over whole histories of writes. */
module StoreLaws {
  import opened Texts
  import opened Cursor
  import opened Documents
  import opened MemoryAdapter
  import opened StoreModel
  import opened ApStoreModel

  // ---------------------------------------------------------------- histories

  datatype Op = PutOp(doc: Doc, collections: seq<Text>, ts: int) | DeleteOp(id: Text)

  function Apply(records: Records, op: Op): Records {
    match op
    case PutOp(doc, collections, ts) => PutEffect(records, doc, collections, ts).0
    case DeleteOp(id) => DeleteEffect(records, id).0
  }

  function Run(ops: seq<Op>): Records {
    if ops == [] then map[] else Apply(Run(ops[..|ops| - 1]), ops[|ops| - 1])
  }

  predicate Touches(op: Op, id: Text) {
    match op
    case PutOp(doc, _, _) => doc.id == id
    case DeleteOp(i) => i == id
  }

  function RecordOf(op: Op): Record
    requires op.PutOp?
  {
    Record(op.ts, op.doc, op.collections)
  }

  /** A put that throws half-way: it names collections, under a timestamp no cursor can hold. */
  predicate BadPut(op: Op) {
    op.PutOp? && Unindexable(RecordOf(op))
  }

  /** A bad put of the id, and no delete of it since: until then every put of it is refused. */
  ghost predicate BlockedAt(ops: seq<Op>, id: Text) {
    id != [] && exists j :: BlockedBy(ops, id, j)
  }

  ghost predicate BlockedBy(ops: seq<Op>, id: Text, j: nat) {
    && j < |ops| && BadPut(ops[j]) && ops[j].doc.id == id
    && forall i :: j < i < |ops| ==> ops[i] != DeleteOp(id)
  }

  /** The `k`-th operation is the put whose record the store holds: it was not refused, and nothing
      but puts it causes to be refused came after it. */
  ghost predicate HeldPut(ops: seq<Op>, id: Text, k: nat) {
    && k < |ops| && ops[k].PutOp? && ops[k].doc.id == id && id != []
    && !BlockedAt(ops[..k], id)
    && forall j :: k < j < |ops| && Touches(ops[j], id) ==> ops[j].PutOp? && BadPut(ops[k])
  }

  /** The `k`-th operation is the last word on `id`, and it is a put. */
  ghost predicate LatestPut(ops: seq<Op>, id: Text, k: nat) {
    && k < |ops| && ops[k].PutOp? && ops[k].doc.id == id && id != []
    && forall j :: k < j < |ops| ==> !Touches(ops[j], id)
  }

  lemma BlockedSnoc(front: seq<Op>, last: Op, id: Text)
    ensures BlockedAt(front + [last], id)
       <==> id != [] && ((BadPut(last) && last.doc.id == id) || (BlockedAt(front, id) && last != DeleteOp(id)))
  {
    var ops := front + [last];
    if BadPut(last) && last.doc.id == id {
      assert BlockedBy(ops, id, |front|);
    }
    forall j: nat | j < |front| ensures BlockedBy(ops, id, j) <==> BlockedBy(front, id, j) && last != DeleteOp(id) {
      assert ops[j] == front[j];
      if BlockedBy(ops, id, j) {
        assert ops[|front|] == last;
        forall i | j < i < |front| ensures front[i] != DeleteOp(id) {
          assert ops[i] == front[i];
        }
      }
    }
  }

  lemma HeldSnoc(front: seq<Op>, last: Op, id: Text, k: nat)
    ensures k < |front| ==>
              (HeldPut(front + [last], id, k) <==>
               HeldPut(front, id, k) && (Touches(last, id) ==> last.PutOp? && BadPut(front[k])))
    ensures k == |front| ==>
              (HeldPut(front + [last], id, k)
               <==> last.PutOp? && last.doc.id == id && id != [] && !BlockedAt(front, id))
  {
    var ops := front + [last];
    if k < |front| {
      assert ops[..k] == front[..k] && ops[k] == front[k] && ops[|front|] == last;
      assert forall j :: k < j < |front| ==> ops[j] == front[j];
    } else if k == |front| {
      assert ops[..k] == front;
    }
  }

  /** After any history of puts and deletes, which record the store holds for an id, and when it is
      one that blocks the id. */
  lemma {:induction false} RunHolds(ops: seq<Op>, id: Text)
    ensures id in Run(ops) <==> exists k :: HeldPut(ops, id, k)
    ensures forall k: nat :: HeldPut(ops, id, k) ==> id in Run(ops) && Run(ops)[id] == RecordOf(ops[k])
    ensures id in Run(ops) && Unindexable(Run(ops)[id]) <==> BlockedAt(ops, id)
  {
    if ops != [] {
      var n := |ops| - 1;
      var front, last := ops[..n], ops[n];
      assert ops == front + [last];
      RunHolds(front, id);
      BlockedSnoc(front, last, id);
      forall k: nat ensures HeldPut(ops, id, k) <==> HeldPut(front + [last], id, k) {
      }
      HeldAfter(front, last, id);
    }
  }

  lemma HeldAfter(front: seq<Op>, last: Op, id: Text)
    requires id in Run(front) <==> exists k :: HeldPut(front, id, k)
    requires forall k: nat :: HeldPut(front, id, k) ==> id in Run(front) && Run(front)[id] == RecordOf(front[k])
    requires id in Run(front) && Unindexable(Run(front)[id]) <==> BlockedAt(front, id)
    ensures var ops := front + [last];
            && (id in Run(ops) <==> exists k :: HeldPut(ops, id, k))
            && (forall k: nat :: HeldPut(ops, id, k) ==> id in Run(ops) && Run(ops)[id] == RecordOf(ops[k]))
            && (id in Run(ops) && Unindexable(Run(ops)[id]) <==> BlockedAt(ops, id))
  {
    var ops := front + [last];
    assert ops[..|front|] == front && Run(ops) == Apply(Run(front), last);
    BlockedSnoc(front, last, id);
    HeldSnoc(front, last, id, |front|);
    forall k: nat | k < |front|
      ensures HeldPut(ops, id, k) <==> HeldPut(front, id, k) && (Touches(last, id) ==> last.PutOp? && BadPut(front[k]))
    {
      HeldSnoc(front, last, id, k);
    }
    assert forall k: nat :: k < |front| ==> ops[k] == front[k];
    if exists k :: HeldPut(front, id, k) {
      var k :| HeldPut(front, id, k);
      HeldSnoc(front, last, id, k);
    }
  }

  /** The latest put of an id is the one the store holds exactly when it was not refused: when no bad
      put came before it without a delete in between. Otherwise the bad put's record is held, in no
      listing. */
  lemma LatestPutHeld(ops: seq<Op>, id: Text, k: nat)
    requires LatestPut(ops, id, k)
    ensures id in Run(ops)
    ensures HeldPut(ops, id, k) <==> !BlockedAt(ops[..k], id)
    ensures Run(ops)[id] == RecordOf(ops[k])
       <==> !BlockedAt(ops[..k], id) || (id in Run(ops[..k]) && Run(ops[..k])[id] == RecordOf(ops[k]))
  {
    var before := ops[..k];
    RunHolds(before, id);
    assert ops[..k + 1][..k] == before;
    assert Run(ops[..k + 1]) == Apply(Run(before), ops[k]);
    Untouched(ops, id, k + 1);
  }

  lemma {:induction false} Untouched(ops: seq<Op>, id: Text, k: nat)
    requires k <= |ops| && forall j :: k <= j < |ops| ==> !Touches(ops[j], id)
    ensures id in Run(ops) <==> id in Run(ops[..k])
    ensures id in Run(ops) ==> Run(ops)[id] == Run(ops[..k])[id]
    decreases |ops|
  {
    if k < |ops| {
      assert ops[..|ops| - 1][..k] == ops[..k];
      Untouched(ops[..|ops| - 1], id, k);
    } else {
      assert ops[..k] == ops;
    }
  }

  /** A blocked id is readable and in no listing. */
  lemma BlockedIsUnlisted(ops: seq<Op>, id: Text)
    requires BlockedAt(ops, id)
    ensures id in Run(ops)
    ensures forall c, e :: Lists(Run(ops), c, e) ==> e.id != id
  {
    RunHolds(ops, id);
  }

  /** Without bad puts the store holds, for each id, exactly its latest put. */
  lemma RunKeepsLatest(ops: seq<Op>, id: Text)
    requires forall i :: 0 <= i < |ops| ==> !BadPut(ops[i])
    ensures id in Run(ops) <==> exists k :: LatestPut(ops, id, k)
    ensures forall k: nat :: LatestPut(ops, id, k) ==> id in Run(ops) && Run(ops)[id] == RecordOf(ops[k])
    ensures id in Run(ops) ==> !Unindexable(Run(ops)[id])
  {
    RunHolds(ops, id);
    forall k: nat ensures HeldPut(ops, id, k) <==> LatestPut(ops, id, k) {
      if k <= |ops| {
        assert forall j :: 0 <= j < k ==> ops[..k][j] == ops[j];
      }
    }
  }

  /** `getChildren` after any history: the members are the ids whose held put named the collection,
      newest first, each once, cut to the newest `limit`. */
  lemma GetChildrenMeaning(ops: seq<Op>, c: Text, limit: Option<nat>)
    ensures var es := NewestEntries(Run(ops), c, limit);
            && Newest(Run(ops), c, limit) == DocsOf(Run(ops), es)
            && (forall i, j :: 0 <= i < j < |es| ==> Before(es[j], es[i]))
            && (forall e :: e in es ==> exists k :: HeldPut(ops, e.id, k) && NamedBy(ops, c, e, k))
            && (forall e: Entry, k :: HeldPut(ops, e.id, k) && NamedBy(ops, c, e, k) && e !in es ==>
                  limit.Some? && |es| == limit.value && forall f :: f in es ==> Before(e, f))
  {
    var records := Run(ops);
    var es, all := NewestEntries(records, c, limit), Listing(records, c);
    forall e | e in es
      ensures exists k :: HeldPut(ops, e.id, k) && NamedBy(ops, c, e, k)
    {
      RunHolds(ops, e.id);
      assert Lists(records, c, e);
      var k :| HeldPut(ops, e.id, k);
      assert NamedBy(ops, c, e, k);
    }
    forall e: Entry, k | HeldPut(ops, e.id, k) && NamedBy(ops, c, e, k) && e !in es
      ensures limit.Some? && |es| == limit.value && forall f :: f in es ==> Before(e, f)
    {
      RunHolds(ops, e.id);
      assert Lists(records, c, e);
      CutOff(all, limit, e);
    }
  }

  /** The put names the collection, under a timestamp a cursor can hold. */
  ghost predicate NamedBy(ops: seq<Op>, c: Text, e: Entry, k: nat) {
    k < |ops| && ops[k].PutOp? && c in ops[k].collections && ops[k].ts == e.ts && Encodable(e.ts)
  }

  lemma AmongNewest(all: seq<Entry>, limit: Option<nat>, p: nat)
    requires p < |all|
    ensures |all| - 1 - p < |Take(Reverse(all), limit)| ==> all[p] in Take(Reverse(all), limit)
  {
    assert Reverse(all)[|all| - 1 - p] == all[p];
  }

  /** A member missing from a limited listing is older than everything in it. */
  lemma CutOff(all: seq<Entry>, limit: Option<nat>, e: Entry)
    requires InOrder(all) && e in all && e !in Take(Reverse(all), limit)
    ensures var es := Take(Reverse(all), limit);
            limit.Some? && |es| == limit.value && forall f :: f in es ==> Before(e, f)
  {
    var es, n := Take(Reverse(all), limit), |all|;
    var p :| 0 <= p < n && all[p] == e;
    AmongNewest(all, limit, p);
    forall f | f in es
      ensures Before(e, f)
    {
      var i :| 0 <= i < |es| && es[i] == f;
      assert f == Reverse(all)[i] == all[n - 1 - i];
    }
  }

  lemma NewestAt(records: Records, c: Text, limit: Option<nat>)
    ensures var es, all := NewestEntries(records, c, limit), Listing(records, c);
            && |es| == (if limit.Some? && limit.value < |all| then limit.value else |all|)
            && forall i :: 0 <= i < |es| ==> es[i] == all[|all| - 1 - i]
  {
  }

  /** A put whose timestamp no cursor can hold leaves a document that can be read but is in no
      listing, and blocks every later put of its id; only a delete, which throws too, frees it. */
  lemma OutOfRangePut(records: Records, doc: Doc, collections: seq<Text>, ts: int, again: Doc, cs: seq<Text>, ts': int)
    requires doc.id != [] && again.id == doc.id && collections != [] && !Encodable(ts)
    requires doc.id in records ==> !Unindexable(records[doc.id])
    ensures var (after, outcome) := PutEffect(records, doc, collections, ts);
            && outcome == RangeError && doc.id in after && after[doc.id].doc == doc
            && (forall c, e :: Lists(after, c, e) ==> e.id != doc.id)
            && PutEffect(after, again, cs, ts') == (after, RangeError)
            && DeleteEffect(after, doc.id) == (records - {doc.id}, RangeError)
  {
    var after := PutEffect(records, doc, collections, ts).0;
    assert after - {doc.id} == records - {doc.id};
  }

  // ---------------------------------------------------------------- resuming a listing

  lemma {:induction false} AfterAll(es: seq<Entry>, since: Option<Text>)
    requires AllEncodable(es) && forall i :: 0 <= i < |es| ==> IsAfter(es[i], since)
    ensures After(es, since) == es
  {
    if es != [] {
      AfterAll(es[1..], since);
    }
  }

  lemma IsAfterUpward(e: Entry, f: Entry, since: Option<Text>)
    requires Encodable(f.ts) && Before(e, f) && IsAfter(e, since)
    ensures IsAfter(f, since)
  {
    CursorOrder(e, f);
    if since.Some? && since.value != [] {
      LessTransitive(since.value, CursorOf(e), CursorOf(f));
    }
  }

  /** What follows a cursor is a suffix of the listing. */
  lemma {:induction false} AfterIsSuffix(es: seq<Entry>, since: Option<Text>)
    requires InOrder(es) && AllEncodable(es)
    ensures After(es, since) == es[|es| - |After(es, since)|..]
  {
    if es != [] {
      if IsAfter(es[0], since) {
        forall i | 0 <= i < |es|
          ensures IsAfter(es[i], since)
        {
          if i > 0 {
            IsAfterUpward(es[0], es[i], since);
          }
        }
        AfterAll(es, since);
      } else {
        AfterIsSuffix(es[1..], since);
      }
    }
  }

  lemma AfterOwnCursor(e: Entry, f: Entry)
    requires Encodable(e.ts) && Encodable(f.ts)
    ensures IsAfter(f, Some(CursorOf(e))) <==> Before(e, f)
  {
    CursorOrder(e, f);
  }

  lemma BeforeAsymmetric(e: Entry, f: Entry)
    ensures !Before(e, e) && (Before(e, f) ==> !Before(f, e))
  {
    LessIrreflexive(e.id);
    if Less(e.id, f.id) {
      LessAsymmetric(e.id, f.id);
    }
  }

  /** Resuming from a member's own cursor gives exactly the members behind it. */
  lemma {:induction false} AfterMember(es: seq<Entry>, i: nat)
    requires InOrder(es) && AllEncodable(es) && i < |es|
    ensures After(es, Some(CursorOf(es[i]))) == es[i + 1..]
  {
    AfterOwnCursor(es[i], es[0]);
    BeforeAsymmetric(es[0], es[i]);
    if i == 0 {
      forall j | 0 <= j < |es[1..]|
        ensures IsAfter(es[1..][j], Some(CursorOf(es[0])))
      {
        AfterOwnCursor(es[0], es[j + 1]);
      }
      AfterAll(es[1..], Some(CursorOf(es[0])));
    } else {
      AfterMember(es[1..], i - 1);
    }
  }

  lemma SuffixAt<T>(es: seq<T>, k: nat, j: nat)
    requires k + j < |es|
    ensures es[k..][j] == es[k + j] && es[k..][j + 1..] == es[k + j + 1..]
  {
  }

  /** Resuming from the cursor of any member that followed `since` drops it and all before it. */
  lemma AfterResumed(es: seq<Entry>, since: Option<Text>, j: nat)
    requires InOrder(es) && AllEncodable(es) && j < |After(es, since)|
    ensures After(es, Some(CursorOf(After(es, since)[j]))) == After(es, since)[j + 1..]
  {
    AfterIsSuffix(es, since);
    var k := |es| - |After(es, since)|;
    SuffixAt(es, k, j);
    AfterMember(es, k + j);
  }

  // ---------------------------------------------------------------- paging

  /** The cursor a client resumes from after reading a page. */
  ghost function NextCursor(page: seq<Child>): Option<Text> {
    if page == [] then None else Some(page[|page| - 1].cursor)
  }

  lemma ChildrenSplit(records: Records, es: seq<Entry>, n: nat)
    requires n <= |es| && forall i :: 0 <= i < |es| ==> es[i].id in records && Encodable(es[i].ts)
    ensures Children(records, es) == Children(records, es[..n]) + Children(records, es[n..])
  {
  }

  lemma PageAdvances(records: Records, c: Text, since: Option<Text>, limit: nat)
    requires limit >= 1 && After(Listing(records, c), since) != []
    ensures var page := Since(records, c, since, Some(limit));
            && page != []
            && After(Listing(records, c), NextCursor(page)) == After(Listing(records, c), since)[|page|..]
            && Since(records, c, since, None) == page + Since(records, c, NextCursor(page), None)
  {
    var later, es := EntriesSince(records, c, since, None), EntriesSince(records, c, since, Some(limit));
    var n := |es|;
    assert es == later[..n];
    AfterResumed(Listing(records, c), since, n - 1);
    ChildrenSplit(records, later, n);
  }

  /** Reading page after page, each from the last page's last cursor, until nothing is left.
      The limit may change from page to page. */
  ghost function Pages(records: Records, c: Text, since: Option<Text>, limits: nat -> nat, k: nat): seq<Child>
    requires forall i :: limits(i) >= 1
    decreases |After(Listing(records, c), since)|
  {
    if After(Listing(records, c), since) == [] then [] else
      var page := Since(records, c, since, Some(limits(k)));
      PageAdvances(records, c, since, limits(k));
      page + Pages(records, c, NextCursor(page), limits, k + 1)
  }

  /** Whatever the page sizes, the pages make up the listing: every member once, in order. */
  lemma {:induction false} PagesCoverListing(records: Records, c: Text, since: Option<Text>, limits: nat -> nat, k: nat)
    requires forall i :: limits(i) >= 1
    ensures Pages(records, c, since, limits, k) == Since(records, c, since, None)
    decreases |After(Listing(records, c), since)|
  {
    if After(Listing(records, c), since) == [] {
      assert Since(records, c, since, None) == [];
    } else {
      assert limits(k) >= 1;
      var page := Since(records, c, since, Some(limits(k)));
      PageAdvances(records, c, since, limits(k));
      PagesCoverListing(records, c, NextCursor(page), limits, k + 1);
      assert Pages(records, c, since, limits, k) == page + Pages(records, c, NextCursor(page), limits, k + 1);
    }
  }

  /** Read from the start, the pages are the reverse of the unlimited newest-first listing. */
  lemma PagesReverseNewest(records: Records, c: Text, limits: nat -> nat)
    requires forall i :: limits(i) >= 1
    ensures ChildDocs(Pages(records, c, None, limits, 0)) == Reverse(Newest(records, c, None))
  {
    var all := Listing(records, c);
    PagesCoverListing(records, c, None, limits, 0);
    AfterAll(all, None);
    NewestAt(records, c, None);
    assert EntriesSince(records, c, None, None) == all;
    ChildDocsOf(records, all);
  }
}
