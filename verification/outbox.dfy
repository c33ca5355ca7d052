/** The client's outbox: persistent writes waiting to be handed to the transport. */
module OutboxModel {
  import opened Texts
  import opened Cursor
  import opened Documents
  import opened StoreModel
  import opened StoreLaws
  import opened Frames
  import opened Replicas

  const OUTBOX_COLLECTION_PREFIX: Text := Ascii("urn:qu:client-outbox:")
  const OUTBOX_ENTRY_PREFIX: Text := Ascii("urn:qu:outbox-entry:")

  function EntryId(id: Text): Text {
    OUTBOX_ENTRY_PREFIX + id
  }

  predicate IsEntryId(id: Text) {
    OUTBOX_ENTRY_PREFIX <= id
  }

  lemma EntryIdInjective(id: Text, id': Text)
    ensures EntryId(id) == EntryId(id') <==> id == id'
    ensures IsEntryId(EntryId(id)) && !IsCursorId(EntryId(id))
  {
    assert EntryId(id)[|OUTBOX_ENTRY_PREFIX|..] == id && EntryId(id')[|OUTBOX_ENTRY_PREFIX|..] == id';
    assert EntryId(id)[7] == 'o' as int && CURSOR_PREFIX[7] == 'c' as int;
  }

  /** One published state of a document. */
  datatype Version = Version(doc: Doc, collections: seq<Text>, ts: int)

  function EntryDoc(id: Text, v: Version): Doc {
    OutboxEntry(EntryId(id), id, v.doc, v.collections, v.ts)
  }

  function EntryRecord(id: Text, v: Version, box: Text): Record {
    Record(v.ts, EntryDoc(id, v), [box])
  }

  function OutFrame(id: Text, v: Version): Frame
    requires Encodable(v.ts)
  {
    Data(id, Some(v.doc), v.collections, Some(CursorOf(Entry(v.ts, id))))
  }

  /** The outbox collection holds outbox entries only, each under the id of its target. */
  ghost predicate OutboxOk(records: Records, box: Text) {
    && (forall id {:trigger Unindexable(records[id])} :: id in records ==> !Unindexable(records[id]))
    && (forall id {:trigger IsEntryId(id)} {:trigger box in records[id].collections} ::
          id in records && (IsEntryId(id) || box in records[id].collections) ==> EntryOk(id, records[id], box))
  }

  ghost predicate EntryOk(id: Text, r: Record, box: Text) {
    && r.doc.OutboxEntry? && r.doc.targetId != [] && Encodable(r.doc.ts)
    && id == EntryId(r.doc.targetId) && r == EntryRecord(r.doc.targetId, VersionOf(r.doc), box)
  }

  function VersionOf(entry: Doc): Version
    requires entry.OutboxEntry?
  {
    Version(entry.doc, entry.collections, entry.ts)
  }

  // ---------------------------------------------------------------- publishing and flushing

  /** The two puts of a persistent publish: the document, then its outbox entry. */
  function Queued(records: Records, v: Version, box: Text): Records {
    records[v.doc.id := Record(v.ts, v.doc, v.collections)][EntryId(v.doc.id) := EntryRecord(v.doc.id, v, box)]
  }

  function Removed(records: Records, es: seq<Entry>): Records {
    if es == [] then records else Removed(records, es[..|es| - 1]) - {es[|es| - 1].id}
  }

  ghost predicate AreEntries(records: Records, es: seq<Entry>) {
    forall i :: 0 <= i < |es| ==>
      es[i].id in records && records[es[i].id].doc.OutboxEntry? && Encodable(records[es[i].id].doc.ts)
  }

  /** The frames a flush sends for these entries, in order. */
  function OutFrames(records: Records, es: seq<Entry>): (frames: seq<Frame>)
    requires AreEntries(records, es)
    ensures |frames| == |es|
    ensures forall i :: 0 <= i < |es| ==>
              frames[i] == OutFrame(records[es[i].id].doc.targetId, VersionOf(records[es[i].id].doc))
  {
    seq(|es|, i requires 0 <= i < |es| =>
      OutFrame(records[es[i].id].doc.targetId, VersionOf(records[es[i].id].doc)))
  }

  lemma ListingIsEntries(records: Records, box: Text)
    requires OutboxOk(records, box)
    ensures AreEntries(records, Listing(records, box))
    ensures forall i :: 0 <= i < |Listing(records, box)| ==>
              var e := Listing(records, box)[i];
              box in records[e.id].collections && records[e.id].ts == e.ts
    ensures forall i, j :: 0 <= i < j < |Listing(records, box)| ==>
              Listing(records, box)[i].id != Listing(records, box)[j].id
  {
    var es := Listing(records, box);
    forall i | 0 <= i < |es|
      ensures Lists(records, box, es[i])
    {
      assert es[i] in es;
    }
    forall i, j | 0 <= i < j < |es|
      ensures es[i].id != es[j].id
    {
      BeforeAsymmetric(es[i], es[j]);
    }
  }

  // ---------------------------------------------------------------- the outbox machine

  /** The client's store, everything handed to the transport, and the latest published version
      of each id (which only the specification keeps). */
  datatype OutState = OutState(records: Records, log: seq<Frame>, published: map<Text, Version>)

  /** The last data frame handed over for an id. */
  function LastSent(log: seq<Frame>, id: Text): Option<Frame> {
    if log == [] then None
    else
      var f := log[|log| - 1];
      if f.Data? && f.id == id then Some(f) else LastSent(log[..|log| - 1], id)
  }

  ghost predicate Waiting(records: Records, id: Text, v: Version, box: Text) {
    EntryId(id) in records && records[EntryId(id)] == EntryRecord(id, v, box)
  }

  ghost predicate Handed(s: OutState, id: Text, v: Version) {
    && EntryId(id) !in s.records && Encodable(v.ts)
    && LastSent(s.log, id) == Some(Data(id, Some(v.doc), v.collections, Some(CursorOf(Entry(v.ts, id)))))
  }

  /** Every published id is either waiting in its latest version, or that version is the last
      thing the transport was given for it. */
  ghost predicate Conserved(s: OutState, box: Text) {
    && OutboxOk(s.records, box)
    && (forall id :: id in s.published ==>
          Waiting(s.records, id, s.published[id], box) || Handed(s, id, s.published[id]))
    && (forall id :: id in s.records && IsEntryId(id) ==> s.records[id].doc.targetId in s.published)
  }

  /** A document and collections that do not impersonate the client's own bookkeeping. */
  predicate Publishable(v: Version, box: Text) {
    && v.doc.id != [] && !IsEntryId(v.doc.id) && !IsCursorId(v.doc.id)
    && box !in v.collections && Encodable(v.ts)
  }

  datatype OutStep =
    | Publish(version: Version, handed: nat)
    | Flush(handed: nat)
    | Control(frames: seq<Frame>)
    | Receive(records: Records)

  /** Same outbox entries before and after, and still nothing else in the outbox collection. */
  ghost predicate OutboxUntouched(before: Records, after: Records, box: Text) {
    && OutboxOk(after, box)
    && (forall id :: IsEntryId(id) ==> (id in before <==> id in after))
    && (forall id :: IsEntryId(id) && id in before ==> after[id] == before[id])
  }

  ghost predicate OutEnabled(s: OutState, box: Text, step: OutStep) {
    match step
    case Publish(v, k) =>
      Publishable(v, box) && OutboxOk(s.records, box) && k <= |Listing(Queued(s.records, v, box), box)|
    case Flush(k) => k <= |Listing(s.records, box)|
    case Control(frames) => forall i :: 0 <= i < |frames| ==> !frames[i].Data?
    case Receive(records) => OutboxUntouched(s.records, records, box)
  }

  /** These entries handed over and deleted, in order. */
  ghost function Drained(s: OutState, es: seq<Entry>): OutState
    requires AreEntries(s.records, es)
  {
    s.(records := Removed(s.records, es), log := s.log + OutFrames(s.records, es))
  }

  ghost function Flushed(s: OutState, box: Text, k: nat): OutState
    requires OutboxOk(s.records, box) && k <= |Listing(s.records, box)|
  {
    ListingIsEntries(s.records, box);
    Drained(s, Listing(s.records, box)[..k])
  }

  ghost function OutNext(s: OutState, box: Text, step: OutStep): OutState
    requires OutboxOk(s.records, box) && OutEnabled(s, box, step)
  {
    match step
    case Publish(v, k) =>
      QueuedOk(s.records, v, box);
      Flushed(OutState(Queued(s.records, v, box), s.log, s.published[v.doc.id := v]), box, k)
    case Flush(k) => Flushed(s, box, k)
    case Control(frames) => s.(log := s.log + frames)
    case Receive(records) => s.(records := records)
  }

  lemma QueuedOk(records: Records, v: Version, box: Text)
    requires OutboxOk(records, box) && Publishable(v, box)
    ensures OutboxOk(Queued(records, v, box), box)
  {
    EntryIdInjective(v.doc.id, v.doc.id);
  }

  /** Queueing replaces the waiting version of the id and touches no other entry. */
  lemma PublishConserves(s: OutState, v: Version, box: Text)
    requires Conserved(s, box) && Publishable(v, box)
    ensures Conserved(OutState(Queued(s.records, v, box), s.log, s.published[v.doc.id := v]), box)
  {
    QueuedOk(s.records, v, box);
    var s' := OutState(Queued(s.records, v, box), s.log, s.published[v.doc.id := v]);
    EntryIdInjective(v.doc.id, v.doc.id);
    forall id | id in s'.published
      ensures Waiting(s'.records, id, s'.published[id], box) || Handed(s', id, s'.published[id])
    {
      EntryIdInjective(id, v.doc.id);
    }
  }

  /** Handing one entry over and deleting it keeps the balance. */
  lemma HandOver(s: OutState, box: Text, e: Text)
    requires Conserved(s, box) && e in s.records && IsEntryId(e)
    ensures var doc := s.records[e].doc;
            Conserved(s.(records := s.records - {e}, log := s.log + [OutFrame(doc.targetId, VersionOf(doc))]), box)
  {
    var doc := s.records[e].doc;
    var f := OutFrame(doc.targetId, VersionOf(doc));
    var s' := s.(records := s.records - {e}, log := s.log + [f]);
    assert (s.log + [f])[..|s.log|] == s.log;
    forall id | id in s'.published
      ensures Waiting(s'.records, id, s.published[id], box) || Handed(s', id, s.published[id])
    {
      EntryIdInjective(id, doc.targetId);
    }
  }

  lemma DrainedSnoc(s: OutState, es: seq<Entry>, k: nat)
    requires AreEntries(s.records, es) && k < |es|
    ensures var e, before := es[k].id, Drained(s, es[..k]);
            && e in s.records && s.records[e].doc.OutboxEntry? && Encodable(s.records[e].doc.ts)
            && Drained(s, es[..k + 1]) == OutState(before.records - {e},
                 before.log + [OutFrame(s.records[e].doc.targetId, VersionOf(s.records[e].doc))], s.published)
  {
    var frames := OutFrames(s.records, es[..k]);
    var doc := s.records[es[k].id].doc;
    var f := OutFrame(doc.targetId, VersionOf(doc));
    assert es[..k + 1][..k] == es[..k];
    assert OutFrames(s.records, es[..k + 1]) == frames + [f];
    Regroup(s.log, frames, [f]);
  }

  lemma FlushNothing(s: OutState, box: Text)
    requires OutboxOk(s.records, box)
    ensures Flushed(s, box, 0) == s
  {
    ListingIsEntries(s.records, box);
    var es := Listing(s.records, box);
    assert es[..0] == [];
    assert s.log + OutFrames(s.records, es[..0]) == s.log;
  }

  /** A flush one entry longer hands over one entry more. */
  lemma FlushOneMore(s: OutState, box: Text, k: nat)
    requires OutboxOk(s.records, box) && k < |Listing(s.records, box)|
    ensures var e := Listing(s.records, box)[k].id;
            && e in s.records && s.records[e].doc.OutboxEntry? && Encodable(s.records[e].doc.ts)
            && Flushed(s, box, k + 1) == OutState(Flushed(s, box, k).records - {e},
                 Flushed(s, box, k).log + [OutFrame(s.records[e].doc.targetId, VersionOf(s.records[e].doc))],
                 s.published)
  {
    ListingIsEntries(s.records, box);
    DrainedSnoc(s, Listing(s.records, box), k);
  }

  lemma {:induction false} RemovedKeeps(records: Records, es: seq<Entry>, id: Text)
    requires id in records && forall i :: 0 <= i < |es| ==> es[i].id != id
    ensures id in Removed(records, es) && Removed(records, es)[id] == records[id]
  {
    if es != [] {
      RemovedKeeps(records, es[..|es| - 1], id);
    }
  }

  /** The entries behind the point where a flush stopped are still there. */
  lemma FlushKeepsSuffix(s: OutState, box: Text, k: nat, i: nat)
    requires OutboxOk(s.records, box) && k <= i < |Listing(s.records, box)|
    ensures var e := Listing(s.records, box)[i].id;
            && e in s.records && e in Flushed(s, box, k).records
            && Flushed(s, box, k).records[e] == s.records[e] && IsEntryId(e)
  {
    ListingIsEntries(s.records, box);
    var es := Listing(s.records, box);
    EntryIdInjective(s.records[es[i].id].doc.targetId, []);
    RemovedKeeps(s.records, es[..k], es[i].id);
  }

  lemma {:induction false} DrainConserves(s: OutState, box: Text, es: seq<Entry>, k: nat)
    requires Conserved(s, box) && AreEntries(s.records, es) && k <= |es|
    requires forall i :: 0 <= i < |es| ==> IsEntryId(es[i].id)
    requires forall i, j :: 0 <= i < j < |es| ==> es[i].id != es[j].id
    ensures Conserved(Drained(s, es[..k]), box)
  {
    if k == 0 {
      assert s.log + OutFrames(s.records, es[..0]) == s.log;
    } else {
      DrainConserves(s, box, es, k - 1);
      RemovedKeeps(s.records, es[..k - 1], es[k - 1].id);
      DrainedSnoc(s, es, k - 1);
      HandOver(Drained(s, es[..k - 1]), box, es[k - 1].id);
    }
  }

  /** A flush that stops anywhere keeps the balance. */
  lemma FlushConserves(s: OutState, box: Text, k: nat)
    requires Conserved(s, box) && k <= |Listing(s.records, box)|
    ensures Conserved(Flushed(s, box, k), box)
  {
    ListingIsEntries(s.records, box);
    var es := Listing(s.records, box);
    forall i | 0 <= i < |es| ensures IsEntryId(es[i].id) {
      EntryIdInjective(s.records[es[i].id].doc.targetId, []);
    }
    DrainConserves(s, box, es, k);
  }

  lemma {:induction false} ControlFramesIgnored(log: seq<Frame>, frames: seq<Frame>, id: Text)
    requires forall i :: 0 <= i < |frames| ==> !frames[i].Data?
    ensures LastSent(log + frames, id) == LastSent(log, id)
  {
    if frames == [] {
      assert log + frames == log;
    } else {
      var n := |frames| - 1;
      assert (log + frames)[..|log + frames| - 1] == log + frames[..n];
      ControlFramesIgnored(log, frames[..n], id);
    }
  }

  /** Every step keeps the balance. */
  lemma OutStepConserves(s: OutState, box: Text, step: OutStep)
    requires Conserved(s, box) && OutEnabled(s, box, step)
    ensures Conserved(OutNext(s, box, step), box)
  {
    match step
    case Publish(v, k) =>
      PublishConserves(s, v, box);
      FlushConserves(OutState(Queued(s.records, v, box), s.log, s.published[v.doc.id := v]), box, k);
    case Flush(k) =>
      FlushConserves(s, box, k);
    case Control(frames) =>
      forall id {
        ControlFramesIgnored(s.log, frames, id);
      }
    case Receive(records) =>
      forall id
        ensures IsEntryId(EntryId(id))
      {
        EntryIdInjective(id, id);
      }
  }

  ghost predicate OutRun(s: OutState, box: Text, steps: seq<OutStep>)
    decreases |steps|
  {
    steps != [] ==>
      && OutboxOk(s.records, box) && OutEnabled(s, box, steps[0])
      && OutRun(OutNext(s, box, steps[0]), box, steps[1..])
  }

  ghost function OutExec(s: OutState, box: Text, steps: seq<OutStep>): OutState
    requires OutRun(s, box, steps)
    decreases |steps|
  {
    if steps == [] then s else OutExec(OutNext(s, box, steps[0]), box, steps[1..])
  }

  /** A new client has published nothing, and has nothing to hand over. */
  lemma NewOutboxConserved(records: Records, box: Text)
    requires forall id :: id in records ==> !Unindexable(records[id])
    requires forall id :: id in records ==> !IsEntryId(id) && box !in records[id].collections
    ensures Conserved(OutState(records, [], map[]), box)
  {
  }

  /** Outbox conservation: over any run of publishes, connects, flushes cut short anywhere, drops
      and incoming frames, no published version is lost or overtaken. */
  lemma {:induction false} OutboxConservation(s: OutState, box: Text, steps: seq<OutStep>)
    requires Conserved(s, box) && OutRun(s, box, steps)
    ensures Conserved(OutExec(s, box, steps), box)
    decreases |steps|
  {
    if steps != [] {
      OutStepConserves(s, box, steps[0]);
      OutboxConservation(OutNext(s, box, steps[0]), box, steps[1..]);
    }
  }

  // ---------------------------------------------------------------- what becomes of a publish

  /** The frame is in the log, and no data frame for its id comes later. */
  ghost predicate LastFor(log: seq<Frame>, f: Frame) {
    exists n: nat :: LastAt(log, f, n)
  }

  ghost predicate LastAt(log: seq<Frame>, f: Frame, n: nat) {
    && f.Data? && n < |log| && log[n] == f
    && forall j :: n < j < |log| && log[j].Data? ==> log[j].id != f.id
  }

  lemma {:induction false} LastSentIs(log: seq<Frame>, id: Text)
    ensures var f := LastSent(log, id); f.Some? ==> f.value.Data? && f.value.id == id && LastFor(log, f.value)
  {
    if log != [] && LastSent(log, id).Some? {
      var n, f := |log| - 1, LastSent(log, id).value;
      var front := log[..n];
      if log[n].Data? && log[n].id == id {
        assert LastAt(log, f, n);
      } else {
        LastSentIs(front, id);
        var m: nat :| LastAt(front, f, m);
        assert forall j :: 0 <= j < n ==> log[j] == front[j];
        assert LastAt(log, f, m);
      }
    }
  }

  lemma {:induction false} PublishedKept(s: OutState, box: Text, steps: seq<OutStep>, id: Text)
    requires OutRun(s, box, steps) && id in s.published
    requires forall i :: 0 <= i < |steps| && steps[i].Publish? ==> steps[i].version.doc.id != id
    ensures id in OutExec(s, box, steps).published && OutExec(s, box, steps).published[id] == s.published[id]
    decreases |steps|
  {
    if steps != [] {
      PublishedKept(OutNext(s, box, steps[0]), box, steps[1..], id);
    }
  }

  lemma {:induction false} PublishedIs(s: OutState, box: Text, steps: seq<OutStep>, i: nat)
    requires OutRun(s, box, steps) && i < |steps| && steps[i].Publish?
    requires forall j :: i < j < |steps| && steps[j].Publish? ==> steps[j].version.doc.id != steps[i].version.doc.id
    ensures var id := steps[i].version.doc.id;
            id in OutExec(s, box, steps).published && OutExec(s, box, steps).published[id] == steps[i].version
    decreases |steps|
  {
    var rest := steps[1..];
    assert forall j :: 0 <= j < |rest| ==> rest[j] == steps[j + 1];
    if i == 0 {
      PublishedKept(OutNext(s, box, steps[0]), box, rest, steps[0].version.doc.id);
    } else {
      PublishedIs(OutNext(s, box, steps[0]), box, rest, i - 1);
    }
  }

  /** Whatever a client does after publishing a version, until it publishes another one of the id: that
      version waits in the outbox, whole, or the last frame handed over for the id carries its id, document,
      collections and cursor, and nothing waits. */
  lemma PublishedArrives(records: Records, box: Text, steps: seq<OutStep>, i: nat)
    requires forall id :: id in records ==>
               !Unindexable(records[id]) && !IsEntryId(id) && box !in records[id].collections
    requires OutRun(OutState(records, [], map[]), box, steps) && i < |steps| && steps[i].Publish?
    requires forall j :: i < j < |steps| && steps[j].Publish? ==> steps[j].version.doc.id != steps[i].version.doc.id
    ensures var t, v := OutExec(OutState(records, [], map[]), box, steps), steps[i].version;
            var id, entry := v.doc.id, OUTBOX_ENTRY_PREFIX + v.doc.id;
            if entry in t.records
            then t.records[entry] == Record(v.ts, OutboxEntry(entry, id, v.doc, v.collections, v.ts), [box])
            else Encodable(v.ts)
                 && LastFor(t.log, Data(id, Some(v.doc), v.collections, Some(CursorOf(Entry(v.ts, id)))))
  {
    var s := OutState(records, [], map[]);
    NewOutboxConserved(records, box);
    OutboxConservation(s, box, steps);
    PublishedIs(s, box, steps, i);
    LastSentIs(OutExec(s, box, steps).log, steps[i].version.doc.id);
  }
}
