/** The durable delivery queue: retry with exponential backoff, on top of the store. */
module DeliveryQueueModel {
  import opened Texts
  import opened Radix
  import opened Documents
  import opened StoreKeys
  import opened StoreModel
  import opened ApStoreModel
  import opened Delivery

  const DEFAULT_MAX_ATTEMPTS := 8
  const BASE_BACKOFF_MS := 30_000
  const MAX_BACKOFF_MS := 6 * 60 * 60 * 1000
  const QUEUE_ENTRY_PREFIX: Text := Ascii("urn:qu:delivery-queue-entry:")
  const QUEUE_DELIM: CodeUnit := 2

  function EntryIdFor(c: Text, activityId: Text): Text {
    QUEUE_ENTRY_PREFIX + c + [QUEUE_DELIM] + activityId
  }

  /** Entry ids as they are written; queues whose collection ids have no delimiter never share one. */
  lemma EntryIdsApart(c: Text, a: Text, d: Text, b: Text)
    ensures EntryIdFor(c, a) == Ascii("urn:qu:delivery-queue-entry:") + c + [2] + a
    ensures Free(c, 2) && Free(d, 2) ==> (EntryIdFor(c, a) == EntryIdFor(d, b) <==> c == d && a == b)
  {
    var p := QUEUE_ENTRY_PREFIX;
    if EntryIdFor(c, a) == EntryIdFor(d, b) && Free(c, 2) && Free(d, 2) {
      assert EntryIdFor(c, a)[|p|..] == c + [QUEUE_DELIM] + a && EntryIdFor(d, b)[|p|..] == d + [QUEUE_DELIM] + b;
      FieldInjective(c, a, d, b, QUEUE_DELIM);
    }
  }

  // ---------------------------------------------------------------- backoff

  function Backoff(attempts: nat): nat
    requires attempts > 0
  {
    var delay := BASE_BACKOFF_MS * Pow(2, attempts - 1);
    if delay < MAX_BACKOFF_MS then delay else MAX_BACKOFF_MS
  }

  lemma {:induction false} SmallPowers(e: nat)
    ensures e <= 9 ==> Pow(2, e) <= 512
    ensures e >= 10 ==> Pow(2, e) >= 1024
  {
    if e <= 9 {
      PowMonotone(2, e, 9);
      assert Pow(2, 5) == 32;
      PowAdd(2, 5, 4);
    } else {
      PowMonotone(2, 10, e);
      assert Pow(2, 5) == 32;
      PowAdd(2, 5, 5);
    }
  }

  /** Delays never shrink, never exceed six hours, and stay below that up to the tenth failure:
      the default eight attempts never meet the cap. */
  lemma BackoffShape(k: nat, m: nat)
    requires 0 < k <= m
    ensures Backoff(k) <= Backoff(m) <= MAX_BACKOFF_MS
    ensures Backoff(k) < MAX_BACKOFF_MS <==> k <= 10
    ensures k < DEFAULT_MAX_ATTEMPTS ==> Backoff(k) == BASE_BACKOFF_MS * Pow(2, k - 1)
  {
    PowMonotone(2, k - 1, m - 1);
    SmallPowers(k - 1);
  }

  /** The least time the first `k` failures take. */
  function Elapsed(k: nat): nat {
    if k == 0 then 0 else Elapsed(k - 1) + Backoff(k)
  }

  lemma {:induction false} ElapsedIs(k: nat)
    ensures k <= 10 ==> Elapsed(k) == BASE_BACKOFF_MS * (Pow(2, k) - 1)
    ensures k >= 10 ==> Elapsed(k) == BASE_BACKOFF_MS * 1023 + (k - 10) * MAX_BACKOFF_MS
  {
    if k > 0 {
      ElapsedIs(k - 1);
      SmallPowers(k - 1);
      if k == 10 {
        assert Pow(2, 5) == 32;
        PowAdd(2, 5, 5);
      }
    }
  }

  // ---------------------------------------------------------------- one entry

  datatype QueueResult =
    | Delivered(id: Text, attempts: nat)
    | GaveUp(id: Text, attempts: nat, lastError: Text)
    | Retrying(id: Text, attempts: nat, lastError: Text, nextAttemptAt: int)

  function NewEntry(c: Text, activityId: Text, activity: Text, recipients: seq<Text>, now: int): Doc {
    QueueEntry(EntryIdFor(c, activityId), activity, recipients, 0, now, None)
  }

  function Failed(e: Doc, error: Text, now: int): Doc
    requires e.QueueEntry?
  {
    e.(attempts := e.attempts + 1, lastError := Some(error), nextAttemptAt := now + Backoff(e.attempts + 1))
  }

  /** What a pass over the queue has done so far; `threw` when a store call has thrown. */
  datatype Pass = Pass(records: Records, results: seq<QueueResult>, threw: bool)

  /** What one attempt at an entry makes of it. */
  function Settle(p: Pass, e: Doc, error: Option<Text>, now: int, c: Text, maxAttempts: int): Pass
    requires e.QueueEntry?
  {
    if error.None? then
      var (records, outcome) := DeleteEffect(p.records, e.id);
      if outcome == Done then Pass(records, p.results + [Delivered(e.id, e.attempts + 1)], false)
      else Pass(records, p.results, true)
    else if e.attempts + 1 >= maxAttempts then
      var (records, outcome) := DeleteEffect(p.records, e.id);
      if outcome == Done then Pass(records, p.results + [GaveUp(e.id, e.attempts + 1, error.value)], false)
      else Pass(records, p.results, true)
    else
      var updated := Failed(e, error.value, now);
      var (records, outcome) := PutEffect(p.records, updated, [c], now);
      if outcome == Done then
        Pass(records, p.results + [Retrying(e.id, updated.attempts, error.value, updated.nextAttemptAt)], false)
      else Pass(records, p.results, true)
  }

  /** An entry that is not due is skipped. */
  function Visit(p: Pass, e: Doc, now: int, worlds: Text -> World, c: Text, maxAttempts: int): Pass
    requires e.QueueEntry?
  {
    if p.threw || e.nextAttemptAt > now then p
    else Settle(p, e, Attempt(e.activity, e.recipients, worlds(e.id)), now, c, maxAttempts)
  }

  predicate AllEntries(es: seq<Doc>) {
    forall i :: 0 <= i < |es| ==> es[i].QueueEntry?
  }

  /** A pass over these entries, in order. */
  function Process(records: Records, es: seq<Doc>, now: int, worlds: Text -> World, c: Text, maxAttempts: int): Pass
    requires AllEntries(es)
  {
    if es == [] then Pass(records, [], false)
    else Visit(Process(records, es[..|es| - 1], now, worlds, c, maxAttempts), es[|es| - 1], now, worlds, c, maxAttempts)
  }

  lemma ProcessOneMore(records: Records, es: seq<Doc>, k: nat, now: int, worlds: Text -> World, c: Text,
        maxAttempts: int)
    requires AllEntries(es) && k < |es|
    ensures Process(records, es[..k + 1], now, worlds, c, maxAttempts)
         == Visit(Process(records, es[..k], now, worlds, c, maxAttempts), es[k], now, worlds, c, maxAttempts)
  {
    assert es[..k + 1][..k] == es[..k];
  }

  /** Nothing but queue entries is filed under the queue's collection. */
  ghost predicate OnlyEntries(records: Records, c: Text) {
    forall id :: id in records && c in records[id].collections ==> records[id].doc.QueueEntry?
  }

  lemma PendingEntries(records: Records, c: Text)
    requires OnlyEntries(records, c)
    ensures AllEntries(Newest(records, c, None))
  {
    var es := NewestEntries(records, c, None);
    assert forall i :: 0 <= i < |es| ==> Lists(records, c, es[i]);
  }

  class DeliveryQueue {
    const store: ApStore
    const collectionId: Text
    const maxAttempts: int

    ghost predicate Valid()
      reads store, store.adapter
    {
      store.Valid() && DelimFree(collectionId) && OnlyEntries(store.records, collectionId)
    }

    constructor (store: ApStore, collectionId: Text, maxAttempts: int)
      requires store.Valid() && DelimFree(collectionId) && OnlyEntries(store.records, collectionId)
      ensures Valid() && this.store == store && this.collectionId == collectionId && this.maxAttempts == maxAttempts
    {
      this.store, this.collectionId, this.maxAttempts := store, collectionId, maxAttempts;
    }

    /** `enqueue`: due at once. */
    method Enqueue(activityId: Text, activity: Text, recipients: seq<Text>, now: int) returns (entry: Doc,
          outcome: Outcome)
      requires Valid()
      modifies store`records, store`emitted, store.adapter
      ensures Valid()
      ensures entry == NewEntry(collectionId, activityId, activity, recipients, now)
      ensures (store.records, outcome) == PutEffect(old(store.records), entry, [collectionId], now)
    {
      entry := QueueEntry(EntryIdFor(collectionId, activityId), activity, recipients, 0, now, None);
      outcome := store.Put(entry, [collectionId], now);
    }

    /** `pending`. */
    method Pending() returns (docs: seq<Doc>)
      requires Valid()
      ensures docs == Newest(store.records, collectionId, None) && AllEntries(docs)
    {
      PendingEntries(store.records, collectionId);
      docs := store.GetChildren(collectionId, None);
    }

    /** One attempt: resolve, then post if there is anywhere to post to. */
    method Try(entry: Doc, world: World) returns (error: Option<Text>)
      requires entry.QueueEntry?
      ensures error == Attempt(entry.activity, entry.recipients, world)
    {
      var inboxes, errors := ResolveInboxes(entry.recipients, world.fetch);
      var results := [];
      if |inboxes| > 0 {
        results := DeliverActivity(entry.activity, inboxes, world.post);
      } else {
        assert ResultsOf(entry.activity, inboxes, world.post) == [];
      }
      error := FailureOf(results, errors);
    }

    /** Success and giving up remove an entry; any other failure puts it back with a later date. */
    method Reschedule(entry: Doc, error: Option<Text>, now: int) returns (results: seq<QueueResult>, threw: bool)
      requires Valid() && entry.QueueEntry?
      modifies store`records, store`emitted, store.adapter
      ensures Valid()
      ensures Pass(store.records, results, threw)
           == Settle(Pass(old(store.records), [], false), entry, error, now, collectionId, maxAttempts)
    {
      var outcome;
      var attempts := entry.attempts + 1;
      if error.None? {
        outcome := store.Delete(entry.id);
        results := [Delivered(entry.id, attempts)];
      } else if attempts >= maxAttempts {
        outcome := store.Delete(entry.id);
        results := [GaveUp(entry.id, attempts, error.value)];
      } else {
        var updated := entry.(attempts := attempts, lastError := error, nextAttemptAt := now + Backoff(attempts));
        outcome := store.Put(updated, [collectionId], now);
        results := [Retrying(entry.id, attempts, error.value, updated.nextAttemptAt)];
      }
      threw := outcome != Done;
      if threw {
        results := [];
      }
    }

    /** `processDue`: every due entry once, newest first. */
    method ProcessDue(now: int, worlds: Text -> World) returns (results: seq<QueueResult>, threw: bool)
      requires Valid()
      modifies store`records, store`emitted, store.adapter
      ensures Valid()
      ensures AllEntries(Newest(old(store.records), collectionId, None))
      ensures Pass(store.records, results, threw)
           == Process(old(store.records), Newest(old(store.records), collectionId, None), now, worlds,
                      collectionId, maxAttempts)
    {
      ghost var before := store.records;
      var entries := Pending();
      results, threw := [], false;
      for i := 0 to |entries|
        invariant Valid() && !threw
        invariant Pass(store.records, results, threw)
               == Process(before, entries[..i], now, worlds, collectionId, maxAttempts)
      {
        ProcessOneMore(before, entries, i, now, worlds, collectionId, maxAttempts);
        if entries[i].nextAttemptAt > now {
          continue;
        }
        var error := Try(entries[i], worlds(entries[i].id));
        SettleAppends(Pass(store.records, results, false), entries[i], error, now, collectionId, maxAttempts);
        var more, failed := Reschedule(entries[i], error, now);
        results, threw := results + more, failed;
        if threw {
          ProcessStopped(before, entries, i + 1, now, worlds, collectionId, maxAttempts);
          return;
        }
      }
      assert entries[..|entries|] == entries;
    }
  }

  lemma SettleAppends(p: Pass, e: Doc, error: Option<Text>, now: int, c: Text, maxAttempts: int)
    requires e.QueueEntry?
    ensures var alone := Settle(p.(results := []), e, error, now, c, maxAttempts);
            Settle(p, e, error, now, c, maxAttempts) == alone.(results := p.results + alone.results)
  {
  }

  /** After an exception the rest of the pass does not happen. */
  lemma {:induction false} ProcessStopped(records: Records, es: seq<Doc>, k: nat, now: int,
        worlds: Text -> World, c: Text, maxAttempts: int)
    requires AllEntries(es) && k <= |es| && Process(records, es[..k], now, worlds, c, maxAttempts).threw
    ensures Process(records, es, now, worlds, c, maxAttempts) == Process(records, es[..k], now, worlds, c, maxAttempts)
    decreases |es| - k
  {
    if k < |es| {
      ProcessOneMore(records, es, k, now, worlds, c, maxAttempts);
      ProcessStopped(records, es, k + 1, now, worlds, c, maxAttempts);
    } else {
      assert es[..k] == es;
    }
  }
}
