/** The delivery queue over whole histories: nothing is lost, nothing is tried too often or too soon. */
module QueueRuns {
  import opened Texts
  import opened Radix
  import opened Cursor
  import opened Documents
  import opened StoreModel
  import opened ApStoreModel
  import opened StoreLaws
  import opened Delivery
  import opened DeliveryQueueModel

  /** What was enqueued, and when. */
  datatype Job = Job(activity: Text, recipients: seq<Text>, at: int)

  /** One attempt: what it reported, when it was made, and what the network answered. */
  datatype Attempted = Attempted(result: QueueResult, now: int, world: World)

  /** The store, what was enqueued under each entry id, and every attempt so far. */
  datatype QueueState = QueueState(records: Records, jobs: map<Text, Job>, log: seq<Attempted>)

  /** `Elsewhere` is anything the rest of the program does to the same store. */
  datatype QueueOp =
    | Enqueue(activityId: Text, activity: Text, recipients: seq<Text>, now: int)
    | ProcessDue(now: int, worlds: Text -> World)
    | Elsewhere(records: Records)

  datatype Params = Params(c: Text, maxAttempts: int)

  predicate IsEntryIdOf(c: Text, id: Text) {
    EntryIdFor(c, []) <= id
  }

  lemma EntryIdInjective(c: Text, a: Text, b: Text)
    ensures EntryIdFor(c, a) == EntryIdFor(c, b) <==> a == b
    ensures IsEntryIdOf(c, EntryIdFor(c, a)) && EntryIdFor(c, a) != []
  {
    var p := EntryIdFor(c, []);
    assert EntryIdFor(c, a) == p + a && EntryIdFor(c, b) == p + b;
    assert (p + a)[|p|..] == a && (p + b)[|p|..] == b;
  }

  // ---------------------------------------------------------------- the ledger

  function Tries(log: seq<Attempted>, id: Text): nat {
    if log == [] then 0
    else Tries(log[..|log| - 1], id) + if log[|log| - 1].result.id == id then 1 else 0
  }

  function LastAttempt(log: seq<Attempted>, id: Text): Option<Attempted> {
    if log == [] then None
    else if log[|log| - 1].result.id == id then Some(log[|log| - 1])
    else LastAttempt(log[..|log| - 1], id)
  }

  /** How many results about `id` were final. */
  function Finals(log: seq<Attempted>, id: Text): nat {
    if log == [] then 0
    else Finals(log[..|log| - 1], id)
         + if log[|log| - 1].result.id == id && !log[|log| - 1].result.Retrying? then 1 else 0
  }

  lemma LogOneMore(log: seq<Attempted>, a: Attempted, id: Text)
    ensures Tries(log + [a], id) == Tries(log, id) + if a.result.id == id then 1 else 0
    ensures Finals(log + [a], id) == Finals(log, id) + if a.result.id == id && !a.result.Retrying? then 1 else 0
    ensures LastAttempt(log + [a], id) == if a.result.id == id then Some(a) else LastAttempt(log, id)
  {
    assert (log + [a])[..|log|] == log;
  }

  function AtLeastOne(maxAttempts: int): nat {
    if maxAttempts < 1 then 1 else maxAttempts
  }

  /** Due at once when never tried; afterwards at the time of the last attempt and its backoff, with the
      error that attempt reported. */
  ghost predicate Dated(entry: Doc, job: Job, last: Option<Attempted>)
    requires entry.QueueEntry?
  {
    match last
    case None => entry.attempts == 0 && entry.nextAttemptAt == job.at && entry.lastError == None
    case Some(a) =>
      && a.result.Retrying? && entry.attempts == a.result.attempts > 0
      && entry.nextAttemptAt == a.result.nextAttemptAt == a.now + Backoff(entry.attempts)
      && entry.lastError == Some(a.result.lastError)
  }

  /** The entry is in the store with the activity and recipients it was enqueued with, has failed as
      often as the log says and not yet too often, and its next attempt is when the last one put it. */
  ghost predicate Pending(s: QueueState, q: Params, id: Text)
    requires id in s.jobs
  {
    id in s.records &&
    var r, job := s.records[id], s.jobs[id];
    && r.doc.QueueEntry? && r.doc.id == id && r.collections == [q.c] && Encodable(r.ts)
    && r.doc.activity == job.activity && r.doc.recipients == job.recipients
    && r.doc.attempts == Tries(s.log, id) < AtLeastOne(q.maxAttempts) && Finals(s.log, id) == 0
    && Dated(r.doc, job, LastAttempt(s.log, id))
    && r.doc.nextAttemptAt >= job.at + Elapsed(r.doc.attempts)
  }

  /** The entry is gone, and the log says once, and last, what became of it. */
  ghost predicate Settled(s: QueueState, q: Params, id: Text) {
    && id !in s.records && Finals(s.log, id) == 1
    && var last := LastAttempt(s.log, id);
    && last.Some? && !last.value.result.Retrying?
    && last.value.result.attempts == Tries(s.log, id) <= AtLeastOne(q.maxAttempts)
    && (last.value.result.GaveUp? ==> last.value.result.attempts == AtLeastOne(q.maxAttempts))
  }

  /** The attempt was a delivery exactly when every recipient, as enqueued, resolved and accepted the activity,
      as enqueued; any other reports the error of that attempt. */
  ghost predicate Truthful(a: Attempted, job: Job) {
    && (a.result.Delivered? <==>
          forall i: nat :: i < |job.recipients| ==> Served(a.world, job.activity, job.recipients, i))
    && (!a.result.Delivered? ==> Attempt(job.activity, job.recipients, a.world) == Some(a.result.lastError))
  }

  /** Every enqueued entry is pending or settled, never both, the queue holds no other, and every attempt
      was reported for what it was. */
  ghost predicate Balanced(s: QueueState, q: Params) {
    && (forall id :: id in s.jobs ==> IsEntryIdOf(q.c, id) && (Pending(s, q, id) || Settled(s, q, id)))
    && (forall id :: id in s.records && (IsEntryIdOf(q.c, id) || q.c in s.records[id].collections) ==>
          id in s.jobs)
    && (forall a :: a in s.log ==> a.result.id in s.jobs && Truthful(a, s.jobs[a.result.id]))
  }

  // ---------------------------------------------------------------- the machine

  ghost predicate Enabled(s: QueueState, q: Params, op: QueueOp) {
    match op
    case Enqueue(activityId, _, _, now) => Encodable(now) && EntryIdFor(q.c, activityId) !in s.jobs
    case ProcessDue(now, _) => Encodable(now) && OnlyEntries(s.records, q.c)
    case Elsewhere(records) =>
      forall id :: IsEntryIdOf(q.c, id) || (id in records && q.c in records[id].collections) ==>
        (id in records <==> id in s.records) && (id in records ==> records[id] == s.records[id])
  }

  ghost function PassOver(s: QueueState, q: Params, now: int, worlds: Text -> World): Pass
    requires OnlyEntries(s.records, q.c)
  {
    PendingEntries(s.records, q.c);
    Process(s.records, Newest(s.records, q.c, None), now, worlds, q.c, q.maxAttempts)
  }

  ghost function Next(s: QueueState, q: Params, op: QueueOp): QueueState
    requires Enabled(s, q, op)
  {
    match op
    case Enqueue(activityId, activity, recipients, now) =>
      var entry := NewEntry(q.c, activityId, activity, recipients, now);
      s.(records := PutEffect(s.records, entry, [q.c], now).0,
         jobs := s.jobs[entry.id := Job(activity, recipients, now)])
    case ProcessDue(now, worlds) =>
      After(s, PassOver(s, q, now, worlds), now, worlds)
    case Elsewhere(records) => s.(records := records)
  }

  function Attempts(results: seq<QueueResult>, now: int, worlds: Text -> World): (attempts: seq<Attempted>)
    ensures |attempts| == |results|
    ensures forall i :: 0 <= i < |results| ==> attempts[i] == Attempted(results[i], now, worlds(results[i].id))
  {
    seq(|results|, i requires 0 <= i < |results| => Attempted(results[i], now, worlds(results[i].id)))
  }

  function After(s: QueueState, p: Pass, now: int, worlds: Text -> World): QueueState {
    s.(records := p.records, log := s.log + Attempts(p.results, now, worlds))
  }

  // ---------------------------------------------------------------- one step keeps the balance

  lemma {:induction false} NeverMentioned(log: seq<Attempted>, id: Text)
    requires forall a :: a in log ==> a.result.id != id
    ensures Tries(log, id) == 0 && Finals(log, id) == 0 && LastAttempt(log, id) == None
  {
    if log != [] {
      assert log[|log| - 1] in log;
      NeverMentioned(log[..|log| - 1], id);
    }
  }

  lemma EnqueueKeeps(s: QueueState, q: Params, op: QueueOp)
    requires Balanced(s, q) && op.Enqueue? && Enabled(s, q, op)
    ensures Balanced(Next(s, q, op), q)
  {
    var entry, s' := NewEntry(q.c, op.activityId, op.activity, op.recipients, op.now), Next(s, q, op);
    EntryIdInjective(q.c, op.activityId, op.activityId);
    assert entry.id !in s.records;
    assert s'.records == s.records[entry.id := Record(op.now, entry, [q.c])];
    NeverMentioned(s.log, entry.id);
    assert Pending(s', q, entry.id);
    forall id | id in s.jobs ensures Pending(s', q, id) || Settled(s', q, id) {
      assert Pending(s, q, id) ==> Pending(s', q, id);
    }
  }

  /** The step with one more attempt about `id` and `id`'s record changed, and nothing else. */
  ghost predicate OneResult(s: QueueState, s': QueueState, id: Text, a: Attempted) {
    && a.result.id == id && s'.log == s.log + [a] && s'.jobs == s.jobs
    && s'.records - {id} == s.records - {id}
  }

  lemma OthersUnmoved(s: QueueState, s': QueueState, q: Params, id: Text, a: Attempted, other: Text)
    requires OneResult(s, s', id, a) && other != id && other in s.jobs
    ensures Pending(s, q, other) ==> Pending(s', q, other)
    ensures Settled(s, q, other) ==> Settled(s', q, other)
  {
    LogOneMore(s.log, a, other);
    assert other in s.records <==> other in s.records - {id};
    assert other in s'.records <==> other in s'.records - {id};
    assert other in s.records ==> s.records[other] == (s.records - {id})[other] == (s'.records - {id})[other];
  }

  lemma OneResultKeeps(s: QueueState, s': QueueState, q: Params, id: Text, a: Attempted)
    requires Balanced(s, q) && id in s.jobs && OneResult(s, s', id, a) && Truthful(a, s.jobs[id])
    requires Pending(s', q, id) || Settled(s', q, id)
    ensures Balanced(s', q)
  {
    forall other | other in s'.jobs ensures Pending(s', q, other) || Settled(s', q, other) {
      if other != id {
        OthersUnmoved(s, s', q, id, a, other);
      }
    }
    forall other | other in s'.records && (IsEntryIdOf(q.c, other) || q.c in s'.records[other].collections)
      ensures other in s'.jobs
    {
      if other != id {
        assert other in s'.records - {id} && s'.records[other] == (s'.records - {id})[other];
      }
    }
  }

  lemma Dropped(s: QueueState, s': QueueState, q: Params, id: Text, a: Attempted)
    requires id in s.jobs && Pending(s, q, id) && OneResult(s, s', id, a)
    requires id !in s'.records && !a.result.Retrying? && a.result.attempts == s.records[id].doc.attempts + 1
    requires a.result.GaveUp? ==> a.result.attempts >= q.maxAttempts
    ensures Settled(s', q, id)
  {
    LogOneMore(s.log, a, id);
  }

  /** Put back as it was enqueued, with one failure more. */
  lemma PutBack(s: QueueState, s': QueueState, q: Params, id: Text, a: Attempted)
    requires id in s.jobs && Pending(s, q, id) && OneResult(s, s', id, a) && Encodable(a.now)
    requires var e, k := s.records[id].doc, s.records[id].doc.attempts + 1;
             && a.result.Retrying? && e.nextAttemptAt <= a.now && k < q.maxAttempts && id in s'.records
             && s'.records[id] == Record(a.now, QueueEntry(id, e.activity, e.recipients, k, a.now + Backoff(k),
                                                           Some(a.result.lastError)), [q.c])
             && a.result == Retrying(id, k, a.result.lastError, a.now + Backoff(k))
    ensures Pending(s', q, id)
  {
    LogOneMore(s.log, a, id);
  }

  lemma IsTruthful(a: Attempted, job: Job, error: Option<Text>)
    requires error == Attempt(job.activity, job.recipients, a.world)
    requires a.result.Delivered? <==> error.None?
    requires !a.result.Delivered? ==> error == Some(a.result.lastError)
    ensures Truthful(a, job)
  {
    AttemptSucceeds(job.activity, job.recipients, a.world);
  }

  /** What an attempt does to the record of an entry: taken out, or put back with one failure more. */
  ghost predicate Moved(before: Records, p: Pass, e: Doc, error: Option<Text>, now: int, q: Params)
    requires e.QueueEntry?
  {
    && !p.threw && |p.results| == 1
    && var r, k := p.results[0], e.attempts + 1;
    && r.id == e.id && r.attempts == k && (r.Delivered? <==> error.None?)
    && (!r.Delivered? ==> error == Some(r.lastError) && (r.GaveUp? <==> k >= q.maxAttempts))
    && if r.Retrying?
       then && r.nextAttemptAt == now + Backoff(k)
            && p.records == before[e.id := Record(now, QueueEntry(e.id, e.activity, e.recipients, k, now + Backoff(k),
                                                                  error), [q.c])]
       else p.records == before - {e.id}
  }

  lemma SettleIs(before: Records, e: Doc, error: Option<Text>, now: int, q: Params)
    requires e.QueueEntry? && e.id != [] && e.id in before && !Unindexable(before[e.id]) && Encodable(now)
    ensures Moved(before, Settle(Pass(before, [], false), e, error, now, q.c, q.maxAttempts), e, error, now, q)
  {
  }

  /** What an attempt does to a pending entry. */
  lemma SettleMoves(s: QueueState, q: Params, id: Text, now: int, worlds: Text -> World)
    requires Balanced(s, q) && id in s.jobs && Pending(s, q, id) && Encodable(now)
    requires s.records[id].doc.nextAttemptAt <= now
    ensures var e := s.records[id].doc;
            var p := Settle(Pass(s.records, [], false), e, Attempt(e.activity, e.recipients, worlds(id)), now, q.c,
                            q.maxAttempts);
            && !p.threw && |p.results| == 1
            && var a, s' := Attempted(p.results[0], now, worlds(id)), After(s, p, now, worlds);
            && OneResult(s, s', id, a) && Truthful(a, s.jobs[id]) && (Pending(s', q, id) || Settled(s', q, id))
  {
    var e := s.records[id].doc;
    var error := Attempt(e.activity, e.recipients, worlds(id));
    var p := Settle(Pass(s.records, [], false), e, error, now, q.c, q.maxAttempts);
    EntryIdInjective(q.c, [], []);
    SettleIs(s.records, e, error, now, q);
    MovedKeeps(s, q, id, error, now, worlds, p);
  }

  lemma MovedKeeps(s: QueueState, q: Params, id: Text, error: Option<Text>, now: int, worlds: Text -> World, p: Pass)
    requires id in s.jobs && Pending(s, q, id) && Encodable(now) && s.records[id].doc.nextAttemptAt <= now
    requires error == Attempt(s.jobs[id].activity, s.jobs[id].recipients, worlds(id))
    requires Moved(s.records, p, s.records[id].doc, error, now, q)
    ensures var a, s' := Attempted(p.results[0], now, worlds(id)), After(s, p, now, worlds);
            && OneResult(s, s', id, a) && Truthful(a, s.jobs[id]) && (Pending(s', q, id) || Settled(s', q, id))
  {
    var a, s' := Attempted(p.results[0], now, worlds(id)), After(s, p, now, worlds);
    IsTruthful(a, s.jobs[id], error);
    assert Attempts(p.results, now, worlds) == [a];
    if a.result.Retrying? {
      PutBack(s, s', q, id, a);
    } else {
      Dropped(s, s', q, id, a);
    }
  }

  lemma VisitKeeps(s: QueueState, q: Params, id: Text, now: int, worlds: Text -> World)
    requires Balanced(s, q) && id in s.jobs && Pending(s, q, id) && Encodable(now)
    ensures var p := Visit(Pass(s.records, [], false), s.records[id].doc, now, worlds, q.c, q.maxAttempts);
            !p.threw && Balanced(After(s, p, now, worlds), q) && p.records - {id} == s.records - {id}
  {
    var e := s.records[id].doc;
    if e.nextAttemptAt > now {
      assert s.log + Attempts([], now, worlds) == s.log;
    } else {
      var p := Visit(Pass(s.records, [], false), e, now, worlds, q.c, q.maxAttempts);
      SettleMoves(s, q, id, now, worlds);
      OneResultKeeps(s, After(s, p, now, worlds), q, id, Attempted(p.results[0], now, worlds(id)));
    }
  }

  // ---------------------------------------------------------------- a whole pass keeps the balance

  /** The documents listed are pending entries, each once. */
  ghost predicate Listed(s: QueueState, q: Params, es: seq<Doc>) {
    && (forall i, j :: 0 <= i < j < |es| ==> es[i].id != es[j].id)
    && (forall i :: 0 <= i < |es| ==> Still(s, es[i]))
  }

  ghost predicate Still(s: QueueState, e: Doc) {
    e.QueueEntry? && e.id in s.records && s.records[e.id].doc == e && e.id in s.jobs
  }

  lemma ListedOnce(records: Records, c: Text)
    ensures forall e, f :: e in Listing(records, c) && f in Listing(records, c) && e.id == f.id ==> e == f
  {
  }

  lemma OrderedDistinct(es: seq<Entry>)
    requires InOrder(es) && forall e, f :: e in es && f in es && e.id == f.id ==> e == f
    ensures forall i, j :: 0 <= i < j < |es| ==> es[i].id != es[j].id
  {
    forall i, j | 0 <= i < j < |es| ensures es[i].id != es[j].id {
      assert es[i] in es && es[j] in es;
      BeforeAsymmetric(es[i], es[j]);
    }
  }

  lemma ReversedDistinct(es: seq<Entry>, all: seq<Entry>)
    requires |es| == |all| && forall i :: 0 <= i < |es| ==> es[i] == all[|all| - 1 - i]
    requires forall i, j :: 0 <= i < j < |all| ==> all[i].id != all[j].id
    ensures forall i, j :: 0 <= i < j < |es| ==> es[i].id != es[j].id
  {
    forall i, j | 0 <= i < j < |es| ensures es[i].id != es[j].id {
      var a, b := |all| - 1 - i, |all| - 1 - j;
      assert es[i] == all[a] && es[j] == all[b] && b < a;
    }
  }

  lemma NewestDistinct(records: Records, c: Text)
    ensures var es := NewestEntries(records, c, None);
            forall i, j :: 0 <= i < j < |es| ==> es[i].id != es[j].id
  {
    ListedOnce(records, c);
    OrderedDistinct(Listing(records, c));
    NewestAt(records, c, None);
    ReversedDistinct(NewestEntries(records, c, None), Listing(records, c));
  }

  lemma BalancedOnlyEntries(s: QueueState, q: Params)
    requires Balanced(s, q)
    ensures OnlyEntries(s.records, q.c)
  {
    forall id | id in s.records && q.c in s.records[id].collections ensures s.records[id].doc.QueueEntry? {
      assert Pending(s, q, id) || Settled(s, q, id);
    }
  }

  lemma NewestListed(s: QueueState, q: Params)
    requires Balanced(s, q)
    ensures OnlyEntries(s.records, q.c) && Listed(s, q, Newest(s.records, q.c, None))
  {
    BalancedOnlyEntries(s, q);
    NewestDistinct(s.records, q.c);
    var es, docs := NewestEntries(s.records, q.c, None), Newest(s.records, q.c, None);
    forall i | 0 <= i < |es| ensures Still(s, docs[i]) && docs[i].id == es[i].id {
      assert Lists(s.records, q.c, es[i]);
      assert Pending(s, q, es[i].id) || Settled(s, q, es[i].id);
    }
  }

  /** The state after the first `k` entries of a pass: still balanced, later entries untouched. */
  lemma {:induction false} ProcessKeeps(s: QueueState, q: Params, es: seq<Doc>, k: nat, now: int, worlds: Text -> World)
    requires Balanced(s, q) && Listed(s, q, es) && AllEntries(es) && k <= |es| && Encodable(now)
    ensures var p := Process(s.records, es[..k], now, worlds, q.c, q.maxAttempts);
            && !p.threw && Balanced(After(s, p, now, worlds), q)
            && forall j :: k <= j < |es| ==> Still(After(s, p, now, worlds), es[j])
  {
    if k == 0 {
      assert s.log + Attempts([], now, worlds) == s.log;
    } else {
      ProcessKeeps(s, q, es, k - 1, now, worlds);
      ProcessOneMore(s.records, es, k - 1, now, worlds, q.c, q.maxAttempts);
      VisitInPass(s, Process(s.records, es[..k - 1], now, worlds, q.c, q.maxAttempts), q, es, k - 1, now, worlds);
    }
  }

  lemma VisitInPass(s: QueueState, p: Pass, q: Params, es: seq<Doc>, k: nat, now: int, worlds: Text -> World)
    requires !p.threw && Balanced(After(s, p, now, worlds), q) && AllEntries(es) && k < |es| && Encodable(now)
    requires forall i, j :: 0 <= i < j < |es| ==> es[i].id != es[j].id
    requires forall j :: k <= j < |es| ==> Still(After(s, p, now, worlds), es[j])
    ensures var p' := Visit(p, es[k], now, worlds, q.c, q.maxAttempts);
            && !p'.threw && Balanced(After(s, p', now, worlds), q)
            && forall j :: k < j < |es| ==> Still(After(s, p', now, worlds), es[j])
  {
    var mid, e := After(s, p, now, worlds), es[k];
    var p' := Visit(p, e, now, worlds, q.c, q.maxAttempts);
    var alone := Visit(Pass(mid.records, [], false), e, now, worlds, q.c, q.maxAttempts);
    assert Still(mid, e);
    assert Pending(mid, q, e.id) || Settled(mid, q, e.id);
    VisitKeeps(mid, q, e.id, now, worlds);
    SettleAppends(p, e, Attempt(e.activity, e.recipients, worlds(e.id)), now, q.c, q.maxAttempts);
    AfterAppends(s, p, alone, p', now, worlds);
    forall j | k < j < |es| ensures Still(After(s, p', now, worlds), es[j]) {
      assert Still(mid, es[j]) && es[j].id != e.id;
      StillThere(mid, After(s, p', now, worlds), e.id, es[j]);
    }
  }

  lemma AfterAppends(s: QueueState, p: Pass, alone: Pass, p': Pass, now: int, worlds: Text -> World)
    requires p'.records == alone.records && p'.results == p.results + alone.results
    ensures After(s, p', now, worlds) == After(After(s, p, now, worlds), alone, now, worlds)
  {
    assert Attempts(p'.results, now, worlds) == Attempts(p.results, now, worlds) + Attempts(alone.results, now, worlds);
    Regroup(s.log, Attempts(p.results, now, worlds), Attempts(alone.results, now, worlds));
  }

  lemma StillThere(s: QueueState, s': QueueState, id: Text, e: Doc)
    requires Still(s, e) && e.id != id && s'.jobs == s.jobs && s'.records - {id} == s.records - {id}
    ensures Still(s', e)
  {
    assert e.id in s.records - {id} && (s.records - {id})[e.id] == s.records[e.id];
    assert (s'.records - {id})[e.id] == s'.records[e.id];
  }

  lemma ProcessDueKeeps(s: QueueState, q: Params, op: QueueOp)
    requires Balanced(s, q) && op.ProcessDue? && Enabled(s, q, op)
    ensures Balanced(Next(s, q, op), q) && !PassOver(s, q, op.now, op.worlds).threw
  {
    var es := Newest(s.records, q.c, None);
    NewestListed(s, q);
    PendingEntries(s.records, q.c);
    ProcessKeeps(s, q, es, |es|, op.now, op.worlds);
    assert es[..|es|] == es;
  }

  lemma ElsewhereKeeps(s: QueueState, q: Params, op: QueueOp)
    requires Balanced(s, q) && op.Elsewhere? && Enabled(s, q, op)
    ensures Balanced(Next(s, q, op), q)
  {
    var s' := s.(records := op.records);
    forall id | id in s.jobs ensures Pending(s', q, id) || Settled(s', q, id) {
      assert Pending(s, q, id) ==> Pending(s', q, id);
      assert Settled(s, q, id) ==> Settled(s', q, id);
    }
  }

  /** No operation upsets the balance, and no pass throws. */
  lemma StepKeeps(s: QueueState, q: Params, op: QueueOp)
    requires Balanced(s, q) && Enabled(s, q, op)
    ensures Balanced(Next(s, q, op), q)
    ensures op.ProcessDue? ==> !PassOver(s, q, op.now, op.worlds).threw
  {
    match op
    case Enqueue(_, _, _, _) => EnqueueKeeps(s, q, op);
    case ProcessDue(_, _) => ProcessDueKeeps(s, q, op);
    case Elsewhere(_) => ElsewhereKeeps(s, q, op);
  }

  // ---------------------------------------------------------------- what a pass reports

  /** A result is about a due entry, counts one attempt more, and is a delivery exactly when every
      recipient resolved and every inbox accepted. */
  ghost predicate Reports(e: Doc, r: QueueResult, now: int, worlds: Text -> World) {
    && e.QueueEntry? && r.id == e.id && e.nextAttemptAt <= now && r.attempts == e.attempts + 1
    && (r.Delivered? <==> forall i: nat :: i < |e.recipients| ==> Served(worlds(e.id), e.activity, e.recipients, i))
  }

  ghost predicate Reported(es: seq<Doc>, r: QueueResult, now: int, worlds: Text -> World) {
    exists e :: e in es && Reports(e, r, now, worlds)
  }

  lemma {:induction false} ResultsReport(records: Records, es: seq<Doc>, now: int, worlds: Text -> World,
        c: Text, maxAttempts: int, r: QueueResult)
    requires AllEntries(es) && r in Process(records, es, now, worlds, c, maxAttempts).results
    ensures Reported(es, r, now, worlds)
  {
    var n := |es| - 1;
    var front, last := es[..n], es[n];
    assert es == front + [last];
    if r in Process(records, front, now, worlds, c, maxAttempts).results {
      ResultsReport(records, front, now, worlds, c, maxAttempts, r);
      var e :| e in front && Reports(e, r, now, worlds);
      assert e in es;
    } else {
      AttemptSucceeds(last.activity, last.recipients, worlds(last.id));
      assert Reports(last, r, now, worlds);
    }
  }

  ghost predicate HasReport(results: seq<QueueResult>, e: Doc, now: int, worlds: Text -> World) {
    exists r :: r in results && Reports(e, r, now, worlds)
  }

  /** And every due entry is reported on. */
  lemma {:induction false} DueAreReported(records: Records, es: seq<Doc>, now: int, worlds: Text -> World,
        c: Text, maxAttempts: int, e: Doc)
    requires AllEntries(es) && !Process(records, es, now, worlds, c, maxAttempts).threw
    requires e in es && e.nextAttemptAt <= now
    ensures HasReport(Process(records, es, now, worlds, c, maxAttempts).results, e, now, worlds)
  {
    var n := |es| - 1;
    var front, last := es[..n], es[n];
    assert es == front + [last];
    var before := Process(records, front, now, worlds, c, maxAttempts);
    var p := Process(records, es, now, worlds, c, maxAttempts);
    if e in front {
      DueAreReported(records, front, now, worlds, c, maxAttempts, e);
      var r :| r in before.results && Reports(e, r, now, worlds);
      assert r in p.results;
    } else {
      AttemptSucceeds(last.activity, last.recipients, worlds(last.id));
      assert Reports(last, p.results[|p.results| - 1], now, worlds);
    }
  }

  /** The attempt reported comes no earlier than the failures before it allow. */
  ghost predicate Late(s: QueueState, r: QueueResult, now: int) {
    && r.id in s.jobs && r.attempts > 0
    && var k := r.attempts - 1;
    && now >= s.jobs[r.id].at + Elapsed(k)
    && (k <= 10 ==> now >= s.jobs[r.id].at + BASE_BACKOFF_MS * (Pow(2, k) - 1))
  }

  lemma ReportIsLate(s: QueueState, q: Params, e: Doc, r: QueueResult, now: int, worlds: Text -> World)
    requires Balanced(s, q) && Still(s, e) && Reports(e, r, now, worlds)
    ensures Late(s, r, now)
  {
    assert Pending(s, q, r.id) || Settled(s, q, r.id);
    ElapsedIs(e.attempts);
  }

  /** No attempt comes before the backoff of the failures so far has passed. */
  lemma AttemptsAreLate(s: QueueState, q: Params, op: QueueOp)
    requires Balanced(s, q) && op.ProcessDue? && Enabled(s, q, op)
    ensures forall r :: r in PassOver(s, q, op.now, op.worlds).results ==> Late(s, r, op.now)
  {
    var es := Newest(s.records, q.c, None);
    NewestListed(s, q);
    PendingEntries(s.records, q.c);
    forall r | r in PassOver(s, q, op.now, op.worlds).results
      ensures Late(s, r, op.now)
    {
      ResultsReport(s.records, es, op.now, op.worlds, q.c, q.maxAttempts, r);
      var e :| e in es && Reports(e, r, op.now, op.worlds);
      assert Still(s, e);
      ReportIsLate(s, q, e, r, op.now, op.worlds);
    }
  }

  // ---------------------------------------------------------------- runs

  ghost predicate IsRun(s: QueueState, q: Params, ops: seq<QueueOp>)
    decreases |ops|
  {
    ops != [] ==> Enabled(s, q, ops[0]) && IsRun(Next(s, q, ops[0]), q, ops[1..])
  }

  ghost function Exec(s: QueueState, q: Params, ops: seq<QueueOp>): QueueState
    requires IsRun(s, q, ops)
    decreases |ops|
  {
    if ops == [] then s else Exec(Next(s, q, ops[0]), q, ops[1..])
  }

  /** A queue that nothing has been enqueued in yet, whatever else the store holds. */
  lemma NewQueueBalanced(records: Records, q: Params)
    requires forall id :: id in records ==> !IsEntryIdOf(q.c, id) && q.c !in records[id].collections
    ensures Balanced(QueueState(records, map[], []), q)
  {
  }

  /** Conservation and termination: over any history every enqueued entry is pending, delivered or
      given up, exactly one of them, and tried at most the allowed number of times. */
  lemma {:induction false} QueueConservation(s: QueueState, q: Params, ops: seq<QueueOp>)
    requires Balanced(s, q) && IsRun(s, q, ops)
    ensures Balanced(Exec(s, q, ops), q)
    decreases |ops|
  {
    if ops != [] {
      StepKeeps(s, q, ops[0]);
      QueueConservation(Next(s, q, ops[0]), q, ops[1..]);
    }
  }

  // ---------------------------------------------------------------- what becomes of an enqueued activity

  lemma {:induction false} JobKept(s: QueueState, q: Params, ops: seq<QueueOp>, id: Text)
    requires IsRun(s, q, ops) && id in s.jobs
    ensures id in Exec(s, q, ops).jobs && Exec(s, q, ops).jobs[id] == s.jobs[id]
    decreases |ops|
  {
    if ops != [] {
      JobKept(Next(s, q, ops[0]), q, ops[1..], id);
    }
  }

  lemma {:induction false} JobIs(s: QueueState, q: Params, ops: seq<QueueOp>, i: nat)
    requires IsRun(s, q, ops) && i < |ops| && ops[i].Enqueue?
    ensures var id := EntryIdFor(q.c, ops[i].activityId);
            id in Exec(s, q, ops).jobs
            && Exec(s, q, ops).jobs[id] == Job(ops[i].activity, ops[i].recipients, ops[i].now)
    decreases |ops|
  {
    if i == 0 {
      JobKept(Next(s, q, ops[0]), q, ops[1..], EntryIdFor(q.c, ops[0].activityId));
    } else {
      JobIs(Next(s, q, ops[0]), q, ops[1..], i - 1);
    }
  }

  lemma {:induction false} LastAttemptIs(log: seq<Attempted>, id: Text)
    ensures var last := LastAttempt(log, id); last.Some? ==> last.value in log && last.value.result.id == id
  {
    if log != [] {
      assert log == log[..|log| - 1] + [log[|log| - 1]];
      LastAttemptIs(log[..|log| - 1], id);
    }
  }

  /** Whatever happens after an activity is enqueued: its entry waits with that very activity and those
      recipients, each failure counted; or it is gone, and its last attempt delivered that activity to every
      one of those recipients, or did not and was the last one allowed. */
  lemma EnqueuedArrives(s: QueueState, q: Params, ops: seq<QueueOp>, i: nat)
    requires Balanced(s, q) && IsRun(s, q, ops) && i < |ops| && ops[i].Enqueue?
    ensures var t, id := Exec(s, q, ops), EntryIdFor(q.c, ops[i].activityId);
            var last, activity, recipients := LastAttempt(t.log, id), ops[i].activity, ops[i].recipients;
            if id in t.records
            then && t.records[id].collections == [q.c]
                 && var k := Tries(t.log, id);
                 && (k == 0 ==> t.records[id].doc == QueueEntry(id, activity, recipients, 0, ops[i].now, None))
                 && (k > 0 ==>
                       && last.Some? && last.value.result.Retrying?
                       && t.records[id].doc == QueueEntry(id, activity, recipients, k, last.value.now + Backoff(k),
                                                          Some(last.value.result.lastError)))
            else && last.Some? && !last.value.result.Retrying?
                 && (last.value.result.Delivered? <==>
                       forall j: nat :: j < |recipients| ==> Served(last.value.world, activity, recipients, j))
                 && (!last.value.result.Delivered? ==> Tries(t.log, id) == AtLeastOne(q.maxAttempts))
  {
    var t, id := Exec(s, q, ops), EntryIdFor(q.c, ops[i].activityId);
    QueueConservation(s, q, ops);
    JobIs(s, q, ops, i);
    LastAttemptIs(t.log, id);
    assert Pending(t, q, id) || Settled(t, q, id);
  }
}
