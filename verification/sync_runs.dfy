/** Whole runs of the protocol. */
module SyncRuns {
  import opened Texts
  import opened Cursor
  import opened Documents
  import opened StoreModel
  import opened Frames
  import opened ResumeModel
  import opened Replicas
  import opened SyncSafety
  import opened SyncReplays
  import opened SyncProtocol

  /** The connection as both ends see it: the server has processed the subscriptions
      (`Attached`), the client has read its cursors and sent them (`Asked`), the server has
      answered (`Live`). */
  datatype Link = Offline | Attached | Asked(since: Cursors) | Live

  /** `down` holds the frames sent to the client and not yet delivered. The last two only record
      history: the cursors given out, and the documents that have left the subscribed collections. */
  datatype Sys = Sys(server: Records, replica: Replica, link: Link, down: seq<Frame>, issued: Issued,
                     gone: set<Text>)

  /** `Put` files a document in any collections, which may not be where it was before. `Elsewhere` is
      anything else the server does that puts nothing into a subscribed collection. */
  datatype Step =
    | Put(doc: Doc, cs: seq<Text>, ts: int)
    | Delete(id: Text)
    | Elsewhere(records: Records)
    | Attach
    | Ask
    | Answer
    | Deliver
    | Drop

  /** A step that can happen. Puts may come with cursors in any order and at any moment. */
  ghost predicate Feasible(s: Sys, subs: seq<Text>, step: Step) {
    match step
    case Put(doc, cs, ts) => Storable(s.server, doc, ts)
    case Delete(id) => id in s.server && Watched(s.server[id], subs)
    case Elsewhere(records) => NoneAdded(s.server, records, subs)
    case Attach => s.link.Offline?
    case Ask => s.link.Attached?
    case Answer => s.link.Asked?
    case Deliver => s.down != []
    case Drop => !s.link.Offline?
  }

  /** The live frame the bridge sends for a put, if building it does not throw. */
  function Broadcast(doc: Doc, cs: seq<Text>, ts: int): seq<Frame> {
    var frame := BuildDataFrame(Change(doc.id, Some(doc), cs, Some(ts)));
    if frame.None? then [] else [frame.value]
  }

  /** The documents that were in subscribed collections and no longer are. */
  ghost function Leaving(server: Records, server': Records, subs: seq<Text>): set<Text> {
    set id | id in server && Watched(server[id], subs) && !(id in server' && Watched(server'[id], subs))
  }

  /** A put at the server: stored, and sent to a connected peer. */
  ghost function AfterPut(s: Sys, subs: seq<Text>, doc: Doc, cs: seq<Text>, ts: int): Sys
    requires Encodable(ts)
  {
    var server := Stored(s.server, doc, cs, ts);
    var concerned := !s.link.Offline? && Watched(Record(ts, doc, cs), subs);
    s.(server := server,
       down := if concerned then s.down + Broadcast(doc, cs, ts) else s.down,
       issued := s.issued + (set c | c in cs :: (c, CursorOf(Entry(ts, doc.id)))),
       gone := s.gone + Leaving(s.server, server, subs))
  }

  /** A delete at the server: a connected peer is sent a frame without a document. */
  ghost function AfterDelete(s: Sys, subs: seq<Text>, id: Text): Sys
    requires id in s.server
  {
    var (server, outcome) := DeleteEffect(s.server, id);
    var cs := s.server[id].collections;
    var frame := BuildDataFrame(Change(id, None, cs, None)).value;
    s.(server := server,
       down := if s.link.Offline? || outcome != Done then s.down else s.down + [frame],
       gone := s.gone + Leaving(s.server, server, subs))
  }

  ghost function Next(s: Sys, subs: seq<Text>, step: Step): Sys
    requires Feasible(s, subs, step)
  {
    match step
    case Put(doc, cs, ts) => AfterPut(s, subs, doc, cs, ts)
    case Delete(id) => AfterDelete(s, subs, id)
    case Elsewhere(records) => s.(server := records, gone := s.gone + Leaving(s.server, records, subs))
    case Attach => s.(link := Attached)
    case Ask => s.(link := Asked(AskFor(s.replica, subs)))
    case Answer =>
      var (frames, cursors) := Replay(s.server, subs, s.link.since);
      s.(link := Live, down := s.down + (frames + [Resumed(cursors)]))
    case Deliver => s.(replica := Handle(s.replica, s.down[0], Subscribed(subs)), down := s.down[1..])
    case Drop => s.(link := Offline, down := [])
  }

  ghost predicate IsRun(s: Sys, subs: seq<Text>, steps: seq<Step>)
    decreases |steps|
  {
    steps != [] ==> Feasible(s, subs, steps[0]) && IsRun(Next(s, subs, steps[0]), subs, steps[1..])
  }

  ghost function Exec(s: Sys, subs: seq<Text>, steps: seq<Step>): Sys
    requires IsRun(s, subs, steps)
    decreases |steps|
  {
    if steps == [] then s else Exec(Next(s, subs, steps[0]), subs, steps[1..])
  }

  /** The hypothesis that puts come in turn: each at a cursor past all given out for its collection. */
  ghost predicate PutInTurn(s: Sys, subs: seq<Text>, step: Step) {
    step.Put? ==> PutAllowed(s.server, s.issued, step.doc, step.cs, step.ts)
  }

  /** The hypothesis that subscribing, reading the cursors and replaying act as one step: no put
      to a subscribed collection falls between them. */
  ghost predicate QuietStep(s: Sys, subs: seq<Text>, step: Step) {
    step.Put? && (s.link.Attached? || s.link.Asked?) ==> forall c :: c in step.cs ==> c !in subs
  }

  ghost predicate InTurn(s: Sys, subs: seq<Text>, steps: seq<Step>)
    requires IsRun(s, subs, steps)
    decreases |steps|
  {
    steps != [] ==> PutInTurn(s, subs, steps[0]) && InTurn(Next(s, subs, steps[0]), subs, steps[1..])
  }

  ghost predicate Quiet(s: Sys, subs: seq<Text>, steps: seq<Step>)
    requires IsRun(s, subs, steps)
    decreases |steps|
  {
    steps != [] ==> QuietStep(s, subs, steps[0]) && Quiet(Next(s, subs, steps[0]), subs, steps[1..])
  }

  lemma {:induction false} RunConcat(s: Sys, subs: seq<Text>, xs: seq<Step>, ys: seq<Step>)
    requires IsRun(s, subs, xs) && IsRun(Exec(s, subs, xs), subs, ys)
    ensures IsRun(s, subs, xs + ys) && Exec(s, subs, xs + ys) == Exec(Exec(s, subs, xs), subs, ys)
    decreases |xs|
  {
    if xs == [] {
      assert xs + ys == ys;
    } else {
      assert (xs + ys)[1..] == xs[1..] + ys;
      RunConcat(Next(s, subs, xs[0]), subs, xs[1..], ys);
    }
  }

  lemma OneStep(s: Sys, subs: seq<Text>, step: Step)
    requires Feasible(s, subs, step)
    ensures IsRun(s, subs, [step]) && Exec(s, subs, [step]) == Next(s, subs, step)
  {
    assert [step][1..] == [];
  }

  // ---------------------------------------------------------------- what holds in every run

  lemma StepServerOk(s: Sys, subs: seq<Text>, step: Step)
    requires ServerOk(s.server, subs) && Feasible(s, subs, step)
    ensures ServerOk(Next(s, subs, step).server, subs)
  {
    match step
    case Put(doc, cs, ts) => StoredOk(s.server, subs, doc, cs, ts);
    case Elsewhere(records) => NoneAddedOk(s.server, records, subs);
    case _ =>
  }

  /** The document is in a subscribed collection, or has been. */
  ghost predicate Known(s: Sys, subs: seq<Text>, id: Text) {
    (id in s.server && Watched(s.server[id], subs)) || id in s.gone
  }

  ghost predicate Accounted(s: Sys, subs: seq<Text>, f: Frame) {
    && SetsIssued(f, s.issued, subs)
    && forall c, id :: c in subs && Carries(f, id) && c in f.collections ==> Known(s, subs, id)
  }

  /** Every cursor that is listed, saved, asked from or under way was given out, and every document
      the client has or will get in a subscribed collection is or was in one on the server. */
  ghost predicate Recorded(s: Sys, subs: seq<Text>) {
    && (forall c, e :: c in subs && Lists(s.server, c, e) ==> (c, CursorOf(e)) in s.issued)
    && CursorsIssued(s.replica, s.issued, subs)
    && (s.link.Asked? ==> forall c :: c in subs && SinceOf(s.link.since, c).Some? ==>
          (c, SinceOf(s.link.since, c).value) in s.issued)
    && (forall f :: f in s.down ==> Accounted(s, subs, f))
    && (forall c, id :: c in subs && Filed(s.replica, c, id) ==> Known(s, subs, id))
  }

  ghost predicate Grown(s: Sys, t: Sys, subs: seq<Text>) {
    s.issued <= t.issued && s.gone + Leaving(s.server, t.server, subs) <= t.gone
  }

  lemma StillAccounted(s: Sys, t: Sys, subs: seq<Text>)
    requires Recorded(s, subs) && Grown(s, t, subs) && t.replica == s.replica
    ensures forall f :: f in s.down ==> Accounted(t, subs, f)
    ensures CursorsIssued(t.replica, t.issued, subs)
    ensures forall c, id :: c in subs && Filed(t.replica, c, id) ==> Known(t, subs, id)
  {
    forall id | Known(s, subs, id) ensures Known(t, subs, id) {
      assert id in Leaving(s.server, t.server, subs) ==> id in t.gone;
    }
    forall f | f in s.down ensures Accounted(t, subs, f) {
      assert Accounted(s, subs, f);
    }
  }

  lemma PutRecorded(s: Sys, subs: seq<Text>, doc: Doc, cs: seq<Text>, ts: int)
    requires Recorded(s, subs) && Storable(s.server, doc, ts)
    ensures Recorded(AfterPut(s, subs, doc, cs, ts), subs)
  {
    var t, e := AfterPut(s, subs, doc, cs, ts), Entry(ts, doc.id);
    forall d, f | d in subs && Lists(t.server, d, f) ensures (d, CursorOf(f)) in t.issued {
      StoredLists(s.server, doc, cs, ts, d, f);
    }
    StillAccounted(s, t, subs);
    LiveCursorMatchesIndex(doc, cs, ts);
    assert Watched(Record(ts, doc, cs), subs) ==> Known(t, subs, doc.id);
    assert Accounted(t, subs, DocFrame(doc, cs, e));
  }

  lemma DeleteRecorded(s: Sys, subs: seq<Text>, id: Text)
    requires Recorded(s, subs) && id in s.server
    ensures Recorded(AfterDelete(s, subs, id), subs)
  {
    var t := AfterDelete(s, subs, id);
    assert forall c, e :: Lists(t.server, c, e) ==> Lists(s.server, c, e);
    StillAccounted(s, t, subs);
  }

  lemma ElsewhereRecorded(s: Sys, subs: seq<Text>, records: Records)
    requires Recorded(s, subs) && NoneAdded(s.server, records, subs)
    ensures Recorded(Next(s, subs, Elsewhere(records)), subs)
  {
    forall d | d in subs ensures forall e :: Lists(records, d, e) ==> Lists(s.server, d, e) {
      NoneAddedLists(s.server, records, subs, d);
    }
    StillAccounted(s, Next(s, subs, Elsewhere(records)), subs);
  }

  lemma ReplayAccounted(s: Sys, subs: seq<Text>, f: Frame)
    requires NoDuplicates(subs) && Keyed(s.server) && Recorded(s, subs) && s.link.Asked?
    requires f in Replay(s.server, subs, s.link.since).0
    ensures Accounted(s, subs, f)
  {
    var d, e := ReplayFrameOf(s.server, subs, s.link.since, f);
    assert (d, CursorOf(e)) in s.issued;
    assert d in s.server[e.id].collections && Known(s, subs, e.id);
  }

  lemma ClosingAccounted(s: Sys, subs: seq<Text>)
    requires NoDuplicates(subs) && Recorded(s, subs) && s.link.Asked?
    ensures Accounted(s, subs, Resumed(Replay(s.server, subs, s.link.since).1))
  {
    var since, cursors := s.link.since, Replay(s.server, subs, s.link.since).1;
    forall c | c in subs && SetBy(Resumed(cursors), c).Some? ensures (c, SetBy(Resumed(cursors), c).value) in s.issued {
      var e := ClosingCursor(s.server, subs, since, c);
    }
  }

  lemma AnswerRecorded(s: Sys, subs: seq<Text>)
    requires NoDuplicates(subs) && Keyed(s.server) && Recorded(s, subs) && s.link.Asked?
    ensures Recorded(Next(s, subs, Answer), subs)
  {
    var t := Next(s, subs, Answer);
    var (frames, cursors) := Replay(s.server, subs, s.link.since);
    ClosingAccounted(s, subs);
    forall f | f in t.down ensures Accounted(t, subs, f) {
      if f in frames {
        ReplayAccounted(s, subs, f);
      }
      assert Accounted(s, subs, f);
    }
    StillAccounted(s, t, subs);
  }

  lemma DeliverRecorded(s: Sys, subs: seq<Text>)
    requires Recorded(s, subs) && s.down != []
    ensures Recorded(Next(s, subs, Deliver), subs)
  {
    var t, f := Next(s, subs, Deliver), s.down[0];
    assert s.down == [f] + t.down;
    assert f in s.down && Accounted(s, subs, f);
    DeliveredIssued(s.replica, f, s.issued, subs);
    forall g | g in t.down ensures Accounted(t, subs, g) {
      assert Accounted(s, subs, g);
    }
    forall c, id | c in subs && Filed(t.replica, c, id) ensures Known(s, subs, id) {
      assert Filed(s.replica, c, id) || (Carries(f, id) && c in f.collections);
    }
  }

  lemma StepRecorded(s: Sys, subs: seq<Text>, step: Step)
    requires NoDuplicates(subs) && ServerOk(s.server, subs) && Recorded(s, subs) && Feasible(s, subs, step)
    ensures Recorded(Next(s, subs, step), subs)
  {
    match step
    case Put(doc, cs, ts) => PutRecorded(s, subs, doc, cs, ts);
    case Delete(id) => DeleteRecorded(s, subs, id);
    case Elsewhere(records) => ElsewhereRecorded(s, subs, records);
    case Answer => AnswerRecorded(s, subs);
    case Deliver => DeliverRecorded(s, subs);
    case _ => StillAccounted(s, Next(s, subs, step), subs);
  }

  /** Every run, whatever the order of its puts, accounts for all cursors and documents. */
  lemma {:induction false} RunRecorded(s: Sys, subs: seq<Text>, steps: seq<Step>)
    requires NoDuplicates(subs) && ServerOk(s.server, subs) && Recorded(s, subs) && IsRun(s, subs, steps)
    ensures ServerOk(Exec(s, subs, steps).server, subs) && Recorded(Exec(s, subs, steps), subs)
    decreases |steps|
  {
    if steps != [] {
      StepServerOk(s, subs, steps[0]);
      StepRecorded(s, subs, steps[0]);
      RunRecorded(Next(s, subs, steps[0]), subs, steps[1..]);
    }
  }

  // ---------------------------------------------------------------- the invariant

  ghost predicate Inv(s: Sys, subs: seq<Text>) {
    && ServerOk(s.server, subs) && Recorded(s, subs) && Safe(s.server, s.replica, subs)
    && (match s.link
        case Offline => s.down == []
        case Attached => Silent(s.down)
        case Asked(since) => Silent(s.down) && since == AskFor(s.replica, subs)
        case Live =>
          && SafeAlong(s.server, s.replica, s.down, subs)
          && Synced(s.server, HandleAll(s.replica, s.down, Subscribed(subs)), subs))
  }

  lemma PutInv(s: Sys, subs: seq<Text>, doc: Doc, cs: seq<Text>, ts: int)
    requires Inv(s, subs) && PutAllowed(s.server, s.issued, doc, cs, ts) && QuietStep(s, subs, Put(doc, cs, ts))
    ensures Inv(AfterPut(s, subs, doc, cs, ts), subs)
  {
    StoredOk(s.server, subs, doc, cs, ts);
    PutRecorded(s, subs, doc, cs, ts);
    PutKeepsSafe(s.server, s.replica, s.issued, subs, doc, cs, ts);
    if s.link.Live? {
      LivePutInv(s, subs, doc, cs, ts);
    }
  }

  lemma LivePutInv(s: Sys, subs: seq<Text>, doc: Doc, cs: seq<Text>, ts: int)
    requires Inv(s, subs) && PutAllowed(s.server, s.issued, doc, cs, ts) && s.link.Live?
    ensures var t := AfterPut(s, subs, doc, cs, ts);
            && SafeAlong(t.server, t.replica, t.down, subs)
            && Synced(t.server, HandleAll(t.replica, t.down, Subscribed(subs)), subs)
  {
    var t, r := AfterPut(s, subs, doc, cs, ts), HandleAll(s.replica, s.down, Subscribed(subs));
    forall f | f in s.down ensures SetsIssued(f, s.issued, subs) {
      assert Accounted(s, subs, f);
    }
    PutKeepsSafeAlong(s.server, s.replica, s.down, s.issued, subs, doc, cs, ts);
    LivePutSynced(s, subs, doc, cs, ts);
    if t.down != s.down {
      var frame := DocFrame(doc, cs, Entry(ts, doc.id));
      LiveCursorMatchesIndex(doc, cs, ts);
      SafeAtEnd(t.server, s.replica, s.down, subs);
      SyncedIsSafe(t.server, HandleAll(t.replica, t.down, Subscribed(subs)), subs);
      HandleAllConcat(s.replica, s.down, [frame], Subscribed(subs));
      assert [frame][1..] == [];
      SafeAlongConcat(t.server, s.replica, s.down, [frame], subs);
    }
  }

  lemma LivePutSynced(s: Sys, subs: seq<Text>, doc: Doc, cs: seq<Text>, ts: int)
    requires s.link.Live? && Storable(s.server, doc, ts)
    requires Synced(s.server, HandleAll(s.replica, s.down, Subscribed(subs)), subs)
    ensures var t := AfterPut(s, subs, doc, cs, ts);
            Synced(t.server, HandleAll(t.replica, t.down, Subscribed(subs)), subs)
  {
    var t, r := AfterPut(s, subs, doc, cs, ts), HandleAll(s.replica, s.down, Subscribed(subs));
    var frame := DocFrame(doc, cs, Entry(ts, doc.id));
    LiveCursorMatchesIndex(doc, cs, ts);
    HandleAllConcat(s.replica, s.down, [frame], Subscribed(subs));
    assert [frame][1..] == [];
    BroadcastDelivered(s.server, r, HandleAll(t.replica, t.down, Subscribed(subs)), doc, cs, ts, subs);
  }

  lemma DeleteInv(s: Sys, subs: seq<Text>, id: Text)
    requires Inv(s, subs) && Feasible(s, subs, Delete(id))
    ensures Inv(AfterDelete(s, subs, id), subs)
  {
    var t := AfterDelete(s, subs, id);
    var added := t.down[|s.down|..];
    assert t.down == s.down + added && Silent(added);
    DeleteAddsNone(s.server, id, subs);
    DeleteRecorded(s, subs, id);
    ElsewhereKeepsSafe(s.server, t.server, s.replica, subs);
    if s.link.Live? {
      var r := HandleAll(s.replica, s.down, Subscribed(subs));
      ElsewhereKeepsSafeAlong(s.server, t.server, s.replica, s.down, subs);
      ElsewhereKeepsSynced(s.server, t.server, r, subs);
      SafeAtEnd(t.server, s.replica, s.down, subs);
      SilentKeeps(t.server, r, added, subs);
      SafeAlongConcat(t.server, s.replica, s.down, added, subs);
      HandleAllConcat(s.replica, s.down, added, Subscribed(subs));
    }
  }

  lemma ElsewhereInv(s: Sys, subs: seq<Text>, records: Records)
    requires Inv(s, subs) && NoneAdded(s.server, records, subs)
    ensures Inv(Next(s, subs, Elsewhere(records)), subs)
  {
    NoneAddedOk(s.server, records, subs);
    ElsewhereRecorded(s, subs, records);
    ElsewhereKeepsSafe(s.server, records, s.replica, subs);
    if s.link.Live? {
      ElsewhereKeepsSafeAlong(s.server, records, s.replica, s.down, subs);
      ElsewhereKeepsSynced(s.server, records, HandleAll(s.replica, s.down, Subscribed(subs)), subs);
    }
  }

  lemma AnswerInv(s: Sys, subs: seq<Text>)
    requires NoDuplicates(subs) && Inv(s, subs) && s.link.Asked?
    ensures Inv(Next(s, subs, Answer), subs)
  {
    var (frames, cursors) := Replay(s.server, subs, s.link.since);
    var answer := frames + [Resumed(cursors)];
    AnswerRecorded(s, subs);
    SilentKeeps(s.server, s.replica, s.down, subs);
    ReplayIsSafe(s.server, s.replica, subs, s.link.since);
    SafeAlongConcat(s.server, s.replica, s.down, answer, subs);
    HandleAllConcat(s.replica, s.down, answer, Subscribed(subs));
  }

  lemma DeliverInv(s: Sys, subs: seq<Text>)
    requires Inv(s, subs) && s.down != []
    ensures Inv(Next(s, subs, Deliver), subs)
  {
    var t := Next(s, subs, Deliver);
    DeliverRecorded(s, subs);
    assert s.down[0] in s.down;
    assert s.link.Live? ==> SafeAlong(t.server, t.replica, t.down, subs);
  }

  /** Every step keeps the invariant. */
  lemma StepInv(s: Sys, subs: seq<Text>, step: Step)
    requires NoDuplicates(subs) && Inv(s, subs)
    requires Feasible(s, subs, step) && PutInTurn(s, subs, step) && QuietStep(s, subs, step)
    ensures Inv(Next(s, subs, step), subs)
  {
    match step
    case Put(doc, cs, ts) => PutInv(s, subs, doc, cs, ts);
    case Delete(id) => DeleteInv(s, subs, id);
    case Elsewhere(records) => ElsewhereInv(s, subs, records);
    case Answer => AnswerInv(s, subs);
    case Deliver => DeliverInv(s, subs);
    case _ => StepRecorded(s, subs, step);
  }

  lemma {:induction false} RunInv(s: Sys, subs: seq<Text>, steps: seq<Step>)
    requires NoDuplicates(subs) && Inv(s, subs)
    requires IsRun(s, subs, steps) && InTurn(s, subs, steps) && Quiet(s, subs, steps)
    ensures Inv(Exec(s, subs, steps), subs)
    decreases |steps|
  {
    if steps != [] {
      StepInv(s, subs, steps[0]);
      RunInv(Next(s, subs, steps[0]), subs, steps[1..]);
    }
  }

  // ---------------------------------------------------------------- what it promises

  lemma SyncedAgree(s: Sys, subs: seq<Text>, c: Text)
    requires ServerOk(s.server, subs) && Recorded(s, subs) && Synced(s.server, s.replica, subs) && c in subs
    ensures AgreeBut(s.server, s.replica, subs, c, s.gone)
  {
    forall id | Listed(s.server, c, id) ensures Has(s.server, s.replica, subs, c, id) {
      assert Lists(s.server, c, EntryIn(s.server, id)) && HasCopy(s.server, s.replica, subs, id);
    }
    forall id | Filed(s.replica, c, id) && !Listed(s.server, c, id)
      ensures id in s.gone || Several(s.server, subs, id)
    {
      assert Known(s, subs, id);
      if id in s.server && Watched(s.server[id], subs) && !Several(s.server, subs, id) {
        SyncedIsListed(s.server, s.replica, subs, c, id);
      }
    }
  }

  lemma SyncedIsListed(server: Records, r: Replica, subs: seq<Text>, c: Text, id: Text)
    requires ServerOk(server, subs) && Synced(server, r, subs) && c in subs && Filed(r, c, id)
    requires id in server && Watched(server[id], subs) && !Several(server, subs, id)
    ensures Listed(server, c, id)
  {
    var d :| d in server[id].collections && d in subs;
    assert Lists(server, d, EntryIn(server, id)) && HasCopy(server, r, subs, id);
  }

  ghost function GivenOut(server: Records): Issued {
    set id, c | id in server && c in server[id].collections && Encodable(server[id].ts) ::
      (c, CursorOf(Entry(server[id].ts, id)))
  }

  /** A client that starts empty against any server. */
  ghost function Fresh(server: Records): Sys {
    Sys(server, Replica(map[], map[]), Offline, [], GivenOut(server), {})
  }

  /** The step takes the document out of the subscribed collections. */
  predicate TakesOut(step: Step, subs: seq<Text>, id: Text) {
    match step
    case Put(doc, cs, _) => doc.id == id && forall c :: c in cs ==> c !in subs
    case Delete(other) => other == id
    case Elsewhere(records) => id in records ==> forall c :: c in records[id].collections ==> c !in subs
    case _ => false
  }

  lemma LeftByStep(s: Sys, subs: seq<Text>, step: Step, id: Text)
    requires Feasible(s, subs, step) && id in Next(s, subs, step).gone
    ensures id in s.gone || TakesOut(step, subs, id)
  {
    if step.Put? && id in Leaving(s.server, Next(s, subs, step).server, subs) {
      StoredLists(s.server, step.doc, step.cs, step.ts, [], Entry(step.ts, id));
    }
  }

  lemma {:induction false} GoneWasTaken(s: Sys, subs: seq<Text>, steps: seq<Step>, id: Text)
    requires IsRun(s, subs, steps) && id in Exec(s, subs, steps).gone
    ensures id in s.gone || exists step :: step in steps && TakesOut(step, subs, id)
    decreases |steps|
  {
    if steps != [] {
      assert steps == [steps[0]] + steps[1..];
      GoneWasTaken(Next(s, subs, steps[0]), subs, steps[1..], id);
      if id in Next(s, subs, steps[0]).gone {
        LeftByStep(s, subs, steps[0], id);
      }
    }
  }

  /** Lossless reconnect. After any run of puts, moves, deletes, broadcasts, deliveries, drops and
      reconnects, the client has, with the same content, the document of every entry at or below its
      saved cursors, and files it as the server does if it is in one subscribed collection. Whenever
      the link is live and its channel has drained, it has every document of the subscribed
      collections; what it has beyond them has left them in this run. */
  lemma LosslessReconnect(server: Records, subs: seq<Text>, steps: seq<Step>)
    requires ServerOk(server, subs) && NoDuplicates(subs)
    requires IsRun(Fresh(server), subs, steps)
    requires InTurn(Fresh(server), subs, steps) && Quiet(Fresh(server), subs, steps)
    ensures var s := Exec(Fresh(server), subs, steps);
            && (forall c :: c in subs ==> NothingLost(s.server, s.replica, subs, c))
            && (s.link.Live? && s.down == [] ==>
                  forall c :: c in subs ==> AgreeBut(s.server, s.replica, subs, c, s.gone))
            && (forall id :: id in s.gone ==> exists step :: step in steps && TakesOut(step, subs, id))
  {
    RunInv(Fresh(server), subs, steps);
    var s := Exec(Fresh(server), subs, steps);
    forall c | c in subs && s.link.Live? && s.down == [] ensures AgreeBut(s.server, s.replica, subs, c, s.gone) {
      SyncedAgree(s, subs, c);
    }
    forall id | id in s.gone ensures exists step :: step in steps && TakesOut(step, subs, id) {
      GoneWasTaken(Fresh(server), subs, steps, id);
    }
  }

  // ---------------------------------------------------------------- dropping and reconnecting

  function Deliveries(n: nat): (steps: seq<Step>)
    ensures |steps| == n && forall i :: 0 <= i < n ==> steps[i] == Deliver
  {
    seq(n, _ => Deliver)
  }

  lemma {:induction false} DeliverSome(s: Sys, subs: seq<Text>, k: nat)
    requires k <= |s.down|
    ensures IsRun(s, subs, Deliveries(k))
    ensures Exec(s, subs, Deliveries(k))
         == s.(replica := HandleAll(s.replica, s.down[..k], Subscribed(subs)), down := s.down[k..])
    decreases k
  {
    if k > 0 {
      var t := Next(s, subs, Deliver);
      assert s.down[..k] == [s.down[0]] + t.down[..k - 1] && s.down[k..] == t.down[k - 1..];
      assert Deliveries(k)[1..] == Deliveries(k - 1);
      DeliverSome(t, subs, k - 1);
    } else {
      assert s.down[k..] == s.down;
    }
  }

  /** After `k` deliveries the connection drops. */
  ghost function CutAfter(s: Sys, subs: seq<Text>, k: nat): Sys
    requires k <= |s.down|
  {
    s.(replica := HandleAll(s.replica, s.down[..k], Subscribed(subs)), link := Offline, down := [])
  }

  /** The steps of a drop after `k` deliveries, if there is a connection to drop. */
  function Cutting(s: Sys, k: nat): seq<Step> {
    Deliveries(k) + if s.link.Offline? then [] else [Drop]
  }

  lemma CutIsRun(s: Sys, subs: seq<Text>, k: nat)
    requires k <= |s.down| && (s.link.Offline? ==> s.down == [])
    ensures IsRun(s, subs, Cutting(s, k)) && Exec(s, subs, Cutting(s, k)) == CutAfter(s, subs, k)
  {
    DeliverSome(s, subs, k);
    if !s.link.Offline? {
      OneStep(Exec(s, subs, Deliveries(k)), subs, Drop);
    }
    RunConcat(s, subs, Deliveries(k), if s.link.Offline? then [] else [Drop]);
  }

  /** Online with the whole replay delivered. */
  ghost function AfterReconnect(s: Sys, subs: seq<Text>): Sys {
    s.(replica := Reconnected(s.server, s.replica, subs), link := Live, down := [])
  }

  /** The steps of a reconnect that is answered and drained. */
  ghost function Reconnecting(s: Sys, subs: seq<Text>): seq<Step> {
    [Attach, Ask, Answer] + Deliveries(|Replay(s.server, subs, AskFor(s.replica, subs)).0| + 1)
  }

  lemma HandshakeIsRun(s: Sys, subs: seq<Text>, answer: seq<Frame>)
    requires s.link.Offline? && s.down == []
    requires var (frames, cursors) := Replay(s.server, subs, AskFor(s.replica, subs));
             answer == frames + [Resumed(cursors)]
    ensures IsRun(s, subs, [Attach, Ask, Answer])
    ensures Exec(s, subs, [Attach, Ask, Answer]) == s.(link := Live, down := answer)
  {
    var s1 := s.(link := Attached);
    var s2 := s.(link := Asked(AskFor(s.replica, subs)));
    OneStep(s, subs, Attach);
    OneStep(s1, subs, Ask);
    OneStep(s2, subs, Answer);
    assert [] + answer == answer;
    RunConcat(s1, subs, [Ask], [Answer]);
    RunConcat(s, subs, [Attach], [Ask] + [Answer]);
    assert [Attach] + ([Ask] + [Answer]) == [Attach, Ask, Answer];
  }

  lemma ReconnectIsRun(s: Sys, subs: seq<Text>)
    requires s.link.Offline? && s.down == []
    ensures IsRun(s, subs, Reconnecting(s, subs))
    ensures Exec(s, subs, Reconnecting(s, subs)) == AfterReconnect(s, subs)
  {
    var (frames, cursors) := Replay(s.server, subs, AskFor(s.replica, subs));
    var answer := frames + [Resumed(cursors)];
    HandshakeIsRun(s, subs, answer);
    DeliverSome(s.(link := Live, down := answer), subs, |answer|);
    assert answer[..|answer|] == answer;
    RunConcat(s, subs, [Attach, Ask, Answer], Deliveries(|answer|));
  }

  /** The steps of a drop, if there is a connection, and a reconnect. */
  ghost function Healing(s: Sys, subs: seq<Text>): seq<Step> {
    Cutting(s, 0) + Reconnecting(CutAfter(s, subs, 0), subs)
  }

  lemma HealingIsRun(s: Sys, subs: seq<Text>)
    requires s.link.Offline? ==> s.down == []
    ensures IsRun(s, subs, Healing(s, subs))
    ensures Exec(s, subs, Healing(s, subs)) == AfterReconnect(CutAfter(s, subs, 0), subs)
  {
    var v := CutAfter(s, subs, 0);
    CutIsRun(s, subs, 0);
    ReconnectIsRun(v, subs);
    RunConcat(s, subs, Cutting(s, 0), Reconnecting(v, subs));
  }

  /** From every state a run can reach, however broken the connection, dropping it, reconnecting
      and letting the channel drain brings the client every document of the subscribed collections. */
  lemma ReconnectHeals(s: Sys, subs: seq<Text>)
    requires NoDuplicates(subs) && Inv(s, subs)
    ensures IsRun(s, subs, Healing(s, subs))
    ensures var t := Exec(s, subs, Healing(s, subs));
            && t.server == s.server && t.gone == s.gone && Inv(t, subs)
            && forall c :: c in subs ==> AgreeBut(t.server, t.replica, subs, c, t.gone)
  {
    var t := AfterReconnect(CutAfter(s, subs, 0), subs);
    HealingIsRun(s, subs);
    ReconnectInv(CutAfter(s, subs, 0), subs);
    forall c | c in subs ensures AgreeBut(t.server, t.replica, subs, c, t.gone) {
      SyncedAgree(t, subs, c);
    }
  }

  lemma ReconnectInv(s: Sys, subs: seq<Text>)
    requires NoDuplicates(subs) && Inv(s, subs) && s.link.Offline?
    ensures Inv(AfterReconnect(s, subs), subs)
  {
    var steps := Reconnecting(s, subs);
    ReconnectIsRun(s, subs);
    WithoutPuts(s, subs, steps);
    RunInv(s, subs, steps);
  }

  lemma {:induction false} WithoutPuts(s: Sys, subs: seq<Text>, steps: seq<Step>)
    requires IsRun(s, subs, steps) && forall i :: 0 <= i < |steps| ==> !steps[i].Put?
    ensures InTurn(s, subs, steps) && Quiet(s, subs, steps)
    decreases |steps|
  {
    if steps != [] {
      WithoutPuts(Next(s, subs, steps[0]), subs, steps[1..]);
    }
  }

  /** From every safe state, online or not, a reconnect brings the client every document; and both sides
      agree exactly when each document the client still files in the collection, of those that have
      left the subscribed ones, is back there or is sent for another one. */
  lemma SafeReconnect(s: Sys, subs: seq<Text>, c: Text)
    requires ServerOk(s.server, subs) && Recorded(s, subs) && Safe(s.server, s.replica, subs) && c in subs
    ensures var u := Reconnected(s.server, s.replica, subs);
            && AgreeBut(s.server, u, subs, c, s.gone)
            && (Agree(s.server, u, subs, c)
                <==> forall id :: id in s.gone && Filed(s.replica, c, id) && !Listed(s.server, c, id) ==>
                       Sent(s.server, s.replica, subs, id) || Several(s.server, subs, id))
  {
    assert NothingLost(s.server, s.replica, subs, c);
    forall id | Listed(s.server, c, id)
      ensures Sent(s.server, s.replica, subs, id) || Has(s.server, s.replica, subs, c, id)
    {
      MissingIsSent(s.server, s.replica, subs, c, id);
    }
    forall id | Filed(s.replica, c, id) && !Listed(s.server, c, id)
      ensures Sent(s.server, s.replica, subs, id) || id in s.gone || Several(s.server, subs, id)
    {
      assert Known(s, subs, id);
      if id in s.server && Watched(s.server[id], subs) && !Several(s.server, subs, id) {
        ExtraIsSent(s.server, s.replica, subs, c, id);
      }
    }
    ReconnectAgrees(s.server, s.replica, subs, c, s.gone);
    ReconnectAgrees(s.server, s.replica, subs, c, {});
  }

  // ---------------------------------------------------------------- why the hypotheses are there

  /** The client once the live frame of the put is delivered. */
  ghost function RacedBy(r: Replica, subs: seq<Text>, doc: Doc, cs: seq<Text>, ts: int): Replica
    requires Encodable(ts)
  {
    Handle(r, DocFrame(doc, cs, Entry(ts, doc.id)), Subscribed(subs))
  }

  /** A put to a subscribed collection between the subscription and the replay, once its live
      frame is delivered, leaves the client safe exactly when it had missed nothing before. */
  lemma HandshakeRace(s: Sys, subs: seq<Text>, doc: Doc, cs: seq<Text>, ts: int, c: Text)
    requires Inv(s, subs) && (s.link.Attached? || s.link.Asked?)
    requires c in cs && c in subs && PutAllowed(s.server, s.issued, doc, cs, ts)
    ensures var t := AfterPut(s, subs, doc, cs, ts);
            && |t.down| == |s.down| + 1
            && (NothingLost(t.server, HandleAll(t.replica, t.down, Subscribed(subs)), subs, c)
                <==> forall e :: Lists(s.server, c, e) && e.id != doc.id ==> HasCopy(s.server, s.replica, subs, e.id))
  {
    RacedReplica(s, subs, doc, cs, ts);
    RaceOutcome(s, subs, doc, cs, ts, c);
  }

  lemma RacedReplica(s: Sys, subs: seq<Text>, doc: Doc, cs: seq<Text>, ts: int)
    requires Silent(s.down) && !s.link.Offline? && Watched(Record(ts, doc, cs), subs) && Storable(s.server, doc, ts)
    ensures var t := AfterPut(s, subs, doc, cs, ts);
            && t.down == s.down + [DocFrame(doc, cs, Entry(ts, doc.id))]
            && HandleAll(t.replica, t.down, Subscribed(subs)) == RacedBy(s.replica, subs, doc, cs, ts)
  {
    var frame := DocFrame(doc, cs, Entry(ts, doc.id));
    LiveCursorMatchesIndex(doc, cs, ts);
    SilentKeeps(s.server, s.replica, s.down, subs);
    HandleAllConcat(s.replica, s.down, [frame], Subscribed(subs));
    assert [frame][1..] == [];
  }

  lemma RacedCursor(r: Replica, subs: seq<Text>, doc: Doc, cs: seq<Text>, ts: int, c: Text)
    requires doc.id != [] && Encodable(ts) && c in subs
    ensures CursorIn(RacedBy(r, subs, doc, cs, ts), c)
         == if c in cs then Some(CursorOf(Entry(ts, doc.id))) else CursorIn(r, c)
  {
    HandleCursor(r, DocFrame(doc, cs, Entry(ts, doc.id)), subs, c);
  }

  lemma RaceOutcome(s: Sys, subs: seq<Text>, doc: Doc, cs: seq<Text>, ts: int, c: Text)
    requires Recorded(s, subs) && c in cs && c in subs && PutAllowed(s.server, s.issued, doc, cs, ts)
    ensures NothingLost(Stored(s.server, doc, cs, ts), RacedBy(s.replica, subs, doc, cs, ts), subs, c)
       <==> forall e :: Lists(s.server, c, e) && e.id != doc.id ==> HasCopy(s.server, s.replica, subs, e.id)
  {
    var server', r', added := Stored(s.server, doc, cs, ts), RacedBy(s.replica, subs, doc, cs, ts), Entry(ts, doc.id);
    RacedCursor(s.replica, subs, doc, cs, ts, c);
    forall e | Lists(s.server, c, e) && e.id != doc.id
      ensures Lists(server', c, e) && Reached(r', c, e)
      ensures HasCopy(server', r', subs, e.id) <==> HasCopy(s.server, s.replica, subs, e.id)
    {
      StoredLists(s.server, doc, cs, ts, c, e);
      StoredKeeps(s.server, r', subs, doc, cs, ts, e.id);
      LessAsymmetric(CursorOf(e), CursorOf(added));
    }
    forall e | Lists(server', c, e)
      ensures if e.id == doc.id then HasCopy(server', r', subs, e.id) else Lists(s.server, c, e)
    {
      StoredLists(s.server, doc, cs, ts, c, e);
    }
  }

  /** A resume from the client's cursor does not send an entry the cursor has passed. */
  lemma PassedIsNeverResent(server: Records, r: Replica, c: Text, e: Entry)
    requires Reached(r, c, e) && r.cursors[c] != []
    ensures e !in After(Listing(server, c), CursorIn(r, c))
  {
    AfterElements(Listing(server, c), CursorIn(r, c), e);
  }

  /** A put that is not past the client's cursor is, until its frame is delivered, an entry the cursor
      claims to have seen: the client is safe only if it holds that very document already. */
  lemma StaleCursorLoses(server: Records, r: Replica, subs: seq<Text>, doc: Doc, cs: seq<Text>, ts: int, c: Text)
    requires Storable(server, doc, ts) && NothingLost(server, r, subs, c)
    requires c in cs && Reached(r, c, Entry(ts, doc.id))
    ensures var server' := Stored(server, doc, cs, ts);
            NothingLost(server', r, subs, c)
            <==> && doc.id in r.docs && r.docs[doc.id].doc == doc
                 && (Several(server', subs, doc.id) || SameFiling(r.docs[doc.id].collections, cs, subs))
  {
    var server', added := Stored(server, doc, cs, ts), Entry(ts, doc.id);
    assert Lists(server', c, added);
    forall e | Lists(server', c, e) && e.id != doc.id && Reached(r, c, e)
      ensures HasCopy(server', r, subs, e.id)
    {
      assert Lists(server, c, e);
      StoredKeeps(server, r, subs, doc, cs, ts, e.id);
    }
  }
}
