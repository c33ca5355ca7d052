/** What is lost when puts do not come in turn, and when it is not. */
module SyncLosses {
  import opened Texts
  import opened Cursor
  import opened Documents
  import opened StoreModel
  import opened Frames
  import opened ResumeModel
  import opened Replicas
  import opened SyncSafety
  import opened SyncReplays
  import opened SyncProtocol
  import opened SyncRuns

  // ---------------------------------------------------------------- a live link

  /** Connected, and synced once what is under way has been delivered. */
  ghost predicate CatchingUp(s: Sys, subs: seq<Text>) {
    && s.link.Live? && ServerOk(s.server, subs) && Recorded(s, subs)
    && Synced(s.server, HandleAll(s.replica, s.down, Subscribed(subs)), subs)
  }

  lemma LivePut(s: Sys, subs: seq<Text>, doc: Doc, cs: seq<Text>, ts: int)
    requires CatchingUp(s, subs) && Storable(s.server, doc, ts)
    ensures CatchingUp(AfterPut(s, subs, doc, cs, ts), subs)
  {
    StoredOk(s.server, subs, doc, cs, ts);
    PutRecorded(s, subs, doc, cs, ts);
    LivePutSynced(s, subs, doc, cs, ts);
  }

  lemma LiveDelete(s: Sys, subs: seq<Text>, id: Text)
    requires CatchingUp(s, subs) && Feasible(s, subs, Delete(id))
    ensures CatchingUp(AfterDelete(s, subs, id), subs)
  {
    var t, r := AfterDelete(s, subs, id), HandleAll(s.replica, s.down, Subscribed(subs));
    var added := t.down[|s.down|..];
    DeleteRecorded(s, subs, id);
    DeleteAddsNone(s.server, id, subs);
    ElsewhereKeepsSynced(s.server, t.server, r, subs);
    assert t.down == s.down + added && Silent(added);
    SilentKeeps(t.server, r, added, subs);
    HandleAllConcat(s.replica, s.down, added, Subscribed(subs));
  }

  lemma LiveStep(s: Sys, subs: seq<Text>, step: Step)
    requires NoDuplicates(subs) && CatchingUp(s, subs) && Feasible(s, subs, step) && !step.Drop?
    ensures CatchingUp(Next(s, subs, step), subs)
  {
    match step
    case Put(doc, cs, ts) => LivePut(s, subs, doc, cs, ts);
    case Delete(id) => LiveDelete(s, subs, id);
    case Elsewhere(records) =>
      NoneAddedOk(s.server, records, subs);
      ElsewhereRecorded(s, subs, records);
      ElsewhereKeepsSynced(s.server, records, HandleAll(s.replica, s.down, Subscribed(subs)), subs);
    case Deliver => DeliverRecorded(s, subs);
  }

  lemma {:induction false} LiveRun(s: Sys, subs: seq<Text>, steps: seq<Step>)
    requires NoDuplicates(subs) && CatchingUp(s, subs) && IsRun(s, subs, steps) && Drop !in steps
    ensures CatchingUp(Exec(s, subs, steps), subs)
    decreases |steps|
  {
    if steps != [] {
      assert steps == [steps[0]] + steps[1..];
      LiveStep(s, subs, steps[0]);
      LiveRun(Next(s, subs, steps[0]), subs, steps[1..]);
    }
  }

  /** On a connection that does not drop no put is lost, in whatever order the cursors come: each
      time the channel has drained the client has every document, and all guarantees hold again. */
  lemma LiveLinkConverges(s: Sys, subs: seq<Text>, steps: seq<Step>)
    requires NoDuplicates(subs) && Inv(s, subs) && s.link.Live? && IsRun(s, subs, steps) && Drop !in steps
    ensures var t := Exec(s, subs, steps);
            && t.link.Live?
            && (t.down == [] ==>
                  Inv(t, subs) && forall c :: c in subs ==> AgreeBut(t.server, t.replica, subs, c, t.gone))
  {
    LiveRun(s, subs, steps);
    var t := Exec(s, subs, steps);
    if t.down == [] {
      SyncedIsSafe(t.server, t.replica, subs);
      forall c | c in subs ensures AgreeBut(t.server, t.replica, subs, c, t.gone) {
        SyncedAgree(t, subs, c);
      }
    }
  }

  // ---------------------------------------------------------------- what is lost stays lost

  ghost predicate AtOrPast(cursor: Option<Text>, e: Entry)
    requires Encodable(e.ts)
  {
    cursor.Some? && !Less(cursor.value, CursorOf(e))
  }

  /** The frame neither files the entry's document in the collection nor takes the cursor back before it. */
  ghost predicate Past(f: Frame, c: Text, e: Entry)
    requires Encodable(e.ts)
  {
    (Carries(f, e.id) ==> c !in f.collections) && (SetBy(f, c).Some? ==> AtOrPast(SetBy(f, c), e))
  }

  /** The client does not hold a listed document in the collection, and its saved cursor, the cursor it
      last asked from and every frame under way are past it. */
  ghost predicate Lost(s: Sys, c: Text, id: Text) {
    && Listed(s.server, c, id) && !Held(s.server, s.replica, c, id)
    && var e := EntryIn(s.server, id);
    && (c, CursorOf(e)) in s.issued
    && AtOrPast(CursorIn(s.replica, c), e)
    && (s.link.Asked? ==> AtOrPast(SinceOf(s.link.since, c), e))
    && forall f :: f in s.down ==> Past(f, c, e)
  }

  lemma CursorsOnward(since: Text, later: Text, e: Text)
    requires !Less(since, e) && Less(since, later)
    ensures !Less(later, e)
  {
    if Less(later, e) {
      LessTransitive(since, later, e);
    }
  }

  lemma ReplayIsPast(server: Records, subs: seq<Text>, since: Cursors, f: Frame, d: Text, e': Entry,
      c: Text, e: Entry)
    requires Keyed(server) && Lists(server, c, e)
    requires AtOrPast(SinceOf(since, c), e) && Replays(server, subs, since, f, d, e')
    ensures Past(f, c, e)
  {
    NotBehindIt(server, SinceOf(since, c), c, e);
    if d == c {
      AfterElements(Listing(server, d), SinceOf(since, d), e');
      assert CursorOf(e) != [];
      CursorsOnward(SinceOf(since, c).value, CursorOf(e'), CursorOf(e));
    }
    assert e'.id == e.id ==> e' == e;
    DocFramePast(server[e'.id].doc, [d], e', c, e);
  }

  lemma DocFramePast(doc: Doc, cs: seq<Text>, e': Entry, c: Text, e: Entry)
    requires Encodable(e.ts) && Encodable(e'.ts)
    requires c in cs ==> doc.id != e.id && !Less(CursorOf(e'), CursorOf(e))
    ensures Past(DocFrame(doc, cs, e'), c, e)
  {
  }

  lemma NotBehindIt(server: Records, since: Option<Text>, c: Text, e: Entry)
    requires Encodable(e.ts) && AtOrPast(since, e)
    ensures e !in After(Listing(server, c), since)
  {
    AfterElements(Listing(server, c), since, e);
    assert CursorOf(e) != [];
  }

  lemma LastIsOnward(all: seq<Entry>, since: Option<Text>, e: Entry)
    requires AllEncodable(all) && Encodable(e.ts) && AtOrPast(since, e) && After(all, since) != []
    ensures var later := After(all, since); !Less(CursorOf(later[|later| - 1]), CursorOf(e))
  {
    var later := After(all, since);
    var last := later[|later| - 1];
    AfterElements(all, since, last);
    assert CursorOf(e) != [];
    CursorsOnward(since.value, CursorOf(last), CursorOf(e));
  }

  lemma ClosingIsPast(server: Records, subs: seq<Text>, since: Cursors, c: Text, e: Entry)
    requires NoDuplicates(subs) && c in subs && Encodable(e.ts)
    requires AtOrPast(SinceOf(since, c), e)
    ensures Past(Resumed(Replay(server, subs, since).1), c, e)
  {
    var cursors := Replay(server, subs, since).1;
    ReplayIn(server, subs, since, c);
    if After(Listing(server, c), SinceOf(since, c)) != [] {
      LastIsOnward(Listing(server, c), SinceOf(since, c), e);
    }
    ClosingAt(cursors, c, e);
  }

  lemma ClosingAt(cursors: Cursors, c: Text, e: Entry)
    requires Encodable(e.ts) && (c in cursors ==> AtOrPast(cursors[c], e))
    ensures Past(Resumed(cursors), c, e)
  {
  }

  lemma LostAnswered(s: Sys, subs: seq<Text>, c: Text, id: Text)
    requires ServerOk(s.server, subs) && NoDuplicates(subs) && c in subs
    requires Lost(s, c, id) && s.link.Asked?
    ensures Lost(Next(s, subs, Answer), c, id)
  {
    var e, t := EntryIn(s.server, id), Next(s, subs, Answer);
    var (frames, cursors) := Replay(s.server, subs, s.link.since);
    assert Lists(s.server, c, e);
    ClosingIsPast(s.server, subs, s.link.since, c, e);
    forall f | f in t.down ensures Past(f, c, e) {
      if f in frames {
        var d, e' := ReplayFrameOf(s.server, subs, s.link.since, f);
        ReplayIsPast(s.server, subs, s.link.since, f, d, e', c, e);
      }
    }
  }

  lemma LostDelivered(s: Sys, subs: seq<Text>, c: Text, id: Text)
    requires c in subs && Lost(s, c, id) && s.down != []
    ensures Lost(Next(s, subs, Deliver), c, id)
  {
    var f := s.down[0];
    assert f in s.down && Past(f, c, EntryIn(s.server, id));
    HandleCursor(s.replica, f, subs, c);
    assert s.down == [f] + s.down[1..];
  }

  lemma LostThroughPut(s: Sys, subs: seq<Text>, c: Text, id: Text, doc: Doc, cs: seq<Text>, ts: int)
    requires Lost(s, c, id) && PutAllowed(s.server, s.issued, doc, cs, ts) && doc.id != id
    ensures Lost(AfterPut(s, subs, doc, cs, ts), c, id)
  {
    var e, added := EntryIn(s.server, id), Entry(ts, doc.id);
    LiveCursorMatchesIndex(doc, cs, ts);
    if c in cs {
      LessAsymmetric(CursorOf(e), CursorOf(added));
    }
    DocFramePast(doc, cs, added, c, e);
  }

  lemma LostThroughDelete(s: Sys, subs: seq<Text>, c: Text, id: Text, other: Text)
    requires Lost(s, c, id) && other in s.server && other != id
    ensures Lost(AfterDelete(s, subs, other), c, id)
  {
  }

  /** The step puts the document again, or takes it out of the subscribed collections. */
  predicate About(step: Step, subs: seq<Text>, id: Text) {
    (step.Put? && step.doc.id == id) || TakesOut(step, subs, id)
  }

  lemma LostStep(s: Sys, subs: seq<Text>, step: Step, c: Text, id: Text)
    requires ServerOk(s.server, subs) && NoDuplicates(subs) && c in subs
    requires Lost(s, c, id) && Feasible(s, subs, step) && PutInTurn(s, subs, step) && !About(step, subs, id)
    ensures Lost(Next(s, subs, step), c, id)
  {
    match step
    case Put(doc, cs, ts) => LostThroughPut(s, subs, c, id, doc, cs, ts);
    case Delete(other) => LostThroughDelete(s, subs, c, id, other);
    case Elsewhere(records) => assert Watched(s.server[id], subs);
    case Answer => LostAnswered(s, subs, c, id);
    case Deliver => LostDelivered(s, subs, c, id);
    case _ =>
  }

  /** What is lost stays lost: over every further run of broadcasts, drops and reconnects with puts in
      turn, however often the client reconnects, until the document is put again or leaves. */
  lemma {:induction false} LostForGood(s: Sys, subs: seq<Text>, steps: seq<Step>, c: Text, id: Text)
    requires ServerOk(s.server, subs) && NoDuplicates(subs) && c in subs && Lost(s, c, id)
    requires IsRun(s, subs, steps) && InTurn(s, subs, steps)
    requires forall i :: 0 <= i < |steps| ==> !About(steps[i], subs, id)
    ensures Lost(Exec(s, subs, steps), c, id)
    decreases |steps|
  {
    if steps != [] {
      StepServerOk(s, subs, steps[0]);
      LostStep(s, subs, steps[0], c, id);
      LostForGood(Next(s, subs, steps[0]), subs, steps[1..], c, id);
    }
  }

  // ---------------------------------------------------------------- puts out of turn

  lemma {:induction false} SafePrefix(server: Records, r: Replica, frames: seq<Frame>, subs: seq<Text>, k: nat)
    requires SafeAlong(server, r, frames, subs) && k <= |frames|
    ensures Safe(server, HandleAll(r, frames[..k], Subscribed(subs)), subs)
    decreases k
  {
    if k > 0 {
      assert frames[..k][1..] == frames[1..][..k - 1];
      SafePrefix(server, Handle(r, frames[0], Subscribed(subs)), frames[1..], subs, k - 1);
    }
  }

  lemma OtherEntries(server: Records, r: Replica, subs: seq<Text>, doc: Doc, cs: seq<Text>, ts: int, c: Text, id: Text)
    requires Storable(server, doc, ts) && id != doc.id
    ensures var server' := Stored(server, doc, cs, ts);
            && (Listed(server', c, id) <==> Listed(server, c, id))
            && (Has(server', r, subs, c, id) <==> Has(server, r, subs, c, id))
            && (Several(server', subs, id) <==> Several(server, subs, id))
            && (Sent(server', r, subs, id) <==> Sent(server, r, subs, id))
  {
    var server' := Stored(server, doc, cs, ts);
    StoredKeeps(server, r, subs, doc, cs, ts, id);
    assert forall d :: Listed(server', d, id) <==> Listed(server, d, id);
    assert id in server ==> EntryIn(server', id) == EntryIn(server, id);
  }

  /** A safe replica, after a put it has not heard of, lacks nothing that a reconnect does not bring but
      perhaps that document. */
  lemma UnheardPut(server: Records, r: Replica, subs: seq<Text>, doc: Doc, cs: seq<Text>, ts: int, c: Text,
        gone: set<Text>)
    requires ServerOk(server, subs) && c in cs && c in subs && Safe(server, r, subs) && Storable(server, doc, ts)
    requires var server' := Stored(server, doc, cs, ts);
             forall id :: Filed(r, c, id) ==> (id in server' && Watched(server'[id], subs)) || id in gone
    ensures var server' := Stored(server, doc, cs, ts);
            AgreeBut(server', Reconnected(server', r, subs), subs, c, gone)
            <==> Sent(server', r, subs, doc.id) || Has(server', r, subs, c, doc.id)
  {
    var server' := Stored(server, doc, cs, ts);
    StoredOk(server, subs, doc, cs, ts);
    forall id | Listed(server', c, id) && id != doc.id
      ensures Sent(server', r, subs, id) || Has(server', r, subs, c, id)
    {
      OtherEntries(server, r, subs, doc, cs, ts, c, id);
      assert NothingLost(server, r, subs, c);
      MissingIsSent(server, r, subs, c, id);
    }
    forall id | Filed(r, c, id) && !Listed(server', c, id) && id !in gone && !Several(server', subs, id)
      ensures Sent(server', r, subs, id)
    {
      assert Listed(server', c, doc.id);
      OtherEntries(server, r, subs, doc, cs, ts, c, id);
      ExtraIsSent(server, r, subs, c, id);
    }
    ReconnectAgrees(server', r, subs, c, gone);
  }

  /** A put in any order, then `k` deliveries, then a drop: the document is lost to one of its collections
      exactly when the cursor saved by then is past it and the client does not hold it there. A frame
      that was delivered is held, so on a connected client only a drop before that delivery can lose it.
      Nothing else can keep a reconnect from bringing the client every document: it does exactly when
      it sends this one or the client has it, for a document of one collection exactly when it is not lost. */
  lemma StalePutOutcome(s: Sys, subs: seq<Text>, doc: Doc, cs: seq<Text>, ts: int, c: Text, k: nat)
    requires NoDuplicates(subs) && Inv(s, subs) && c in cs && c in subs && Storable(s.server, doc, ts)
    requires s.link.Live? || s.link.Offline?
    requires k <= |AfterPut(s, subs, doc, cs, ts).down|
    ensures var t, e := AfterPut(s, subs, doc, cs, ts), Entry(ts, doc.id);
            var v := CutAfter(t, subs, k);
            var brought := AgreeBut(v.server, Reconnected(v.server, v.replica, subs), subs, c, v.gone);
            && (s.link.Live? && k == |t.down| ==> Held(v.server, v.replica, c, doc.id))
            && (Lost(v, c, doc.id) <==> Reached(v.replica, c, e) && !Held(v.server, v.replica, c, doc.id))
            && (brought <==> Sent(v.server, v.replica, subs, doc.id) || Has(v.server, v.replica, subs, c, doc.id))
            && (!Several(v.server, subs, doc.id) ==> (brought <==> !Lost(v, c, doc.id)))
  {
    var t, e := AfterPut(s, subs, doc, cs, ts), Entry(ts, doc.id);
    var v := CutAfter(t, subs, k);
    StoredLists(s.server, doc, cs, ts, c, e);
    LostOffline(v, c, doc.id);
    if s.link.Live? && k == |t.down| {
      CutLate(s, subs, doc, cs, ts, c);
    } else {
      CutEarly(s, subs, doc, cs, ts, k);
      assert forall id :: Filed(v.replica, c, id) ==> Known(v, subs, id);
      UnheardPut(s.server, v.replica, subs, doc, cs, ts, c, v.gone);
    }
    if !Several(v.server, subs, doc.id) {
      OneCollection(v.server, v.replica, subs, c, doc.id);
    }
  }

  lemma LostOffline(v: Sys, c: Text, id: Text)
    requires v.link.Offline? && v.down == []
    requires Listed(v.server, c, id) && (c, CursorOf(EntryIn(v.server, id))) in v.issued
    ensures Lost(v, c, id) <==> Reached(v.replica, c, EntryIn(v.server, id)) && !Held(v.server, v.replica, c, id)
  {
  }

  lemma CutRecorded(s: Sys, subs: seq<Text>, k: nat)
    requires NoDuplicates(subs) && ServerOk(s.server, subs) && Recorded(s, subs)
    requires k <= |s.down| && (s.link.Offline? ==> s.down == [])
    ensures Recorded(CutAfter(s, subs, k), subs)
  {
    CutIsRun(s, subs, k);
    RunRecorded(s, subs, Cutting(s, k));
  }

  lemma CutLate(s: Sys, subs: seq<Text>, doc: Doc, cs: seq<Text>, ts: int, c: Text)
    requires NoDuplicates(subs) && Inv(s, subs) && s.link.Live? && c in cs && c in subs && Storable(s.server, doc, ts)
    ensures var t := AfterPut(s, subs, doc, cs, ts);
            var v := CutAfter(t, subs, |t.down|);
            && Held(v.server, v.replica, c, doc.id)
            && AgreeBut(v.server, Reconnected(v.server, v.replica, subs), subs, c, v.gone)
  {
    var t := AfterPut(s, subs, doc, cs, ts);
    var v := CutAfter(t, subs, |t.down|);
    var frame := DocFrame(doc, cs, Entry(ts, doc.id));
    LivePut(s, subs, doc, cs, ts);
    CutRecorded(t, subs, |t.down|);
    LiveCursorMatchesIndex(doc, cs, ts);
    assert t.down[..|t.down|] == t.down == s.down + [frame] && [frame][1..] == [];
    HandleAllConcat(s.replica, s.down, [frame], Subscribed(subs));
    SyncedIsSafe(v.server, v.replica, subs);
    SafeReconnect(v, subs, c);
  }

  lemma CutEarly(s: Sys, subs: seq<Text>, doc: Doc, cs: seq<Text>, ts: int, k: nat)
    requires NoDuplicates(subs) && Inv(s, subs) && Watched(Record(ts, doc, cs), subs) && Storable(s.server, doc, ts)
    requires s.link.Live? || s.link.Offline?
    requires var t := AfterPut(s, subs, doc, cs, ts); k <= |t.down| && (s.link.Live? ==> k < |t.down|)
    ensures var v := CutAfter(AfterPut(s, subs, doc, cs, ts), subs, k);
            Safe(s.server, v.replica, subs) && Recorded(v, subs)
  {
    var t := AfterPut(s, subs, doc, cs, ts);
    StoredOk(s.server, subs, doc, cs, ts);
    PutRecorded(s, subs, doc, cs, ts);
    CutRecorded(t, subs, k);
    LiveCursorMatchesIndex(doc, cs, ts);
    if s.link.Live? {
      assert t.down[..k] == s.down[..k];
      SafePrefix(s.server, s.replica, s.down, subs, k);
    }
  }
}
