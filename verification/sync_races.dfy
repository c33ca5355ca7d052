/** Puts between subscribing and replaying. */
module SyncRaces {
  import opened Texts
  import opened Cursor
  import opened Documents
  import opened StoreModel
  import opened Frames
  import opened ResumeModel
  import opened Replicas
  import opened SyncSafety
  import opened SyncReplays
  import opened SyncProtocol
  import opened SyncRuns
  import opened SyncLosses

  // ---------------------------------------------------------------- puts during the handshake

  /** A put to a subscribed collection during the handshake, whose live frame is delivered, with what
      was under way before, ahead of everything else. */
  ghost function Raced(s: Sys, subs: seq<Text>, doc: Doc, cs: seq<Text>, ts: int): Sys
    requires Encodable(ts)
  {
    AfterPut(s, subs, doc, cs, ts).(replica := RacedBy(s.replica, subs, doc, cs, ts), down := [])
  }

  function Racing(s: Sys, doc: Doc, cs: seq<Text>, ts: int): seq<Step> {
    [Put(doc, cs, ts)] + Deliveries(|s.down| + 1)
  }

  lemma RacedIsRun(s: Sys, subs: seq<Text>, doc: Doc, cs: seq<Text>, ts: int)
    requires Watched(Record(ts, doc, cs), subs) && Storable(s.server, doc, ts) && !s.link.Offline? && Silent(s.down)
    ensures IsRun(s, subs, Racing(s, doc, cs, ts))
    ensures Exec(s, subs, Racing(s, doc, cs, ts)) == Raced(s, subs, doc, cs, ts)
  {
    var t := AfterPut(s, subs, doc, cs, ts);
    RacedReplica(s, subs, doc, cs, ts);
    DeliverSome(t, subs, |t.down|);
    assert t.down[..|t.down|] == t.down && t.down[|t.down|..] == [];
    assert Racing(s, doc, cs, ts)[1..] == Deliveries(|t.down|);
  }

  lemma RacedRecorded(s: Sys, subs: seq<Text>, doc: Doc, cs: seq<Text>, ts: int)
    requires NoDuplicates(subs) && ServerOk(s.server, subs) && Recorded(s, subs)
    requires Watched(Record(ts, doc, cs), subs) && Storable(s.server, doc, ts) && !s.link.Offline? && Silent(s.down)
    ensures ServerOk(Raced(s, subs, doc, cs, ts).server, subs) && Recorded(Raced(s, subs, doc, cs, ts), subs)
  {
    RacedIsRun(s, subs, doc, cs, ts);
    RunRecorded(s, subs, Racing(s, doc, cs, ts));
  }

  /** An entry whose document the client has not got. */
  ghost predicate Missed(s: Sys, subs: seq<Text>, c: Text, e: Entry) {
    Lists(s.server, c, e) && !Has(s.server, s.replica, subs, c, e.id)
  }

  lemma RacePasses(s: Sys, subs: seq<Text>, doc: Doc, cs: seq<Text>, ts: int, c: Text, e: Entry)
    requires ServerOk(s.server, subs) && Recorded(s, subs) && c in cs && c in subs
    requires PutAllowed(s.server, s.issued, doc, cs, ts) && Missed(s, subs, c, e) && e.id != doc.id
    ensures var w := Raced(s, subs, doc, cs, ts);
            && w.server[e.id] == s.server[e.id] && Lists(w.server, c, e) && e == EntryIn(w.server, e.id)
            && (c, CursorOf(e)) in w.issued && Reached(w.replica, c, e) && !Held(w.server, w.replica, c, e.id)
  {
    StoredLists(s.server, doc, cs, ts, c, e);
    RacedCursor(s.replica, subs, doc, cs, ts, c);
    LessAsymmetric(CursorOf(e), CursorOf(Entry(ts, doc.id)));
  }

  lemma LostAtOnce(s: Sys, subs: seq<Text>, doc: Doc, cs: seq<Text>, ts: int, c: Text, e: Entry)
    requires NoDuplicates(subs) && Inv(s, subs) && s.link.Attached? && c in cs && c in subs
    requires PutAllowed(s.server, s.issued, doc, cs, ts) && Missed(s, subs, c, e) && e.id != doc.id
    ensures var w := Raced(s, subs, doc, cs, ts); ServerOk(w.server, subs) && Lost(w, c, e.id)
  {
    RacePasses(s, subs, doc, cs, ts, c, e);
    StoredOk(s.server, subs, doc, cs, ts);
  }

  /** Delivered while the client has not yet read its cursors, the frame costs it every entry it had
      missed, for good: no further run with puts in turn brings one back until it is put again or leaves. */
  lemma RaceWhileAttached(s: Sys, subs: seq<Text>, doc: Doc, cs: seq<Text>, ts: int, c: Text,
        e: Entry, steps: seq<Step>)
    requires NoDuplicates(subs) && Inv(s, subs) && s.link.Attached? && c in cs && c in subs
    requires PutAllowed(s.server, s.issued, doc, cs, ts) && Missed(s, subs, c, e) && e.id != doc.id
    requires var w := Raced(s, subs, doc, cs, ts); IsRun(w, subs, steps) && InTurn(w, subs, steps)
    requires forall i :: 0 <= i < |steps| ==> !About(steps[i], subs, e.id)
    ensures IsRun(s, subs, Racing(s, doc, cs, ts))
    ensures Exec(s, subs, Racing(s, doc, cs, ts)) == Raced(s, subs, doc, cs, ts)
    ensures Lost(Exec(Raced(s, subs, doc, cs, ts), subs, steps), c, e.id)
  {
    RacedIsRun(s, subs, doc, cs, ts);
    LostAtOnce(s, subs, doc, cs, ts, c, e);
    LostForGood(Raced(s, subs, doc, cs, ts), subs, steps, c, e.id);
  }

  lemma {:induction false} LastSetSome(frames: seq<Frame>, c: Text)
    ensures LastSet(frames, c).Some? <==> exists f :: f in frames && SetBy(f, c).Some?
    decreases |frames|
  {
    if frames != [] {
      assert frames == [frames[0]] + frames[1..];
      LastSetSome(frames[1..], c);
    }
  }

  /** The first `k` frames of an answer. */
  ghost function AnswerUpTo(server: Records, subs: seq<Text>, since: Cursors, k: nat): (fs: seq<Frame>)
    requires k <= |Replay(server, subs, since).0| + 1
    ensures FromReplay(server, subs, since, fs)
    ensures k <= |Replay(server, subs, since).0| ==> forall f :: f in fs ==> f in Replay(server, subs, since).0
  {
    var (frames, cursors) := Replay(server, subs, since);
    (frames + [Resumed(cursors)])[..k]
  }

  lemma SetsWhenFor(server: Records, subs: seq<Text>, since: Cursors, fs: seq<Frame>, c: Text)
    requires ServerOk(server, subs) && NoDuplicates(subs) && FromReplay(server, subs, since, fs)
    ensures FramesFor(fs, c) != [] ==> LastSet(fs, c).Some?
    ensures FramesFor(fs, c) == [] && (forall f :: f in fs ==> f.Data?) ==> LastSet(fs, c).None?
  {
    LastSetSome(fs, c);
    if FramesFor(fs, c) != [] {
      var f := FramesFor(fs, c)[0];
      FramesForElements(fs, c, f);
      ReplaySets(server, subs, since, f, c);
    } else {
      forall f | f in fs && f.Data? ensures SetBy(f, c).None? {
        FramesForElements(fs, c, f);
      }
    }
  }

  lemma ReplaySets(server: Records, subs: seq<Text>, since: Cursors, f: Frame, c: Text)
    requires ServerOk(server, subs) && NoDuplicates(subs)
    requires f in Replay(server, subs, since).0 && f.Data? && c in f.collections
    ensures SetBy(f, c).Some?
  {
    var d, e := ReplayFrameOf(server, subs, since, f);
    assert CursorOf(e) != [];
  }

  /** Every copy that `a` has, `b` has too. */
  ghost predicate HasAllOf(server: Records, a: Replica, b: Replica, subs: seq<Text>) {
    forall id :: HasCopy(server, a, subs, id) ==> HasCopy(server, b, subs, id)
  }

  /** The racing client runs ahead of one that did not get the frame: after the same frames of the
      answer it has every copy the other has, and its cursors differ at most where it ran ahead. */
  lemma RaceHasMore(server: Records, subs: seq<Text>, r: Replica, doc: Doc, cs: seq<Text>, ts: int,
        fs: seq<Frame>, d: Text)
    requires Keyed(server) && d in subs
    requires Encodable(ts) && doc.id in server && server[doc.id] == Record(ts, doc, cs)
    ensures var a := HandleAll(r, fs, Subscribed(subs));
            var b := HandleAll(RacedBy(r, subs, doc, cs, ts), fs, Subscribed(subs));
            && HasAllOf(server, a, b, subs)
            && (d !in cs || LastSet(fs, d).Some? ==> CursorIn(b, d) == CursorIn(a, d))
  {
    var r' := RacedBy(r, subs, doc, cs, ts);
    var a, b := HandleAll(r, fs, Subscribed(subs)), HandleAll(r', fs, Subscribed(subs));
    RacedCursor(r, subs, doc, cs, ts, d);
    HandleAllCursor(r, fs, subs, d);
    HandleAllCursor(r', fs, subs, d);
    DocsPatched(r, fs, Subscribed(subs));
    DocsPatched(r', fs, Subscribed(subs));
  }

  lemma AskedReplay(s: Sys, subs: seq<Text>, doc: Doc, cs: seq<Text>, ts: int, k: nat)
    requires NoDuplicates(subs) && Inv(s, subs) && s.link.Asked?
    requires PutAllowed(s.server, s.issued, doc, cs, ts)
    requires k <= |Replay(Stored(s.server, doc, cs, ts), subs, s.link.since).0| + 1
    ensures var server' := Stored(s.server, doc, cs, ts);
            var fs := AnswerUpTo(server', subs, s.link.since, k);
            var a := HandleAll(s.replica, fs, Subscribed(subs));
            && ServerOk(server', subs) && Safe(server', a, subs)
            && (k == |Replay(server', subs, s.link.since).0| + 1 ==> Synced(server', a, subs))
  {
    var server' := Stored(s.server, doc, cs, ts);
    StoredOk(s.server, subs, doc, cs, ts);
    PutKeepsSafe(s.server, s.replica, s.issued, subs, doc, cs, ts);
    ReplayIsSafe(server', s.replica, subs, s.link.since);
    var (frames, cursors) := Replay(server', subs, s.link.since);
    SafePrefix(server', s.replica, frames + [Resumed(cursors)], subs, k);
    if k == |frames| + 1 {
      assert (frames + [Resumed(cursors)])[..k] == frames + [Resumed(cursors)];
    }
  }

  /** These frames are received, then the connection drops. */
  ghost function Received(w: Sys, subs: seq<Text>, fs: seq<Frame>): Sys {
    w.(replica := HandleAll(w.replica, fs, Subscribed(subs)), link := Offline, down := [])
  }

  /** Frames of other collections file nothing in this one. */
  lemma HeldBefore(server: Records, r: Replica, subs: seq<Text>, fs: seq<Frame>, c: Text, id: Text)
    requires FramesFor(fs, c) == []
    ensures Held(server, HandleAll(r, fs, Subscribed(subs)), c, id) ==> Held(server, r, c, id)
  {
    DocsPatched(r, fs, Subscribed(subs));
    var f := PatchesAt(fs, id);
    FramesForElements(fs, c, f);
  }

  lemma UnansweredRace(s: Sys, subs: seq<Text>, doc: Doc, cs: seq<Text>, ts: int, c: Text, fs: seq<Frame>, e: Entry)
    requires NoDuplicates(subs) && Inv(s, subs) && s.link.Asked? && c in cs && c in subs
    requires PutAllowed(s.server, s.issued, doc, cs, ts) && Missed(s, subs, c, e) && e.id != doc.id
    requires var server' := Stored(s.server, doc, cs, ts);
             FromReplay(server', subs, s.link.since, fs) && FramesFor(fs, c) == [] && forall f :: f in fs ==> f.Data?
    ensures var w := Raced(s, subs, doc, cs, ts);
            Lost(Received(w, subs, fs), c, e.id)
  {
    var w, since := Raced(s, subs, doc, cs, ts), s.link.since;
    StoredOk(s.server, subs, doc, cs, ts);
    StoredLists(s.server, doc, cs, ts, c, Entry(ts, doc.id));
    RacePasses(s, subs, doc, cs, ts, c, e);
    SetsWhenFor(w.server, subs, since, fs, c);
    HandleAllCursor(w.replica, fs, subs, c);
    HeldBefore(w.server, w.replica, subs, fs, c, e.id);
  }

  lemma AnsweredIn(server: Records, subs: seq<Text>, since: Cursors, r: Replica, doc: Doc, cs: seq<Text>, ts: int,
        fs: seq<Frame>, d: Text)
    requires ServerOk(server, subs) && NoDuplicates(subs) && d in subs && FromReplay(server, subs, since, fs)
    requires Encodable(ts) && doc.id in server && server[doc.id] == Record(ts, doc, cs)
    requires NothingLost(server, HandleAll(r, fs, Subscribed(subs)), subs, d)
    ensures var a := HandleAll(r, fs, Subscribed(subs));
            var b := HandleAll(RacedBy(r, subs, doc, cs, ts), fs, Subscribed(subs));
            && (d !in cs || FramesFor(fs, d) != [] ==> NothingLost(server, b, subs, d))
            && (SyncedIn(server, a, subs, d) ==> SyncedIn(server, b, subs, d))
  {
    var a := HandleAll(r, fs, Subscribed(subs));
    var b := HandleAll(RacedBy(r, subs, doc, cs, ts), fs, Subscribed(subs));
    SetsWhenFor(server, subs, since, fs, d);
    RaceHasMore(server, subs, r, doc, cs, ts, fs, d);
    AheadIsSafe(server, a, b, subs, d);
  }

  /** What frames of the answer leave of the race: a collection is safe if the put did not concern it or
      one of its frames was delivered, and all are synced once the whole answer was. */
  lemma AnsweredRace(s: Sys, subs: seq<Text>, doc: Doc, cs: seq<Text>, ts: int, k: nat)
    requires NoDuplicates(subs) && Inv(s, subs) && s.link.Asked?
    requires PutAllowed(s.server, s.issued, doc, cs, ts)
    requires k <= |Replay(Stored(s.server, doc, cs, ts), subs, s.link.since).0| + 1
    ensures var w := Raced(s, subs, doc, cs, ts);
            var fs := AnswerUpTo(w.server, subs, s.link.since, k);
            var r := HandleAll(w.replica, fs, Subscribed(subs));
            && ServerOk(w.server, subs)
            && (forall d :: d in subs && (d !in cs || FramesFor(fs, d) != []) ==> NothingLost(w.server, r, subs, d))
            && (k == |Replay(w.server, subs, s.link.since).0| + 1 ==> Synced(w.server, r, subs))
  {
    var w, since := Raced(s, subs, doc, cs, ts), s.link.since;
    var fs := AnswerUpTo(w.server, subs, since, k);
    var a, r := HandleAll(s.replica, fs, Subscribed(subs)), HandleAll(w.replica, fs, Subscribed(subs));
    StoredLists(s.server, doc, cs, ts, [], Entry(ts, doc.id));
    AskedReplay(s, subs, doc, cs, ts, k);
    forall d | d in subs
      ensures d !in cs || FramesFor(fs, d) != [] ==> NothingLost(w.server, r, subs, d)
      ensures SyncedIn(w.server, a, subs, d) ==> SyncedIn(w.server, r, subs, d)
    {
      AnsweredIn(w.server, subs, since, s.replica, doc, cs, ts, fs, d);
    }
  }

  lemma AheadIsSafe(server: Records, a: Replica, b: Replica, subs: seq<Text>, d: Text)
    requires HasAllOf(server, a, b, subs)
    requires NothingLost(server, a, subs, d)
    ensures CursorIn(b, d) == CursorIn(a, d) ==> NothingLost(server, b, subs, d)
    ensures SyncedIn(server, a, subs, d) ==> SyncedIn(server, b, subs, d)
  {
    if CursorIn(b, d) == CursorIn(a, d) {
      forall e | Lists(server, d, e) && Reached(b, d, e) ensures HasCopy(server, b, subs, e.id) {
        assert Reached(a, d, e);
      }
    }
  }

  lemma NotLost(v: Sys, subs: seq<Text>, c: Text, e: Entry)
    requires NothingLost(v.server, v.replica, subs, c) && Lists(v.server, c, e) && c in subs
    requires !Several(v.server, subs, e.id)
    ensures !Lost(v, c, e.id)
  {
    if Reached(v.replica, c, e) {
      assert HasCopy(v.server, v.replica, subs, e.id);
    }
  }

  lemma DataUpTo(server: Records, subs: seq<Text>, since: Cursors, k: nat)
    requires k <= |Replay(server, subs, since).0|
    ensures forall f :: f in AnswerUpTo(server, subs, since, k) ==> f.Data?
  {
    ReplayTagged(server, subs, since);
  }

  /** An answer that has brought nothing of the collection yet has not brought its closing frame. */
  lemma NotYetClosed(s: Sys, subs: seq<Text>, doc: Doc, cs: seq<Text>, ts: int, c: Text, k: nat, e: Entry)
    requires NoDuplicates(subs) && Inv(s, subs) && s.link.Asked? && c in cs && c in subs
    requires PutAllowed(s.server, s.issued, doc, cs, ts) && Missed(s, subs, c, e) && e.id != doc.id
    requires k <= |Replay(Stored(s.server, doc, cs, ts), subs, s.link.since).0| + 1
    requires FramesFor(AnswerUpTo(Stored(s.server, doc, cs, ts), subs, s.link.since, k), c) == []
    ensures forall f :: f in AnswerUpTo(Stored(s.server, doc, cs, ts), subs, s.link.since, k) ==> f.Data?
  {
    var server' := Stored(s.server, doc, cs, ts);
    var (frames, cursors) := Replay(server', subs, s.link.since);
    MissedIsReplayed(s, subs, doc, cs, ts, c, e);
    var f := EntryFrame(server'[e.id].doc, c, e);
    FramesForElements(AnswerUpTo(server', subs, s.link.since, k), c, f);
    AmongAll(frames, Resumed(cursors), f);
    DataUpTo(server', subs, s.link.since, if k <= |frames| then k else 0);
  }

  lemma AmongAll<T>(xs: seq<T>, last: T, x: T)
    requires x in xs
    ensures x in (xs + [last])[..|xs| + 1]
  {
    assert (xs + [last])[..|xs| + 1] == xs + [last];
  }

  /** Frames of the answer decide: with none of the collection the entry is lost, with one it is not. */
  lemma AnswerDecides(s: Sys, subs: seq<Text>, doc: Doc, cs: seq<Text>, ts: int, c: Text, fs: seq<Frame>, e: Entry)
    requires NoDuplicates(subs) && Inv(s, subs) && s.link.Asked? && c in cs && c in subs
    requires PutAllowed(s.server, s.issued, doc, cs, ts) && Missed(s, subs, c, e) && e.id != doc.id
    requires FromReplay(Stored(s.server, doc, cs, ts), subs, s.link.since, fs)
    requires FramesFor(fs, c) == [] ==> forall f :: f in fs ==> f.Data?
    requires var w := Raced(s, subs, doc, cs, ts);
             FramesFor(fs, c) != [] ==> NothingLost(w.server, Received(w, subs, fs).replica, subs, c)
    ensures var v := Received(Raced(s, subs, doc, cs, ts), subs, fs);
            && (FramesFor(fs, c) == [] ==> Lost(v, c, e.id))
            && (!Several(v.server, subs, e.id) ==> (Lost(v, c, e.id) <==> FramesFor(fs, c) == []))
  {
    var w := Raced(s, subs, doc, cs, ts);
    if FramesFor(fs, c) == [] {
      UnansweredRace(s, subs, doc, cs, ts, c, fs, e);
    } else if !Several(w.server, subs, e.id) {
      RacePasses(s, subs, doc, cs, ts, c, e);
      NotLost(Received(w, subs, fs), subs, c, e);
    }
  }

  lemma DroppedUnanswered(s: Sys, subs: seq<Text>, doc: Doc, cs: seq<Text>, ts: int, c: Text, e: Entry)
    requires NoDuplicates(subs) && Inv(s, subs) && s.link.Asked? && c in cs && c in subs
    requires PutAllowed(s.server, s.issued, doc, cs, ts) && Missed(s, subs, c, e) && e.id != doc.id
    ensures Lost(CutAfter(Raced(s, subs, doc, cs, ts), subs, 0), c, e.id)
  {
    var w, none: seq<Frame> := Raced(s, subs, doc, cs, ts), [];
    assert w.down[..0] == none && FramesFor(none, c) == [];
    UnansweredRace(s, subs, doc, cs, ts, c, none, e);
  }

  lemma MissedIsReplayed(s: Sys, subs: seq<Text>, doc: Doc, cs: seq<Text>, ts: int, c: Text, e: Entry)
    requires NoDuplicates(subs) && Inv(s, subs) && s.link.Asked? && c in cs && c in subs
    requires PutAllowed(s.server, s.issued, doc, cs, ts)
    requires Missed(s, subs, c, e) && e.id != doc.id
    ensures var server' := Stored(s.server, doc, cs, ts);
            Lists(server', c, e) && EntryFrame(server'[e.id].doc, c, e) in Replay(server', subs, s.link.since).0
  {
    var server' := Stored(s.server, doc, cs, ts);
    StoredLists(s.server, doc, cs, ts, c, e);
    assert NothingLost(s.server, s.replica, subs, c);
    assert HasCopy(s.server, s.replica, subs, e.id) ==> Has(s.server, s.replica, subs, c, e.id);
    BringsUnreached(server', s.replica, subs, c, e.id);
    AfterElements(Listing(server', c), SinceOf(s.link.since, c), e);
    ReplayFrameFor(server', subs, s.link.since, c, e);
  }

  /** The race, then the pending answer, of which the first `k` frames are delivered before the
      connection drops. */
  ghost function AnsweredUpTo(s: Sys, subs: seq<Text>, doc: Doc, cs: seq<Text>, ts: int, k: nat): Sys
    requires Encodable(ts) && s.link.Asked?
    requires k <= |Replay(Stored(s.server, doc, cs, ts), subs, s.link.since).0| + 1
  {
    var w := Raced(s, subs, doc, cs, ts);
    Received(w, subs, AnswerUpTo(w.server, subs, s.link.since, k))
  }

  lemma AnsweredIsRun(s: Sys, subs: seq<Text>, doc: Doc, cs: seq<Text>, ts: int, k: nat)
    requires Encodable(ts) && s.link.Asked?
    requires k <= |Replay(Stored(s.server, doc, cs, ts), subs, s.link.since).0| + 1
    ensures var w := Raced(s, subs, doc, cs, ts);
            && IsRun(w, subs, [Answer] + (Deliveries(k) + [Drop]))
            && Exec(w, subs, [Answer] + (Deliveries(k) + [Drop])) == AnsweredUpTo(s, subs, doc, cs, ts, k)
  {
    var w := Raced(s, subs, doc, cs, ts);
    var x := Next(w, subs, Answer);
    var (frames, cursors) := Replay(w.server, subs, s.link.since);
    assert x.down == frames + [Resumed(cursors)];
    CutIsRun(x, subs, k);
    assert Cutting(x, k) == Deliveries(k) + [Drop];
    assert ([Answer] + Cutting(x, k))[1..] == Cutting(x, k);
  }

  /** Delivered after the client has read its cursors, the frame is made good by the pending answer,
      whose first frame for the collection takes the cursor back. So an entry the client had missed is
      lost, and then for good, exactly when the connection drops before that first frame is delivered;
      one in several subscribed collections at least then. */
  lemma RaceWhileAsked(s: Sys, subs: seq<Text>, doc: Doc, cs: seq<Text>, ts: int, c: Text, k: nat, e: Entry)
    requires NoDuplicates(subs) && Inv(s, subs) && s.link.Asked? && c in cs && c in subs
    requires PutAllowed(s.server, s.issued, doc, cs, ts) && Missed(s, subs, c, e) && e.id != doc.id
    requires k <= |Replay(Stored(s.server, doc, cs, ts), subs, s.link.since).0| + 1
    ensures Lost(CutAfter(Raced(s, subs, doc, cs, ts), subs, 0), c, e.id)
    ensures var v := AnsweredUpTo(s, subs, doc, cs, ts, k);
            var none := FramesFor(AnswerUpTo(v.server, subs, s.link.since, k), c) == [];
            && (none ==> Lost(v, c, e.id))
            && (!Several(v.server, subs, e.id) ==> (Lost(v, c, e.id) <==> none))
  {
    var fs := AnswerUpTo(Stored(s.server, doc, cs, ts), subs, s.link.since, k);
    DroppedUnanswered(s, subs, doc, cs, ts, c, e);
    AnsweredRace(s, subs, doc, cs, ts, k);
    if FramesFor(fs, c) == [] {
      NotYetClosed(s, subs, doc, cs, ts, c, k, e);
    }
    AnswerDecides(s, subs, doc, cs, ts, c, fs, e);
  }

  lemma AnsweredRecorded(s: Sys, subs: seq<Text>, doc: Doc, cs: seq<Text>, ts: int, k: nat)
    requires NoDuplicates(subs) && Inv(s, subs) && s.link.Asked?
    requires Watched(Record(ts, doc, cs), subs) && Storable(s.server, doc, ts)
    requires k <= |Replay(Stored(s.server, doc, cs, ts), subs, s.link.since).0| + 1
    ensures Recorded(AnsweredUpTo(s, subs, doc, cs, ts, k), subs)
  {
    RacedRecorded(s, subs, doc, cs, ts);
    AnsweredIsRun(s, subs, doc, cs, ts, k);
    RunRecorded(Raced(s, subs, doc, cs, ts), subs, [Answer] + (Deliveries(k) + [Drop]));
  }

  /** Once such a frame is delivered for each collection of the put, a reconnect brings every document,
      whenever the drop comes; and the whole answer does at once. */
  lemma RaceMadeGood(s: Sys, subs: seq<Text>, doc: Doc, cs: seq<Text>, ts: int, k: nat)
    requires NoDuplicates(subs) && Inv(s, subs) && s.link.Asked? && Watched(Record(ts, doc, cs), subs)
    requires PutAllowed(s.server, s.issued, doc, cs, ts)
    requires k <= |Replay(Stored(s.server, doc, cs, ts), subs, s.link.since).0| + 1
    ensures var v := AnsweredUpTo(s, subs, doc, cs, ts, k);
            var fs := AnswerUpTo(v.server, subs, s.link.since, k);
            && ((forall c :: c in cs && c in subs ==> FramesFor(fs, c) != []) ==>
                  forall c :: c in subs ==>
                    AgreeBut(v.server, Reconnected(v.server, v.replica, subs), subs, c, v.gone))
            && (k == |Replay(v.server, subs, s.link.since).0| + 1 ==>
                  forall c :: c in subs ==> AgreeBut(v.server, v.replica, subs, c, v.gone))
  {
    var v := AnsweredUpTo(s, subs, doc, cs, ts, k);
    var fs := AnswerUpTo(v.server, subs, s.link.since, k);
    AnsweredRace(s, subs, doc, cs, ts, k);
    AnsweredRecorded(s, subs, doc, cs, ts, k);
    if forall c :: c in cs && c in subs ==> FramesFor(fs, c) != [] {
      forall c | c in subs ensures AgreeBut(v.server, Reconnected(v.server, v.replica, subs), subs, c, v.gone) {
        SafeReconnect(v, subs, c);
      }
    }
    if k == |Replay(v.server, subs, s.link.since).0| + 1 {
      forall c | c in subs ensures AgreeBut(v.server, v.replica, subs, c, v.gone) {
        SyncedAgree(v, subs, c);
      }
    }
  }
}
