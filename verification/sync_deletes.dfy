/** What stays on the clients when a document leaves its collection: deleted, its frame has no document, so
    they reject it; filed elsewhere, they are sent nothing. */
module SyncDeletes {
  import opened Texts
  import opened Cursor
  import opened Documents
  import opened StoreModel
  import opened Frames
  import opened ResumeModel
  import opened Replicas
  import opened SyncSafety
  import opened SyncReplays
  import opened SyncProtocol
  import opened SyncRuns

  // ---------------------------------------------------------------- a delete and a reconnect

  /** A safe client without anything extra agrees with the server after a delete and a reconnect
      exactly when it had not got the document in the collection. */
  lemma DeletedOutcome(server: Records, r: Replica, subs: seq<Text>, c: Text, id: Text)
    requires ServerOk(server, subs) && c in subs && NothingLost(server, r, subs, c)
    requires forall i :: Filed(r, c, i) ==> Listed(server, c, i)
    requires Listed(server, c, id)
    ensures Agree(server - {id}, Reconnected(server - {id}, r, subs), subs, c) <==> !Filed(r, c, id)
  {
    var server' := server - {id};
    forall i | Listed(server', c, i) ensures Sent(server', r, subs, i) || Has(server', r, subs, c, i) {
      MissingIsSent(server, r, subs, c, i);
      OtherDocument(server, r, subs, id, c, i);
    }
    forall i | Filed(r, c, i) && i != id ensures Listed(server', c, i) {
      OtherDocument(server, r, subs, id, c, i);
    }
    ReconnectAgrees(server', r, subs, c, {});
  }

  lemma OtherDocument(server: Records, r: Replica, subs: seq<Text>, id: Text, c: Text, i: Text)
    requires i != id
    ensures var server' := server - {id};
            && (Listed(server', c, i) <==> Listed(server, c, i))
            && (Has(server', r, subs, c, i) <==> Has(server, r, subs, c, i))
            && (Sent(server', r, subs, i) <==> Sent(server, r, subs, i))
  {
    var server' := server - {id};
    assert forall d :: Listed(server', d, i) <==> Listed(server, d, i);
    assert i in server ==> server'[i] == server[i];
  }

  // ---------------------------------------------------------------- a delete in a run

  /** The client has a document in the collection that is in no subscribed collection of the server,
      and no frame under way takes it out. */
  ghost predicate Stuck(s: Sys, subs: seq<Text>, c: Text, id: Text) {
    && Filed(s.replica, c, id) && !(id in s.server && Watched(s.server[id], subs))
    && forall f :: f in s.down && Carries(f, id) ==> c in f.collections
  }

  lemma DroppedInv(s: Sys, subs: seq<Text>, k: nat)
    requires NoDuplicates(subs) && Inv(s, subs) && k <= |s.down|
    ensures Inv(CutAfter(s, subs, k), subs)
  {
    CutIsRun(s, subs, k);
    WithoutPuts(s, subs, Cutting(s, k));
    RunInv(s, subs, Cutting(s, k));
  }

  /** A document leaving puts no document on the channel. */
  lemma LeavesSilently(s: Sys, subs: seq<Text>, step: Step, id: Text) returns (added: seq<Frame>)
    requires Feasible(s, subs, step) && id in Leaving(s.server, Next(s, subs, step).server, subs)
    ensures Next(s, subs, step).down == s.down + added && Silent(added)
    ensures Next(s, subs, step).replica == s.replica && Next(s, subs, step).link == s.link
    ensures QuietStep(s, subs, step)
  {
    added := Next(s, subs, step).down[|s.down|..];
    if step.Put? {
      StoredLists(s.server, step.doc, step.cs, step.ts, [], Entry(step.ts, step.doc.id));
    }
  }

  lemma FiledWhenDrained(s: Sys, subs: seq<Text>, t: Sys, added: seq<Frame>, c: Text, id: Text)
    requires Inv(s, subs) && s.link.Live? && c in subs && Listed(s.server, c, id) && !Several(s.server, subs, id)
    requires t.replica == s.replica && t.down == s.down + added && Silent(added)
    ensures Filed(CutAfter(t, subs, |t.down|).replica, c, id)
  {
    var r := HandleAll(s.replica, s.down, Subscribed(subs));
    assert t.down[..|t.down|] == t.down;
    SilentKeeps(s.server, r, added, subs);
    HandleAllConcat(s.replica, s.down, added, Subscribed(subs));
    assert SyncedIn(s.server, r, subs, c) && Lists(s.server, c, EntryIn(s.server, id));
    assert HasCopy(s.server, r, subs, id);
  }

  /** A document leaves the subscribed collections, then come `k` deliveries and a drop: a reconnect
      brings agreement exactly when the client has not got the document by then, nor has another one
      that left and neither came back nor is sent for another collection. Once a live channel has
      drained it has got it. */
  lemma LeaveOutcome(s: Sys, subs: seq<Text>, step: Step, c: Text, id: Text, k: nat)
    requires NoDuplicates(subs) && Inv(s, subs) && Feasible(s, subs, step) && PutInTurn(s, subs, step)
    requires c in subs && Listed(s.server, c, id)
    requires id in Leaving(s.server, Next(s, subs, step).server, subs) && k <= |Next(s, subs, step).down|
    ensures var t := Next(s, subs, step);
            var v, steps := CutAfter(t, subs, k), [step] + Cutting(t, k);
            && IsRun(s, subs, steps) && Exec(s, subs, steps) == v
            && (Agree(v.server, Reconnected(v.server, v.replica, subs), subs, c)
                <==> && !Filed(v.replica, c, id)
                     && forall i :: i in v.gone && i != id && Filed(v.replica, c, i) && !Listed(v.server, c, i) ==>
                          Sent(v.server, v.replica, subs, i) || Several(v.server, subs, i))
            && (Filed(v.replica, c, id) ==> Stuck(v, subs, c, id))
            && (s.link.Live? && k == |t.down| && !Several(s.server, subs, id) ==> Filed(v.replica, c, id))
  {
    var t := Next(s, subs, step);
    var v := CutAfter(t, subs, k);
    var added := LeavesSilently(s, subs, step, id);
    StepInv(s, subs, step);
    CutIsRun(t, subs, k);
    assert ([step] + Cutting(t, k))[1..] == Cutting(t, k);
    DroppedInv(t, subs, k);
    SafeReconnect(v, subs, c);
    NotBack(v, subs, c, id);
    if s.link.Live? && !Several(s.server, subs, id) {
      FiledWhenDrained(s, subs, t, added, c, id);
    }
  }

  lemma NotBack(v: Sys, subs: seq<Text>, c: Text, id: Text)
    requires !(id in v.server && Watched(v.server[id], subs)) && c in subs
    ensures !Listed(v.server, c, id) && !Sent(v.server, v.replica, subs, id) && !Several(v.server, subs, id)
  {
    forall d | d in subs ensures !Listed(v.server, d, id) {
    }
  }

  /** So a client that has received everything, then the delete of a document, and reconnects does not agree
      with the server, for every server and document of one subscribed collection. */
  lemma DeleteStays(server: Records, subs: seq<Text>, c: Text, id: Text)
    requires ServerOk(server, subs) && NoDuplicates(subs) && c in subs
    requires Listed(server, c, id) && !Several(server, subs, id)
    ensures var s := AfterReconnect(Fresh(server), subs);
            var t := AfterDelete(s, subs, id);
            var v := CutAfter(t, subs, |t.down|);
            var steps := Reconnecting(Fresh(server), subs) + ([Delete(id)] + Cutting(t, |t.down|));
            && IsRun(Fresh(server), subs, steps) && Exec(Fresh(server), subs, steps) == v
            && !Agree(v.server, Reconnected(v.server, v.replica, subs), subs, c)
  {
    var s := AfterReconnect(Fresh(server), subs);
    var t := AfterDelete(s, subs, id);
    ReconnectIsRun(Fresh(server), subs);
    ReconnectInv(Fresh(server), subs);
    assert Feasible(s, subs, Delete(id)) by { assert c in server[id].collections; }
    LeaveOutcome(s, subs, Delete(id), c, id, |t.down|);
    RunConcat(Fresh(server), subs, Reconnecting(Fresh(server), subs), [Delete(id)] + Cutting(t, |t.down|));
  }

  lemma ReplayedIsWatched(server: Records, subs: seq<Text>, since: Cursors, f: Frame, id: Text)
    requires NoDuplicates(subs) && Keyed(server) && f in Replay(server, subs, since).0 && Carries(f, id)
    ensures id in server && Watched(server[id], subs)
  {
    var d, e := ReplayFrameOf(server, subs, since, f);
    assert d in server[e.id].collections;
  }

  lemma StuckAnswered(s: Sys, subs: seq<Text>, c: Text, id: Text)
    requires NoDuplicates(subs) && ServerOk(s.server, subs) && Stuck(s, subs, c, id) && s.link.Asked?
    ensures Stuck(Next(s, subs, Answer), subs, c, id)
  {
    var t, frames := Next(s, subs, Answer), Replay(s.server, subs, s.link.since).0;
    forall f | f in t.down && Carries(f, id) ensures c in f.collections {
      if f in frames {
        ReplayedIsWatched(s.server, subs, s.link.since, f, id);
      }
    }
  }

  lemma StuckDelivered(s: Sys, subs: seq<Text>, c: Text, id: Text)
    requires Stuck(s, subs, c, id) && s.down != []
    ensures Stuck(Next(s, subs, Deliver), subs, c, id)
  {
    assert s.down == [s.down[0]] + s.down[1..];
  }

  lemma StuckStep(s: Sys, subs: seq<Text>, step: Step, c: Text, id: Text)
    requires NoDuplicates(subs) && ServerOk(s.server, subs) && Stuck(s, subs, c, id)
    requires Feasible(s, subs, step) && !(step.Put? && step.doc.id == id)
    ensures Stuck(Next(s, subs, step), subs, c, id)
  {
    match step
    case Put(doc, cs, ts) => LiveCursorMatchesIndex(doc, cs, ts);
    case Answer => StuckAnswered(s, subs, c, id);
    case Deliver => StuckDelivered(s, subs, c, id);
    case _ =>
  }

  /** A delete, or a move out of the subscriptions, never reaches a client that has the document: over
      every further run, whatever the order of its puts, and however often the client reconnects, it
      keeps the document and the two sides disagree, until the document is put again. */
  lemma {:induction false} DeletesNeverArrive(s: Sys, subs: seq<Text>, steps: seq<Step>, c: Text, id: Text)
    requires NoDuplicates(subs) && ServerOk(s.server, subs) && c in subs && Stuck(s, subs, c, id)
    requires IsRun(s, subs, steps) && forall i :: 0 <= i < |steps| ==> !(steps[i].Put? && steps[i].doc.id == id)
    ensures var t := Exec(s, subs, steps); Stuck(t, subs, c, id) && !Agree(t.server, t.replica, subs, c)
    decreases |steps|
  {
    if steps == [] {
      NotBack(s, subs, c, id);
    } else {
      StepServerOk(s, subs, steps[0]);
      StuckStep(s, subs, steps[0], c, id);
      DeletesNeverArrive(Next(s, subs, steps[0]), subs, steps[1..], c, id);
    }
  }
}
