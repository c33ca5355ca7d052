/** The server half of a reconnect: replaying what a peer missed. */
module ResumeModel {
  import opened Texts
  import opened Cursor
  import opened Documents
  import opened StoreKeys
  import opened StoreModel
  import opened ApStoreModel
  import opened StoreLaws
  import opened Frames

  function SinceOf(since: Cursors, c: Text): Option<Text> {
    if c in since then since[c] else None
  }

  function ReplayFrame(c: Text, child: Child): Frame {
    Data(child.doc.id, Some(child.doc), [c], Some(child.cursor))
  }

  /** The data frames for one collection, oldest first. */
  function ReplayFrames(c: Text, children: seq<Child>): (frames: seq<Frame>)
    ensures |frames| == |children| && forall i :: 0 <= i < |frames| ==> frames[i] == ReplayFrame(c, children[i])
  {
    seq(|children|, i requires 0 <= i < |children| => ReplayFrame(c, children[i]))
  }

  /** What the replay of one more collection adds to what was sent and to the cursors. */
  ghost function WithCollection(records: Records, c: Text, since: Cursors, sent: (seq<Frame>, Cursors))
    : (seq<Frame>, Cursors)
  {
    var children := Since(records, c, SinceOf(since, c), None);
    (sent.0 + ReplayFrames(c, children),
     if children != [] then sent.1[c := NextCursor(children)]
     else if c in sent.1 then sent.1
     else sent.1[c := SinceOf(since, c)])
  }

  /** Everything a resume sends before its closing frame, and the cursors it closes with. */
  ghost function Replay(records: Records, subscriptions: seq<Text>, since: Cursors): (seq<Frame>, Cursors) {
    if subscriptions == [] then ([], map[])
    else
      var n := |subscriptions| - 1;
      WithCollection(records, subscriptions[n], since, Replay(records, subscriptions[..n], since))
  }

  method ReplayResume(store: ApStore, subscriptions: seq<Text>, since: Cursors)
    returns (sent: seq<Frame>, cursors: Cursors)
    requires store.Valid() && forall c :: c in subscriptions ==> DelimFree(c)
    ensures cursors == Replay(store.records, subscriptions, since).1
    ensures sent == Replay(store.records, subscriptions, since).0 + [Resumed(cursors)]
  {
    sent, cursors := [], map[];
    for i := 0 to |subscriptions|
      invariant (sent, cursors) == Replay(store.records, subscriptions[..i], since)
    {
      var collectionId := subscriptions[i];
      var sinceCursor := SinceOf(since, collectionId);
      var entries := store.GetChildrenSince(collectionId, sinceCursor, None);
      sent, cursors := SendEntries(collectionId, entries, sent, cursors);
      if collectionId !in cursors {
        cursors := cursors[collectionId := sinceCursor];
      }
      assert subscriptions[..i + 1][..i] == subscriptions[..i];
    }
    assert subscriptions[..|subscriptions|] == subscriptions;
    sent := sent + [Resumed(cursors)];
  }

  /** The inner loop: one data frame per entry, remembering the last cursor. */
  method SendEntries(collectionId: Text, entries: seq<Child>, sent0: seq<Frame>, cursors0: Cursors)
    returns (sent: seq<Frame>, cursors: Cursors)
    ensures sent == sent0 + ReplayFrames(collectionId, entries)
    ensures cursors == if entries == [] then cursors0 else cursors0[collectionId := NextCursor(entries)]
  {
    sent, cursors := sent0, cursors0;
    for j := 0 to |entries|
      invariant sent == sent0 + ReplayFrames(collectionId, entries)[..j]
      invariant cursors == if j == 0 then cursors0 else cursors0[collectionId := Some(entries[j - 1].cursor)]
    {
      sent := sent + [ReplayFrame(collectionId, entries[j])];
      cursors := cursors[collectionId := Some(entries[j].cursor)];
    }
  }

  // ---------------------------------------------------------------- what a replay sends

  ghost predicate NoDuplicates(cs: seq<Text>) {
    forall i, j :: 0 <= i < j < |cs| ==> cs[i] != cs[j]
  }

  function FramesFor(frames: seq<Frame>, c: Text): seq<Frame> {
    if frames == [] then []
    else FramesFor(frames[..|frames| - 1], c)
         + if frames[|frames| - 1].Data? && c in frames[|frames| - 1].collections then [frames[|frames| - 1]] else []
  }

  lemma {:induction false} FramesForConcat(xs: seq<Frame>, ys: seq<Frame>, c: Text)
    ensures FramesFor(xs + ys, c) == FramesFor(xs, c) + FramesFor(ys, c)
  {
    if ys == [] {
      assert xs + ys == xs;
    } else {
      assert (xs + ys)[..|xs + ys| - 1] == xs + ys[..|ys| - 1];
      FramesForConcat(xs, ys[..|ys| - 1], c);
    }
  }

  /** Frames tagged with one collection. */
  lemma {:induction false} FramesForTagged(frames: seq<Frame>, c: Text, d: Text)
    requires forall i :: 0 <= i < |frames| ==> frames[i].Data? && frames[i].collections == [c]
    ensures FramesFor(frames, d) == if c == d then frames else []
  {
    if frames != [] {
      var n := |frames| - 1;
      FramesForTagged(frames[..n], c, d);
      assert frames == frames[..n] + [frames[n]];
    }
  }

  lemma FramesForAdded(earlier: seq<Frame>, c: Text, children: seq<Child>, d: Text)
    ensures FramesFor(earlier + ReplayFrames(c, children), d) ==
            FramesFor(earlier, d) + if c == d then ReplayFrames(c, children) else []
  {
    FramesForConcat(earlier, ReplayFrames(c, children), d);
    FramesForTagged(ReplayFrames(c, children), c, d);
  }

  lemma WithCollectionKeys(records: Records, c: Text, since: Cursors, sent: (seq<Frame>, Cursors))
    ensures WithCollection(records, c, since, sent).1.Keys == sent.1.Keys + {c}
  {
  }

  lemma {:induction false} ReplayKeys(records: Records, subscriptions: seq<Text>, since: Cursors)
    ensures forall c :: c in Replay(records, subscriptions, since).1.Keys <==> c in subscriptions
  {
    if subscriptions != [] {
      var n := |subscriptions| - 1;
      ReplayKeys(records, subscriptions[..n], since);
      WithCollectionKeys(records, subscriptions[n], since, Replay(records, subscriptions[..n], since));
      assert subscriptions == subscriptions[..n] + [subscriptions[n]];
    }
  }

  /** For each collection a replay sends exactly the entries strictly after the peer's cursor,
      oldest first, and closes with the greatest of their cursors, or the peer's own. */
  lemma {:induction false} ReplayIsExact(records: Records, subscriptions: seq<Text>, since: Cursors, c: Text)
    requires NoDuplicates(subscriptions)
    ensures var (frames, cursors) := Replay(records, subscriptions, since);
            var missed := Since(records, c, SinceOf(since, c), None);
            && (c in cursors <==> c in subscriptions)
            && FramesFor(frames, c) == (if c in subscriptions then ReplayFrames(c, missed) else [])
            && (c in subscriptions ==>
                  cursors[c] == if missed == [] then SinceOf(since, c) else NextCursor(missed))
  {
    if subscriptions != [] {
      var n := |subscriptions| - 1;
      var front, last := subscriptions[..n], subscriptions[n];
      assert subscriptions == front + [last];
      assert last !in front;
      ReplayIsExact(records, front, since, c);
      ReplayKeys(records, front, since);
      ReplayOneMore(records, front, last, since, c);
    }
  }

  lemma ReplaySnoc(records: Records, front: seq<Text>, last: Text, since: Cursors)
    requires last !in Replay(records, front, since).1
    ensures var (earlier, before) := Replay(records, front, since);
            var children := Since(records, last, SinceOf(since, last), None);
            Replay(records, front + [last], since) ==
              (earlier + ReplayFrames(last, children),
               before[last := if children == [] then SinceOf(since, last) else NextCursor(children)])
  {
    assert (front + [last])[..|front|] == front;
  }

  lemma ReplayOneMore(records: Records, front: seq<Text>, last: Text, since: Cursors, c: Text)
    requires last !in Replay(records, front, since).1
    ensures var (earlier, before) := Replay(records, front, since);
            var (frames, cursors) := Replay(records, front + [last], since);
            var children := Since(records, last, SinceOf(since, last), None);
            && cursors == before[last := if children == [] then SinceOf(since, last) else NextCursor(children)]
            && FramesFor(frames, c) == FramesFor(earlier, c) + if c == last then ReplayFrames(last, children) else []
  {
    ReplaySnoc(records, front, last, since);
    FramesForAdded(Replay(records, front, since).0, last, Since(records, last, SinceOf(since, last), None), c);
  }

  ghost predicate AllTagged(frames: seq<Frame>) {
    forall i :: 0 <= i < |frames| ==> frames[i].Data? && |frames[i].collections| == 1
  }

  lemma LastTagged(frames: seq<Frame>)
    requires AllTagged(frames) && frames != []
    ensures exists c :: FramesFor(frames, c) != []
  {
    var last := frames[|frames| - 1];
    assert FramesFor(frames, last.collections[0]) != [];
  }

  lemma {:induction false} ReplayTagged(records: Records, subscriptions: seq<Text>, since: Cursors)
    ensures AllTagged(Replay(records, subscriptions, since).0)
  {
    if subscriptions != [] {
      var n := |subscriptions| - 1;
      var c := subscriptions[n];
      ReplayTagged(records, subscriptions[..n], since);
      var earlier := Replay(records, subscriptions[..n], since).0;
      var added := ReplayFrames(c, Since(records, c, SinceOf(since, c), None));
      assert Replay(records, subscriptions, since).0 == earlier + added;
      assert AllTagged(added);
    }
  }

  /** Resuming again from the returned cursors sends nothing and returns the same cursors. */
  lemma SecondResumeIsSilent(records: Records, subscriptions: seq<Text>, since: Cursors)
    requires NoDuplicates(subscriptions)
    ensures var cursors := Replay(records, subscriptions, since).1;
            Replay(records, subscriptions, cursors) == ([], cursors)
  {
    var cursors := Replay(records, subscriptions, since).1;
    var (again, cursors') := Replay(records, subscriptions, cursors);
    forall c
      ensures c in cursors <==> c in cursors'
      ensures c in cursors ==> cursors'[c] == cursors[c]
      ensures FramesFor(again, c) == []
    {
      ReplayIsExact(records, subscriptions, since, c);
      ReplayIsExact(records, subscriptions, cursors, c);
      CaughtUp(records, c, SinceOf(since, c));
    }
    ReplayTagged(records, subscriptions, cursors);
    assert cursors' == cursors;
    if again != [] {
      LastTagged(again);
    }
  }

  lemma SinceLast(records: Records, c: Text, since: Option<Text>)
    ensures var missed, later := Since(records, c, since, None), After(Listing(records, c), since);
            && |missed| == |later|
            && (later != [] ==> NextCursor(missed) == Some(CursorOf(later[|later| - 1])))
  {
  }

  lemma CaughtUp(records: Records, c: Text, since: Option<Text>)
    ensures var missed := Since(records, c, since, None);
            Since(records, c, if missed == [] then since else NextCursor(missed), None) == []
  {
    var later := After(Listing(records, c), since);
    SinceLast(records, c, since);
    if later != [] {
      AfterResumed(Listing(records, c), since, |later| - 1);
      SinceLast(records, c, Some(CursorOf(later[|later| - 1])));
    }
  }
}
