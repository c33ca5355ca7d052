/** What the control frames of a connection leave at the bridge, and what the client's handshake does. */
module Handshakes {
  import opened Texts
  import opened Frames
  import opened ResumeModel
  import opened SyncReplays
  import opened SyncRuns
  import opened BridgeModel
  import opened ClientModel

  // ---------------------------------------------------------------- what a connection has asked for

  /** The state of a new peer after these control frames, as `OnConnection` and `OnControl` leave it. */
  function PeerState(frames: seq<Frame>, registry: set<Text>): Peer {
    if frames == [] then Peer(None, [])
    else PeerAfter(PeerState(frames[..|frames| - 1], registry), frames[|frames| - 1], registry)
  }

  /** The `i`-th frame is a hello from a registered actor. */
  predicate GreetedAt(frames: seq<Frame>, registry: set<Text>, i: nat) {
    i < |frames| && frames[i].Hello? && frames[i].actorId in registry
  }

  ghost predicate GreetedBefore(frames: seq<Frame>, registry: set<Text>, k: nat) {
    exists i: nat :: i < k && GreetedAt(frames, registry, i)
  }

  /** The `k`-th frame subscribes to `c`, after a hello, and nothing takes that back. */
  ghost predicate SubscribedAt(frames: seq<Frame>, registry: set<Text>, c: Text, k: nat) {
    && k < |frames| && frames[k] == Frame.Subscribe(c) && GreetedBefore(frames, registry, k)
    && forall j :: k < j < |frames| ==> frames[j] != Unsubscribe(c)
  }

  /** And it is the first to do so. */
  ghost predicate EntersAt(frames: seq<Frame>, registry: set<Text>, c: Text, k: nat) {
    SubscribedAt(frames, registry, c, k) && forall j: nat :: j < k ==> !SubscribedAt(frames, registry, c, j)
  }

  /** The last hello from a registered actor was this one's. */
  ghost predicate SpeaksFor(frames: seq<Frame>, registry: set<Text>, actorId: Text) {
    exists i: nat :: GreetedAt(frames, registry, i) && frames[i].actorId == actorId
                     && forall j :: i < j < |frames| ==> !GreetedAt(frames, registry, j)
  }

  predicate IsGreeting(frame: Frame, registry: set<Text>) {
    frame.Hello? && frame.actorId in registry
  }

  lemma GreetedSnoc(front: seq<Frame>, last: Frame, registry: set<Text>)
    ensures forall i: nat :: GreetedAt(front + [last], registry, i)
              <==> if i < |front| then GreetedAt(front, registry, i) else i == |front| && IsGreeting(last, registry)
    ensures forall k: nat :: k <= |front| ==>
              (GreetedBefore(front + [last], registry, k) <==> GreetedBefore(front, registry, k))
    ensures GreetedBefore(front + [last], registry, |front| + 1)
       <==> GreetedBefore(front, registry, |front|) || IsGreeting(last, registry)
  {
    var frames, n := front + [last], |front|;
    forall i: nat
      ensures GreetedAt(frames, registry, i)
         <==> if i < n then GreetedAt(front, registry, i) else i == n && IsGreeting(last, registry)
    {
    }
    assert IsGreeting(last, registry) ==> GreetedAt(frames, registry, n);
    forall k: nat | k <= n ensures GreetedBefore(frames, registry, k) <==> GreetedBefore(front, registry, k) {
      if GreetedBefore(front, registry, k) {
        var i: nat :| i < k && GreetedAt(front, registry, i);
        assert GreetedAt(frames, registry, i);
      }
    }
    if GreetedBefore(front, registry, n) {
      var i: nat :| i < n && GreetedAt(front, registry, i);
      assert GreetedAt(frames, registry, i);
    }
  }

  lemma SubscribedSnoc(front: seq<Frame>, last: Frame, registry: set<Text>, c: Text, k: nat)
    ensures SubscribedAt(front + [last], registry, c, k)
       <==> if k < |front| then SubscribedAt(front, registry, c, k) && last != Unsubscribe(c)
            else k == |front| && last == Frame.Subscribe(c) && GreetedBefore(front, registry, k)
  {
    var frames := front + [last];
    GreetedSnoc(front, last, registry);
    assert frames[|front|] == last;
    assert forall j :: 0 <= j < |front| ==> frames[j] == front[j];
  }

  /** Whom the peer speaks for: the actor of the last hello that named a registered one. */
  lemma {:induction false} ActorIs(frames: seq<Frame>, registry: set<Text>)
    ensures PeerState(frames, registry).actorId.Some? <==> GreetedBefore(frames, registry, |frames|)
    ensures forall a :: PeerState(frames, registry).actorId == Some(a) <==> SpeaksFor(frames, registry, a)
  {
    if frames != [] {
      var n := |frames| - 1;
      var front, last := frames[..n], frames[n];
      assert frames == front + [last];
      ActorIs(front, registry);
      GreetedSnoc(front, last, registry);
      forall a ensures PeerState(frames, registry).actorId == Some(a) <==> SpeaksFor(frames, registry, a) {
        if IsGreeting(last, registry) {
          assert GreetedAt(frames, registry, n);
        } else {
          SpeaksForSnoc(front, last, registry, a);
        }
      }
    }
  }

  lemma SpeaksForSnoc(front: seq<Frame>, last: Frame, registry: set<Text>, a: Text)
    requires !IsGreeting(last, registry)
    ensures SpeaksFor(front + [last], registry, a) <==> SpeaksFor(front, registry, a)
  {
    var frames := front + [last];
    GreetedSnoc(front, last, registry);
    assert forall i: nat :: i < |front| ==> frames[i] == front[i];
    if SpeaksFor(front, registry, a) {
      var i: nat :| GreetedAt(front, registry, i) && front[i].actorId == a
                    && forall j :: i < j < |front| ==> !GreetedAt(front, registry, j);
      assert GreetedAt(frames, registry, i) && frames[i].actorId == a;
    }
  }

  ghost predicate EverSubscribed(frames: seq<Frame>, registry: set<Text>, c: Text) {
    exists k: nat :: SubscribedAt(frames, registry, c, k)
  }

  lemma EverSnoc(front: seq<Frame>, last: Frame, registry: set<Text>, c: Text)
    ensures EverSubscribed(front, registry, c) ==> GreetedBefore(front, registry, |front|)
    ensures EverSubscribed(front + [last], registry, c)
       <==> || (EverSubscribed(front, registry, c) && last != Unsubscribe(c))
            || (last == Frame.Subscribe(c) && GreetedBefore(front, registry, |front|))
  {
    var frames, n := front + [last], |front|;
    forall k: nat ensures SubscribedAt(frames, registry, c, k)
        <==> if k < n then SubscribedAt(front, registry, c, k) && last != Unsubscribe(c)
             else k == n && last == Frame.Subscribe(c) && GreetedBefore(front, registry, k)
    {
      SubscribedSnoc(front, last, registry, c, k);
    }
    assert last == Frame.Subscribe(c) && GreetedBefore(front, registry, n) ==> SubscribedAt(frames, registry, c, n);
    if EverSubscribed(front, registry, c) {
      var k: nat :| SubscribedAt(front, registry, c, k);
      var i: nat :| i < k && GreetedAt(front, registry, i);
      assert i < n;
      assert last != Unsubscribe(c) ==> SubscribedAt(frames, registry, c, k);
    }
  }

  /** After any control frames a peer is subscribed to exactly the collections it has subscribed to after
      a hello from a registered actor and not left since. */
  lemma {:induction false} SubscriptionsAre(frames: seq<Frame>, registry: set<Text>, c: Text)
    ensures c in PeerState(frames, registry).subscriptions <==> exists k: nat :: SubscribedAt(frames, registry, c, k)
  {
    if frames != [] {
      var n := |frames| - 1;
      var front, last := frames[..n], frames[n];
      var peer := PeerState(front, registry);
      assert frames == front + [last];
      SubscriptionsAre(front, registry, c);
      ActorIs(front, registry);
      EverSnoc(front, last, registry, c);
      assert EverSubscribed(front, registry, c) <==> c in peer.subscriptions;
      if last.Unsubscribe? {
        WithoutElements(peer.subscriptions, last.collectionId);
      }
      assert c in PeerState(frames, registry).subscriptions <==> EverSubscribed(frames, registry, c);
    } else {
      assert forall k: nat :: !SubscribedAt(frames, registry, c, k);
    }
  }

  // ---------------------------------------------------------------- in which order

  ghost predicate Precedes(cs: seq<Text>, a: Text, b: Text) {
    exists i, j :: 0 <= i < j < |cs| && cs[i] == a && cs[j] == b
  }

  lemma {:induction false} WithoutPrecedes(cs: seq<Text>, c: Text, a: Text, b: Text)
    requires Precedes(Without(cs, c), a, b)
    ensures Precedes(cs, a, b)
  {
    var rest := Without(cs[1..], c);
    var left := Without(cs, c);
    var i, j :| 0 <= i < j < |left| && left[i] == a && left[j] == b;
    WithoutElements(cs[1..], c);
    if cs[0] != c && i == 0 {
      assert left == [cs[0]] + rest && rest[j - 1] == b && b in rest;
      var m :| 0 <= m < |cs[1..]| && cs[1..][m] == b;
      assert cs[0] == a && cs[m + 1] == b;
    } else {
      assert Precedes(rest, a, b) by {
        if cs[0] != c {
          assert rest[i - 1] == a && rest[j - 1] == b;
        } else {
          assert left == rest;
        }
      }
      WithoutPrecedes(cs[1..], c, a, b);
      var x, y :| 0 <= x < y < |cs[1..]| && cs[1..][x] == a && cs[1..][y] == b;
      assert cs[x + 1] == a && cs[y + 1] == b;
    }
  }

  lemma EntersSnoc(front: seq<Frame>, last: Frame, registry: set<Text>, c: Text, k: nat)
    requires EntersAt(front + [last], registry, c, k)
    ensures if EverSubscribed(front, registry, c) && last != Unsubscribe(c) then EntersAt(front, registry, c, k)
            else k == |front| && last == Frame.Subscribe(c)
  {
    forall j: nat ensures SubscribedAt(front + [last], registry, c, j)
        <==> if j < |front| then SubscribedAt(front, registry, c, j) && last != Unsubscribe(c)
             else j == |front| && last == Frame.Subscribe(c) && GreetedBefore(front, registry, j)
    {
      SubscribedSnoc(front, last, registry, c, j);
    }
  }

  /** Earlier in the subscriptions is subscribed to earlier. */
  ghost predicate InOrderOfEntry(frames: seq<Frame>, registry: set<Text>, cs: seq<Text>) {
    forall a, b, k: nat, l: nat ::
      Precedes(cs, a, b) && EntersAt(frames, registry, a, k) && EntersAt(frames, registry, b, l) ==> k < l
  }

  lemma PrecedesSnoc(cs: seq<Text>, c: Text, a: Text, b: Text)
    requires Precedes(cs + [c], a, b)
    ensures Precedes(cs, a, b) || (a in cs && b == c)
  {
  }

  /** The subscriptions are kept each once, in the order in which they were entered. */
  lemma {:induction false} SubscriptionOrder(frames: seq<Frame>, registry: set<Text>)
    ensures NoDuplicates(PeerState(frames, registry).subscriptions)
    ensures InOrderOfEntry(frames, registry, PeerState(frames, registry).subscriptions)
  {
    if frames != [] {
      var n := |frames| - 1;
      var front, last := frames[..n], frames[n];
      var before, after := PeerState(front, registry).subscriptions, PeerState(frames, registry).subscriptions;
      assert frames == front + [last];
      SubscriptionOrder(front, registry);
      if last.Unsubscribe? {
        WithoutElements(before, last.collectionId);
      }
      forall a, b, k: nat, l: nat
        | Precedes(after, a, b) && EntersAt(frames, registry, a, k) && EntersAt(frames, registry, b, l)
        ensures k < l
      {
        OrderStep(front, last, registry, a, b, k, l);
      }
    }
  }

  lemma OrderStep(front: seq<Frame>, last: Frame, registry: set<Text>, a: Text, b: Text, k: nat, l: nat)
    requires var cs := PeerState(front, registry).subscriptions; NoDuplicates(cs) && InOrderOfEntry(front, registry, cs)
    requires Precedes(PeerState(front + [last], registry).subscriptions, a, b)
    requires EntersAt(front + [last], registry, a, k) && EntersAt(front + [last], registry, b, l)
    ensures k < l
  {
    var frames := front + [last];
    assert frames[..|front|] == front;
    var before, after := PeerState(front, registry).subscriptions, PeerState(frames, registry).subscriptions;
    EntersSnoc(front, last, registry, a, k);
    EntersSnoc(front, last, registry, b, l);
    SubscriptionsAre(front, registry, a);
    SubscriptionsAre(front, registry, b);
    if last.Subscribe? && after != before {
      PrecedesSnoc(before, last.collectionId, a, b);
    } else if last.Unsubscribe? && after != before {
      WithoutPrecedes(before, last.collectionId, a, b);
      WithoutElements(before, last.collectionId);
    }
    assert Precedes(before, a, b) || (a in before && b !in before && last == Frame.Subscribe(b));
  }

  // ---------------------------------------------------------------- the client's handshake

  /** What a client sends on connecting: hello, one subscription each, and then the resume. */
  lemma HandshakeShape(actorId: Text, subs: seq<Text>, since: Cursors)
    ensures var frames := Handshake(actorId, subs, since);
            && |frames| == |subs| + 2 && frames[0] == Hello(actorId) && frames[|subs| + 1] == Resume(since)
            && forall i :: 0 <= i < |subs| ==> frames[i + 1] == Frame.Subscribe(subs[i])
  {
    Between(Hello(actorId), Subscribes(subs), Resume(since));
  }

  lemma Between<T>(first: T, middle: seq<T>, last: T)
    ensures var all := [first] + middle + [last];
            && |all| == |middle| + 2 && all[0] == first && all[|middle| + 1] == last
            && forall i :: 0 <= i < |middle| ==> all[i + 1] == middle[i]
  {
  }

  lemma {:induction false} SubscribedInOrder(frames: seq<Frame>, registry: set<Text>, actorId: Text, subs: seq<Text>,
        n: nat)
    requires n <= |subs| && NoDuplicates(subs) && actorId in registry
    requires |frames| == n + 1 && frames[0] == Hello(actorId)
    requires forall i :: 0 <= i < n ==> frames[i + 1] == Frame.Subscribe(subs[i])
    ensures PeerState(frames, registry) == Peer(Some(actorId), subs[..n])
  {
    if n == 0 {
      assert frames[..0] == [];
    } else {
      SubscribedInOrder(frames[..n], registry, actorId, subs, n - 1);
      assert subs[..n] == subs[..n - 1] + [subs[n - 1]];
    }
  }

  /** A new peer that gets the handshake of a registered actor ends with that actor and exactly those
      subscriptions, in that order, already before the resume. */
  lemma HandshakePeer(actorId: Text, subs: seq<Text>, since: Cursors, registry: set<Text>)
    requires actorId in registry && NoDuplicates(subs)
    ensures var frames := Handshake(actorId, subs, since);
            && PeerState(frames, registry) == Peer(Some(actorId), subs)
            && PeerState(frames[..|subs| + 1], registry) == Peer(Some(actorId), subs)
  {
    var frames, n := Handshake(actorId, subs, since), |subs|;
    HandshakeShape(actorId, subs, since);
    SubscribedInOrder(frames[..n + 1], registry, actorId, subs, n);
    assert subs[..n] == subs;
    assert frames[..|frames| - 1] == frames[..n + 1];
  }

  /** And it is sent the replay from the client's own cursors: the handshake is the machine's attach, ask
      and answer. */
  lemma HandshakeAttaches(s: Sys, actorId: Text, subs: seq<Text>, registry: set<Text>)
    requires actorId in registry && NoDuplicates(subs) && s.link.Offline? && s.down == []
    ensures var since := AskFor(s.replica, subs);
            var peer := PeerState(Handshake(actorId, subs, since), registry);
            && IsRun(s, subs, [Attach, Ask, Step.Answer])
            && Exec(s, subs, [Attach, Ask, Step.Answer])
               == s.(link := Live, down := ResumeReply(s.server, peer, since))
  {
    var since := AskFor(s.replica, subs);
    HandshakePeer(actorId, subs, since, registry);
    HandshakeIsRun(s, subs, ResumeReply(s.server, Peer(Some(actorId), subs), since));
  }
}
