/** The server end of the realtime channel: per-peer state, resume, and live broadcast. */
module BridgeModel {
  import opened Texts
  import opened Cursor
  import opened Documents
  import opened StoreKeys
  import opened StoreModel
  import opened ApStoreModel
  import opened Frames
  import opened ResumeModel
  import opened SyncSafety
  import opened SyncRuns

  datatype Peer = Peer(actorId: Option<Text>, subscriptions: seq<Text>)

  type PeerId = nat
  type Outbound = map<PeerId, seq<Frame>>

  predicate IsOwnCollection(actorId: Text, c: Text) {
    actorId <= c
  }

  predicate Authorized(actorId: Text, collections: seq<Text>) {
    forall i :: 0 <= i < |collections| ==> IsOwnCollection(actorId, collections[i])
  }

  lemma AuthorizedIs(actorId: Text, collections: seq<Text>)
    ensures Authorized(actorId, collections) <==> forall c :: c in collections ==> actorId <= c
  {
    assert forall i :: 0 <= i < |collections| ==> collections[i] in collections;
  }

  predicate Relevant(peer: Peer, event: Change) {
    peer.actorId.Some? && exists i :: 0 <= i < |event.collections| && event.collections[i] in peer.subscriptions
  }

  /** What one peer is sent for a change. */
  function BroadcastTo(peer: Peer, event: Change): seq<Frame> {
    var frame := BuildDataFrame(event);
    if frame.Some? && Relevant(peer, event) then [frame.value] else []
  }

  /** `Set` as an insertion-ordered sequence. */
  function Without(cs: seq<Text>, c: Text): seq<Text> {
    if cs == [] then [] else (if cs[0] == c then [] else [cs[0]]) + Without(cs[1..], c)
  }

  lemma {:induction false} WithoutElements(cs: seq<Text>, c: Text)
    ensures forall x :: x in Without(cs, c) <==> x in cs && x != c
    ensures NoDuplicates(cs) ==> NoDuplicates(Without(cs, c))
  {
    if cs != [] {
      var rest := Without(cs[1..], c);
      WithoutElements(cs[1..], c);
      assert cs == [cs[0]] + cs[1..];
      if NoDuplicates(cs) {
        assert NoDuplicates(cs[1..]) && cs[0] !in cs[1..] by {
          forall i, j | 0 <= i < j < |cs[1..]|
            ensures cs[1..][i] != cs[1..][j]
          {
            assert cs[i + 1] != cs[j + 1];
          }
        }
        assert forall i :: 0 <= i < |rest| ==> rest[i] in rest;
      }
    }
  }

  /** How a control frame changes the state of the peer that sent it. */
  function PeerAfter(peer: Peer, frame: Frame, registry: set<Text>): Peer {
    match frame
    case Hello(actorId) => if actorId in registry then peer.(actorId := Some(actorId)) else peer
    case Subscribe(c) =>
      if peer.actorId.Some? && c !in peer.subscriptions then peer.(subscriptions := peer.subscriptions + [c]) else peer
    case Unsubscribe(c) =>
      if peer.actorId.Some? then peer.(subscriptions := Without(peer.subscriptions, c)) else peer
    case _ => peer
  }

  class RealtimeBridge {
    const store: ApStore
    const registry: set<Text>
    var peers: map<PeerId, Peer>
    /** Frames handed to each connection. */
    var outbound: Outbound
    var closed: set<PeerId>

    ghost predicate Valid()
      reads this, store, store.adapter
    {
      && store.Valid() && peers.Keys <= outbound.Keys
      && forall p :: p in peers ==> NoDuplicates(peers[p].subscriptions)
                                    && forall c :: c in peers[p].subscriptions ==> DelimFree(c)
    }

    constructor (store: ApStore, registry: set<Text>)
      requires store.Valid()
      ensures Valid() && this.store == store && this.registry == registry
      ensures peers == map[] && outbound == map[] && closed == {}
    {
      this.store := store;
      this.registry := registry;
      peers, outbound, closed := map[], map[], {};
    }

    method OnConnection(p: PeerId)
      requires Valid() && p !in outbound
      modifies this`peers, this`outbound
      ensures Valid()
      ensures peers == old(peers)[p := Peer(None, [])] && outbound == old(outbound)[p := []]
    {
      peers := peers[p := Peer(None, [])];
      outbound := outbound[p := []];
    }

    method OnClose(p: PeerId)
      requires Valid()
      modifies this`peers
      ensures Valid() && peers == old(peers) - {p}
    {
      peers := peers - {p};
    }

    /** Broadcasts a change to every peer it concerns; when building the frame throws nothing is sent,
        and the exception reaches whoever emitted the change. */
    method OnChange(event: Change) returns (threw: bool)
      requires Valid()
      modifies this`outbound
      ensures threw <==> BuildDataFrame(event).None?
      ensures Valid() && outbound.Keys == old(outbound).Keys
      ensures forall p :: p in outbound ==>
                outbound[p] == old(outbound)[p] + if p in peers then BroadcastTo(peers[p], event) else []
    {
      var frame := BuildDataFrame(event);
      if frame.None? {
        return true;
      }
      var todo := peers.Keys;
      while todo != {}
        invariant todo <= peers.Keys && peers.Keys <= outbound.Keys && outbound.Keys == old(outbound).Keys
        invariant forall p :: p in outbound ==>
                    outbound[p] == old(outbound)[p]
                                   + if p in peers && p !in todo then BroadcastTo(peers[p], event) else []
      {
        var p :| p in todo;
        if Relevant(peers[p], event) {
          outbound := outbound[p := outbound[p] + [frame.value]];
        }
        todo := todo - {p};
      }
      return false;
    }

    /** A control frame from a peer. */
    method OnControl(p: PeerId, frame: Frame)
      requires Valid() && p in peers && !frame.Data?
      requires frame.Subscribe? ==> DelimFree(frame.collectionId)
      modifies this`peers, this`outbound, this`closed
      ensures Valid() && store.records == old(store.records)
      ensures peers == old(peers)[p := PeerAfter(old(peers)[p], frame, registry)]
      ensures closed == old(closed) + if frame.Hello? && frame.actorId !in registry then {p} else {}
      ensures outbound == if frame.Resume? && old(peers)[p].actorId.Some?
                          then old(outbound)[p := old(outbound)[p]
                                                    + ResumeReply(store.records, old(peers)[p], frame.since)]
                          else old(outbound)
    {
      var peer := peers[p];
      if frame.Hello? {
        if frame.actorId !in registry {
          closed := closed + {p};
          return;
        }
        peers := peers[p := peer.(actorId := Some(frame.actorId))];
        return;
      }
      if peer.actorId.None? {
        return;
      }
      if frame.Subscribe? {
        if frame.collectionId !in peer.subscriptions {
          peers := peers[p := peer.(subscriptions := peer.subscriptions + [frame.collectionId])];
        }
      } else if frame.Unsubscribe? {
        WithoutElements(peer.subscriptions, frame.collectionId);
        peers := peers[p := peer.(subscriptions := Without(peer.subscriptions, frame.collectionId))];
      } else if frame.Resume? {
        var sent, cursors := ReplayResume(store, peer.subscriptions, frame.since);
        outbound := outbound[p := outbound[p] + sent];
      }
    }

    /** A data frame from a peer: persisted, and thereby broadcast to everyone it concerns, only if
        every collection it names starts with the id of the actor the peer speaks for. A frame without a document
        makes `put` throw, and then nothing happens; so does the broadcast inside a put without collections
        whose timestamp no cursor can hold, and then the document is stored. */
    method OnData(p: PeerId, doc: Option<Doc>, collections: seq<Text>, now: int) returns (threw: bool)
      requires Valid() && p in peers && forall c :: c in collections ==> DelimFree(c)
      modifies this`outbound, store`records, store`emitted, store.adapter
      ensures Valid() && outbound.Keys == old(outbound).Keys
      ensures var actor := old(peers)[p].actorId;
              var allowed := doc.Some? && actor.Some? && forall c :: c in collections ==> actor.value <= c;
              if allowed then
                var (records, outcome) := PutEffect(old(store.records), doc.value, collections, now);
                && store.records == records
                && forall q :: q in outbound ==>
                     outbound[q] == old(outbound)[q]
                       + if outcome == Done && q in peers
                         then BroadcastTo(peers[q], Change(doc.value.id, doc, collections, Some(now))) else []
              else store.records == old(store.records) && outbound == old(outbound)
      ensures var actor := old(peers)[p].actorId;
              threw <==> && actor.Some? && (forall c :: c in collections ==> actor.value <= c)
                         && (doc.None? || PutEffect(old(store.records), doc.value, collections, now).1 != Done
                             || !Encodable(now))
    {
      var peer := peers[p];
      if peer.actorId.Some? {
        AuthorizedIs(peer.actorId.value, collections);
      }
      if peer.actorId.None? || !Authorized(peer.actorId.value, collections) {
        return false;
      }
      if doc.None? {
        return true;
      }
      var outcome := store.Put(doc.value, collections, now);
      if outcome != Done {
        return true;
      }
      LiveCursorMatchesIndex(doc.value, collections, now);
      threw := OnChange(Change(doc.value.id, doc, collections, Some(now)));
    }
  }

  /** What a resume sends back: the replay and its closing frame. */
  ghost function ResumeReply(records: Records, peer: Peer, since: Cursors): seq<Frame> {
    var (frames, cursors) := Replay(records, peer.subscriptions, since);
    frames + [Resumed(cursors)]
  }

  /** The bridge is the server of the protocol: to a connected peer that has said hello it sends for a
      put or a delete what that step of the state machine adds to the channel, and for a resume what its
      answer adds. */
  lemma BridgeIsServer(s: Sys, peer: Peer, doc: Doc, cs: seq<Text>, ts: int, id: Text)
    requires peer.actorId.Some? && ServerOk(s.server, peer.subscriptions) && !s.link.Offline?
    ensures Feasible(s, peer.subscriptions, Put(doc, cs, ts)) ==>
              Next(s, peer.subscriptions, Put(doc, cs, ts)).down
              == s.down + BroadcastTo(peer, Change(doc.id, Some(doc), cs, Some(ts)))
    ensures Feasible(s, peer.subscriptions, Step.Delete(id)) ==>
              Next(s, peer.subscriptions, Step.Delete(id)).down
              == s.down + BroadcastTo(peer, Change(id, None, s.server[id].collections, None))
    ensures Feasible(s, peer.subscriptions, Step.Answer) ==>
              Next(s, peer.subscriptions, Step.Answer).down == s.down + ResumeReply(s.server, peer, s.link.since)
  {
  }
}
