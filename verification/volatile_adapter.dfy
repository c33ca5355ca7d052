/** The time-to-live adapter behind the ephemeral tier, and the dedup window built on it. */
module VolatileStore {
  import opened Texts

  datatype Timed = Timed(value: Text, expiresAt: int)

  type Timeds = map<Text, Timed>

  /** What is left at `now` of a map that forgets on purpose. */
  function Live(entries: Timeds, now: int): Timeds {
    map k | k in entries && now < entries[k].expiresAt :: entries[k]
  }

  class VolatileAdapter {
    var entries: Timeds
    const defaultTtlMs: int

    constructor (ttlMs: int)
      ensures entries == map[] && defaultTtlMs == ttlMs
    {
      entries := map[];
      defaultTtlMs := ttlMs;
    }

    /** Drops every expired entry, one at a time. */
    method Prune(now: int)
      modifies this
      ensures entries == Live(old(entries), now)
    {
      var before := entries;
      var todo := before.Keys;
      while todo != {}
        invariant todo <= before.Keys
        invariant entries == map k | k in before && (k in todo || now < before[k].expiresAt) :: before[k]
      {
        var k :| k in todo;
        if entries[k].expiresAt <= now {
          entries := entries - {k};
        }
        todo := todo - {k};
      }
    }

    /** `put` reads the clock twice: once to prune, once to stamp the entry. */
    method Put(key: Text, value: Text, ttlMs: Option<int>, pruneAt: int, stampAt: int)
      modifies this
      ensures entries == Live(old(entries), pruneAt)[key := Timed(value,
                           stampAt + if ttlMs.Some? then ttlMs.value else defaultTtlMs)]
    {
      Prune(pruneAt);
      entries := entries[key := Timed(value, stampAt + if ttlMs.Some? then ttlMs.value else defaultTtlMs)];
    }

    method Get(key: Text, now: int) returns (value: Option<Text>)
      modifies this
      ensures entries == Live(old(entries), now)
      ensures value == if key in old(entries) && now < old(entries)[key].expiresAt
                       then Some(old(entries)[key].value) else None
    {
      Prune(now);
      value := if key in entries then Some(entries[key].value) else None;
    }

    method Has(key: Text, now: int) returns (present: bool)
      modifies this
      ensures entries == Live(old(entries), now)
      ensures present <==> key in old(entries) && now < old(entries)[key].expiresAt
    {
      var value := Get(key, now);
      present := value.Some?;
    }

    method Delete(key: Text)
      modifies this
      ensures entries == old(entries) - {key}
    {
      entries := entries - {key};
    }

    /** Removes every entry under a prefix, for instance a whole session. */
    method Clear(prefix: Text)
      modifies this
      ensures entries == map k | k in old(entries) && !(prefix <= k) :: old(entries)[k]
    {
      var before := entries;
      var todo := before.Keys;
      while todo != {}
        invariant todo <= before.Keys
        invariant entries == map k | k in before && (k in todo || !(prefix <= k)) :: before[k]
      {
        var k :| k in todo;
        if prefix <= k {
          entries := entries - {k};
        }
        todo := todo - {k};
      }
    }
  }

  // ---------------------------------------------------------------- the dedup window

  /** One ephemeral delivery: when `has` looked, when `put` pruned, when `put` stamped. */
  datatype Delivery = Delivery(id: Text, readAt: int, pruneAt: int, stampAt: int)

  const SEEN: Text := Ascii("true")

  /** The dedup map after a delivery, as `has` followed by `put` leave it. */
  function Accept(seen: Timeds, d: Delivery, ttl: int): Timeds {
    Live(Live(seen, d.readAt), d.pruneAt)[d.id := Timed(SEEN, d.stampAt + ttl)]
  }

  /** Whether a delivery is announced: only when the window holds no trace of the id. */
  predicate Announces(seen: Timeds, d: Delivery) {
    !(d.id in seen && d.readAt < seen[d.id].expiresAt)
  }

  function Window(ds: seq<Delivery>, ttl: int): Timeds {
    if ds == [] then map[] else Accept(Window(ds[..|ds| - 1], ttl), ds[|ds| - 1], ttl)
  }

  /** The clock never runs backwards, neither within a delivery nor from one to the next. */
  ghost predicate Clocked(ds: seq<Delivery>) {
    && (forall i :: 0 <= i < |ds| ==> ds[i].readAt <= ds[i].pruneAt <= ds[i].stampAt)
    && (forall i, j :: 0 <= i < j < |ds| ==> ds[i].stampAt <= ds[j].readAt)
  }

  ghost predicate Covers(d: Delivery, id: Text, ttl: int, now: int) {
    d.id == id && now < d.stampAt + ttl
  }

  /** The lazily pruned map is, at any later time, the ideal one: an id is live exactly when one
      of its deliveries is less than `ttl` old. */
  lemma {:induction false} WindowIsIdeal(ds: seq<Delivery>, ttl: int, id: Text, now: int)
    requires Clocked(ds)
    requires forall i :: 0 <= i < |ds| ==> ds[i].stampAt <= now
    ensures var seen := Window(ds, ttl);
            id in seen && now < seen[id].expiresAt
            <==> exists i :: 0 <= i < |ds| && Covers(ds[i], id, ttl, now)
  {
    if ds != [] {
      var front, last := ds[..|ds| - 1], ds[|ds| - 1];
      WindowIsIdeal(front, ttl, id, now);
      assert forall i :: 0 <= i < |front| ==> front[i] == ds[i];
      if exists i :: 0 <= i < |front| && Covers(front[i], id, ttl, now) {
        var i :| 0 <= i < |front| && Covers(front[i], id, ttl, now);
        assert Covers(ds[i], id, ttl, now);
      }
      if last.id == id {
        if exists i :: 0 <= i < |ds| && Covers(ds[i], id, ttl, now) {
          var i :| 0 <= i < |ds| && Covers(ds[i], id, ttl, now);
          assert ds[i].stampAt <= last.stampAt;
        }
        assert Covers(ds[|ds| - 1], id, ttl, now) <==> now < last.stampAt + ttl;
      } else if exists i :: 0 <= i < |ds| && Covers(ds[i], id, ttl, now) {
        var i :| 0 <= i < |ds| && Covers(ds[i], id, ttl, now);
        assert i < |front| && Covers(front[i], id, ttl, now);
      }
    }
  }

  function LastStamp(ds: seq<Delivery>, id: Text): Option<int> {
    if ds == [] then None
    else
      var last := ds[|ds| - 1];
      if last.id == id then Some(last.stampAt) else LastStamp(ds[..|ds| - 1], id)
  }

  /** The ideal window: each id under the expiry of its last delivery, until then. */
  ghost function Ideal(ds: seq<Delivery>, ttl: int, now: int): Timeds {
    map id | id in (set d | d in ds :: d.id) && LastStamp(ds, id).Some? && now < LastStamp(ds, id).value + ttl ::
      Timed(SEEN, LastStamp(ds, id).value + ttl)
  }

  lemma {:induction false} WindowAt(ds: seq<Delivery>, ttl: int, id: Text, now: int)
    requires Clocked(ds)
    requires forall i :: 0 <= i < |ds| ==> ds[i].stampAt <= now
    ensures var seen, stamp := Window(ds, ttl), LastStamp(ds, id);
            && (id in seen && now < seen[id].expiresAt <==> stamp.Some? && now < stamp.value + ttl)
            && (id in seen && now < seen[id].expiresAt ==> seen[id] == Timed(SEEN, stamp.value + ttl))
            && (stamp.Some? ==> exists d :: d in ds && d.id == id)
  {
    if ds != [] {
      var front, last := ds[..|ds| - 1], ds[|ds| - 1];
      assert ds == front + [last];
      assert forall i :: 0 <= i < |front| ==> front[i] == ds[i];
      WindowAt(front, ttl, id, now);
    }
  }

  /** At any later time the lazily pruned map, with what has expired taken out, is the ideal one. */
  lemma WindowEqualsIdeal(ds: seq<Delivery>, ttl: int, now: int)
    requires Clocked(ds)
    requires forall i :: 0 <= i < |ds| ==> ds[i].stampAt <= now
    ensures Live(Window(ds, ttl), now) == Ideal(ds, ttl, now)
  {
    forall id
      ensures id in Live(Window(ds, ttl), now) <==> id in Ideal(ds, ttl, now)
      ensures id in Ideal(ds, ttl, now) ==> Live(Window(ds, ttl), now)[id] == Ideal(ds, ttl, now)[id]
    {
      WindowAt(ds, ttl, id, now);
    }
  }

  /** Over any run with a clock that never goes back, a delivery is announced exactly when no
      delivery of the same id was stamped less than `ttl` before: every delivery, announced or
      not, slides the window. */
  lemma DedupExact(ds: seq<Delivery>, k: nat, ttl: int)
    requires Clocked(ds) && k < |ds|
    ensures Announces(Window(ds[..k], ttl), ds[k])
       <==> forall i :: 0 <= i < k ==> !Covers(ds[i], ds[k].id, ttl, ds[k].readAt)
  {
    WindowIsIdeal(ds[..k], ttl, ds[k].id, ds[k].readAt);
    assert forall i :: 0 <= i < k ==> ds[..k][i] == ds[i];
    if !Announces(Window(ds[..k], ttl), ds[k]) {
      var i :| 0 <= i < |ds[..k]| && Covers(ds[..k][i], ds[k].id, ttl, ds[k].readAt);
      assert Covers(ds[i], ds[k].id, ttl, ds[k].readAt);
    } else {
      forall i | 0 <= i < k
        ensures !Covers(ds[i], ds[k].id, ttl, ds[k].readAt)
      {
        assert ds[..k][i] == ds[i];
        assert !Covers(ds[..k][i], ds[k].id, ttl, ds[k].readAt);
      }
    }
  }
}
