/** The ordered key-value adapter under the store. */
module MemoryAdapter {
  import opened Texts
  import opened Documents

  datatype Value = Stored(record: Record) | Ref(id: Text)

  type Entries = map<Text, Value>

  function Reverse<T>(s: seq<T>): (r: seq<T>)
    ensures |r| == |s| && forall i :: 0 <= i < |s| ==> r[i] == s[|s| - 1 - i]
  {
    seq(|s|, i requires 0 <= i < |s| => s[|s| - 1 - i])
  }

  /** `slice(0, limit)`, where no limit stands for `Infinity`. */
  function Take<T>(s: seq<T>, limit: Option<nat>): seq<T> {
    if limit.Some? && limit.value < |s| then s[..limit.value] else s
  }

  ghost function KeysUnder(entries: Entries, prefix: Text): set<Text> {
    set k | k in entries && prefix <= k
  }

  /** What `list` returns: the keys under a prefix in ascending or descending order, cut at `limit`. */
  ghost function Range(entries: Entries, prefix: Text, limit: Option<nat>, reverse: bool): (ks: seq<Text>)
    ensures forall k :: k in ks ==> k in entries
  {
    var ks := Sorted(KeysUnder(entries, prefix));
    var ordered := if reverse then Reverse(ks) else ks;
    assert forall i :: 0 <= i < |ks| ==> ks[i] in ks;
    Take(ordered, limit)
  }

  function InsertKey(ks: seq<Text>, k: Text): (r: seq<Text>) {
    if ks == [] then [k]
    else if Less(k, ks[0]) then [k] + ks
    else [ks[0]] + InsertKey(ks[1..], k)
  }

  lemma {:induction false} InsertKeepsOrder(ks: seq<Text>, k: Text)
    requires Ascending(ks) && k !in ks
    ensures Ascending(InsertKey(ks, k))
    ensures forall x :: x in InsertKey(ks, k) <==> x in ks || x == k
  {
    if ks != [] {
      assert ks == [ks[0]] + ks[1..];
      if Less(k, ks[0]) {
        forall i | 0 <= i < |ks|
          ensures Less(k, ks[i])
        {
          if i > 0 {
            LessTransitive(k, ks[0], ks[i]);
          }
        }
      } else {
        InsertKeepsOrder(ks[1..], k);
        LessTotal(k, ks[0]);
        var r := InsertKey(ks[1..], k);
        forall i | 0 <= i < |r|
          ensures Less(ks[0], r[i])
        {
          assert r[i] in r;
        }
      }
    }
  }

  /** `Array.prototype.sort` on distinct keys. */
  method SortKeys(keys: set<Text>) returns (ks: seq<Text>)
    ensures ks == Sorted(keys)
  {
    ks := [];
    var rest := keys;
    while rest != {}
      invariant rest <= keys
      invariant Ascending(ks)
      invariant forall k :: k in ks <==> k in keys && k !in rest
    {
      var k :| k in rest;
      InsertKeepsOrder(ks, k);
      ks := InsertKey(ks, k);
      rest := rest - {k};
    }
    SortedIs(keys, ks);
  }

  function Lookup(entries: Entries, ks: seq<Text>): (found: seq<(Text, Value)>)
    requires forall k :: k in ks ==> k in entries
    ensures |found| == |ks|
    ensures forall i :: 0 <= i < |ks| ==> ks[i] in entries && found[i] == (ks[i], entries[ks[i]])
  {
    if ks == [] then [] else
      assert ks == [ks[0]] + ks[1..];
      [(ks[0], entries[ks[0]])] + Lookup(entries, ks[1..])
  }

  class MemoryStoreAdapter {
    var entries: Entries

    constructor ()
      ensures entries == map[]
    {
      entries := map[];
    }

    method Put(key: Text, value: Value)
      modifies this
      ensures entries == old(entries)[key := value]
    {
      entries := entries[key := value];
    }

    method Get(key: Text) returns (value: Option<Value>)
      ensures value == if key in entries then Some(entries[key]) else None
    {
      value := if key in entries then Some(entries[key]) else None;
    }

    method Delete(key: Text)
      modifies this
      ensures entries == old(entries) - {key}
    {
      entries := entries - {key};
    }

    method List(prefix: Text, limit: Option<nat>, reverse: bool) returns (found: seq<(Text, Value)>)
      ensures found == Lookup(entries, Range(entries, prefix, limit, reverse))
    {
      var keys := set k | k in entries && prefix <= k;
      assert keys == KeysUnder(entries, prefix);
      var ks := SortKeys(keys);
      if reverse {
        ks := Reverse(ks);
      }
      ks := Take(ks, limit);
      assert ks == Range(entries, prefix, limit, reverse);
      found := Lookup(entries, ks);
    }
  }
}
