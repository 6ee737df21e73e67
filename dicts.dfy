/** A Python dict of string keys: its items in insertion order. */
module Dicts {
  import opened Wrappers
  import opened Values

  type Mapping = seq<(string, Value)>

  function Keys(m: Mapping): (ks: seq<string>)
    ensures |ks| == |m|
    ensures forall i :: 0 <= i < |m| ==> ks[i] == m[i].0
  {
    if m == [] then [] else [m[0].0] + Keys(m[1..])
  }

  predicate DistinctKeys(m: Mapping)
  {
    forall i, j :: 0 <= i < j < |m| ==> m[i].0 != m[j].0
  }

  /** `d.get(k)`: the value of the first item with key k. */
  function Lookup(m: Mapping, k: string): (r: Option<Value>)
    ensures r.None? <==> k !in Keys(m)
    ensures r.Some? ==> (k, r.value) in m
  {
    if m == [] then None
    else if m[0].0 == k then Some(m[0].1)
    else Lookup(m[1..], k)
  }

  /** `d[k] = v`: an existing key keeps its place and takes the new value, a
      new key goes at the end. */
  function Put(m: Mapping, k: string, v: Value): (r: Mapping)
    ensures k in Keys(m) ==> Keys(r) == Keys(m)
    ensures k !in Keys(m) ==> Keys(r) == Keys(m) + [k]
  {
    if m == [] then [(k, v)]
    else if m[0].0 == k then
      var r := [(k, v)] + m[1..];
      assert r[1..] == m[1..];
      r
    else
      var r := [m[0]] + Put(m[1..], k, v);
      assert r[1..] == Put(m[1..], k, v);
      r
  }

  /** After `d[k] = v`, k maps to v and every other key to what it did before. */
  lemma {:induction false} PutLookup(m: Mapping, k: string, v: Value, k': string)
    ensures Lookup(Put(m, k, v), k') == if k' == k then Some(v) else Lookup(m, k')
  {
    if m != [] && m[0].0 != k {
      var r := Put(m, k, v);
      assert r[1..] == Put(m[1..], k, v);
      PutLookup(m[1..], k, v, k');
    }
  }

  /** `d[k] = v` never makes a key appear twice. */
  lemma {:induction false} PutDistinct(m: Mapping, k: string, v: Value)
    requires DistinctKeys(m)
    ensures DistinctKeys(Put(m, k, v))
  {
    if m != [] && m[0].0 != k {
      var tail := Put(m[1..], k, v);
      var r := Put(m, k, v);
      assert r == [m[0]] + tail;
      PutDistinct(m[1..], k, v);
      assert m[0].0 !in Keys(m[1..]) by {
        forall i | 0 <= i < |m| - 1 ensures Keys(m[1..])[i] != m[0].0 {
          assert Keys(m[1..])[i] == m[i + 1].0;
        }
      }
      assert m[0].0 !in Keys(tail);
      forall i, j | 0 <= i < j < |r| ensures r[i].0 != r[j].0 {
        assert r[j].0 == Keys(tail)[j - 1];
        if i > 0 {
          assert r[i] == tail[i - 1] && r[j] == tail[j - 1];
        }
      }
    }
  }

  /** `d[k] = v` for a key not yet present appends the item. */
  lemma {:induction false} PutNew(m: Mapping, k: string, v: Value)
    requires k !in Keys(m)
    ensures Put(m, k, v) == m + [(k, v)]
  {
    if m != [] {
      assert Keys(m)[0] == m[0].0;
      assert k !in Keys(m[1..]) by { assert Keys(m[1..]) == Keys(m)[1..]; }
      assert m[0].0 != k;
      PutNew(m[1..], k, v);
      assert Put(m, k, v) == [m[0]] + Put(m[1..], k, v);
      assert [m[0]] + (m[1..] + [(k, v)]) == m + [(k, v)];
    }
  }

  /** With distinct keys, looking up the key of an item finds that item. */
  lemma {:induction false} LookupAt(m: Mapping, i: nat)
    requires DistinctKeys(m) && i < |m|
    ensures Lookup(m, m[i].0) == Some(m[i].1)
  {
    if i > 0 {
      assert DistinctKeys(m[1..]);
      assert m[1..][i - 1] == m[i];
      LookupAt(m[1..], i - 1);
    }
  }

  /** With distinct keys, every item is found by its key. */
  lemma LookupAll(m: Mapping)
    requires DistinctKeys(m)
    ensures forall i :: 0 <= i < |m| ==> Lookup(m, m[i].0) == Some(m[i].1)
  {
    forall i | 0 <= i < |m| ensures Lookup(m, m[i].0) == Some(m[i].1) {
      LookupAt(m, i);
    }
  }

  /** Items that carry distinct names in a given order form a dict with
      exactly those keys. */
  lemma KeysInOrder(m: Mapping, ks: seq<string>)
    requires |m| == |ks| && forall i :: 0 <= i < |m| ==> m[i].0 == ks[i]
    requires forall i, j :: 0 <= i < j < |ks| ==> ks[i] != ks[j]
    ensures Keys(m) == ks && DistinctKeys(m)
  {
  }
}
