/**
 * Python dictionaries as association lists. Insertion order is kept because the
 * code depends on it: reduction paths index into `[*lps.values()]`, and the checker
 * reports the first offending name in iteration order.
 */
module Dicts {
  import opened Results

  datatype Item<V> = Item(key: string, val: V)

  /** A Python dict never holds a key twice. */
  predicate DistinctKeys<V>(d: seq<Item<V>>) {
    forall i, j :: 0 <= i < j < |d| ==> d[i].key != d[j].key
  }

  function Keys<V>(d: seq<Item<V>>): set<string> {
    set i | 0 <= i < |d| :: d[i].key
  }

  /** The keys in iteration order (`list(d.keys())`). */
  function KeyList<V>(d: seq<Item<V>>): (r: seq<string>)
    ensures |r| == |d|
    ensures forall i :: 0 <= i < |d| ==> r[i] == d[i].key
  {
    seq(|d|, i requires 0 <= i < |d| => d[i].key)
  }

  /** The values in iteration order (`[*d.values()]`). */
  function Values<V>(d: seq<Item<V>>): (r: seq<V>)
    ensures |r| == |d|
    ensures forall i :: 0 <= i < |d| ==> r[i] == d[i].val
  {
    seq(|d|, i requires 0 <= i < |d| => d[i].val)
  }

  /** Position of the first item with key `k`, if any. */
  function Find<V>(d: seq<Item<V>>, k: string): (r: Option<nat>)
    ensures r.None? <==> k !in Keys(d)
    ensures r.Some? ==> r.value < |d| && d[r.value].key == k
    ensures r.Some? ==> forall j :: 0 <= j < r.value ==> d[j].key != k
  {
    if d == [] then None
    else if d[0].key == k then Some(0)
    else match Find(d[1..], k)
      case None =>
        assert Keys(d) == {d[0].key} + Keys(d[1..]) by { KeysCons(d); }
        None
      case Some(j) => Some(j + 1)
  }

  /** `d[k]`, or `None` where Python would raise `KeyError`. */
  function Get<V>(d: seq<Item<V>>, k: string): (r: Option<V>)
    ensures r.Some? <==> k in Keys(d)
    ensures r.Some? ==> exists i :: 0 <= i < |d| && d[i] == Item(k, r.value)
  {
    match Find(d, k)
    case None => None
    case Some(i) =>
      assert d[i] == Item(k, d[i].val);
      Some(d[i].val)
  }

  /** The set of stored values (`set(d.values())`). */
  function ValueSet<V>(d: seq<Item<V>>): set<V> {
    set i | 0 <= i < |d| :: d[i].val
  }

  lemma KeysCons<V>(d: seq<Item<V>>)
    requires d != []
    ensures Keys(d) == {d[0].key} + Keys(d[1..])
  {
    forall k | k in Keys(d) ensures k in {d[0].key} + Keys(d[1..]) {
      var i :| 0 <= i < |d| && d[i].key == k;
      if i > 0 { assert d[1..][i - 1].key == k; }
    }
    forall k | k in Keys(d[1..]) ensures k in Keys(d) {
      var i :| 0 <= i < |d[1..]| && d[1..][i].key == k;
      assert d[i + 1].key == k;
    }
  }

  /** With distinct keys, `Get` returns the value stored at the key's unique position. */
  lemma GetAt<V>(d: seq<Item<V>>, i: nat)
    requires DistinctKeys(d) && i < |d|
    ensures Find(d, d[i].key) == Some(i)
    ensures Get(d, d[i].key) == Some(d[i].val)
  {
  }

  /** Two association lists with the same key sequence have the same key set. */
  lemma SameKeyList<V, W>(d: seq<Item<V>>, e: seq<Item<W>>)
    requires |d| == |e| && forall i :: 0 <= i < |d| ==> d[i].key == e[i].key
    ensures Keys(d) == Keys(e)
    ensures DistinctKeys(d) ==> DistinctKeys(e)
  {
    forall k | k in Keys(d) ensures k in Keys(e) {
      var i :| 0 <= i < |d| && d[i].key == k;
      assert e[i].key == k;
    }
    forall k | k in Keys(e) ensures k in Keys(d) {
      var i :| 0 <= i < |e| && e[i].key == k;
      assert d[i].key == k;
    }
  }

  /** Two dictionaries are equal as maps iff they have the same keys and agree at every key of the first. */
  lemma GetEverywhere<V>(d: seq<Item<V>>, e: seq<Item<V>>)
    requires DistinctKeys(d)
    ensures (forall k :: Get(d, k) == Get(e, k)) <==>
              Keys(d) == Keys(e) && forall j :: 0 <= j < |d| ==> Get(e, d[j].key) == Some(d[j].val)
  {
    forall j | 0 <= j < |d| {
      GetAt(d, j);
    }
    if Keys(d) == Keys(e) && forall j :: 0 <= j < |d| ==> Get(e, d[j].key) == Some(d[j].val) {
      forall k ensures Get(d, k) == Get(e, k) {
        if k in Keys(d) {
          var j :| 0 <= j < |d| && d[j].key == k;
        }
      }
    }
    if forall k :: Get(d, k) == Get(e, k) {
      forall k ensures k in Keys(d) <==> k in Keys(e) {
        assert Get(d, k).Some? <==> Get(e, k).Some?;
      }
    }
  }
}
