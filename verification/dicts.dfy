/** Python dicts as the application uses them (stored results, configuration data): an
    association list in insertion order, where assigning to an existing key keeps its
    position and a new key goes last. */
module Dicts {
  import opened Wrappers

  /** Position of `k` among the keys (the last such position), or -1. */
  function IndexOf<V>(d: seq<(string, V)>, k: string): (i: int)
    ensures -1 <= i < |d|
    ensures i >= 0 ==> d[i].0 == k
    ensures i == -1 ==> forall j :: 0 <= j < |d| ==> d[j].0 != k
  {
    if |d| == 0 then -1
    else if d[|d| - 1].0 == k then |d| - 1
    else IndexOf(d[..|d| - 1], k)
  }

  /** `d.get(k)`. */
  function Get<V>(d: seq<(string, V)>, k: string): Option<V> {
    var i := IndexOf(d, k);
    if i >= 0 then Some(d[i].1) else None
  }

  /** `d[k] = v`. */
  function Put<V>(d: seq<(string, V)>, k: string, v: V): seq<(string, V)> {
    var i := IndexOf(d, k);
    if i >= 0 then d[i := (k, v)] else d + [(k, v)]
  }

  predicate KeysDistinct<V>(d: seq<(string, V)>) {
    forall i, j :: 0 <= i < j < |d| ==> d[i].0 != d[j].0
  }

  /** Lookup depends on the keys only. */
  lemma {:induction false} IndexOfSameKeys<V>(d: seq<(string, V)>, e: seq<(string, V)>, k: string)
    requires |d| == |e| && forall m :: 0 <= m < |d| ==> d[m].0 == e[m].0
    ensures IndexOf(d, k) == IndexOf(e, k)
  {
    if |d| > 0 && d[|d| - 1].0 != k {
      IndexOfSameKeys(d[..|d| - 1], e[..|e| - 1], k);
    }
  }

  /** Assignment behaves like a dict: the key now maps to the value, every other key keeps its
      value, and the dict grows only for a new key. */
  lemma PutGet<V>(d: seq<(string, V)>, k: string, v: V, k': string)
    ensures Get(Put(d, k, v), k) == Some(v)
    ensures k' != k ==> Get(Put(d, k, v), k') == Get(d, k')
    ensures |Put(d, k, v)| == |d| + (if Get(d, k).None? then 1 else 0)
  {
    var r := Put(d, k, v);
    if IndexOf(d, k) >= 0 {
      IndexOfSameKeys(d, r, k);
      IndexOfSameKeys(d, r, k');
    } else {
      assert r[..|d|] == d;
      if k' != k {
        assert IndexOf(r, k') == IndexOf(d, k');
      }
    }
  }

  /** Assignment keeps the keys distinct. */
  lemma PutDistinct<V>(d: seq<(string, V)>, k: string, v: V)
    requires KeysDistinct(d)
    ensures KeysDistinct(Put(d, k, v))
  {
  }
}
