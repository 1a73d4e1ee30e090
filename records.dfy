/** The records that flow from the parser to the tree builder
    (custom_types.py): one RouteDetails per route, kept in a dictionary from
    route id to record. A Python dict keeps its keys in insertion order, so
    it is modelled as a sequence of entries with distinct keys. */
module Records {
  import opened Wrappers

  /** A route record as `organize_route_details` builds it. The pitch count
      and the length stay the text of their cells; the rating and the
      coordinates are numbers. */
  datatype RouteDetails = RouteDetails(
    name: string, area: seq<string>, grade: string, routeTypes: seq<string>,
    numPitches: string, length: string, rating: real, numReviewers: int,
    coordinates: (real, real))

  /** A dict with string keys: its entries in insertion order. */
  type Dict<V> = seq<(string, V)>

  function Keys<V>(d: Dict<V>): (ks: seq<string>)
    ensures |ks| == |d| && forall i :: 0 <= i < |d| ==> ks[i] == d[i].0
  {
    if d == [] then [] else [d[0].0] + Keys(d[1..])
  }

  predicate DistinctKeys<V>(d: Dict<V>) {
    forall i, j :: 0 <= i < j < |d| ==> d[i].0 != d[j].0
  }

  /** `d.get(k)`: the value stored under `k`, if any. */
  function Lookup<V>(d: Dict<V>, k: string): (r: Option<V>)
    ensures r.None? <==> k !in Keys(d)
  {
    assert d != [] ==> Keys(d) == [d[0].0] + Keys(d[1..]);
    if d == [] then None
    else if d[0].0 == k then Some(d[0].1)
    else Lookup(d[1..], k)
  }

  /** `d[k] = v`: a present key keeps its place and takes the new value; a
      new key goes at the end. */
  function Put<V>(d: Dict<V>, k: string, v: V): (r: Dict<V>)
  {
    if d == [] then [(k, v)]
    else if d[0].0 == k then [(k, v)] + d[1..]
    else [d[0]] + Put(d[1..], k, v)
  }

  /** After `d[k] = v`, `k` maps to `v` and every other key to what it did. */
  lemma {:induction false} PutLookup<V>(d: Dict<V>, k: string, v: V, q: string)
    ensures Lookup(Put(d, k, v), q) == if q == k then Some(v) else Lookup(d, q)
  {
    if d != [] && d[0].0 != k {
      PutLookup(d[1..], k, v, q);
      assert Put(d, k, v)[1..] == Put(d[1..], k, v);
    }
  }

  /** `d[k] = v` appends `k` to the keys exactly when it was missing, and
      otherwise leaves the keys and their order alone. */
  lemma {:induction false} PutKeys<V>(d: Dict<V>, k: string, v: V)
    ensures Keys(Put(d, k, v)) == if k in Keys(d) then Keys(d) else Keys(d) + [k]
  {
    if d != [] && d[0].0 != k {
      PutKeys(d[1..], k, v);
      assert Put(d, k, v)[1..] == Put(d[1..], k, v);
      assert Keys(d) == [d[0].0] + Keys(d[1..]);
      assert Keys(Put(d, k, v)) == [d[0].0] + Keys(Put(d[1..], k, v));
    } else if d != [] {
      assert Keys(d) == [k] + Keys(d[1..]);
      assert Keys(Put(d, k, v)) == [k] + Keys(d[1..]);
    }
  }

  /** A dict never holds a key twice. */
  lemma PutDistinct<V>(d: Dict<V>, k: string, v: V)
    requires DistinctKeys(d)
    ensures DistinctKeys(Put(d, k, v))
  {
    PutKeys(d, k, v);
    var r := Put(d, k, v);
    forall i, j | 0 <= i < j < |r|
      ensures r[i].0 != r[j].0
    {
      assert Keys(r)[i] == r[i].0 && Keys(r)[j] == r[j].0;
      assert Keys(d)[i] == d[i].0;
      if j < |d| {
        assert Keys(d)[j] == d[j].0;
      }
    }
  }

  /** The entries stored one after another, as a loop of `d[k] = v` does. */
  function PutAll<V>(d: Dict<V>, es: seq<(string, V)>): Dict<V>
    decreases |es|
  {
    if es == [] then d else PutAll(Put(d, es[0].0, es[0].1), es[1..])
  }

  /** After the loop the keys are the old ones and those of the entries,
      each held once. */
  lemma {:induction false} PutAllKeys<V>(d: Dict<V>, es: seq<(string, V)>, q: string)
    requires DistinctKeys(d)
    ensures DistinctKeys(PutAll(d, es))
    ensures q in Keys(PutAll(d, es)) <==> q in Keys(d) || exists j :: 0 <= j < |es| && es[j].0 == q
    decreases |es|
  {
    if es != [] {
      PutDistinct(d, es[0].0, es[0].1);
      PutKeys(d, es[0].0, es[0].1);
      PutAllKeys(Put(d, es[0].0, es[0].1), es[1..], q);
      if exists j :: 0 <= j < |es[1..]| && es[1..][j].0 == q {
        var j :| 0 <= j < |es[1..]| && es[1..][j].0 == q;
        assert es[j + 1].0 == q;
      }
      if exists j :: 0 <= j < |es| && es[j].0 == q {
        var j :| 0 <= j < |es| && es[j].0 == q;
        if j > 0 {
          assert es[1..][j - 1].0 == q;
        }
      }
    }
  }

  /** A key no entry names keeps its old value. */
  lemma {:induction false} PutAllUntouched<V>(d: Dict<V>, es: seq<(string, V)>, q: string)
    requires forall j :: 0 <= j < |es| ==> es[j].0 != q
    ensures Lookup(PutAll(d, es), q) == Lookup(d, q)
    decreases |es|
  {
    if es != [] {
      PutLookup(d, es[0].0, es[0].1, q);
      assert forall j :: 0 <= j < |es[1..]| ==> es[1..][j] == es[j + 1];
      PutAllUntouched(Put(d, es[0].0, es[0].1), es[1..], q);
    }
  }

  /** The value of a key is the one its last entry gives. */
  lemma {:induction false} PutAllLast<V>(d: Dict<V>, es: seq<(string, V)>, j: nat)
    requires j < |es| && forall m :: j < m < |es| ==> es[m].0 != es[j].0
    ensures Lookup(PutAll(d, es), es[j].0) == Some(es[j].1)
    decreases |es|
  {
    var d1 := Put(d, es[0].0, es[0].1);
    assert forall m :: 0 <= m < |es[1..]| ==> es[1..][m] == es[m + 1];
    if j == 0 {
      PutLookup(d, es[0].0, es[0].1, es[0].0);
      PutAllUntouched(d1, es[1..], es[0].0);
    } else {
      PutAllLast(d1, es[1..], j - 1);
    }
  }
}
