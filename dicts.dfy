/** Python's `dict`: its entries in insertion order, each key at most once. */
module Dicts {
  import opened Wrappers
  import Seqs

  /** Every dictionary of the modelled code maps a string to a string. */
  type Dict = seq<(string, string)>

  /** No key is stored twice, as in every dictionary Python builds. */
  predicate DistinctKeys(d: Dict)
  {
    forall i, j :: 0 <= i < j < |d| ==> d[i].0 != d[j].0
  }

  /** `d.get(k)`: the value stored under `k`, if any. */
  function Get(d: Dict, k: string): (r: Option<string>)
    ensures r.None? <==> forall i :: 0 <= i < |d| ==> d[i].0 != k
    ensures r.Some? ==> exists i :: 0 <= i < |d| && d[i] == (k, r.value)
  {
    if d == [] then None
    else if d[0].0 == k then Some(d[0].1)
    else Get(d[1..], k)
  }

  /** `d[k] = v`: a key already present keeps its position and takes the new value; a new
      key goes to the end. */
  function Put(d: Dict, k: string, v: string): (r: Dict)
    ensures Get(r, k) == Some(v)
    ensures forall k' :: k' != k ==> Get(r, k') == Get(d, k')
    ensures Get(d, k).None? ==> r == d + [(k, v)]
    ensures Get(d, k).Some? ==> |r| == |d| && forall i :: 0 <= i < |d| ==> r[i].0 == d[i].0
  {
    if d == [] then [(k, v)]
    else if d[0].0 == k then
      var r := [(k, v)] + d[1..];
      assert r[1..] == d[1..];
      r
    else
      var rest := Put(d[1..], k, v);
      var r := [d[0]] + rest;
      assert r[1..] == rest;
      Seqs.HeadTail(d);
      Seqs.AppendAssoc([d[0]], d[1..], [(k, v)]);
      r
  }

  /** Assignment never stores a key twice. */
  lemma PutKeepsDistinct(d: Dict, k: string, v: string)
    requires DistinctKeys(d)
    ensures DistinctKeys(Put(d, k, v))
  {
    var r := Put(d, k, v);
    if Get(d, k).None? {
      forall i, j | 0 <= i < j < |r| ensures r[i].0 != r[j].0 {
        if j == |d| {
          assert r[i] == d[i];
        }
      }
    }
  }

  /** The dictionary a loop builds by assigning each pair's value under its key in turn,
      starting from an empty dictionary. */
  function FromPairs(ps: seq<(string, string)>): (d: Dict)
    ensures DistinctKeys(d)
    ensures |d| <= |ps|
  {
    if ps == [] then []
    else
      var n := |ps| - 1;
      PutKeepsDistinct(FromPairs(ps[..n]), ps[n].0, ps[n].1);
      Put(FromPairs(ps[..n]), ps[n].0, ps[n].1)
  }

  /** The last pair is the last assignment. */
  lemma FromPairsLast(ps: seq<(string, string)>)
    requires ps != []
    ensures FromPairs(ps) == Put(FromPairs(ps[..|ps| - 1]), ps[|ps| - 1].0, ps[|ps| - 1].1)
  {
  }

  /** The index of the last pair whose key is `k`, or -1. */
  function LastWith(ps: seq<(string, string)>, k: string): (r: int)
    ensures -1 <= r < |ps|
    ensures r >= 0 ==> ps[r].0 == k
    ensures forall j :: r < j < |ps| ==> ps[j].0 != k
  {
    if ps == [] then -1
    else if ps[|ps| - 1].0 == k then |ps| - 1
    else LastWith(ps[..|ps| - 1], k)
  }

  /** A key is present exactly when some pair carries it, and then it holds the value of the
      last pair that does: later assignments overwrite earlier ones. */
  lemma {:induction false} FromPairsLastWins(ps: seq<(string, string)>, k: string)
    ensures Get(FromPairs(ps), k) ==
      if LastWith(ps, k) < 0 then None else Some(ps[LastWith(ps, k)].1)
  {
    if ps != [] {
      var n := |ps| - 1;
      FromPairsLastWins(ps[..n], k);
      if ps[n].0 != k {
        assert LastWith(ps, k) == LastWith(ps[..n], k);
      }
    }
  }

  /** Replaying the entries of a dictionary in order rebuilds that same dictionary. */
  lemma {:induction false} FromPairsOfDict(d: Dict)
    requires DistinctKeys(d)
    ensures FromPairs(d) == d
  {
    if d != [] {
      var n := |d| - 1;
      var p := d[..n];
      LastKeyIsNew(d);
      FromPairsOfDict(p);
      FromPairsLast(d);
      Seqs.SplitLast(d);
    }
  }

  /** Dropping the last entry keeps the keys distinct, and its key is then absent. */
  lemma LastKeyIsNew(d: Dict)
    requires DistinctKeys(d) && d != []
    ensures DistinctKeys(d[..|d| - 1])
    ensures Get(d[..|d| - 1], d[|d| - 1].0).None?
  {
    var p := d[..|d| - 1];
    forall i, j | 0 <= i < j < |p| ensures p[i].0 != p[j].0 {
      assert p[i] == d[i] && p[j] == d[j];
    }
    forall i | 0 <= i < |p| ensures p[i].0 != d[|d| - 1].0 {
      assert p[i] == d[i];
    }
  }
}
