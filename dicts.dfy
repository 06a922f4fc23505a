/**
 * Insertion-ordered dictionaries as sequences of (key, value) pairs, built the way
 * Python's `dict` builds them: a key equal to a stored one replaces the stored value
 * in place (the stored key object is kept); a new key is appended at the end.
 * The key equality is a parameter: structural for descriptors, Python `==` for values.
 */
module Dicts {
  import opened Wrappers

  /** Keys are pairwise unequal, comparing each stored key with every later one. */
  predicate DistinctBy<K, V>(es: seq<(K, V)>, same: (K, K) -> bool)
  {
    forall i, j :: 0 <= i < j < |es| ==> !same(es[i].0, es[j].0)
  }

  /** Position of the first stored key equal to `k`. */
  function Find<K, V>(es: seq<(K, V)>, k: K, same: (K, K) -> bool): (r: Option<nat>)
    ensures r.Some? ==> r.value < |es| && same(es[r.value].0, k)
    ensures r.Some? ==> forall i :: 0 <= i < r.value ==> !same(es[i].0, k)
    ensures r.None? ==> forall i :: 0 <= i < |es| ==> !same(es[i].0, k)
  {
    if es == [] then None
    else if same(es[0].0, k) then Some(0)
    else match Find(es[1..], k, same)
      case None => None
      case Some(i) => Some(i + 1)
  }

  /** `d[k] = v`. */
  function Insert<K, V>(es: seq<(K, V)>, k: K, v: V, same: (K, K) -> bool): (r: seq<(K, V)>)
    ensures Find(es, k, same).None? ==> r == es + [(k, v)]
    ensures Find(es, k, same).Some? ==>
      var i := Find(es, k, same).value; r == es[i := (es[i].0, v)]
  {
    match Find(es, k, same)
    case None => es + [(k, v)]
    case Some(i) => es[i := (es[i].0, v)]
  }

  /** Inserting every pair in order, as `dict(pairs)` and a dict comprehension do. */
  function InsertAll<K, V>(acc: seq<(K, V)>, ps: seq<(K, V)>, same: (K, K) -> bool): seq<(K, V)>
    decreases |ps|
  {
    if ps == [] then acc else InsertAll(Insert(acc, ps[0].0, ps[0].1, same), ps[1..], same)
  }

  /** `d[k]` when present. */
  function Lookup<K, V>(es: seq<(K, V)>, k: K, same: (K, K) -> bool): Option<V>
  {
    match Find(es, k, same)
    case None => None
    case Some(i) => Some(es[i].1)
  }

  lemma InsertKeepsDistinct<K, V>(es: seq<(K, V)>, k: K, v: V, same: (K, K) -> bool)
    requires DistinctBy(es, same)
    ensures DistinctBy(Insert(es, k, v, same), same)
  {
  }

  /** Inserting pairs whose keys are already distinct (also from what is stored) appends them unchanged. */
  lemma {:induction false} InsertAllFresh<K, V>(acc: seq<(K, V)>, ps: seq<(K, V)>, same: (K, K) -> bool)
    requires DistinctBy(acc + ps, same)
    ensures InsertAll(acc, ps, same) == acc + ps
    decreases |ps|
  {
    if ps != [] {
      assert (acc + ps)[|acc|] == ps[0];
      assert Find(acc, ps[0].0, same).None? by {
        forall i | 0 <= i < |acc| ensures !same(acc[i].0, ps[0].0) {
          assert (acc + ps)[i] == acc[i];
        }
      }
      var acc' := acc + [ps[0]];
      assert acc' + ps[1..] == acc + ps;
      InsertAllFresh(acc', ps[1..], same);
    }
  }

  /** Every dict built by insertion has distinct keys. */
  lemma {:induction false} InsertAllDistinct<K, V>(acc: seq<(K, V)>, ps: seq<(K, V)>, same: (K, K) -> bool)
    requires DistinctBy(acc, same)
    ensures DistinctBy(InsertAll(acc, ps, same), same)
    decreases |ps|
  {
    if ps != [] {
      InsertKeepsDistinct(acc, ps[0].0, ps[0].1, same);
      InsertAllDistinct(Insert(acc, ps[0].0, ps[0].1, same), ps[1..], same);
    }
  }

  lemma {:induction false} FindAt<K, V>(es: seq<(K, V)>, q: K, i: nat, same: (K, K) -> bool)
    requires i < |es| && same(es[i].0, q)
    requires forall j :: 0 <= j < i ==> !same(es[j].0, q)
    ensures Find(es, q, same) == Some(i)
  {
    if i > 0 {
      assert !same(es[0].0, q);
      FindAt(es[1..], q, i - 1, same);
    }
  }

  /** Inserting a key and then looking it up gives the value just written. */
  lemma InsertThenLookup<K, V>(es: seq<(K, V)>, k: K, v: V, same: (K, K) -> bool)
    requires same(k, k)
    ensures Lookup(Insert(es, k, v, same), k, same) == Some(v)
  {
    var r := Insert(es, k, v, same);
    match Find(es, k, same)
    case None =>
      FindAt(r, k, |es|, same);
    case Some(i) =>
      FindAt(r, k, i, same);
  }

  lemma {:induction false} InsertAllSnoc<K, V>(acc: seq<(K, V)>, ps: seq<(K, V)>, p: (K, V), same: (K, K) -> bool)
    ensures InsertAll(acc, ps + [p], same) == Insert(InsertAll(acc, ps, same), p.0, p.1, same)
    decreases |ps|
  {
    if ps == [] {
      assert ps + [p] == [p];
    } else {
      assert (ps + [p])[1..] == ps[1..] + [p];
      InsertAllSnoc(Insert(acc, ps[0].0, ps[0].1, same), ps[1..], p, same);
    }
  }

  /**
   * When several pairs carry equal keys, the last one written decides the value:
   * the key of the final pair maps to the final pair's value.
   */
  lemma LastWriteWins<K, V>(acc: seq<(K, V)>, ps: seq<(K, V)>, k: K, v: V, same: (K, K) -> bool)
    requires same(k, k)
    ensures Lookup(InsertAll(acc, ps + [(k, v)], same), k, same) == Some(v)
  {
    InsertAllSnoc(acc, ps, (k, v), same);
    InsertThenLookup(InsertAll(acc, ps, same), k, v, same);
  }

  /** Every stored key satisfies `p` and every stored value `q`. */
  predicate AllPairs<K, V>(es: seq<(K, V)>, p: K -> bool, q: V -> bool)
  {
    forall i :: 0 <= i < |es| ==> p(es[i].0) && q(es[i].1)
  }

  /** Insertion only stores keys and values it was given. */
  lemma {:induction false} InsertAllPreserves<K, V>(acc: seq<(K, V)>, ps: seq<(K, V)>, same: (K, K) -> bool, p: K -> bool, q: V -> bool)
    requires AllPairs(acc, p, q) && AllPairs(ps, p, q)
    ensures AllPairs(InsertAll(acc, ps, same), p, q)
    decreases |ps|
  {
    if ps != [] {
      var acc' := Insert(acc, ps[0].0, ps[0].1, same);
      assert AllPairs(acc', p, q);
      assert AllPairs(ps[1..], p, q) by {
        forall i | 0 <= i < |ps[1..]| ensures p(ps[1..][i].0) && q(ps[1..][i].1) {
          assert ps[1..][i] == ps[i + 1];
        }
      }
      InsertAllPreserves(acc', ps[1..], same, p, q);
    }
  }

  /** Insertion never makes a dict longer than what it started from plus what was inserted. */
  lemma {:induction false} InsertAllLength<K, V>(acc: seq<(K, V)>, ps: seq<(K, V)>, same: (K, K) -> bool)
    ensures |InsertAll(acc, ps, same)| <= |acc| + |ps|
    decreases |ps|
  {
    if ps != [] {
      InsertAllLength(Insert(acc, ps[0].0, ps[0].1, same), ps[1..], same);
    }
  }
}
