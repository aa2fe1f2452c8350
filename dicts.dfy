/**
 * Python's `dict`, which remembers insertion order: an association list whose
 * keys are distinct. Assigning to a present key keeps its position; a new key
 * goes to the end.
 */
module Dicts {
  import opened Wrappers

  type Dict<K, V> = seq<(K, V)>

  function Keys<K, V>(d: Dict<K, V>): (ks: seq<K>)
    ensures |ks| == |d|
    ensures forall i :: 0 <= i < |d| ==> ks[i] == d[i].0
  {
    if d == [] then [] else [d[0].0] + Keys(d[1..])
  }

  /** `d.values()`, in order. */
  function Values<K, V>(d: Dict<K, V>): (vs: seq<V>)
    ensures |vs| == |d|
    ensures forall i :: 0 <= i < |d| ==> vs[i] == d[i].1
  {
    if d == [] then [] else [d[0].1] + Values(d[1..])
  }

  predicate DistinctKeys<K(==), V>(d: Dict<K, V>) {
    forall i, j :: 0 <= i < j < |d| ==> d[i].0 != d[j].0
  }

  /** `d.get(k)`. */
  function Get<K(==), V>(d: Dict<K, V>, k: K): Option<V> {
    if d == [] then None
    else if d[0].0 == k then Some(d[0].1)
    else Get(d[1..], k)
  }

  /** `d.get(k)` finds a value exactly when `k` is a key, and the value is one `k` is stored with. */
  lemma {:induction false} GetFound<K, V>(d: Dict<K, V>, k: K)
    ensures Get(d, k).None? <==> k !in Keys(d)
    ensures Get(d, k).Some? ==> exists i :: 0 <= i < |d| && d[i] == (k, Get(d, k).value)
  {
    if d != [] {
      assert Keys(d) == [d[0].0] + Keys(d[1..]);
      if d[0].0 != k {
        var t := d[1..];
        GetFound(t, k);
        if Get(t, k).Some? {
          var i :| 0 <= i < |t| && t[i] == (k, Get(t, k).value);
          assert d[i + 1] == t[i];
        }
      }
    }
  }

  /** In a dictionary with distinct keys, `d.get(k)` is the value stored at `k`'s position. */
  lemma {:induction false} GetAt<K, V>(d: Dict<K, V>, i: nat)
    requires DistinctKeys(d) && i < |d|
    ensures Get(d, d[i].0) == Some(d[i].1)
  {
    if i > 0 {
      assert d[0].0 != d[i].0;
      DistinctTail(d);
      assert d[1..][i - 1] == d[i];
      GetAt(d[1..], i - 1);
    }
  }

  /** `d[k] = v`. */
  function Put<K(==), V>(d: Dict<K, V>, k: K, v: V): Dict<K, V> {
    if d == [] then [(k, v)]
    else if d[0].0 == k then [(k, v)] + d[1..]
    else [d[0]] + Put(d[1..], k, v)
  }

  /** `d[k] = v` keeps the key order and appends a new key. */
  lemma {:induction false} PutKeys<K, V>(d: Dict<K, V>, k: K, v: V)
    ensures Keys(Put(d, k, v)) == if k in Keys(d) then Keys(d) else Keys(d) + [k]
  {
    if d != [] {
      assert Keys(d) == [d[0].0] + Keys(d[1..]);
      if d[0].0 == k {
        assert Keys(Put(d, k, v)) == [k] + Keys(d[1..]);
      } else {
        PutKeys(d[1..], k, v);
        var tail := Put(d[1..], k, v);
        assert Keys([d[0]] + tail) == [d[0].0] + Keys(tail);
      }
    }
  }

  /** After `d[k] = v`, `k` maps to `v` and every other key to what it mapped to before. */
  lemma {:induction false} PutGet<K, V>(d: Dict<K, V>, k: K, v: V, k': K)
    ensures Get(Put(d, k, v), k') == if k' == k then Some(v) else Get(d, k')
  {
    if d != [] && d[0].0 != k {
      PutGet(d[1..], k, v, k');
    }
  }

  lemma {:induction false} PutDistinct<K, V>(d: Dict<K, V>, k: K, v: V)
    requires DistinctKeys(d)
    ensures DistinctKeys(Put(d, k, v))
  {
    var r := Put(d, k, v);
    PutKeys(d, k, v);
    forall i, j | 0 <= i < j < |r| ensures r[i].0 != r[j].0 {
      assert r[i].0 == Keys(r)[i] && r[j].0 == Keys(r)[j];
      if j == |d| {
        assert k !in Keys(d);
      } else {
        assert Keys(r)[i] == Keys(d)[i] && Keys(r)[j] == Keys(d)[j];
      }
    }
  }

  /** The keys of `ks` that are not in `taken`, in their order. */
  function Fresh<K(==)>(ks: seq<K>, taken: seq<K>): seq<K> {
    if ks == [] then []
    else if ks[0] in taken then Fresh(ks[1..], taken)
    else [ks[0]] + Fresh(ks[1..], taken)
  }

  /** `{**a, **b}`: the entries of `a`, each overridden by `b`, then the keys new in `b`. */
  function Merge<K(==), V>(a: Dict<K, V>, b: Dict<K, V>): (r: Dict<K, V>)
    decreases |b|
  {
    if b == [] then a else Merge(Put(a, b[0].0, b[0].1), b[1..])
  }

  lemma {:induction false} MergeGet<K, V>(a: Dict<K, V>, b: Dict<K, V>, k: K)
    requires DistinctKeys(b)
    ensures Get(Merge(a, b), k) == if k in Keys(b) then Get(b, k) else Get(a, k)
    decreases |b|
  {
    if b != [] {
      DistinctTail(b);
      MergeGet(Put(a, b[0].0, b[0].1), b[1..], k);
      PutGet(a, b[0].0, b[0].1, k);
    }
  }

  lemma {:induction false} MergeKeys<K, V>(a: Dict<K, V>, b: Dict<K, V>)
    requires DistinctKeys(b)
    ensures Keys(Merge(a, b)) == Keys(a) + Fresh(Keys(b), Keys(a))
    decreases |b|
  {
    if b != [] {
      var x := b[0].0;
      var a' := Put(a, x, b[0].1);
      DistinctTail(b);
      MergeKeys(a', b[1..]);
      PutKeys(a, x, b[0].1);
      assert Keys(b) == [x] + Keys(b[1..]);
      FreshStep(Keys(a), Keys(b[1..]), x);
    }
  }

  /** One step of a merge, on the key lists alone. */
  lemma FreshStep<K>(ka: seq<K>, kb: seq<K>, x: K)
    requires x !in kb
    ensures var ka' := if x in ka then ka else ka + [x];
      ka' + Fresh(kb, ka') == ka + Fresh([x] + kb, ka)
  {
    assert ([x] + kb)[1..] == kb;
    if x !in ka {
      FreshSkips(kb, ka, x);
      assert ka + [x] + Fresh(kb, ka) == ka + ([x] + Fresh(kb, ka));
    }
  }

  /** Merging into a dictionary keeps its keys distinct. */
  lemma {:induction false} MergeDistinct<K, V>(a: Dict<K, V>, b: Dict<K, V>)
    requires DistinctKeys(a)
    ensures DistinctKeys(Merge(a, b))
    decreases |b|
  {
    if b != [] {
      PutDistinct(a, b[0].0, b[0].1);
      MergeDistinct(Put(a, b[0].0, b[0].1), b[1..]);
    }
  }

  lemma DistinctTail<K, V>(b: Dict<K, V>)
    requires b != [] && DistinctKeys(b)
    ensures DistinctKeys(b[1..]) && b[0].0 !in Keys(b[1..])
  {
    var t := b[1..];
    forall i, j | 0 <= i < j < |t| ensures t[i].0 != t[j].0 {
      assert t[i] == b[i + 1] && t[j] == b[j + 1];
    }
    forall i | 0 <= i < |t| ensures Keys(t)[i] != b[0].0 {
      assert Keys(t)[i] == b[i + 1].0;
    }
  }

  /** Adding a key that `ks` does not hold does not change what is fresh in `ks`. */
  lemma {:induction false} FreshSkips<K>(ks: seq<K>, taken: seq<K>, x: K)
    requires x !in ks
    ensures Fresh(ks, taken + [x]) == Fresh(ks, taken)
  {
    if ks != [] {
      FreshSkips(ks[1..], taken, x);
    }
  }

  /** Assigning to a present key replaces its entry in place. */
  lemma {:induction false} PutExisting<K, V>(d: Dict<K, V>, k: K, v: V, i: nat)
    requires DistinctKeys(d) && i < |d| && d[i].0 == k
    ensures Put(d, k, v) == d[i := (k, v)]
  {
    if i == 0 {
      assert Put(d, k, v) == [(k, v)] + d[1..];
      assert [(k, v)] + d[1..] == d[0 := (k, v)];
    } else {
      assert d[0].0 != d[i].0;
      var tail := d[1..];
      assert tail[i - 1] == d[i];
      assert DistinctKeys(tail) by {
        forall a, b | 0 <= a < b < |tail| ensures tail[a].0 != tail[b].0 {
          assert tail[a] == d[a + 1] && tail[b] == d[b + 1];
        }
      }
      PutExisting(tail, k, v, i - 1);
      assert Put(d, k, v) == [d[0]] + Put(tail, k, v);
      assert [d[0]] + tail[i - 1 := (k, v)] == d[i := (k, v)];
    }
  }

  /** Assigning to an absent key appends an entry. */
  lemma {:induction false} PutNew<K, V>(d: Dict<K, V>, k: K, v: V)
    requires k !in Keys(d)
    ensures Put(d, k, v) == d + [(k, v)]
  {
    if d != [] {
      assert Keys(d) == [d[0].0] + Keys(d[1..]);
      PutNew(d[1..], k, v);
      assert [d[0]] + (d[1..] + [(k, v)]) == d + [(k, v)];
    }
  }
}
