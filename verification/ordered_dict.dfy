/**
 * Python's insertion-ordered `dict`, as the pipeline uses it: assigning to
 * a key that is already present replaces its value in place and keeps its
 * position; assigning to a new key appends it. Iteration follows that order.
 * A dict is an association list with pairwise distinct keys.
 */
module OrderedDict {

  function Keys<K, V>(d: seq<(K, V)>): (ks: seq<K>)
    ensures |ks| == |d|
    ensures forall i :: 0 <= i < |d| ==> ks[i] == d[i].0
  {
    seq(|d|, i requires 0 <= i < |d| => d[i].0)
  }

  function Values<K, V>(d: seq<(K, V)>): (vs: seq<V>)
    ensures |vs| == |d|
    ensures forall i :: 0 <= i < |d| ==> vs[i] == d[i].1
  {
    seq(|d|, i requires 0 <= i < |d| => d[i].1)
  }

  ghost predicate UniqueKeys<K, V>(d: seq<(K, V)>) {
    forall i, j :: 0 <= i < j < |d| ==> d[i].0 != d[j].0
  }

  /** `d[k] = v` */
  function Put<K(==), V>(d: seq<(K, V)>, k: K, v: V): (r: seq<(K, V)>)
    ensures Keys(r) == if k in Keys(d) then Keys(d) else Keys(d) + [k]
    ensures UniqueKeys(d) ==> UniqueKeys(r)
    ensures (k, v) in r
    ensures forall i :: 0 <= i < |d| && d[i].0 != k ==> r[i] == d[i]
    ensures forall i :: 0 <= i < |d| && d[i].0 == k ==> r[i] == (k, v)
    ensures forall i :: 0 <= i < |r| ==> r[i] == (k, v) || (i < |d| && r[i] == d[i])
  {
    if k in Keys(d) then
      var r := seq(|d|, i requires 0 <= i < |d| => if d[i].0 == k then (k, v) else d[i]);
      assert Keys(r) == Keys(d);
      var i :| 0 <= i < |d| && d[i].0 == k;
      assert r[i] == (k, v);
      r
    else
      assert Keys(d + [(k, v)]) == Keys(d) + [k];
      d + [(k, v)]
  }

  /** Assigning to the same key twice leaves one entry, holding the
      second value. */
  lemma PutSameKeyTwice<K, V>(k: K, v0: V, v1: V)
    ensures Put(Put([], k, v0), k, v1) == [(k, v1)]
  {
    assert Put([], k, v0) == [(k, v0)];
    assert k in Keys([(k, v0)]);
  }

  /** The mapping a dict denotes: later entries win, as in `dict(pairs)`. */
  ghost function ToMap<K, V>(d: seq<(K, V)>): map<K, V> {
    if |d| == 0 then map[] else ToMap(d[..|d| - 1])[d[|d| - 1].0 := d[|d| - 1].1]
  }

  lemma {:induction false} ToMapKeys<K, V>(d: seq<(K, V)>)
    ensures forall x :: x in ToMap(d) <==> x in Keys(d)
  {
    if |d| > 0 {
      var d' := d[..|d| - 1];
      ToMapKeys(d');
      assert Keys(d) == Keys(d') + [d[|d| - 1].0];
    }
  }

  /** An ordered dict with distinct keys behaves as a map: `Put` is map update. */
  lemma {:induction false} PutRefinesMapUpdate<K, V>(d: seq<(K, V)>, k: K, v: V)
    requires UniqueKeys(d)
    ensures ToMap(Put(d, k, v)) == ToMap(d)[k := v]
  {
    var r := Put(d, k, v);
    if k !in Keys(d) {
      assert r == d + [(k, v)];
      assert r[..|r| - 1] == d;
    } else if |d| > 0 {
      var n := |d| - 1;
      var d' := d[..n];
      assert UniqueKeys(d');
      assert |r| == |d|;
      if d[n].0 == k {
        assert k !in Keys(d') by {
          forall i | 0 <= i < n ensures d'[i].0 != k { assert d[i].0 != d[n].0; }
        }
        assert r[..n] == d';
        assert r[n] == (k, v);
      } else {
        assert k in Keys(d') by {
          var i :| 0 <= i < |d| && Keys(d)[i] == k;
          assert i < n;
          assert Keys(d')[i] == k;
        }
        assert r[..n] == Put(d', k, v);
        assert r[n] == d[n];
        PutRefinesMapUpdate(d', k, v);
      }
    }
  }
  /** The dict left by assigning the pairs of `entries` in order, starting
      from `{}`. */
  function PutAll<K(==), V>(entries: seq<(K, V)>): (d: seq<(K, V)>)
    ensures UniqueKeys(d)
  {
    if |entries| == 0 then []
    else Put(PutAll(entries[..|entries| - 1]), entries[|entries| - 1].0, entries[|entries| - 1].1)
  }

  /** Pair `k` is the last one of `entries` with its key. */
  ghost predicate LastAssigned<K, V>(entries: seq<(K, V)>, k: nat) {
    k < |entries| && forall k' :: k < k' < |entries| ==> entries[k'].0 != entries[k].0
  }

  /** Every key assigned is in the dict. */
  lemma {:induction false} PutAllKeys<K, V>(entries: seq<(K, V)>, k: nat)
    requires k < |entries|
    ensures entries[k].0 in Keys(PutAll(entries))
  {
    var n := |entries| - 1;
    var d := PutAll(entries[..n]);
    var r := Put(d, entries[n].0, entries[n].1);
    assert PutAll(entries) == r;
    if k < n {
      PutAllKeys(entries[..n], k);
      assert entries[..n][k] == entries[k];
      var m :| 0 <= m < |Keys(d)| && Keys(d)[m] == entries[k].0;
      assert Keys(r)[m] == entries[k].0;
    } else {
      assert Keys(r) == Keys(d) || Keys(r) == Keys(d) + [entries[n].0];
    }
  }

  /** The last pair assigned to a key is in the dict. */
  lemma {:induction false} PutAllHasLast<K, V>(entries: seq<(K, V)>, k: nat)
    requires LastAssigned(entries, k)
    ensures entries[k] in PutAll(entries)
  {
    var n := |entries| - 1;
    var d := PutAll(entries[..n]);
    var r := Put(d, entries[n].0, entries[n].1);
    assert PutAll(entries) == r;
    if k < n {
      assert entries[n].0 != entries[k].0;
      assert LastAssigned(entries[..n], k) by {
        forall k' | k < k' < n ensures entries[..n][k'].0 != entries[..n][k].0 {
          assert entries[..n][k'] == entries[k'];
        }
      }
      PutAllHasLast(entries[..n], k);
      assert entries[..n][k] == entries[k];
      var j :| 0 <= j < |d| && d[j] == entries[k];
      assert r[j] == d[j];
    }
  }

  /** Every pair in the dict is the last one assigned to its key. */
  lemma {:induction false} PutAllEntry<K, V>(entries: seq<(K, V)>, j: nat)
    requires j < |PutAll(entries)|
    ensures exists k :: 0 <= k < |entries| && LastAssigned(entries, k) && PutAll(entries)[j] == entries[k]
  {
    var n := |entries| - 1;
    var d := PutAll(entries[..n]);
    var r := Put(d, entries[n].0, entries[n].1);
    assert PutAll(entries) == r;
    if r[j] == entries[n] {
      assert LastAssigned(entries, n);
    } else {
      assert j < |d| && r[j] == d[j] && d[j].0 != entries[n].0;
      PutAllEntry(entries[..n], j);
      var k :| 0 <= k < n && LastAssigned(entries[..n], k) && d[j] == entries[..n][k];
      assert entries[..n][k] == entries[k];
      LastAssignedExtends(entries, k);
    }
  }

  /** A pair not overridden within a prefix stays so when the next pair
      has another key. */
  lemma LastAssignedExtends<K, V>(entries: seq<(K, V)>, k: nat)
    requires 0 < |entries| && k < |entries| - 1
    requires LastAssigned(entries[..|entries| - 1], k)
    requires entries[|entries| - 1].0 != entries[k].0
    ensures LastAssigned(entries, k)
  {
    var n := |entries| - 1;
    forall k' | k < k' < |entries| ensures entries[k'].0 != entries[k].0 {
      if k' < n {
        assert entries[..n][k'] == entries[k'] && entries[..n][k] == entries[k];
      }
    }
  }

  /** The position of the first occurrence of `x` in `ks`. */
  function FirstIndex<K(==)>(ks: seq<K>, x: K): (i: nat)
    requires x in ks
    ensures i < |ks| && ks[i] == x && x !in ks[..i]
  {
    var n := |ks| - 1;
    assert ks == ks[..n] + [ks[n]];
    if x in ks[..n] then
      var i := FirstIndex(ks[..n], x);
      assert ks[..n][..i] == ks[..i];
      i
    else n
  }

  /** The elements of `ks` without repeats, each where it first occurs. */
  function FirstOccurrences<K(==)>(ks: seq<K>): (fs: seq<K>)
    ensures forall i :: 0 <= i < |fs| ==> fs[i] in ks
    ensures forall i :: 0 <= i < |ks| ==> ks[i] in fs
    ensures forall a, b :: 0 <= a < b < |fs| ==> fs[a] != fs[b]
  {
    if |ks| == 0 then []
    else
      var n := |ks| - 1;
      assert ks == ks[..n] + [ks[n]];
      var fs := FirstOccurrences(ks[..n]);
      if ks[n] in fs then fs else fs + [ks[n]]
  }

  /** `FirstOccurrences` lists the elements in the order of their first
      occurrences. */
  lemma {:induction false} FirstOccurrencesOrdered<K>(ks: seq<K>, a: nat, b: nat)
    requires a < b < |FirstOccurrences(ks)|
    ensures FirstIndex(ks, FirstOccurrences(ks)[a]) < FirstIndex(ks, FirstOccurrences(ks)[b])
  {
    var n := |ks| - 1;
    var fs := FirstOccurrences(ks[..n]);
    var x, y := FirstOccurrences(ks)[a], FirstOccurrences(ks)[b];
    assert x in ks[..n];
    assert FirstIndex(ks, x) == FirstIndex(ks[..n], x);
    if b < |fs| {
      FirstOccurrencesOrdered(ks[..n], a, b);
      assert y in ks[..n];
      assert FirstIndex(ks, y) == FirstIndex(ks[..n], y);
    } else {
      assert y == ks[n] && y !in ks[..n];
      assert FirstIndex(ks, y) == n;
    }
  }

  /** The keys of the dict `entries` build are the keys assigned, each at
      its first assignment. */
  lemma {:induction false} PutAllKeyOrder<K, V>(entries: seq<(K, V)>)
    ensures Keys(PutAll(entries)) == FirstOccurrences(Keys(entries))
  {
    if |entries| > 0 {
      var n := |entries| - 1;
      PutAllKeyOrder(entries[..n]);
      assert Keys(entries[..n]) == Keys(entries)[..n];
    }
  }

  /** Assigning pairs with distinct keys builds the list of those pairs. */
  lemma {:induction false} PutAllDistinct<K, V>(entries: seq<(K, V)>)
    requires UniqueKeys(entries)
    ensures PutAll(entries) == entries
  {
    if |entries| > 0 {
      var n := |entries| - 1;
      var (k, v) := entries[n];
      PutAllDistinct(entries[..n]);
      var d := PutAll(entries[..n]);
      assert d == entries[..n];
      assert k !in Keys(d);
      var r := Put(d, k, v);
      assert |r| == |d| + 1;
      assert r[|d|] == (k, v);
      assert r == entries;
    }
  }
}
