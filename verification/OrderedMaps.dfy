/** JavaScript `Map`s and plain objects: keys in insertion order, each key at most once. */
module OrderedMaps {

  datatype Pair<+V> = Pair(key: string, value: V)

  /** Position of the first entry with key `k`, or `|m|` when there is none. */
  function IndexOf<V>(m: seq<Pair<V>>, k: string): (i: nat)
    ensures i <= |m|
    ensures i < |m| ==> m[i].key == k
    ensures forall j :: 0 <= j < i ==> m[j].key != k
  {
    if m == [] || m[0].key == k then 0 else 1 + IndexOf(m[1..], k)
  }

  predicate Has<V>(m: seq<Pair<V>>, k: string) {
    IndexOf(m, k) < |m|
  }

  function Get<V>(m: seq<Pair<V>>, k: string): V
    requires Has(m, k)
  {
    m[IndexOf(m, k)].value
  }

  /** `Map.set`: overwrites in place, or appends. */
  function Put<V>(m: seq<Pair<V>>, k: string, v: V): seq<Pair<V>> {
    var i := IndexOf(m, k);
    if i < |m| then m[i := Pair(k, v)] else m + [Pair(k, v)]
  }

  ghost predicate Distinct<V>(m: seq<Pair<V>>) {
    forall i, j :: 0 <= i < j < |m| ==> m[i].key != m[j].key
  }

  /** The finite map a list of entries denotes: later entries win, as in `new Map(entries)`. */
  function View<V>(m: seq<Pair<V>>): map<string, V> {
    if m == [] then map[] else View(m[..|m| - 1])[m[|m| - 1].key := m[|m| - 1].value]
  }

  lemma ViewSnoc<V>(m: seq<Pair<V>>, k: string, v: V)
    ensures View(m + [Pair(k, v)]) == View(m)[k := v]
  {
    assert (m + [Pair(k, v)])[..|m|] == m;
  }

  lemma {:induction false} ViewAt<V>(m: seq<Pair<V>>, i: nat)
    requires Distinct(m) && i < |m|
    ensures m[i].key in View(m) && View(m)[m[i].key] == m[i].value
    decreases |m|
  {
    var n := |m| - 1;
    if i < n {
      assert m[..n][i] == m[i];
      ViewAt(m[..n], i);
    }
  }

  lemma {:induction false} ViewHas<V>(m: seq<Pair<V>>, k: string)
    requires k in View(m)
    ensures Has(m, k)
  {
    var n := |m| - 1;
    if k != m[n].key {
      ViewHas(m[..n], k);
      assert m[IndexOf(m[..n], k)].key == k;
    }
  }

  /** The map view of distinct entries has exactly the listed associations. */
  lemma ViewIndex<V>(m: seq<Pair<V>>)
    requires Distinct(m)
    ensures forall i :: 0 <= i < |m| ==> m[i].key in View(m) && View(m)[m[i].key] == m[i].value
    ensures forall k :: k in View(m) ==> Has(m, k) && Get(m, k) == View(m)[k]
    ensures forall k :: Has(m, k) ==> k in View(m)
  {
    forall i | 0 <= i < |m| ensures m[i].key in View(m) && View(m)[m[i].key] == m[i].value {
      ViewAt(m, i);
    }
    forall k | k in View(m) ensures Has(m, k) {
      ViewHas(m, k);
    }
  }

  lemma HasAt<V>(m: seq<Pair<V>>, i: nat)
    requires Distinct(m) && i < |m|
    ensures IndexOf(m, m[i].key) == i
  {
    var j := IndexOf(m, m[i].key);
    assert j <= i;
  }

  lemma {:induction false} ViewUpdate<V>(m: seq<Pair<V>>, i: nat, v: V)
    requires Distinct(m) && i < |m|
    ensures View(m[i := Pair(m[i].key, v)]) == View(m)[m[i].key := v]
  {
    var n := |m| - 1;
    var r := m[i := Pair(m[i].key, v)];
    if i == n {
      assert r[..n] == m[..n];
    } else {
      assert r[..n] == m[..n][i := Pair(m[i].key, v)];
      ViewUpdate(m[..n], i, v);
    }
  }

  lemma PutDistinct<V>(m: seq<Pair<V>>, k: string, v: V)
    requires Distinct(m)
    ensures Distinct(Put(m, k, v))
  {
  }

  /** `Map.set` updates exactly one association. */
  lemma PutView<V>(m: seq<Pair<V>>, k: string, v: V)
    requires Distinct(m)
    ensures Distinct(Put(m, k, v))
    ensures View(Put(m, k, v)) == View(m)[k := v]
  {
    PutDistinct(m, k, v);
    if Has(m, k) {
      ViewUpdate(m, IndexOf(m, k), v);
    } else {
      ViewSnoc(m, k, v);
    }
  }

  lemma SumUpdate<V>(a: map<string, V>, b: map<string, V>, k: string, v: V)
    ensures a + b[k := v] == (a + b)[k := v]
  {
  }

  lemma SumAssoc<V>(a: map<string, V>, b: map<string, V>, c: map<string, V>)
    ensures a + (b + c) == (a + b) + c
  {
  }
}
