/** JSON values with their object keys in canonical order. */
module StableJson {
  import opened OrderedMaps

  datatype Json =
    | Null
    | Bool(b: bool)
    | Num(n: int)
    | Str(s: string)
    | Arr(items: seq<Json>)
    | Obj(fields: seq<Pair<Json>>)

  type Order = (string, string) -> bool

  /** A strict total order on keys, such as the one `toSorted` uses. */
  ghost predicate TotalOrder(less: Order) {
    && (forall a :: !less(a, a))
    && (forall a, b, c :: less(a, b) && less(b, c) ==> less(a, c))
    && (forall a, b :: a == b || less(a, b) || less(b, a))
  }

  // ---------- sorting entries by key ----------

  function Insert<V>(less: Order, p: Pair<V>, s: seq<Pair<V>>): seq<Pair<V>> {
    if s == [] || !less(s[0].key, p.key) then [p] + s else [s[0]] + Insert(less, p, s[1..])
  }

  function Sort<V>(less: Order, s: seq<Pair<V>>): seq<Pair<V>> {
    if s == [] then [] else Insert(less, s[0], Sort(less, s[1..]))
  }

  ghost predicate Sorted<V>(less: Order, s: seq<Pair<V>>) {
    forall i, j :: 0 <= i < j < |s| ==> less(s[i].key, s[j].key)
  }

  ghost predicate SameEntries<V(!new)>(a: seq<Pair<V>>, b: seq<Pair<V>>) {
    forall p :: p in a <==> p in b
  }

  lemma {:induction false} InsertMember<V>(less: Order, p: Pair<V>, s: seq<Pair<V>>, q: Pair<V>)
    ensures q in Insert(less, p, s) <==> q == p || q in s
  {
    if s != [] && less(s[0].key, p.key) {
      InsertMember(less, p, s[1..], q);
      assert s == [s[0]] + s[1..];
    }
  }

  lemma {:induction false} InsertSorted<V(!new)>(less: Order, p: Pair<V>, s: seq<Pair<V>>)
    requires TotalOrder(less) && Sorted(less, s) && forall i :: 0 <= i < |s| ==> s[i].key != p.key
    ensures Sorted(less, Insert(less, p, s))
  {
    if s == [] {
    } else if !less(s[0].key, p.key) {
      var r := [p] + s;
      forall i | 0 <= i < |s| ensures less(p.key, s[i].key) {
        assert less(p.key, s[0].key);
      }
    } else {
      InsertSorted(less, p, s[1..]);
      var t := Insert(less, p, s[1..]);
      forall i | 0 <= i < |t| ensures less(s[0].key, t[i].key) {
        InsertMember(less, p, s[1..], t[i]);
        if t[i] in s[1..] {
          var j :| 0 <= j < |s[1..]| && s[1..][j] == t[i];
          assert less(s[0].key, s[j + 1].key);
        }
      }
    }
  }

  lemma {:induction false} SortSorts<V(!new)>(less: Order, s: seq<Pair<V>>)
    requires TotalOrder(less) && Distinct(s)
    ensures Sorted(less, Sort(less, s)) && SameEntries(Sort(less, s), s)
    ensures Distinct(Sort(less, s))
  {
    if s != [] {
      var t := s[1..];
      assert forall i :: 0 <= i < |t| ==> t[i] == s[i + 1];
      SortSorts(less, t);
      var u := Sort(less, t);
      forall i | 0 <= i < |u| ensures u[i].key != s[0].key {
        assert u[i] in t;
      }
      InsertSorted(less, s[0], u);
      assert s == [s[0]] + t;
      forall q ensures q in Sort(less, s) <==> q in s {
        InsertMember(less, s[0], u, q);
      }
    }
    SortedDistinct(less, Sort(less, s));
  }

  lemma SortedDistinct<V>(less: Order, s: seq<Pair<V>>)
    requires TotalOrder(less) && Sorted(less, s)
    ensures Distinct(s)
  {
    forall i, j | 0 <= i < j < |s| ensures s[i].key != s[j].key {
      assert less(s[i].key, s[j].key);
    }
  }

  lemma SortedTail<V>(less: Order, s: seq<Pair<V>>, q: Pair<V>)
    requires TotalOrder(less) && Sorted(less, s) && s != []
    ensures Sorted(less, s[1..])
    ensures q in s[1..] <==> q in s && q != s[0]
  {
    assert s == [s[0]] + s[1..];
    forall j | 0 <= j < |s[1..]| ensures s[1..][j] != s[0] {
      assert less(s[0].key, s[j + 1].key);
    }
  }

  lemma NotBoth(less: Order, a: string, b: string)
    requires TotalOrder(less)
    ensures !(less(a, b) && less(b, a))
  {
    assert !less(a, a);
  }

  lemma SameHead<V(!new)>(less: Order, a: seq<Pair<V>>, b: seq<Pair<V>>)
    requires TotalOrder(less) && Sorted(less, a) && Sorted(less, b) && SameEntries(a, b) && a != [] && b != []
    ensures a[0] == b[0]
  {
    assert a[0] in b && b[0] in a;
    var i :| 0 <= i < |b| && b[i] == a[0];
    var j :| 0 <= j < |a| && a[j] == b[0];
    assert i > 0 ==> less(b[0].key, a[0].key);
    assert j > 0 ==> less(a[0].key, b[0].key);
    NotBoth(less, a[0].key, b[0].key);
  }

  lemma SomeEntry<V(!new)>(a: seq<Pair<V>>, b: seq<Pair<V>>)
    requires SameEntries(a, b) && b != []
    ensures a != []
  {
    assert b[0] in a;
  }

  /** There is only one way to list entries in order. */
  lemma {:induction false} SortedUnique<V(!new)>(less: Order, a: seq<Pair<V>>, b: seq<Pair<V>>)
    requires TotalOrder(less) && Sorted(less, a) && Sorted(less, b) && SameEntries(a, b)
    ensures a == b
  {
    if a == [] {
      if b != [] { SomeEntry(a, b); }
    } else {
      SomeEntry(b, a);
      SameHead(less, a, b);
      forall q ensures q in a[1..] <==> q in b[1..] {
        SortedTail(less, a, q);
        SortedTail(less, b, q);
      }
      SortedTail(less, a, a[0]);
      SortedTail(less, b, b[0]);
      SortedUnique(less, a[1..], b[1..]);
      assert a == [a[0]] + a[1..] && b == [b[0]] + b[1..];
    }
  }

  // ---------- stableJson ----------

  function Stable(less: Order, v: Json): Json
    decreases v
  {
    match v
    case Arr(items) => Arr(StableItems(less, items))
    case Obj(fields) => Obj(Sort(less, StableFields(less, fields)))
    case _ => v
  }

  function StableItems(less: Order, items: seq<Json>): (r: seq<Json>)
    ensures |r| == |items|
    ensures forall i :: 0 <= i < |items| ==> r[i] == Stable(less, items[i])
    decreases items
  {
    if items == [] then [] else [Stable(less, items[0])] + StableItems(less, items[1..])
  }

  function StableFields(less: Order, fields: seq<Pair<Json>>): (r: seq<Pair<Json>>)
    ensures |r| == |fields|
    ensures forall i :: 0 <= i < |fields| ==> r[i] == Pair(fields[i].key, Stable(less, fields[i].value))
    decreases fields
  {
    if fields == [] then []
    else [Pair(fields[0].key, Stable(less, fields[0].value))] + StableFields(less, fields[1..])
  }

  /** Objects have each key once, at every depth. */
  ghost predicate Valid(v: Json) {
    match v
    case Arr(items) => forall i :: 0 <= i < |items| ==> Valid(items[i])
    case Obj(fields) => Distinct(fields) && forall i :: 0 <= i < |fields| ==> Valid(fields[i].value)
    case _ => true
  }

  /** Equal up to the order of object keys, at every depth. */
  ghost predicate Same(a: Json, b: Json)
    decreases a
  {
    match (a, b)
    case (Arr(x), Arr(y)) => |x| == |y| && forall i :: 0 <= i < |x| ==> Same(x[i], y[i])
    case (Obj(f), Obj(g)) =>
      && (forall j :: 0 <= j < |g| ==> Has(f, g[j].key))
      && (forall i :: 0 <= i < |f| ==> Has(g, f[i].key) && Same(f[i].value, Get(g, f[i].key)))
    case _ => a == b
  }

  // ---------- canonical forms are exact ----------

  lemma FieldsDistinct(less: Order, fields: seq<Pair<Json>>)
    requires Distinct(fields)
    ensures Distinct(StableFields(less, fields))
  {
    var r := StableFields(less, fields);
    forall i, j | 0 <= i < j < |r| ensures r[i].key != r[j].key {
      assert r[i].key == fields[i].key && r[j].key == fields[j].key;
    }
  }

  /** Objects have the same canonical form iff their canonical fields are the same up to order. */
  lemma ObjectsAgree(less: Order, f: seq<Pair<Json>>, g: seq<Pair<Json>>)
    requires TotalOrder(less) && Distinct(f) && Distinct(g)
    ensures Stable(less, Obj(f)) == Stable(less, Obj(g)) <==> SameEntries(StableFields(less, f), StableFields(less, g))
  {
    FieldsDistinct(less, f);
    FieldsDistinct(less, g);
    var sf, sg := StableFields(less, f), StableFields(less, g);
    SortSorts(less, sf);
    SortSorts(less, sg);
    if SameEntries(sf, sg) {
      SortedUnique(less, Sort(less, sf), Sort(less, sg));
    }
    if Sort(less, sf) == Sort(less, sg) {
      forall p ensures p in sf <==> p in sg {
        assert p in Sort(less, sf) <==> p in sf;
      }
    }
  }

  /** The same keys, with the same canonical value at each. */
  ghost predicate Agree(less: Order, f: seq<Pair<Json>>, g: seq<Pair<Json>>) {
    && (forall j :: 0 <= j < |g| ==> Has(f, g[j].key))
    && (forall i :: 0 <= i < |f| ==> Has(g, f[i].key) && Stable(less, f[i].value) == Stable(less, Get(g, f[i].key)))
  }

  lemma FieldFound(less: Order, f: seq<Pair<Json>>, g: seq<Pair<Json>>, i: nat)
    requires Distinct(g) && i < |f| && StableFields(less, f)[i] in StableFields(less, g)
    ensures Has(g, f[i].key) && Stable(less, f[i].value) == Stable(less, Get(g, f[i].key))
  {
    var sf, sg := StableFields(less, f), StableFields(less, g);
    var j :| 0 <= j < |sg| && sg[j] == sf[i];
    HasAt(g, j);
  }

  lemma FieldListed(less: Order, f: seq<Pair<Json>>, g: seq<Pair<Json>>, i: nat)
    requires i < |f| && Has(g, f[i].key) && Stable(less, f[i].value) == Stable(less, Get(g, f[i].key))
    ensures StableFields(less, f)[i] in StableFields(less, g)
  {
    assert StableFields(less, g)[IndexOf(g, f[i].key)] == StableFields(less, f)[i];
  }

  lemma AgreeSymmetric(less: Order, f: seq<Pair<Json>>, g: seq<Pair<Json>>, j: nat)
    requires Agree(less, f, g) && Distinct(g) && j < |g|
    ensures Has(f, g[j].key) && Stable(less, g[j].value) == Stable(less, Get(f, g[j].key))
  {
    var i := IndexOf(f, g[j].key);
    HasAt(g, j);
    assert f[i].key == g[j].key;
  }

  lemma FieldsAgree(less: Order, f: seq<Pair<Json>>, g: seq<Pair<Json>>)
    requires Distinct(f) && Distinct(g)
    ensures SameEntries(StableFields(less, f), StableFields(less, g)) <==> Agree(less, f, g)
  {
    var sf, sg := StableFields(less, f), StableFields(less, g);
    if SameEntries(sf, sg) {
      forall j | 0 <= j < |g| ensures Has(f, g[j].key) {
        assert sg[j] in sf;
        FieldFound(less, g, f, j);
      }
      forall i | 0 <= i < |f| ensures Has(g, f[i].key) && Stable(less, f[i].value) == Stable(less, Get(g, f[i].key)) {
        assert sf[i] in sg;
        FieldFound(less, f, g, i);
      }
    }
    if Agree(less, f, g) {
      FieldsSame(less, f, g);
    }
  }

  lemma FieldsSame(less: Order, f: seq<Pair<Json>>, g: seq<Pair<Json>>)
    requires Distinct(g) && Agree(less, f, g)
    ensures SameEntries(StableFields(less, f), StableFields(less, g))
  {
    var sf, sg := StableFields(less, f), StableFields(less, g);
    forall i | 0 <= i < |sf| ensures sf[i] in sg {
      FieldListed(less, f, g, i);
    }
    forall j | 0 <= j < |sg| ensures sg[j] in sf {
      AgreeSymmetric(less, f, g, j);
      FieldListed(less, g, f, j);
    }
  }

  /** Two values get the same canonical form iff they are equal up to the order of keys at every depth. */
  lemma {:induction false} StableIsExact(less: Order, a: Json, b: Json)
    requires TotalOrder(less) && Valid(a) && Valid(b)
    ensures Stable(less, a) == Stable(less, b) <==> Same(a, b)
    decreases a
  {
    if a.Arr? && b.Arr? {
      ItemsExact(less, a.items, b.items);
    } else if a.Obj? && b.Obj? {
      var f, g := a.fields, b.fields;
      ObjectsAgree(less, f, g);
      FieldsAgree(less, f, g);
      forall i | 0 <= i < |f| && Has(g, f[i].key)
        ensures Stable(less, f[i].value) == Stable(less, Get(g, f[i].key)) <==> Same(f[i].value, Get(g, f[i].key))
      {
        StableIsExact(less, f[i].value, Get(g, f[i].key));
      }
    }
  }

  lemma {:induction false} ItemsExact(less: Order, x: seq<Json>, y: seq<Json>)
    requires TotalOrder(less)
    requires (forall i :: 0 <= i < |x| ==> Valid(x[i])) && (forall i :: 0 <= i < |y| ==> Valid(y[i]))
    ensures StableItems(less, x) == StableItems(less, y) <==>
            |x| == |y| && forall i :: 0 <= i < |x| ==> Same(x[i], y[i])
    decreases x
  {
    var sx, sy := StableItems(less, x), StableItems(less, y);
    if |x| == |y| {
      forall i | 0 <= i < |x| ensures sx[i] == sy[i] <==> Same(x[i], y[i]) {
        StableIsExact(less, x[i], y[i]);
      }
      assert sx == sy <==> forall i :: 0 <= i < |x| ==> sx[i] == sy[i];
    }
  }

  /** A canonical form is valid and equal to its value up to the order of keys. */
  lemma {:induction false} StableKeepsValue(less: Order, v: Json)
    requires TotalOrder(less) && Valid(v)
    ensures Valid(Stable(less, v)) && Same(Stable(less, v), v)
    decreases v
  {
    match v
    case Arr(items) =>
      forall i | 0 <= i < |items| ensures Valid(Stable(less, items[i])) && Same(Stable(less, items[i]), items[i]) {
        StableKeepsValue(less, items[i]);
      }
    case Obj(fields) =>
      forall i | 0 <= i < |fields|
        ensures Valid(Stable(less, fields[i].value)) && Same(Stable(less, fields[i].value), fields[i].value)
      {
        StableKeepsValue(less, fields[i].value);
      }
      SortedKeeps(less, fields);
    case _ =>
  }

  lemma SortedKeeps(less: Order, fields: seq<Pair<Json>>)
    requires TotalOrder(less) && Distinct(fields)
    requires forall i :: 0 <= i < |fields| ==>
               Valid(Stable(less, fields[i].value)) && Same(Stable(less, fields[i].value), fields[i].value)
    ensures Valid(Stable(less, Obj(fields))) && Same(Stable(less, Obj(fields)), Obj(fields))
  {
    var sf := StableFields(less, fields);
    FieldsDistinct(less, fields);
    SortSorts(less, sf);
    var r := Sort(less, sf);
    forall i | 0 <= i < |r|
      ensures Valid(r[i].value) && Has(fields, r[i].key) && Same(r[i].value, Get(fields, r[i].key))
    {
      assert r[i] in sf;
      var j :| 0 <= j < |sf| && sf[j] == r[i];
      HasAt(fields, j);
    }
    forall j | 0 <= j < |fields| ensures Has(r, fields[j].key) {
      assert sf[j] in r;
      var i :| 0 <= i < |r| && r[i] == sf[j];
      HasAt(r, i);
    }
  }

  /** `stableJson` is idempotent. */
  lemma StableIdempotent(less: Order, v: Json)
    requires TotalOrder(less) && Valid(v)
    ensures Stable(less, Stable(less, v)) == Stable(less, v)
  {
    StableKeepsValue(less, v);
    StableIsExact(less, Stable(less, v), v);
  }

  /** Object keys in ascending order, at every depth. */
  ghost predicate Ascending(less: Order, v: Json) {
    match v
    case Arr(items) => forall i :: 0 <= i < |items| ==> Ascending(less, items[i])
    case Obj(fields) => Sorted(less, fields) && forall i :: 0 <= i < |fields| ==> Ascending(less, fields[i].value)
    case _ => true
  }

  /** A canonical form holds the same value with its keys in ascending order at every depth. */
  lemma {:induction false} StableAscends(less: Order, v: Json)
    requires TotalOrder(less) && Valid(v)
    ensures Ascending(less, Stable(less, v)) && Same(Stable(less, v), v)
    decreases v
  {
    StableKeepsValue(less, v);
    match v
    case Arr(items) =>
      forall i | 0 <= i < |items| ensures Ascending(less, Stable(less, items[i])) {
        StableAscends(less, items[i]);
      }
    case Obj(fields) =>
      forall i | 0 <= i < |fields| ensures Ascending(less, Stable(less, fields[i].value)) {
        StableAscends(less, fields[i].value);
      }
      FieldsAscend(less, fields);
    case _ =>
  }

  lemma FieldsAscend(less: Order, fields: seq<Pair<Json>>)
    requires TotalOrder(less) && Distinct(fields)
    requires forall i :: 0 <= i < |fields| ==> Ascending(less, Stable(less, fields[i].value))
    ensures Ascending(less, Stable(less, Obj(fields)))
  {
    var sf := StableFields(less, fields);
    FieldsDistinct(less, fields);
    SortSorts(less, sf);
    var r := Sort(less, sf);
    forall i | 0 <= i < |r| ensures Ascending(less, r[i].value) {
      assert r[i] in sf;
    }
  }
}
