/** Locale trees: flattening to dotted keys and rebuilding from them. */
module LocaleTree {
  import opened OrderedMaps
  import opened DottedKeys

  datatype Tree = Leaf(text: string) | Node(entries: Entries)
  type Entries = seq<Pair<Tree>>
  type Flat = seq<Pair<string>>
  type Paths = seq<(seq<string>, string)>

  /** The loop of `flattenTranslations` over the entries of one map, threading its output map. */
  function FlattenInto(entries: Entries, prefix: string, out: Flat): Flat
    decreases entries
  {
    if entries == [] then out
    else FlattenInto(entries[1..], prefix, FlattenEntry(entries[0], prefix, out))
  }

  /** One iteration: record a text, or descend into a nested map. */
  function FlattenEntry(entry: Pair<Tree>, prefix: string, out: Flat): Flat
    decreases entry
  {
    var full := Under(prefix, entry.key);
    match entry.value
    case Leaf(text) => Put(out, full, text)
    case Node(inner) => FlattenInto(inner, full, out)
  }

  function Flatten(entries: Entries): Flat {
    FlattenInto(entries, "", [])
  }

  /** `setNestedValue` on the path of a dotted key: leaves met on the way are replaced by maps. */
  function SetPath(entries: Entries, path: seq<string>, text: string): Entries
    requires path != []
    decreases |path|
  {
    if |path| == 1 then Put(entries, path[0], Leaf(text))
    else
      var inner := if Has(entries, path[0]) && Get(entries, path[0]).Node?
                   then Get(entries, path[0]).entries else [];
      Put(entries, path[0], Node(SetPath(inner, path[1..], text)))
  }

  function SetNested(entries: Entries, dotted: string, text: string): Entries {
    SetPath(entries, Split(dotted), text)
  }

  /** The loop that fills the next locale tree, entry by entry. */
  function RebuildFrom(entries: Entries, flat: Flat): Entries
    decreases flat
  {
    if flat == [] then entries else RebuildFrom(SetNested(entries, flat[0].key, flat[0].value), flat[1..])
  }

  function Rebuild(flat: Flat): Entries {
    RebuildFrom([], flat)
  }

  /** Whatever the keys of a tree, flattening it lists each dotted key once. */
  lemma FlattenDistinct(entries: Entries)
    ensures Distinct(Flatten(entries))
  {
    FlattenIntoDistinct(entries, "", []);
  }

  lemma {:induction false} FlattenIntoDistinct(entries: Entries, prefix: string, out: Flat)
    requires Distinct(out)
    ensures Distinct(FlattenInto(entries, prefix, out))
    decreases entries
  {
    if entries != [] {
      EntryDistinct(entries[0], prefix, out);
      FlattenIntoDistinct(entries[1..], prefix, FlattenEntry(entries[0], prefix, out));
    }
  }

  lemma {:induction false} EntryDistinct(entry: Pair<Tree>, prefix: string, out: Flat)
    requires Distinct(out)
    ensures Distinct(FlattenEntry(entry, prefix, out))
    decreases entry
  {
    match entry.value
    case Leaf(text) => PutDistinct(out, Under(prefix, entry.key), text);
    case Node(inner) => FlattenIntoDistinct(inner, Under(prefix, entry.key), out);
  }

  // ---------- well-formed trees ----------

  /** Each map has distinct, dot-free keys. */
  ghost predicate Plain(entries: Entries) {
    && Distinct(entries)
    && forall i :: 0 <= i < |entries| ==>
         DotFree(entries[i].key) && (entries[i].value.Node? ==> Plain(entries[i].value.entries))
  }

  /** A plain tree with nonempty keys. */
  ghost predicate Named(entries: Entries) {
    && Distinct(entries)
    && forall i :: 0 <= i < |entries| ==>
         && entries[i].key != "" && DotFree(entries[i].key)
         && (entries[i].value.Node? ==> Named(entries[i].value.entries))
  }

  /** No submap is empty. */
  ghost predicate NoEmptyMaps(entries: Entries) {
    forall i :: 0 <= i < |entries| && entries[i].value.Node? ==>
      entries[i].value.entries != [] && NoEmptyMaps(entries[i].value.entries)
  }

  lemma {:induction false} NamedIsPlain(entries: Entries)
    requires Named(entries)
    ensures Plain(entries) && TopNamed(entries)
  {
    forall i | 0 <= i < |entries| && entries[i].value.Node?
      ensures Plain(entries[i].value.entries)
    {
      NamedIsPlain(entries[i].value.entries);
    }
  }

  lemma PlainTail(entries: Entries)
    requires Plain(entries) && entries != []
    ensures Plain(entries[1..])
    ensures entries[0].value.Node? ==> Plain(entries[0].value.entries)
    ensures forall j :: 0 <= j < |entries[1..]| ==> entries[1..][j].key != entries[0].key
  {
    assert forall j :: 0 <= j < |entries[1..]| ==> entries[1..][j] == entries[j + 1];
  }

  // ---------- the tree seen as a set of paths ----------

  function Beneath(key: string, paths: Paths): (r: Paths)
    ensures |r| == |paths|
    ensures forall i :: 0 <= i < |paths| ==> r[i] == ([key] + paths[i].0, paths[i].1)
  {
    if paths == [] then [] else [([key] + paths[0].0, paths[0].1)] + Beneath(key, paths[1..])
  }

  /** Every text with its path, in depth-first order. */
  function PathsOf(entries: Entries): (r: Paths)
    ensures forall i :: 0 <= i < |r| ==> r[i].0 != []
    decreases entries
  {
    if entries == [] then [] else PathsOfEntry(entries[0]) + PathsOf(entries[1..])
  }

  function PathsOfEntry(entry: Pair<Tree>): (r: Paths)
    ensures forall i :: 0 <= i < |r| ==> r[i].0 != [] && r[i].0[0] == entry.key
    decreases entry
  {
    match entry.value
    case Leaf(text) => [([entry.key], text)]
    case Node(inner) => Beneath(entry.key, PathsOf(inner))
  }

  /** At the top level an empty key holds a text, or a map without any. */
  ghost predicate TopNamed(entries: Entries) {
    forall i :: 0 <= i < |entries| && entries[i].key == "" && entries[i].value.Node? ==>
      PathsOf(entries[i].value.entries) == []
  }

  /** A map without texts adds nothing. */
  lemma {:induction false} NoTexts(entries: Entries, prefix: string, out: Flat)
    requires PathsOf(entries) == []
    ensures FlattenInto(entries, prefix, out) == out
    decreases entries
  {
    if entries != [] {
      NoTextsIn(entries[0], prefix, out);
      NoTexts(entries[1..], prefix, out);
    }
  }

  lemma {:induction false} NoTextsIn(entry: Pair<Tree>, prefix: string, out: Flat)
    requires PathsOfEntry(entry) == []
    ensures FlattenEntry(entry, prefix, out) == out
    decreases entry
  {
    if entry.value.Node? {
      NoTexts(entry.value.entries, Under(prefix, entry.key), out);
    }
  }

  function GetPath(entries: Entries, path: seq<string>): (r: seq<string>)
    requires path != []
    ensures |r| <= 1
    decreases |path|
  {
    if !Has(entries, path[0]) then []
    else
      match Get(entries, path[0])
      case Leaf(text) => if |path| == 1 then [text] else []
      case Node(inner) => if |path| == 1 then [] else GetPath(inner, path[1..])
  }

  /** The entries a list of paths contributes below `prefix`. */
  function Keyed(prefix: string, paths: Paths): (r: Flat)
    ensures |r| == |paths|
    ensures forall i :: 0 <= i < |r| ==> r[i] == Pair(Under(prefix, Join(paths[i].0)), paths[i].1)
  {
    if paths == [] then []
    else [Pair(Under(prefix, Join(paths[0].0)), paths[0].1)] + Keyed(prefix, paths[1..])
  }

  lemma UnderJoin(prefix: string, key: string, path: seq<string>)
    requires path != [] && (prefix == "" ==> key != "")
    ensures Under(prefix, Join([key] + path)) == Under(Under(prefix, key), Join(path))
  {
    JoinAppend([key], path);
    assert prefix + "." + (key + "." + Join(path)) == (prefix + "." + key) + "." + Join(path);
  }

  lemma KeyedBeneath(prefix: string, key: string, paths: Paths)
    requires forall i :: 0 <= i < |paths| ==> paths[i].0 != []
    requires prefix == "" ==> key != ""
    ensures Keyed(prefix, Beneath(key, paths)) == Keyed(Under(prefix, key), paths)
  {
    forall i | 0 <= i < |paths|
      ensures Under(prefix, Join([key] + paths[i].0)) == Under(Under(prefix, key), Join(paths[i].0))
    {
      UnderJoin(prefix, key, paths[i].0);
    }
  }

  lemma KeyedAppend(prefix: string, p: Paths, q: Paths)
    ensures Keyed(prefix, p + q) == Keyed(prefix, p) + Keyed(prefix, q)
  {
  }

  lemma DistinctPrefix<V>(a: seq<Pair<V>>, b: seq<Pair<V>>)
    requires Distinct(a + b)
    ensures Distinct(a)
  {
    assert forall i :: 0 <= i < |a| ==> (a + b)[i] == a[i];
  }

  lemma DistinctNext<V>(a: seq<Pair<V>>, b: seq<Pair<V>>)
    requires Distinct(a + b) && b != []
    ensures !Has(a, b[0].key)
  {
    forall i | 0 <= i < |a| ensures a[i].key != b[0].key {
      assert (a + b)[i] == a[i] && (a + b)[|a|] == b[0];
    }
  }

  /** Without key clashes, flattening lists the paths in depth-first order. */
  lemma {:induction false} FlattenIsPaths(entries: Entries, prefix: string, out: Flat)
    requires Plain(entries)
    requires prefix != "" || TopNamed(entries)
    requires Distinct(out + Keyed(prefix, PathsOf(entries)))
    ensures FlattenInto(entries, prefix, out) == out + Keyed(prefix, PathsOf(entries))
    decreases entries
  {
    if entries != [] {
      var first, rest := PathsOfEntry(entries[0]), PathsOf(entries[1..]);
      PlainTail(entries);
      KeyedAppend(prefix, first, rest);
      assert out + Keyed(prefix, first + rest) == out + Keyed(prefix, first) + Keyed(prefix, rest);
      DistinctPrefix(out + Keyed(prefix, first), Keyed(prefix, rest));
      FlattenFirst(entries[0], prefix, out);
      FlattenIsPaths(entries[1..], prefix, out + Keyed(prefix, first));
    }
  }

  lemma {:induction false} FlattenFirst(entry: Pair<Tree>, prefix: string, out: Flat)
    requires entry.value.Node? ==> Plain(entry.value.entries)
    requires DotFree(entry.key)
    requires prefix == "" && entry.key == "" && entry.value.Node? ==> PathsOf(entry.value.entries) == []
    requires Distinct(out + Keyed(prefix, PathsOfEntry(entry)))
    ensures FlattenEntry(entry, prefix, out) == out + Keyed(prefix, PathsOfEntry(entry))
    decreases entry
  {
    match entry.value
    case Leaf(text) =>
      DistinctNext(out, Keyed(prefix, PathsOfEntry(entry)));
    case Node(inner) =>
      if prefix == "" && entry.key == "" {
        NoTextsIn(entry, prefix, out);
      } else {
        KeyedBeneath(prefix, entry.key, PathsOf(inner));
        FlattenIsPaths(inner, Under(prefix, entry.key), out);
      }
  }

  // ---------- paths are unique and dot-free ----------

  lemma {:induction false} PathHead(entries: Entries, i: nat)
    requires i < |PathsOf(entries)|
    ensures exists j :: 0 <= j < |entries| && entries[j].key == PathsOf(entries)[i].0[0]
  {
    var rest := PathsOf(entries[1..]);
    var n := |PathsOf(entries)| - |rest|;
    if i < n {
      assert entries[0].key == PathsOf(entries)[i].0[0];
    } else {
      PathHead(entries[1..], i - n);
      var j :| 0 <= j < |entries[1..]| && entries[1..][j].key == rest[i - n].0[0];
      assert entries[j + 1].key == PathsOf(entries)[i].0[0];
    }
  }

  ghost predicate UniqueDotFree(paths: Paths) {
    && (forall i :: 0 <= i < |paths| ==> paths[i].0 != [] && AllDotFree(paths[i].0))
    && (forall i, j :: 0 <= i < j < |paths| ==> paths[i].0 != paths[j].0)
  }

  lemma BeneathUnique(key: string, paths: Paths)
    requires UniqueDotFree(paths) && DotFree(key)
    ensures UniqueDotFree(Beneath(key, paths))
  {
    var r := Beneath(key, paths);
    forall i, j | 0 <= i < j < |r| ensures r[i].0 != r[j].0 {
      assert r[i].0[1..] == paths[i].0 && r[j].0[1..] == paths[j].0;
    }
  }

  lemma {:induction false} PathsUnique(entries: Entries)
    requires Plain(entries)
    ensures UniqueDotFree(PathsOf(entries))
  {
    if entries != [] {
      PlainTail(entries);
      var rest := PathsOf(entries[1..]);
      var all := PathsOf(entries);
      var n := |all| - |rest|;
      PathsUnique(entries[1..]);
      if entries[0].value.Node? {
        PathsUnique(entries[0].value.entries);
        BeneathUnique(entries[0].key, PathsOf(entries[0].value.entries));
      }
      forall i, j | 0 <= i < n <= j < |all| ensures all[i].0 != all[j].0 {
        PathHead(entries[1..], j - n);
      }
    }
  }

  lemma KeyedDistinct(paths: Paths)
    requires UniqueDotFree(paths)
    ensures Distinct(Keyed("", paths))
  {
    var r := Keyed("", paths);
    forall i, j | 0 <= i < j < |r| ensures r[i].key != r[j].key {
      SplitJoin(paths[i].0);
      SplitJoin(paths[j].0);
    }
  }

  /** A flattened plain tree lists its paths, with distinct keys. */
  lemma FlattenPlain(entries: Entries)
    requires Plain(entries) && TopNamed(entries)
    ensures Flatten(entries) == Keyed("", PathsOf(entries))
    ensures Distinct(Flatten(entries))
  {
    PathsUnique(entries);
    KeyedDistinct(PathsOf(entries));
    assert [] + Keyed("", PathsOf(entries)) == Keyed("", PathsOf(entries));
    FlattenIsPaths(entries, "", []);
  }

  // ---------- rebuilding a flattened tree ----------

  function RebuildPaths(entries: Entries, paths: Paths): Entries
    requires forall i :: 0 <= i < |paths| ==> paths[i].0 != []
    decreases paths
  {
    if paths == [] then entries
    else RebuildPaths(SetPath(entries, paths[0].0, paths[0].1), paths[1..])
  }

  function PathsFor(flat: Flat): (r: Paths)
    ensures |r| == |flat|
    ensures forall i :: 0 <= i < |r| ==> r[i] == (Split(flat[i].key), flat[i].value)
  {
    if flat == [] then [] else [(Split(flat[0].key), flat[0].value)] + PathsFor(flat[1..])
  }

  lemma {:induction false} RebuildIsPaths(entries: Entries, flat: Flat)
    ensures RebuildFrom(entries, flat) == RebuildPaths(entries, PathsFor(flat))
    decreases flat
  {
    if flat != [] {
      assert PathsFor(flat)[1..] == PathsFor(flat[1..]);
      RebuildIsPaths(SetNested(entries, flat[0].key, flat[0].value), flat[1..]);
    }
  }

  lemma {:induction false} RebuildPathsAppend(entries: Entries, p: Paths, q: Paths)
    requires forall i :: 0 <= i < |p| ==> p[i].0 != []
    requires forall i :: 0 <= i < |q| ==> q[i].0 != []
    ensures RebuildPaths(entries, p + q) == RebuildPaths(RebuildPaths(entries, p), q)
    decreases p
  {
    if p == [] {
      assert p + q == q;
    } else {
      assert (p + q)[1..] == p[1..] + q;
      RebuildPathsAppend(SetPath(entries, p[0].0, p[0].1), p[1..], q);
    }
  }

  lemma IndexOfSnoc<V>(m: seq<Pair<V>>, p: Pair<V>)
    requires !Has(m, p.key)
    ensures IndexOf(m + [p], p.key) == |m|
  {
    assert forall i :: 0 <= i < |m| ==> (m + [p])[i] == m[i];
    assert (m + [p])[|m|] == p;
  }

  /** Paths below the last key only touch that key's map. */
  lemma {:induction false} RebuildBeneath(entries: Entries, key: string, inner: Entries, paths: Paths)
    requires !Has(entries, key)
    requires forall i :: 0 <= i < |paths| ==> paths[i].0 != []
    ensures RebuildPaths(entries + [Pair(key, Node(inner))], Beneath(key, paths)) ==
            entries + [Pair(key, Node(RebuildPaths(inner, paths)))]
    decreases paths
  {
    if paths != [] {
      var es := entries + [Pair(key, Node(inner))];
      var path := [key] + paths[0].0;
      IndexOfSnoc(entries, Pair(key, Node(inner)));
      assert path[1..] == paths[0].0;
      assert Get(es, key) == Node(inner);
      var inner' := SetPath(inner, paths[0].0, paths[0].1);
      assert SetPath(es, path, paths[0].1) == entries + [Pair(key, Node(inner'))];
      assert Beneath(key, paths)[1..] == Beneath(key, paths[1..]);
      RebuildBeneath(entries, key, inner', paths[1..]);
    }
  }

  lemma RebuildFirst(entries: Entries, key: string, paths: Paths)
    requires !Has(entries, key) && paths != []
    requires forall i :: 0 <= i < |paths| ==> paths[i].0 != []
    ensures RebuildPaths(entries, Beneath(key, paths)) == entries + [Pair(key, Node(RebuildPaths([], paths)))]
  {
    var path := [key] + paths[0].0;
    assert path[1..] == paths[0].0;
    var inner := SetPath([], paths[0].0, paths[0].1);
    assert SetPath(entries, path, paths[0].1) == entries + [Pair(key, Node(inner))];
    assert Beneath(key, paths)[1..] == Beneath(key, paths[1..]);
    RebuildBeneath(entries, key, inner, paths[1..]);
  }

  lemma PathsOfNonempty(entries: Entries)
    requires NoEmptyMaps(entries) && entries != []
    ensures PathsOf(entries) != []
  {
    if entries[0].value.Node? {
      PathsOfNonempty(entries[0].value.entries);
    }
  }

  /** Setting the paths of a tree one at a time appends the tree. */
  lemma {:induction false} RebuildAppends(done: Entries, entries: Entries)
    requires Plain(entries) && NoEmptyMaps(entries)
    requires Distinct(done + entries)
    ensures RebuildPaths(done, PathsOf(entries)) == done + entries
    decreases entries
  {
    if entries == [] {
      assert done + entries == done;
    } else {
      PlainTail(entries);
      assert done + entries == (done + [entries[0]]) + entries[1..];
      DistinctNext(done, entries);
      assert NoEmptyMaps(entries[1..]) by {
        assert forall j :: 0 <= j < |entries[1..]| ==> entries[1..][j] == entries[j + 1];
      }
      RebuildPathsAppend(done, PathsOfEntry(entries[0]), PathsOf(entries[1..]));
      assert RebuildPaths(done, PathsOfEntry(entries[0])) == done + [entries[0]] by {
        if entries[0].value.Node? {
          var inner := entries[0].value.entries;
          PathsOfNonempty(inner);
          RebuildFirst(done, entries[0].key, PathsOf(inner));
          assert [] + inner == inner;
          RebuildAppends([], inner);
        }
      }
      RebuildAppends(done + [entries[0]], entries[1..]);
    }
  }

  /** Inserting the flattened entries of a tree one at a time gives the tree back, key order included. */
  lemma RebuildFlattened(entries: Entries)
    requires Named(entries) && NoEmptyMaps(entries)
    ensures Rebuild(Flatten(entries)) == entries
  {
    NamedIsPlain(entries);
    FlattenPlain(entries);
    PathsUnique(entries);
    var flat := Flatten(entries);
    forall i | 0 <= i < |flat| ensures PathsFor(flat)[i] == PathsOf(entries)[i] {
      SplitJoin(PathsOf(entries)[i].0);
    }
    RebuildIsPaths([], flat);
    assert PathsFor(flat) == PathsOf(entries);
    assert [] + entries == entries;
    RebuildAppends([], entries);
  }
}
