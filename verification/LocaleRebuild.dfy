/** Flattening a tree rebuilt from dotted keys: exactly when the keys come back. */
module LocaleRebuild {
  import opened OrderedMaps
  import opened DottedKeys
  import opened LocaleTree

  predicate LeadingDotKey(key: string) {
    key != "" && key[0] == '.'
  }

  /** No key starts with a dot, and no key extends another one by a dot. */
  ghost predicate CleanKeys(flat: Flat) {
    && (forall i :: 0 <= i < |flat| ==> !LeadingDotKey(flat[i].key))
    && (forall i, j :: 0 <= i < |flat| && 0 <= j < |flat| ==> !(flat[i].key + "." <= flat[j].key))
  }

  predicate Comparable(p: seq<string>, q: seq<string>) {
    p <= q || q <= p
  }

  lemma IndexOfPut<V>(m: seq<Pair<V>>, k: string, v: V, q: string)
    ensures Has(Put(m, k, v), k) && Get(Put(m, k, v), k) == v
    ensures q != k ==> (Has(Put(m, k, v), q) <==> Has(m, q))
    ensures q != k && Has(m, q) ==> Get(Put(m, k, v), q) == Get(m, q)
  {
    var i := IndexOf(m, k);
    var r := Put(m, k, v);
    assert r[i] == Pair(k, v) && forall j :: 0 <= j < |m| && j != i ==> r[j] == m[j];
    assert IndexOf(r, k) == i;
    if q != k {
      var a, b := IndexOf(m, q), IndexOf(r, q);
      if a < |m| { assert r[a] == m[a]; assert a == b; }
      if b < |r| { assert m[b] == r[b]; assert a == b; }
    }
  }

  /** What `SetPath` puts under the first key of its path. */
  function NewEntry(es: Entries, p: seq<string>, text: string): Tree
    requires p != []
  {
    if |p| == 1 then Leaf(text) else Node(SetPath(InnerOf(es, p[0]), p[1..], text))
  }

  function InnerOf(es: Entries, key: string): Entries {
    if Has(es, key) && Get(es, key).Node? then Get(es, key).entries else []
  }

  lemma SetPathIs(es: Entries, p: seq<string>, text: string)
    requires p != []
    ensures SetPath(es, p, text) == Put(es, p[0], NewEntry(es, p, text))
  {
  }

  lemma GetElsewhere(es: Entries, r: Entries, q: seq<string>)
    requires q != [] && (Has(es, q[0]) <==> Has(r, q[0])) && (Has(es, q[0]) ==> Get(es, q[0]) == Get(r, q[0]))
    ensures GetPath(es, q) == GetPath(r, q)
  {
  }

  /** After setting a path: its text is found there, comparable paths lose theirs, others keep theirs. */
  lemma {:induction false} GetAfterSet(es: Entries, p: seq<string>, text: string, q: seq<string>)
    requires p != [] && q != []
    ensures GetPath(SetPath(es, p, text), q) ==
            if q == p then [text] else if Comparable(p, q) then [] else GetPath(es, q)
    decreases |p|
  {
    SetPathIs(es, p, text);
    IndexOfPut(es, p[0], NewEntry(es, p, text), q[0]);
    if p[0] != q[0] {
      GetElsewhere(es, SetPath(es, p, text), q);
    } else {
      HeadCompare(p, q);
      if |p| > 1 && |q| > 1 {
        GetAfterSet(InnerOf(es, p[0]), p[1..], text, q[1..]);
      }
    }
  }

  lemma HeadCompare(p: seq<string>, q: seq<string>)
    requires p != [] && q != [] && p[0] == q[0]
    ensures p == q <==> p[1..] == q[1..]
    ensures Comparable(p, q) <==> Comparable(p[1..], q[1..])
  {
    assert p == [p[0]] + p[1..] && q == [q[0]] + q[1..];
  }

  /** A path that stays clear of every inserted path keeps its lookup. */
  lemma {:induction false} RebuildKeeps(es: Entries, paths: Paths, q: seq<string>)
    requires q != [] && forall i :: 0 <= i < |paths| ==> paths[i].0 != [] && !Comparable(paths[i].0, q)
    ensures GetPath(RebuildPaths(es, paths), q) == GetPath(es, q)
    decreases paths
  {
    if paths != [] {
      GetAfterSet(es, paths[0].0, paths[0].1, q);
      RebuildKeeps(SetPath(es, paths[0].0, paths[0].1), paths[1..], q);
    }
  }

  /** A path without a text gets none unless it is inserted itself. */
  lemma {:induction false} RebuildAddsOnly(es: Entries, paths: Paths, q: seq<string>)
    requires q != [] && GetPath(es, q) == []
    requires forall i :: 0 <= i < |paths| ==> paths[i].0 != [] && paths[i].0 != q
    ensures GetPath(RebuildPaths(es, paths), q) == []
    decreases paths
  {
    if paths != [] {
      GetAfterSet(es, paths[0].0, paths[0].1, q);
      RebuildAddsOnly(SetPath(es, paths[0].0, paths[0].1), paths[1..], q);
    }
  }

  lemma RebuildAround(es: Entries, paths: Paths, i: nat)
    requires i < |paths| && forall j :: 0 <= j < |paths| ==> paths[j].0 != []
    ensures RebuildPaths(es, paths) ==
            RebuildPaths(SetPath(RebuildPaths(es, paths[..i]), paths[i].0, paths[i].1), paths[i + 1..])
  {
    var rest := paths[i..];
    assert paths == paths[..i] + rest;
    RebuildPathsAppend(es, paths[..i], rest);
    assert rest[1..] == paths[i + 1..];
  }

  /** An inserted path keeps its text when no later path is comparable to it. */
  lemma InsertedStays(paths: Paths, i: nat)
    requires i < |paths| && forall j :: 0 <= j < |paths| ==> paths[j].0 != []
    requires forall j :: i < j < |paths| ==> !Comparable(paths[j].0, paths[i].0)
    ensures GetPath(RebuildPaths([], paths), paths[i].0) == [paths[i].1]
  {
    RebuildAround([], paths, i);
    var es := RebuildPaths([], paths[..i]);
    GetAfterSet(es, paths[i].0, paths[i].1, paths[i].0);
    RebuildKeeps(SetPath(es, paths[i].0, paths[i].1), paths[i + 1..], paths[i].0);
  }

  /** A later comparable path removes an inserted text for good. */
  lemma InsertedLost(paths: Paths, i: nat, j: nat)
    requires i < j < |paths| && UniqueDotFree(paths)
    requires Comparable(paths[i].0, paths[j].0)
    ensures GetPath(RebuildPaths([], paths), paths[i].0) == []
  {
    RebuildAround([], paths, j);
    var es := RebuildPaths([], paths[..j]);
    GetAfterSet(es, paths[j].0, paths[j].1, paths[i].0);
    RebuildAddsOnly(SetPath(es, paths[j].0, paths[j].1), paths[j + 1..], paths[i].0);
  }

  // ---------- lookups and listed paths ----------

  /** The listed paths are exactly the lookups that find a text. */
  lemma {:induction false} PathsAreLookups(es: Entries, q: seq<string>, text: string)
    requires Plain(es) && q != []
    ensures (q, text) in PathsOf(es) <==> GetPath(es, q) == [text]
    decreases es
  {
    if es != [] {
      PlainTail(es);
      if es[0].key == q[0] {
        assert (q, text) !in PathsOf(es[1..]) by {
          forall i | 0 <= i < |PathsOf(es[1..])| ensures PathsOf(es[1..])[i].0 != q {
            PathHead(es[1..], i);
          }
        }
        EntryLookup(es[0], q, text);
      } else {
        PathsAreLookups(es[1..], q, text);
        assert IndexOf(es, q[0]) == 1 + IndexOf(es[1..], q[0]);
      }
    }
  }

  lemma {:induction false} EntryLookup(entry: Pair<Tree>, q: seq<string>, text: string)
    requires q != [] && entry.key == q[0] && (entry.value.Node? ==> Plain(entry.value.entries))
    ensures (q, text) in PathsOfEntry(entry) <==> GetPath([entry], q) == [text]
    decreases entry
  {
    assert IndexOf([entry], q[0]) == 0;
    if entry.value.Node? {
      var inner := PathsOf(entry.value.entries);
      if |q| > 1 {
        PathsAreLookups(entry.value.entries, q[1..], text);
        BeneathMember(q[0], inner, q, text);
      } else {
        assert forall i :: 0 <= i < |inner| ==> |PathsOfEntry(entry)[i].0| > 1;
      }
    } else {
      assert PathsOfEntry(entry) == [([q[0]], entry.value.text)];
      assert |q| == 1 ==> q == [q[0]];
    }
  }

  lemma BeneathMember(key: string, paths: Paths, q: seq<string>, text: string)
    requires |q| > 1 && q[0] == key
    ensures (q, text) in Beneath(key, paths) <==> (q[1..], text) in paths
  {
    var r := Beneath(key, paths);
    assert q == [key] + q[1..];
    if (q, text) in r {
      var i :| 0 <= i < |r| && r[i] == (q, text);
      assert ([key] + paths[i].0)[1..] == paths[i].0;
      assert paths[i] == (q[1..], text);
    }
    if (q[1..], text) in paths {
      var i :| 0 <= i < |paths| && paths[i] == (q[1..], text);
      assert r[i] == (q, text);
    }
  }

  /** Nothing lies below a text. */
  lemma {:induction false} NothingBelowText(es: Entries, p: seq<string>, q: seq<string>)
    requires p != [] && p < q && GetPath(es, p) != []
    ensures GetPath(es, q) == []
    decreases |p|
  {
    if |p| > 1 {
      assert p[1..] < q[1..];
      NothingBelowText(Get(es, p[0]).entries, p[1..], q[1..]);
    }
  }

  // ---------- rebuilt trees are plain ----------

  lemma PutEntries<V>(m: seq<Pair<V>>, k: string, v: V, i: nat)
    requires i < |Put(m, k, v)|
    ensures Put(m, k, v)[i] == Pair(k, v) || (i < |m| && Put(m, k, v)[i] == m[i])
  {
  }

  lemma {:induction false} SetPathPlain(es: Entries, p: seq<string>, text: string)
    requires Plain(es) && p != [] && AllDotFree(p)
    ensures Plain(SetPath(es, p, text))
    decreases |p|
  {
    var inner := if Has(es, p[0]) && Get(es, p[0]).Node? then Get(es, p[0]).entries else [];
    var v := if |p| == 1 then Leaf(text) else Node(SetPath(inner, p[1..], text));
    if |p| > 1 {
      SetPathPlain(inner, p[1..], text);
    }
    var r := SetPath(es, p, text);
    PutDistinct(es, p[0], v);
    forall i | 0 <= i < |r|
      ensures DotFree(r[i].key) && (r[i].value.Node? ==> Plain(r[i].value.entries))
    {
      PutEntries(es, p[0], v, i);
    }
  }

  lemma SetPathTopNamed(es: Entries, p: seq<string>, text: string)
    requires TopNamed(es) && p != [] && (p[0] != "" || |p| == 1)
    ensures TopNamed(SetPath(es, p, text))
  {
    var inner := if Has(es, p[0]) && Get(es, p[0]).Node? then Get(es, p[0]).entries else [];
    var v := if |p| == 1 then Leaf(text) else Node(SetPath(inner, p[1..], text));
    var r := SetPath(es, p, text);
    forall i | 0 <= i < |r| && r[i].key == "" && r[i].value.Node? ensures PathsOf(r[i].value.entries) == [] {
      PutEntries(es, p[0], v, i);
    }
  }

  lemma {:induction false} RebuildPlain(es: Entries, paths: Paths)
    requires Plain(es) && forall i :: 0 <= i < |paths| ==> paths[i].0 != [] && AllDotFree(paths[i].0)
    ensures Plain(RebuildPaths(es, paths))
    decreases paths
  {
    if paths != [] {
      SetPathPlain(es, paths[0].0, paths[0].1);
      RebuildPlain(SetPath(es, paths[0].0, paths[0].1), paths[1..]);
    }
  }

  lemma {:induction false} RebuildTopNamed(es: Entries, paths: Paths)
    requires TopNamed(es)
    requires forall i :: 0 <= i < |paths| ==> paths[i].0 != [] && (paths[i].0[0] != "" || |paths[i].0| == 1)
    ensures TopNamed(RebuildPaths(es, paths))
    decreases paths
  {
    if paths != [] {
      SetPathTopNamed(es, paths[0].0, paths[0].1);
      RebuildTopNamed(SetPath(es, paths[0].0, paths[0].1), paths[1..]);
    }
  }

  /** Flattening a tree with dot-free keys never yields a key with a leading dot. */
  lemma {:induction false} FlattenNoLeadingDot(es: Entries, prefix: string, out: Flat)
    requires Plain(es) && !LeadingDotKey(prefix)
    requires forall i :: 0 <= i < |out| ==> !LeadingDotKey(out[i].key)
    ensures forall i :: 0 <= i < |FlattenInto(es, prefix, out)| ==>
              !LeadingDotKey(FlattenInto(es, prefix, out)[i].key)
    decreases es
  {
    if es != [] {
      PlainTail(es);
      EntryNoLeadingDot(es[0], prefix, out);
      FlattenNoLeadingDot(es[1..], prefix, FlattenEntry(es[0], prefix, out));
    }
  }

  lemma {:induction false} EntryNoLeadingDot(entry: Pair<Tree>, prefix: string, out: Flat)
    requires DotFree(entry.key) && (entry.value.Node? ==> Plain(entry.value.entries))
    requires !LeadingDotKey(prefix)
    requires forall i :: 0 <= i < |out| ==> !LeadingDotKey(out[i].key)
    ensures forall i :: 0 <= i < |FlattenEntry(entry, prefix, out)| ==>
              !LeadingDotKey(FlattenEntry(entry, prefix, out)[i].key)
    decreases entry
  {
    match entry.value
    case Leaf(text) =>
      forall i | 0 <= i < |FlattenEntry(entry, prefix, out)|
        ensures !LeadingDotKey(FlattenEntry(entry, prefix, out)[i].key)
      {
        PutEntries(out, Under(prefix, entry.key), text, i);
      }
    case Node(inner) => FlattenNoLeadingDot(inner, Under(prefix, entry.key), out);
  }

  lemma {:induction false} PathsHold(es: Entries, j: nat, path: (seq<string>, string))
    requires j < |es| && path in PathsOfEntry(es[j])
    ensures path in PathsOf(es)
  {
    if j > 0 {
      assert es[1..][j - 1] == es[j];
      PathsHold(es[1..], j - 1, path);
    }
  }

  /** A text in a map under an empty top-level key has a joined path with a leading dot. */
  lemma DottedPath(es: Entries, j: nat) returns (i: nat)
    requires j < |es| && es[j].key == "" && es[j].value.Node? && PathsOf(es[j].value.entries) != []
    ensures i < |PathsOf(es)| && LeadingDotKey(Keyed("", PathsOf(es))[i].key)
  {
    var inner := PathsOf(es[j].value.entries);
    var path := ([""] + inner[0].0, inner[0].1);
    assert PathsOfEntry(es[j])[0] == path;
    PathsHold(es, j, path);
    i :| 0 <= i < |PathsOf(es)| && PathsOf(es)[i] == path;
    JoinAppend([""], inner[0].0);
    assert Join([""]) == "";
  }

  /** With dot-free keys, flattening lists the paths joined by dots iff no text sits in a map under an empty
      top-level key. */
  lemma FlattenJoinsPaths(es: Entries)
    requires Plain(es)
    ensures Flatten(es) == Keyed("", PathsOf(es)) <==> TopNamed(es)
  {
    if TopNamed(es) {
      FlattenPlain(es);
    } else {
      var j :| 0 <= j < |es| && es[j].key == "" && es[j].value.Node? && PathsOf(es[j].value.entries) != [];
      var i := DottedPath(es, j);
      FlattenNoLeadingDot(es, "", []);
    }
  }

  // ---------- the exact condition ----------

  lemma ForPathsUnique(m: Flat)
    requires Distinct(m)
    ensures UniqueDotFree(PathsFor(m))
  {
    var ps := PathsFor(m);
    forall i, j | 0 <= i < j < |ps| ensures ps[i].0 != ps[j].0 {
      if ps[i].0 == ps[j].0 { SplitInjective(m[i].key, m[j].key); }
    }
  }

  lemma ForPathsNamed(m: Flat)
    requires forall i :: 0 <= i < |m| ==> !LeadingDotKey(m[i].key)
    ensures forall i :: 0 <= i < |m| ==> PathsFor(m)[i].0[0] != "" || |PathsFor(m)[i].0| == 1
  {
    forall i | 0 <= i < |m| ensures Split(m[i].key)[0] != "" || |Split(m[i].key)| == 1 {
      LeadingDot(m[i].key);
    }
  }

  lemma RebuiltPlain(m: Flat)
    requires forall i :: 0 <= i < |m| ==> !LeadingDotKey(m[i].key)
    ensures Plain(Rebuild(m)) && TopNamed(Rebuild(m))
  {
    RebuildIsPaths([], m);
    RebuildPlain([], PathsFor(m));
    ForPathsNamed(m);
    RebuildTopNamed([], PathsFor(m));
  }

  lemma FlattenLookups(es: Entries, k: string)
    requires Plain(es) && TopNamed(es)
    ensures k in View(Flatten(es)) <==> GetPath(es, Split(k)) != []
    ensures k in View(Flatten(es)) ==> GetPath(es, Split(k)) == [View(Flatten(es))[k]]
  {
    var found := GetPath(es, Split(k));
    if found != [] {
      FlattenLookup(es, k, found[0]);
    }
    if k in View(Flatten(es)) {
      FlattenLookup(es, k, View(Flatten(es))[k]);
    }
  }

  /** Without leading dots, a key survives flatten after rebuild iff the rebuilt tree has a text there. */
  lemma RebuiltLookup(m: Flat, k: string)
    requires forall i :: 0 <= i < |m| ==> !LeadingDotKey(m[i].key)
    ensures Distinct(Flatten(Rebuild(m)))
    ensures k in View(Flatten(Rebuild(m))) <==> GetPath(RebuildPaths([], PathsFor(m)), Split(k)) != []
    ensures k in View(Flatten(Rebuild(m))) ==>
              GetPath(RebuildPaths([], PathsFor(m)), Split(k)) == [View(Flatten(Rebuild(m)))[k]]
  {
    RebuiltPlain(m);
    RebuildIsPaths([], m);
    FlattenPlain(Rebuild(m));
    FlattenLookups(Rebuild(m), k);
  }

  lemma FlattenLookup(es: Entries, k: string, v: string)
    requires Plain(es) && TopNamed(es)
    ensures k in View(Flatten(es)) && View(Flatten(es))[k] == v <==> GetPath(es, Split(k)) == [v]
  {
    FlattenPlain(es);
    PathsUnique(es);
    PathsAreLookups(es, Split(k), v);
    var ps, flat := PathsOf(es), Flatten(es);
    ViewIndex(flat);
    if (Split(k), v) in ps {
      var i :| 0 <= i < |ps| && ps[i] == (Split(k), v);
      JoinSplit(k);
      assert flat[i] == Pair(k, v);
    }
    if k in View(flat) && View(flat)[k] == v {
      var i := IndexOf(flat, k);
      SplitJoin(ps[i].0);
      assert ps[i] == (Split(k), v);
    }
  }

  lemma CleanKeyReturns(m: Flat, k: string)
    requires Distinct(m) && CleanKeys(m)
    ensures GetPath(RebuildPaths([], PathsFor(m)), Split(k)) == if k in View(m) then [View(m)[k]] else []
  {
    ViewIndex(m);
    if Has(m, k) {
      CleanStays(m, IndexOf(m, k));
    } else {
      NothingElse(m, k);
    }
  }

  lemma SameLookups(m: Flat, k: string)
    requires Distinct(m) && CleanKeys(m)
    ensures k in View(Flatten(Rebuild(m))) <==> k in View(m)
    ensures k in View(m) ==> View(Flatten(Rebuild(m)))[k] == View(m)[k]
  {
    RebuiltLookup(m, k);
    CleanKeyReturns(m, k);
  }

  /** Clean keys come back from flatten after rebuild, each with its text, and no others do. */
  lemma CleanKeysReturn(m: Flat)
    requires Distinct(m) && CleanKeys(m)
    ensures Distinct(Flatten(Rebuild(m)))
    ensures View(Flatten(Rebuild(m))) == View(m)
  {
    RebuiltLookup(m, "");
    var out, was := View(Flatten(Rebuild(m))), View(m);
    forall k ensures k in out <==> k in was
             ensures k in was ==> out[k] == was[k]
    {
      SameLookups(m, k);
    }
  }

  lemma NothingElse(m: Flat, k: string)
    requires !Has(m, k)
    ensures GetPath(RebuildPaths([], PathsFor(m)), Split(k)) == []
  {
    var ps := PathsFor(m);
    forall i | 0 <= i < |ps| ensures ps[i].0 != Split(k) {
      if ps[i].0 == Split(k) { SplitInjective(m[i].key, k); }
    }
    RebuildAddsOnly([], ps, Split(k));
  }

  lemma Incomparable(a: string, b: string)
    requires a != b && !(a + "." <= b) && !(b + "." <= a)
    ensures !Comparable(Split(a), Split(b))
  {
    PrefixKeys(a, b);
    PrefixKeys(b, a);
    if Split(a) == Split(b) { SplitInjective(a, b); }
  }

  lemma CleanStays(m: Flat, i: nat)
    requires Distinct(m) && CleanKeys(m) && i < |m|
    ensures GetPath(RebuildPaths([], PathsFor(m)), Split(m[i].key)) == [m[i].value]
  {
    var ps := PathsFor(m);
    ForPathsUnique(m);
    forall j | i < j < |ps| ensures !Comparable(ps[j].0, ps[i].0) {
      Incomparable(m[j].key, m[i].key);
    }
    InsertedStays(ps, i);
  }

  /** A key that extends another by a dot makes one of the two vanish. */
  lemma UncleanLost(m: Flat, i: nat, j: nat)
    requires Distinct(m) && i < |m| && j < |m| && m[i].key + "." <= m[j].key
    requires forall l :: 0 <= l < |m| ==> !LeadingDotKey(m[l].key)
    ensures m[i].key !in View(Flatten(Rebuild(m))) || m[j].key !in View(Flatten(Rebuild(m)))
  {
    var ps := PathsFor(m);
    ForPathsUnique(m);
    PrefixKeys(m[i].key, m[j].key);
    var (a, b) := if i < j then (i, j) else (j, i);
    assert i != j;
    InsertedLost(ps, a, b);
    RebuiltLookup(m, m[a].key);
  }

  /** Unclean keys always lose one of them. */
  lemma UncleanLosesKey(m: Flat) returns (i: nat)
    requires Distinct(m) && !CleanKeys(m)
    ensures i < |m| && m[i].key !in View(Flatten(Rebuild(m)))
  {
    if l :| 0 <= l < |m| && LeadingDotKey(m[l].key) {
      RebuildIsPaths([], m);
      RebuildPlain([], PathsFor(m));
      FlattenNoLeadingDot(Rebuild(m), "", []);
      ViewKeys(Flatten(Rebuild(m)), m[l].key);
      i := l;
    } else {
      var a, b :| 0 <= a < |m| && 0 <= b < |m| && m[a].key + "." <= m[b].key;
      UncleanLost(m, a, b);
      i := if m[a].key in View(Flatten(Rebuild(m))) then b else a;
    }
  }

  /** Rebuilding from dotted keys and flattening again gives the same map exactly for clean keys. */
  lemma FlattenRebuilt(m: Flat)
    requires Distinct(m)
    ensures View(Flatten(Rebuild(m))) == View(m) <==> CleanKeys(m)
  {
    if CleanKeys(m) {
      CleanKeysReturn(m);
    } else {
      var i := UncleanLosesKey(m);
      ViewAt(m, i);
    }
  }

  lemma {:induction false} ViewKeys<V>(m: seq<Pair<V>>, k: string)
    ensures k in View(m) ==> exists i :: 0 <= i < |m| && m[i].key == k
  {
    if m != [] && k in View(m) && k != m[|m| - 1].key {
      ViewKeys(m[..|m| - 1], k);
      var i :| 0 <= i < |m| - 1 && m[..|m| - 1][i].key == k;
      assert m[i].key == k;
    }
  }

  /** Flattening a tree with nonempty dot-free keys yields distinct clean keys. */
  lemma NamedFlattensClean(es: Entries)
    requires Named(es)
    ensures Distinct(Flatten(es)) && CleanKeys(Flatten(es))
  {
    NamedIsPlain(es);
    FlattenPlain(es);
    PathsUnique(es);
    var ps, flat := PathsOf(es), Flatten(es);
    forall i | 0 <= i < |flat| ensures !LeadingDotKey(flat[i].key) {
      PathHead(es, i);
      SplitJoin(ps[i].0);
      LeadingDot(flat[i].key);
    }
    forall i, j | 0 <= i < |flat| && 0 <= j < |flat| ensures !(flat[i].key + "." <= flat[j].key) {
      if flat[i].key + "." <= flat[j].key {
        PrefixKeys(flat[i].key, flat[j].key);
        SplitJoin(ps[i].0);
        SplitJoin(ps[j].0);
        PathsAreLookups(es, ps[i].0, ps[i].1);
        PathsAreLookups(es, ps[j].0, ps[j].1);
        NothingBelowText(es, ps[i].0, ps[j].0);
      }
    }
  }
}
