/** Running `syncLocale` again: exactly which source locales make it a no-op. */
module LocaleSecondRun {
  import opened Texts
  import opened OrderedMaps
  import opened LocaleTree
  import opened LocaleRebuild
  import opened LocaleMemory
  import opened LocaleSync
  import opened LocaleRun
  import opened LocaleDisk
  import opened LocaleIdempotence

  // ---------- what a writing run leaves on disk ----------

  /** The files a writing run wants, whether or not it had to write them. */
  lemma Written(o: Options, d: Disk, tree: Entries, meta: Meta, glossary: seq<(string, string)>, lines: seq<Entry>)
    requires o.write && !o.checkOnly
    ensures var r := Settle(o, d, tree, meta, glossary, lines);
            && r.disk.locale == Present(tree, true) && r.disk.meta == Present(meta, true)
            && r.disk.glossary == Present(glossary, true) && Shows(r.disk.memory, lines)
            && Value(r.disk.memory, []) == lines && (r.disk.memory.Absent? <==> d.memory.Absent? && lines == [])
            && r.disk.source == d.source && r.disk.sourceHash == d.sourceHash
  {
  }

  /** A disk that shows the expected files is reported unchanged and left alone, whatever the options. */
  lemma Unchanged(o: Options, d: Disk, tree: Entries, meta: Meta, glossary: seq<(string, string)>, lines: seq<Entry>)
    requires d.locale == Present(tree, true) && d.meta == Present(meta, true)
    requires d.glossary == Present(glossary, true) && Shows(d.memory, lines)
    ensures Settle(o, d, tree, meta, glossary, lines) == Synced(d, Report(false, false, |meta.fallbackKeys|))
  {
  }

  /** The same locale in the same repository; the provider, its model and the cache namespace may differ. */
  ghost predicate SameSite(h: Host, g: Host) {
    g == h.(provider := g.provider, model := g.model, cacheKey := g.cacheKey)
  }

  lemma MetaSettles(h: Host, o: Options, g: Host, later: Options, d: Disk, d': Disk, fallback: set<string>, total: nat)
    requires SameSite(h, g) && (later.allow ==> o.allow && g == h)
    requires d'.sourceHash == d.sourceHash && d'.meta == Present(NextMeta(h, o, d, fallback, total), true)
    ensures NextMeta(g, later, d', fallback, total) == NextMeta(h, o, d, fallback, total)
  {
  }

  lemma InitialMemory(h: Host, allow: bool, d: Disk)
    ensures var x := InputsOf(h, allow, d);
            && WellKeyed(x.memory)
            && (forall t :: t in x.byText ==> x.byText[t].textHash == t && !IsBlank(x.byText[t].translated))
            && (forall k :: k in x.memory && Eligible(x.memory[k], h.locale) ==> x.memory[k].textHash in x.byText)
  {
    LoadWellKeyed(Value(d.memory, []));
    ByTextHashExact(Load(Value(d.memory, [])), h.locale);
  }

  /** The files after a writing run that ended with `values`. */
  ghost predicate Leaves(h: Host, o: Options, d: Disk, values: map<string, string>, d': Disk)
    requires Sound(h)
  {
    var src, x := Flatten(d.source), InputsOf(h, o.allow, d);
    var m := MemoryAfter(h, x, o.now, src, values);
    && d'.source == d.source && d'.sourceHash == d.sourceHash
    && d'.locale == Present(Rebuild(FinalFlat(h, x, values, src)), true)
    && d'.meta == Present(NextMeta(h, o, d, FallbackKeys(h, x, values, src), |src|), true)
    && d'.glossary == Present(NextGlossary(h, d), true)
    && Shows(d'.memory, Lines(m, h.sorted(m.Keys))) && Value(d'.memory, []) == Lines(m, h.sorted(m.Keys))
    && (d'.memory.Absent? <==> d.memory.Absent? && Lines(m, h.sorted(m.Keys)) == [])
  }

  /** A writing run that does not throw leaves these files, for translations of exactly the pending keys. */
  lemma WritingRun(h: Host, o: Options, d: Disk, child: Child)
    requires Sound(h) && o.write && !o.checkOnly && RunOf(h, o, d, child).Synced?
    ensures var run, result := RunOf(h, o, d, child), Asking(h, o, d, child).0;
            && result.Done? && Completed(h, InputsOf(h, o.allow, d), Flatten(d.source), result.values)
            && Leaves(h, o, d, result.values, run.disk)
            && run.report.fallbackCount == |run.disk.meta.value.fallbackKeys|
            && ParityHolds(h, Flatten(d.source),
                           FinalFlat(h, InputsOf(h, o.allow, d), result.values, Flatten(d.source)))
  {
    AskingCompletes(h, o, d, child);
    var src, x, values := Flatten(d.source), InputsOf(h, o.allow, d), Asking(h, o, d, child).0.values;
    var m := MemoryAfter(h, x, o.now, src, values);
    Written(o, d, Rebuild(FinalFlat(h, x, values, src)), NextMeta(h, o, d, FallbackKeys(h, x, values, src), |src|),
            NextGlossary(h, d), Lines(m, h.sorted(m.Keys)));
  }

  /** Reading the written files gives back what the first run decided. */
  lemma ReadBack(h: Host, o: Options, d: Disk, values: map<string, string>, allow: bool, d': Disk)
    requires Sound(h) && CleanKeys(Flatten(d.source))
    requires Completed(h, InputsOf(h, o.allow, d), Flatten(d.source), values) && Leaves(h, o, d, values, d')
    ensures Reads(h, InputsOf(h, o.allow, d), o.now, Flatten(d.source), values, InputsOf(h, allow, d'))
  {
    var src, x, y := Flatten(d.source), InputsOf(h, o.allow, d), InputsOf(h, allow, d');
    var m := MemoryAfter(h, x, o.now, src, values);
    FlattenDistinct(d.source);
    InitialMemory(h, o.allow, d);
    MemoryWellKeyed(h, x, o.now, src, values);
    MemoryRoundTrip(m, h.sorted(m.Keys));
    TextsReadBack(h, x, values, src);
    KeysReadBack(h, o, d, FallbackKeys(h, x, values, src), |src|);
    if !x.allow {
      SameHashes(h, o, d, d');
    }
  }

  /** Without a provider the memory knows the same text hashes before and after. */
  lemma SameHashes(h: Host, o: Options, d: Disk, d': Disk)
    requires Sound(h) && !o.allow && Distinct(Load(Value(d'.memory, [])))
    requires var x := InputsOf(h, false, d);
             View(Load(Value(d'.memory, []))) == MemoryAfter(h, x, o.now, Flatten(d.source), map[])
    ensures ByTextHash(Load(Value(d'.memory, [])), h.locale).Keys == InputsOf(h, false, d).byText.Keys
  {
    var x, src, loaded := InputsOf(h, false, d), Flatten(d.source), Load(Value(d'.memory, []));
    var index := ByTextHash(loaded, h.locale);
    InitialMemory(h, false, d);
    ByTextHashExact(loaded, h.locale);
    forall t | t in index ensures t in x.byText {
      NoNewHashes(h, x, o.now, src, h.locale, index[t]);
    }
    forall t | t in x.byText ensures t in index {
      LoadWellKeyed(Value(d.memory, []));
      ByTextHashExact(Load(Value(d.memory, [])), h.locale);
      var k :| k in x.memory && x.memory[k] == x.byText[t];
      MemoryKept(h, x, o.now, src, k);
    }
  }

  lemma TextsReadBack(h: Host, x: Inputs, values: map<string, string>, src: Flat)
    requires Distinct(src) && CleanKeys(src)
    ensures View(Flatten(Rebuild(FinalFlat(h, x, values, src)))) == View(FinalFlat(h, x, values, src))
  {
    FinalDistinct(h, x, values, src);
    var final := FinalFlat(h, x, values, src);
    assert forall i :: 0 <= i < |src| ==> final[i].key == src[i].key;
    CleanKeysReturn(final);
  }

  lemma KeysReadBack(h: Host, o: Options, d: Disk, fallback: set<string>, total: nat)
    requires Sound(h)
    ensures (set k | k in NextMeta(h, o, d, fallback, total).fallbackKeys) == fallback
  {
    assert Enumerates(h.sorted(fallback), fallback);
    assert NextMeta(h, o, d, fallback, total).fallbackKeys == h.sorted(fallback);
  }

  lemma GlossarySettles(h: Host, d: Disk, d': Disk)
    requires Sound(h) && d'.glossary == Present(NextGlossary(h, d), true)
    ensures NextGlossary(h, d') == NextGlossary(h, d)
  {
  }

  /** A run that decides the texts, fallback keys and memory its files already show reports no change. */
  lemma NothingToDo(h: Host, o: Options, d: Disk, values: map<string, string>, d': Disk, g: Host, later: Options)
    requires Sound(h) && Sound(g) && SameSite(h, g) && (later.allow ==> o.allow && g == h)
    requires Leaves(h, o, d, values, d')
    requires var src, x, y := Flatten(d.source), InputsOf(h, o.allow, d), InputsOf(g, later.allow, d');
             && ParityHolds(h, src, FinalFlat(h, x, values, src))
             && FinalFlat(g, y, map[], src) == FinalFlat(h, x, values, src)
             && FallbackKeys(g, y, map[], src) == FallbackKeys(h, x, values, src)
             && MemoryAfter(g, y, later.now, src, map[]) == MemoryAfter(h, x, o.now, src, values)
    ensures Assemble(g, later, d', map[]) == Synced(d', Report(false, false, |d'.meta.value.fallbackKeys|))
  {
    var src, x := Flatten(d.source), InputsOf(h, o.allow, d);
    var m, fallback := MemoryAfter(h, x, o.now, src, values), FallbackKeys(h, x, values, src);
    var final := FinalFlat(h, x, values, src);
    AssembledOf(g, later, d', map[], src, final, fallback, m);
    MetaSettles(h, o, g, later, d, d', fallback, |src|);
    GlossarySettles(h, d, d');
    Unchanged(later, d', Rebuild(final), d'.meta.value, NextGlossary(h, d), Lines(m, h.sorted(m.Keys)));
  }

  /** After a writing run, any run under the same configuration (a check included) finds nothing pending,
      reports no change, writes nothing and keeps the fallback count; a provider may be missing by then. */
  lemma SecondRunIsClean(h: Host, o: Options, d: Disk, child: Child, later: Options, child': Child)
    requires Sound(h) && CleanKeys(Flatten(d.source))
    requires o.write && !o.checkOnly && (later.allow ==> o.allow)
    requires RunOf(h, o, d, child).Synced?
    ensures var first := RunOf(h, o, d, child);
            var y := InputsOf(h, later.allow, first.disk);
            && PendingItems(h, y, Flatten(d.source)) == []
            && (forall i :: 0 <= i < |Flatten(d.source)| ==> !TierOf(h, y, Flatten(d.source)[i]).ByText?)
            && RunOf(h, later, first.disk, child') ==
              Synced(first.disk, Report(false, false, first.report.fallbackCount))
            && Asking(h, later, first.disk, child').1 == 0
  {
    var src, x, d' := Flatten(d.source), InputsOf(h, o.allow, d), RunOf(h, o, d, child).disk;
    WritingRun(h, o, d, child);
    var values := Asking(h, o, d, child).0.values;
    var y := InputsOf(h, later.allow, d');
    FlattenDistinct(d.source);
    ReadBack(h, o, d, values, later.allow, d');
    SecondRunSame(h, x, o.now, src, values, y, later.now);
    NothingAsked(h, y, src, child');
    NothingToDo(h, o, d, values, d', h, later);
  }

  /** Source locales with nonempty dot-free keys are always of that kind. */
  lemma NamedSecondRunIsClean(h: Host, o: Options, d: Disk, child: Child, later: Options, child': Child)
    requires Sound(h) && Named(d.source)
    requires o.write && !o.checkOnly && (later.allow ==> o.allow)
    requires RunOf(h, o, d, child).Synced?
    ensures var first := RunOf(h, o, d, child);
            var y := InputsOf(h, later.allow, first.disk);
            && PendingItems(h, y, Flatten(d.source)) == []
            && (forall i :: 0 <= i < |Flatten(d.source)| ==> !TierOf(h, y, Flatten(d.source)[i]).ByText?)
            && RunOf(h, later, first.disk, child') ==
              Synced(first.disk, Report(false, false, first.report.fallbackCount))
            && Asking(h, later, first.disk, child').1 == 0
  {
    NamedFlattensClean(d.source);
    SecondRunIsClean(h, o, d, child, later, child');
  }

  // ---------- why clean keys are needed ----------

  /** A locale whose file repeats the source tree, with no metadata and no memory. */
  function Copied(source: Entries, hash: string): Disk {
    Disk(source, hash, Present(source, true), Absent, Absent, Absent)
  }

  lemma CopiedTier(h: Host, source: Entries, hash: string, i: nat)
    requires i < |Flatten(source)|
    ensures TierOf(h, InputsOf(h, false, Copied(source, hash)), Flatten(source)[i]) ==
            Existing(Flatten(source)[i].value)
  {
    FlattenDistinct(source);
    ViewIndex(Flatten(source));
    assert Load([]) == [];
  }

  lemma CopiedInputs(h: Host, source: Entries, hash: string, now: string)
    ensures var x, src := InputsOf(h, false, Copied(source, hash)), Flatten(source);
            && FinalFlat(h, x, map[], src) == src && FallbackKeys(h, x, map[], src) == {}
            && MemoryAfter(h, x, now, src, map[]) == map[]
  {
    var x, src := InputsOf(h, false, Copied(source, hash)), Flatten(source);
    forall i | 0 <= i < |src| ensures TierOf(h, x, src[i]) == Existing(src[i].value) {
      CopiedTier(h, source, hash, i);
    }
    assert x.memory == map[] && x.previous == {};
    NothingPending(h, x, src);
    NothingLearned(h, now, PendingItems(h, x, src));
  }

  lemma NewFallbackChanges(h: Host, o: Options, d: Disk, values: map<string, string>, k: string)
    requires Sound(h) && k in FallbackKeys(h, InputsOf(h, o.allow, d), values, Flatten(d.source))
    requires d.meta.Present? && d.meta.value.fallbackKeys == h.sorted({})
    ensures var r := Assemble(h, o, d, values); r.Synced? ==> r.report.changed
  {
    var fallback := FallbackKeys(h, InputsOf(h, o.allow, d), values, Flatten(d.source));
    assert Enumerates(h.sorted(fallback), fallback) && Enumerates(h.sorted({}), {});
    assert NextMeta(h, o, d, fallback, |Flatten(d.source)|).fallbackKeys == h.sorted(fallback);
  }

  /** The first run on a copied locale writes the rebuilt tree, no fallback keys and no memory. */
  lemma CopiedFirstRun(h: Host, source: Entries, hash: string, now: string)
    requires Sound(h) && (forall t :: h.parity(t, t))
    ensures var first := Assemble(h, Options(false, false, false, true, now), Copied(source, hash), map[]);
            && first.Synced? && first.disk.source == source
            && first.disk.locale == Present(Rebuild(Flatten(source)), true)
            && first.disk.meta.Present? && first.disk.meta.value.fallbackKeys == h.sorted({})
            && Value(first.disk.memory, []) == []
  {
    var o, d, src := Options(false, false, false, true, now), Copied(source, hash), Flatten(source);
    CopiedInputs(h, source, hash, now);
    assert Enumerates(h.sorted({}), {});
    Written(o, d, Rebuild(src), NextMeta(h, o, d, {}, |src|), NextGlossary(h, d), []);
    var empty: map<string, Entry> := map[];
    assert empty.Keys == {};
    if h.sorted({}) != [] { SomethingEnumerated(h.sorted({}), {}); }
  }

  lemma SomethingEnumerated(order: seq<string>, keys: set<string>)
    requires Enumerates(order, keys) && order != []
    ensures keys != {}
  {
    assert order[0] in keys;
  }

  /** With no memory and no previous fallbacks, a source key missing from the locale file falls back. */
  lemma MissingFallsBack(h: Host, d: Disk, i: nat)
    requires Sound(h) && i < |Flatten(d.source)| && Value(d.memory, []) == []
    requires d.meta.Present? && d.meta.value.fallbackKeys == h.sorted({})
    requires Flatten(d.source)[i].key !in View(Flatten(Value(d.locale, [])))
    ensures Flatten(d.source)[i].key in FallbackKeys(h, InputsOf(h, false, d), map[], Flatten(d.source))
  {
    assert Enumerates(h.sorted({}), {});
    assert Load([]) == [];
    assert IsFallback(h, InputsOf(h, false, d), map[], Flatten(d.source)[i]);
  }

  /** For every source locale with unclean keys there are files on which the second run throws or reports a
      change. */
  lemma UncleanSecondRun(h: Host, source: Entries, hash: string, now: string, child: Child, later: Options,
                         child': Child)
    requires Sound(h) && (forall t :: h.parity(t, t)) && !later.allow
    requires !CleanKeys(Flatten(source))
    ensures var first := RunOf(h, Options(false, false, false, true, now), Copied(source, hash), child);
            && first.Synced?
            && var second := RunOf(h, later, first.disk, child');
               second.Threw? || second.report.changed
  {
    CopiedFirstRun(h, source, hash, now);
    var d := Assemble(h, Options(false, false, false, true, now), Copied(source, hash), map[]).disk;
    FlattenDistinct(source);
    var i := UncleanLosesKey(Flatten(source));
    MissingFallsBack(h, d, i);
    NewFallbackChanges(h, later, d, map[], Flatten(source)[i].key);
  }
}
