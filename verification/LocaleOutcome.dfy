/** What a `syncLocale` run decides and leaves behind, in terms of the files it reads. */
module LocaleOutcome {
  import opened OrderedMaps
  import opened LocaleTree
  import opened LocaleRebuild
  import opened LocaleMemory
  import opened Batching
  import opened LocaleSync
  import opened LocaleRun
  import opened LocaleFill
  import opened LocaleDisk
  import opened LocaleIdempotence
  import opened LocaleSecondRun
  import opened LocaleLaterRun

  // ---------- the four tiers ----------

  /** A previous fallback key that a provider gets another chance to translate. */
  predicate Retried(x: Inputs, p: Pair<string>) {
    x.allow && p.key in x.previous
  }

  /** The memory holds an entry under the key's own cache key, and it may be used. */
  predicate OwnEntry(h: Host, x: Inputs, p: Pair<string>) {
    h.cacheKey(p.key, h.hashText(p.value)) in x.memory && !Retried(x, p)
  }

  /** Some entry of the locale has the key's source text, and the key is missing from the file or a fallback. */
  predicate TextHit(h: Host, x: Inputs, p: Pair<string>) {
    h.hashText(p.value) in x.byText && (p.key !in x.existing || p.key in x.previous)
  }

  /** The locale file has a text for the key, and it may be kept. */
  predicate InFile(x: Inputs, p: Pair<string>) {
    p.key in x.existing && !Retried(x, p)
  }

  ghost predicate IsPending(s: Progress, key: string) {
    exists item :: item in s.pending && item.key == key
  }

  lemma PendingIs(h: Host, x: Inputs, src: Flat, s: Progress, i: nat)
    requires Resolved(h, x, src, s) && Distinct(src) && i < |src|
    ensures IsPending(s, src[i].key) <==> TierOf(h, x, src[i]).Pending?
    ensures TierOf(h, x, src[i]).Pending? ==> ItemOf(h, src[i]) in s.pending
  {
    if TierOf(h, x, src[i]).Pending? {
      PendingHas(h, x, src, i);
    }
    if IsPending(s, src[i].key) {
      var item :| item in s.pending && item.key == src[i].key;
      PendingKeys(h, x, src, item);
    }
  }

  lemma KeptIs(h: Host, x: Inputs, src: Flat, i: nat)
    requires Distinct(src) && i < |src|
    ensures src[i].key in Kept(h, x, src) <==> StaysFallback(h, x, src[i])
  {
    KeptExact(h, x, src, src[i].key);
  }

  /** The first loop, with or without a provider and on any files: a key's own memory entry gives its text, unless
      a provider is to retry the key; else a text hit does, and becomes the key's own entry; else the file does;
      else the key is pending. It stays a fallback iff it was one and its text was merely kept. */
  lemma TiersInOrder(h: Host, x: Inputs, src: Flat, s: Progress, i: nat)
    requires Sound(h) && Resolved(h, x, src, s) && Distinct(src) && i < |src|
    ensures var p := src[i];
            var t := h.hashText(p.value);
            var own := h.cacheKey(p.key, t);
            && (OwnEntry(h, x, p) ==>
                  && p.key in s.next && s.next[p.key] == x.memory[own].translated && !IsPending(s, p.key)
                  && (p.key in s.fallback <==> p.key in x.previous) && own in s.tm && s.tm[own] == x.memory[own])
            && (!OwnEntry(h, x, p) && TextHit(h, x, p) ==>
                  && p.key in s.next && s.next[p.key] == x.byText[t].translated && !IsPending(s, p.key)
                  && p.key !in s.fallback && own in s.tm
                  && s.tm[own] == x.byText[t].(cacheKey := own, segmentId := p.key,
                                               sourcePath := "ui/src/i18n/locales/" + h.fileName))
            && (!OwnEntry(h, x, p) && !TextHit(h, x, p) && InFile(x, p) ==>
                  && p.key in s.next && s.next[p.key] == x.existing[p.key] && !IsPending(s, p.key)
                  && (p.key in s.fallback <==> p.key in x.previous))
            && (!OwnEntry(h, x, p) && !TextHit(h, x, p) && !InFile(x, p) ==>
                  p.key !in s.next && p.key !in s.fallback && Item(own, p.key, p.value, t) in s.pending)
  {
    ReusedAt(h, x, src, i);
    PendingIs(h, x, src, s, i);
    KeptIs(h, x, src, i);
    AdoptedAt(h, x, src, i);
  }

  // ---------- the written files ----------

  /** What a run reads, from the files themselves. */
  ghost function Reading(h: Host, o: Options, d: Disk): Inputs {
    Inputs(o.allow, View(Load(Value(d.memory, []))), ByTextHash(Load(Value(d.memory, [])), h.locale),
           View(Flatten(Value(d.locale, []))),
           if d.meta.Present? then set k | k in d.meta.value.fallbackKeys else {})
  }

  /** The text a key has in the file after a writing run, tier by tier; a pending key has its translation, or its
      source text when there is no provider. Exactly the pending keys are translated. */
  lemma TextServed(h: Host, o: Options, d: Disk, child: Child, i: nat)
    requires Sound(h) && CleanKeys(Flatten(d.source)) && i < |Flatten(d.source)|
    requires o.write && !o.checkOnly && RunOf(h, o, d, child).Synced?
    ensures var p, x, result := Flatten(d.source)[i], Reading(h, o, d), Asking(h, o, d, child).0;
            var t := h.hashText(p.value);
            var pending := !OwnEntry(h, x, p) && !TextHit(h, x, p) && !InFile(x, p);
            && result.Done? && (p.key in result.values <==> pending && o.allow)
            && TextIn(RunOf(h, o, d, child).disk, p.key) ==
               [if OwnEntry(h, x, p) then x.memory[h.cacheKey(p.key, t)].translated
                else if TextHit(h, x, p) then x.byText[t].translated
                else if InFile(x, p) then x.existing[p.key]
                else if o.allow then result.values[p.key]
                else p.value]
  {
    WritingRun(h, o, d, child);
    TextWritten(h, o, d, child, i);
    FinalTextIs(h, InputsOf(h, o.allow, d), Asking(h, o, d, child).0.values, Flatten(d.source)[i]);
    TranslatedExactly(h, o, d, child, i);
  }

  lemma FinalTextIs(h: Host, x: Inputs, values: map<string, string>, p: Pair<string>)
    ensures FinalText(h, x, values, p) ==
            if OwnEntry(h, x, p) then x.memory[h.cacheKey(p.key, h.hashText(p.value))].translated
            else if TextHit(h, x, p) then x.byText[h.hashText(p.value)].translated
            else if InFile(x, p) then x.existing[p.key]
            else if p.key in values then values[p.key]
            else p.value
    ensures TierOf(h, x, p).Pending? <==> !OwnEntry(h, x, p) && !TextHit(h, x, p) && !InFile(x, p)
  {
  }

  lemma TranslatedExactly(h: Host, o: Options, d: Disk, child: Child, i: nat)
    requires Sound(h) && i < |Flatten(d.source)| && Asking(h, o, d, child).0.Done?
    ensures Flatten(d.source)[i].key in Asking(h, o, d, child).0.values <==>
            o.allow && TierOf(h, InputsOf(h, o.allow, d), Flatten(d.source)[i]).Pending?
  {
    if o.allow {
      TranslatedArePending(h, o, d, child, i);
    }
  }

  /** No other key gets a text; the glossary file is the one there was, or the default if that had no entries; all
      files are in canonical form; and no memory file is made for an empty memory. */
  lemma NothingElseWritten(h: Host, o: Options, d: Disk, child: Child, key: string)
    requires Sound(h) && CleanKeys(Flatten(d.source))
    requires o.write && !o.checkOnly && RunOf(h, o, d, child).Synced?
    ensures var after := RunOf(h, o, d, child).disk;
            && ((forall p :: p in Flatten(d.source) ==> p.key != key) ==> TextIn(after, key) == [])
            && after.glossary.Present? && after.glossary.value ==
               (if d.glossary.Present? && d.glossary.value != [] then d.glossary.value else h.defaultGlossary)
            && after.source == d.source && after.sourceHash == d.sourceHash
            && after.locale.Present? && after.locale.canonical && after.meta.Present? && after.meta.canonical
            && after.glossary.canonical && (after.memory.Present? ==> after.memory.canonical)
            && (after.memory.Absent? <==> d.memory.Absent? && Value(after.memory, []) == [])
  {
    WritingRun(h, o, d, child);
    LaterReads(h, o, d, child, h, false);
    var src, x, values := Flatten(d.source), InputsOf(h, o.allow, d), Asking(h, o, d, child).0.values;
    var final := FinalFlat(h, x, values, src);
    if key in View(final) {
      ViewHas(final, key);
      assert src[IndexOf(final, key)] in src;
    }
  }

  /** The fallback keys recorded by a writing run: none with a provider; without one, the earlier ones that no text
      hit rescued, and the keys with no own entry, no text hit and no text in the file. */
  lemma FallbackRecorded(h: Host, o: Options, d: Disk, child: Child, p: Pair<string>)
    requires Sound(h) && p in Flatten(d.source)
    requires o.write && !o.checkOnly && RunOf(h, o, d, child).Synced?
    ensures var x, after := Reading(h, o, d), RunOf(h, o, d, child).disk.meta;
            var own, hit := h.cacheKey(p.key, h.hashText(p.value)) in x.memory, h.hashText(p.value) in x.byText;
            && after.Present? && (o.allow ==> after.value.fallbackKeys == [])
            && (!o.allow ==> (p.key in after.value.fallbackKeys <==>
                              || (p.key in x.previous && (own || !hit))
                              || (!own && !hit && p.key !in x.existing)))
  {
    WritingRun(h, o, d, child);
    FlattenDistinct(d.source);
    var x, src := InputsOf(h, o.allow, d), Flatten(d.source);
    KeysReadBack(h, o, d, FallbackKeys(h, x, Asking(h, o, d, child).0.values, src), |src|);
    if o.allow {
      NoFallbackLeft(h, o, d, child);
    } else {
      FallbackWithoutProvider(h, x, src, p);
    }
  }

  /** The metadata of a writing run: every key is counted, provider and model are those of the run, or the earlier
      ones without a provider, and its date moves iff anything else in it does. */
  lemma MetaWritten(h: Host, o: Options, d: Disk, child: Child)
    requires Sound(h) && o.write && !o.checkOnly && RunOf(h, o, d, child).Synced?
    ensures var after := RunOf(h, o, d, child).disk.meta;
            && after.Present?
            && var m := after.value;
               && m.locale == h.locale && m.sourceHash == d.sourceHash && m.workflow == 1
               && m.totalKeys == |Flatten(d.source)| && m.translatedKeys == m.totalKeys - |m.fallbackKeys|
               && (o.allow ==> m.provider == h.provider && m.model == h.model)
               && (!o.allow && d.meta.Present? ==> m.provider == d.meta.value.provider && m.model == d.meta.value.model)
               && (!o.allow && d.meta.Absent? ==> m.provider == "" && m.model == "")
               && (d.meta.Absent? ==> m.generatedAt == o.now)
               && (d.meta.Present? && m.(generatedAt := d.meta.value.generatedAt) == d.meta.value ==> m == d.meta.value)
               && (d.meta.Present? && m.(generatedAt := d.meta.value.generatedAt) != d.meta.value ==>
                     m.generatedAt == o.now)
  {
    WritingRun(h, o, d, child);
  }

  /** What the memory holds under a key's own cache key after a run: the text hit that served the key, a new entry
      if it was translated, and otherwise what was there before. */
  ghost predicate EntryIs(h: Host, x: Inputs, now: string, values: map<string, string>, p: Pair<string>,
                          after: map<string, Entry>) {
    var t := h.hashText(p.value);
    var own := h.cacheKey(p.key, t);
    if !OwnEntry(h, x, p) && TextHit(h, x, p) then
      && own in after
      && after[own] == x.byText[t].(cacheKey := own, segmentId := p.key,
                                    sourcePath := "ui/src/i18n/locales/" + h.fileName)
    else if !OwnEntry(h, x, p) && !InFile(x, p) && x.allow then
      && p.key in values && own in after
      && after[own] == Entry(own, h.model, h.provider, p.key, "ui/src/i18n/locales/" + h.fileName, "en",
                             p.value, t, h.locale, values[p.key], now)
    else (own in after <==> own in x.memory) && (own in x.memory ==> after[own] == x.memory[own])
  }

  lemma EntrySpelledOut(h: Host, x: Inputs, now: string, src: Flat, values: map<string, string>, i: nat)
    requires Sound(h) && Distinct(src) && i < |src| && Completed(h, x, src, values)
    ensures EntryIs(h, x, now, values, src[i], MemoryAfter(h, x, now, src, values))
  {
    EntryAfter(h, x, now, src, values, i);
  }

  /** The memory after a writing run, read back, under the cache key of every source key. */
  lemma MemoryWritten(h: Host, o: Options, d: Disk, child: Child, i: nat)
    requires Sound(h) && CleanKeys(Flatten(d.source)) && i < |Flatten(d.source)|
    requires o.write && !o.checkOnly && RunOf(h, o, d, child).Synced?
    ensures Asking(h, o, d, child).0.Done?
    ensures EntryIs(h, Reading(h, o, d), o.now, Asking(h, o, d, child).0.values, Flatten(d.source)[i],
                    View(Load(Value(RunOf(h, o, d, child).disk.memory, []))))
  {
    LaterReads(h, o, d, child, h, false);
    FlattenDistinct(d.source);
    EntrySpelledOut(h, InputsOf(h, o.allow, d), o.now, Flatten(d.source), Asking(h, o, d, child).0.values, i);
  }

  lemma EntryAfter(h: Host, x: Inputs, now: string, src: Flat, values: map<string, string>, i: nat)
    requires Sound(h) && Distinct(src) && i < |src| && Completed(h, x, src, values)
    ensures var m, own, tier := MemoryAfter(h, x, now, src, values), KeyOf(h, src[i]), TierOf(h, x, src[i]);
            if tier.ByText? then own in m && m[own] == Adopt(h, src[i], tier.entry)
            else if tier.Pending? && x.allow then
              && src[i].key in values
              && own in m && m[own] == LearnedEntry(h, now, ItemOf(h, src[i]), values[src[i].key])
            else (own in m <==> own in x.memory) && (own in x.memory ==> m[own] == x.memory[own])
  {
    var items := PendingItems(h, x, src);
    AdoptedAt(h, x, src, i);
    LearnedFor(h, x, now, src, values, i);
    if TierOf(h, x, src[i]).Pending? && x.allow {
      PendingItemized(h, x, src);
      PendingHas(h, x, src, i);
      var j :| 0 <= j < |items| && items[j] == ItemOf(h, src[i]);
      LearnedAt(h, now, items, values, j);
    }
  }

  /** Entries under no source key's cache key stay as they are. */
  lemma OtherEntriesStay(h: Host, o: Options, d: Disk, child: Child, ck: string)
    requires Sound(h) && CleanKeys(Flatten(d.source))
    requires o.write && !o.checkOnly && RunOf(h, o, d, child).Synced?
    requires forall p :: p in Flatten(d.source) ==> h.cacheKey(p.key, h.hashText(p.value)) != ck
    ensures var before, after := View(Load(Value(d.memory, []))),
                                 View(Load(Value(RunOf(h, o, d, child).disk.memory, [])));
            (ck in after <==> ck in before) && (ck in before ==> after[ck] == before[ck])
  {
    var src, x, values := Flatten(d.source), InputsOf(h, o.allow, d), Asking(h, o, d, child).0.values;
    LaterReads(h, o, d, child, h, false);
    Untouched(h, x, o.now, src, values, ck);
  }

  lemma Untouched(h: Host, x: Inputs, now: string, src: Flat, values: map<string, string>, ck: string)
    requires forall p :: p in src ==> KeyOf(h, p) != ck
    ensures var m := MemoryAfter(h, x, now, src, values);
            (ck in m <==> ck in x.memory) && (ck in m ==> m[ck] == x.memory[ck])
  {
    if ck in Adopted(h, x, src) {
      AdoptedKeys(h, x, src, ck);
    }
    NotLearned(h, x, now, src, values, ck);
  }

  lemma NotLearned(h: Host, x: Inputs, now: string, src: Flat, values: map<string, string>, ck: string)
    requires forall p :: p in src ==> KeyOf(h, p) != ck
    ensures ck !in Learned(h, now, PendingItems(h, x, src), values)
  {
    var items := PendingItems(h, x, src);
    if ck in Learned(h, now, items, values) {
      LearnedKeys(h, now, items, values, ck);
      var j :| 0 <= j < |items| && items[j].cacheKey == ck;
      PendingKeys(h, x, src, items[j]);
    }
  }

  // ---------- reporting and writing ----------

  /** What the run would leave if it were asked to write. */
  function Writing(o: Options): Options {
    o.(write := true, checkOnly := false)
  }

  lemma WritingAsksTheSame(h: Host, o: Options, d: Disk, child: Child)
    ensures Asking(h, Writing(o), d, child) == Asking(h, o, d, child)
  {
  }

  lemma SettleReports(o: Options, d: Disk, tree: Entries, meta: Meta, glossary: seq<(string, string)>,
                      lines: seq<Entry>)
    ensures var run := Settle(o, d, tree, meta, glossary, lines);
            var full := Settle(Writing(o), d, tree, meta, glossary, lines);
            && run.Synced? && full.Synced?
            && (run.report.changed <==> full.disk != d)
            && (run.report.wrote <==> run.report.changed && o.write && !o.checkOnly)
            && run.disk == (if run.report.wrote then full.disk else d)
            && run.report.fallbackCount == |meta.fallbackKeys|
  {
  }

  /** A run reports a change iff writing would change some file; it writes iff it reports a change and is asked to
      write and not only to check; and a run that does not write leaves every file as it was. Whether it throws,
      and whether it reports a change, does not depend on what it may write. */
  lemma ReportIsHonest(h: Host, o: Options, d: Disk, child: Child)
    requires Sound(h)
    ensures var run, full := RunOf(h, o, d, child), RunOf(h, Writing(o), d, child);
            && (run.Synced? <==> full.Synced?) && (run.Threw? ==> run == full)
            && (run.Synced? ==>
                  && (run.report.changed <==> full.disk != d) && full.report.changed == run.report.changed
                  && (run.report.wrote <==> run.report.changed && o.write && !o.checkOnly)
                  && run.disk == (if run.report.wrote then full.disk else d)
                  && run.report.fallbackCount == full.report.fallbackCount)
  {
    WritingAsksTheSame(h, o, d, child);
    if Asking(h, o, d, child).0.Done? {
      AssembleReports(h, o, d, Asking(h, o, d, child).0.values);
    }
  }

  lemma AssembleReports(h: Host, o: Options, d: Disk, values: map<string, string>)
    requires Sound(h)
    ensures var run, full := Assemble(h, o, d, values), Assemble(h, Writing(o), d, values);
            && (run.Synced? <==> full.Synced?) && (run.Threw? ==> run == full)
            && (run.Synced? ==>
                  && (run.report.changed <==> full.disk != d) && full.report.changed == run.report.changed
                  && (run.report.wrote <==> run.report.changed && o.write && !o.checkOnly)
                  && run.disk == (if run.report.wrote then full.disk else d)
                  && run.report.fallbackCount == full.report.fallbackCount)
  {
    var src, x := Flatten(d.source), InputsOf(h, o.allow, d);
    var final, fallback := FinalFlat(h, x, values, src), FallbackKeys(h, x, values, src);
    var m := MemoryAfter(h, x, o.now, src, values);
    AssembledOf(h, o, d, values, src, final, fallback, m);
    AssembledOf(h, Writing(o), d, values, src, final, fallback, m);
    var meta := NextMeta(h, o, d, fallback, |src|);
    assert NextMeta(h, Writing(o), d, fallback, |src|) == meta;
    SettleReports(o, d, Rebuild(final), meta, NextGlossary(h, d), Lines(m, h.sorted(m.Keys)));
    SettleReports(Writing(o), d, Rebuild(final), meta, NextGlossary(h, d), Lines(m, h.sorted(m.Keys)));
  }
}
