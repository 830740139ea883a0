/** Later `syncLocale` runs under another configuration: a provider arrives, or the cache namespace changes. */
module LocaleLaterRun {
  import opened OrderedMaps
  import opened LocaleTree
  import opened LocaleRebuild
  import opened LocaleMemory
  import opened LocaleSync
  import opened LocaleRun
  import opened LocaleFill
  import opened LocaleDisk
  import opened LocaleIdempotence
  import opened LocaleSecondRun

  /** A later run on the same locale reads the same files, whatever its provider. */
  lemma SameReading(h: Host, g: Host, allow: bool, d: Disk)
    requires SameSite(h, g)
    ensures InputsOf(g, allow, d) == InputsOf(h, allow, d)
  {
  }

  /** What any later run reads after a writing run. */
  lemma LaterReads(h: Host, o: Options, d: Disk, child: Child, g: Host, allow: bool)
    requires Sound(h) && SameSite(h, g) && CleanKeys(Flatten(d.source))
    requires o.write && !o.checkOnly && RunOf(h, o, d, child).Synced?
    ensures Asking(h, o, d, child).0.Done?
    ensures Completed(h, InputsOf(h, o.allow, d), Flatten(d.source), Asking(h, o, d, child).0.values)
    ensures Reads(h, InputsOf(h, o.allow, d), o.now, Flatten(d.source), Asking(h, o, d, child).0.values,
                  InputsOf(g, allow, RunOf(h, o, d, child).disk))
    ensures RunOf(h, o, d, child).disk.source == d.source
  {
    WritingRun(h, o, d, child);
    ReadBack(h, o, d, Asking(h, o, d, child).0.values, allow, RunOf(h, o, d, child).disk);
    SameReading(h, g, allow, RunOf(h, o, d, child).disk);
  }

  /** All source keys have a text in the locale file a writing run left. */
  lemma AllExist(h: Host, x: Inputs, now: string, src: Flat, values: map<string, string>, y: Inputs, i: nat)
    requires Distinct(src) && i < |src| && Reads(h, x, now, src, values, y)
    ensures src[i].key in y.existing && y.existing[src[i].key] == FinalText(h, x, values, src[i])
  {
    FinalDistinct(h, x, values, src);
  }

  // ---------- a provider arrives ----------

  lemma PendingAfter(h: Host, x: Inputs, now: string, src: Flat, values: map<string, string>, g: Host, y: Inputs,
                     i: nat)
    requires Distinct(src) && i < |src| && Reads(h, x, now, src, values, y)
    ensures TierOf(g, y, src[i]).Pending? <==>
            y.allow && src[i].key in y.previous && g.hashText(src[i].value) !in y.byText
  {
    AllExist(h, x, now, src, values, y, i);
  }

  /** After any writing run, the keys pending for a later run under any provider are exactly the fallback keys
      without a text-hash hit, and none when it has no provider. */
  lemma PendingLater(h: Host, o: Options, d: Disk, child: Child, g: Host, allow: bool, i: nat)
    requires Sound(h) && SameSite(h, g) && CleanKeys(Flatten(d.source))
    requires o.write && !o.checkOnly && RunOf(h, o, d, child).Synced? && i < |Flatten(d.source)|
    ensures var p, x := Flatten(d.source)[i], InputsOf(h, o.allow, d);
            var y := InputsOf(g, allow, RunOf(h, o, d, child).disk);
            && (TierOf(g, y, p).Pending? <==> allow && p.key in y.previous && h.hashText(p.value) !in y.byText)
            && (!o.allow ==> y.byText.Keys == x.byText.Keys)
            && (o.allow ==> y.previous == {})
  {
    var src, x, values := Flatten(d.source), InputsOf(h, o.allow, d), Asking(h, o, d, child).0.values;
    LaterReads(h, o, d, child, g, allow);
    FlattenDistinct(d.source);
    PendingAfter(h, x, o.now, src, values, g, InputsOf(g, allow, RunOf(h, o, d, child).disk), i);
    if o.allow {
      ProviderLeavesNoFallback(h, x, src, values);
    }
  }

  /** The text of a source key in a locale's file. */
  ghost function TextIn(d: Disk, key: string): (r: seq<string>)
    ensures |r| <= 1
  {
    var texts := View(Flatten(Value(d.locale, [])));
    if key in texts then [texts[key]] else []
  }

  /** A key that was no fallback is served with the text it has, unless another namespace's entry intervenes. */
  lemma KeptLater(h: Host, x: Inputs, now: string, src: Flat, values: map<string, string>, g: Host, y: Inputs, i: nat,
                  values': map<string, string>)
    requires Sound(h) && Distinct(src) && i < |src| && Completed(h, x, src, values) && Reads(h, x, now, src, values, y)
    requires src[i].key !in y.previous && (g == h || KeyOf(g, src[i]) !in y.memory)
    ensures FinalText(g, y, values', src[i]) == FinalText(h, x, values, src[i])
  {
    AllExist(h, x, now, src, values, y, i);
    MemoryAt(h, x, now, src, values, i);
  }

  lemma TextWritten(h: Host, o: Options, d: Disk, child: Child, i: nat)
    requires Sound(h) && CleanKeys(Flatten(d.source)) && i < |Flatten(d.source)|
    requires o.write && !o.checkOnly && RunOf(h, o, d, child).Synced?
    ensures Asking(h, o, d, child).0.Done?
    ensures TextIn(RunOf(h, o, d, child).disk, Flatten(d.source)[i].key) ==
            [FinalText(h, InputsOf(h, o.allow, d), Asking(h, o, d, child).0.values, Flatten(d.source)[i])]
  {
    LaterReads(h, o, d, child, h, false);
    FlattenDistinct(d.source);
    AllExist(h, InputsOf(h, o.allow, d), o.now, Flatten(d.source), Asking(h, o, d, child).0.values,
             InputsOf(h, false, RunOf(h, o, d, child).disk), i);
  }

  /** A fallback key is refreshed: with the text of its hash, or with its translation. */
  lemma RefreshedText(g: Host, y: Inputs, src: Flat, values: map<string, string>, i: nat)
    requires y.allow && i < |src| && src[i].key in y.previous && Completed(g, y, src, values)
    ensures var t := g.hashText(src[i].value);
            if t in y.byText then FinalText(g, y, values, src[i]) == y.byText[t].translated
            else src[i].key in values && FinalText(g, y, values, src[i]) == values[src[i].key]
  {
    if TierOf(g, y, src[i]).Pending? {
      PendingHas(g, y, src, i);
      assert ItemOf(g, src[i]).key in values;
    }
  }

  /** A run with a provider leaves no fallback key; a key that was one gets the text of its hash or its
      translation. */
  lemma FallbackRefreshed(g: Host, o: Options, d: Disk, child: Child, i: nat)
    requires Sound(g) && CleanKeys(Flatten(d.source)) && i < |Flatten(d.source)|
    requires o.allow && o.write && !o.checkOnly && RunOf(g, o, d, child).Synced?
    ensures var p, y, run := Flatten(d.source)[i], InputsOf(g, true, d), RunOf(g, o, d, child);
            var t := g.hashText(p.value);
            && Asking(g, o, d, child).0.Done?
            && (p.key in y.previous && t in y.byText ==> TextIn(run.disk, p.key) == [y.byText[t].translated])
            && (p.key in y.previous && t !in y.byText ==>
                  && p.key in Asking(g, o, d, child).0.values
                  && TextIn(run.disk, p.key) == [Asking(g, o, d, child).0.values[p.key]])
  {
    TextWritten(g, o, d, child, i);
    WritingRun(g, o, d, child);
    if Flatten(d.source)[i].key in InputsOf(g, true, d).previous {
      RefreshedText(g, InputsOf(g, true, d), Flatten(d.source), Asking(g, o, d, child).0.values, i);
    }
  }

  /** A later run keeps the text of every key that was no fallback, unless an entry of another namespace
      intervenes. */
  lemma OthersKept(h: Host, o: Options, d: Disk, child: Child, g: Host, later: Options, child': Child, i: nat)
    requires Sound(h) && Sound(g) && SameSite(h, g) && CleanKeys(Flatten(d.source)) && i < |Flatten(d.source)|
    requires o.write && !o.checkOnly && RunOf(h, o, d, child).Synced?
    requires later.write && !later.checkOnly && RunOf(g, later, RunOf(h, o, d, child).disk, child').Synced?
    requires var p, y := Flatten(d.source)[i], InputsOf(g, later.allow, RunOf(h, o, d, child).disk);
             p.key !in y.previous && (g == h || KeyOf(g, p) !in y.memory)
    ensures var first := RunOf(h, o, d, child);
            TextIn(RunOf(g, later, first.disk, child').disk, Flatten(d.source)[i].key) ==
            TextIn(first.disk, Flatten(d.source)[i].key)
  {
    var src, d1 := Flatten(d.source), RunOf(h, o, d, child).disk;
    LaterReads(h, o, d, child, g, later.allow);
    FlattenDistinct(d.source);
    TextWritten(h, o, d, child, i);
    TextWritten(g, later, d1, child', i);
    KeptLater(h, InputsOf(h, o.allow, d), o.now, src, Asking(h, o, d, child).0.values, g,
              InputsOf(g, later.allow, d1), i, Asking(g, later, d1, child').0.values);
  }

  /** A provider arrives after a run without one: its run translates exactly the fallback keys without a
      text-hash hit, leaves no fallback key, keeps the text of every other key, and the run after it is clean. */
  lemma ProviderArrives(h: Host, o: Options, d: Disk, child: Child, later: Options, child': Child,
                        third: Options, child'': Child, i: nat)
    requires Sound(h) && CleanKeys(Flatten(d.source)) && i < |Flatten(d.source)|
    requires !o.allow && o.write && !o.checkOnly && RunOf(h, o, d, child).Synced?
    requires later.allow && later.write && !later.checkOnly
    requires RunOf(h, later, RunOf(h, o, d, child).disk, child').Synced?
    ensures var p, first := Flatten(d.source)[i], RunOf(h, o, d, child);
            var second, translated := RunOf(h, later, first.disk, child'), Asking(h, later, first.disk, child').0;
            var fallback, hit := PreviousKeys(first.disk.meta), h.hashText(p.value) in InputsOf(h, false, d).byText;
            && translated.Done? && (p.key in translated.values <==> p.key in fallback && !hit)
            && (p.key in translated.values ==> TextIn(second.disk, p.key) == [translated.values[p.key]])
            && (p.key in fallback && hit ==>
                  && h.hashText(p.value) in InputsOf(h, true, first.disk).byText
                  && TextIn(second.disk, p.key) ==
                     [InputsOf(h, true, first.disk).byText[h.hashText(p.value)].translated])
            && (p.key !in fallback ==> TextIn(second.disk, p.key) == TextIn(first.disk, p.key))
            && second.report.fallbackCount == 0
            && RunOf(h, third, second.disk, child'') == Synced(second.disk, Report(false, false, 0))
  {
    var d1 := RunOf(h, o, d, child).disk;
    LaterReads(h, o, d, child, h, true);
    FallbackRefreshed(h, later, d1, child', i);
    TranslatedArePending(h, later, d1, child', i);
    PendingLater(h, o, d, child, h, true, i);
    NoFallbackLeft(h, later, d1, child');
    if Flatten(d.source)[i].key !in PreviousKeys(d1.meta) {
      OthersKept(h, o, d, child, h, later, child', i);
    }
    SecondRunIsClean(h, later, d1, child', third, child'');
  }

  lemma TranslatedArePending(h: Host, o: Options, d: Disk, child: Child, i: nat)
    requires Sound(h) && o.allow && i < |Flatten(d.source)| && Asking(h, o, d, child).0.Done?
    ensures var src, x := Flatten(d.source), InputsOf(h, true, d);
            src[i].key in Asking(h, o, d, child).0.values <==> TierOf(h, x, src[i]).Pending?
  {
    var src, x := Flatten(d.source), InputsOf(h, true, d);
    AskingCompletes(h, o, d, child);
    FlattenDistinct(d.source);
    if TierOf(h, x, src[i]).Pending? {
      PendingHas(h, x, src, i);
      assert ItemOf(h, src[i]).key in Asking(h, o, d, child).0.values;
    } else {
      NotPending(h, x, src, i);
    }
  }

  lemma NoFallbackLeft(h: Host, o: Options, d: Disk, child: Child)
    requires Sound(h) && o.allow && o.write && !o.checkOnly && RunOf(h, o, d, child).Synced?
    ensures var run := RunOf(h, o, d, child); run.report.fallbackCount == 0 && PreviousKeys(run.disk.meta) == {}
  {
    WritingRun(h, o, d, child);
    var x, values := InputsOf(h, true, d), Asking(h, o, d, child).0.values;
    ProviderLeavesNoFallback(h, x, Flatten(d.source), values);
    KeysReadBack(h, o, d, {}, |Flatten(d.source)|);
    var keys := NextMeta(h, o, d, {}, |Flatten(d.source)|).fallbackKeys;
    assert Enumerates(h.sorted({}), {});
    if keys != [] {
      SomethingEnumerated(keys, {});
    }
  }

  // ---------- another cache namespace ----------

  /** Nothing in the files makes a run without a provider decide differently: the entries under its cache keys
      agree with the locale file, and no fallback key outside them has a text-hash hit. */
  ghost predicate Undisturbed(g: Host, y: Inputs, src: Flat) {
    forall i :: 0 <= i < |src| ==>
      && src[i].key in y.existing
      && (KeyOf(g, src[i]) in y.memory ==> y.memory[KeyOf(g, src[i])].translated == y.existing[src[i].key])
      && (src[i].key in y.previous && KeyOf(g, src[i]) !in y.memory ==> g.hashText(src[i].value) !in y.byText)
  }

  lemma UndisturbedTier(g: Host, y: Inputs, src: Flat, i: nat)
    requires !y.allow && Undisturbed(g, y, src) && i < |src|
    ensures TierOf(g, y, src[i]).Cached? || TierOf(g, y, src[i]).Existing?
    ensures FinalText(g, y, map[], src[i]) == y.existing[src[i].key]
    ensures IsFallback(g, y, map[], src[i]) <==> src[i].key in y.previous
  {
  }

  lemma UndisturbedKey(h: Host, x: Inputs, now: string, src: Flat, values: map<string, string>, g: Host, y: Inputs,
                       i: nat)
    requires Distinct(src) && Reads(h, x, now, src, values, y) && !y.allow && Undisturbed(g, y, src) && i < |src|
    ensures FinalText(g, y, map[], src[i]) == FinalText(h, x, values, src[i])
    ensures IsFallback(g, y, map[], src[i]) <==> IsFallback(h, x, values, src[i])
  {
    UndisturbedTier(g, y, src, i);
    AllExist(h, x, now, src, values, y, i);
    FallbackMember(h, x, values, src, i);
  }

  lemma UndisturbedSame(h: Host, x: Inputs, now: string, src: Flat, values: map<string, string>, g: Host, y: Inputs)
    requires Distinct(src) && Reads(h, x, now, src, values, y) && !y.allow && Undisturbed(g, y, src)
    ensures FinalFlat(g, y, map[], src) == FinalFlat(h, x, values, src)
    ensures FallbackKeys(g, y, map[], src) == FallbackKeys(h, x, values, src)
  {
    forall i | 0 <= i < |src|
      ensures FinalText(g, y, map[], src[i]) == FinalText(h, x, values, src[i])
      ensures IsFallback(g, y, map[], src[i]) <==> IsFallback(h, x, values, src[i])
    {
      UndisturbedKey(h, x, now, src, values, g, y, i);
    }
  }

  lemma UndisturbedMemory(g: Host, y: Inputs, src: Flat, now: string)
    requires !y.allow && Undisturbed(g, y, src)
    ensures MemoryAfter(g, y, now, src, map[]) == y.memory
  {
    forall i | 0 <= i < |src| ensures TierOf(g, y, src[i]).Cached? || TierOf(g, y, src[i]).Existing? {
      UndisturbedTier(g, y, src, i);
    }
    NothingAdded(g, y, src, now);
  }

  /** A run that reports no change has found the very files it wanted. */
  lemma UnchangedMeans(g: Host, o: Options, d: Disk, values: map<string, string>)
    requires Sound(g) && Assemble(g, o, d, values).Synced? && !Assemble(g, o, d, values).report.changed
    ensures var src, y := Flatten(d.source), InputsOf(g, o.allow, d);
            && d.locale == Present(Rebuild(FinalFlat(g, y, values, src)), true)
            && d.meta == Present(NextMeta(g, o, d, FallbackKeys(g, y, values, src), |src|), true)
  {
  }

  lemma NotDisturbedAt(g: Host, y: Inputs, src: Flat, i: nat)
    requires !y.allow && Distinct(src) && i < |src|
    requires y.existing == View(FinalFlat(g, y, map[], src)) && y.previous == FallbackKeys(g, y, map[], src)
    ensures src[i].key in y.existing
    ensures KeyOf(g, src[i]) in y.memory ==> y.memory[KeyOf(g, src[i])].translated == y.existing[src[i].key]
    ensures src[i].key in y.previous && KeyOf(g, src[i]) !in y.memory ==> g.hashText(src[i].value) !in y.byText
  {
    FinalDistinct(g, y, map[], src);
    FallbackMember(g, y, map[], src, i);
  }

  /** If a run without a provider reports no change, nothing disturbs it. */
  lemma UnchangedIsUndisturbed(g: Host, o: Options, d: Disk)
    requires Sound(g) && CleanKeys(Flatten(d.source)) && !o.allow
    requires Assemble(g, o, d, map[]).Synced? && !Assemble(g, o, d, map[]).report.changed
    ensures Undisturbed(g, InputsOf(g, false, d), Flatten(d.source))
  {
    var src, y := Flatten(d.source), InputsOf(g, false, d);
    FlattenDistinct(d.source);
    UnchangedMeans(g, o, d, map[]);
    TextsReadBack(g, y, map[], src);
    KeysReadBack(g, o, d, FallbackKeys(g, y, map[], src), |src|);
    forall i | 0 <= i < |src|
      ensures src[i].key in y.existing
      ensures KeyOf(g, src[i]) in y.memory ==> y.memory[KeyOf(g, src[i])].translated == y.existing[src[i].key]
      ensures src[i].key in y.previous && KeyOf(g, src[i]) !in y.memory ==> g.hashText(src[i].value) !in y.byText
    {
      NotDisturbedAt(g, y, src, i);
    }
  }

  /** After a writing run, a run without a provider, perhaps under another cache namespace, reports no change iff
      nothing disturbs it; then it changes no file and keeps the fallback count. */
  lemma LaterRunIsClean(h: Host, o: Options, d: Disk, child: Child, g: Host, later: Options, child': Child)
    requires Sound(h) && Sound(g) && SameSite(h, g) && CleanKeys(Flatten(d.source))
    requires o.write && !o.checkOnly && RunOf(h, o, d, child).Synced? && !later.allow
    ensures var first := RunOf(h, o, d, child);
            var second := RunOf(g, later, first.disk, child');
            var clean := Undisturbed(g, InputsOf(g, false, first.disk), Flatten(d.source));
            && (second.Synced? && !second.report.changed <==> clean)
            && (clean ==> second == Synced(first.disk, Report(false, false, first.report.fallbackCount)))
  {
    var src, x, d' := Flatten(d.source), InputsOf(h, o.allow, d), RunOf(h, o, d, child).disk;
    var y, values := InputsOf(g, false, d'), Asking(h, o, d, child).0.values;
    WritingRun(h, o, d, child);
    LaterReads(h, o, d, child, g, false);
    FlattenDistinct(d.source);
    if Undisturbed(g, y, src) {
      UndisturbedSame(h, x, o.now, src, values, g, y);
      UndisturbedMemory(g, y, src, later.now);
      NothingToDo(h, o, d, values, d', g, later);
    }
    var second := RunOf(g, later, d', child');
    if second.Synced? && !second.report.changed {
      UnchangedIsUndisturbed(g, later, d');
    }
  }

  /** A cache namespace without entries disturbs nothing after a run with a provider: every key is served from
      the locale file. */
  lemma FreshNamespaceIsClean(h: Host, o: Options, d: Disk, child: Child, g: Host, later: Options, child': Child)
    requires Sound(h) && Sound(g) && SameSite(h, g) && CleanKeys(Flatten(d.source))
    requires o.write && !o.checkOnly && o.allow && RunOf(h, o, d, child).Synced? && !later.allow
    requires var y := InputsOf(g, false, RunOf(h, o, d, child).disk);
             forall p :: p in Flatten(d.source) ==> KeyOf(g, p) !in y.memory
    ensures var first := RunOf(h, o, d, child);
            && RunOf(g, later, first.disk, child') == Synced(first.disk, Report(false, false, 0))
            && forall p :: p in Flatten(d.source) ==>
                 TierOf(g, InputsOf(g, false, first.disk), p).Existing?
  {
    var src, d' := Flatten(d.source), RunOf(h, o, d, child).disk;
    var y := InputsOf(g, false, d');
    NoFallbackLeft(h, o, d, child);
    forall i | 0 <= i < |src| ensures src[i].key in y.existing && TierOf(g, y, src[i]).Existing? {
      assert src[i] in src;
      FreshKey(h, o, d, child, g, i);
    }
    FreshIsUndisturbed(g, y, src);
    LaterRunIsClean(h, o, d, child, g, later, child');
  }

  lemma FreshIsUndisturbed(g: Host, y: Inputs, src: Flat)
    requires y.previous == {}
    requires forall i :: 0 <= i < |src| ==> src[i].key in y.existing && TierOf(g, y, src[i]).Existing?
    ensures Undisturbed(g, y, src)
  {
  }

  lemma FreshKey(h: Host, o: Options, d: Disk, child: Child, g: Host, i: nat)
    requires Sound(h) && SameSite(h, g) && CleanKeys(Flatten(d.source)) && i < |Flatten(d.source)|
    requires o.write && !o.checkOnly && o.allow && RunOf(h, o, d, child).Synced?
    requires KeyOf(g, Flatten(d.source)[i]) !in InputsOf(g, false, RunOf(h, o, d, child).disk).memory
    ensures var p, y := Flatten(d.source)[i], InputsOf(g, false, RunOf(h, o, d, child).disk);
            p.key in y.existing && TierOf(g, y, p).Existing?
  {
    var src, x, y := Flatten(d.source), InputsOf(h, o.allow, d), InputsOf(g, false, RunOf(h, o, d, child).disk);
    LaterReads(h, o, d, child, g, false);
    FlattenDistinct(d.source);
    PendingLater(h, o, d, child, g, false, i);
    AllExist(h, x, o.now, src, Asking(h, o, d, child).0.values, y, i);
  }
}
