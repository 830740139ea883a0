/** A whole `syncLocale` run between two states of the files of one locale. */
module LocaleDisk {
  import opened OrderedMaps
  import opened LocaleTree
  import opened LocaleMemory
  import opened Batching
  import opened LocaleSync
  import opened LocaleRun
  import opened LocaleFill
  import opened BatchRun
  import T = Translation

  const WORKFLOW := 1

  /** A file by its parsed value; `canonical` says that its text is what rendering that value gives. */
  datatype File<+V> = Absent | Present(value: V, canonical: bool)

  datatype Meta = Meta(
    fallbackKeys: seq<string>, generatedAt: string, locale: string, model: string, provider: string,
    sourceHash: string, totalKeys: nat, translatedKeys: int, workflow: nat)

  datatype Disk = Disk(
    source: Entries, sourceHash: string, locale: File<Entries>, meta: File<Meta>,
    glossary: File<seq<(string, string)>>, memory: File<seq<Entry>>)

  datatype Options = Options(allow: bool, checkOnly: bool, force: bool, write: bool, now: string)

  datatype Report = Report(changed: bool, wrote: bool, fallbackCount: nat)

  datatype Run = Synced(disk: Disk, report: Report) | Threw(message: string)

  function Value<V>(f: File<V>, default: V): V {
    if f.Absent? then default else f.value
  }

  function PreviousKeys(meta: File<Meta>): set<string> {
    if meta.Absent? then {} else set k | k in meta.value.fallbackKeys
  }

  function InputsOf(h: Host, allow: bool, d: Disk): Inputs {
    var memory := Load(Value(d.memory, []));
    Inputs(allow, View(memory), ByTextHash(memory, h.locale), View(Flatten(Value(d.locale, []))), PreviousKeys(d.meta))
  }

  /** The metadata a run wants to see; its timestamp only moves when something else in it does. */
  function NextMeta(h: Host, o: Options, d: Disk, fallback: set<string>, total: nat): Meta {
    var before := d.meta;
    var provider := if o.allow then h.provider else if before.Present? then before.value.provider else "";
    var model := if o.allow then h.model else if before.Present? then before.value.model else "";
    var keys := h.sorted(fallback);
    var wanted := Meta(keys, o.now, h.locale, model, provider, d.sourceHash, total, total - |keys|, WORKFLOW);
    if before.Present? && wanted.(generatedAt := before.value.generatedAt) == before.value then before.value else wanted
  }

  /** The metadata accounts for every key, lists the fallback keys once each, and is dated by the run unless
      nothing in it changed. */
  lemma MetaAccounts(h: Host, o: Options, d: Disk, fallback: set<string>, total: nat)
    requires Sound(h)
    ensures var m := NextMeta(h, o, d, fallback, total);
            && m.totalKeys == total && m.translatedKeys + |m.fallbackKeys| == total
            && Enumerates(m.fallbackKeys, fallback)
            && m.locale == h.locale && m.sourceHash == d.sourceHash && m.workflow == WORKFLOW
            && (o.allow ==> m.provider == h.provider && m.model == h.model)
            && (m.generatedAt == o.now || (d.meta.Present? && d.meta.value == m))
  {
    assert Enumerates(h.sorted(fallback), fallback);
  }

  function NextGlossary(h: Host, d: Disk): seq<(string, string)> {
    if Value(d.glossary, []) == [] then h.defaultGlossary else d.glossary.value
  }

  /** An empty memory has no text, so a missing file already shows it. */
  predicate Shows(f: File<seq<Entry>>, lines: seq<Entry>) {
    f == Present(lines, true) || (f.Absent? && lines == [])
  }

  function Stored(f: File<seq<Entry>>, lines: seq<Entry>): File<seq<Entry>> {
    if lines == [] && f.Absent? then Absent else Present(lines, true)
  }

  /** Compare the expected files with those on disk, and write them when asked to. */
  function Settle(o: Options, d: Disk, tree: Entries, meta: Meta, glossary: seq<(string, string)>,
                  lines: seq<Entry>): Run {
    var changed := !(&& d.locale == Present(tree, true) && d.meta == Present(meta, true)
                     && d.glossary == Present(glossary, true) && Shows(d.memory, lines));
    var wrote := changed && o.write && !o.checkOnly;
    var disk := if wrote then
                  d.(locale := Present(tree, true), meta := Present(meta, true),
                     glossary := Present(glossary, true), memory := Stored(d.memory, lines))
                else d;
    Synced(disk, Report(changed, wrote, |meta.fallbackKeys|))
  }

  predicate ParityHolds(h: Host, src: Flat, final: Flat) {
    |src| == |final| && forall i :: 0 <= i < |src| ==> h.parity(src[i].value, final[i].value)
  }

  /** The run that ends with the translations `values` for its pending keys. */
  ghost function Assemble(h: Host, o: Options, d: Disk, values: map<string, string>): Run
    requires Sound(h)
  {
    var src := Flatten(d.source);
    var x := InputsOf(h, o.allow, d);
    var final := FinalFlat(h, x, values, src);
    var memory := MemoryAfter(h, x, o.now, src, values);
    if !ParityHolds(h, src, final) then Threw("placeholder mismatch")
    else
      Settle(o, d, Rebuild(final), NextMeta(h, o, d, FallbackKeys(h, x, values, src), |src|),
             NextGlossary(h, d), Lines(memory, h.sorted(memory.Keys)))
  }

  /** What the provider's side does in a run: the reply to every prompt, which errors are timeouts, the budget. */
  datatype Child = Child(timedOut: string -> bool, budget: int, replies: T.Replies)

  /** What the provider comes to for the pending keys, and after how many prompts. */
  ghost function AskingFor(h: Host, x: Inputs, src: Flat, child: Child): (T.Result, nat) {
    if x.allow then TranslateAll(child.timedOut, Partition(PendingItems(h, x, src), child.budget), child.replies)
    else (T.Done(map[]), 0)
  }

  ghost function Asking(h: Host, o: Options, d: Disk, child: Child): (T.Result, nat) {
    AskingFor(h, InputsOf(h, o.allow, d), Flatten(d.source), child)
  }

  /** The whole run: a broken batch is thrown, anything else is assembled from the translations. */
  ghost function RunOf(h: Host, o: Options, d: Disk, child: Child): Run
    requires Sound(h)
  {
    match Asking(h, o, d, child).0
    case Broken(message) => Threw(message)
    case Done(values) => Assemble(h, o, d, values)
  }

  /** The placeholders of some source text and its final text differ. */
  ghost predicate ParityFails(h: Host, x: Inputs, values: map<string, string>, src: Flat) {
    exists i :: 0 <= i < |src| && !h.parity(src[i].value, FinalText(h, x, values, src[i]))
  }

  /** Some batch of the pending keys is reached and breaks with this message. */
  ghost predicate BatchBreaks(h: Host, o: Options, d: Disk, child: Child, message: string) {
    var items := PendingItems(h, InputsOf(h, o.allow, d), Flatten(d.source));
    o.allow && exists b: nat :: Breaks(child.timedOut, Partition(items, child.budget), child.replies, b, message)
  }

  lemma BrokenExactly(h: Host, o: Options, d: Disk, child: Child, message: string)
    ensures Asking(h, o, d, child).0 == T.Broken(message) <==> BatchBreaks(h, o, d, child, message)
  {
    if o.allow {
      var items := PendingItems(h, InputsOf(h, o.allow, d), Flatten(d.source));
      BreaksExactly(child.timedOut, Partition(items, child.budget), child.replies, message);
    }
  }

  lemma AssembleThrows(h: Host, o: Options, d: Disk, values: map<string, string>)
    requires Sound(h)
    ensures var x, src := InputsOf(h, o.allow, d), Flatten(d.source);
            Assemble(h, o, d, values) == Threw("placeholder mismatch") <==> ParityFails(h, x, values, src)
    ensures Assemble(h, o, d, values).Threw? ==> Assemble(h, o, d, values).message == "placeholder mismatch"
  {
  }

  /** A run throws iff it has a provider and some batch of the partition breaks, or, with all pending keys
      translated (none without a provider), the placeholders of some text differ. */
  lemma ThrowsExactly(h: Host, o: Options, d: Disk, child: Child, message: string)
    requires Sound(h)
    ensures Asking(h, o, d, child).0.Done? <==> forall m :: !BatchBreaks(h, o, d, child, m)
    ensures RunOf(h, o, d, child) == Threw(message) <==>
            || BatchBreaks(h, o, d, child, message)
            || (&& message == "placeholder mismatch" && Asking(h, o, d, child).0.Done?
                && ParityFails(h, InputsOf(h, o.allow, d), Asking(h, o, d, child).0.values, Flatten(d.source)))
  {
    var result := Asking(h, o, d, child).0;
    BrokenExactly(h, o, d, child, message);
    match result
    case Broken(m) => BrokenExactly(h, o, d, child, m);
    case Done(values) =>
      forall m ensures !BatchBreaks(h, o, d, child, m) {
        BrokenExactly(h, o, d, child, m);
      }
      AssembleThrows(h, o, d, values);
  }

  /** Translations of a run that is not broken cover exactly the pending keys; there are none without a provider. */
  lemma AskingCompletes(h: Host, o: Options, d: Disk, child: Child)
    requires Asking(h, o, d, child).0.Done?
    ensures Completed(h, InputsOf(h, o.allow, d), Flatten(d.source), Asking(h, o, d, child).0.values)
  {
    if o.allow {
      var items := PendingItems(h, InputsOf(h, o.allow, d), Flatten(d.source));
      AllComplete(child.timedOut, Partition(items, child.budget), child.replies);
    }
  }

  /** `force` has no influence on what a run assembles. */
  lemma ForceIsIdle(h: Host, o: Options, d: Disk, values: map<string, string>, force: bool)
    requires Sound(h)
    ensures Assemble(h, o.(force := force), d, values) == Assemble(h, o, d, values)
  {
    var fallback := FallbackKeys(h, InputsOf(h, o.allow, d), values, Flatten(d.source));
    assert NextMeta(h, o.(force := force), d, fallback, |Flatten(d.source)|)
        == NextMeta(h, o, d, fallback, |Flatten(d.source)|);
  }

  // ---------- the run as the script performs it ----------

  lemma {:induction false} RebuildSnoc(es: Entries, flat: Flat, p: Pair<string>)
    ensures RebuildFrom(es, flat + [p]) == SetNested(RebuildFrom(es, flat), p.key, p.value)
    decreases flat
  {
    if flat != [] {
      assert (flat + [p])[1..] == flat[1..] + [p];
      RebuildSnoc(SetNested(es, flat[0].key, flat[0].value), flat[1..], p);
    }
  }

  /** Fills the next locale tree in source order. */
  method BuildTree(src: Flat, next: map<string, string>, ghost final: Flat) returns (tree: Entries)
    requires |final| == |src|
    requires forall i :: 0 <= i < |src| ==>
               final[i] == Pair(src[i].key, if src[i].key in next then next[src[i].key] else src[i].value)
    ensures tree == Rebuild(final)
  {
    tree := [];
    for i := 0 to |src|
      invariant tree == Rebuild(final[..i])
    {
      var text := if src[i].key in next then next[src[i].key] else src[i].value;
      RebuildSnoc([], final[..i], final[i]);
      assert final[..i + 1] == final[..i] + [final[i]];
      tree := SetNested(tree, src[i].key, text);
    }
    assert final[..|final|] == final;
  }

  /** One run of `syncLocale`: it does what `RunOf` says, in all cases, and takes the prompts `Asking` counts. */
  method SyncLocale(h: Host, o: Options, d: Disk, child: Child) returns (run: Run, prompts: nat)
    requires Sound(h)
    ensures run == RunOf(h, o, d, child)
    ensures !o.allow ==> run == Assemble(h, o, d, map[])
    ensures prompts == Asking(h, o, d, child).1
    ensures prompts <= if o.allow then 4 * |PendingItems(h, InputsOf(h, o.allow, d), Flatten(d.source))| else 0
  {
    var src := Flatten(d.source);
    FlattenDistinct(d.source);
    var existing, previous := View(Flatten(Value(d.locale, []))), PreviousKeys(d.meta);
    var loaded := Load(Value(d.memory, []));
    var byText := BuildTranslationMemoryByTextHash(loaded, h.locale);
    ghost var x := InputsOf(h, o.allow, d);
    var s := ResolveKeys(h, o.allow, src, existing, previous, View(loaded), byText);
    var result, next, tm;
    result, next, tm, prompts := Translate(h, o, x, src, child, s);
    if result.Broken? {
      return Threw(result.message), prompts;
    }
    var fallback;
    next, fallback := FillPending(o.force, existing, previous, s.pending, next, s.fallback);
    run := Finish(h, o, d, x, src, result.values, next, fallback, tm);
  }

  /** The provider part of a run: skipped without a provider or without pending keys. */
  method Translate(h: Host, o: Options, ghost x: Inputs, ghost src: Flat, child: Child, s: Progress)
    returns (result: T.Result, next: map<string, string>, tm: map<string, Entry>, prompts: nat)
    requires Distinct(src) && x.allow == o.allow && Resolved(h, x, src, s)
    ensures (result, prompts) == AskingFor(h, x, src, child)
    ensures prompts <= if o.allow then 4 * |PendingItems(h, x, src)| else 0
    ensures result.Done? ==>
              && Completed(h, x, src, result.values)
              && next == BeforeFill(h, x, src, result.values).next
              && tm == MemoryAfter(h, x, o.now, src, result.values)
  {
    PendingItemized(h, x, src);
    if o.allow && s.pending != [] {
      result, next, tm, prompts :=
        TranslatePending(h, o.now, child.timedOut, child.budget, child.replies, s.pending, s.next, s.tm);
    } else {
      NothingLearned(h, o.now, s.pending);
      NothingPendingIsComplete(h, x, src);
      NothingAsked(h, x, src, child);
      result, next, tm, prompts := T.Done(map[]), s.next, s.tm, 0;
    }
  }

  lemma NothingAsked(h: Host, x: Inputs, src: Flat, child: Child)
    requires x.allow ==> PendingItems(h, x, src) == []
    ensures AskingFor(h, x, src, child) == (T.Done(map[]), 0)
  {
    if x.allow {
      NothingToPartition(child.budget);
    }
  }

  lemma NothingToPartition(budget: int)
    ensures Partition([], budget) == []
  {
    assert Greedy([], [], budget);
    GreedyUnique(Partition([], budget), [], [], budget);
  }

  lemma NothingPendingIsComplete(h: Host, x: Inputs, src: Flat)
    requires x.allow ==> PendingItems(h, x, src) == []
    ensures Completed(h, x, src, map[])
  {
    assert T.ItemKeys([]) == {};
  }

  lemma {:induction false} NothingLearned(h: Host, now: string, items: seq<Item>)
    ensures Learned(h, now, items, map[]) == map[]
  {
    if items != [] {
      NothingLearned(h, now, items[..|items| - 1]);
    }
  }

  lemma FilledTexts(h: Host, force: bool, x: Inputs, src: Flat, values: map<string, string>, next: map<string, string>,
                    fallback: seq<string>)
    requires Distinct(src) && Completed(h, x, src, values)
    requires Filled(next, fallback) ==
             Fill(force, x.existing, x.previous, PendingItems(h, x, src), BeforeFill(h, x, src, values))
    ensures forall i :: 0 <= i < |src| ==>
              src[i].key in next && FinalFlat(h, x, values, src)[i] == Pair(src[i].key, next[src[i].key])
  {
    forall i | 0 <= i < |src|
      ensures src[i].key in next && FinalFlat(h, x, values, src)[i] == Pair(src[i].key, next[src[i].key])
    {
      FilledText(h, x, src, values, force, i);
    }
  }

  /** The checks and comparisons at the end of a run. */
  method Finish(h: Host, o: Options, d: Disk, ghost x: Inputs, src: Flat, ghost values: map<string, string>,
                next: map<string, string>, fallback: seq<string>, tm: map<string, Entry>)
    returns (run: Run)
    requires Sound(h) && src == Flatten(d.source) && Distinct(src) && x == InputsOf(h, o.allow, d)
    requires Completed(h, x, src, values) && tm == MemoryAfter(h, x, o.now, src, values)
    requires Filled(next, fallback) ==
             Fill(o.force, x.existing, x.previous, PendingItems(h, x, src), BeforeFill(h, x, src, values))
    ensures run == Assemble(h, o, d, values)
  {
    ghost var final := FinalFlat(h, x, values, src);
    FilledTexts(h, o.force, x, src, values, next, fallback);
    var keys := set k | k in fallback;
    FilledFallback(h, x, src, values, o.force);
    AssembledOf(h, o, d, values, src, final, FallbackKeys(h, x, values, src), tm);
    if exists i :: 0 <= i < |src| && !h.parity(src[i].value, next[src[i].key]) {
      return Threw("placeholder mismatch");
    }
    var tree := BuildTree(src, next, final);
    run := Settle(o, d, tree, NextMeta(h, o, d, keys, |src|), NextGlossary(h, d), Lines(tm, h.sorted(tm.Keys)));
  }

  lemma AssembledOf(h: Host, o: Options, d: Disk, values: map<string, string>, src: Flat, final: Flat,
                    fallback: set<string>, m: map<string, Entry>)
    requires Sound(h) && src == Flatten(d.source)
    requires var x := InputsOf(h, o.allow, d);
             && final == FinalFlat(h, x, values, src) && fallback == FallbackKeys(h, x, values, src)
             && m == MemoryAfter(h, x, o.now, src, values)
    ensures Assemble(h, o, d, values) ==
            if ParityHolds(h, src, final) then
              Settle(o, d, Rebuild(final), NextMeta(h, o, d, fallback, |src|), NextGlossary(h, d),
                     Lines(m, h.sorted(m.Keys)))
            else Threw("placeholder mismatch")
  {
  }
}
