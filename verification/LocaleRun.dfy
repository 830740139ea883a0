/** The rest of a `syncLocale` run: storing translations, filling gaps, and what is written to disk. */
module LocaleRun {
  import opened OrderedMaps
  import opened LocaleTree
  import opened LocaleMemory
  import opened Batching
  import opened LocaleSync
  import opened BatchRun
  import T = Translation

  // ---------- the run's outcome, key by key ----------

  function FinalText(h: Host, x: Inputs, values: map<string, string>, p: Pair<string>): string {
    match TierOf(h, x, p)
    case Cached(e) => e.translated
    case ByText(e) => e.translated
    case Existing(t) => t
    case Pending => if p.key in values then values[p.key] else p.value
  }

  predicate IsFallback(h: Host, x: Inputs, values: map<string, string>, p: Pair<string>) {
    StaysFallback(h, x, p) || (TierOf(h, x, p).Pending? && p.key !in values)
  }

  function FinalFlat(h: Host, x: Inputs, values: map<string, string>, src: Flat): (r: Flat)
    ensures |r| == |src|
    ensures forall i :: 0 <= i < |src| ==> r[i] == Pair(src[i].key, FinalText(h, x, values, src[i]))
  {
    if src == [] then []
    else [Pair(src[0].key, FinalText(h, x, values, src[0]))] + FinalFlat(h, x, values, src[1..])
  }

  function FallbackKeys(h: Host, x: Inputs, values: map<string, string>, src: Flat): set<string> {
    set i | 0 <= i < |src| && IsFallback(h, x, values, src[i]) :: src[i].key
  }

  /** A provider run that completes has translated every pending item; without a provider nothing is translated. */
  ghost predicate Completed(h: Host, x: Inputs, src: Flat, values: map<string, string>) {
    if x.allow then T.Complete(PendingItems(h, x, src), values) else values == map[]
  }

  function LearnedEntry(h: Host, now: string, item: Item, value: string): Entry {
    Entry(item.cacheKey, h.model, h.provider, item.key, "ui/src/i18n/locales/" + h.fileName, "en",
          item.text, item.textHash, h.locale, value, now)
  }

  /** The entries the translation loop stores for `items`; an item without a text is passed over. */
  function Learned(h: Host, now: string, items: seq<Item>, values: map<string, string>): map<string, Entry> {
    if items == [] then map[]
    else
      var init, item := Learned(h, now, items[..|items| - 1], values), items[|items| - 1];
      if item.key in values && values[item.key] != "" then
        init[item.cacheKey := LearnedEntry(h, now, item, values[item.key])]
      else init
  }

  function MemoryAfter(h: Host, x: Inputs, now: string, src: Flat, values: map<string, string>): map<string, Entry> {
    x.memory + Adopted(h, x, src) + Learned(h, now, PendingItems(h, x, src), values)
  }

  // ---------- pending items ----------

  /** Items for distinct source entries. */
  ghost predicate Itemized(h: Host, items: seq<Item>) {
    && (forall i :: 0 <= i < |items| ==> items[i] == ItemOf(h, Pair(items[i].key, items[i].text)))
    && (forall i, j :: 0 <= i < j < |items| ==> items[i].key != items[j].key)
  }

  lemma {:induction false} PendingKeys(h: Host, x: Inputs, src: Flat, item: Item)
    requires item in PendingItems(h, x, src)
    ensures exists j :: 0 <= j < |src| && item == ItemOf(h, src[j]) && TierOf(h, x, src[j]).Pending?
  {
    var n := |src| - 1;
    if TierOf(h, x, src[n]).Pending? && item == ItemOf(h, src[n]) {
    } else {
      PendingKeys(h, x, src[..n], item);
      var j :| 0 <= j < n && item == ItemOf(h, src[..n][j]) && TierOf(h, x, src[..n][j]).Pending?;
      assert src[j] == src[..n][j];
    }
  }

  lemma {:induction false} PendingHas(h: Host, x: Inputs, src: Flat, j: nat)
    requires j < |src| && TierOf(h, x, src[j]).Pending?
    ensures ItemOf(h, src[j]) in PendingItems(h, x, src)
  {
    var n := |src| - 1;
    if j < n {
      assert src[..n][j] == src[j];
      PendingHas(h, x, src[..n], j);
    }
  }

  lemma {:induction false} PendingItemized(h: Host, x: Inputs, src: Flat)
    requires Distinct(src)
    ensures Itemized(h, PendingItems(h, x, src))
  {
    if src != [] {
      var n := |src| - 1;
      PendingItemized(h, x, src[..n]);
      var items := PendingItems(h, x, src[..n]);
      if TierOf(h, x, src[n]).Pending? {
        forall i | 0 <= i < |items| ensures items[i].key != src[n].key {
          PendingKeys(h, x, src[..n], items[i]);
          var j :| 0 <= j < n && items[i] == ItemOf(h, src[..n][j]);
          assert src[..n][j] == src[j];
        }
      }
    }
  }

  lemma CacheKeysDiffer(h: Host, items: seq<Item>, i: nat, j: nat)
    requires Sound(h) && Itemized(h, items) && i < j < |items|
    ensures items[i].cacheKey != items[j].cacheKey
  {
  }

  /** What is learned sits under the cache keys of the translated items, and nowhere else. */
  lemma {:induction false} LearnedKeys(h: Host, now: string, items: seq<Item>, values: map<string, string>, ck: string)
    requires ck in Learned(h, now, items, values)
    ensures exists j :: 0 <= j < |items| && items[j].cacheKey == ck && items[j].key in values
                        && values[items[j].key] != ""
                        && Learned(h, now, items, values)[ck] == LearnedEntry(h, now, items[j], values[items[j].key])
  {
    var n := |items| - 1;
    if items[n].cacheKey == ck && items[n].key in values && values[items[n].key] != "" {
    } else {
      LearnedKeys(h, now, items[..n], values, ck);
      var j :|
        && 0 <= j < n && items[..n][j].cacheKey == ck && items[..n][j].key in values && values[items[..n][j].key] != ""
        && Learned(h, now, items[..n], values)[ck] == LearnedEntry(h, now, items[..n][j], values[items[..n][j].key]);
      assert items[..n][j] == items[j];
    }
  }

  lemma {:induction false} LearnedAt(h: Host, now: string, items: seq<Item>, values: map<string, string>, j: nat)
    requires Sound(h) && Itemized(h, items) && j < |items| && items[j].key in values && values[items[j].key] != ""
    ensures items[j].cacheKey in Learned(h, now, items, values)
    ensures Learned(h, now, items, values)[items[j].cacheKey] == LearnedEntry(h, now, items[j], values[items[j].key])
    decreases |items|
  {
    var n := |items| - 1;
    if j < n {
      CacheKeysDiffer(h, items, j, n);
      assert items[..n][j] == items[j];
      LearnedAt(h, now, items[..n], values, j);
    }
  }

  lemma {:induction false} LearnedFrame(h: Host, now: string, items: seq<Item>, a: map<string, string>,
                                        b: map<string, string>)
    requires forall i :: 0 <= i < |items| ==>
               (items[i].key in a <==> items[i].key in b) && (items[i].key in a ==> a[items[i].key] == b[items[i].key])
    ensures Learned(h, now, items, a) == Learned(h, now, items, b)
  {
    if items != [] {
      var n := |items| - 1;
      assert forall i :: 0 <= i < n ==> items[..n][i] == items[i];
      LearnedFrame(h, now, items[..n], a, b);
    }
  }

  // ---------- the translation loop ----------

  /** Stores the translations of one batch; an item without a text is passed over. */
  method StoreBatch(h: Host, now: string, batch: seq<Item>, translated: map<string, string>,
                    next0: map<string, string>, tm0: map<string, Entry>)
    returns (next: map<string, string>, tm: map<string, Entry>)
    ensures next == next0 + Among(translated, batch)
    ensures tm == tm0 + Learned(h, now, batch, translated)
  {
    next, tm := next0, tm0;
    for i := 0 to |batch|
      invariant next == next0 + Among(translated, batch[..i])
      invariant tm == tm0 + Learned(h, now, batch[..i], translated)
    {
      var item := batch[i];
      AmongSnoc(translated, batch, i);
      LearnedSnoc(h, now, batch, translated, i);
      if !HasText(translated, item.key) {
        continue;
      }
      var value := translated[item.key];
      SumUpdate(next0, Among(translated, batch[..i]), item.key, value);
      SumUpdate(tm0, Learned(h, now, batch[..i], translated), item.cacheKey, LearnedEntry(h, now, item, value));
      next := next[item.key := value];
      tm := tm[item.cacheKey := LearnedEntry(h, now, item, value)];
    }
    assert batch[..|batch|] == batch;
  }

  predicate HasText(values: map<string, string>, key: string) {
    key in values && values[key] != ""
  }

  /** The nonempty texts for the given items. */
  function Among(values: map<string, string>, items: seq<Item>): map<string, string> {
    map k | k in T.ItemKeys(items) && HasText(values, k) :: values[k]
  }

  lemma AmongSnoc(values: map<string, string>, items: seq<Item>, i: nat)
    requires i < |items|
    ensures Among(values, items[..i + 1]) ==
            if HasText(values, items[i].key) then Among(values, items[..i])[items[i].key := values[items[i].key]]
            else Among(values, items[..i])
  {
    assert items[..i + 1] == items[..i] + [items[i]];
    SnocKeys(items[..i], items[i]);
  }

  lemma LearnedSnoc(h: Host, now: string, items: seq<Item>, values: map<string, string>, i: nat)
    requires i < |items|
    ensures Learned(h, now, items[..i + 1], values) ==
            if HasText(values, items[i].key) then
              Learned(h, now, items[..i], values)
                [items[i].cacheKey := LearnedEntry(h, now, items[i], values[items[i].key])]
            else Learned(h, now, items[..i], values)
  {
    assert items[..i + 1][..i] == items[..i];
  }

  /** A complete batch is stored completely. */
  lemma CompleteIsAmong(items: seq<Item>, values: map<string, string>)
    requires T.Complete(items, values)
    ensures Among(values, items) == values
  {
    assert forall k :: k in values ==> HasText(values, k);
  }

  lemma SnocKeys(items: seq<Item>, item: Item)
    ensures T.ItemKeys(items + [item]) == T.ItemKeys(items) + {item.key}
  {
    assert (items + [item])[..|items|] == items && (items + [item])[|items|..] == [item];
    T.ItemKeysSplit(items + [item], |items|);
    assert [item][0].key in T.ItemKeys([item]);
  }

  lemma {:induction false} LearnedConcat(h: Host, now: string, a: seq<Item>, b: seq<Item>, values: map<string, string>)
    ensures Learned(h, now, a + b, values) == Learned(h, now, a, values) + Learned(h, now, b, values)
    decreases |b|
  {
    if b == [] {
      assert a + b == a;
    } else {
      var n := |b| - 1;
      assert (a + b)[..|a| + n] == a + b[..n];
      LearnedConcat(h, now, a, b[..n], values);
    }
  }

  lemma LearnedAppend(h: Host, now: string, a: seq<Item>, b: seq<Item>, va: map<string, string>,
                      vb: map<string, string>)
    requires Itemized(h, a + b) && T.Complete(a, va) && T.Complete(b, vb)
    ensures Learned(h, now, a + b, va + vb) == Learned(h, now, a, va) + Learned(h, now, b, vb)
  {
    LearnedConcat(h, now, a, b, va + vb);
    forall i | 0 <= i < |a| ensures a[i].key in va && a[i].key !in vb {
      assert a[i].key in T.ItemKeys(a);
      forall j | 0 <= j < |b| ensures b[j].key != a[i].key {
        assert (a + b)[i] == a[i] && (a + b)[|a| + j] == b[j];
      }
    }
    LearnedFrame(h, now, a, va + vb, va);
    forall j | 0 <= j < |b| ensures b[j].key in vb {
      assert b[j].key in T.ItemKeys(b);
    }
    LearnedFrame(h, now, b, va + vb, vb);
  }

  /** The translation loop: batches in turn, each stored when it succeeds; the first broken batch ends the run. */
  method TranslatePending(h: Host, now: string, timedOut: string -> bool, budget: int, replies: T.Replies,
                          pending: seq<Item>, next0: map<string, string>, tm0: map<string, Entry>)
    returns (result: T.Result, next: map<string, string>, tm: map<string, Entry>, prompts: nat)
    requires Itemized(h, pending)
    ensures (result, prompts) == TranslateAll(timedOut, Partition(pending, budget), replies)
    ensures prompts <= 4 * |pending|
    ensures result.Done? ==>
              && T.Complete(pending, result.values)
              && next == next0 + result.values
              && tm == tm0 + Learned(h, now, pending, result.values)
  {
    var batches := BuildBatches(pending, budget);
    AllBounded(timedOut, batches, replies);
    var values: map<string, string> := map[];
    next, tm, prompts := next0, tm0, 0;
    for b := 0 to |batches|
      invariant TranslateAll(timedOut, batches[..b], replies) == (T.Done(values), prompts)
      invariant T.Complete(Concat(batches[..b]), values) && next == next0 + values
      invariant tm == tm0 + Learned(h, now, Concat(batches[..b]), values)
    {
      var (r, end) := T.Translate(timedOut, batches[b], replies, prompts, 0);
      if r.Broken? {
        AllSnoc(timedOut, batches, replies, b);
        BrokenStays(timedOut, batches, replies, b + 1);
        return r, next, tm, end;
      }
      next, tm := StoreBatch(h, now, batches[b], r.values, next, tm);
      BatchDone(h, now, timedOut, replies, pending, batches, b, values, prompts, next0, tm0);
      values, prompts := values + r.values, end;
    }
    assert batches[..|batches|] == batches;
    result := T.Done(values);
  }

  /** What a successful batch adds. */
  lemma BatchDone(h: Host, now: string, timedOut: string -> bool, replies: T.Replies, pending: seq<Item>,
                  batches: seq<seq<Item>>, b: nat, values: map<string, string>, prompts: nat,
                  next0: map<string, string>, tm0: map<string, Entry>)
    requires Itemized(h, pending) && Concat(batches) == pending && b < |batches|
    requires TranslateAll(timedOut, batches[..b], replies) == (T.Done(values), prompts)
    requires T.Complete(Concat(batches[..b]), values)
    requires T.Translate(timedOut, batches[b], replies, prompts, 0).0.Done?
    ensures var (r, end) := T.Translate(timedOut, batches[b], replies, prompts, 0);
            var done := Concat(batches[..b + 1]);
            && TranslateAll(timedOut, batches[..b + 1], replies) == (T.Done(values + r.values), end)
            && T.Complete(done, values + r.values)
            && (next0 + values) + Among(r.values, batches[b]) == next0 + (values + r.values)
            && (tm0 + Learned(h, now, Concat(batches[..b]), values)) + Learned(h, now, batches[b], r.values)
            == tm0 + Learned(h, now, done, values + r.values)
  {
    var r := T.Translate(timedOut, batches[b], replies, prompts, 0).0;
    AllSnoc(timedOut, batches, replies, b);
    T.TranslateKeys(timedOut, batches[b], replies, prompts, 0);
    CompleteIsAmong(batches[b], r.values);
    NextBatch(batches, b);
    ConcatPrefix(batches, b + 1);
    BatchStored(h, now, pending, Concat(batches[..b]), batches[b], values, r.values, next0, tm0);
  }

  lemma BatchStored(h: Host, now: string, pending: seq<Item>, done: seq<Item>, batch: seq<Item>,
                    values: map<string, string>, more: map<string, string>,
                    next0: map<string, string>, tm0: map<string, Entry>)
    requires Itemized(h, pending) && done + batch <= pending
    requires T.Complete(done, values) && T.Complete(batch, more)
    ensures T.Complete(done + batch, values + more)
    ensures next0 + (values + more) == (next0 + values) + more
    ensures tm0 + Learned(h, now, done + batch, values + more)
         == (tm0 + Learned(h, now, done, values)) + Learned(h, now, batch, more)
  {
    PrefixItemized(h, pending, done + batch);
    CompleteAppend(done, batch, values, more);
    SumAssoc(next0, values, more);
    LearnedAppend(h, now, done, batch, values, more);
    SumAssoc(tm0, Learned(h, now, done, values), Learned(h, now, batch, more));
  }

  lemma NextBatch(batches: seq<seq<Item>>, b: nat)
    requires b < |batches|
    ensures Concat(batches[..b + 1]) == Concat(batches[..b]) + batches[b]
  {
    assert batches[..b + 1] == batches[..b] + [batches[b]];
    ConcatSnoc(batches[..b], batches[b]);
  }

  lemma PrefixItemized(h: Host, items: seq<Item>, prefix: seq<Item>)
    requires Itemized(h, items) && prefix <= items
    ensures Itemized(h, prefix)
  {
    assert forall i :: 0 <= i < |prefix| ==> prefix[i] == items[i];
  }
}
