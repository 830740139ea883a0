/** A second `syncLocale` run on the files of the first has nothing left to do. */
module LocaleIdempotence {
  import opened Texts
  import opened OrderedMaps
  import opened LocaleTree
  import opened LocaleMemory
  import opened LocaleSync
  import opened LocaleRun
  import opened LocaleFill
  import opened LocaleDisk
  import T = Translation

  // ---------- the memory a run leaves behind ----------

  lemma {:induction false} AdoptedAt(h: Host, x: Inputs, src: Flat, i: nat)
    requires Sound(h) && Distinct(src) && i < |src|
    ensures KeyOf(h, src[i]) in Adopted(h, x, src) <==> TierOf(h, x, src[i]).ByText?
    ensures TierOf(h, x, src[i]).ByText? ==>
              Adopted(h, x, src)[KeyOf(h, src[i])] == Adopt(h, src[i], TierOf(h, x, src[i]).entry)
    decreases |src|
  {
    var n := |src| - 1;
    if i < n {
      assert src[..n][i] == src[i];
      AdoptedAt(h, x, src[..n], i);
    } else {
      UntouchedKey(h, x, src, n);
    }
  }

  /** A pending key is learned when it was translated; no other key is. */
  lemma LearnedFor(h: Host, x: Inputs, now: string, src: Flat, values: map<string, string>, i: nat)
    requires Sound(h) && Distinct(src) && i < |src| && Completed(h, x, src, values)
    ensures var learned := Learned(h, now, PendingItems(h, x, src), values);
            && (KeyOf(h, src[i]) in learned <==> TierOf(h, x, src[i]).Pending? && x.allow)
            && (KeyOf(h, src[i]) in learned ==>
                  src[i].key in values && learned[KeyOf(h, src[i])].translated == values[src[i].key])
  {
    var items := PendingItems(h, x, src);
    PendingItemized(h, x, src);
    if TierOf(h, x, src[i]).Pending? && x.allow {
      PendingHas(h, x, src, i);
      var j :| 0 <= j < |items| && items[j] == ItemOf(h, src[i]);
      assert items[j].key in T.ItemKeys(items);
      LearnedAt(h, now, items, values, j);
    } else if KeyOf(h, src[i]) in Learned(h, now, items, values) {
      LearnedKeys(h, now, items, values, KeyOf(h, src[i]));
      var j :| 0 <= j < |items| && items[j].cacheKey == KeyOf(h, src[i]) && items[j].key in values;
      PendingKeys(h, x, src, items[j]);
    }
  }

  /** Which keys the next run finds in the memory, and with which text. */
  lemma MemoryAt(h: Host, x: Inputs, now: string, src: Flat, values: map<string, string>, i: nat)
    requires Sound(h) && Distinct(src) && i < |src| && Completed(h, x, src, values)
    ensures var m, ck, tier := MemoryAfter(h, x, now, src, values), KeyOf(h, src[i]), TierOf(h, x, src[i]);
            && (ck in m <==> ck in x.memory || tier.ByText? || (tier.Pending? && x.allow))
            && (ck in m && !tier.Existing? ==> m[ck].translated == FinalText(h, x, values, src[i]))
            && (tier.Existing? ==> ck !in m)
  {
    AdoptedAt(h, x, src, i);
    LearnedFor(h, x, now, src, values, i);
  }

  lemma MemoryWellKeyed(h: Host, x: Inputs, now: string, src: Flat, values: map<string, string>)
    requires Sound(h) && Distinct(src) && Completed(h, x, src, values) && WellKeyed(x.memory)
    requires forall t :: t in x.byText ==> !IsBlank(x.byText[t].translated)
    ensures WellKeyed(MemoryAfter(h, x, now, src, values))
  {
    var items := PendingItems(h, x, src);
    var m := MemoryAfter(h, x, now, src, values);
    PendingItemized(h, x, src);
    forall ck | ck in m ensures m[ck].cacheKey == ck && Loadable(m[ck]) {
      if ck in Learned(h, now, items, values) {
        LearnedKeys(h, now, items, values, ck);
        LearnedLoadable(h, x, now, src, values, ck);
      } else if ck in Adopted(h, x, src) {
        AdoptedKeys(h, x, src, ck);
      }
    }
  }

  lemma LearnedLoadable(h: Host, x: Inputs, now: string, src: Flat, values: map<string, string>, ck: string)
    requires Sound(h) && Distinct(src) && Completed(h, x, src, values)
    requires ck in Learned(h, now, PendingItems(h, x, src), values)
    ensures var e := Learned(h, now, PendingItems(h, x, src), values)[ck]; e.cacheKey == ck && Loadable(e)
  {
    var items := PendingItems(h, x, src);
    LearnedKeys(h, now, items, values, ck);
    var j :| 0 <= j < |items| && items[j].cacheKey == ck && items[j].key in values && values[items[j].key] != ""
             && Learned(h, now, items, values)[ck] == LearnedEntry(h, now, items[j], values[items[j].key]);
    PendingItemized(h, x, src);
    assert h.cacheKey(items[j].key, items[j].textHash) != "";
  }

  /** Without a provider no text hash becomes known that was not known before. */
  lemma NoNewHashes(h: Host, x: Inputs, now: string, src: Flat, locale: string, e: Entry)
    requires Sound(h) && !x.allow && e in MemoryAfter(h, x, now, src, map[]).Values && Eligible(e, locale)
    requires forall k :: k in x.memory && Eligible(x.memory[k], locale) ==> x.memory[k].textHash in x.byText
    requires forall t :: t in x.byText ==> x.byText[t].textHash == t
    ensures e.textHash in x.byText
  {
    var m := MemoryAfter(h, x, now, src, map[]);
    NothingLearned(h, now, PendingItems(h, x, src));
    var ck :| ck in m && m[ck] == e;
    if ck in Adopted(h, x, src) {
      AdoptedKeys(h, x, src, ck);
    }
  }

  /** Without a provider nothing in the memory is overwritten. */
  lemma MemoryKept(h: Host, x: Inputs, now: string, src: Flat, k: string)
    requires !x.allow && k in x.memory
    ensures k in MemoryAfter(h, x, now, src, map[]) && MemoryAfter(h, x, now, src, map[])[k] == x.memory[k]
  {
    NothingLearned(h, now, PendingItems(h, x, src));
    if k in Adopted(h, x, src) {
      AdoptedKeys(h, x, src, k);
    }
  }

  // ---------- the second run, key by key ----------

  /** What a later run reads after the first run ended with `values`. */
  ghost predicate Reads(h: Host, x: Inputs, now: string, src: Flat, values: map<string, string>, y: Inputs) {
    && y.memory == MemoryAfter(h, x, now, src, values)
    && (!x.allow ==> y.byText.Keys == x.byText.Keys)
    && y.previous == FallbackKeys(h, x, values, src)
    && y.existing == View(FinalFlat(h, x, values, src))
  }

  /** A later run that has no provider unless the first one had. */
  ghost predicate Follows(h: Host, x: Inputs, now: string, src: Flat, values: map<string, string>, y: Inputs) {
    (y.allow ==> x.allow) && Reads(h, x, now, src, values, y)
  }

  lemma FallbackMember(h: Host, x: Inputs, values: map<string, string>, src: Flat, i: nat)
    requires Distinct(src) && i < |src|
    ensures src[i].key in FallbackKeys(h, x, values, src) <==> IsFallback(h, x, values, src[i])
  {
    if src[i].key in FallbackKeys(h, x, values, src) {
      var j :| 0 <= j < |src| && IsFallback(h, x, values, src[j]) && src[j].key == src[i].key;
      assert i == j;
    }
  }

  lemma FinalDistinct(h: Host, x: Inputs, values: map<string, string>, src: Flat)
    requires Distinct(src)
    ensures Distinct(FinalFlat(h, x, values, src))
    ensures forall i :: 0 <= i < |src| ==>
              src[i].key in View(FinalFlat(h, x, values, src))
              && View(FinalFlat(h, x, values, src))[src[i].key] == FinalText(h, x, values, src[i])
  {
    var final := FinalFlat(h, x, values, src);
    forall i, j | 0 <= i < j < |final| ensures final[i].key != final[j].key {
      assert final[i].key == src[i].key && final[j].key == src[j].key;
    }
    ViewIndex(final);
    forall i | 0 <= i < |src|
      ensures src[i].key in View(final) && View(final)[src[i].key] == FinalText(h, x, values, src[i])
    {
      assert final[i] == Pair(src[i].key, FinalText(h, x, values, src[i]));
    }
  }

  /** Each key is served from the cache or from the existing text, with the same text and fallback status. */
  lemma SecondTier(h: Host, x: Inputs, now: string, src: Flat, values: map<string, string>, y: Inputs, i: nat)
    requires Sound(h) && Distinct(src) && i < |src|
    requires Completed(h, x, src, values) && Follows(h, x, now, src, values, y)
    ensures TierOf(h, y, src[i]).Cached? || TierOf(h, y, src[i]).Existing?
    ensures FinalText(h, y, map[], src[i]) == FinalText(h, x, values, src[i])
    ensures IsFallback(h, y, map[], src[i]) <==> IsFallback(h, x, values, src[i])
  {
    MemoryAt(h, x, now, src, values, i);
    FallbackMember(h, x, values, src, i);
    FinalDistinct(h, x, values, src);
    if x.allow {
      ProviderLeavesNoFallback(h, x, src, values);
    }
  }

  lemma {:induction false} NothingPending(h: Host, y: Inputs, src: Flat)
    requires forall i :: 0 <= i < |src| ==> TierOf(h, y, src[i]).Cached? || TierOf(h, y, src[i]).Existing?
    ensures PendingItems(h, y, src) == [] && Adopted(h, y, src) == map[]
  {
    if src != [] {
      var n := |src| - 1;
      assert forall i :: 0 <= i < n ==> src[..n][i] == src[i];
      NothingPending(h, y, src[..n]);
    }
  }

  lemma NothingAdded(h: Host, y: Inputs, src: Flat, now: string)
    requires forall i :: 0 <= i < |src| ==> TierOf(h, y, src[i]).Cached? || TierOf(h, y, src[i]).Existing?
    ensures PendingItems(h, y, src) == [] && MemoryAfter(h, y, now, src, map[]) == y.memory
  {
    NothingPending(h, y, src);
    NothingLearned(h, now, []);
  }

  lemma SecondTexts(h: Host, x: Inputs, now: string, src: Flat, values: map<string, string>, y: Inputs)
    requires Sound(h) && Distinct(src)
    requires Completed(h, x, src, values) && Follows(h, x, now, src, values, y)
    ensures FinalFlat(h, y, map[], src) == FinalFlat(h, x, values, src)
    ensures FallbackKeys(h, y, map[], src) == FallbackKeys(h, x, values, src)
  {
    forall i | 0 <= i < |src|
      ensures FinalText(h, y, map[], src[i]) == FinalText(h, x, values, src[i])
      ensures IsFallback(h, y, map[], src[i]) <==> IsFallback(h, x, values, src[i])
    {
      SecondTier(h, x, now, src, values, y, i);
    }
  }

  lemma SecondTiers(h: Host, x: Inputs, now: string, src: Flat, values: map<string, string>, y: Inputs)
    requires Sound(h) && Distinct(src)
    requires Completed(h, x, src, values) && Follows(h, x, now, src, values, y)
    ensures forall i :: 0 <= i < |src| ==> TierOf(h, y, src[i]).Cached? || TierOf(h, y, src[i]).Existing?
  {
    forall i | 0 <= i < |src| ensures TierOf(h, y, src[i]).Cached? || TierOf(h, y, src[i]).Existing? {
      SecondTier(h, x, now, src, values, y, i);
    }
  }

  /** The second run decides the same texts and fallback keys and leaves the memory as it is. */
  lemma SecondRunSame(h: Host, x: Inputs, now: string, src: Flat, values: map<string, string>, y: Inputs, later: string)
    requires Sound(h) && Distinct(src)
    requires Completed(h, x, src, values) && Follows(h, x, now, src, values, y)
    ensures PendingItems(h, y, src) == []
    ensures FinalFlat(h, y, map[], src) == FinalFlat(h, x, values, src)
    ensures FallbackKeys(h, y, map[], src) == FallbackKeys(h, x, values, src)
    ensures MemoryAfter(h, y, later, src, map[]) == y.memory
    ensures forall i :: 0 <= i < |src| ==> !TierOf(h, y, src[i]).ByText?
  {
    SecondTexts(h, x, now, src, values, y);
    SecondTiers(h, x, now, src, values, y);
    NothingAdded(h, y, src, later);
  }
}
