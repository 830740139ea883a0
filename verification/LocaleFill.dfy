/** The last loops of `syncLocale`: filling what is still missing, and the texts every key ends with. */
module LocaleFill {
  import opened OrderedMaps
  import opened LocaleTree
  import opened Batching
  import opened LocaleSync
  import opened LocaleRun
  import T = Translation

  datatype Filled = Filled(next: map<string, string>, fallback: seq<string>)

  /** One iteration of the filling loop. */
  function FillOne(force: bool, existing: map<string, string>, previous: set<string>, item: Item, f: Filled): Filled {
    if item.key in f.next then f
    else if item.key in existing && !force then
      Filled(f.next[item.key := existing[item.key]],
             if item.key in previous then f.fallback + [item.key] else f.fallback)
    else Filled(f.next[item.key := item.text], f.fallback + [item.key])
  }

  function Fill(force: bool, existing: map<string, string>, previous: set<string>, items: seq<Item>,
                f: Filled): Filled {
    if items == [] then f
    else FillOne(force, existing, previous, items[|items| - 1],
                 Fill(force, existing, previous, items[..|items| - 1], f))
  }

  method FillPending(force: bool, existing: map<string, string>, previous: set<string>, items: seq<Item>,
                     next0: map<string, string>, fallback0: seq<string>)
    returns (next: map<string, string>, fallback: seq<string>)
    ensures Filled(next, fallback) == Fill(force, existing, previous, items, Filled(next0, fallback0))
  {
    next, fallback := next0, fallback0;
    for i := 0 to |items|
      invariant Filled(next, fallback) == Fill(force, existing, previous, items[..i], Filled(next0, fallback0))
    {
      var item := items[i];
      assert items[..i + 1][..i] == items[..i];
      if item.key in next {
        continue;
      }
      if item.key in existing && !force {
        next := next[item.key := existing[item.key]];
        if item.key in previous {
          fallback := fallback + [item.key];
        }
        continue;
      }
      next := next[item.key := item.text];
      fallback := fallback + [item.key];
    }
    assert items[..|items|] == items;
  }

  lemma {:induction false} FillNothing(force: bool, existing: map<string, string>, previous: set<string>,
                                       items: seq<Item>, f: Filled)
    requires forall i :: 0 <= i < |items| ==> items[i].key in f.next
    ensures Fill(force, existing, previous, items, f) == f
  {
    if items != [] {
      var init := items[..|items| - 1];
      assert forall i :: 0 <= i < |init| ==> init[i] == items[i];
      FillNothing(force, existing, previous, init, f);
    }
  }

  function SourceTexts(items: seq<Item>): map<string, string> {
    if items == [] then map[] else SourceTexts(items[..|items| - 1])[items[|items| - 1].key := items[|items| - 1].text]
  }

  function Keys(items: seq<Item>): seq<string> {
    if items == [] then [] else Keys(items[..|items| - 1]) + [items[|items| - 1].key]
  }

  lemma {:induction false} SourceTextsAt(items: seq<Item>, k: string)
    ensures k in SourceTexts(items) ==>
            exists j :: 0 <= j < |items| && items[j].key == k && items[j].text == SourceTexts(items)[k]
    ensures k in Keys(items) <==> k in SourceTexts(items)
    ensures k in SourceTexts(items) <==> k in T.ItemKeys(items)
  {
    if items != [] {
      var n := |items| - 1;
      SourceTextsAt(items[..n], k);
      assert items == items[..n] + [items[n]];
      SnocKeys(items[..n], items[n]);
      if k in SourceTexts(items) && k != items[n].key {
        var j :| 0 <= j < n && items[..n][j].key == k && items[..n][j].text == SourceTexts(items[..n])[k];
        assert items[..n][j] == items[j];
      }
    }
  }

  lemma NotAmong(items: seq<Item>, k: string)
    requires forall i :: 0 <= i < |items| ==> items[i].key != k
    ensures k !in SourceTexts(items)
  {
    SourceTextsAt(items, k);
  }

  lemma FillOneText(force: bool, existing: map<string, string>, previous: set<string>, item: Item,
                    next: map<string, string>, texts: map<string, string>, fallback: seq<string>, keys: seq<string>)
    requires item.key !in next && item.key !in texts && item.key !in existing
    ensures FillOne(force, existing, previous, item, Filled(next + texts, fallback + keys))
         == Filled(next + texts[item.key := item.text], fallback + (keys + [item.key]))
  {
    SumUpdate(next, texts, item.key, item.text);
    assert fallback + keys + [item.key] == fallback + (keys + [item.key]);
  }

  /** Items that are neither set nor existing all fall back to their source text, whatever `force` says. */
  lemma {:induction false} FillTexts(force: bool, existing: map<string, string>, previous: set<string>,
                                     items: seq<Item>, f: Filled)
    requires forall i :: 0 <= i < |items| ==> items[i].key !in f.next && items[i].key !in existing
    requires forall i, j :: 0 <= i < j < |items| ==> items[i].key != items[j].key
    ensures Fill(force, existing, previous, items, f) == Filled(f.next + SourceTexts(items), f.fallback + Keys(items))
  {
    if items != [] {
      var n := |items| - 1;
      var init := items[..n];
      assert forall i :: 0 <= i < n ==> init[i] == items[i];
      NotAmong(init, items[n].key);
      FillTexts(force, existing, previous, init, f);
      FillOneText(force, existing, previous, items[n], f.next, SourceTexts(init), f.fallback, Keys(init));
    }
  }

  // ---------- every key's final text ----------

  lemma {:induction false} ReusedAt(h: Host, x: Inputs, src: Flat, i: nat)
    requires Distinct(src) && i < |src|
    ensures src[i].key in Reused(h, x, src) <==> !TierOf(h, x, src[i]).Pending?
    ensures !TierOf(h, x, src[i]).Pending? ==> Reused(h, x, src)[src[i].key] == FinalText(h, x, map[], src[i])
    decreases |src|
  {
    var n := |src| - 1;
    if i < n {
      assert src[..n][i] == src[i];
      ReusedAt(h, x, src[..n], i);
    } else {
      ReusedKeys(h, x, src[..n], src[n].key);
    }
  }

  lemma {:induction false} ReusedKeys(h: Host, x: Inputs, src: Flat, k: string)
    requires forall i :: 0 <= i < |src| ==> src[i].key != k
    ensures k !in Reused(h, x, src)
  {
    if src != [] {
      ReusedKeys(h, x, src[..|src| - 1], k);
    }
  }

  lemma {:induction false} KeptExact(h: Host, x: Inputs, src: Flat, k: string)
    ensures k in Kept(h, x, src) <==> exists i :: 0 <= i < |src| && src[i].key == k && StaysFallback(h, x, src[i])
  {
    if src != [] {
      var n := |src| - 1;
      KeptExact(h, x, src[..n], k);
      if i :| 0 <= i < |src| && src[i].key == k && StaysFallback(h, x, src[i]) {
        assert i < n ==> src[..n][i] == src[i];
      }
      if i :| 0 <= i < n && src[..n][i].key == k && StaysFallback(h, x, src[..n][i]) {
        assert src[i] == src[..n][i];
      }
    }
  }

  /** The state the filling loop starts from. */
  function BeforeFill(h: Host, x: Inputs, src: Flat, values: map<string, string>): Filled {
    Filled(Reused(h, x, src) + values, Kept(h, x, src))
  }

  /** With a provider the filling loop has nothing to do; without one it uses the source texts.
      Neither depends on `force`. */
  lemma FillResult(h: Host, x: Inputs, src: Flat, values: map<string, string>, force: bool)
    requires Distinct(src) && Completed(h, x, src, values)
    ensures var items := PendingItems(h, x, src);
            Fill(force, x.existing, x.previous, items, BeforeFill(h, x, src, values)) ==
            if x.allow then BeforeFill(h, x, src, values)
            else Filled(Reused(h, x, src) + SourceTexts(items), Kept(h, x, src) + Keys(items))
  {
    var items := PendingItems(h, x, src);
    var f := BeforeFill(h, x, src, values);
    PendingItemized(h, x, src);
    if x.allow {
      forall i | 0 <= i < |items| ensures items[i].key in f.next {
        assert items[i].key in T.ItemKeys(items);
      }
      FillNothing(force, x.existing, x.previous, items, f);
    } else {
      forall i | 0 <= i < |items| ensures items[i].key !in f.next && items[i].key !in x.existing {
        PendingMissing(h, x, src, items[i]);
      }
      assert f.next == Reused(h, x, src);
      FillTexts(force, x.existing, x.previous, items, f);
    }
  }

  lemma PendingMissing(h: Host, x: Inputs, src: Flat, item: Item)
    requires Distinct(src) && !x.allow && item in PendingItems(h, x, src)
    ensures item.key !in Reused(h, x, src) && item.key !in x.existing
  {
    PendingKeys(h, x, src, item);
    var j :| 0 <= j < |src| && item == ItemOf(h, src[j]) && TierOf(h, x, src[j]).Pending?;
    ReusedAt(h, x, src, j);
  }

  /** After the filling loop every source key has its final text. */
  lemma FilledText(h: Host, x: Inputs, src: Flat, values: map<string, string>, force: bool, i: nat)
    requires Distinct(src) && Completed(h, x, src, values) && i < |src|
    ensures var next :=
              Fill(force, x.existing, x.previous, PendingItems(h, x, src), BeforeFill(h, x, src, values)).next;
            src[i].key in next && next[src[i].key] == FinalText(h, x, values, src[i])
  {
    var items := PendingItems(h, x, src);
    FillResult(h, x, src, values, force);
    ReusedAt(h, x, src, i);
    SourceTextsAt(items, src[i].key);
    if TierOf(h, x, src[i]).Pending? {
      PendingHas(h, x, src, i);
      assert ItemOf(h, src[i]).key in T.ItemKeys(items);
      PendingText(h, x, src, i);
    } else {
      NotPending(h, x, src, i);
    }
  }

  lemma PendingText(h: Host, x: Inputs, src: Flat, i: nat)
    requires Distinct(src) && i < |src| && src[i].key in SourceTexts(PendingItems(h, x, src))
    ensures SourceTexts(PendingItems(h, x, src))[src[i].key] == src[i].value
  {
    var items := PendingItems(h, x, src);
    SourceTextsAt(items, src[i].key);
    var j :| 0 <= j < |items| && items[j].key == src[i].key && items[j].text == SourceTexts(items)[src[i].key];
    PendingKeys(h, x, src, items[j]);
    var l :| 0 <= l < |src| && items[j] == ItemOf(h, src[l]);
    assert l == i;
  }

  lemma NotPending(h: Host, x: Inputs, src: Flat, i: nat)
    requires Distinct(src) && i < |src| && !TierOf(h, x, src[i]).Pending?
    ensures src[i].key !in T.ItemKeys(PendingItems(h, x, src))
  {
    var items := PendingItems(h, x, src);
    if src[i].key in T.ItemKeys(items) {
      var j :| 0 <= j < |items| && items[j].key == src[i].key;
      PendingKeys(h, x, src, items[j]);
    }
  }

  /** The recorded fallback keys are exactly the keys in fallback. */
  lemma FilledFallback(h: Host, x: Inputs, src: Flat, values: map<string, string>, force: bool)
    requires Distinct(src) && Completed(h, x, src, values)
    ensures var f := Fill(force, x.existing, x.previous, PendingItems(h, x, src), BeforeFill(h, x, src, values));
            (set k | k in f.fallback) == FallbackKeys(h, x, values, src)
  {
    FillResult(h, x, src, values, force);
    var f := Fill(force, x.existing, x.previous, PendingItems(h, x, src), BeforeFill(h, x, src, values));
    forall k ensures k in f.fallback <==> k in FallbackKeys(h, x, values, src) {
      FallbackAt(h, x, src, values, k);
    }
  }

  lemma FallbackAt(h: Host, x: Inputs, src: Flat, values: map<string, string>, k: string)
    requires Distinct(src) && Completed(h, x, src, values)
    ensures k in FallbackKeys(h, x, values, src) <==>
            k in Kept(h, x, src) || (!x.allow && k in Keys(PendingItems(h, x, src)))
  {
    var items := PendingItems(h, x, src);
    KeptExact(h, x, src, k);
    SourceTextsAt(items, k);
    if i :| 0 <= i < |src| && src[i].key == k && TierOf(h, x, src[i]).Pending? {
      PendingHas(h, x, src, i);
      assert ItemOf(h, src[i]).key in T.ItemKeys(items);
    } else if k in T.ItemKeys(items) {
      var j :| 0 <= j < |items| && items[j].key == k;
      PendingKeys(h, x, src, items[j]);
    }
  }

  // ---------- exact fallback accounting ----------

  /** A completed run with a provider has no fallback keys. */
  lemma ProviderLeavesNoFallback(h: Host, x: Inputs, src: Flat, values: map<string, string>)
    requires x.allow && Completed(h, x, src, values)
    ensures FallbackKeys(h, x, values, src) == {}
  {
    forall i | 0 <= i < |src| ensures !IsFallback(h, x, values, src[i]) {
      if TierOf(h, x, src[i]).Pending? {
        PendingHas(h, x, src, i);
        assert ItemOf(h, src[i]).key in T.ItemKeys(PendingItems(h, x, src));
      }
    }
  }

  /** Without a provider the fallback keys are the previous ones that no text-hash hit rescued, and the
      keys with no cache entry, no text-hash hit and no existing text. */
  lemma FallbackWithoutProvider(h: Host, x: Inputs, src: Flat, p: Pair<string>)
    requires !x.allow && Distinct(src) && p in src
    ensures var cached, hit := KeyOf(h, p) in x.memory, h.hashText(p.value) in x.byText;
            p.key in FallbackKeys(h, x, map[], src) <==>
            (p.key in x.previous && (cached || !hit)) || (!cached && !hit && p.key !in x.existing)
  {
    var i :| 0 <= i < |src| && src[i] == p;
    if p.key in FallbackKeys(h, x, map[], src) {
      var j :| 0 <= j < |src| && IsFallback(h, x, map[], src[j]) && src[j].key == p.key;
      assert i == j;
    }
  }
}
