/** Grouping pending translations into prompts under a size budget. */
module Batching {

  const MAX_BATCH_ITEMS := 20

  datatype Item = Item(cacheKey: string, key: string, text: string, textHash: string)

  /** The length JavaScript gives a text: characters beyond the basic plane count twice. */
  function Units(s: string): nat {
    if s == "" then 0 else Units(s[..|s| - 1]) + if s[|s| - 1] as int >= 0x10000 then 2 else 1
  }

  /** The size estimate of a prompt: two framing characters and eight per item. */
  function Estimate(items: seq<Item>): (n: nat)
    ensures n >= 2 + 8 * |items|
  {
    if items == [] then 2
    else Estimate(items[..|items| - 1]) + Units(items[|items| - 1].key) + Units(items[|items| - 1].text) + 8
  }

  function Concat(batches: seq<seq<Item>>): seq<Item> {
    if batches == [] then [] else Concat(batches[..|batches| - 1]) + batches[|batches| - 1]
  }

  /** The loop's running count: it charges two framing characters for every item as well. */
  function Charged(items: seq<Item>): int {
    Estimate(items) + 2 * |items|
  }

  predicate Fits(batch: seq<Item>, budget: int) {
    1 <= |batch| <= MAX_BATCH_ITEMS && (|batch| >= 2 ==> Charged(batch) <= budget)
  }

  /** `batch` could not have taken `item` as well. */
  predicate Full(batch: seq<Item>, item: Item, budget: int) {
    |batch| == MAX_BATCH_ITEMS || Charged(batch + [item]) > budget
  }

  /** A partition into batches that fit, each of them as long as the budget allows. */
  ghost predicate Greedy(batches: seq<seq<Item>>, items: seq<Item>, budget: int) {
    && Concat(batches) == items
    && (forall i :: 0 <= i < |batches| ==> Fits(batches[i], budget))
    && (forall i :: 0 <= i < |batches| - 1 ==> Full(batches[i], batches[i + 1][0], budget))
  }

  lemma EstimateSnoc(items: seq<Item>, item: Item)
    ensures Estimate(items + [item]) == Estimate(items) + Units(item.key) + Units(item.text) + 8
    ensures Charged(items + [item]) == Charged(items) + Estimate([item])
  {
    assert (items + [item])[..|items|] == items;
    assert [item][..0] == [];
  }

  lemma {:induction false} ChargedPrefix(a: seq<Item>, b: seq<Item>)
    requires a <= b
    ensures Charged(a) <= Charged(b)
    decreases |b|
  {
    if |a| < |b| {
      var init := b[..|b| - 1];
      EstimateSnoc(init, b[|b| - 1]);
      assert init + [b[|b| - 1]] == b;
      ChargedPrefix(a, init);
    } else {
      assert a == b;
    }
  }

  lemma ConcatSnoc(batches: seq<seq<Item>>, b: seq<Item>)
    ensures Concat(batches + [b]) == Concat(batches) + b
  {
    assert (batches + [b])[..|batches|] == batches;
  }

  lemma ExtendLast(batches: seq<seq<Item>>, current: seq<Item>, done: seq<Item>, item: Item, budget: int)
    requires Greedy(batches + [current], done, budget)
    requires !Full(current, item, budget)
    ensures Greedy(batches + [current + [item]], done + [item], budget)
  {
    var old', new' := batches + [current], batches + [current + [item]];
    ConcatSnoc(batches, current);
    ConcatSnoc(batches, current + [item]);
    assert old'[|batches|] == current;
    assert forall i :: 0 <= i < |batches| ==> new'[i] == old'[i];
    assert new'[|batches|][0] == current[0];
    forall i | 0 <= i < |new'| - 1 ensures Full(new'[i], new'[i + 1][0], budget) {
      assert Full(old'[i], old'[i + 1][0], budget);
    }
  }

  lemma StartNext(batches: seq<seq<Item>>, done: seq<Item>, item: Item, budget: int)
    requires Greedy(batches, done, budget)
    requires batches != [] ==> Full(batches[|batches| - 1], item, budget)
    ensures Greedy(batches + [[item]], done + [item], budget)
  {
    ConcatSnoc(batches, [item]);
    var new' := batches + [[item]];
    forall i | 0 <= i < |new'| - 1 ensures Full(new'[i], new'[i + 1][0], budget) {
      if i + 1 < |batches| {
        assert Full(batches[i], batches[i + 1][0], budget);
      }
    }
  }

  /** The batches so far with the one being filled. */
  ghost predicate Filling(batches: seq<seq<Item>>, current: seq<Item>, done: seq<Item>, budget: int) {
    if current == [] then batches == [] && done == [] else Greedy(batches + [current], done, budget)
  }

  /** The next item starts a batch when the current one is full, and joins it otherwise. */
  lemma NextItem(batches: seq<seq<Item>>, current: seq<Item>, done: seq<Item>, item: Item, budget: int)
    requires Filling(batches, current, done, budget)
    ensures |current| <= MAX_BATCH_ITEMS
    ensures if current != [] && Full(current, item, budget)
            then Filling(batches + [current], [item], done + [item], budget)
            else Filling(batches, current + [item], done + [item], budget)
  {
    if current == [] {
      StartNext([], [], item, budget);
      assert [] + [item] == [item];
    } else {
      assert (batches + [current])[|batches|] == current;
      if Full(current, item, budget) {
        StartNext(batches + [current], done, item, budget);
      } else {
        ExtendLast(batches, current, done, item, budget);
      }
    }
  }

  lemma {:induction false} FillingExists(items: seq<Item>, budget: int)
    returns (batches: seq<seq<Item>>, current: seq<Item>)
    ensures Filling(batches, current, items, budget)
  {
    if items == [] {
      return [], [];
    }
    var init, item := items[..|items| - 1], items[|items| - 1];
    batches, current := FillingExists(init, budget);
    NextItem(batches, current, init, item, budget);
    assert init + [item] == items;
    if current != [] && Full(current, item, budget) {
      return batches + [current], [item];
    }
    current := current + [item];
  }

  lemma GreedyExists(items: seq<Item>, budget: int)
    ensures exists batches :: Greedy(batches, items, budget)
  {
    var batches, current := FillingExists(items, budget);
    if current == [] {
      assert Greedy([], items, budget);
    }
  }

  /** The one partition the budget and the item limit allow (`GreedyUnique`). */
  ghost function Partition(items: seq<Item>, budget: int): (batches: seq<seq<Item>>)
    ensures Greedy(batches, items, budget)
  {
    GreedyExists(items, budget);
    var batches :| Greedy(batches, items, budget);
    batches
  }

  /** The batches are nonempty, hold at most 20 items, keep to the budget, give the input back in
      order, and are never cut earlier than the limits force. */
  method BuildBatches(items: seq<Item>, budget: int) returns (batches: seq<seq<Item>>)
    ensures Greedy(batches, items, budget) && batches == Partition(items, budget)
  {
    batches := [];
    var current: seq<Item> := [];
    var currentChars := 2;
    for i := 0 to |items|
      invariant currentChars == Charged(current) && Filling(batches, current, items[..i], budget)
    {
      var item := items[i];
      EstimateSnoc(current, item);
      EstimateSnoc([], item);
      NextItem(batches, current, items[..i], item, budget);
      assert items[..i + 1] == items[..i] + [item];
      var itemChars := Estimate([item]);
      var wouldOverflow := |current| > 0 && currentChars + itemChars > budget;
      var reachedMaxItems := |current| >= MAX_BATCH_ITEMS;
      if wouldOverflow || reachedMaxItems {
        batches := batches + [current];
        current := [];
        currentChars := 2;
      }
      assert [] + [item] == [item];
      current := current + [item];
      currentChars := currentChars + itemChars;
    }
    if |current| > 0 {
      batches := batches + [current];
    }
    assert items[..|items|] == items;
    GreedyUnique(batches, Partition(items, budget), items, budget);
  }

  lemma {:induction false} ConcatFirst(batches: seq<seq<Item>>)
    requires batches != []
    ensures Concat(batches) == batches[0] + Concat(batches[1..])
  {
    var n := |batches| - 1;
    if n > 0 {
      ConcatFirst(batches[..n]);
      assert batches[..n][1..] == batches[1..][..n - 1];
    }
  }

  lemma GreedyRest(batches: seq<seq<Item>>, items: seq<Item>, budget: int)
    requires Greedy(batches, items, budget) && batches != []
    ensures batches[0] <= items && Greedy(batches[1..], items[|batches[0]|..], budget)
    ensures |batches| > 1 ==> |batches[0]| < |items| && batches[1][0] == items[|batches[0]|]
    ensures |batches| == 1 ==> batches[0] == items
  {
    ConcatFirst(batches);
    var rest := batches[1..];
    assert forall i :: 0 <= i < |rest| ==> rest[i] == batches[i + 1];
    if rest != [] {
      ConcatFirst(rest);
    }
  }

  /** The first batch of one greedy partition is never shorter than that of another. */
  lemma FirstNotShorter(a: seq<seq<Item>>, b: seq<seq<Item>>, items: seq<Item>, budget: int)
    requires Greedy(a, items, budget) && Greedy(b, items, budget) && a != [] && b != []
    ensures |a[0]| >= |b[0]|
  {
    GreedyRest(a, items, budget);
    GreedyRest(b, items, budget);
    if |a[0]| < |b[0]| {
      TooLong(a[0], b[0], items[|a[0]|], budget);
    }
  }

  /** A full batch cannot be continued by the next item in a batch that fits. */
  lemma TooLong(short: seq<Item>, long: seq<Item>, item: Item, budget: int)
    requires short + [item] <= long && Fits(long, budget) && 1 <= |short|
    ensures !Full(short, item, budget)
  {
    ChargedPrefix(short + [item], long);
  }

  /** The budget and the item limit determine the batches completely. */
  lemma {:induction false} GreedyUnique(a: seq<seq<Item>>, b: seq<seq<Item>>, items: seq<Item>, budget: int)
    requires Greedy(a, items, budget) && Greedy(b, items, budget)
    ensures a == b
    decreases |a|
  {
    if a != [] {
      ConcatFirst(a);
      if b != [] {
        FirstNotShorter(a, b, items, budget);
        FirstNotShorter(b, a, items, budget);
        GreedyRest(a, items, budget);
        GreedyRest(b, items, budget);
        assert a[0] == b[0];
        GreedyUnique(a[1..], b[1..], items[|a[0]|..], budget);
        assert a == [a[0]] + a[1..] && b == [b[0]] + b[1..];
      }
    } else if b != [] {
      ConcatFirst(b);
    }
  }

  lemma {:induction false} ConcatPrefix(batches: seq<seq<Item>>, n: nat)
    requires n <= |batches|
    ensures Concat(batches[..n]) <= Concat(batches)
    decreases |batches|
  {
    if n == |batches| {
      assert batches[..n] == batches;
    } else {
      var m := |batches| - 1;
      ConcatPrefix(batches[..m], n);
      assert batches[..m][..n] == batches[..n];
    }
  }

  // ---------- sizes and limits, spelled out ----------

  /** A text's length is the sum of its characters': two beyond the basic plane, one otherwise. */
  lemma {:induction false} UnitsAppend(a: string, b: string)
    ensures Units(a + b) == Units(a) + Units(b)
    ensures |b| == 1 ==> Units(b) == if b[0] as int <= 0xffff then 1 else 2
    decreases |b|
  {
    if b == "" {
      assert a + b == a;
    } else {
      assert (a + b)[..|a + b| - 1] == a + b[..|b| - 1];
      UnitsAppend(a, b[..|b| - 1]);
    }
  }

  /** The estimate is 2 for the frame, and for every item 8 and the lengths of its key and text. */
  lemma {:induction false} EstimateAppend(a: seq<Item>, b: seq<Item>)
    ensures Estimate([]) == 2 && Estimate(a + b) + 2 == Estimate(a) + Estimate(b)
    ensures |b| == 1 ==> Estimate(b) == 10 + Units(b[0].key) + Units(b[0].text)
    decreases |b|
  {
    if b == [] {
      assert a + b == a;
    } else {
      assert (a + b)[..|a + b| - 1] == a + b[..|b| - 1];
      EstimateAppend(a, b[..|b| - 1]);
    }
  }

  /** Batches hold 1 to 20 items; one with two or more items has an estimate of at most the budget less 2 per item;
      and a batch ends where it has 20 items or the next item would have broken that limit. */
  lemma LimitsSpelledOut(items: seq<Item>, budget: int, i: nat)
    requires i < |Partition(items, budget)|
    ensures var batches := Partition(items, budget);
            && Concat(batches) == items && 1 <= |batches[i]| <= 20
            && (|batches[i]| >= 2 ==> Estimate(batches[i]) <= budget - 2 * |batches[i]|)
            && (i + 1 < |batches| ==>
                  && batches[i + 1] != []
                  && (|batches[i]| == 20 ||
                      Estimate(batches[i] + [batches[i + 1][0]]) > budget - 2 * (|batches[i]| + 1)))
  {
    var batches := Partition(items, budget);
    assert Fits(batches[i], budget);
    if i + 1 < |batches| {
      assert Fits(batches[i + 1], budget) && Full(batches[i], batches[i + 1][0], budget);
    }
  }
}
