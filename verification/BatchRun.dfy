/** All batches of a locale in turn: the first one that breaks ends the run. */
module BatchRun {
  import opened Batching
  import opened Translation

  /** The outcome of the batches, with the number of prompts they took. */
  function TranslateAll(timedOut: string -> bool, batches: seq<seq<Item>>, replies: Replies): (Result, nat) {
    if batches == [] then (Done(map[]), 0)
    else
      var (before, start) := TranslateAll(timedOut, batches[..|batches| - 1], replies);
      if before.Broken? then (before, start)
      else
        var (batch, end) := Translate(timedOut, batches[|batches| - 1], replies, start, 0);
        if batch.Broken? then (batch, end) else (Done(before.values + batch.values), end)
  }

  /** Batch `b` is reached, because all earlier ones succeed, and breaks with `message`. */
  predicate Breaks(timedOut: string -> bool, batches: seq<seq<Item>>, replies: Replies, b: nat, message: string) {
    b < |batches|
    && var (before, start) := TranslateAll(timedOut, batches[..b], replies);
       before.Done? && Translate(timedOut, batches[b], replies, start, 0).0 == Broken(message)
  }

  lemma AllSnoc(timedOut: string -> bool, batches: seq<seq<Item>>, replies: Replies, b: nat)
    requires b < |batches| && TranslateAll(timedOut, batches[..b], replies).0.Done?
    ensures var (before, start) := TranslateAll(timedOut, batches[..b], replies);
            var (batch, end) := Translate(timedOut, batches[b], replies, start, 0);
            TranslateAll(timedOut, batches[..b + 1], replies) ==
            if batch.Broken? then (batch, end) else (Done(before.values + batch.values), end)
  {
    assert batches[..b + 1][..b] == batches[..b];
  }

  /** Nothing is asked after a broken batch. */
  lemma {:induction false} BrokenStays(timedOut: string -> bool, batches: seq<seq<Item>>, replies: Replies, k: nat)
    requires k <= |batches| && TranslateAll(timedOut, batches[..k], replies).0.Broken?
    ensures TranslateAll(timedOut, batches, replies) == TranslateAll(timedOut, batches[..k], replies)
    decreases |batches|
  {
    var n := |batches| - 1;
    if k <= n {
      assert batches[..n][..k] == batches[..k];
      BrokenStays(timedOut, batches[..n], replies, k);
    } else {
      assert batches[..k] == batches;
    }
  }

  /** The run breaks iff some batch does, and then with the message of that batch and after its last prompt. */
  lemma {:induction false} BreaksExactly(timedOut: string -> bool, batches: seq<seq<Item>>, replies: Replies,
                                         message: string)
    ensures TranslateAll(timedOut, batches, replies).0 == Broken(message) <==>
            exists b: nat :: Breaks(timedOut, batches, replies, b, message)
    ensures forall b: nat :: Breaks(timedOut, batches, replies, b, message) ==>
              TranslateAll(timedOut, batches, replies) == TranslateAll(timedOut, batches[..b + 1], replies)
  {
    forall b: nat | Breaks(timedOut, batches, replies, b, message)
      ensures TranslateAll(timedOut, batches, replies) == TranslateAll(timedOut, batches[..b + 1], replies)
      ensures TranslateAll(timedOut, batches, replies).0 == Broken(message)
    {
      AllSnoc(timedOut, batches, replies, b);
      BrokenStays(timedOut, batches, replies, b + 1);
    }
    if TranslateAll(timedOut, batches, replies).0 == Broken(message) {
      BreakFound(timedOut, batches, replies, message);
    }
  }

  lemma {:induction false} BreakFound(timedOut: string -> bool, batches: seq<seq<Item>>, replies: Replies,
                                      message: string)
    requires TranslateAll(timedOut, batches, replies).0 == Broken(message)
    ensures exists b: nat :: Breaks(timedOut, batches, replies, b, message)
  {
    var n := |batches| - 1;
    if TranslateAll(timedOut, batches[..n], replies).0.Done? {
      assert Breaks(timedOut, batches, replies, n, message);
    } else {
      BreakFound(timedOut, batches[..n], replies, message);
      var b: nat :| Breaks(timedOut, batches[..n], replies, b, message);
      assert batches[..n][..b] == batches[..b] && batches[..n][b] == batches[b];
      assert Breaks(timedOut, batches, replies, b, message);
    }
  }

  ghost predicate NoneEmpty(batches: seq<seq<Item>>) {
    forall i :: 0 <= i < |batches| ==> batches[i] != []
  }

  lemma NoneEmptyInit(batches: seq<seq<Item>>)
    requires NoneEmpty(batches) && batches != []
    ensures NoneEmpty(batches[..|batches| - 1]) && batches[|batches| - 1] != []
  {
  }

  /** All batches together take at most four prompts per item. */
  lemma {:induction false} AllBounded(timedOut: string -> bool, batches: seq<seq<Item>>, replies: Replies)
    requires NoneEmpty(batches)
    ensures TranslateAll(timedOut, batches, replies).1 <= 4 * |Concat(batches)|
  {
    if batches != [] {
      var n := |batches| - 1;
      NoneEmptyInit(batches);
      AllBounded(timedOut, batches[..n], replies);
      PromptBound(timedOut, batches[n], replies, TranslateAll(timedOut, batches[..n], replies).1, 0);
    }
  }

  lemma CompleteAppend(a: seq<Item>, b: seq<Item>, va: map<string, string>, vb: map<string, string>)
    requires Complete(a, va) && Complete(b, vb)
    ensures Complete(a + b, va + vb)
  {
    ItemKeysSplit(a + b, |a|);
    assert (a + b)[..|a|] == a && (a + b)[|a|..] == b;
  }

  /** If no batch breaks, the values are exactly the items' translations, each of them returned by some prompt. */
  lemma {:induction false} AllComplete(timedOut: string -> bool, batches: seq<seq<Item>>, replies: Replies)
    requires NoneEmpty(batches) && TranslateAll(timedOut, batches, replies).0.Done?
    ensures var (result, end) := TranslateAll(timedOut, batches, replies);
            && Complete(Concat(batches), result.values)
            && forall k :: k in result.values ==> Sourced(replies, 0, end, k, result.values[k])
  {
    if batches == [] {
      assert ItemKeys([]) == {};
    } else {
      var n := |batches| - 1;
      NoneEmptyInit(batches);
      AllComplete(timedOut, batches[..n], replies);
      var (before, start) := TranslateAll(timedOut, batches[..n], replies);
      var (batch, end) := Translate(timedOut, batches[n], replies, start, 0);
      TranslateComplete(timedOut, batches[n], replies, start, 0);
      PromptBound(timedOut, batches[n], replies, start, 0);
      CompleteAppend(Concat(batches[..n]), batches[n], before.values, batch.values);
      JoinSourced(replies, 0, start, end, before.values, batch.values);
    }
  }

  // ---------- why a batch breaks ----------

  /** The reply does not suffice for the part, with an error that is no timeout. */
  ghost predicate PlainError(timedOut: string -> bool, part: seq<Item>, outcome: Outcome) {
    exists message :: Complains(part, outcome, message) && !timedOut(message)
  }

  /** Prompt `last` ended the run: it timed out on a single item of `part`, or it was the second failure of a
      part in a row and no timeout either time. */
  ghost predicate Fatal(timedOut: string -> bool, part: seq<Item>, replies: Replies, last: nat, message: string) {
    && !Suffices(part, replies(last)) && Complains(part, replies(last), message)
    && if timedOut(message) then |part| == 1
       else last > 0 && !Suffices(part, replies(last - 1)) && PlainError(timedOut, part, replies(last - 1))
  }

  ghost predicate FatalPart(timedOut: string -> bool, items: seq<Item>, replies: Replies, last: nat, message: string) {
    exists lo: nat, hi: nat :: lo < hi <= |items| && Fatal(timedOut, items[lo..hi], replies, last, message)
  }

  lemma SliceOfSlice(items: seq<Item>, from: nat, to: nat, lo: nat, hi: nat)
    requires from <= to <= |items| && lo <= hi <= to - from
    ensures items[from..to][lo..hi] == items[from + lo..from + hi]
  {
    assert forall i :: 0 <= i < hi - lo ==> items[from..to][lo..hi][i] == items[from + lo + i];
  }

  lemma FatalWithin(
    timedOut: string -> bool, items: seq<Item>, from: nat, to: nat, replies: Replies, last: nat, message: string)
    requires from <= to <= |items| && FatalPart(timedOut, items[from..to], replies, last, message)
    ensures FatalPart(timedOut, items, replies, last, message)
  {
    var lo: nat, hi: nat :|
      lo < hi <= |items[from..to]| && Fatal(timedOut, items[from..to][lo..hi], replies, last, message);
    SliceOfSlice(items, from, to, lo, hi);
  }

  lemma FatalWhole(timedOut: string -> bool, items: seq<Item>, replies: Replies, last: nat, message: string)
    requires items != [] && Fatal(timedOut, items, replies, last, message)
    ensures FatalPart(timedOut, items, replies, last, message)
  {
    var n := |items|;
    assert items[0..n] == items;
  }

  lemma PlainErrorIs(timedOut: string -> bool, items: seq<Item>, outcome: Outcome)
    requires Attempt(items, outcome).Broken? && !timedOut(Attempt(items, outcome).message)
    ensures !Suffices(items, outcome) && PlainError(timedOut, items, outcome)
  {
    AttemptMeans(items, outcome);
  }

  /** A batch breaks with the error of its last prompt, and only on the timeout of a single item or on two
      failures of the same part in a row. */
  lemma {:induction false} BrokenMeans(
    timedOut: string -> bool, items: seq<Item>, replies: Replies, at: nat, attempt: nat)
    requires items != [] && attempt < MAX_ATTEMPTS && Translate(timedOut, items, replies, at, attempt).0.Broken?
    requires attempt == 1 ==>
             at > 0 && !Suffices(items, replies(at - 1)) && PlainError(timedOut, items, replies(at - 1))
    ensures var (result, end) := Translate(timedOut, items, replies, at, attempt);
            end > 0 && FatalPart(timedOut, items, replies, end - 1, result.message)
    decreases |items|, MAX_ATTEMPTS - attempt
  {
    var result := Attempt(items, replies(at));
    if timedOut(result.message) && |items| > 1 {
      var (left, next) := Translate(timedOut, items[..Midpoint(|items|)], replies, at + 1, 0);
      if left.Broken? {
        assert items[0..Midpoint(|items|)] == items[..Midpoint(|items|)];
        BrokenPart(timedOut, items, 0, Midpoint(|items|), replies, at + 1);
      } else {
        assert items[Midpoint(|items|)..|items|] == items[Midpoint(|items|)..];
        BrokenPart(timedOut, items, Midpoint(|items|), |items|, replies, next);
      }
    } else if timedOut(result.message) || attempt + 1 >= MAX_ATTEMPTS {
      AttemptMeans(items, replies(at));
      FatalWhole(timedOut, items, replies, at, result.message);
    } else {
      PlainErrorIs(timedOut, items, replies(at));
      BrokenMeans(timedOut, items, replies, at + 1, attempt + 1);
    }
  }

  lemma {:induction false} BrokenPart(
    timedOut: string -> bool, items: seq<Item>, from: nat, to: nat, replies: Replies, at: nat)
    requires from < to <= |items| && to - from < |items|
    requires Translate(timedOut, items[from..to], replies, at, 0).0.Broken?
    ensures var (part, end) := Translate(timedOut, items[from..to], replies, at, 0);
            end > 0 && FatalPart(timedOut, items, replies, end - 1, part.message)
    decreases |items|, 0
  {
    var (part, end) := Translate(timedOut, items[from..to], replies, at, 0);
    BrokenMeans(timedOut, items[from..to], replies, at, 0);
    FatalWithin(timedOut, items, from, to, replies, end - 1, part.message);
  }
}
