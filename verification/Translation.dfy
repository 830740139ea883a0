/** Translating one batch: two attempts, and a split in halves whenever a prompt times out. */
module Translation {
  import opened Texts
  import opened Batching

  const MAX_ATTEMPTS := 2

  /** What one prompt comes to: an error, or the string-valued fields of the parsed reply. */
  datatype Outcome = Failed(message: string) | Parsed(values: map<string, string>)

  datatype Result = Done(values: map<string, string>) | Broken(message: string)

  /** The outcome of every prompt of a run, by its number. */
  type Replies = nat -> Outcome

  function ItemKeys(items: seq<Item>): set<string> {
    set i | 0 <= i < |items| :: items[i].key
  }

  predicate Answers(values: map<string, string>, key: string) {
    key in values && !IsBlank(values[key])
  }

  /** One attempt: every item must have a nonblank translation in the reply. */
  function Attempt(items: seq<Item>, outcome: Outcome): Result {
    match outcome
    case Failed(message) => Broken(message)
    case Parsed(values) =>
      if forall i :: 0 <= i < |items| ==> Answers(values, items[i].key) then
        Done(map k | k in ItemKeys(items) && k in values :: values[k])
      else
        Broken("missing translation for " + FirstMissing(items, values))
  }

  function FirstMissing(items: seq<Item>, values: map<string, string>): string {
    if items == [] then "" else if Answers(values, items[0].key) then FirstMissing(items[1..], values)
    else items[0].key
  }

  /** `Math.ceil(n / 2)` */
  function Midpoint(n: nat): nat {
    (n + 1) / 2
  }

  /** The attempt loop of `translateBatch` from `attempt` on, starting with prompt number `at`;
      also gives the number of the next unused prompt. */
  function Translate(timedOut: string -> bool, items: seq<Item>, replies: Replies, at: nat, attempt: nat)
    : (Result, nat)
    decreases |items|, MAX_ATTEMPTS - attempt
  {
    var result := Attempt(items, replies(at));
    if result.Done? then (result, at + 1)
    else if timedOut(result.message) && |items| > 1 then
      var (left, next) := Translate(timedOut, items[..Midpoint(|items|)], replies, at + 1, 0);
      if left.Broken? then (left, next)
      else
        var (right, end) := Translate(timedOut, items[Midpoint(|items|)..], replies, next, 0);
        if right.Broken? then (right, end) else (Done(left.values + right.values), end)
    else if timedOut(result.message) || attempt + 1 >= MAX_ATTEMPTS then (result, at + 1)
    else Translate(timedOut, items, replies, at + 1, attempt + 1)
  }

  // ---------- what one prompt decides ----------

  /** The reply gives this key a text that is not only whitespace. */
  predicate Gives(values: map<string, string>, key: string) {
    key in values && exists i :: 0 <= i < |values[key]| && !IsSpace(values[key][i])
  }

  /** The reply parses and gives every item a text. */
  predicate Suffices(items: seq<Item>, outcome: Outcome) {
    outcome.Parsed? && forall i :: 0 <= i < |items| ==> Gives(outcome.values, items[i].key)
  }

  /** The error of a prompt that does not suffice: its own, or one that names the first key without a text. */
  ghost predicate Complains(items: seq<Item>, outcome: Outcome, message: string) {
    match outcome
    case Failed(error) => message == error
    case Parsed(values) =>
      exists j :: 0 <= j < |items| && !Gives(values, items[j].key)
                  && message == "missing translation for " + items[j].key
                  && forall i :: 0 <= i < j ==> Gives(values, items[i].key)
  }

  lemma {:induction false} FirstMissingIs(items: seq<Item>, values: map<string, string>) returns (j: nat)
    requires exists i :: 0 <= i < |items| && !Answers(values, items[i].key)
    ensures j < |items| && !Answers(values, items[j].key) && FirstMissing(items, values) == items[j].key
    ensures forall i :: 0 <= i < j ==> Answers(values, items[i].key)
  {
    if Answers(values, items[0].key) {
      var i :| 0 <= i < |items| && !Answers(values, items[i].key);
      assert items[1..][i - 1] == items[i];
      var k := FirstMissingIs(items[1..], values);
      j := k + 1;
    } else {
      j := 0;
    }
  }

  lemma AttemptMeans(items: seq<Item>, outcome: Outcome)
    ensures Attempt(items, outcome).Done? <==> Suffices(items, outcome)
    ensures Attempt(items, outcome).Broken? ==> Complains(items, outcome, Attempt(items, outcome).message)
  {
    if outcome.Parsed? {
      assert forall k :: Gives(outcome.values, k) <==> Answers(outcome.values, k);
      if Attempt(items, outcome).Broken? {
        var j := FirstMissingIs(items, outcome.values);
      }
    }
  }

  /** A reply that gives every item a text ends the batch at once, with exactly those texts. */
  lemma OnePromptSuffices(timedOut: string -> bool, items: seq<Item>, replies: Replies, at: nat, attempt: nat)
    requires Suffices(items, replies(at))
    ensures var (result, end) := Translate(timedOut, items, replies, at, attempt);
            && result.Done? && end == at + 1 && result.values.Keys == (set i | 0 <= i < |items| :: items[i].key)
            && forall i :: 0 <= i < |items| ==> result.values[items[i].key] == replies(at).values[items[i].key]
  {
    AttemptMeans(items, replies(at));
    forall i | 0 <= i < |items| ensures items[i].key in ItemKeys(items) {
    }
  }

  /** Every reply that does not suffice has exactly one error. */
  lemma ComplaintIs(items: seq<Item>, outcome: Outcome, message: string)
    requires !Suffices(items, outcome)
    ensures Attempt(items, outcome).Broken?
    ensures Complains(items, outcome, message) <==> Attempt(items, outcome).message == message
  {
    AttemptMeans(items, outcome);
  }

  /** An error that is a timeout, on two or more items, splits them; the first half is the longer one. The halves are
      asked for in turn as long as none breaks. */
  lemma TimeoutSplits(
    timedOut: string -> bool, items: seq<Item>, replies: Replies, at: nat, attempt: nat, message: string)
    requires !Suffices(items, replies(at)) && Complains(items, replies(at), message)
    requires timedOut(message) && |items| >= 2
    ensures var half := if |items| % 2 == 0 then |items| / 2 else |items| / 2 + 1;
            var (left, next) := Translate(timedOut, items[..half], replies, at + 1, 0);
            var (right, end) := Translate(timedOut, items[half..], replies, next, 0);
            Translate(timedOut, items, replies, at, attempt) ==
            if left.Broken? then (left, next)
            else if right.Broken? then (right, end)
            else (Done(left.values + right.values), end)
  {
    ComplaintIs(items, replies(at), message);
    assert Midpoint(|items|) == if |items| % 2 == 0 then |items| / 2 else |items| / 2 + 1;
  }

  /** A timeout on a single item and a second error break the batch with that error; a first error that is no timeout
      is followed by a second attempt on the same items. */
  lemma ErrorDecides(
    timedOut: string -> bool, items: seq<Item>, replies: Replies, at: nat, attempt: nat, message: string)
    requires !Suffices(items, replies(at)) && Complains(items, replies(at), message)
    requires !(timedOut(message) && |items| >= 2)
    ensures Translate(timedOut, items, replies, at, attempt) ==
            if timedOut(message) || attempt >= 1 then (Broken(message), at + 1)
            else Translate(timedOut, items, replies, at + 1, 1)
  {
    ComplaintIs(items, replies(at), message);
  }

  /** A batch of n items takes at least one prompt and at most 4n - 2. */
  lemma {:induction false} PromptBound(timedOut: string -> bool, items: seq<Item>, replies: Replies, at: nat,
                                       attempt: nat)
    requires |items| >= 1 && attempt < MAX_ATTEMPTS
    ensures var end := Translate(timedOut, items, replies, at, attempt).1;
            at < end <= at + 4 * |items| - 2 - attempt
    decreases |items|, MAX_ATTEMPTS - attempt
  {
    var result := Attempt(items, replies(at));
    if result.Broken? {
      if timedOut(result.message) && |items| > 1 {
        var (left, right) := (items[..Midpoint(|items|)], items[Midpoint(|items|)..]);
        PromptBound(timedOut, left, replies, at + 1, 0);
        PromptBound(timedOut, right, replies, Translate(timedOut, left, replies, at + 1, 0).1, 0);
      } else if !timedOut(result.message) && attempt + 1 < MAX_ATTEMPTS {
        PromptBound(timedOut, items, replies, at + 1, attempt + 1);
      }
    }
  }

  /** Some prompt in `[at, end)` returned this very translation. */
  ghost predicate Sourced(replies: Replies, at: nat, end: nat, key: string, value: string) {
    exists p: nat :: at <= p < end && replies(p).Parsed? && key in replies(p).values && replies(p).values[key] == value
  }

  ghost predicate Complete(items: seq<Item>, values: map<string, string>) {
    && values.Keys == ItemKeys(items)
    && forall k :: k in values ==> !IsBlank(values[k])
  }

  lemma ItemKeysSplit(items: seq<Item>, n: nat)
    requires n <= |items|
    ensures ItemKeys(items) == ItemKeys(items[..n]) + ItemKeys(items[n..])
  {
    forall k | k in ItemKeys(items) ensures k in ItemKeys(items[..n]) + ItemKeys(items[n..]) {
      var i :| 0 <= i < |items| && items[i].key == k;
      if i >= n { assert items[n..][i - n].key == k; } else { assert items[..n][i].key == k; }
    }
  }

  lemma AttemptComplete(items: seq<Item>, outcome: Outcome)
    requires Attempt(items, outcome).Done?
    ensures Complete(items, Attempt(items, outcome).values)
  {
  }

  /** A successful batch holds exactly its items' keys, each with a nonblank translation some prompt returned. */
  lemma {:induction false} TranslateComplete(
    timedOut: string -> bool, items: seq<Item>, replies: Replies, at: nat, attempt: nat)
    requires attempt < MAX_ATTEMPTS
    requires Translate(timedOut, items, replies, at, attempt).0.Done?
    ensures var (result, end) := Translate(timedOut, items, replies, at, attempt);
            && Complete(items, result.values)
            && forall k :: k in result.values ==> Sourced(replies, at, end, k, result.values[k])
    decreases |items|, MAX_ATTEMPTS - attempt
  {
    var result := Attempt(items, replies(at));
    if result.Done? {
      AttemptComplete(items, replies(at));
      forall k | k in result.values ensures Sourced(replies, at, at + 1, k, result.values[k]) {
        assert replies(at).values[k] == result.values[k];
      }
    } else if timedOut(result.message) && |items| > 1 {
      var n := Midpoint(|items|);
      var (left, next) := Translate(timedOut, items[..n], replies, at + 1, 0);
      var (right, end) := Translate(timedOut, items[n..], replies, next, 0);
      TranslateComplete(timedOut, items[..n], replies, at + 1, 0);
      TranslateComplete(timedOut, items[n..], replies, next, 0);
      PromptBound(timedOut, items[..n], replies, at + 1, 0);
      PromptBound(timedOut, items[n..], replies, next, 0);
      ItemKeysSplit(items, n);
      JoinSourced(replies, at + 1, next, end, left.values, right.values);
    } else {
      TranslateComplete(timedOut, items, replies, at + 1, attempt + 1);
    }
  }

  lemma TranslateKeys(timedOut: string -> bool, items: seq<Item>, replies: Replies, at: nat, attempt: nat)
    requires attempt < MAX_ATTEMPTS
    ensures var result := Translate(timedOut, items, replies, at, attempt).0;
            result.Done? ==> Complete(items, result.values)
  {
    if Translate(timedOut, items, replies, at, attempt).0.Done? {
      TranslateComplete(timedOut, items, replies, at, attempt);
    }
  }

  lemma JoinSourced(replies: Replies, at: nat, mid: nat, end: nat, left: map<string, string>,
                    right: map<string, string>)
    requires at <= mid <= end
    requires forall k :: k in left ==> Sourced(replies, at, mid, k, left[k])
    requires forall k :: k in right ==> Sourced(replies, mid, end, k, right[k])
    ensures forall k :: k in left + right ==> Sourced(replies, at, end, k, (left + right)[k])
  {
  }

  // ---------- the bound is reached ----------

  /** A run of prompts that makes a batch fail once, then time out, at every level of splitting. */
  ghost function Worst(items: seq<Item>, error: string, timeout: string, text: string): (script: seq<Outcome>)
    requires |items| >= 1
    ensures |script| == 4 * |items| - 2
    decreases |items|
  {
    if |items| == 1 then [Failed(error), Parsed(map[items[0].key := text])]
    else
      [Failed(error), Failed(timeout)]
      + Worst(items[..Midpoint(|items|)], error, timeout, text)
      + Worst(items[Midpoint(|items|)..], error, timeout, text)
  }

  ghost predicate Plays(replies: Replies, at: nat, script: seq<Outcome>) {
    forall i: nat :: i < |script| ==> replies(at + i) == script[i]
  }

  lemma PlaysSplit(replies: Replies, at: nat, a: seq<Outcome>, b: seq<Outcome>)
    requires Plays(replies, at, a + b)
    ensures Plays(replies, at, a) && Plays(replies, at + |a|, b)
  {
    forall i: nat | i < |a| ensures replies(at + i) == a[i] {
      assert (a + b)[i] == a[i];
    }
    forall i: nat | i < |b| ensures replies(at + |a| + i) == b[i] {
      assert (a + b)[|a| + i] == b[i];
      assert at + |a| + i == at + (|a| + i);
    }
  }

  lemma RetryStep(timedOut: string -> bool, items: seq<Item>, replies: Replies, at: nat)
    requires Attempt(items, replies(at)).Broken? && !timedOut(Attempt(items, replies(at)).message)
    ensures Translate(timedOut, items, replies, at, 0) == Translate(timedOut, items, replies, at + 1, 1)
  {
  }

  lemma SplitStep(timedOut: string -> bool, items: seq<Item>, replies: Replies, at: nat, mid: nat, end: nat)
    requires |items| > 1 && Attempt(items, replies(at)).Broken? && timedOut(Attempt(items, replies(at)).message)
    requires var (r, n) := Translate(timedOut, items[..Midpoint(|items|)], replies, at + 1, 0); r.Done? && n == mid
    requires var (r, n) := Translate(timedOut, items[Midpoint(|items|)..], replies, mid, 0); r.Done? && n == end
    ensures var (r, n) := Translate(timedOut, items, replies, at, 1); r.Done? && n == end
  {
  }

  lemma WorstParts(replies: Replies, at: nat, items: seq<Item>, error: string, timeout: string, text: string)
    requires |items| > 1 && Plays(replies, at, Worst(items, error, timeout, text))
    ensures replies(at) == Failed(error) && replies(at + 1) == Failed(timeout)
    ensures var n := Midpoint(|items|);
            && Plays(replies, at + 2, Worst(items[..n], error, timeout, text))
            && Plays(replies, at + 4 * n, Worst(items[n..], error, timeout, text))
  {
    var n := Midpoint(|items|);
    var a, b := Worst(items[..n], error, timeout, text), Worst(items[n..], error, timeout, text);
    var script := Worst(items, error, timeout, text);
    assert script == [Failed(error), Failed(timeout)] + (a + b);
    assert replies(at + 0) == script[0] && replies(at + 1) == script[1];
    PlaysSplit(replies, at, [Failed(error), Failed(timeout)], a + b);
    PlaysSplit(replies, at + 2, a, b);
  }

  lemma OneItem(timedOut: string -> bool, items: seq<Item>, replies: Replies, at: nat, error: string, timeout: string,
                text: string)
    requires |items| == 1 && !timedOut(error) && !IsBlank(text)
    requires Plays(replies, at, Worst(items, error, timeout, text))
    ensures Succeeds(timedOut, items, replies, at, 0, at + 2)
  {
    var script := Worst(items, error, timeout, text);
    assert replies(at + 0) == script[0] && replies(at + 1) == script[1];
    RetryStep(timedOut, items, replies, at);
    assert Attempt(items, replies(at + 1)).Done?;
  }

  ghost predicate Succeeds(timedOut: string -> bool, items: seq<Item>, replies: Replies, at: nat, attempt: nat,
                           end: nat) {
    Translate(timedOut, items, replies, at, attempt).0.Done?
      && Translate(timedOut, items, replies, at, attempt).1 == end
  }

  lemma WorstSplit(
    timedOut: string -> bool, items: seq<Item>, replies: Replies, at: nat, error: string, timeout: string, text: string)
    requires |items| > 1 && !timedOut(error) && timedOut(timeout)
    requires replies(at) == Failed(error) && replies(at + 1) == Failed(timeout)
    requires var n := Midpoint(|items|);
             && Succeeds(timedOut, items[..n], replies, at + 2, 0, at + 4 * n)
             && Succeeds(timedOut, items[n..], replies, at + 4 * n, 0, at + 4 * |items| - 2)
    ensures Succeeds(timedOut, items, replies, at, 0, at + 4 * |items| - 2)
  {
    RetryStep(timedOut, items, replies, at);
    SplitStep(timedOut, items, replies, at + 1, at + 4 * Midpoint(|items|), at + 4 * |items| - 2);
  }

  /** For every batch there is a successful run that takes exactly 4n - 2 prompts. */
  lemma {:induction false} BoundReached(
    timedOut: string -> bool, items: seq<Item>, replies: Replies, at: nat, error: string, timeout: string, text: string)
    requires |items| >= 1 && !timedOut(error) && timedOut(timeout) && !IsBlank(text)
    requires Plays(replies, at, Worst(items, error, timeout, text))
    ensures Succeeds(timedOut, items, replies, at, 0, at + 4 * |items| - 2)
    decreases |items|
  {
    if |items| > 1 {
      var n := Midpoint(|items|);
      WorstParts(replies, at, items, error, timeout, text);
      BoundReached(timedOut, items[..n], replies, at + 2, error, timeout, text);
      BoundReached(timedOut, items[n..], replies, at + 4 * n, error, timeout, text);
      WorstSplit(timedOut, items, replies, at, error, timeout, text);
    } else {
      OneItem(timedOut, items, replies, at, error, timeout, text);
    }
  }
}
