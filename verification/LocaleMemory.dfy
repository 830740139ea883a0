/** The translation memory of one locale: loading, rendering and its index by text hash. */
module LocaleMemory {
  import opened Texts
  import opened OrderedMaps

  datatype Entry = Entry(
    cacheKey: string, model: string, provider: string, segmentId: string, sourcePath: string, srcLang: string,
    text: string, textHash: string, tgtLang: string, translated: string, updatedAt: string)

  type Memory = seq<Pair<Entry>>

  /** Lines without a cache key or with a blank translation are dropped when the file is read. */
  predicate Loadable(e: Entry) {
    e.cacheKey != "" && !IsBlank(e.translated)
  }

  /** `loadTranslationMemory` on the parsed lines: the last line for a cache key wins. */
  function Load(lines: seq<Entry>): Memory {
    if lines == [] then []
    else
      var e, init := lines[|lines| - 1], Load(lines[..|lines| - 1]);
      if Loadable(e) then Put(init, e.cacheKey, e) else init
  }

  /** Every entry sits under its own cache key and is loadable. */
  ghost predicate WellKeyed(m: map<string, Entry>) {
    forall k :: k in m ==> m[k].cacheKey == k && Loadable(m[k])
  }

  lemma {:induction false} LoadWellKeyed(lines: seq<Entry>)
    ensures Distinct(Load(lines)) && WellKeyed(View(Load(lines)))
  {
    if lines != [] {
      var e, init := lines[|lines| - 1], lines[..|lines| - 1];
      LoadWellKeyed(init);
      if Loadable(e) {
        PutView(Load(init), e.cacheKey, e);
      }
    }
  }

  /** `order` lists exactly the elements of `keys`, each once. */
  ghost predicate Enumerates(order: seq<string>, keys: set<string>) {
    && (forall i :: 0 <= i < |order| ==> order[i] in keys)
    && (forall k :: k in keys ==> k in order)
    && (forall i, j :: 0 <= i < j < |order| ==> order[i] != order[j])
  }

  /** `renderTranslationMemory`: the entries in the order of their sorted cache keys. */
  function Lines(m: map<string, Entry>, order: seq<string>): seq<Entry>
    requires forall i :: 0 <= i < |order| ==> order[i] in m
  {
    seq(|order|, i requires 0 <= i < |order| => m[order[i]])
  }

  /** The entries of `m` listed in `order`. */
  function Listed(m: map<string, Entry>, order: seq<string>): map<string, Entry> {
    map k | k in order && k in m :: m[k]
  }

  lemma ListedSnoc(m: map<string, Entry>, order: seq<string>, k: string)
    requires k in m
    ensures Listed(m, order + [k]) == Listed(m, order)[k := m[k]]
  {
  }

  lemma LoadSnoc(lines: seq<Entry>, e: Entry)
    requires Loadable(e) && Distinct(Load(lines))
    ensures Distinct(Load(lines + [e])) && View(Load(lines + [e])) == View(Load(lines))[e.cacheKey := e]
  {
    assert (lines + [e])[..|lines|] == lines;
    PutView(Load(lines), e.cacheKey, e);
  }

  lemma {:induction false} LoadLines(m: map<string, Entry>, order: seq<string>)
    requires WellKeyed(m) && forall i :: 0 <= i < |order| ==> order[i] in m
    ensures Distinct(Load(Lines(m, order)))
    ensures View(Load(Lines(m, order))) == Listed(m, order)
    decreases |order|
  {
    if order != [] {
      var k, init := order[|order| - 1], order[..|order| - 1];
      LoadLines(m, init);
      assert order == init + [k];
      LinesSnoc(m, init, k);
      LoadSnoc(Lines(m, init), m[k]);
      ListedSnoc(m, init, k);
    }
  }

  lemma LinesSnoc(m: map<string, Entry>, order: seq<string>, k: string)
    requires k in m && forall i :: 0 <= i < |order| ==> order[i] in m
    ensures Lines(m, order + [k]) == Lines(m, order) + [m[k]]
  {
  }

  /** Writing a memory and reading it back gives the same memory. */
  lemma MemoryRoundTrip(m: map<string, Entry>, order: seq<string>)
    requires WellKeyed(m) && Enumerates(order, m.Keys)
    ensures Distinct(Load(Lines(m, order))) && View(Load(Lines(m, order))) == m
  {
    LoadLines(m, order);
  }

  predicate Eligible(e: Entry, locale: string) {
    e.tgtLang == locale && e.textHash != "" && !IsBlank(e.translated)
  }

  /** `buildTranslationMemoryByTextHash`: later entries win. */
  function ByTextHash(m: Memory, locale: string): map<string, Entry> {
    if m == [] then map[]
    else
      var e, init := m[|m| - 1].value, ByTextHash(m[..|m| - 1], locale);
      if Eligible(e, locale) then init[e.textHash := e] else init
  }

  method BuildTranslationMemoryByTextHash(m: Memory, locale: string) returns (index: map<string, Entry>)
    ensures index == ByTextHash(m, locale)
  {
    index := map[];
    for i := 0 to |m|
      invariant index == ByTextHash(m[..i], locale)
    {
      var entry := m[i].value;
      assert m[..i + 1][..i] == m[..i];
      if entry.tgtLang != locale || entry.textHash == "" || IsBlank(entry.translated) {
        continue;
      }
      index := index[entry.textHash := entry];
    }
    assert m[..|m|] == m;
  }

  /** A hash in the index leads to an eligible entry with that hash. */
  lemma {:induction false} ByTextHashSound(m: Memory, locale: string, h: string)
    requires h in ByTextHash(m, locale)
    ensures Eligible(ByTextHash(m, locale)[h], locale) && ByTextHash(m, locale)[h].textHash == h
    ensures exists i :: 0 <= i < |m| && m[i].value == ByTextHash(m, locale)[h]
  {
    var n := |m| - 1;
    if Eligible(m[n].value, locale) && m[n].value.textHash == h {
    } else {
      ByTextHashSound(m[..n], locale, h);
      var i :| 0 <= i < n && m[..n][i].value == ByTextHash(m[..n], locale)[h];
      assert m[i] == m[..n][i];
    }
  }

  lemma {:induction false} ByTextHashComplete(m: Memory, locale: string, i: nat)
    requires i < |m| && Eligible(m[i].value, locale)
    ensures m[i].value.textHash in ByTextHash(m, locale)
  {
    var n := |m| - 1;
    if i < n {
      assert m[..n][i] == m[i];
      ByTextHashComplete(m[..n], locale, i);
    }
  }

  /** The index holds a hash iff some eligible entry carries it, and then such an entry. */
  lemma ByTextHashExact(m: Memory, locale: string)
    requires Distinct(m)
    ensures forall h :: h in ByTextHash(m, locale) ==>
              Eligible(ByTextHash(m, locale)[h], locale) && ByTextHash(m, locale)[h].textHash == h
              && ByTextHash(m, locale)[h] in View(m).Values
    ensures forall k :: k in View(m) && Eligible(View(m)[k], locale) ==> View(m)[k].textHash in ByTextHash(m, locale)
  {
    forall h | h in ByTextHash(m, locale)
      ensures Eligible(ByTextHash(m, locale)[h], locale) && ByTextHash(m, locale)[h].textHash == h
      ensures ByTextHash(m, locale)[h] in View(m).Values
    {
      ByTextHashSound(m, locale, h);
      var i :| 0 <= i < |m| && m[i].value == ByTextHash(m, locale)[h];
      ViewAt(m, i);
    }
    forall k | k in View(m) && Eligible(View(m)[k], locale) ensures View(m)[k].textHash in ByTextHash(m, locale) {
      ViewHas(m, k);
      ViewAt(m, IndexOf(m, k));
      ByTextHashComplete(m, locale, IndexOf(m, k));
    }
  }

  // ---------- which line and which entry win ----------

  /** A text that is not only whitespace. */
  predicate HasInk(s: string) {
    exists i :: 0 <= i < |s| && !IsSpace(s[i])
  }

  /** Line `i` is the last usable one for a cache key. */
  ghost predicate LastFor(lines: seq<Entry>, k: string, i: nat) {
    && i < |lines| && k != "" && lines[i].cacheKey == k && HasInk(lines[i].translated)
    && forall j :: i < j < |lines| ==> lines[j].cacheKey != k || !HasInk(lines[j].translated)
  }

  /** A line that is not for this cache key, or unusable, decides nothing about it. */
  lemma LastForInit(lines: seq<Entry>, k: string)
    requires lines != []
    ensures var n, e := |lines| - 1, lines[|lines| - 1];
            if k != "" && e.cacheKey == k && HasInk(e.translated) then forall i: nat :: LastFor(lines, k, i) <==> i == n
            else forall i: nat :: LastFor(lines, k, i) <==> LastFor(lines[..n], k, i)
  {
    var n := |lines| - 1;
    assert forall j :: 0 <= j < n ==> lines[..n][j] == lines[j];
  }

  /** A memory file knows a cache key iff some line with a nonblank translation has it; the last such line counts. */
  lemma {:induction false} LoadExact(lines: seq<Entry>, k: string)
    ensures k in View(Load(lines)) <==> exists i: nat :: LastFor(lines, k, i)
    ensures forall i: nat :: LastFor(lines, k, i) ==> k in View(Load(lines)) && View(Load(lines))[k] == lines[i]
  {
    if lines != [] {
      var n := |lines| - 1;
      LoadExact(lines[..n], k);
      LoadWellKeyed(lines[..n]);
      LastForInit(lines, k);
      assert lines[n].cacheKey == k && Loadable(lines[n]) ==> LastFor(lines, k, n);
      if i: nat :| LastFor(lines[..n], k, i) {
        assert lines[..n][i] == lines[i];
        assert LastFor(lines, k, i) || LastFor(lines, k, n);
      }
      if Loadable(lines[n]) {
        PutView(Load(lines[..n]), lines[n].cacheKey, lines[n]);
      }
    }
  }

  /** Entry `i` is the last one of the locale with this text hash and a nonblank translation. */
  ghost predicate LastWith(m: Memory, locale: string, t: string, i: nat) {
    && i < |m| && t != "" && Carries(m[i].value, locale, t)
    && forall j :: i < j < |m| ==> !Carries(m[j].value, locale, t)
  }

  predicate Carries(e: Entry, locale: string, t: string) {
    e.textHash == t && e.tgtLang == locale && HasInk(e.translated)
  }

  lemma LastWithInit(m: Memory, locale: string, t: string)
    requires m != []
    ensures var n := |m| - 1;
            if t != "" && Carries(m[n].value, locale, t) then forall i: nat :: LastWith(m, locale, t, i) <==> i == n
            else forall i: nat :: LastWith(m, locale, t, i) <==> LastWith(m[..n], locale, t, i)
  {
    var n := |m| - 1;
    assert forall j :: 0 <= j < n ==> m[..n][j] == m[j];
  }

  /** The index leads from a text hash to the last entry of the locale that carries it. */
  lemma {:induction false} IndexExact(m: Memory, locale: string, t: string)
    ensures t in ByTextHash(m, locale) <==> exists i: nat :: LastWith(m, locale, t, i)
    ensures forall i: nat :: LastWith(m, locale, t, i) ==>
              t in ByTextHash(m, locale) && ByTextHash(m, locale)[t] == m[i].value
  {
    if m != [] {
      IndexExact(m[..|m| - 1], locale, t);
      LastWithInit(m, locale, t);
      IndexStep(m, locale, t);
    }
  }

  lemma IndexStep(m: Memory, locale: string, t: string)
    requires m != []
    ensures var n := |m| - 1;
            && (t != "" && Carries(m[n].value, locale, t) ==>
                  t in ByTextHash(m, locale) && ByTextHash(m, locale)[t] == m[n].value && LastWith(m, locale, t, n))
            && (!(t != "" && Carries(m[n].value, locale, t)) ==>
                  && (t in ByTextHash(m, locale) <==> t in ByTextHash(m[..n], locale))
                  && (t in ByTextHash(m, locale) ==> ByTextHash(m, locale)[t] == ByTextHash(m[..n], locale)[t]))
            && forall i :: 0 <= i < n ==> m[..n][i] == m[i]
  {
  }
}
