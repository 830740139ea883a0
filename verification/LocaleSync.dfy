/** `syncLocale`: how every key of the source locale gets its text, and what a run leaves on disk. */
module LocaleSync {
  import opened OrderedMaps
  import opened LocaleTree
  import opened LocaleMemory
  import opened Batching

  /** The configured locale and provider, and the functions the script takes from libraries. */
  datatype Host = Host(
    locale: string,
    fileName: string,
    provider: string,
    model: string,
    defaultGlossary: seq<(string, string)>,
    hashText: string -> string,
    cacheKey: (string, string) -> string,
    parity: (string, string) -> bool,
    sorted: set<string> -> seq<string>)

  /** Cache keys made from text hashes are nonempty and never shared by two source keys, and sorting lists a
      set's elements once each. */
  ghost predicate Sound(h: Host) {
    && (forall p: Pair<string>, q: Pair<string> :: KeyOf(h, p) == KeyOf(h, q) ==> p.key == q.key)
    && (forall p: Pair<string> :: KeyOf(h, p) != "")
    && (forall s :: Enumerates(h.sorted(s), s))
    && h.defaultGlossary != []
  }

  /** What one run reads: the memory, its hash index, the existing texts, the previous fallback keys. */
  datatype Inputs = Inputs(
    allow: bool,
    memory: map<string, Entry>,
    byText: map<string, Entry>,
    existing: map<string, string>,
    previous: set<string>)

  datatype Tier = Cached(entry: Entry) | ByText(entry: Entry) | Existing(text: string) | Pending

  function KeyOf(h: Host, p: Pair<string>): string {
    h.cacheKey(p.key, h.hashText(p.value))
  }

  /** Where the text of a source entry comes from. */
  function TierOf(h: Host, x: Inputs, p: Pair<string>): Tier {
    var refresh := p.key in x.previous;
    if KeyOf(h, p) in x.memory && !(x.allow && refresh) then Cached(x.memory[KeyOf(h, p)])
    else if h.hashText(p.value) in x.byText && (refresh || p.key !in x.existing) then
      ByText(x.byText[h.hashText(p.value)])
    else if p.key in x.existing && !(x.allow && refresh) then Existing(x.existing[p.key])
    else Pending
  }

  function Adopt(h: Host, p: Pair<string>, e: Entry): Entry {
    e.(cacheKey := KeyOf(h, p), segmentId := p.key, sourcePath := "ui/src/i18n/locales/" + h.fileName)
  }

  // ---------- the result of the first loop, over a prefix of the source entries ----------

  function Reused(h: Host, x: Inputs, src: Flat): map<string, string> {
    if src == [] then map[]
    else
      var init, p := Reused(h, x, src[..|src| - 1]), src[|src| - 1];
      match TierOf(h, x, p)
      case Cached(e) => init[p.key := e.translated]
      case ByText(e) => init[p.key := e.translated]
      case Existing(t) => init[p.key := t]
      case Pending => init
  }

  function Adopted(h: Host, x: Inputs, src: Flat): map<string, Entry> {
    if src == [] then map[]
    else
      var init, p := Adopted(h, x, src[..|src| - 1]), src[|src| - 1];
      if TierOf(h, x, p).ByText? then init[KeyOf(h, p) := Adopt(h, p, TierOf(h, x, p).entry)] else init
  }

  /** Keys that stay fallbacks because their text was reused as it was. */
  predicate StaysFallback(h: Host, x: Inputs, p: Pair<string>) {
    p.key in x.previous && (TierOf(h, x, p).Cached? || TierOf(h, x, p).Existing?)
  }

  function Kept(h: Host, x: Inputs, src: Flat): seq<string> {
    if src == [] then []
    else
      var init, p := Kept(h, x, src[..|src| - 1]), src[|src| - 1];
      if StaysFallback(h, x, p) then init + [p.key] else init
  }

  function ItemOf(h: Host, p: Pair<string>): Item {
    Item(KeyOf(h, p), p.key, p.value, h.hashText(p.value))
  }

  function PendingItems(h: Host, x: Inputs, src: Flat): seq<Item> {
    if src == [] then []
    else
      var init, p := PendingItems(h, x, src[..|src| - 1]), src[|src| - 1];
      if TierOf(h, x, p).Pending? then init + [ItemOf(h, p)] else init
  }

  lemma {:induction false} AdoptedKeys(h: Host, x: Inputs, src: Flat, ck: string)
    requires ck in Adopted(h, x, src)
    ensures exists j :: 0 <= j < |src| && KeyOf(h, src[j]) == ck && TierOf(h, x, src[j]).ByText?
                        && Adopted(h, x, src)[ck] == Adopt(h, src[j], TierOf(h, x, src[j]).entry)
  {
    var n := |src| - 1;
    if TierOf(h, x, src[n]).ByText? && KeyOf(h, src[n]) == ck {
    } else {
      AdoptedKeys(h, x, src[..n], ck);
      var j :| 0 <= j < n && KeyOf(h, src[..n][j]) == ck && TierOf(h, x, src[..n][j]).ByText?
               && Adopted(h, x, src[..n])[ck] == Adopt(h, src[..n][j], TierOf(h, x, src[..n][j]).entry);
      assert src[j] == src[..n][j];
    }
  }

  /** What the first loop has built so far. */
  datatype Progress = Progress(next: map<string, string>, tm: map<string, Entry>, fallback: seq<string>,
                               pending: seq<Item>)

  /** `s` is what the first loop builds from the entries of `src`. */
  ghost predicate Resolved(h: Host, x: Inputs, src: Flat, s: Progress) {
    && s.tm == x.memory + Adopted(h, x, src)
    && s.next == Reused(h, x, src)
    && s.fallback == Kept(h, x, src)
    && s.pending == PendingItems(h, x, src)
  }

  /** One source entry's effect, by the tier that `x` gives it. */
  ghost predicate Advances(h: Host, x: Inputs, p: Pair<string>, s: Progress, r: Progress) {
    match TierOf(h, x, p)
    case Cached(e) =>
      r == s.(next := s.next[p.key := e.translated],
              fallback := if p.key in x.previous then s.fallback + [p.key] else s.fallback)
    case ByText(e) =>
      r == s.(next := s.next[p.key := e.translated], tm := s.tm[KeyOf(h, p) := Adopt(h, p, e)])
    case Existing(t) =>
      r == s.(next := s.next[p.key := t],
              fallback := if p.key in x.previous then s.fallback + [p.key] else s.fallback)
    case Pending => r == s.(pending := s.pending + [ItemOf(h, p)])
  }

  lemma ReusedSnoc(h: Host, x: Inputs, src: Flat, p: Pair<string>)
    ensures Reused(h, x, src + [p]) ==
            match TierOf(h, x, p)
            case Cached(e) => Reused(h, x, src)[p.key := e.translated]
            case ByText(e) => Reused(h, x, src)[p.key := e.translated]
            case Existing(t) => Reused(h, x, src)[p.key := t]
            case Pending => Reused(h, x, src)
  {
    assert (src + [p])[..|src|] == src;
  }

  lemma AdoptedSnoc(h: Host, x: Inputs, src: Flat, p: Pair<string>)
    ensures Adopted(h, x, src + [p]) ==
            if TierOf(h, x, p).ByText? then Adopted(h, x, src)[KeyOf(h, p) := Adopt(h, p, TierOf(h, x, p).entry)]
            else Adopted(h, x, src)
  {
    assert (src + [p])[..|src|] == src;
  }

  lemma ListsSnoc(h: Host, x: Inputs, src: Flat, p: Pair<string>)
    ensures Kept(h, x, src + [p]) == Kept(h, x, src) + if StaysFallback(h, x, p) then [p.key] else []
    ensures PendingItems(h, x, src + [p]) ==
            PendingItems(h, x, src) + if TierOf(h, x, p).Pending? then [ItemOf(h, p)] else []
  {
    assert (src + [p])[..|src|] == src;
  }

  lemma ResolvedSnoc(h: Host, x: Inputs, src: Flat, p: Pair<string>, s: Progress, r: Progress)
    requires Resolved(h, x, src, s) && Advances(h, x, p, s, r)
    ensures Resolved(h, x, src + [p], r)
  {
    ReusedSnoc(h, x, src, p);
    AdoptedSnoc(h, x, src, p);
    ListsSnoc(h, x, src, p);
    if TierOf(h, x, p).ByText? {
      SumUpdate(x.memory, Adopted(h, x, src), KeyOf(h, p), Adopt(h, p, TierOf(h, x, p).entry));
    }
  }

  /** A memory that agrees on the entry's cache key decides the same. */
  lemma SameDecision(h: Host, x: Inputs, y: Inputs, p: Pair<string>, s: Progress, r: Progress)
    requires y == x.(memory := y.memory) && Advances(h, y, p, s, r)
    requires KeyOf(h, p) in x.memory <==> KeyOf(h, p) in y.memory
    requires KeyOf(h, p) in x.memory ==> x.memory[KeyOf(h, p)] == y.memory[KeyOf(h, p)]
    ensures Advances(h, x, p, s, r)
  {
  }

  /** One iteration of the first loop of `syncLocale`, on the memory as it is by then. */
  method ResolveKey(h: Host, allow: bool, p: Pair<string>, existing: map<string, string>, previous: set<string>,
                    byText: map<string, Entry>, s: Progress)
    returns (r: Progress)
    ensures Advances(h, Inputs(allow, s.tm, byText, existing, previous), p, s, r)
  {
    r := s;
    var textHash := h.hashText(p.value);
    var segmentCacheKey := h.cacheKey(p.key, textHash);
    var shouldRefreshFallback := p.key in previous;
    if segmentCacheKey in s.tm && !(allow && shouldRefreshFallback) {
      r := r.(next := r.next[p.key := s.tm[segmentCacheKey].translated]);
      if shouldRefreshFallback {
        r := r.(fallback := r.fallback + [p.key]);
      }
      return;
    }
    if textHash in byText && (shouldRefreshFallback || p.key !in existing) {
      var cachedByText := byText[textHash];
      r := r.(next := r.next[p.key := cachedByText.translated],
              tm := r.tm[segmentCacheKey := Adopt(h, p, cachedByText)]);
      return;
    }
    if p.key in existing && !(allow && shouldRefreshFallback) {
      r := r.(next := r.next[p.key := existing[p.key]]);
      if shouldRefreshFallback {
        r := r.(fallback := r.fallback + [p.key]);
      }
      return;
    }
    r := r.(pending := r.pending + [ItemOf(h, p)]);
  }

  /** The first loop of `syncLocale`. It writes to the memory it looks up, yet every decision is the one
      the initial memory gives. */
  method ResolveKeys(h: Host, allow: bool, src: Flat, existing: map<string, string>, previous: set<string>,
                     memory: map<string, Entry>, byText: map<string, Entry>)
    returns (s: Progress)
    requires Sound(h) && Distinct(src)
    ensures Resolved(h, Inputs(allow, memory, byText, existing, previous), src, s)
  {
    ghost var x := Inputs(allow, memory, byText, existing, previous);
    s := Progress(map[], memory, [], []);
    for i := 0 to |src|
      invariant Resolved(h, x, src[..i], s)
    {
      UntouchedKey(h, x, src, i);
      var r := ResolveKey(h, allow, src[i], existing, previous, byText, s);
      SameDecision(h, x, x.(memory := s.tm), src[i], s, r);
      ResolvedSnoc(h, x, src[..i], src[i], s, r);
      assert src[..i + 1] == src[..i] + [src[i]];
      s := r;
    }
    assert src[..|src|] == src;
  }

  /** Keys already handled never write under the cache key of a later one. */
  lemma UntouchedKey(h: Host, x: Inputs, src: Flat, i: nat)
    requires Sound(h) && Distinct(src) && i < |src|
    ensures KeyOf(h, src[i]) !in Adopted(h, x, src[..i])
  {
    if KeyOf(h, src[i]) in Adopted(h, x, src[..i]) {
      AdoptedKeys(h, x, src[..i], KeyOf(h, src[i]));
    }
  }
}
