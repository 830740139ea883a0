/** The quote- and parenthesis-aware scanners of the temp-path guardrail. */
module GuardrailScanner {
  import opened Wrappers
  import opened Texts

  /** `QuoteScanState` */
  datatype Quote = Quote(quote: Option<char>, escaped: bool)

  const Outside := Quote(None, false)

  predicate IsQuote(ch: char) {
    ch == '\'' || ch == '"' || ch == '`'
  }

  /** The effect of one character on the quote state. */
  function Feed(q: Quote, ch: char): Quote {
    if q.quote.None? then (if IsQuote(ch) then q.(quote := Some(ch)) else q)
    else if q.escaped then q.(escaped := false)
    else if ch == '\\' then q.(escaped := true)
    else if ch == q.quote.value then q.(quote := None)
    else q
  }

  class QuoteScanState {
    var quote: Option<char>
    var escaped: bool

    ghost function State(): Quote
      reads this
    {
      Quote(quote, escaped)
    }

    constructor ()
      ensures State() == Outside
    {
      quote, escaped := None, false;
    }

    /** `beginQuotedSection` */
    method Begin(ch: char) returns (begun: bool)
      modifies this
      ensures begun == IsQuote(ch)
      ensures State() == if begun then old(State()).(quote := Some(ch)) else old(State())
    {
      if ch != '\'' && ch != '"' && ch != '`' {
        return false;
      }
      quote := Some(ch);
      return true;
    }

    /** `consumeQuotedChar` */
    method Consume(ch: char) returns (consumed: bool)
      modifies this
      ensures consumed == old(quote).Some?
      ensures State() == if consumed then Feed(old(State()), ch) else old(State())
    {
      if quote.None? {
        return false;
      }
      if escaped {
        escaped := false;
        return true;
      }
      if ch == '\\' {
        escaped := true;
        return true;
      }
      if ch == quote.value {
        quote := None;
      }
      return true;
    }
  }

  // ---------- reference definitions ----------

  /** The quote state after the first `i` characters. */
  function QuoteAt(s: string, i: nat): Quote
    requires i <= |s|
  {
    if i == 0 then Outside else Feed(QuoteAt(s, i - 1), s[i - 1])
  }

  /** Character `i` is code: neither quoted nor the start of a quotation. */
  predicate IsCode(s: string, i: nat)
    requires i < |s|
  {
    QuoteAt(s, i).quote.None? && !IsQuote(s[i])
  }

  /** How many of the first `i` characters are the code character `ch`. */
  function CountCode(s: string, i: nat, ch: char): nat
    requires i <= |s|
  {
    if i == 0 then 0 else CountCode(s, i - 1, ch) + if IsCode(s, i - 1) && s[i - 1] == ch then 1 else 0
  }

  /** The parenthesis depth after `i` characters behind an opening parenthesis. */
  function DepthAt(s: string, i: nat): int
    requires i <= |s|
  {
    1 + CountCode(s, i, '(') - CountCode(s, i, ')')
  }

  /** The character at `k` closes the parenthesis that precedes `s`. */
  ghost predicate Closes(s: string, k: nat) {
    k < |s| && DepthAt(s, k + 1) == 0 && forall i :: 0 <= i <= k ==> DepthAt(s, i) >= 1
  }

  function Behind(source: string, openIndex: nat): string {
    if openIndex < |source| then source[openIndex + 1..] else ""
  }

  /** The index of the parenthesis that closes the one at `openIndex`, or -1 when nothing closes it. */
  method FindMatchingParen(source: string, openIndex: nat) returns (close: int)
    ensures close == -1 || (openIndex < close < |source| && Closes(Behind(source, openIndex), close - openIndex - 1))
    ensures close == -1 ==>
              forall i :: 0 <= i <= |Behind(source, openIndex)| ==> DepthAt(Behind(source, openIndex), i) >= 1
  {
    ghost var s := Behind(source, openIndex);
    var depth := 1;
    var quoteState := new QuoteScanState();
    var i := openIndex + 1;
    while i < |source|
      invariant openIndex + 1 <= i && (i <= |source| || s == "")
      invariant i <= |source| ==>
                depth == DepthAt(s, i - openIndex - 1) && quoteState.State() == QuoteAt(s, i - openIndex - 1)
      invariant fresh(quoteState)
      invariant i <= |source| ==> forall j :: 0 <= j <= i - openIndex - 1 ==> DepthAt(s, j) >= 1
    {
      var ch := source[i];
      ghost var at := i - openIndex - 1;
      assert s[at] == ch;
      i := i + 1;
      var quoted := quoteState.Consume(ch);
      if quoted {
        continue;
      }
      var begun := quoteState.Begin(ch);
      if begun {
        continue;
      }
      assert IsCode(s, at);
      if ch == '(' {
        depth := depth + 1;
        continue;
      }
      if ch == ')' {
        depth := depth - 1;
        if depth == 0 {
          return i - 1;
        }
      }
    }
    return -1;
  }

  // ---------- splitting arguments ----------

  function Up(n: nat, open: bool, close: bool): nat {
    if open then n + 1 else if close && n > 0 then n - 1 else n
  }

  /** A bracket counter of the splitter after `i` characters; unmatched closers do not count. */
  function Level(s: string, i: nat, open: char, close: char): nat
    requires i <= |s|
  {
    if i == 0 then 0
    else if !IsCode(s, i - 1) then Level(s, i - 1, open, close)
    else Up(Level(s, i - 1, open, close), s[i - 1] == open, s[i - 1] == close)
  }

  /** A comma that separates arguments. */
  predicate IsCut(s: string, i: nat)
    requires i < |s|
  {
    s[i] == ',' && IsCode(s, i) && Level(s, i, '(', ')') == 0 && Level(s, i, '[', ']') == 0
      && Level(s, i, '{', '}') == 0
  }

  /** The positions of the separating commas among the first `i` characters. */
  function Cuts(s: string, i: nat): (cuts: seq<nat>)
    requires i <= |s|
    ensures forall k :: 0 <= k < |cuts| ==> cuts[k] < i && IsCut(s, cuts[k])
  {
    if i == 0 then [] else Cuts(s, i - 1) + if IsCut(s, i - 1) then [i - 1] else []
  }

  /** Where the `k`-th argument starts. */
  function PieceStart(cuts: seq<nat>, k: nat): nat
    requires k <= |cuts|
  {
    if k == 0 then 0 else cuts[k - 1] + 1
  }

  /** The text of the `k`-th finished argument. */
  function Piece(s: string, cuts: seq<nat>, k: nat): string
    requires k < |cuts| && PieceStart(cuts, k) <= cuts[k] <= |s|
  {
    s[PieceStart(cuts, k)..cuts[k]]
  }

  ghost predicate Ordered(cuts: seq<nat>, n: nat) {
    && (forall j, k :: 0 <= j < k < |cuts| ==> cuts[j] < cuts[k])
    && (forall k :: 0 <= k < |cuts| ==> cuts[k] < n)
  }

  lemma {:induction false} CutsOrdered(s: string, i: nat)
    requires i <= |s|
    ensures Ordered(Cuts(s, i), i)
    ensures forall j :: 0 <= j < i && IsCut(s, j) ==> j in Cuts(s, i)
  {
    if i > 0 {
      CutsOrdered(s, i - 1);
      forall j | 0 <= j < i && IsCut(s, j) ensures j in Cuts(s, i) {
        if j < i - 1 {
          assert j in Cuts(s, i - 1);
        }
      }
    }
  }

  /** The trimmed arguments before the last separating comma. */
  function Finished(s: string, cuts: seq<nat>, n: nat): seq<string>
    requires n <= |cuts| && Ordered(cuts, |s|)
  {
    seq(n, k requires 0 <= k < n => Trim(Piece(s, cuts, k)))
  }

  /** The text behind the last separating comma. */
  function Tail(s: string, cuts: seq<nat>, i: nat): string
    requires i <= |s| && Ordered(cuts, i)
  {
    s[PieceStart(cuts, |cuts|)..i]
  }

  /** What the splitter returns: every argument trimmed, the last one only if it is not blank. */
  ghost function Arguments(s: string): seq<string> {
    var cuts := Cuts(s, |s|);
    CutsOrdered(s, |s|);
    Finished(s, cuts, |cuts|) + if Trim(Tail(s, cuts, |s|)) == "" then [] else [Trim(Tail(s, cuts, |s|))]
  }

  lemma FinishedExtend(s: string, cuts: seq<nat>, i: nat)
    requires i < |s| && Ordered(cuts, i)
    ensures Ordered(cuts, |s|) && Ordered(cuts + [i], |s|) && Ordered(cuts + [i], i + 1)
    ensures Finished(s, cuts + [i], |cuts| + 1) == Finished(s, cuts, |cuts|) + [Trim(Tail(s, cuts, i))]
    ensures Tail(s, cuts + [i], i + 1) == ""
  {
    var b := cuts + [i];
    assert forall k :: 0 <= k < |cuts| ==> b[k] == cuts[k];
    var old', new' := Finished(s, cuts, |cuts|), Finished(s, b, |b|);
    forall k | 0 <= k < |cuts| ensures new'[k] == old'[k] {
      assert Piece(s, b, k) == Piece(s, cuts, k);
    }
    assert Piece(s, b, |cuts|) == Tail(s, cuts, i);
  }

  lemma FinishedSnoc(s: string, i: nat)
    requires i < |s| && IsCut(s, i)
    ensures Ordered(Cuts(s, i), i) && Ordered(Cuts(s, i), |s|)
    ensures Ordered(Cuts(s, i + 1), i + 1) && Ordered(Cuts(s, i + 1), |s|)
    ensures Finished(s, Cuts(s, i + 1), |Cuts(s, i + 1)|) ==
            Finished(s, Cuts(s, i), |Cuts(s, i)|) + [Trim(Tail(s, Cuts(s, i), i))]
    ensures Tail(s, Cuts(s, i + 1), i + 1) == ""
  {
    CutsOrdered(s, i);
    FinishedExtend(s, Cuts(s, i), i);
    assert Cuts(s, i + 1) == Cuts(s, i) + [i];
  }

  lemma TailSnoc(s: string, i: nat)
    requires i < |s| && !IsCut(s, i)
    ensures Ordered(Cuts(s, i), i) && Ordered(Cuts(s, i + 1), i + 1) && Cuts(s, i + 1) == Cuts(s, i)
    ensures Tail(s, Cuts(s, i + 1), i + 1) == Tail(s, Cuts(s, i), i) + [s[i]]
  {
    CutsOrdered(s, i);
    CutsOrdered(s, i + 1);
  }

  /** `splitTopLevelArguments` */
  method SplitTopLevelArguments(source: string) returns (out: seq<string>)
    ensures out == Arguments(source)
  {
    out := [];
    var current := "";
    var parenDepth, bracketDepth, braceDepth := 0, 0, 0;
    var quoteState := new QuoteScanState();
    CutsOrdered(source, 0);
    for i := 0 to |source|
      invariant fresh(quoteState) && quoteState.State() == QuoteAt(source, i)
      invariant parenDepth == Level(source, i, '(', ')')
      invariant bracketDepth == Level(source, i, '[', ']') && braceDepth == Level(source, i, '{', '}')
      invariant Ordered(Cuts(source, i), i) && Ordered(Cuts(source, i), |source|)
      invariant out == Finished(source, Cuts(source, i), |Cuts(source, i)|)
      invariant current == Tail(source, Cuts(source, i), i)
    {
      var ch := source[i];
      if IsCut(source, i) { FinishedSnoc(source, i); } else { TailSnoc(source, i); }
      if quoteState.quote.Some? {
        current := current + [ch];
        var _ := quoteState.Consume(ch);
        continue;
      }
      var begun := quoteState.Begin(ch);
      if begun {
        current := current + [ch];
        continue;
      }
      if ch == '(' {
        parenDepth := parenDepth + 1;
      } else if ch == ')' {
        parenDepth := if parenDepth > 0 then parenDepth - 1 else parenDepth;
      } else if ch == '[' {
        bracketDepth := bracketDepth + 1;
      } else if ch == ']' {
        bracketDepth := if bracketDepth > 0 then bracketDepth - 1 else bracketDepth;
      } else if ch == '{' {
        braceDepth := braceDepth + 1;
      } else if ch == '}' {
        braceDepth := if braceDepth > 0 then braceDepth - 1 else braceDepth;
      } else if ch == ',' && parenDepth == 0 && bracketDepth == 0 && braceDepth == 0 {
        out := out + [Trim(current)];
        current := "";
        continue;
      }
      current := current + [ch];
    }
    if Trim(current) != "" {
      out := out + [Trim(current)];
    }
  }

  // ---------- nothing is lost between the pieces ----------

  /** The arguments as they stand in the text, before trimming. */
  function RawPieces(s: string, cuts: seq<nat>, n: nat): seq<string>
    requires n <= |cuts| && Ordered(cuts, |s|)
  {
    seq(n, k requires 0 <= k < n => Piece(s, cuts, k))
  }

  function JoinCommas(pieces: seq<string>): string {
    if pieces == [] then ""
    else if |pieces| == 1 then pieces[0]
    else JoinCommas(pieces[..|pieces| - 1]) + "," + pieces[|pieces| - 1]
  }

  lemma {:induction false} JoinRaw(s: string, cuts: seq<nat>, n: nat)
    requires 1 <= n <= |cuts| && Ordered(cuts, |s|) && forall k :: 0 <= k < |cuts| ==> s[cuts[k]] == ','
    ensures JoinCommas(RawPieces(s, cuts, n)) == s[..cuts[n - 1]]
  {
    var ps := RawPieces(s, cuts, n);
    if n > 1 {
      JoinRaw(s, cuts, n - 1);
      assert ps[..n - 1] == RawPieces(s, cuts, n - 1);
      assert s[..cuts[n - 2]] + "," == s[..cuts[n - 2] + 1];
      assert s[..cuts[n - 2] + 1] + s[cuts[n - 2] + 1..cuts[n - 1]] == s[..cuts[n - 1]];
    }
  }

  lemma JoinSnoc(pieces: seq<string>, last: string)
    ensures JoinCommas(pieces + [last]) == if pieces == [] then last else JoinCommas(pieces) + "," + last
  {
    assert (pieces + [last])[..|pieces|] == pieces;
  }

  lemma CutInTwo(s: string, i: nat)
    requires i < |s| && s[i] == ','
    ensures s[..i] + "," + s[i + 1..] == s
  {
  }

  lemma RejoinAll(s: string, cuts: seq<nat>)
    requires Ordered(cuts, |s|) && forall k :: 0 <= k < |cuts| ==> s[cuts[k]] == ','
    ensures JoinCommas(RawPieces(s, cuts, |cuts|) + [Tail(s, cuts, |s|)]) == s
  {
    var n := |cuts|;
    JoinSnoc(RawPieces(s, cuts, n), Tail(s, cuts, |s|));
    if n > 0 {
      JoinRaw(s, cuts, n);
      CutInTwo(s, cuts[n - 1]);
    }
  }

  /** Rejoined with commas the pieces give back the text. */
  lemma PiecesRejoin(s: string)
    ensures Ordered(Cuts(s, |s|), |s|)
    ensures JoinCommas(RawPieces(s, Cuts(s, |s|), |Cuts(s, |s|)|) + [Tail(s, Cuts(s, |s|), |s|)]) == s
  {
    CutsOrdered(s, |s|);
    RejoinAll(s, Cuts(s, |s|));
  }

  // ---------- the two scanners run in lock step ----------

  lemma {:induction false} PrefixSame(s: string, t: string, i: nat)
    requires s <= t && i <= |s|
    ensures QuoteAt(s, i) == QuoteAt(t, i)
  {
    if i > 0 {
      PrefixSame(s, t, i - 1);
    }
  }

  /** Between an opening parenthesis and the one that closes it, the splitter's counter is the matcher's depth
      less one; no closing parenthesis meets a zero counter. */
  lemma {:induction false} LockStep(t: string, k: nat, i: nat)
    requires Closes(t, k) && i <= k
    ensures QuoteAt(t[..k], i) == QuoteAt(t, i)
    ensures Level(t[..k], i, '(', ')') == DepthAt(t, i) - 1
    ensures i < k && IsCode(t[..k], i) && t[i] == ')' ==> Level(t[..k], i, '(', ')') > 0
  {
    PrefixSame(t[..k], t, i);
    if i > 0 {
      LockStep(t, k, i - 1);
      assert t[..k][i - 1] == t[i - 1];
    }
    if i < k {
      assert DepthAt(t, i + 1) >= 1;
    }
  }

  /** The slice that `hasDynamicTmpdirJoin` cuts out ends outside quotes with all its parentheses matched. */
  lemma SliceIsBalanced(source: string, openIndex: nat, close: nat)
    requires openIndex < close < |source| && Closes(Behind(source, openIndex), close - openIndex - 1)
    ensures var slice := source[openIndex + 1..close];
            && QuoteAt(slice, |slice|) == Outside
            && Level(slice, |slice|, '(', ')') == 0
            && (forall i :: 0 <= i < |slice| && IsCode(slice, i) && slice[i] == ')' ==> Level(slice, i, '(', ')') > 0)
            && source[close] == ')'
  {
    var t, k := Behind(source, openIndex), close - openIndex - 1;
    var slice := source[openIndex + 1..close];
    assert slice == t[..k];
    forall i | 0 <= i < |slice| && IsCode(slice, i) && slice[i] == ')' ensures Level(slice, i, '(', ')') > 0 {
      LockStep(t, k, i);
    }
    LockStep(t, k, k);
    ClosingChar(t, k);
    assert t[k] == source[close];
  }

  lemma ClosingChar(t: string, k: nat)
    requires Closes(t, k)
    ensures t[k] == ')' && QuoteAt(t, k) == Outside && DepthAt(t, k) == 1
  {
    assert DepthAt(t, k) >= 1;
    EscapedInside(t, k);
  }

  lemma {:induction false} EscapedInside(s: string, i: nat)
    requires i <= |s|
    ensures QuoteAt(s, i).escaped ==> QuoteAt(s, i).quote.Some?
  {
    if i > 0 {
      EscapedInside(s, i - 1);
    }
  }

  // ---------- what counts as code ----------

  /** A character inside a quotation, or one behind a backslash. */
  datatype Atom = Char(c: char) | Escape(c: char)

  /** A character of code, or a whole quotation. */
  datatype Token = Plain(c: char) | Quoted(q: char, body: seq<Atom>)

  predicate ValidAtom(a: Atom, q: char) {
    a.Char? ==> a.c != q && a.c != '\\'
  }

  predicate ValidToken(t: Token) {
    match t
    case Plain(c) => c != '\'' && c != '"' && c != '`'
    case Quoted(q, body) =>
      (q == '\'' || q == '"' || q == '`') && forall i :: 0 <= i < |body| ==> ValidAtom(body[i], q)
  }

  ghost predicate ValidTokens(ts: seq<Token>) {
    forall i :: 0 <= i < |ts| ==> ValidToken(ts[i])
  }

  function Spelling(body: seq<Atom>): string {
    if body == [] then ""
    else
      var a := body[|body| - 1];
      Spelling(body[..|body| - 1]) + if a.Char? then [a.c] else ['\\', a.c]
  }

  function TokenText(t: Token): string {
    match t
    case Plain(c) => [c]
    case Quoted(q, body) => [q] + Spelling(body) + [q]
  }

  function Text(ts: seq<Token>): string {
    if ts == [] then "" else Text(ts[..|ts| - 1]) + TokenText(ts[|ts| - 1])
  }

  lemma OneMore(s: string, i: nat)
    requires i < |s|
    ensures QuoteAt(s, i + 1) == Feed(QuoteAt(s, i), s[i])
  {
  }

  /** Inside a quotation, whole atoms leave the scanner inside it and not escaped. */
  lemma {:induction false} InsideQuotation(s: string, at: nat, q: char, body: seq<Atom>)
    requires at + |Spelling(body)| <= |s| && s[at..at + |Spelling(body)|] == Spelling(body)
    requires QuoteAt(s, at) == Quote(Some(q), false) && forall i :: 0 <= i < |body| ==> ValidAtom(body[i], q)
    ensures QuoteAt(s, at + |Spelling(body)|) == Quote(Some(q), false)
    decreases |body|
  {
    if body != [] {
      var init, a := body[..|body| - 1], body[|body| - 1];
      var k := at + |Spelling(init)|;
      assert s[at..k] == s[at..at + |Spelling(body)|][..|Spelling(init)|];
      InsideQuotation(s, at, q, init);
      assert s[k] == s[at..at + |Spelling(body)|][|Spelling(init)|];
      OneMore(s, k);
      if a.Escape? {
        assert s[k + 1] == s[at..at + |Spelling(body)|][|Spelling(init)| + 1];
        OneMore(s, k + 1);
      }
    }
  }

  lemma SliceOfSlice(s: string, k: nat, n: nat, a: nat, b: nat)
    requires k + n <= |s| && a <= b <= n
    ensures s[k..k + n][a..b] == s[k + a..k + b]
  {
    var t := s[k..k + n];
    var u, v := t[a..b], s[k + a..k + b];
    assert forall i :: 0 <= i < |u| ==> u[i] == v[i];
  }

  lemma BehindToken(s: string, k: nat, t: Token)
    requires ValidToken(t) && k + |TokenText(t)| <= |s| && s[k..k + |TokenText(t)|] == TokenText(t)
    requires QuoteAt(s, k) == Outside
    ensures QuoteAt(s, k + |TokenText(t)|) == Outside
  {
    var text := TokenText(t);
    assert s[k] == s[k..k + |text|][0];
    OneMore(s, k);
    if t.Quoted? {
      var n := |Spelling(t.body)|;
      SliceOfSlice(s, k, |text|, 1, 1 + n);
      assert text[1..1 + n] == Spelling(t.body);
      InsideQuotation(s, k + 1, t.q, t.body);
      assert s[k + 1 + n] == s[k..k + |text|][n + 1];
      OneMore(s, k + 1 + n);
    }
  }

  lemma PrefixParts(a: string, b: string, s: string)
    requires a + b <= s
    ensures a <= s && s[|a|..|a| + |b|] == b
  {
    assert s[..|a| + |b|] == a + b;
    assert a == s[..|a|];
  }

  lemma BehindStep(s: string, a: string, t: Token)
    requires ValidToken(t) && a + TokenText(t) <= s && QuoteAt(s, |a|) == Outside
    ensures QuoteAt(s, |a + TokenText(t)|) == Outside
  {
    PrefixParts(a, TokenText(t), s);
    BehindToken(s, |a|, t);
  }

  /** Behind whole tokens the scanner is outside. */
  lemma {:induction false} BehindTokens(s: string, ts: seq<Token>)
    requires ValidTokens(ts) && Text(ts) <= s
    ensures QuoteAt(s, |Text(ts)|) == Outside
    decreases |ts|
  {
    if ts != [] {
      var init, t := ts[..|ts| - 1], ts[|ts| - 1];
      var a := Text(init);
      assert a + TokenText(t) <= s && a <= s;
      BehindTokens(s, init);
      BehindStep(s, a, t);
    }
  }

  /** What stands before a position: whole tokens, and an unfinished quotation if the scanner is inside one. */
  datatype Parse = Parse(tokens: seq<Token>, body: seq<Atom>)

  ghost predicate Parses(p: Parse, text: string, q: Quote) {
    && ValidTokens(p.tokens)
    && match q.quote
       case None => !q.escaped && text == Text(p.tokens)
       case Some(c) =>
         && IsQuote(c) && (forall i :: 0 <= i < |p.body| ==> ValidAtom(p.body[i], c))
         && text == Text(p.tokens) + [c] + Spelling(p.body) + if q.escaped then ['\\'] else []
  }

  lemma TextSnoc(ts: seq<Token>, t: Token)
    ensures Text(ts + [t]) == Text(ts) + TokenText(t)
  {
    assert (ts + [t])[..|ts|] == ts;
  }

  lemma SpellingSnoc(body: seq<Atom>, a: Atom)
    ensures Spelling(body + [a]) == Spelling(body) + if a.Char? then [a.c] else ['\\', a.c]
  {
    assert (body + [a])[..|body|] == body;
  }

  lemma ParseNext(p: Parse, text: string, q: Quote, ch: char) returns (r: Parse)
    requires Parses(p, text, q)
    ensures Parses(r, text + [ch], Feed(q, ch))
  {
    if q.quote.None? {
      if IsQuote(ch) {
        r := Parse(p.tokens, []);
      } else {
        TextSnoc(p.tokens, Plain(ch));
        r := Parse(p.tokens + [Plain(ch)], []);
      }
    } else {
      r := ParseInside(p, text, q, ch);
    }
  }

  lemma ParseInside(p: Parse, text: string, q: Quote, ch: char) returns (r: Parse)
    requires Parses(p, text, q) && q.quote.Some?
    ensures Parses(r, text + [ch], Feed(q, ch))
  {
    var c := q.quote.value;
    if q.escaped {
      r := p.(body := p.body + [Escape(ch)]);
      AtomDone(p, c, Escape(ch));
      assert text + [ch] == Text(p.tokens) + [c] + Spelling(p.body) + ['\\', ch];
    } else if ch == '\\' {
      r := p;
    } else if ch == c {
      TextSnoc(p.tokens, Quoted(c, p.body));
      r := Parse(p.tokens + [Quoted(c, p.body)], []);
      Closing(Text(p.tokens), c, Spelling(p.body));
    } else {
      r := p.(body := p.body + [Char(ch)]);
      AtomDone(p, c, Char(ch));
    }
  }

  lemma Closing(before: string, c: char, body: string)
    ensures before + [c] + body + [] + [c] == before + ([c] + body + [c])
  {
  }

  lemma AtomDone(p: Parse, c: char, a: Atom)
    ensures Text(p.tokens) + [c] + Spelling(p.body + [a]) + [] ==
            Text(p.tokens) + [c] + Spelling(p.body) + if a.Char? then [a.c] else ['\\', a.c]
  {
    SpellingSnoc(p.body, a);
  }

  lemma {:induction false} ParseExists(s: string, i: nat) returns (p: Parse)
    requires i <= |s|
    ensures Parses(p, s[..i], QuoteAt(s, i))
  {
    if i == 0 {
      p := Parse([], []);
    } else {
      var before := ParseExists(s, i - 1);
      p := ParseNext(before, s[..i - 1], QuoteAt(s, i - 1), s[i - 1]);
      assert s[..i - 1] + [s[i - 1]] == s[..i];
    }
  }

  /** In every text, a character is code iff what stands before it is made of code and whole quotations, in which
      backslashes escape, and it begins no quotation itself. */
  lemma CodeMeans(s: string, i: nat)
    requires i < |s|
    ensures IsCode(s, i) <==>
            && s[i] != '\'' && s[i] != '"' && s[i] != '`'
            && exists ts :: ValidTokens(ts) && Text(ts) == s[..i]
  {
    if IsCode(s, i) {
      var p := ParseExists(s, i);
      assert ValidTokens(p.tokens) && Text(p.tokens) == s[..i];
    }
    if ts :| ValidTokens(ts) && Text(ts) == s[..i] {
      BehindTokens(s, ts);
    }
  }

  // ---------- where arguments are separated ----------

  /** Openers less closers in the code of `s[j..i]`. */
  function Surplus(s: string, j: nat, i: nat, open: char, close: char): int
    requires j <= i <= |s|
  {
    (CountCode(s, i, open) - CountCode(s, j, open)) - (CountCode(s, i, close) - CountCode(s, j, close))
  }

  /** A counter that ignores unmatched closers is the greatest surplus of openers up to here. */
  lemma {:induction false} LevelIsSurplus(s: string, i: nat, open: char, close: char)
    requires i <= |s| && open != close
    ensures forall j :: 0 <= j <= i ==> Surplus(s, j, i, open, close) <= Level(s, i, open, close)
    ensures exists j :: 0 <= j <= i && Surplus(s, j, i, open, close) == Level(s, i, open, close)
  {
    if i == 0 {
      assert Surplus(s, 0, 0, open, close) == 0;
    } else {
      LevelIsSurplus(s, i - 1, open, close);
      var j :| 0 <= j <= i - 1 && Surplus(s, j, i - 1, open, close) == Level(s, i - 1, open, close);
      assert Surplus(s, i, i, open, close) == 0;
      assert forall k :: 0 <= k < i ==>
          Surplus(s, k, i, open, close) == Surplus(s, k, i - 1, open, close) + Surplus(s, i - 1, i, open, close);
      assert Surplus(s, j, i, open, close) == Level(s, i, open, close) || Level(s, i, open, close) == 0;
    }
  }

  /** No bracket of this kind is open: no part of the text up to here has more openers than closers. */
  ghost predicate NoneOpen(s: string, i: nat, open: char, close: char)
    requires i <= |s|
  {
    forall j :: 0 <= j <= i ==>
      CountCode(s, i, open) - CountCode(s, j, open) <= CountCode(s, i, close) - CountCode(s, j, close)
  }

  lemma LevelZero(s: string, i: nat, open: char, close: char)
    requires i <= |s| && open != close
    ensures Level(s, i, open, close) == 0 <==> NoneOpen(s, i, open, close)
  {
    LevelIsSurplus(s, i, open, close);
    if NoneOpen(s, i, open, close) {
      var j :| 0 <= j <= i && Surplus(s, j, i, open, close) == Level(s, i, open, close);
      assert CountCode(s, i, open) - CountCode(s, j, open) <= CountCode(s, i, close) - CountCode(s, j, close);
    } else {
      var j :| 0 <= j <= i
        && CountCode(s, i, open) - CountCode(s, j, open) > CountCode(s, i, close) - CountCode(s, j, close);
      assert Surplus(s, j, i, open, close) > 0;
    }
  }

  /** Arguments are separated exactly at the commas of the code that stand in no parenthesis, bracket or brace. */
  lemma CutMeans(s: string, i: nat)
    requires i < |s|
    ensures i in Cuts(s, |s|) <==>
            && s[i] == ',' && IsCode(s, i)
            && NoneOpen(s, i, '(', ')') && NoneOpen(s, i, '[', ']') && NoneOpen(s, i, '{', '}')
  {
    CutsOrdered(s, |s|);
    LevelZero(s, i, '(', ')');
    LevelZero(s, i, '[', ']');
    LevelZero(s, i, '{', '}');
  }

  /** The text between the cut before the `k`-th argument and the cut behind it, or the end of the text. */
  function Between(s: string, cuts: seq<nat>, k: nat): string
    requires k <= |cuts| && Ordered(cuts, |s|)
  {
    s[if k == 0 then 0 else cuts[k - 1] + 1..if k < |cuts| then cuts[k] else |s|]
  }

  lemma FinishedAt(s: string, cuts: seq<nat>)
    requires Ordered(cuts, |s|)
    ensures var done := Finished(s, cuts, |cuts|);
            |done| == |cuts| && forall k :: 0 <= k < |cuts| ==> done[k] == Trim(Between(s, cuts, k))
    ensures Tail(s, cuts, |s|) == Between(s, cuts, |cuts|)
  {
    var done := Finished(s, cuts, |cuts|);
    forall k | 0 <= k < |cuts| ensures done[k] == Trim(Between(s, cuts, k)) {
      assert Piece(s, cuts, k) == Between(s, cuts, k);
    }
  }

  /** The arguments are the trimmed texts between the cuts; the one behind the last cut is left out if blank. */
  lemma ArgumentsAre(s: string)
    ensures var cuts, out := Cuts(s, |s|), Arguments(s);
            && Ordered(cuts, |s|)
            && |out| == |cuts| + (if IsBlank(Between(s, cuts, |cuts|)) then 0 else 1)
            && forall k :: 0 <= k < |out| ==> out[k] == Trim(Between(s, cuts, k))
  {
    var cuts := Cuts(s, |s|);
    CutsOrdered(s, |s|);
    FinishedAt(s, cuts);
    TrimBlank(Tail(s, cuts, |s|));
  }
}
