/** Rewriting the lines between two markers of a document. */
module BlockRewrite {
  import opened Wrappers

  datatype Result = Ok(text: string) | MissingStart | MissingEnd

  predicate Occurs(text: string, part: string, i: nat) {
    i + |part| <= |text| && text[i..i + |part|] == part
  }

  /** `text.indexOf(part, from)` */
  function Find(text: string, part: string, from: nat): (r: Option<nat>)
    ensures r.Some? ==> from <= r.value <= |text| - |part|
    decreases |text| - from
  {
    if from + |part| > |text| then None else if Occurs(text, part, from) then Some(from) else Find(text, part, from + 1)
  }

  /** The position behind the last newline among the first `n` characters. */
  function LineStart(text: string, n: nat): (r: nat)
    requires n <= |text|
    ensures r <= n && forall i :: r <= i < n ==> text[i] != '\n'
    ensures r > 0 ==> text[r - 1] == '\n'
  {
    if n == 0 || text[n - 1] == '\n' then n else LineStart(text, n - 1)
  }

  /** The position behind the first newline at or after `from`, or the end of the text. */
  function LineEnd(text: string, from: nat): (r: nat)
    requires from <= |text|
    ensures from <= r <= |text|
    decreases |text| - from
  {
    if from == |text| then from else if text[from] == '\n' then from + 1 else LineEnd(text, from + 1)
  }

  function Slice(text: string, a: nat, b: nat): string
    requires b <= |text|
  {
    if a < b then text[a..b] else ""
  }

  /** Each line with its newline. */
  function Lines(ls: seq<string>): string {
    if ls == [] then "" else ls[0] + "\n" + Lines(ls[1..])
  }

  function Indented(indent: string, ls: seq<string>): (r: seq<string>)
    ensures |r| == |ls| && forall i :: 0 <= i < |ls| ==> r[i] == indent + ls[i]
  {
    if ls == [] then [] else [indent + ls[0]] + Indented(indent, ls[1..])
  }

  /** The replacement lines joined with newlines. */
  function Block(indent: string, start: string, end: string, ls: seq<string>): string {
    indent + Lines([start] + Indented(indent, ls)) + (indent + end)
  }

  /** What stands in place of the lines from the one of `startIndex` to the one of `endIndex`. */
  function ReplaceBetween(text: string, startIndex: nat, endIndex: nat, start: string, end: string,
                          ls: seq<string>): string
    requires startIndex <= |text| && endIndex <= |text|
  {
    var from := LineStart(text, if startIndex < |text| then startIndex + 1 else |text|);
    var before, after := text[..from], text[LineEnd(text, endIndex)..];
    before + Block(Slice(text, from, startIndex), start, end, ls) + Tail(after)
  }

  function Tail(after: string): string {
    if after == "" then "" else "\n" + after
  }

  /** `replaceBlockLines` */
  function Replace(text: string, start: string, end: string, ls: seq<string>): Result {
    match Find(text, start, 0)
    case None => MissingStart
    case Some(startIndex) =>
      match Find(text, end, startIndex)
      case None => MissingEnd
      case Some(endIndex) => Ok(ReplaceBetween(text, startIndex, endIndex, start, end, ls))
  }

  // ---------- searching in lines ----------

  /** The search finds the first occurrence, if there is one. */
  lemma {:induction false} FindIsFirst(text: string, part: string, from: nat)
    ensures var r := Find(text, part, from);
            && (r.Some? ==> Occurs(text, part, r.value))
            && forall j :: from <= j && (r.Some? ==> j < r.value) ==> !Occurs(text, part, j)
    decreases |text| - from
  {
    if from + |part| <= |text| && !Occurs(text, part, from) {
      FindIsFirst(text, part, from + 1);
    }
  }

  predicate NewlineFree(s: string) {
    '\n' !in s
  }

  ghost predicate Contains(text: string, part: string) {
    exists i :: 0 <= i <= |text| && Occurs(text, part, i)
  }

  lemma FindAt(text: string, part: string, from: nat, i: nat)
    requires from <= i && Occurs(text, part, i) && forall j :: from <= j < i ==> !Occurs(text, part, j)
    ensures Find(text, part, from) == Some(i)
  {
    var r := Find(text, part, from);
    FindIsFirst(text, part, from);
    assert r.Some? && !(i < r.value) && !(r.value < i);
  }

  lemma OccursShift(p: string, y: string, part: string, j: nat)
    ensures Occurs(p + y, part, |p| + j) <==> Occurs(y, part, j)
  {
    if |p| + j + |part| <= |p + y| {
      assert (p + y)[|p| + j..|p| + j + |part|] == y[j..j + |part|];
    }
  }

  /** Searching behind a prefix is searching the rest. */
  lemma {:induction false} FindShifted(p: string, y: string, part: string, from: nat, at: nat, k: nat)
    requires at == |p| + from && Find(y, part, from) == Some(k)
    ensures Find(p + y, part, at) == Some(|p| + k)
    decreases |y| - from
  {
    OccursShift(p, y, part, from);
    if !Occurs(y, part, from) {
      FindShifted(p, y, part, from + 1, at + 1, k);
    }
  }

  lemma {:induction false} FindMissing(p: string, y: string, part: string, from: nat, at: nat)
    requires at == |p| + from && Find(y, part, from) == None
    ensures Find(p + y, part, at) == None
    decreases |y| - from
  {
    OccursShift(p, y, part, from);
    if from + |part| <= |y| {
      FindMissing(p, y, part, from + 1, at + 1);
    }
  }

  lemma {:induction false} LineEndShift(p: string, y: string, from: nat)
    requires from <= |y|
    ensures LineEnd(p + y, |p| + from) == |p| + LineEnd(y, from)
    decreases |y| - from
  {
    if from < |y| && y[from] != '\n' {
      LineEndShift(p, y, from + 1);
      assert |p| + from + 1 == |p| + (from + 1);
    }
  }

  lemma {:induction false} LineEndSkips(x: string, rest: string, from: nat)
    requires NewlineFree(x) && from <= |x|
    ensures LineEnd(x + "\n" + rest, from) == |x| + 1
    decreases |x| - from
  {
    var t := x + "\n" + rest;
    if from < |x| {
      assert t[from] == x[from];
      LineEndSkips(x, rest, from + 1);
    } else {
      assert t[from] == '\n';
    }
  }

  lemma {:induction false} LineEndLast(x: string, from: nat)
    requires NewlineFree(x) && from <= |x|
    ensures LineEnd(x, from) == |x|
    decreases |x| - from
  {
    if from < |x| {
      LineEndLast(x, from + 1);
    }
  }

  lemma NewlineInside(x: string, rest: string, part: string, j: nat)
    requires j <= |x| < j + |part| && Occurs(x + "\n" + rest, part, j)
    ensures '\n' in part
  {
    var t := x + "\n" + rest;
    assert t[|x|] == '\n' && t[j..j + |part|][|x| - j] == t[|x|];
    assert part[|x| - j] == '\n';
  }

  /** A text without newlines lies within one line: in the first, or in the rest. */
  lemma OneLine(x: string, rest: string, part: string, j: nat)
    requires NewlineFree(part) && part != "" && Occurs(x + "\n" + rest, part, j)
    ensures (j + |part| <= |x| && Occurs(x, part, j)) || (|x| + 1 <= j && Occurs(rest, part, j - |x| - 1))
  {
    var t := x + "\n" + rest;
    if j + |part| <= |x| {
      assert t[j..j + |part|] == x[j..j + |part|];
    } else if j <= |x| {
      NewlineInside(x, rest, part, j);
    } else {
      assert t == (x + "\n") + rest;
      OccursShift(x + "\n", rest, part, j - |x| - 1);
    }
  }

  /** If the first line does not hold the text sought, the first occurrence is that of the rest. */
  lemma FindSecond(x: string, y: string, part: string, k: nat)
    requires NewlineFree(part) && part != "" && !Contains(x, part) && Find(y, part, 0) == Some(k)
    ensures Find(x + "\n" + y, part, 0) == Some(|x| + 1 + k)
  {
    var t := x + "\n" + y;
    FindIsFirst(y, part, 0);
    forall j: nat | j < |x| + 1 + k ensures !Occurs(t, part, j) {
      NotBefore(x, y, part, k, j);
    }
    assert t == (x + "\n") + y;
    OccursShift(x + "\n", y, part, k);
    FindAt(t, part, 0, |x| + 1 + k);
  }

  lemma NotBefore(x: string, y: string, part: string, k: nat, j: nat)
    requires NewlineFree(part) && part != "" && !Contains(x, part) && Find(y, part, 0) == Some(k) && j < |x| + 1 + k
    ensures !Occurs(x + "\n" + y, part, j)
  {
    FindIsFirst(y, part, 0);
    if Occurs(x + "\n" + y, part, j) {
      OneLine(x, y, part, j);
    }
  }

  lemma LinesCons(ls: seq<string>, z: string)
    requires ls != []
    ensures Lines(ls) + z == ls[0] + "\n" + (Lines(ls[1..]) + z)
    ensures |Lines(ls)| == |ls[0]| + 1 + |Lines(ls[1..])|
  {
  }

  ghost predicate FoundAt(t: string, part: string, k: nat) {
    Find(t, part, 0) == Some(k)
  }

  lemma FoundAfter(x: string, y: string, part: string, k: nat)
    requires NewlineFree(part) && part != "" && !Contains(x, part) && FoundAt(y, part, k)
    ensures FoundAt(x + "\n" + y, part, |x| + 1 + k)
  {
    FindSecond(x, y, part, k);
  }

  /** Lines without the text sought are passed over. */
  lemma {:induction false} FindInLines(ls: seq<string>, z: string, part: string, k: nat)
    requires NewlineFree(part) && part != "" && (forall i :: 0 <= i < |ls| ==> !Contains(ls[i], part))
    requires FoundAt(z, part, k)
    ensures FoundAt(Lines(ls) + z, part, |Lines(ls)| + k)
  {
    if ls == [] {
      assert Lines(ls) + z == z;
    } else {
      LinesCons(ls, z);
      FindInLines(ls[1..], z, part, k);
      FoundAfter(ls[0], Lines(ls[1..]) + z, part, |Lines(ls[1..])| + k);
    }
  }

  /** The text sought is found among the first `n` characters, on a line that ends there too. */
  ghost predicate FoundWithin(t: string, part: string, n: nat) {
    var r := Find(t, part, 0);
    r.Some? && r.value <= n && LineEnd(t, r.value) <= n
  }

  lemma FoundInFirst(x: string, y: string, part: string, n: nat)
    requires NewlineFree(x) && Contains(x, part) && |x| + 1 <= n
    ensures FoundWithin(x + "\n" + y, part, n)
  {
    var t := x + "\n" + y;
    var i :| 0 <= i <= |x| && Occurs(x, part, i);
    assert t[i..i + |part|] == x[i..i + |part|];
    assert Occurs(t, part, i);
    FindIsFirst(t, part, 0);
    LineEndSkips(x, y, Find(t, part, 0).value);
  }

  lemma FoundLater(x: string, y: string, part: string, n: nat)
    requires NewlineFree(part) && part != "" && !Contains(x, part) && FoundWithin(y, part, n)
    ensures FoundWithin(x + "\n" + y, part, |x| + 1 + n)
  {
    var k := Find(y, part, 0).value;
    FindSecond(x, y, part, k);
    assert x + "\n" + y == (x + "\n") + y;
    LineEndShift(x + "\n", y, k);
  }

  lemma FoundInHead(ls: seq<string>, z: string, part: string)
    requires ls != [] && NewlineFree(ls[0]) && Contains(ls[0], part)
    ensures FoundWithin(Lines(ls) + z, part, |Lines(ls)|)
  {
    LinesCons(ls, z);
    FoundInFirst(ls[0], Lines(ls[1..]) + z, part, |Lines(ls)|);
  }

  lemma FoundInTail(ls: seq<string>, z: string, part: string)
    requires ls != [] && NewlineFree(part) && part != "" && !Contains(ls[0], part)
    requires FoundWithin(Lines(ls[1..]) + z, part, |Lines(ls[1..])|)
    ensures FoundWithin(Lines(ls) + z, part, |Lines(ls)|)
  {
    LinesCons(ls, z);
    FoundLater(ls[0], Lines(ls[1..]) + z, part, |Lines(ls[1..])|);
  }

  /** A line that holds the text sought stops the search, and its end lies within the lines. */
  lemma {:induction false} FoundInLines(ls: seq<string>, z: string, part: string, l: nat)
    requires NewlineFree(part) && part != "" && (forall i :: 0 <= i < |ls| ==> NewlineFree(ls[i]))
    requires l < |ls| && Contains(ls[l], part)
    ensures FoundWithin(Lines(ls) + z, part, |Lines(ls)|)
    decreases ls
  {
    if Contains(ls[0], part) {
      FoundInHead(ls, z, part);
    } else {
      assert ls[1..][l - 1] == ls[l];
      FoundInLines(ls[1..], z, part, l - 1);
      FoundInTail(ls, z, part);
    }
  }

  // ---------- the rewritten document ----------

  lemma {:induction false} LineStartPrefix(a: string, b: string, n: nat)
    requires n <= |a| && n <= |b| && a[..n] == b[..n]
    ensures LineStart(a, n) == LineStart(b, n)
  {
    if n > 0 {
      assert a[n - 1] == a[..n][n - 1] && b[n - 1] == b[..n][n - 1];
      assert a[..n - 1] == a[..n][..n - 1] && b[..n - 1] == b[..n][..n - 1];
      LineStartPrefix(a, b, n - 1);
    }
  }

  lemma ReplaceUnfolds(t: string, start: string, end: string, ls: seq<string>, at: nat, e: nat,
                       before: string, indent: string, after: string)
    requires Find(t, start, 0) == Some(at) && Find(t, end, at) == Some(e) && at < |t|
    requires t[..LineStart(t, at + 1)] == before && Slice(t, LineStart(t, at + 1), at) == indent
    requires t[LineEnd(t, e)..] == after
    ensures Replace(t, start, end, ls) == Ok(before + Block(indent, start, end, ls) + Tail(after))
  {
  }

  lemma SplitFacts(t: string, start: string, before: string, indent: string, y: string)
    requires SplitsAt(t, start, before, indent, y)
    ensures |before + indent| < |t| && t[..|before|] == before && Slice(t, |before|, |before + indent|) == indent
  {
  }

  lemma AfterShift(p: string, y: string, k: nat)
    requires k <= |y|
    ensures (p + y)[LineEnd(p + y, |p| + k)..] == y[LineEnd(y, k)..]
  {
    LineEndShift(p, y, k);
  }

  /** The rewriter on a document split at its start marker. */
  lemma ReplaceAt(t: string, before: string, indent: string, y: string, start: string, end: string, ls: seq<string>,
                  k: nat)
    requires SplitsAt(t, start, before, indent, y) && Find(y, end, 0) == Some(k)
    ensures Replace(t, start, end, ls) == Ok(before + Block(indent, start, end, ls) + Tail(y[LineEnd(y, k)..]))
  {
    var p := before + indent;
    FindShifted(p, y, end, 0, |p|, k);
    AfterShift(p, y, k);
    SplitFacts(t, start, before, indent, y);
    ReplaceUnfolds(t, start, end, ls, |p|, |p| + k, before, indent, y[LineEnd(y, k)..]);
  }

  /** A document split at its start marker. */
  ghost predicate SplitsAt(text: string, start: string, before: string, indent: string, rest: string) {
    && text == before + indent + rest && start <= rest && start != ""
    && Find(text, start, 0) == Some(|before + indent|)
    && LineStart(text, |before + indent| + 1) == |before|
  }

  lemma SplitExists(text: string, start: string) returns (before: string, indent: string, rest: string)
    requires Find(text, start, 0).Some? && start != "" && NewlineFree(start)
    ensures SplitsAt(text, start, before, indent, rest) && NewlineFree(indent)
  {
    var at := Find(text, start, 0).value;
    FindIsFirst(text, start, 0);
    assert text[at] == text[at..at + |start|][0] == start[0];
    var from := LineStart(text, at + 1);
    before, indent, rest := text[..from], text[from..at], text[at..];
    assert text == before + indent + rest && |before + indent| == at;
    assert start == rest[..|start|];
  }

  /** Whatever replaces the rest, as long as it begins with the marker, the marker is found in the same place. */
  lemma SplitStays(text: string, start: string, before: string, indent: string, rest: string, y: string)
    requires SplitsAt(text, start, before, indent, rest) && start <= y
    ensures SplitsAt(before + indent + y, start, before, indent, y)
  {
    var p := before + indent;
    var t, n := p + y, |p| + |start|;
    assert t[..n] == p + start && text[..n] == p + start;
    FindIsFirst(text, start, 0);
    forall j: nat | j < |p| ensures !Occurs(t, start, j) {
      assert !Occurs(text, start, j);
      assert t[j..j + |start|] == t[..n][j..j + |start|] && text[j..j + |start|] == text[..n][j..j + |start|];
    }
    assert t[|p|..n] == start;
    FindAt(t, start, 0, |p|);
    assert t[..|p| + 1] == t[..n][..|p| + 1] && text[..|p| + 1] == text[..n][..|p| + 1];
    LineStartPrefix(t, text, |p| + 1);
  }

  /** The end marker is first found at `k`, and `after` stands behind the line it is on. */
  ghost predicate EndsAt(y: string, end: string, k: nat, after: string) {
    Find(y, end, 0) == Some(k) && y[LineEnd(y, k)..] == after
  }

  /** The end marker with what follows its line. */
  lemma EndLine(indent: string, end: string, after: string) returns (m: nat)
    requires NewlineFree(indent) && NewlineFree(end) && end != ""
    ensures EndsAt(indent + end + Tail(after), end, m, after) && m <= |indent|
  {
    var z, x := indent + end + Tail(after), indent + end;
    assert z[|indent|..|indent| + |end|] == end;
    assert Occurs(z, end, |indent|);
    FindIsFirst(z, end, 0);
    m := Find(z, end, 0).value;
    if after == "" {
      assert z == x;
      LineEndLast(x, m);
    } else {
      assert z == x + "\n" + after;
      LineEndSkips(x, after, m);
    }
  }

  /** The rewritten document from its start marker on. */
  function Rewritten(indent: string, start: string, end: string, ls: seq<string>, after: string): string {
    Lines([start] + Indented(indent, ls)) + (indent + end + Tail(after))
  }

  /** No line of the new block before the last holds the end marker. */
  ghost predicate EndOnlyLast(indent: string, start: string, end: string, ls: seq<string>) {
    !Contains(start, end) && forall i :: 0 <= i < |ls| ==> !Contains(indent + ls[i], end)
  }

  ghost predicate SingleLines(start: string, end: string, ls: seq<string>) {
    && start != "" && end != "" && NewlineFree(start) && NewlineFree(end)
    && forall i :: 0 <= i < |ls| ==> NewlineFree(ls[i])
  }

  lemma EndsLater(ls: seq<string>, z: string, end: string, m: nat, after: string)
    requires NewlineFree(end) && end != "" && (forall i :: 0 <= i < |ls| ==> !Contains(ls[i], end))
    requires EndsAt(z, end, m, after)
    ensures EndsAt(Lines(ls) + z, end, |Lines(ls)| + m, after)
  {
    FindInLines(ls, z, end, m);
    AfterShift(Lines(ls), z, m);
  }

  lemma CleanEnd(indent: string, start: string, end: string, ls: seq<string>, after: string) returns (k: nat)
    requires SingleLines(start, end, ls) && NewlineFree(indent) && EndOnlyLast(indent, start, end, ls)
    ensures EndsAt(Rewritten(indent, start, end, ls, after), end, k, after)
    ensures |Lines([start] + Indented(indent, ls))| <= k <= |Lines([start] + Indented(indent, ls))| + |indent|
  {
    var m := EndLine(indent, end, after);
    k := |Lines([start] + Indented(indent, ls))| + m;
    AllClean(indent, start, end, ls);
    EndsLater([start] + Indented(indent, ls), indent + end + Tail(after), end, m, after);
  }

  lemma AllClean(indent: string, start: string, end: string, ls: seq<string>)
    requires EndOnlyLast(indent, start, end, ls)
    ensures var all := [start] + Indented(indent, ls); forall i :: 0 <= i < |all| ==> !Contains(all[i], end)
  {
    var all := [start] + Indented(indent, ls);
    forall i | 0 <= i < |all| ensures !Contains(all[i], end) {
      if i > 0 { assert all[i] == indent + ls[i - 1]; }
    }
  }

  lemma DirtyEnd(indent: string, start: string, end: string, ls: seq<string>, after: string) returns (k: nat)
    requires SingleLines(start, end, ls) && NewlineFree(indent) && !EndOnlyLast(indent, start, end, ls)
    ensures var y := Rewritten(indent, start, end, ls, after);
            Find(y, end, 0) == Some(k) && |y[LineEnd(y, k)..]| >= |indent + end + Tail(after)|
  {
    var all, z := [start] + Indented(indent, ls), indent + end + Tail(after);
    forall i | 0 <= i < |all| ensures NewlineFree(all[i]) {
    }
    var l := DirtyLine(indent, start, end, ls);
    FoundInLines(all, z, end, l);
    k := Find(Lines(all) + z, end, 0).value;
  }

  lemma DirtyLine(indent: string, start: string, end: string, ls: seq<string>) returns (l: nat)
    requires !EndOnlyLast(indent, start, end, ls)
    ensures l <= |ls| && Contains(([start] + Indented(indent, ls))[l], end)
  {
    if Contains(start, end) {
      l := 0;
    } else {
      var i :| 0 <= i < |ls| && Contains(indent + ls[i], end);
      l := i + 1;
    }
  }

  // ---------- main results ----------

  /** A rewritten document: the text before the start line, the block, and the text behind the end line. */
  function Document(before: string, indent: string, start: string, end: string, ls: seq<string>,
                    after: string): string {
    before + indent + Rewritten(indent, start, end, ls, after)
  }

  lemma DocumentIsBlock(before: string, indent: string, start: string, end: string, ls: seq<string>, after: string)
    ensures Document(before, indent, start, end, ls, after) == before + Block(indent, start, end, ls) + Tail(after)
  {
    Regroup(before, indent, Lines([start] + Indented(indent, ls)), end, Tail(after));
  }

  lemma Regroup(before: string, indent: string, lines: string, end: string, tail: string)
    ensures before + indent + (lines + (indent + end + tail)) == before + (indent + lines + (indent + end)) + tail
  {
  }

  lemma StartsRewritten(indent: string, start: string, end: string, ls: seq<string>, after: string)
    ensures start <= Rewritten(indent, start, end, ls, after)
  {
    var all := [start] + Indented(indent, ls);
    LinesCons(all, indent + end + Tail(after));
    assert all[0] == start;
  }

  lemma EndBehind(text: string, before: string, indent: string, rest: string, start: string, end: string,
                  ls: seq<string>)
    requires SplitsAt(text, start, before, indent, rest) && Replace(text, start, end, ls).Ok?
    ensures Find(rest, end, 0).Some?
  {
    if Find(rest, end, 0).None? {
      FindMissing(before + indent, rest, end, 0, |before + indent|);
    }
  }

  /** A successful rewrite keeps the text before the start line and the text behind the end line, and puts the block
      between them. */
  lemma ReplaceFrames(text: string, start: string, end: string, ls: seq<string>)
    returns (before: string, indent: string, rest: string, k: nat)
    requires Replace(text, start, end, ls).Ok? && start != "" && NewlineFree(start)
    ensures SplitsAt(text, start, before, indent, rest) && NewlineFree(indent) && Find(rest, end, 0) == Some(k)
    ensures Replace(text, start, end, ls) == Ok(Document(before, indent, start, end, ls, rest[LineEnd(rest, k)..]))
  {
    before, indent, rest := SplitExists(text, start);
    EndBehind(text, before, indent, rest, start, end, ls);
    k := Find(rest, end, 0).value;
    ReplaceAt(text, before, indent, rest, start, end, ls, k);
    DocumentIsBlock(before, indent, start, end, ls, rest[LineEnd(rest, k)..]);
  }

  lemma DocumentSplits(text: string, before: string, indent: string, rest: string, start: string, end: string,
                       ls: seq<string>, after: string)
    requires SplitsAt(text, start, before, indent, rest)
    ensures SplitsAt(Document(before, indent, start, end, ls, after), start, before, indent,
                     Rewritten(indent, start, end, ls, after))
  {
    StartsRewritten(indent, start, end, ls, after);
    SplitStays(text, start, before, indent, rest, Rewritten(indent, start, end, ls, after));
  }

  lemma CleanIsFixed(text: string, before: string, indent: string, rest: string, start: string, end: string,
                     ls: seq<string>, after: string)
    requires SplitsAt(text, start, before, indent, rest) && NewlineFree(indent)
    requires SingleLines(start, end, ls) && EndOnlyLast(indent, start, end, ls)
    ensures var t := Document(before, indent, start, end, ls, after); Replace(t, start, end, ls) == Ok(t)
  {
    var t, y := Document(before, indent, start, end, ls, after), Rewritten(indent, start, end, ls, after);
    DocumentSplits(text, before, indent, rest, start, end, ls, after);
    var k := CleanEnd(indent, start, end, ls, after);
    ReplaceAt(t, before, indent, y, start, end, ls, k);
    DocumentIsBlock(before, indent, start, end, ls, after);
  }

  lemma DirtyGrows(text: string, before: string, indent: string, rest: string, start: string, end: string,
                   ls: seq<string>, after: string)
    requires SplitsAt(text, start, before, indent, rest) && NewlineFree(indent)
    requires SingleLines(start, end, ls) && !EndOnlyLast(indent, start, end, ls)
    ensures var t := Document(before, indent, start, end, ls, after);
            Replace(t, start, end, ls).Ok? && |Replace(t, start, end, ls).text| > |t|
  {
    var t, y := Document(before, indent, start, end, ls, after), Rewritten(indent, start, end, ls, after);
    DocumentSplits(text, before, indent, rest, start, end, ls, after);
    var k := DirtyEnd(indent, start, end, ls, after);
    ReplaceAt(t, before, indent, y, start, end, ls, k);
    DocumentIsBlock(before, indent, start, end, ls, after);
  }

  /** Rewriting twice equals rewriting once iff the end marker occurs neither in the start marker nor in any
      indented line; otherwise every further pass makes the document longer. */
  lemma RewritingIsIdempotent(text: string, start: string, end: string, ls: seq<string>)
    requires Replace(text, start, end, ls).Ok? && SingleLines(start, end, ls)
    ensures var once := Replace(text, start, end, ls).text;
            var indent := Slice(text, LineStart(text, Find(text, start, 0).value), Find(text, start, 0).value);
            && Replace(once, start, end, ls).Ok?
            && (Replace(once, start, end, ls).text == once <==> EndOnlyLast(indent, start, end, ls))
            && (!EndOnlyLast(indent, start, end, ls) ==> |Replace(once, start, end, ls).text| > |once|)
  {
    var before, indent, rest, k := ReplaceFrames(text, start, end, ls);
    var after := rest[LineEnd(rest, k)..];
    IndentIs(text, start, before, indent, rest);
    if EndOnlyLast(indent, start, end, ls) {
      CleanIsFixed(text, before, indent, rest, start, end, ls, after);
    } else {
      DirtyGrows(text, before, indent, rest, start, end, ls, after);
    }
  }

  lemma IndentIs(text: string, start: string, before: string, indent: string, rest: string)
    requires SplitsAt(text, start, before, indent, rest) && NewlineFree(start)
    ensures Slice(text, LineStart(text, |before + indent|), |before + indent|) == indent
  {
    SplitFacts(text, start, before, indent, rest);
    assert text[|before + indent|] == rest[0] == start[0];
  }

  /** For a whitespace indent and an end marker that does not begin with one, only the lines themselves matter. */
  lemma IndentIsHarmless(indent: string, start: string, end: string, ls: seq<string>)
    requires end != "" && end[0] !in indent
    ensures EndOnlyLast(indent, start, end, ls) <==>
            !Contains(start, end) && forall i :: 0 <= i < |ls| ==> !Contains(ls[i], end)
  {
    forall i | 0 <= i < |ls| ensures Contains(indent + ls[i], end) <==> Contains(ls[i], end) {
      InLine(indent, ls[i], end);
    }
  }

  lemma InLine(indent: string, line: string, end: string)
    requires end != "" && end[0] !in indent
    ensures Contains(indent + line, end) <==> Contains(line, end)
  {
    if Contains(indent + line, end) {
      var j :| 0 <= j <= |indent + line| && Occurs(indent + line, end, j);
      assert (indent + line)[j] == end[0];
      OccursShift(indent, line, end, j - |indent|);
    }
    if Contains(line, end) {
      var j :| 0 <= j <= |line| && Occurs(line, end, j);
      OccursShift(indent, line, end, j);
    }
  }

  /** The lines of `y` strictly between its first line and the one position `k` is on. */
  ghost predicate HoldsBetween(y: string, k: nat, body: string) {
    k <= |y| && LineEnd(y, 0) <= LineStart(y, k) && y[LineEnd(y, 0)..LineStart(y, k)] == body
  }

  /** Reading the block back: between the start line and the line of the end marker stand exactly the given lines. */
  lemma BlockReadsBack(indent: string, start: string, end: string, ls: seq<string>, after: string) returns (k: nat)
    requires SingleLines(start, end, ls) && NewlineFree(indent) && EndOnlyLast(indent, start, end, ls)
    ensures Find(Rewritten(indent, start, end, ls, after), end, 0) == Some(k)
    ensures HoldsBetween(Rewritten(indent, start, end, ls, after), k, Lines(Indented(indent, ls)))
  {
    k := CleanEnd(indent, start, end, ls, after);
    BetweenMarkers(start, Indented(indent, ls), indent, end + Tail(after), k);
    Associate(indent, end, Tail(after));
  }

  lemma Associate(a: string, b: string, c: string)
    ensures a + b + c == a + (b + c)
  {
  }

  lemma BetweenMarkers(start: string, body: seq<string>, indent: string, w: string, k: nat)
    requires NewlineFree(start) && NewlineFree(indent)
    requires |Lines([start] + body)| <= k <= |Lines([start] + body)| + |indent|
    ensures HoldsBetween(Lines([start] + body) + (indent + w), k, Lines(body))
  {
    var all, z := [start] + body, indent + w;
    assert all[0] == start && all[1..] == body;
    LinesCons(all, z);
    LineEndSkips(start, Lines(body) + z, 0);
    LinesEnd(all);
    LastLineStart(Lines(all), indent, w, k);
  }

  lemma LinesEnd(ls: seq<string>)
    requires ls != []
    ensures Lines(ls) != "" && Lines(ls)[|Lines(ls)| - 1] == '\n'
  {
  }

  /** Inside an indent that follows a finished line, the line starts where the indent starts. */
  lemma {:induction false} LastLineStart(head: string, indent: string, rest: string, k: nat)
    requires head != "" && head[|head| - 1] == '\n' && NewlineFree(indent) && |head| <= k <= |head| + |indent|
    ensures LineStart(head + (indent + rest), k) == |head|
    decreases k
  {
    var t := head + (indent + rest);
    if k > |head| {
      assert t[k - 1] == indent[k - 1 - |head|];
      LastLineStart(head, indent, rest, k - 1);
    } else {
      assert t[k - 1] == '\n';
    }
  }

  // ---------- the rewriter, spelled out ----------

  /** `pieces.join("\n")` */
  function Joined(pieces: seq<string>): string {
    if pieces == [] then ""
    else if |pieces| == 1 then pieces[0]
    else Joined(pieces[..|pieces| - 1]) + "\n" + pieces[|pieces| - 1]
  }

  lemma {:induction false} LinesJoined(ls: seq<string>, last: string)
    ensures Lines(ls) + last == Joined(ls + [last])
    decreases |ls|
  {
    var all := ls + [last];
    if ls != [] {
      var init, l := ls[..|ls| - 1], ls[|ls| - 1];
      LinesSnoc(init, l);
      assert ls == init + [l];
      LinesJoined(init, l);
      assert all[..|ls|] == ls;
      assert Lines(init) + (l + "\n") + last == Lines(init) + l + "\n" + last;
    }
  }

  lemma {:induction false} LinesSnoc(ls: seq<string>, l: string)
    ensures Lines(ls + [l]) == Lines(ls) + (l + "\n")
  {
    if ls == [] {
      assert ls + [l] == [l];
    } else {
      assert (ls + [l])[1..] == ls[1..] + [l];
      LinesSnoc(ls[1..], l);
      assert ls[0] + "\n" + (Lines(ls[1..]) + (l + "\n")) == ls[0] + "\n" + Lines(ls[1..]) + (l + "\n");
    }
  }

  /** The block: start marker, lines and end marker, each indented, joined by newlines. */
  lemma BlockIsJoined(indent: string, start: string, end: string, ls: seq<string>)
    ensures Block(indent, start, end, ls) == Joined([indent + start] + Indented(indent, ls) + [indent + end])
  {
    var body := Indented(indent, ls);
    LinesJoined([indent + start] + body, indent + end);
    assert ([start] + body)[1..] == body && ([indent + start] + body)[1..] == body;
    assert indent + (start + "\n" + Lines(body)) == indent + start + "\n" + Lines(body);
  }

  /** `i` is the first occurrence of `part` at or behind `from`. */
  ghost predicate FirstAt(text: string, part: string, from: nat, i: nat) {
    from <= i && Occurs(text, part, i) && forall j :: from <= j < i ==> !Occurs(text, part, j)
  }

  /** `a` is where the line of position `i` starts; a newline at `i` itself counts as before it. */
  ghost predicate StartsLine(text: string, i: nat, a: nat) {
    && a <= i + 1 && a <= |text| && (a == 0 || text[a - 1] == '\n')
    && forall k :: a <= k <= i && k < |text| ==> text[k] != '\n'
  }

  /** `b` is where the line of position `j` ends, its newline included. */
  ghost predicate EndsLine(text: string, j: nat, b: nat) {
    && j <= b <= |text| && (b == |text| || (j < b && text[b - 1] == '\n'))
    && forall k :: j <= k < b - 1 ==> text[k] != '\n'
  }

  /** For all texts and markers: without the start marker, or without an end marker at or behind it, rewriting fails
      as such. Otherwise the lines from the one of the first start marker to the one of the first end marker behind
      it give way to the block, indented as the start marker was; a newline follows iff text does. */
  lemma ReplaceExactly(text: string, start: string, end: string, ls: seq<string>)
    ensures Replace(text, start, end, ls).MissingStart? <==> forall i: nat :: !Occurs(text, start, i)
    ensures Replace(text, start, end, ls).MissingEnd? <==>
            exists i: nat :: FirstAt(text, start, 0, i) && forall j: nat :: i <= j ==> !Occurs(text, end, j)
    ensures Replace(text, start, end, ls).Ok? ==>
              exists i: nat, j: nat, a: nat, b: nat ::
                FirstAt(text, start, 0, i) && FirstAt(text, end, i, j) && StartsLine(text, i, a) && EndsLine(text, j, b)
    ensures forall i: nat, j: nat, a: nat, b: nat ::
              FirstAt(text, start, 0, i) && FirstAt(text, end, i, j) && StartsLine(text, i, a)
              && EndsLine(text, j, b) ==>
                var indent := if a < i then text[a..i] else "";
                var block := Joined([indent + start] + Indented(indent, ls) + [indent + end]);
                Replace(text, start, end, ls) == Ok(text[..a] + block + if b < |text| then "\n" + text[b..] else "")
  {
    FindIsFirst(text, start, 0);
    if Find(text, start, 0).Some? {
      var i := Find(text, start, 0).value;
      FindIsFirst(text, end, i);
      assert FirstAt(text, start, 0, i);
      if Find(text, end, i).Some? {
        var j := Find(text, end, i).value;
        LineEndMeans(text, j);
        assert FirstAt(text, end, i, j);
        assert StartsLine(text, i, LineStart(text, if i < |text| then i + 1 else |text|));
      }
    }
    forall i: nat, j: nat, a: nat, b: nat
      | FirstAt(text, start, 0, i) && FirstAt(text, end, i, j) && StartsLine(text, i, a) && EndsLine(text, j, b)
      ensures var indent := if a < i then text[a..i] else "";
              var block := Joined([indent + start] + Indented(indent, ls) + [indent + end]);
              Replace(text, start, end, ls) == Ok(text[..a] + block + if b < |text| then "\n" + text[b..] else "")
    {
      ReplacedAt(text, start, end, ls, i, j, a, b);
    }
  }

  lemma LineStartIs(text: string, i: nat, a: nat)
    requires i <= |text| && StartsLine(text, i, a)
    ensures LineStart(text, if i < |text| then i + 1 else |text|) == a
  {
  }

  lemma {:induction false} LineEndMeans(text: string, j: nat)
    requires j <= |text|
    ensures EndsLine(text, j, LineEnd(text, j))
    decreases |text| - j
  {
    if j < |text| && text[j] != '\n' {
      LineEndMeans(text, j + 1);
    }
  }

  lemma LineEndIs(text: string, j: nat, b: nat)
    requires j <= |text| && EndsLine(text, j, b)
    ensures LineEnd(text, j) == b
  {
    LineEndMeans(text, j);
  }

  lemma ReplacedBetween(text: string, start: string, end: string, ls: seq<string>, i: nat, j: nat, a: nat, b: nat)
    requires i <= |text| && j <= |text| && StartsLine(text, i, a) && EndsLine(text, j, b)
    ensures var indent := if a < i then text[a..i] else "";
            var block := Joined([indent + start] + Indented(indent, ls) + [indent + end]);
            ReplaceBetween(text, i, j, start, end, ls) ==
            text[..a] + block + if b < |text| then "\n" + text[b..] else ""
  {
    LineStartIs(text, i, a);
    LineEndIs(text, j, b);
    BlockIsJoined(Slice(text, a, i), start, end, ls);
  }

  lemma ReplacedAt(text: string, start: string, end: string, ls: seq<string>, i: nat, j: nat, a: nat, b: nat)
    requires FirstAt(text, start, 0, i) && FirstAt(text, end, i, j) && StartsLine(text, i, a) && EndsLine(text, j, b)
    ensures var indent := if a < i then text[a..i] else "";
            var block := Joined([indent + start] + Indented(indent, ls) + [indent + end]);
            Replace(text, start, end, ls) == Ok(text[..a] + block + if b < |text| then "\n" + text[b..] else "")
  {
    FindAt(text, start, 0, i);
    FindAt(text, end, i, j);
    ReplacedBetween(text, start, end, ls, i, j, a, b);
  }
}
