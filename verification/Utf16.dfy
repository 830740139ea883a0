/** Slicing UTF-16 strings without cutting surrogate pairs (section 3.9 of the Unicode Standard, D91). */
module Utf16 {
  import opened Wrappers

  type Unit = x: nat | x < 0x10000

  predicate IsHigh(u: Unit) {
    0xd800 <= u <= 0xdbff
  }

  predicate IsLow(u: Unit) {
    0xdc00 <= u <= 0xdfff
  }

  /** Units `i - 1` and `i` are the two halves of one character. */
  predicate IsPairAt(s: seq<Unit>, i: int) {
    0 < i < |s| && IsHigh(s[i - 1]) && IsLow(s[i])
  }

  /** Unit `i` is a surrogate without its other half. */
  predicate IsLone(s: seq<Unit>, i: nat)
    requires i < |s|
  {
    (IsHigh(s[i]) && !IsPairAt(s, i + 1)) || (IsLow(s[i]) && !IsPairAt(s, i))
  }

  ghost predicate WellFormed(s: seq<Unit>) {
    forall i :: 0 <= i < |s| ==> !IsLone(s, i)
  }

  /** A bound counted from the end when negative, and kept within the string. */
  function Clamp(bound: int, len: nat): nat {
    if bound < 0 then (if len + bound < 0 then 0 else len + bound) else if bound < len then bound else len
  }

  /** The bounds in order, before they are moved off surrogate pairs. */
  function Ordered(len: nat, start: int, end: Option<int>): (nat, nat) {
    var from, to := Clamp(start, len), if end.None? then len else Clamp(end.value, len);
    if to < from then (to, from) else (from, to)
  }

  /** 1 when the bound falls inside a pair. */
  function Half(s: seq<Unit>, i: int): nat {
    if IsPairAt(s, i) then 1 else 0
  }

  /** The part of `s` between two bounds, less the half pairs at its ends. */
  function Part(s: seq<Unit>, from: nat, to: nat): seq<Unit>
    requires to <= |s|
  {
    if from + Half(s, from) < to - Half(s, to) then s[from + Half(s, from)..to - Half(s, to)] else []
  }

  /** Cutting between characters creates no lone surrogates: those of the part are lone in the whole. */
  lemma CutsKeepPairs(s: seq<Unit>, a: nat, b: nat, i: nat)
    requires a <= b <= |s| && i < b - a && !IsPairAt(s, a) && !IsPairAt(s, b)
    ensures IsLone(s[a..b], i) <==> IsLone(s, a + i)
  {
    var t := s[a..b];
    assert t[i] == s[a + i];
    assert i + 1 < |t| ==> t[i + 1] == s[a + i + 1];
    assert i > 0 ==> t[i - 1] == s[a + i - 1];
    assert IsPairAt(t, i + 1) <==> IsPairAt(s, a + i + 1) && a + i + 1 < b;
    assert IsPairAt(t, i) <==> IsPairAt(s, a + i) && i > 0;
  }

  /** A bound moved off a pair no longer falls inside one. */
  lemma HalfIsOff(s: seq<Unit>, i: nat)
    ensures !IsPairAt(s, i + Half(s, i)) && !IsPairAt(s, i - Half(s, i))
  {
  }

  /** For every string, well formed or not, the lone surrogates of a part are lone in the whole; so a
      well-formed string has well-formed parts. */
  lemma PartKeepsCharacters(s: seq<Unit>, from: nat, to: nat)
    requires to <= |s|
    ensures var r := Part(s, from, to);
            forall i :: 0 <= i < |r| ==> (IsLone(r, i) <==> IsLone(s, from + Half(s, from) + i))
    ensures WellFormed(s) ==> WellFormed(Part(s, from, to))
  {
    var a, b, r := from + Half(s, from), to - Half(s, to), Part(s, from, to);
    HalfIsOff(s, from);
    HalfIsOff(s, to);
    forall i | 0 <= i < |r| ensures IsLone(r, i) <==> IsLone(s, a + i) {
      CutsKeepPairs(s, a, b, i);
    }
  }

  /** `sliceUtf16Safe`, for all integer bounds: negative, swapped, out of range or inside a pair. */
  method SliceUtf16Safe(input: seq<Unit>, start: int, end: Option<int>) returns (r: seq<Unit>)
    ensures var (from, to) := Ordered(|input|, start, end); to <= |input| && r == Part(input, from, to)
    ensures WellFormed(input) ==> WellFormed(r)
  {
    var len := |input|;
    var from := Clamp(start, len);
    var to := if end.None? then len else Clamp(end.value, len);
    if to < from {
      from, to := to, from;
    }
    ghost var (from0, to0) := Ordered(len, start, end);
    assert (from, to) == (from0, to0);
    PartKeepsCharacters(input, from, to);
    if from > 0 && from < len {
      if IsLow(input[from]) && IsHigh(input[from - 1]) {
        from := from + 1;
      }
    }
    assert from == from0 + Half(input, from0);
    if to > 0 && to < len {
      if IsHigh(input[to - 1]) && IsLow(input[to]) {
        to := to - 1;
      }
    }
    assert to == to0 - Half(input, to0);
    r := if from < to then input[from..to] else [];
  }

  /** `truncateUtf16Safe`, for the integer part of the limit: a prefix, shorter than the limit by one unit
      exactly when the limit falls inside a pair. */
  method TruncateUtf16Safe(input: seq<Unit>, maxLen: int) returns (r: seq<Unit>)
    ensures r <= input
    ensures var limit := if maxLen < 0 then 0 else maxLen;
            |r| == if |input| <= limit then |input| else if IsPairAt(input, limit) then limit - 1 else limit
    ensures WellFormed(input) ==> WellFormed(r)
  {
    var limit := if maxLen < 0 then 0 else maxLen;
    if |input| <= limit {
      return input;
    }
    r := SliceUtf16Safe(input, 0, Some(limit));
  }

  // ---------- bounds ----------

  /** Bounds beyond the string stand for its ends, and a negative bound for the one so far from the end. */
  lemma BoundsMean(bound: int, len: nat)
    ensures 0 <= bound <= len ==> Clamp(bound, len) == bound
    ensures bound > len ==> Clamp(bound, len) == len
    ensures 1 <= -bound <= len ==> Clamp(bound, len) == len - (-bound)
    ensures -bound > len ==> Clamp(bound, len) == 0
  {
  }

  /** The order of two bounds does not matter, and a missing end is the end of the string. */
  lemma OrderedMeans(len: nat, start: int, end: int)
    ensures Ordered(len, start, Some(end)) == Ordered(len, end, Some(start))
    ensures Ordered(len, start, None) == Ordered(len, start, Some(len))
    ensures var (from, to) := Ordered(len, start, Some(end));
            from <= to <= len && {from, to} == {Clamp(start, len), Clamp(end, len)}
  {
  }

  // ---------- strings of characters ----------

  /** A Unicode scalar value. */
  type Scalar = x: nat | x < 0xd800 || 0xe000 <= x < 0x110000

  /** UTF-16, section 3.9 of the Unicode Standard, D91. */
  function EncodeOne(c: Scalar): seq<Unit> {
    if c < 0x10000 then [c] else [0xd800 + (c - 0x10000) / 0x400, 0xdc00 + (c - 0x10000) % 0x400]
  }

  function Encode(cs: seq<Scalar>): seq<Unit> {
    if cs == [] then [] else EncodeOne(cs[0]) + Encode(cs[1..])
  }

  lemma EncodedUnits(c: Scalar)
    ensures var e := EncodeOne(c);
            || (|e| == 1 && !IsHigh(e[0]) && !IsLow(e[0]))
            || (|e| == 2 && IsHigh(e[0]) && IsLow(e[1]))
  {
  }

  lemma PairBehind(c: Scalar, rest: seq<Unit>, i: nat)
    requires i <= |rest|
    ensures var e := EncodeOne(c);
            IsPairAt(e + rest, |e| + i) <==> IsPairAt(rest, i)
  {
    EncodedUnits(c);
    var e := EncodeOne(c);
    var s := e + rest;
    if 0 < |e| + i < |s| {
      assert s[|e| + i] == rest[i];
      assert i > 0 ==> s[|e| + i - 1] == rest[i - 1];
      assert i == 0 ==> s[|e| + i - 1] == e[|e| - 1];
    }
  }

  lemma LoneBehind(c: Scalar, rest: seq<Unit>, i: nat)
    requires i < |rest|
    ensures var e := EncodeOne(c); IsLone(e + rest, |e| + i) <==> IsLone(rest, i)
  {
    var e := EncodeOne(c);
    PairBehind(c, rest, i);
    PairBehind(c, rest, i + 1);
    assert (e + rest)[|e| + i] == rest[i];
  }

  lemma {:induction false} EncodedIsWellFormed(cs: seq<Scalar>)
    ensures WellFormed(Encode(cs))
  {
    if cs != [] {
      var e, rest := EncodeOne(cs[0]), Encode(cs[1..]);
      EncodedIsWellFormed(cs[1..]);
      EncodedUnits(cs[0]);
      var s := e + rest;
      forall i | 0 <= i < |s| ensures !IsLone(s, i) {
        if i >= |e| {
          LoneBehind(cs[0], rest, i - |e|);
        } else {
          FirstNotLone(cs[0], rest, i);
        }
      }
    }
  }

  lemma FirstNotLone(c: Scalar, rest: seq<Unit>, i: nat)
    requires i < |EncodeOne(c)|
    ensures !IsLone(EncodeOne(c) + rest, i)
  {
    EncodedUnits(c);
    var e := EncodeOne(c);
    assert forall j :: 0 <= j < |e| ==> (e + rest)[j] == e[j];
  }

  lemma RestWellFormed(s: seq<Unit>, k: nat)
    requires WellFormed(s) && k <= |s| && !IsPairAt(s, k)
    ensures WellFormed(s[k..])
  {
    forall i | 0 <= i < |s[k..]| ensures !IsLone(s[k..], i) {
      assert s[k..] == s[k..|s|];
      CutsKeepPairs(s, k, |s|, i);
    }
  }

  lemma PairDecodes(high: Unit, low: Unit) returns (c: Scalar)
    requires IsHigh(high) && IsLow(low)
    ensures EncodeOne(c) == [high, low]
  {
    c := 0x10000 + 0x400 * (high - 0xd800) + (low - 0xdc00);
  }

  lemma {:induction false} WellFormedDecodes(s: seq<Unit>) returns (cs: seq<Scalar>)
    requires WellFormed(s)
    ensures Encode(cs) == s
    decreases |s|
  {
    if s == [] {
      cs := [];
    } else {
      assert !IsLone(s, 0);
      if IsHigh(s[0]) {
        assert !IsPairAt(s, 2);
        RestWellFormed(s, 2);
        var c := PairDecodes(s[0], s[1]);
        var more := WellFormedDecodes(s[2..]);
        cs := [c] + more;
        assert s == [s[0], s[1]] + s[2..];
      } else {
        RestWellFormed(s, 1);
        var c: Scalar := s[0];
        var more := WellFormedDecodes(s[1..]);
        cs := [c] + more;
        assert EncodeOne(c) + s[1..] == s;
      }
    }
  }

  /** The well-formed strings are exactly the encodings of sequences of characters. */
  lemma WellFormedMeans(s: seq<Unit>)
    ensures WellFormed(s) <==> exists cs :: Encode(cs) == s
  {
    if WellFormed(s) {
      var cs := WellFormedDecodes(s);
    }
    if cs :| Encode(cs) == s {
      EncodedIsWellFormed(cs);
    }
  }

  lemma {:induction false} EncodeAppend(a: seq<Scalar>, b: seq<Scalar>)
    ensures Encode(a + b) == Encode(a) + Encode(b)
    decreases |a|
  {
    if a == [] {
      assert a + b == b;
    } else {
      assert (a + b)[1..] == a[1..] + b;
      EncodeAppend(a[1..], b);
    }
  }

  lemma InsidePair(c: Scalar, rest: seq<Unit>, i: nat)
    requires 0 < i < |EncodeOne(c)|
    ensures IsPairAt(EncodeOne(c) + rest, i)
  {
    EncodedUnits(c);
    var e := EncodeOne(c);
    assert (e + rest)[0] == e[0] && (e + rest)[1] == e[1];
  }

  /** A bound that falls inside no pair falls between two characters. */
  lemma {:induction false} BetweenCharacters(cs: seq<Scalar>, i: nat) returns (k: nat)
    requires i <= |Encode(cs)| && !IsPairAt(Encode(cs), i)
    ensures k <= |cs| && Encode(cs[..k]) == Encode(cs)[..i]
    decreases |cs|
  {
    if i == 0 {
      k := 0;
    } else {
      var e, rest := EncodeOne(cs[0]), Encode(cs[1..]);
      EncodedUnits(cs[0]);
      if i < |e| {
        InsidePair(cs[0], rest, i);
      }
      PairBehind(cs[0], rest, i - |e|);
      var j := BetweenCharacters(cs[1..], i - |e|);
      k := j + 1;
      assert cs[..k][1..] == cs[1..][..j];
      assert (e + rest)[..i] == e + rest[..i - |e|];
    }
  }

  lemma {:induction false} LongerPrefix(cs: seq<Scalar>, i: nat, j: nat)
    requires i <= |cs| && j <= |cs| && |Encode(cs[..i])| <= |Encode(cs[..j])|
    ensures i <= j
  {
    if j < i {
      assert cs[..i] == cs[..j] + cs[j..i];
      EncodeAppend(cs[..j], cs[j..i]);
    }
  }

  lemma SliceOfEncoding(cs: seq<Scalar>, i: nat, j: nat)
    requires i <= j <= |cs|
    ensures var s, a, b := Encode(cs), |Encode(cs[..i])|, |Encode(cs[..j])|;
            a <= b <= |s| && s[a..b] == Encode(cs[i..j])
  {
    assert cs == cs[..j] + cs[j..] && cs[..j] == cs[..i] + cs[i..j];
    EncodeAppend(cs[..j], cs[j..]);
    EncodeAppend(cs[..i], cs[i..j]);
  }

  /** A slice of a string of characters is the string of the characters that lie wholly between the bounds. */
  lemma SliceIsCharacters(cs: seq<Scalar>, from: nat, to: nat) returns (i: nat, j: nat)
    requires from <= to <= |Encode(cs)|
    ensures i <= j <= |cs| && Part(Encode(cs), from, to) == Encode(cs[i..j])
    ensures i < j ==> from <= |Encode(cs[..i])| <= from + 1 && to - 1 <= |Encode(cs[..j])| <= to
  {
    var s := Encode(cs);
    var a, b := from + Half(s, from), to - Half(s, to);
    if a < b {
      HalfIsOff(s, from);
      HalfIsOff(s, to);
      i := BetweenCharacters(cs, a);
      j := BetweenCharacters(cs, b);
      LongerPrefix(cs, i, j);
      SliceOfEncoding(cs, i, j);
    } else {
      i, j := 0, 0;
      assert cs[0..0] == [];
    }
  }
}
