/** Dotted keys such as `chat.input.hint` and the paths they stand for. */
module DottedKeys {

  predicate DotFree(s: string) {
    '.' !in s
  }

  predicate AllDotFree(path: seq<string>) {
    forall i :: 0 <= i < |path| ==> DotFree(path[i])
  }

  /** `dotted.split(".")` */
  function Split(s: string): (path: seq<string>)
    ensures |path| >= 1
    ensures AllDotFree(path)
  {
    if s == "" then [""]
    else
      var rest := Split(s[1..]);
      if s[0] == '.' then [""] + rest else [[s[0]] + rest[0]] + rest[1..]
  }

  /** The dotted key of a path. */
  function Join(path: seq<string>): string {
    if |path| == 0 then "" else if |path| == 1 then path[0] else path[0] + "." + Join(path[1..])
  }

  /** The key built while descending below `prefix`; an empty prefix adds no dot. */
  function Under(prefix: string, key: string): string {
    if prefix == "" then key else prefix + "." + key
  }

  lemma {:induction false} JoinSplit(s: string)
    ensures Join(Split(s)) == s
  {
    if s != "" {
      JoinSplit(s[1..]);
      var rest := Split(s[1..]);
      var p := Split(s);
      assert p[1..] == if s[0] == '.' then rest else rest[1..];
    }
  }

  lemma {:induction false} SplitCons(a: string, s: string)
    requires DotFree(a)
    ensures Split(a + "." + s) == [a] + Split(s)
  {
    var t := a + "." + s;
    if a == "" {
      assert t[1..] == s;
    } else {
      assert t[1..] == a[1..] + "." + s;
      SplitCons(a[1..], s);
      var rest := Split(t[1..]);
      assert rest[0] == a[1..] && rest[1..] == Split(s);
      assert [a[0]] + a[1..] == a;
    }
  }

  lemma {:induction false} SplitWhole(a: string)
    requires DotFree(a)
    ensures Split(a) == [a]
  {
    if a != "" {
      SplitWhole(a[1..]);
      assert [a[0]] + a[1..] == a;
    }
  }

  lemma {:induction false} SplitJoin(path: seq<string>)
    requires |path| >= 1 && AllDotFree(path)
    ensures Split(Join(path)) == path
  {
    if |path| == 1 {
      SplitWhole(path[0]);
    } else {
      SplitJoin(path[1..]);
      SplitCons(path[0], Join(path[1..]));
      assert [path[0]] + path[1..] == path;
    }
  }

  lemma {:induction false} JoinAppend(p: seq<string>, q: seq<string>)
    requires p != [] && q != []
    ensures Join(p + q) == Join(p) + "." + Join(q)
  {
    var r := p + q;
    if |p| == 1 {
      assert r[1..] == q;
    } else {
      assert r[1..] == p[1..] + q;
      JoinAppend(p[1..], q);
    }
  }

  /** A key that is extended by a dot and more text stands for a proper prefix of the longer path. */
  lemma {:induction false} SplitAppend(a: string, b: string)
    ensures Split(a + "." + b) == Split(a) + Split(b)
  {
    JoinSplit(a);
    JoinSplit(b);
    JoinAppend(Split(a), Split(b));
    SplitJoin(Split(a) + Split(b));
  }

  /** Proper prefixes among paths are exactly dotted prefixes among keys. */
  lemma PrefixKeys(a: string, b: string)
    ensures Split(a) < Split(b) <==> a + "." <= b
  {
    if a + "." <= b {
      var rest := b[|a| + 1..];
      assert b == a + "." + rest;
      SplitAppend(a, rest);
    }
    if Split(a) < Split(b) {
      var q := Split(b)[|Split(a)|..];
      assert Split(b) == Split(a) + q;
      JoinAppend(Split(a), q);
      JoinSplit(a);
      JoinSplit(b);
    }
  }

  lemma SplitInjective(a: string, b: string)
    requires Split(a) == Split(b)
    ensures a == b
  {
    JoinSplit(a);
    JoinSplit(b);
  }

  /** Only a key with a leading dot has an empty first part followed by more parts. */
  lemma LeadingDot(s: string)
    ensures (s != "" && s[0] == '.') <==> (|Split(s)| > 1 && Split(s)[0] == "")
  {
    if s != "" && s[0] != '.' {
      assert Split(s)[0][0] == s[0];
    }
  }
}
