/** Sparkle build numbers from calendar versions. */
module SparkleBuild {
  import opened Wrappers

  datatype Floors = Floors(dateKey: nat, legacyFloor: nat, laneFloor: nat, lane: nat)

  /** A version the calendar pattern matched, split into its parts. */
  datatype Version = Version(year: nat, month: nat, day: nat, suffix: string)

  predicate IsDigit(c: char) {
    '0' <= c <= '9'
  }

  function Digit(d: nat): char
    requires d < 10
  {
    ['0', '1', '2', '3', '4', '5', '6', '7', '8', '9'][d]
  }

  function DigitValue(c: char): (d: nat)
    ensures d < 10
  {
    if IsDigit(c) then c as nat - '0' as nat else 0
  }

  /** `String(n)` */
  function Text(n: nat): string {
    if n < 10 then [Digit(n)] else Text(n / 10) + [Digit(n % 10)]
  }

  /** `String(n).padStart(2, "0")` */
  function Padded(n: nat): string {
    if n < 10 then "0" + Text(n) else Text(n)
  }

  /** `Number(s)` on a string of digits */
  function Number(s: string): nat {
    if s == "" then 0 else 10 * Number(s[..|s| - 1]) + DigitValue(s[|s| - 1])
  }

  function TrailingDigits(s: string): string {
    if s != "" && IsDigit(s[|s| - 1]) then TrailingDigits(s[..|s| - 1]) + [s[|s| - 1]] else ""
  }

  /** Stable releases have lane 90; a numbered suffix its number up to 89; any other suffix 1. */
  function Lane(suffix: string): nat {
    if suffix == "" then 90
    else if TrailingDigits(suffix) == "" then 1
    else if Number(TrailingDigits(suffix)) < 89 then Number(TrailingDigits(suffix)) else 89
  }

  /** `sparkleBuildFloorsFromShortVersion` on a parsed version: digits are put together as text. */
  function FloorsOf(v: Version): Option<Floors> {
    if v.month < 1 || v.month > 12 || v.day < 1 || v.day > 31 then None
    else
      var dateKey := Number(Text(v.year) + Padded(v.month) + Padded(v.day));
      Some(Floors(dateKey, Number(Text(dateKey) + "0"), Number(Text(dateKey) + Padded(Lane(v.suffix))), Lane(v.suffix)))
  }

  // ---------- the text is arithmetic ----------

  lemma NumberSnoc(s: string, c: char)
    ensures Number(s + [c]) == 10 * Number(s) + DigitValue(c)
  {
    assert (s + [c])[..|s|] == s;
  }

  lemma DigitInverse(d: nat)
    requires d < 10
    ensures DigitValue(Digit(d)) == d
  {
  }

  lemma {:induction false} NumberText(n: nat)
    ensures Number(Text(n)) == n
  {
    if n < 10 {
      DigitInverse(n);
      NumberSnoc("", Digit(n));
      assert "" + [Digit(n)] == [Digit(n)];
    } else {
      NumberText(n / 10);
      NumberSnoc(Text(n / 10), Digit(n % 10));
      DigitInverse(n % 10);
    }
  }

  lemma NumberPadded(s: string, n: nat)
    requires n < 100
    ensures Number(s + Padded(n)) == 100 * Number(s) + n
  {
    var a, b := Digit(n / 10), Digit(n % 10);
    DigitInverse(n / 10);
    DigitInverse(n % 10);
    if n >= 10 {
      assert Text(n / 10) == [a];
      assert [a] + [b] == [a, b];
    } else {
      assert "0" + [b] == [a, b];
    }
    assert s + Padded(n) == (s + [a]) + [b];
    NumberSnoc(s + [a], b);
    NumberSnoc(s, a);
  }

  lemma LaneBound(suffix: string)
    ensures Lane(suffix) <= 90 && (suffix != "" ==> Lane(suffix) <= 89)
  {
  }

  function DateKey(v: Version): nat {
    10000 * v.year + 100 * v.month + v.day
  }

  /** The floors are the date as a number, with one more digit, or with the lane's two digits. */
  lemma FloorsAreArithmetic(v: Version)
    requires FloorsOf(v).Some?
    ensures FloorsOf(v).value == Floors(DateKey(v), 10 * DateKey(v), 100 * DateKey(v) + Lane(v.suffix), Lane(v.suffix))
  {
    NumberText(v.year);
    NumberPadded(Text(v.year), v.month);
    NumberPadded(Text(v.year) + Padded(v.month), v.day);
    var dateKey := DateKey(v);
    NumberText(dateKey);
    NumberSnoc(Text(dateKey), '0');
    LaneBound(v.suffix);
    NumberPadded(Text(dateKey), Lane(v.suffix));
  }

  /** Chronological order, then lane. */
  predicate Before(a: Version, b: Version) {
    || a.year < b.year
    || (a.year == b.year && a.month < b.month)
    || (a.year == b.year && a.month == b.month && a.day < b.day)
    || (a.year == b.year && a.month == b.month && a.day == b.day && Lane(a.suffix) < Lane(b.suffix))
  }

  /** Canonical builds order exactly as year, month, day and lane do. */
  lemma BuildOrder(a: Version, b: Version)
    requires FloorsOf(a).Some? && FloorsOf(b).Some?
    ensures FloorsOf(a).value.laneFloor < FloorsOf(b).value.laneFloor <==> Before(a, b)
  {
    FloorsAreArithmetic(a);
    FloorsAreArithmetic(b);
    LaneBound(a.suffix);
    LaneBound(b.suffix);
  }

  /** A stable build is above every suffixed build of its date, and below every build of a later date. */
  lemma StableIsHighest(stable: Version, other: Version)
    requires FloorsOf(stable).Some? && FloorsOf(other).Some? && stable.suffix == ""
    ensures other == stable.(suffix := other.suffix) && other.suffix != "" ==>
              FloorsOf(other).value.laneFloor < FloorsOf(stable).value.laneFloor
    ensures DateKey(stable) < DateKey(other) ==> FloorsOf(stable).value.laneFloor < FloorsOf(other).value.laneFloor
  {
    FloorsAreArithmetic(stable);
    FloorsAreArithmetic(other);
    LaneBound(other.suffix);
  }

  /** From year 1000 on, ten digits tell lane builds from legacy builds. */
  lemma LaneBuildsAreLonger(v: Version)
    requires FloorsOf(v).Some? && 1000 <= v.year <= 9999
    ensures FloorsOf(v).value.legacyFloor < 1_000_000_000 <= FloorsOf(v).value.laneFloor
  {
    FloorsAreArithmetic(v);
  }

  // ---------- lanes and floors, spelled out ----------

  lemma {:induction false} TrailingDigitsAre(a: string, digits: string)
    requires forall i :: 0 <= i < |digits| ==> '0' <= digits[i] <= '9'
    requires a == "" || !('0' <= a[|a| - 1] <= '9')
    ensures TrailingDigits(a + digits) == digits
    decreases |digits|
  {
    if digits == "" {
      assert a + digits == a;
    } else {
      var init := digits[..|digits| - 1];
      assert (a + digits)[..|a + digits| - 1] == a + init;
      TrailingDigitsAre(a, init);
    }
  }

  /** A stable version has lane 90. A suffix that ends in a number has that number as its lane, but 89 at most; any
      other suffix has lane 1. */
  lemma LaneMeans(a: string, digits: string)
    requires forall i :: 0 <= i < |digits| ==> '0' <= digits[i] <= '9'
    requires a == "" || !('0' <= a[|a| - 1] <= '9')
    ensures Lane(a + digits) ==
            if a + digits == "" then 90
            else if digits == "" then 1
            else if Number(digits) >= 89 then 89
            else Number(digits)
  {
    TrailingDigitsAre(a, digits);
  }

  /** Reading digits as a number: each digit weighs ten times the one behind it. */
  lemma NumberMeans(s: string, d: nat)
    requires d < 10
    ensures Number("") == 0 && Number(s + ["0123456789"[d]]) == 10 * Number(s) + d
  {
    NumberSnoc(s, "0123456789"[d]);
  }

  /** Floors exist iff month and day are in range; the date is a number of its decimal digits, the legacy floor has
      one digit more, and the lane floor two more, which hold the lane. */
  lemma FloorsExactly(v: Version)
    ensures FloorsOf(v).Some? <==> 1 <= v.month <= 12 && 1 <= v.day <= 31
    ensures FloorsOf(v).Some? ==>
              var f, date := FloorsOf(v).value, 10000 * v.year + 100 * v.month + v.day;
              && f.dateKey == date && f.legacyFloor == 10 * date && f.lane == Lane(v.suffix)
              && f.laneFloor == 100 * date + Lane(v.suffix)
  {
    if FloorsOf(v).Some? {
      FloorsAreArithmetic(v);
    }
  }
}
