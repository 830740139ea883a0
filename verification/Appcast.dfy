/** The check of an appcast feed's build numbers against the floors of their versions. */
module Appcast {
  import opened Wrappers
  import opened SparkleBuild

  const LANE_BUILD_MIN := 1_000_000_000
  const LANE_FLOOR_ADOPTION := 20260227

  /** The `sparkle:version` tag of an item. */
  datatype Tag = Missing | NonNumeric(text: string) | Numeric(build: nat)

  /** A feed item after tag extraction; `version` is its parsed calendar version, if it has one. */
  datatype Item = Item(title: string, tag: Tag, version: Option<Version>)

  datatype Error =
    | NoItems
    | MissingVersion(title: string)
    | NonNumericVersion(title: string, text: string)
    | BelowFloor(title: string, build: nat, lane: bool, floor: nat)

  datatype Entry = Entry(title: string, build: nat, floors: Floors)

  // ---------- the two passes ----------

  function FloorsFor(item: Item): Option<Floors> {
    if item.version.None? then None else FloorsOf(item.version.value)
  }

  function FormatError(item: Item): seq<Error> {
    match item.tag
    case Missing => [MissingVersion(item.title)]
    case NonNumeric(text) => [NonNumericVersion(item.title, text)]
    case Numeric(_) => []
  }

  function EntryOf(item: Item): seq<Entry> {
    if item.tag.Numeric? && FloorsFor(item).Some? then [Entry(item.title, item.tag.build, FloorsFor(item).value)]
    else []
  }

  /** The results of `f` on each element, in order. */
  function FlatMap<A, B>(f: A -> seq<B>, s: seq<A>): seq<B> {
    if s == [] then [] else FlatMap(f, s[..|s| - 1]) + f(s[|s| - 1])
  }

  lemma FlatMapSnoc<A, B>(f: A -> seq<B>, s: seq<A>, i: nat)
    requires i < |s|
    ensures FlatMap(f, s[..i + 1]) == FlatMap(f, s[..i]) + f(s[i])
  {
    assert s[..i + 1][..i] == s[..i];
  }

  lemma {:induction false} FlatMapMember<A, B>(f: A -> seq<B>, s: seq<A>, b: B)
    ensures b in FlatMap(f, s) <==> exists a :: a in s && b in f(a)
  {
    if s != [] {
      FlatMapMember(f, s[..|s| - 1], b);
      assert s == s[..|s| - 1] + [s[|s| - 1]];
    }
  }

  function FormatErrors(items: seq<Item>): seq<Error> {
    FlatMap(FormatError, items)
  }

  function Entries(items: seq<Item>): seq<Entry> {
    FlatMap(EntryOf, items)
  }

  function Min(a: nat, b: nat): nat {
    if a < b then a else b
  }

  /** The date from which the feed is held to lane floors: the earliest date of a lane build, or the fixed date. */
  function Adoption(entries: seq<Entry>): nat {
    if entries == [] then LANE_FLOOR_ADOPTION
    else
      var e := entries[|entries| - 1];
      Min(Adoption(entries[..|entries| - 1]),
          if e.build >= LANE_BUILD_MIN then e.floors.dateKey else LANE_FLOOR_ADOPTION)
  }

  predicate ExpectsLane(adoption: nat, e: Entry) {
    e.build >= LANE_BUILD_MIN || e.floors.dateKey >= adoption
  }

  function Floor(adoption: nat, e: Entry): nat {
    if ExpectsLane(adoption, e) then e.floors.laneFloor else e.floors.legacyFloor
  }

  predicate Offends(adoption: nat, e: Entry) {
    e.build < Floor(adoption, e)
  }

  function FloorError(adoption: nat, e: Entry): seq<Error> {
    if Offends(adoption, e) then [BelowFloor(e.title, e.build, ExpectsLane(adoption, e), Floor(adoption, e))] else []
  }

  function FloorErrors(adoption: nat, entries: seq<Entry>): seq<Error> {
    FlatMap(e => FloorError(adoption, e), entries)
  }

  function Errors(items: seq<Item>): seq<Error> {
    (if items == [] then [NoItems] else []) + FormatErrors(items)
      + FloorErrors(Adoption(Entries(items)), Entries(items))
  }

  /** The first pass: format errors, and the items that have a build and a calendar version. */
  method ReadItems(items: seq<Item>) returns (errors: seq<Error>, calverItems: seq<Entry>)
    ensures errors == FormatErrors(items) && calverItems == Entries(items)
  {
    errors, calverItems := [], [];
    for i := 0 to |items|
      invariant errors == FormatErrors(items[..i]) && calverItems == Entries(items[..i])
    {
      var item := items[i];
      FlatMapSnoc(FormatError, items, i);
      FlatMapSnoc(EntryOf, items, i);
      match item.tag
      case Missing => errors := errors + [MissingVersion(item.title)];
      case NonNumeric(text) => errors := errors + [NonNumericVersion(item.title, text)];
      case Numeric(build) =>
        var floors := FloorsFor(item);
        if floors.Some? {
          calverItems := calverItems + [Entry(item.title, build, floors.value)];
        }
    }
    assert items[..|items|] == items;
  }

  /** The second pass: each item against the floor its date and build call for. */
  method CheckFloors(adoption: nat, calverItems: seq<Entry>) returns (errors: seq<Error>)
    ensures errors == FloorErrors(adoption, calverItems)
  {
    errors := [];
    for i := 0 to |calverItems|
      invariant errors == FloorErrors(adoption, calverItems[..i])
    {
      var e := calverItems[i];
      FlatMapSnoc(e => FloorError(adoption, e), calverItems, i);
      var expectLaneFloor := e.build >= LANE_BUILD_MIN || e.floors.dateKey >= adoption;
      var floor := if expectLaneFloor then e.floors.laneFloor else e.floors.legacyFloor;
      if e.build < floor {
        errors := errors + [BelowFloor(e.title, e.build, expectLaneFloor, floor)];
      }
    }
    assert calverItems[..|calverItems|] == calverItems;
  }

  /** `collectAppcastSparkleVersionErrors`, after tag extraction. */
  method CollectErrors(items: seq<Item>) returns (errors: seq<Error>)
    ensures errors == Errors(items)
  {
    errors := [];
    if |items| == 0 {
      errors := errors + [NoItems];
    }
    var formatErrors, calverItems := ReadItems(items);
    var adoption := EffectiveAdoption(calverItems);
    var floorErrors := CheckFloors(adoption, calverItems);
    errors := errors + formatErrors + floorErrors;
  }

  /** The earliest observed lane date, capped by the fixed adoption date. */
  method EffectiveAdoption(entries: seq<Entry>) returns (adoption: nat)
    ensures adoption == Adoption(entries)
  {
    adoption := LANE_FLOOR_ADOPTION;
    for i := 0 to |entries|
      invariant adoption == Adoption(entries[..i]) && adoption <= LANE_FLOOR_ADOPTION
    {
      assert entries[..i + 1][..i] == entries[..i];
      if entries[i].build >= LANE_BUILD_MIN && entries[i].floors.dateKey < adoption {
        adoption := entries[i].floors.dateKey;
      }
    }
    assert entries[..|entries|] == entries;
  }

  // ---------- properties ----------

  /** The adoption date is the least of the fixed date and the dates of all lane builds. */
  lemma {:induction false} AdoptionIsLeast(entries: seq<Entry>)
    ensures Adoption(entries) <= LANE_FLOOR_ADOPTION
    ensures forall e :: e in entries && e.build >= LANE_BUILD_MIN ==> Adoption(entries) <= e.floors.dateKey
    ensures Adoption(entries) == LANE_FLOOR_ADOPTION
            || exists e :: e in entries && e.build >= LANE_BUILD_MIN && e.floors.dateKey == Adoption(entries)
  {
    if entries != [] {
      var init, e := entries[..|entries| - 1], entries[|entries| - 1];
      AdoptionIsLeast(init);
      assert entries == init + [e];
    }
  }

  /** More entries can only move the date back. */
  lemma AdoptionMonotone(a: seq<Entry>, b: seq<Entry>)
    requires forall e :: e in a ==> e in b
    ensures Adoption(b) <= Adoption(a)
  {
    AdoptionIsLeast(a);
    AdoptionIsLeast(b);
  }

  lemma EntriesSubset(a: seq<Item>, b: seq<Item>)
    requires forall x :: x in a ==> x in b
    ensures forall e :: e in Entries(a) ==> e in Entries(b)
  {
    forall e | e in Entries(a) ensures e in Entries(b) {
      FlatMapMember(EntryOf, a, e);
      FlatMapMember(EntryOf, b, e);
    }
  }

  /** An item of the feed is reported as below its floor. */
  predicate Reported(items: seq<Item>, item: Item) {
    item in items && EntryOf(item) != [] && Offends(Adoption(Entries(items)), EntryOf(item)[0])
  }

  /** Being held to an earlier date never clears an entry: a lane floor is above the legacy floor. */
  lemma OffendsMonotone(item: Item, earlier: nat, later: nat)
    requires earlier <= later && EntryOf(item) != [] && Offends(later, EntryOf(item)[0])
    ensures Offends(earlier, EntryOf(item)[0])
  {
    FloorsAreArithmetic(item.version.value);
  }

  /** Adding items anywhere in a feed never clears another item's error. */
  lemma AddingKeepsErrors(items: seq<Item>, more: seq<Item>, item: Item)
    requires (forall x :: x in items ==> x in more) && Reported(items, item)
    ensures Reported(more, item)
  {
    EntriesSubset(items, more);
    AdoptionMonotone(Entries(items), Entries(more));
    OffendsMonotone(item, Adoption(Entries(more)), Adoption(Entries(items)));
  }

  /** Which items are reported does not depend on their order, or on repetitions. */
  lemma OrderDoesNotMatter(a: seq<Item>, b: seq<Item>, item: Item)
    requires forall x :: x in a <==> x in b
    ensures Reported(a, item) <==> Reported(b, item)
  {
    if Reported(a, item) {
      AddingKeepsErrors(a, b, item);
    }
    if Reported(b, item) {
      AddingKeepsErrors(b, a, item);
    }
  }

  /** The result holds a floor error iff some item of the feed is reported, and then that item's. */
  lemma FloorErrorsExact(items: seq<Item>, error: Error)
    ensures var adoption := Adoption(Entries(items));
            error in FloorErrors(adoption, Entries(items)) <==>
            exists item :: Reported(items, item) && error in FloorError(adoption, EntryOf(item)[0])
  {
    var adoption := Adoption(Entries(items));
    FlatMapMember(e => FloorError(adoption, e), Entries(items), error);
    if error in FloorErrors(adoption, Entries(items)) {
      var e :| e in Entries(items) && error in FloorError(adoption, e);
      FlatMapMember(EntryOf, items, e);
      var item :| item in items && e in EntryOf(item);
      assert Reported(items, item);
    }
    if item :| Reported(items, item) && error in FloorError(adoption, EntryOf(item)[0]) {
      FlatMapMember(EntryOf, items, EntryOf(item)[0]);
    }
  }

  /** Every item that has a calendar version carries its canonical build. */
  predicate Canonical(item: Item) {
    EntryOf(item) != [] ==> EntryOf(item)[0].build == EntryOf(item)[0].floors.laneFloor
  }

  lemma CanonicalPasses(item: Item, adoption: nat)
    requires EntryOf(item) != [] && Canonical(item)
    ensures !Offends(adoption, EntryOf(item)[0])
  {
    FloorsAreArithmetic(item.version.value);
  }

  /** A feed of canonical builds has no floor errors. */
  lemma CanonicalFeedIsClean(items: seq<Item>)
    requires forall item :: item in items ==> Canonical(item)
    ensures FloorErrors(Adoption(Entries(items)), Entries(items)) == []
  {
    var adoption := Adoption(Entries(items));
    var errors := FloorErrors(adoption, Entries(items));
    if errors != [] {
      FloorErrorsExact(items, errors[0]);
      var item :| Reported(items, item) && errors[0] in FloorError(adoption, EntryOf(item)[0]);
      CanonicalPasses(item, adoption);
    }
  }

  // ---------- the errors, from the items alone ----------

  /** The item has a numeric build and a calendar version with a possible date. */
  predicate Dated(item: Item) {
    item.tag.Numeric? && item.version.Some? && 1 <= item.version.value.month <= 12 && 1 <= item.version.value.day <= 31
  }

  function DateOf(v: Version): nat {
    10000 * v.year + 100 * v.month + v.day
  }

  lemma EntryMeans(item: Item)
    ensures EntryOf(item) != [] <==> Dated(item)
    ensures Dated(item) ==>
              var v := item.version.value;
              var floors := Floors(DateOf(v), 10 * DateOf(v), 100 * DateOf(v) + Lane(v.suffix), Lane(v.suffix));
              EntryOf(item) == [Entry(item.title, item.tag.build, floors)]
  {
    if item.version.Some? {
      FloorsExactly(item.version.value);
    }
  }

  /** `date` is the least of 27 February 2026 and the dates of all items with a build of ten digits or more. */
  ghost predicate IsAdoption(items: seq<Item>, date: nat) {
    && date <= 20260227
    && (forall item :: item in items && Dated(item) && item.tag.build >= 1_000_000_000 ==>
          date <= DateOf(item.version.value))
    && (date == 20260227 || exists item :: item in items && Dated(item) && item.tag.build >= 1_000_000_000
                                           && date == DateOf(item.version.value))
  }

  lemma AdoptionMeans(items: seq<Item>)
    ensures IsAdoption(items, Adoption(Entries(items)))
  {
    var entries := Entries(items);
    AdoptionIsLeast(entries);
    forall item | item in items && Dated(item) && item.tag.build >= 1_000_000_000
      ensures Adoption(entries) <= DateOf(item.version.value)
    {
      EntryMeans(item);
      FlatMapMember(EntryOf, items, EntryOf(item)[0]);
    }
    if Adoption(entries) != LANE_FLOOR_ADOPTION {
      var e :| e in entries && e.build >= LANE_BUILD_MIN && e.floors.dateKey == Adoption(entries);
      FlatMapMember(EntryOf, items, e);
      var item :| item in items && e in EntryOf(item);
      EntryMeans(item);
    }
  }

  /** An item with this title and build is below the floor it is held to: the lane floor if its build has ten digits
      or its date is not before the adoption date, the legacy floor otherwise. */
  predicate FallsShort(item: Item, date: nat, title: string, build: nat, lane: bool, floor: nat) {
    && Dated(item) && item.title == title && item.tag.build == build
    && var v := item.version.value;
       && lane == (build >= 1_000_000_000 || DateOf(v) >= date)
       && floor == (if lane then 100 * DateOf(v) + Lane(v.suffix) else 10 * DateOf(v))
       && build < floor
  }

  lemma FloorErrorOf(item: Item, date: nat, title: string, build: nat, lane: bool, floor: nat)
    requires Dated(item)
    ensures EntryOf(item) != []
    ensures BelowFloor(title, build, lane, floor) in FloorError(date, EntryOf(item)[0]) <==>
            FallsShort(item, date, title, build, lane, floor)
  {
    EntryMeans(item);
  }

  /** Format errors and floor errors are told apart by their kind. */
  lemma ErrorsByKind(items: seq<Item>, error: Error)
    ensures error.BelowFloor? ==>
              (error in Errors(items) <==> error in FloorErrors(Adoption(Entries(items)), Entries(items)))
    ensures error.MissingVersion? || error.NonNumericVersion? ==>
              (error in Errors(items) <==> exists item :: item in items && error in FormatError(item))
    ensures error.NoItems? ==> (error in Errors(items) <==> items == [])
  {
    var adoption := Adoption(Entries(items));
    FlatMapMember(FormatError, items, error);
    FlatMapMember(e => FloorError(adoption, e), Entries(items), error);
  }

  lemma IsAdoptionUnique(items: seq<Item>, a: nat, b: nat)
    requires IsAdoption(items, a) && IsAdoption(items, b)
    ensures a == b
  {
  }

  /** A floor error is reported iff some item of the feed falls short in just that way. */
  lemma FloorErrorsMean(items: seq<Item>, date: nat, title: string, build: nat, lane: bool, floor: nat)
    requires IsAdoption(items, date)
    ensures BelowFloor(title, build, lane, floor) in Errors(items) <==>
            exists item :: item in items && FallsShort(item, date, title, build, lane, floor)
  {
    var error, entries := BelowFloor(title, build, lane, floor), Entries(items);
    AdoptionMeans(items);
    IsAdoptionUnique(items, date, Adoption(entries));
    ErrorsByKind(items, error);
    FloorErrorsExact(items, error);
    if item :| Reported(items, item) && error in FloorError(date, EntryOf(item)[0]) {
      EntryMeans(item);
      FloorErrorOf(item, date, title, build, lane, floor);
    }
    if item :| item in items && FallsShort(item, date, title, build, lane, floor) {
      FloorErrorOf(item, date, title, build, lane, floor);
      ErrorIsReported(items, item, error);
    }
  }

  lemma ErrorIsReported(items: seq<Item>, item: Item, error: Error)
    requires item in items && EntryOf(item) != [] && error in FloorError(Adoption(Entries(items)), EntryOf(item)[0])
    ensures Reported(items, item)
  {
  }

  /** The other errors: an empty feed, an item without a build, and an item with a build that is no number. */
  lemma FormatErrorsMean(items: seq<Item>, title: string, text: string)
    ensures NoItems in Errors(items) <==> items == []
    ensures MissingVersion(title) in Errors(items) <==>
            exists item :: item in items && item.title == title && item.tag.Missing?
    ensures NonNumericVersion(title, text) in Errors(items) <==>
            exists item :: item in items && item.title == title && item.tag == NonNumeric(text)
  {
    ErrorsByKind(items, NoItems);
    ErrorsByKind(items, MissingVersion(title));
    ErrorsByKind(items, NonNumericVersion(title, text));
    assert forall item: Item :: MissingVersion(title) in FormatError(item) <==>
                                item.title == title && item.tag.Missing?;
    assert forall item: Item :: NonNumericVersion(title, text) in FormatError(item) <==>
                                item.title == title && item.tag == NonNumeric(text);
  }

  lemma {:induction false} FlatMapAppend<A, B>(f: A -> seq<B>, a: seq<A>, b: seq<A>)
    ensures FlatMap(f, a + b) == FlatMap(f, a) + FlatMap(f, b)
    decreases |b|
  {
    if b == [] {
      assert a + b == a;
    } else {
      var init := b[..|b| - 1];
      assert (a + b)[..|a + b| - 1] == a + init;
      FlatMapAppend(f, a, init);
    }
  }

  lemma KindsOfErrors(items: seq<Item>, date: nat, e: Error)
    ensures e in FormatErrors(items) ==> e.MissingVersion? || e.NonNumericVersion?
    ensures e in FloorErrors(date, Entries(items)) ==> e.BelowFloor?
  {
    FlatMapMember(FormatError, items, e);
    FlatMapMember(x => FloorError(date, x), Entries(items), e);
  }

  lemma FloorErrorsAppend(a: seq<Item>, b: seq<Item>, date: nat)
    ensures FloorErrors(date, Entries(a + b)) == FloorErrors(date, Entries(a)) + FloorErrors(date, Entries(b))
  {
    FlatMapAppend(EntryOf, a, b);
    FlatMapAppend(e => FloorError(date, e), Entries(a), Entries(b));
  }

  /** Format errors come before floor errors, and both in the order of the items. */
  lemma ErrorsInOrder(a: seq<Item>, b: seq<Item>)
    requires a + b != []
    ensures var date := Adoption(Entries(a + b));
            Errors(a + b) == FormatErrors(a) + FormatErrors(b)
                             + (FloorErrors(date, Entries(a)) + FloorErrors(date, Entries(b)))
  {
    FlatMapAppend(FormatError, a, b);
    FloorErrorsAppend(a, b, Adoption(Entries(a + b)));
  }
}
