/** Reading the dimensions of a JPEG image from its markers (ITU-T T.81, annex B). */
module JpegWalk {
  import opened Wrappers

  type Byte = x: nat | x < 256

  datatype Dimensions = Dimensions(width: nat, height: nat)

  /** SOI and EOI, TEM, and the restart markers stand alone. */
  predicate IsStandalone(marker: Byte) {
    marker == 0xd8 || marker == 0xd9 || marker == 0x01 || 0xd0 <= marker <= 0xd7
  }

  /** The start-of-frame markers: 0xC0 to 0xCF without DHT, JPG and DAC. */
  predicate IsFrame(marker: Byte) {
    0xc0 <= marker <= 0xcf && marker != 0xc4 && marker != 0xc8 && marker != 0xcc
  }

  /** Table B.1 of ITU-T T.81: the start-of-frame markers, and the markers without a segment. */
  const FrameMarkers: set<Byte> :=
    {0xc0, 0xc1, 0xc2, 0xc3, 0xc5, 0xc6, 0xc7, 0xc9, 0xca, 0xcb, 0xcd, 0xce, 0xcf}
  const LoneMarkers: set<Byte> := {0x01, 0xd0, 0xd1, 0xd2, 0xd3, 0xd4, 0xd5, 0xd6, 0xd7, 0xd8, 0xd9}

  lemma MarkersAre(m: Byte)
    ensures IsFrame(m) <==> m in FrameMarkers
    ensures IsStandalone(m) <==> m in LoneMarkers
  {
  }

  function Word(b: seq<Byte>, at: nat): nat
    requires at + 1 < |b|
  {
    256 * (b[at] as int) + b[at + 1] as int
  }

  /** The walk from `offset` on. */
  function Walk(b: seq<Byte>, offset: nat): Option<Dimensions>
    decreases |b| - offset
  {
    if offset + 9 >= |b| then None
    else if b[offset] != 0xff then Walk(b, offset + 1)
    else if IsStandalone(b[offset + 1]) then Walk(b, offset + 2)
    else
      var length := Word(b, offset + 2);
      if length < 2 || offset + 2 + length > |b| then None
      else if IsFrame(b[offset + 1]) then
        if length < 7 then None else Some(Dimensions(Word(b, offset + 7), Word(b, offset + 5)))
      else Walk(b, offset + 2 + length)
  }

  /** `readJpegDimensions`: every read is inside the buffer and the offset only grows. */
  method ReadJpegDimensions(buffer: array<Byte>) returns (r: Option<Dimensions>)
    ensures r == Walk(buffer[..], 2)
  {
    var offset := 2;
    while offset + 9 < buffer.Length
      invariant Walk(buffer[..], offset) == Walk(buffer[..], 2)
      decreases buffer.Length - offset
    {
      if buffer[offset] != 0xff {
        offset := offset + 1;
        continue;
      }
      var marker := buffer[offset + 1];
      offset := offset + 2;
      if marker == 0xd8 || marker == 0xd9 {
        continue;
      }
      if marker == 0x01 || (marker >= 0xd0 && marker <= 0xd7) {
        continue;
      }
      var length := 256 * (buffer[offset] as int) + buffer[offset + 1] as int;
      if length < 2 || offset + length > buffer.Length {
        return None;
      }
      if (marker >= 0xc0 && marker <= 0xc3) || (marker >= 0xc5 && marker <= 0xc7)
         || (marker >= 0xc9 && marker <= 0xcb) || (marker >= 0xcd && marker <= 0xcf) {
        if length < 7 {
          return None;
        }
        var height := 256 * (buffer[offset + 3] as int) + buffer[offset + 4] as int;
        var width := 256 * (buffer[offset + 5] as int) + buffer[offset + 6] as int;
        return Some(Dimensions(width, height));
      }
      offset := offset + length;
    }
    return None;
  }

  /** A result is always read off a start-of-frame segment that lies wholly inside the buffer. */
  lemma {:induction false} FoundIsFrame(b: seq<Byte>, offset: nat)
    requires Walk(b, offset).Some?
    ensures exists p: nat :: offset <= p && p + 9 < |b| && b[p] == 0xff && b[p + 1] in FrameMarkers
              && Word(b, p + 2) >= 7
              && p + 2 + Word(b, p + 2) <= |b|
              && Walk(b, offset) == Some(Dimensions(Word(b, p + 7), Word(b, p + 5)))
    decreases |b| - offset
  {
    MarkersAre(b[offset + 1]);
    if b[offset] != 0xff {
      FoundIsFrame(b, offset + 1);
    } else if IsStandalone(b[offset + 1]) {
      FoundIsFrame(b, offset + 2);
    } else if !IsFrame(b[offset + 1]) {
      FoundIsFrame(b, offset + 2 + Word(b, offset + 2));
    }
  }

  // ---------- the way through a file ----------

  /** From `o` the way leads on to `next`: past a byte that starts no marker, past a marker without a segment, or
      past a whole segment that is no frame. Ten bytes must be left. */
  predicate LeadsTo(b: seq<Byte>, o: nat, next: nat) {
    && o + 9 < |b|
    && (|| (b[o] != 0xff && next == o + 1)
        || (b[o] == 0xff && b[o + 1] in LoneMarkers && next == o + 2)
        || (b[o] == 0xff && b[o + 1] !in LoneMarkers && b[o + 1] !in FrameMarkers
            && 2 <= Word(b, o + 2) && next == o + 2 + Word(b, o + 2) && next <= |b|))
  }

  /** A whole start-of-frame segment, long enough for a size. */
  predicate FrameAt(b: seq<Byte>, o: nat) {
    && o + 9 < |b| && b[o] == 0xff && b[o + 1] in FrameMarkers
    && 7 <= Word(b, o + 2) && o + 2 + Word(b, o + 2) <= |b|
  }

  ghost predicate IsWay(b: seq<Byte>, way: seq<nat>, o: nat) {
    && way != [] && way[0] == o && FrameAt(b, way[|way| - 1])
    && forall i :: 0 <= i < |way| - 1 ==> LeadsTo(b, way[i], way[i + 1])
  }

  /** On every buffer the walk finds a size iff there is a way from its start to a frame, and then that frame's. */
  lemma WalkFindsTheWay(b: seq<Byte>, o: nat, d: Dimensions)
    ensures Walk(b, o) == Some(d) <==>
            exists way :: IsWay(b, way, o)
                          && d == Dimensions(Word(b, way[|way| - 1] + 7), Word(b, way[|way| - 1] + 5))
  {
    if Walk(b, o) == Some(d) {
      var way := WayOf(b, o);
    }
    if way :| IsWay(b, way, o) && d == Dimensions(Word(b, way[|way| - 1] + 7), Word(b, way[|way| - 1] + 5)) {
      WayIsWalked(b, way, o);
    }
  }

  lemma {:induction false} WayOf(b: seq<Byte>, o: nat) returns (way: seq<nat>)
    requires Walk(b, o).Some?
    ensures IsWay(b, way, o)
    ensures Walk(b, o) == Some(Dimensions(Word(b, way[|way| - 1] + 7), Word(b, way[|way| - 1] + 5)))
    decreases |b| - o
  {
    MarkersAre(b[o + 1]);
    if FrameAt(b, o) {
      way := [o];
    } else {
      var next := if b[o] != 0xff then o + 1 else if IsStandalone(b[o + 1]) then o + 2 else o + 2 + Word(b, o + 2);
      var rest := WayOf(b, next);
      way := [o] + rest;
      WayLonger(b, rest, next, o);
    }
  }

  lemma WayLonger(b: seq<Byte>, rest: seq<nat>, next: nat, o: nat)
    requires IsWay(b, rest, next) && LeadsTo(b, o, next)
    ensures IsWay(b, [o] + rest, o) && ([o] + rest)[|rest|] == rest[|rest| - 1]
  {
    var way := [o] + rest;
    forall i | 0 <= i < |way| - 1 ensures LeadsTo(b, way[i], way[i + 1]) {
      if i > 0 {
        assert LeadsTo(b, rest[i - 1], rest[i]);
      }
    }
  }

  lemma {:induction false} WayIsWalked(b: seq<Byte>, way: seq<nat>, o: nat)
    requires IsWay(b, way, o)
    ensures Walk(b, o) == Some(Dimensions(Word(b, way[|way| - 1] + 7), Word(b, way[|way| - 1] + 5)))
    decreases |way|
  {
    MarkersAre(b[o + 1]);
    if |way| > 1 {
      assert LeadsTo(b, way[0], way[1]);
      forall i | 0 <= i < |way[1..]| - 1 ensures LeadsTo(b, way[1..][i], way[1..][i + 1]) {
        assert LeadsTo(b, way[i + 1], way[i + 2]);
      }
      WayIsWalked(b, way[1..], way[1]);
    }
  }

  // ---------- an encoder ----------

  /** What may precede the frame header: markers alone, and segments with a length and a payload. */
  datatype Segment = Alone(marker: Byte) | Table(marker: Byte, payload: seq<Byte>)

  predicate ValidSegment(s: Segment) {
    match s
    case Alone(m) => m in LoneMarkers
    case Table(m, payload) => m !in LoneMarkers && m !in FrameMarkers && |payload| <= 65533
  }

  /** A start-of-frame segment; `components` holds the component count and the component entries. */
  datatype Frame = Frame(marker: Byte, precision: Byte, height: nat, width: nat, components: seq<Byte>)

  predicate ValidFrame(f: Frame) {
    f.marker in FrameMarkers && f.height < 65536 && f.width < 65536 && 1 <= |f.components| <= 65528
  }

  function Big(n: nat): seq<Byte>
    requires n < 65536
  {
    [n / 256, n % 256]
  }

  function EncodeSegment(s: Segment): seq<Byte>
    requires ValidSegment(s)
  {
    match s
    case Alone(m) => [0xff, m]
    case Table(m, payload) => [0xff, m] + Big(|payload| + 2) + payload
  }

  function EncodeSegments(segments: seq<Segment>): seq<Byte>
    requires forall i :: 0 <= i < |segments| ==> ValidSegment(segments[i])
  {
    if segments == [] then [] else EncodeSegment(segments[0]) + EncodeSegments(segments[1..])
  }

  function EncodeFrame(f: Frame): (r: seq<Byte>)
    requires ValidFrame(f)
    ensures |r| == 9 + |f.components|
  {
    [0xff, f.marker] + Big(7 + |f.components|) + [f.precision] + Big(f.height) + Big(f.width) + f.components
  }

  lemma BigWord(n: nat, b: seq<Byte>, at: nat)
    requires n < 65536 && at + 1 < |b| && b[at] == n / 256 && b[at + 1] == n % 256
    ensures Word(b, at) == n
  {
  }

  lemma FrameFound(prefix: seq<Byte>, f: Frame, rest: seq<Byte>)
    requires ValidFrame(f)
    ensures Walk(prefix + EncodeFrame(f) + rest, |prefix|) == Some(Dimensions(f.width, f.height))
  {
    var b, o := prefix + EncodeFrame(f) + rest, |prefix|;
    MarkersAre(f.marker);
    assert forall i :: 0 <= i < 9 ==> b[o + i] == EncodeFrame(f)[i];
    BigWord(7 + |f.components|, b, o + 2);
    BigWord(f.height, b, o + 5);
    BigWord(f.width, b, o + 7);
  }

  /** One well-formed segment is stepped over exactly. */
  lemma SegmentSkipped(prefix: seq<Byte>, s: Segment, rest: seq<Byte>)
    requires ValidSegment(s) && |rest| >= 10
    ensures Walk(prefix + EncodeSegment(s) + rest, |prefix|) ==
            Walk(prefix + EncodeSegment(s) + rest, |prefix + EncodeSegment(s)|)
  {
    var e := EncodeSegment(s);
    var b, o := prefix + e + rest, |prefix|;
    MarkersAre(s.marker);
    assert b[o] == e[0] && b[o + 1] == e[1];
    if s.Table? {
      assert b[o + 2] == e[2] && b[o + 3] == e[3];
      BigWord(|s.payload| + 2, b, o + 2);
    }
  }

  lemma Regroup(p: seq<Byte>, e: seq<Byte>, m: seq<Byte>, f: seq<Byte>, r: seq<Byte>)
    ensures p + (e + m) + f + r == p + e + (m + (f + r))
    ensures (p + e) + m + f + r == p + e + (m + (f + r))
  {
  }

  /** The walk inverts the encoder: after SOI and any segments without fill bytes it returns the frame's size. */
  lemma {:induction false} WalkDecodes(prefix: seq<Byte>, segments: seq<Segment>, f: Frame, rest: seq<Byte>)
    requires ValidFrame(f) && forall i :: 0 <= i < |segments| ==> ValidSegment(segments[i])
    ensures Walk(prefix + EncodeSegments(segments) + EncodeFrame(f) + rest, |prefix|) ==
            Some(Dimensions(f.width, f.height))
    decreases segments
  {
    var tail := EncodeFrame(f) + rest;
    if segments == [] {
      assert prefix + EncodeSegments(segments) + EncodeFrame(f) + rest == prefix + EncodeFrame(f) + rest;
      FrameFound(prefix, f, rest);
    } else {
      var e, more := EncodeSegment(segments[0]), EncodeSegments(segments[1..]);
      WalkDecodes(prefix + e, segments[1..], f, rest);
      SegmentSkipped(prefix, segments[0], more + tail);
      Regroup(prefix, e, more, EncodeFrame(f), rest);
    }
  }

  lemma ImageDecodes(segments: seq<Segment>, f: Frame, rest: seq<Byte>)
    requires ValidFrame(f) && forall i :: 0 <= i < |segments| ==> ValidSegment(segments[i])
    ensures Walk([0xff, 0xd8] + EncodeSegments(segments) + EncodeFrame(f) + rest, 2) ==
            Some(Dimensions(f.width, f.height))
  {
    WalkDecodes([0xff, 0xd8], segments, f, rest);
  }

  // ---------- fill bytes ----------

  /** Section B.1.1.2 allows any number of 0xFF fill bytes before a marker. */
  function Fill(n: nat): seq<Byte> {
    seq(n, _ => 0xff)
  }

  /** Segments with the number of fill bytes before each. */
  function EncodeFilled(units: seq<(nat, Segment)>): seq<Byte>
    requires forall i :: 0 <= i < |units| ==> ValidSegment(units[i].1)
  {
    if units == [] then [] else Fill(units[0].0) + EncodeSegment(units[0].1) + EncodeFilled(units[1..])
  }

  /** What becomes of the walk when it takes the two bytes at `p` for a marker with a segment. */
  function Jump(b: seq<Byte>, p: nat): Option<Dimensions> {
    if p + 9 >= |b| || Word(b, p + 2) < 2 || p + 2 + Word(b, p + 2) > |b| then None
    else Walk(b, p + 2 + Word(b, p + 2))
  }

  lemma FillBytes(prefix: seq<Byte>, n: nat, marker: Byte, rest: seq<Byte>)
    requires n > 0
    ensures var b, o := prefix + Fill(n) + ([0xff, marker] + rest), |prefix|;
            o + 2 < |b| && b[o] == 0xff && b[o + 1] == 0xff && b[o + 2] == if n == 1 then marker else 0xff
  {
    var b, o := prefix + Fill(n) + ([0xff, marker] + rest), |prefix|;
    if n == 1 {
      assert b[o + 1] == ([0xff, marker] + rest)[0] && b[o + 2] == ([0xff, marker] + rest)[1];
    } else if n == 2 {
      assert b[o + 1] == Fill(n)[1] && b[o + 2] == ([0xff, marker] + rest)[0];
    } else {
      assert b[o + 1] == Fill(n)[1] && b[o + 2] == Fill(n)[2];
    }
  }

  /** The walk takes a fill byte for the marker, and jumps by a length it reads off the real marker. */
  lemma FillByteJumps(prefix: seq<Byte>, n: nat, marker: Byte, rest: seq<Byte>)
    requires n > 0
    ensures var b := prefix + Fill(n) + ([0xff, marker] + rest);
            Walk(b, |prefix|) == Jump(b, |prefix|)
    ensures var b := prefix + Fill(n) + ([0xff, marker] + rest);
            marker >= 0xc0 && |b| < 0xc000 ==> Jump(b, |prefix|) == None
  {
    FillBytes(prefix, n, marker, rest);
  }

  ghost predicate NoFill(units: seq<(nat, Segment)>) {
    forall i :: 0 <= i < |units| ==> units[i].0 == 0
  }

  function FilledImage(units: seq<(nat, Segment)>, n: nat, f: Frame, rest: seq<Byte>): seq<Byte>
    requires ValidFrame(f) && forall i :: 0 <= i < |units| ==> ValidSegment(units[i].1)
  {
    EncodeFilled(units) + (Fill(n) + (EncodeFrame(f) + rest))
  }

  /** Where the first fill byte stands. */
  function FirstFill(units: seq<(nat, Segment)>): nat
    requires forall i :: 0 <= i < |units| ==> ValidSegment(units[i].1)
  {
    if units == [] || units[0].0 > 0 then 0 else |EncodeSegment(units[0].1)| + FirstFill(units[1..])
  }

  /** Every marker that fill bytes precede is 0xC0 or above, as all but the reserved ones are. */
  ghost predicate HighMarkers(units: seq<(nat, Segment)>) {
    forall i :: 0 <= i < |units| ==> units[i].1.marker >= 0xc0
  }

  lemma FilledFrame(prefix: seq<Byte>, n: nat, f: Frame, rest: seq<Byte>)
    requires ValidFrame(f)
    ensures var b := prefix + (Fill(n) + (EncodeFrame(f) + rest));
            && Walk(b, |prefix|) == (if n == 0 then Some(Dimensions(f.width, f.height)) else Jump(b, |prefix|))
            && (n > 0 && |b| < 0xc000 ==> Jump(b, |prefix|) == None)
  {
    if n == 0 {
      assert prefix + (Fill(n) + (EncodeFrame(f) + rest)) == prefix + EncodeFrame(f) + rest;
      FrameFound(prefix, f, rest);
    } else {
      var more := EncodeFrame(f)[2..] + rest;
      assert prefix + (Fill(n) + (EncodeFrame(f) + rest)) == prefix + Fill(n) + ([0xff, f.marker] + more);
      FillByteJumps(prefix, n, f.marker, more);
    }
  }

  lemma MarkerFirst(prefix: seq<Byte>, n: nat, s: Segment, more: seq<Byte>) returns (rest: seq<Byte>)
    requires ValidSegment(s)
    ensures prefix + (Fill(n) + EncodeSegment(s) + more) == prefix + Fill(n) + ([0xff, s.marker] + rest)
  {
    var tail := EncodeSegment(s)[2..];
    assert EncodeSegment(s) == [0xff, s.marker] + tail;
    rest := tail + more;
    Spread(prefix, Fill(n), [0xff, s.marker], tail, more);
  }

  lemma Spread(a: seq<Byte>, b: seq<Byte>, c: seq<Byte>, d: seq<Byte>, e: seq<Byte>)
    ensures a + (b + (c + d) + e) == a + b + (c + (d + e))
  {
  }

  lemma FilledUnit(prefix: seq<Byte>, n: nat, s: Segment, more: seq<Byte>)
    requires n > 0 && ValidSegment(s)
    ensures var b := prefix + (Fill(n) + EncodeSegment(s) + more);
            && Walk(b, |prefix|) == Jump(b, |prefix|)
            && (s.marker >= 0xc0 && |b| < 0xc000 ==> Jump(b, |prefix|) == None)
  {
    var rest := MarkerFirst(prefix, n, s, more);
    FillByteJumps(prefix, n, s.marker, rest);
  }

  /** What the walk from `o` on makes of a filled image. */
  ghost predicate WalksFilled(b: seq<Byte>, o: nat, units: seq<(nat, Segment)>, n: nat, f: Frame)
    requires forall i :: 0 <= i < |units| ==> ValidSegment(units[i].1)
  {
    if NoFill(units) && n == 0 then Walk(b, o) == Some(Dimensions(f.width, f.height))
    else
      && Walk(b, o) == Jump(b, o + FirstFill(units))
      && (HighMarkers(units) && |b| < 0xc000 ==> Walk(b, o) == None)
  }

  lemma UnfilledHead(b: seq<Byte>, o: nat, units: seq<(nat, Segment)>, n: nat, f: Frame)
    requires units != [] && units[0].0 == 0 && forall i :: 0 <= i < |units| ==> ValidSegment(units[i].1)
    requires Walk(b, o) == Walk(b, o + |EncodeSegment(units[0].1)|)
    requires WalksFilled(b, o + |EncodeSegment(units[0].1)|, units[1..], n, f)
    ensures WalksFilled(b, o, units, n, f)
  {
    assert units == [units[0]] + units[1..];
    assert NoFill(units) <==> NoFill(units[1..]);
    assert HighMarkers(units) ==> HighMarkers(units[1..]);
  }

  lemma FilledHead(b: seq<Byte>, o: nat, units: seq<(nat, Segment)>, n: nat, f: Frame)
    requires units != [] && units[0].0 > 0 && forall i :: 0 <= i < |units| ==> ValidSegment(units[i].1)
    requires Walk(b, o) == Jump(b, o) && (units[0].1.marker >= 0xc0 && |b| < 0xc000 ==> Jump(b, o) == None)
    ensures WalksFilled(b, o, units, n, f)
  {
    assert !NoFill(units);
  }

  lemma FrameOnly(prefix: seq<Byte>, n: nat, f: Frame, rest: seq<Byte>)
    requires ValidFrame(f)
    ensures WalksFilled(prefix + FilledImage([], n, f, rest), |prefix|, [], n, f)
  {
    assert FilledImage([], n, f, rest) == Fill(n) + (EncodeFrame(f) + rest);
    FilledFrame(prefix, n, f, rest);
  }

  lemma Associate(a: seq<Byte>, b: seq<Byte>, c: seq<Byte>, d: seq<Byte>)
    ensures a + b + c + d == a + b + (c + d)
  {
  }

  lemma FirstUnit(units: seq<(nat, Segment)>, n: nat, f: Frame, rest: seq<Byte>)
    requires ValidFrame(f) && units != [] && forall i :: 0 <= i < |units| ==> ValidSegment(units[i].1)
    ensures FilledImage(units, n, f, rest)
         == Fill(units[0].0) + EncodeSegment(units[0].1) + FilledImage(units[1..], n, f, rest)
  {
    Associate(Fill(units[0].0), EncodeSegment(units[0].1), EncodeFilled(units[1..]), Fill(n) + (EncodeFrame(f) + rest));
  }

  lemma Prefixed(prefix: seq<Byte>, image: seq<Byte>, e: seq<Byte>, more: seq<Byte>)
    requires image == Fill(0) + e + more
    ensures prefix + image == prefix + e + more
  {
    assert image == e + more;
  }

  lemma NoFillBytes(prefix: seq<Byte>, units: seq<(nat, Segment)>, n: nat, f: Frame, rest: seq<Byte>)
    requires ValidFrame(f) && units != [] && units[0].0 == 0
    requires forall i :: 0 <= i < |units| ==> ValidSegment(units[i].1)
    ensures prefix + FilledImage(units, n, f, rest)
         == prefix + EncodeSegment(units[0].1) + FilledImage(units[1..], n, f, rest)
  {
    FirstUnit(units, n, f, rest);
    Prefixed(prefix, FilledImage(units, n, f, rest), EncodeSegment(units[0].1), FilledImage(units[1..], n, f, rest));
  }

  lemma Filled(prefix: seq<Byte>, units: seq<(nat, Segment)>, n: nat, f: Frame, rest: seq<Byte>)
    requires ValidFrame(f) && units != [] && units[0].0 > 0 && forall i :: 0 <= i < |units| ==> ValidSegment(units[i].1)
    ensures WalksFilled(prefix + FilledImage(units, n, f, rest), |prefix|, units, n, f)
  {
    FirstUnit(units, n, f, rest);
    FilledUnit(prefix, units[0].0, units[0].1, FilledImage(units[1..], n, f, rest));
    FilledHead(prefix + FilledImage(units, n, f, rest), |prefix|, units, n, f);
  }

  lemma Unfilled(prefix: seq<Byte>, units: seq<(nat, Segment)>, n: nat, f: Frame, rest: seq<Byte>)
    requires ValidFrame(f) && units != [] && units[0].0 == 0
    requires forall i :: 0 <= i < |units| ==> ValidSegment(units[i].1)
    requires var p := prefix + EncodeSegment(units[0].1);
             WalksFilled(p + FilledImage(units[1..], n, f, rest), |p|, units[1..], n, f)
    ensures WalksFilled(prefix + FilledImage(units, n, f, rest), |prefix|, units, n, f)
  {
    NoFillBytes(prefix, units, n, f, rest);
    UnitSkipped(prefix, units[0].1, FilledImage(units[1..], n, f, rest), units, n, f);
  }

  lemma UnitSkipped(prefix: seq<Byte>, s: Segment, more: seq<Byte>, units: seq<(nat, Segment)>, n: nat, f: Frame)
    requires units != [] && units[0] == (0, s) && |more| >= 10
    requires forall i :: 0 <= i < |units| ==> ValidSegment(units[i].1)
    requires WalksFilled(prefix + EncodeSegment(s) + more, |prefix + EncodeSegment(s)|, units[1..], n, f)
    ensures WalksFilled(prefix + EncodeSegment(s) + more, |prefix|, units, n, f)
  {
    SegmentSkipped(prefix, s, more);
    UnfilledHead(prefix + EncodeSegment(s) + more, |prefix|, units, n, f);
  }

  /** For files of any size: without fill bytes the size is found; otherwise the walk follows the jump at the
      first fill byte, wherever that leads. With high markers and less than 48 KiB it leads nowhere. */
  lemma {:induction false} FilledImageDecodes(
    prefix: seq<Byte>, units: seq<(nat, Segment)>, n: nat, f: Frame, rest: seq<Byte>)
    requires ValidFrame(f) && forall i :: 0 <= i < |units| ==> ValidSegment(units[i].1)
    ensures WalksFilled(prefix + FilledImage(units, n, f, rest), |prefix|, units, n, f)
    decreases units
  {
    if units == [] {
      FrameOnly(prefix, n, f, rest);
    } else if units[0].0 > 0 {
      Filled(prefix, units, n, f, rest);
    } else {
      FilledImageDecodes(prefix + EncodeSegment(units[0].1), units[1..], n, f, rest);
      Unfilled(prefix, units, n, f, rest);
    }
  }

  function Zeros(n: nat): seq<Byte> {
    seq(n, _ => 0)
  }

  /** A Huffman table whose payload holds a frame header where a single fill byte before it makes the walk land. */
  function Decoy(width: nat, height: nat): (payload: seq<Byte>)
    requires width < 65536 && height < 65536
    ensures |payload| == 65533
  {
    Zeros(0xc4fc) + EncodeFrame(Frame(0xc0, 8, height, width, [0])) + Zeros(65533 - 0xc4fc - 10)
  }

  lemma DecoyLands(b: seq<Byte>, width: nat, height: nat, rest: seq<Byte>)
    requires width < 65536 && height < 65536
    requires b == [0xff, 0xd8, 0xff, 0xff, 0xc4, 0xff, 0xff] + Decoy(width, height) + rest
    ensures Jump(b, 2) == Some(Dimensions(width, height))
  {
    var fake := Frame(0xc0, 8, height, width, [0]);
    var before := [0xff, 0xd8, 0xff, 0xff, 0xc4, 0xff, 0xff] + Zeros(0xc4fc);
    assert b == before + EncodeFrame(fake) + (Zeros(65533 - 0xc4fc - 10) + rest);
    FrameFound(before, fake, Zeros(65533 - 0xc4fc - 10) + rest);
    assert Word(b, 4) == 0xc4ff;
  }

  lemma DecoyBytes(f: Frame, width: nat, height: nat, rest: seq<Byte>)
    requires ValidFrame(f) && width < 65536 && height < 65536
    ensures [0xff, 0xd8] + FilledImage([(1, Table(0xc4, Decoy(width, height)))], 0, f, rest) ==
            [0xff, 0xd8, 0xff, 0xff, 0xc4, 0xff, 0xff] + Decoy(width, height) + (EncodeFrame(f) + rest)
  {
    var s := Table(0xc4, Decoy(width, height));
    assert Fill(1) == [0xff] && Fill(0) == [];
    assert EncodeSegment(s) == [0xff, 0xc4] + [0xff, 0xff] + Decoy(width, height);
    assert EncodeFilled([(1, s)]) == Fill(1) + EncodeSegment(s) + [];
  }

  /** In larger files one fill byte can make the walk return any size at all, whatever the frame says. */
  lemma FillMisleads(f: Frame, width: nat, height: nat, rest: seq<Byte>)
    requires ValidFrame(f) && width < 65536 && height < 65536
    ensures Walk([0xff, 0xd8] + FilledImage([(1, Table(0xc4, Decoy(width, height)))], 0, f, rest), 2) ==
            Some(Dimensions(width, height))
  {
    var units := [(1, Table(0xc4, Decoy(width, height)))];
    FilledImageDecodes([0xff, 0xd8], units, 0, f, rest);
    assert units[0].0 == 1;
    DecoyBytes(f, width, height, rest);
    DecoyLands([0xff, 0xd8] + FilledImage(units, 0, f, rest), width, height, EncodeFrame(f) + rest);
  }
}
