/**
 Gangway tripwire: which side of the line a track was last seen on, a confidence gate in
 front of side changes, and a bounded table in order of last write.
 */
module Tripwire {
  import opened Collections
  import opened Keys

  datatype Side = From | To

  datatype Traversal = FromTo | ToFrom

  datatype Zone = Fwd | Aft

  datatype Point = Point(x: real, y: real)

  datatype Box = Box(xmin: real, ymin: real, xmax: real, ymax: real)

  /** One frame of one track, reduced to its side of the line. */
  datatype Detection = Detection(track: int, side: Side, confidence: Option<real>)

  datatype WagonEvent =
    | WagonExit(track: int, traversal: Traversal, expectOrphan: bool)
    | WagonEntry(track: int, traversal: Traversal)

  /** An OrderedDict: keys from least to most recently written, and their values. */
  datatype Table = Table(order: seq<int>, side: map<int, Side>)

  const CONFIDENCE_THRESHOLD := 0.70

  const LAST_SIDE_MAX_SIZE := 2000

  const EVICT_COUNT := LAST_SIDE_MAX_SIZE / 4

  const EMPTY := Table([], map[])

  // ---------------------------------------------------------------- the line

  function Cross(poly: seq<Point>, p: Point): real
    requires |poly| >= 2
  {
    (poly[1].x - poly[0].x) * (p.y - poly[0].y) - (poly[1].y - poly[0].y) * (p.x - poly[0].x)
  }

  function CentroidSide(poly: seq<Point>, p: Point): Side {
    if |poly| < 2 then From else if Cross(poly, p) >= 0.0 then From else To
  }

  /** Reversing the line swaps the sides of every point that is not on it. */
  lemma ReversedLineSwapsSides(a: Point, b: Point, p: Point)
    ensures Cross([b, a], p) == -Cross([a, b], p)
    ensures CentroidSide([a, b], p) != CentroidSide([b, a], p) <==> Cross([a, b], p) != 0.0
  {
    var dx, dy := b.x - a.x, b.y - a.y;
    assert (-dx) * (p.y - b.y) == -(dx * (p.y - a.y)) + dx * dy;
    assert (-dy) * (p.x - b.x) == -(dy * (p.x - a.x)) + dy * dx;
  }

  /**
   For the vertical line of the documentation, "cx < 320 is from, cx >= 320 is to" is what the code
   computes for a centroid if and only if the centroid is not on the line.
   */
  lemma VerticalLineIff(p: Point)
    ensures var line := [Point(320.0, 0.0), Point(320.0, 480.0)];
            CentroidSide(line, p) == (if p.x < 320.0 then From else To) <==> p.x != 320.0
  {
  }

  lemma SquarePositive(x: real)
    ensures x * x >= 0.0 && (x != 0.0 ==> x * x > 0.0)
  {
  }

  lemma Regroup(x: real, y: real, z: real)
    ensures x * (y * z) == y * (x * z)
  {
  }

  /**
   A centroid t lengths along the line from a and s lengths off it, measured along the direction of the
   line turned by a quarter, is on the `from` side exactly when s is not negative. Further vertices of the
   polyline do not matter.
   */
  lemma SideOfOffset(a: Point, b: Point, more: seq<Point>, t: real, s: real)
    requires a != b
    ensures var dx, dy := b.x - a.x, b.y - a.y;
            CentroidSide([a, b] + more, Point(a.x + t * dx - s * dy, a.y + t * dy + s * dx)) == From <==> s >= 0.0
  {
    var dx, dy := b.x - a.x, b.y - a.y;
    var tx, ty, sx, sy := t * dx, t * dy, s * dx, s * dy;
    var length2 := dx * dx + dy * dy;
    SquarePositive(dx);
    SquarePositive(dy);
    assert dx != 0.0 || dy != 0.0;
    assert dx * (ty + sx) == dx * ty + dx * sx && dy * (tx - sy) == dy * tx - dy * sy;
    Regroup(dx, t, dy);
    Regroup(dy, t, dx);
    Regroup(dx, s, dx);
    Regroup(dy, s, dy);
    assert s * length2 == s * (dx * dx) + s * (dy * dy);
    assert s >= 0.0 ==> s * length2 >= 0.0;
    assert s < 0.0 ==> s * length2 < 0.0;
  }

  // ---------------------------------------------------------------- the table

  function Evict(t: Table): Table {
    if |t.order| > LAST_SIDE_MAX_SIZE
    then Table(t.order[EVICT_COUNT..], t.side - set k | k in t.order[..EVICT_COUNT])
    else t
  }

  function Touch(t: Table, track: int, side: Side): Table {
    Evict(Table(Without(t.order, track) + [track], t.side[track := side]))
  }

  predicate Confident(d: Detection) {
    d.confidence.Some? && d.confidence.value >= CONFIDENCE_THRESHOLD
  }

  predicate Crosses(t: Table, d: Detection) {
    d.track in t.side && t.side[d.track] != d.side
  }

  predicate Writes(t: Table, d: Detection) {
    Crosses(t, d) ==> Confident(d)
  }

  function Detect(t: Table, d: Detection): Table {
    if Writes(t, d) then Touch(t, d.track, d.side) else t
  }

  function Crossing(t: Table, d: Detection): Option<Traversal> {
    if Crosses(t, d) && Confident(d) then Some(if t.side[d.track] == From then FromTo else ToFrom) else None
  }

  function EventOf(zone: Zone, track: int, traversal: Traversal): WagonEvent {
    match zone
    case Aft => WagonEntry(track, traversal)
    case Fwd => WagonExit(track, traversal, traversal == ToFrom)
  }

  ghost predicate TableOk(t: Table) {
    && Distinct(t.order)
    && (forall k :: k in t.order <==> k in t.side)
  }

  class TripwireHandler {
    const zone: Zone
    const poly: seq<Point>
    var order: seq<int>
    var lastSide: map<int, Side>

    function View(): Table
      reads this
    {
      Table(order, lastSide)
    }

    ghost predicate Valid()
      reads this
    {
      TableOk(View()) && |order| <= LAST_SIDE_MAX_SIZE
    }

    constructor (zone: Zone, poly: seq<Point>)
      ensures Valid() && View() == EMPTY && this.zone == zone && this.poly == poly
    {
      this.zone, this.poly, order, lastSide := zone, poly, [], map[];
    }

    /** The synchronous part of a detection; the event, if any, is emitted afterwards. */
    method HandleDetection(track: int, bbox: Box, confidence: Option<real>) returns (event: Option<WagonEvent>)
      requires Valid()
      modifies this
      ensures Valid()
      ensures var centre := Point((bbox.xmin + bbox.xmax) / 2.0, (bbox.ymin + bbox.ymax) / 2.0);
              var d := Detection(track, CentroidSide(poly, centre), confidence);
              && View() == Detect(old(View()), d)
              && event == (match Crossing(old(View()), d)
                           case None => None
                           case Some(traversal) => Some(EventOf(zone, track, traversal)))
    {
      var cx, cy := (bbox.xmin + bbox.xmax) / 2.0, (bbox.ymin + bbox.ymax) / 2.0;
      var currentSide := CentroidSide(poly, Point(cx, cy));
      TouchOk(View(), track, currentSide);
      if track !in lastSide || lastSide[track] == currentSide {
        Write(track, currentSide);
        return None;
      }
      var prevSide := lastSide[track];
      if confidence.None? || confidence.value < CONFIDENCE_THRESHOLD {
        return None;
      }
      Write(track, currentSide);
      var traversal := if prevSide == From then FromTo else ToFrom;
      return Some(EventOf(zone, track, traversal));
    }

    method Write(track: int, side: Side)
      modifies this
      ensures View() == Touch(old(View()), track, side)
    {
      order, lastSide := Without(order, track) + [track], lastSide[track := side];
      if |order| > LAST_SIDE_MAX_SIZE {
        lastSide := lastSide - set k | k in order[..EVICT_COUNT];
        order := order[EVICT_COUNT..];
      }
    }
  }

  // ---------------------------------------------------------------- recency and eviction

  lemma EvictOk(t: Table)
    requires TableOk(t) && |t.order| <= LAST_SIDE_MAX_SIZE + 1
    ensures TableOk(Evict(t)) && |Evict(t).order| <= LAST_SIDE_MAX_SIZE
  {
    if |t.order| > LAST_SIDE_MAX_SIZE {
      var old_, new_ := t.order[..EVICT_COUNT], t.order[EVICT_COUNT..];
      assert t.order == old_ + new_;
      forall k | k in old_ ensures k !in new_ {
        var i :| 0 <= i < |old_| && old_[i] == k;
        assert t.order[i] == k;
        assert forall j | 0 <= j < |new_| :: new_[j] == t.order[EVICT_COUNT + j];
      }
    }
  }

  /** Between detections the table never holds more than 2000 tracks. */
  lemma TouchOk(t: Table, track: int, side: Side)
    requires TableOk(t) && |t.order| <= LAST_SIDE_MAX_SIZE
    ensures TableOk(Touch(t, track, side)) && |Touch(t, track, side).order| <= LAST_SIDE_MAX_SIZE
  {
    WithoutKeeps(t.order, track);
    EvictOk(Table(Without(t.order, track) + [track], t.side[track := side]));
  }

  ghost function RunTable(t: Table, ds: seq<Detection>): Table
    decreases |ds|
  {
    if ds == [] then t else RunTable(Detect(t, ds[0]), ds[1..])
  }

  /** The tracks written along a run, in order. */
  ghost function Written(t: Table, ds: seq<Detection>): seq<int>
    decreases |ds|
  {
    if ds == [] then []
    else (if Writes(t, ds[0]) then [ds[0].track] else []) + Written(Detect(t, ds[0]), ds[1..])
  }

  /** The tracks written after the last write of `track`. */
  ghost function Since(written: seq<int>, track: int): set<int> {
    if written == [] then {}
    else
      var last := written[|written| - 1];
      if last == track then {} else Since(written[..|written| - 1], track) + {last}
  }

  /** `order` lists tracks by recency of last write. */
  ghost predicate ByRecency(order: seq<int>, written: seq<int>) {
    forall i, j | 0 <= i < j < |order| ::
      order[j] in Since(written, order[i]) && order[i] !in Since(written, order[j])
  }

  lemma SinceSnoc(written: seq<int>, last: int, track: int)
    ensures Since(written + [last], track) == if last == track then {} else Since(written, track) + {last}
  {
    assert (written + [last])[..|written|] == written;
  }

  lemma {:induction false} WithoutByRecency(order: seq<int>, written: seq<int>, track: int)
    requires ByRecency(order, written) && Distinct(order)
    ensures ByRecency(Without(order, track), written)
  {
    if order != [] {
      var rest := order[1..];
      assert forall i | 0 <= i < |rest| :: rest[i] == order[i + 1];
      WithoutByRecency(rest, written, track);
      WithoutKeeps(rest, track);
      forall k | k in Without(rest, track)
        ensures k in Since(written, order[0]) && order[0] !in Since(written, k)
      {
        var j :| 0 <= j < |rest| && rest[j] == k;
        assert order[j + 1] == k;
      }
    }
  }

  lemma WriteByRecency(order: seq<int>, written: seq<int>, track: int)
    requires ByRecency(order, written) && Distinct(order)
    ensures ByRecency(Without(order, track) + [track], written + [track])
  {
    var kept := Without(order, track);
    WithoutKeeps(order, track);
    WithoutByRecency(order, written, track);
    forall x { SinceSnoc(written, track, x); }
    forall i | 0 <= i < |kept| ensures kept[i] != track { assert kept[i] in kept; }
  }

  /** Along every run: bounded, in order of last write. */
  lemma {:induction false} TableIsLru(t: Table, written: seq<int>, ds: seq<Detection>)
    requires TableOk(t) && |t.order| <= LAST_SIDE_MAX_SIZE && ByRecency(t.order, written)
    ensures var u := RunTable(t, ds);
            TableOk(u) && |u.order| <= 2000 && ByRecency(u.order, written + Written(t, ds))
    decreases |ds|
  {
    if ds == [] {
      assert written + [] == written;
    } else {
      var d, u := ds[0], Detect(t, ds[0]);
      if Writes(t, d) {
        TouchOk(t, d.track, d.side);
        WriteByRecency(t.order, written, d.track);
        TableIsLru(u, written + [d.track], ds[1..]);
        assert written + [d.track] + Written(u, ds[1..]) == written + Written(t, ds);
      } else {
        TableIsLru(u, written, ds[1..]);
        assert written + Written(u, ds[1..]) == written + Written(t, ds);
      }
    }
  }

  /** A new track in a full table makes room by dropping the 500 tracks not written for longest. */
  lemma FullTableDropsOldest(t: Table, d: Detection)
    requires TableOk(t) && |t.order| == 2000 && d.track !in t.side
    ensures var u := Detect(t, d);
            && u.order == t.order[500..] + [d.track]
            && d.track in u.side && u.side[d.track] == d.side
            && (forall k | k in t.order[500..] :: k in t.side && k in u.side && u.side[k] == t.side[k])
            && (forall k | k in t.order[..500] :: k !in u.side)
  {
    WithoutAbsent(t.order, d.track);
    SplitDistinct(t.order, 500);
    EvictsHead(t, d.track, d.side);
  }

  lemma EvictsHead(t: Table, track: int, side: Side)
    requires TableOk(t) && |t.order| == 2000 && track !in t.order
    requires forall k | k in t.order[..500] :: k !in t.order[500..]
    ensures var u := Evict(Table(t.order + [track], t.side[track := side]));
            && u.order == t.order[500..] + [track]
            && track in u.side && u.side[track] == side
            && (forall k | k in t.order[500..] :: k in t.side && k in u.side && u.side[k] == t.side[k])
            && (forall k | k in t.order[..500] :: k !in u.side)
  {
    var order := t.order + [track];
    assert order[..500] == t.order[..500] && order[500..] == t.order[500..] + [track];
    assert t.order == t.order[..500] + t.order[500..];
  }

  lemma {:induction false} WithoutAbsent(s: seq<int>, x: int)
    requires x !in s
    ensures Without(s, x) == s
  {
    if s != [] {
      WithoutAbsent(s[1..], x);
    }
  }

  lemma SplitDistinct(s: seq<int>, n: nat)
    requires Distinct(s) && n <= |s|
    ensures forall k | k in s[..n] :: k !in s[n..]
  {
    forall k | k in s[..n] ensures k !in s[n..] {
      var i :| 0 <= i < n && s[i] == k;
      assert forall j | 0 <= j < |s[n..]| :: s[n..][j] == s[n + j];
    }
  }

  ghost function Elements(s: seq<int>): set<int> {
    set k | k in s
  }

  lemma {:induction false} DistinctCount(s: seq<int>)
    requires Distinct(s)
    ensures |Elements(s)| == |s|
  {
    if s != [] {
      DistinctCount(s[1..]);
      assert s == [s[0]] + s[1..];
      assert Elements(s) == {s[0]} + Elements(s[1..]) && s[0] !in s[1..];
    }
  }

  /** A track is dropped only when at least 1501 other tracks were written since its own last write. */
  lemma DroppedOnlyWhenStale(t: Table, written: seq<int>, d: Detection, track: int)
    requires TableOk(t) && |t.order| <= LAST_SIDE_MAX_SIZE && ByRecency(t.order, written)
    requires track in t.side && track !in Detect(t, d).side
    ensures |Since(written + [d.track], track)| >= 1501 && track !in Since(written + [d.track], track)
  {
    WithoutKeeps(t.order, d.track);
    WriteByRecency(t.order, written, d.track);
    var order, after := Without(t.order, d.track) + [d.track], written + [d.track];
    assert track in order[..EVICT_COUNT];
    var p :| 0 <= p < EVICT_COUNT && order[p] == track;
    var newer := order[p + 1..];
    assert forall j | 0 <= j < |newer| :: newer[j] == order[p + 1 + j];
    DistinctCount(newer);
    assert Elements(newer) <= Since(after, track);
    SubsetSize(Elements(newer), Since(after, track));
    NotSinceItself(after, track);
  }

  lemma {:induction false} NotSinceItself(written: seq<int>, track: int)
    ensures track !in Since(written, track)
    decreases |written|
  {
    if written != [] {
      NotSinceItself(written[..|written| - 1], track);
    }
  }

  // ---------------------------------------------------------------- debouncing

  /** The crossings of one track along a run it shares with others. */
  ghost function Crossings(t: Table, ds: seq<Detection>, track: int): seq<Traversal>
    decreases |ds|
  {
    if ds == [] then []
    else
      var c := if ds[0].track == track then Crossing(t, ds[0]) else None;
      (if c.Some? then [c.value] else []) + Crossings(Detect(t, ds[0]), ds[1..], track)
  }

  ghost predicate NeverEvicted(t: Table, ds: seq<Detection>, track: int)
    decreases |ds|
  {
    ds == [] ||
    ((track in t.side ==> track in Detect(t, ds[0]).side) && NeverEvicted(Detect(t, ds[0]), ds[1..], track))
  }

  /** The sides of a track's confident frames, and of its first sighting. */
  function Kept(seen: bool, ds: seq<Detection>, track: int): seq<Side>
    decreases |ds|
  {
    if ds == [] then []
    else if ds[0].track == track && (!seen || (ds[0].confidence.Some? && ds[0].confidence.value >= 0.70))
      then [ds[0].side] + Kept(true, ds[1..], track)
    else Kept(seen, ds[1..], track)
  }

  /** The changes along a sequence of sides. */
  function Changes(prev: Option<Side>, sides: seq<Side>): seq<Traversal>
    decreases |sides|
  {
    if sides == [] then []
    else if prev.None? || prev.value == sides[0] then Changes(Some(sides[0]), sides[1..])
    else [if sides[0] == To then FromTo else ToFrom] + Changes(Some(sides[0]), sides[1..])
  }

  function SideOf(t: Table, track: int): Option<Side> {
    if track in t.side then Some(t.side[track]) else None
  }

  function LastOf(prev: Option<Side>, sides: seq<Side>): Option<Side> {
    if sides == [] then prev else Some(sides[|sides| - 1])
  }

  /**
   Debouncing: whatever other tracks do in between, the crossings of a track that is not evicted are
   the side changes of its confident frames, and the table holds the side of the last of them.
   */
  lemma {:induction false} CrossingsAreConfidentChanges(t: Table, ds: seq<Detection>, track: int)
    requires TableOk(t) && |t.order| <= LAST_SIDE_MAX_SIZE && NeverEvicted(t, ds, track)
    ensures Crossings(t, ds, track) == Changes(SideOf(t, track), Kept(track in t.side, ds, track))
    ensures SideOf(RunTable(t, ds), track) == LastOf(SideOf(t, track), Kept(track in t.side, ds, track))
    decreases |ds|
  {
    if ds != [] {
      var d, u := ds[0], Detect(t, ds[0]);
      TouchOk(t, d.track, d.side);
      CrossingsAreConfidentChanges(u, ds[1..], track);
      if d.track != track {
        OthersKeepSide(t, d, track);
      } else {
        WrittenStays(t, d);
        KeptFirst(track in t.side, ds);
      }
    }
  }

  lemma KeptFirst(seen: bool, ds: seq<Detection>)
    requires ds != []
    ensures Kept(seen, ds, ds[0].track)
         == if !seen || Confident(ds[0]) then [ds[0].side] + Kept(true, ds[1..], ds[0].track)
            else Kept(seen, ds[1..], ds[0].track)
  {
  }

  /** The track just written is the newest, so it is never the one evicted. */
  lemma WrittenStays(t: Table, d: Detection)
    requires TableOk(t) && |t.order| <= LAST_SIDE_MAX_SIZE
    ensures Writes(t, d) ==> SideOf(Detect(t, d), d.track) == Some(d.side)
  {
    WithoutKeeps(t.order, d.track);
    var order := Without(t.order, d.track) + [d.track];
    if |order| > LAST_SIDE_MAX_SIZE {
      assert forall i | 0 <= i < EVICT_COUNT :: order[i] == Without(t.order, d.track)[i];
      assert forall i | 0 <= i < EVICT_COUNT :: order[i] in Without(t.order, d.track);
      assert d.track !in order[..EVICT_COUNT];
    }
  }

  lemma OthersKeepSide(t: Table, d: Detection, track: int)
    requires d.track != track && (track in t.side ==> track in Detect(t, d).side)
    ensures SideOf(Detect(t, d), track) == SideOf(t, track)
  {
  }

  /**
   Told from the detections alone: since the last confident detection of the track, fewer than 1501
   other tracks are ever detected. `others` are those detected so far.
   */
  ghost predicate Uncrowded(others: set<int>, ds: seq<Detection>, track: int)
    decreases |ds|
  {
    ds == [] ||
    var now := OthersAfter(others, ds[0], track);
    |now| < 1501 && Uncrowded(now, ds[1..], track)
  }

  ghost function OthersAfter(others: set<int>, d: Detection, track: int): set<int> {
    if d.track != track then others + {d.track} else if Confident(d) then {} else others
  }

  /** A detection does not evict the track while few others were written since its own last write. */
  lemma OneUncrowdedStep(t: Table, written: seq<int>, d: Detection, track: int, others: set<int>)
    requires TableOk(t) && |t.order| <= LAST_SIDE_MAX_SIZE && ByRecency(t.order, written)
    requires track in t.side ==> Since(written, track) <= others
    requires |OthersAfter(others, d, track)| < 1501
    ensures track in t.side ==> track in Detect(t, d).side
    ensures var after := if Writes(t, d) then written + [d.track] else written;
            track in Detect(t, d).side ==> Since(after, track) <= OthersAfter(others, d, track)
  {
    SinceSnoc(written, d.track, track);
    WrittenStays(t, d);
    if track in t.side && track !in Detect(t, d).side {
      DroppedOnlyWhenStale(t, written, d, track);
      assert d.track != track;
      SubsetSize(Since(written + [d.track], track), OthersAfter(others, d, track));
      assert false;
    }
    if d.track != track && track !in t.side {
      WithoutKeeps(t.order, d.track);
    }
  }

  lemma {:induction false} UncrowdedIsNeverEvicted(t: Table, written: seq<int>, others: set<int>, ds: seq<Detection>,
                                                   track: int)
    requires TableOk(t) && |t.order| <= LAST_SIDE_MAX_SIZE && ByRecency(t.order, written)
    requires track in t.side ==> Since(written, track) <= others
    requires Uncrowded(others, ds, track)
    ensures NeverEvicted(t, ds, track)
    decreases |ds|
  {
    if ds != [] {
      var d, u := ds[0], Detect(t, ds[0]);
      OneUncrowdedStep(t, written, d, track, others);
      if Writes(t, d) {
        TouchOk(t, d.track, d.side);
        WriteByRecency(t.order, written, d.track);
        EvictKeepsRecency(Without(t.order, d.track) + [d.track], written + [d.track]);
        UncrowdedIsNeverEvicted(u, written + [d.track], OthersAfter(others, d, track), ds[1..], track);
      } else {
        UncrowdedIsNeverEvicted(u, written, OthersAfter(others, d, track), ds[1..], track);
      }
    }
  }

  lemma EvictKeepsRecency(order: seq<int>, written: seq<int>)
    requires ByRecency(order, written)
    ensures |order| > EVICT_COUNT ==> ByRecency(order[EVICT_COUNT..], written)
  {
  }

  /** From an empty table: debouncing with its hypothesis told from the detections. */
  lemma UncrowdedTrackIsDebounced(ds: seq<Detection>, track: int)
    requires Uncrowded({}, ds, track)
    ensures Crossings(EMPTY, ds, track) == Changes(None, Kept(false, ds, track))
  {
    UncrowdedIsNeverEvicted(EMPTY, [], {}, ds, track);
    CrossingsAreConfidentChanges(EMPTY, ds, track);
  }

  /** The events a run emits for one track. */
  ghost function Events(zone: Zone, t: Table, ds: seq<Detection>, track: int): seq<WagonEvent>
    decreases |ds|
  {
    if ds == [] then []
    else
      var c := if ds[0].track == track then Crossing(t, ds[0]) else None;
      (if c.Some? then [EventOf(zone, track, c.value)] else []) + Events(zone, Detect(t, ds[0]), ds[1..], track)
  }

  /** The event of one crossing: its kind is the camera's zone, and an exit back to the `from` side is an orphan. */
  predicate Tells(zone: Zone, track: int, e: WagonEvent, c: Traversal) {
    && e.track == track && e.traversal == c
    && (if zone == Aft then e.WagonEntry? else e.WagonExit? && (e.expectOrphan <==> c == ToFrom))
  }

  lemma {:induction false} EventsTell(zone: Zone, t: Table, ds: seq<Detection>, track: int)
    ensures var evs, cs := Events(zone, t, ds, track), Crossings(t, ds, track);
            |evs| == |cs| && forall i | 0 <= i < |cs| :: Tells(zone, track, evs[i], cs[i])
    decreases |ds|
  {
    if ds != [] {
      EventsTell(zone, Detect(t, ds[0]), ds[1..], track);
    }
  }

  /** From an empty table: an uncrowded track's events are, one for one, the side changes of its confident frames. */
  lemma EventsTellCrossings(zone: Zone, ds: seq<Detection>, track: int)
    requires Uncrowded({}, ds, track)
    ensures var evs, cs := Events(zone, EMPTY, ds, track), Changes(None, Kept(false, ds, track));
            |evs| == |cs| && forall i | 0 <= i < |cs| :: Tells(zone, track, evs[i], cs[i])
  {
    UncrowdedTrackIsDebounced(ds, track);
    EventsTell(zone, EMPTY, ds, track);
  }

  function Count(c: Traversal, cs: seq<Traversal>): nat {
    if cs == [] then 0 else (if cs[0] == c then 1 else 0) + Count(c, cs[1..])
  }

  function IsTo(s: Option<Side>): int {
    if s == Some(To) then 1 else 0
  }

  /** Traversals strictly alternate, and their balance is where the track ended minus where it began. */
  lemma {:induction false} TraversalsAlternate(prev: Option<Side>, sides: seq<Side>)
    requires sides != []
    ensures var cs := Changes(prev, sides);
            && (forall i | 0 <= i < |cs| - 1 :: cs[i] != cs[i + 1])
            && (cs != [] && prev.Some? ==> cs[0] == if prev.value == From then FromTo else ToFrom)
            && Count(FromTo, cs) - Count(ToFrom, cs)
               == IsTo(LastOf(prev, sides)) - IsTo(if prev.Some? then prev else Some(sides[0]))
    decreases |sides|
  {
    var rest := sides[1..];
    if rest != [] {
      TraversalsAlternate(Some(sides[0]), rest);
      assert rest[|rest| - 1] == sides[|sides| - 1];
    }
    var cs, tail := Changes(prev, sides), Changes(Some(sides[0]), rest);
    if prev.Some? && prev.value != sides[0] {
      assert cs[1..] == tail;
      assert forall i | 0 <= i < |tail| - 1 :: cs[i + 1] == tail[i];
    }
  }
}
