/** The threshold events of one car's sequential run, against a two-level hysteresis automaton. */
module Hysteresis {
  import opened Keys
  import opened ZoneCounter

  /** The automaton looks at the new count only. */
  function Trip(cfg: Settings, capacity: nat, dir: Direction, count: nat): Option<Direction> {
    if dir == Falling && RisingAt(cfg, capacity) <= count as real then Some(Rising)
    else if dir == Rising && count as real <= FallingAt(cfg, capacity) then Some(Falling)
    else None
  }

  function Automaton(cfg: Settings, capacity: nat, dir: Direction, us: seq<Update>): seq<Direction>
    decreases |us|
  {
    if us == [] then []
    else
      var d := Trip(cfg, capacity, dir, us[0].count);
      if d.Some? then [d.value] + Automaton(cfg, capacity, d.value, us[1..])
      else Automaton(cfg, capacity, dir, us[1..])
  }

  /** The events the counter commits from a given count and direction on. */
  function Events(cfg: Settings, capacity: nat, count: nat, last: Option<Direction>, us: seq<Update>): seq<Direction>
    decreases |us|
  {
    if us == [] then []
    else
      var d := if us[0].posted then Threshold(cfg, capacity, count, us[0].count, last) else None;
      if d.Some? then [d.value] + Events(cfg, capacity, us[0].count, d, us[1..])
      else Events(cfg, capacity, us[0].count, last, us[1..])
  }

  /** The two ways of writing a sequential run agree. */
  lemma {:induction false} EventsOfTrace(cfg: Settings, capacity: nat, us: seq<Update>, more: seq<Update>)
    ensures var t := ApplyAll(cfg, capacity, FRESH, us);
            Events(cfg, capacity, 0, None, us + more) == t.events + Events(cfg, capacity, t.count, t.last, more)
    decreases |us|
  {
    if us == [] {
      assert us + more == more;
    } else {
      var n := |us| - 1;
      EventsOfTrace(cfg, capacity, us[..n], [us[n]] + more);
      assert us[..n] + ([us[n]] + more) == us + more;
      assert ([us[n]] + more)[1..] == more;
    }
  }

  /** On the side of the band where its last event left it. */
  ghost predicate Settled(cfg: Settings, capacity: nat, count: nat, dir: Direction) {
    match dir
    case Rising => FallingAt(cfg, capacity) < count as real
    case Falling => count as real < RisingAt(cfg, capacity)
  }

  /**
   After the first crossing, and while every occupancy POST succeeds, the counter is the automaton:
   its tests of the previous count decide nothing.
   */
  lemma {:induction false} RefinesAutomaton(cfg: Settings, capacity: nat, count: nat, dir: Direction, us: seq<Update>)
    requires cfg.deadband > 0 && Settled(cfg, capacity, count, dir)
    requires forall u | u in us :: u.posted
    ensures Events(cfg, capacity, count, Some(dir), us) == Automaton(cfg, capacity, dir, us)
    decreases |us|
  {
    if us != [] {
      assert us[0] in us;
      var d := Trip(cfg, capacity, dir, us[0].count);
      assert d == Threshold(cfg, capacity, count, us[0].count, Some(dir));
      RefinesAutomaton(cfg, capacity, us[0].count, if d.Some? then d.value else dir, us[1..]);
    }
  }

  /** Every committed event leaves the car settled, so the refinement applies from then on. */
  lemma EventSettles(cfg: Settings, capacity: nat, prev: nat, count: nat, last: Option<Direction>)
    requires cfg.deadband > 0 && Threshold(cfg, capacity, prev, count, last).Some?
    ensures Settled(cfg, capacity, count, Threshold(cfg, capacity, prev, count, last).value)
  {
  }

  /** What each update commits, aligned with the updates. */
  function Fired(cfg: Settings, capacity: nat, count: nat, last: Option<Direction>, us: seq<Update>):
    (r: seq<Option<Direction>>)
    ensures |r| == |us|
    decreases |us|
  {
    if us == [] then []
    else
      var d := if us[0].posted then Threshold(cfg, capacity, count, us[0].count, last) else None;
      [d] + Fired(cfg, capacity, us[0].count, if d.Some? then d else last, us[1..])
  }

  /** What the automaton does at each update; it knows nothing of POSTs. */
  function Tripped(cfg: Settings, capacity: nat, dir: Direction, us: seq<Update>): (r: seq<Option<Direction>>)
    ensures |r| == |us|
    decreases |us|
  {
    if us == [] then []
    else
      var d := Trip(cfg, capacity, dir, us[0].count);
      [d] + Tripped(cfg, capacity, if d.Some? then d.value else dir, us[1..])
  }

  function Values(ds: seq<Option<Direction>>): seq<Direction> {
    if ds == [] then [] else (if ds[0].Some? then [ds[0].value] else []) + Values(ds[1..])
  }

  /** Without their alignment these are the events of the counter and of the automaton. */
  lemma {:induction false} AlignedEvents(cfg: Settings, capacity: nat, count: nat, last: Option<Direction>,
                                         dir: Direction, us: seq<Update>)
    ensures Values(Fired(cfg, capacity, count, last, us)) == Events(cfg, capacity, count, last, us)
    ensures Values(Tripped(cfg, capacity, dir, us)) == Automaton(cfg, capacity, dir, us)
    decreases |us|
  {
    if us != [] {
      var d := if us[0].posted then Threshold(cfg, capacity, count, us[0].count, last) else None;
      var e := Trip(cfg, capacity, dir, us[0].count);
      AlignedEvents(cfg, capacity, us[0].count, if d.Some? then d else last, if e.Some? then e.value else dir, us[1..]);
    }
  }

  /**
   A failed POST skips the check of its update. Whatever updates fail, the counter does at every update
   what the automaton does exactly when the automaton trips at none of the failed ones.
   */
  lemma {:induction false} FailedPostSwallowsCrossingIff(cfg: Settings, capacity: nat, count: nat, dir: Direction,
                                                         us: seq<Update>)
    requires cfg.deadband > 0 && Settled(cfg, capacity, count, dir)
    ensures Fired(cfg, capacity, count, Some(dir), us) == Tripped(cfg, capacity, dir, us)
            <==> forall i | 0 <= i < |us| && !us[i].posted :: Tripped(cfg, capacity, dir, us)[i].None?
    decreases |us|
  {
    if us != [] {
      var u, rest := us[0], us[1..];
      var fired, tripped := Fired(cfg, capacity, count, Some(dir), us), Tripped(cfg, capacity, dir, us);
      var d := Trip(cfg, capacity, dir, u.count);
      assert tripped[1..] == Tripped(cfg, capacity, if d.Some? then d.value else dir, rest);
      assert forall i | 0 < i < |us| :: us[i] == rest[i - 1] && tripped[i] == tripped[1..][i - 1];
      if u.posted || d.None? {
        assert fired[0] == d;
        FailedPostSwallowsCrossingIff(cfg, capacity, u.count, if d.Some? then d.value else dir, rest);
        assert fired[1..] == Fired(cfg, capacity, u.count, Some(if d.Some? then d.value else dir), rest);
        assert fired == [d] + fired[1..] && tripped == [d] + tripped[1..];
        assert forall i | 0 <= i < |rest| :: rest[i] == us[i + 1] && tripped[1..][i] == tripped[i + 1];
      } else {
        assert fired[0] == None && tripped[0] == d;
      }
    }
  }

  /** A swallowed rise may still come late: a fall back into the band and the same rise again, posted. */
  lemma SwallowedThenLate(cfg: Settings, capacity: nat, count: nat, n: nat, m: nat, at: real)
    requires cfg.deadband > 0 && Settled(cfg, capacity, count, Falling)
    requires RisingAt(cfg, capacity) <= n as real && FallingAt(cfg, capacity) < m as real < RisingAt(cfg, capacity)
    ensures var us := [Update(n, at, false), Update(m, at + 1.0, true), Update(n, at + 2.0, true)];
            && Fired(cfg, capacity, count, Some(Falling), us) == [None, None, Some(Rising)]
            && Tripped(cfg, capacity, Falling, us) == [Some(Rising), None, None]
  {
    var a, b, c := Update(n, at, false), Update(m, at + 1.0, true), Update(n, at + 2.0, true);
    assert [a, b, c][1..] == [b, c] && [b, c][1..] == [c] && [c][1..] == [];
    assert Fired(cfg, capacity, m, Some(Falling), [c]) == [Some(Rising)];
    assert Fired(cfg, capacity, n, Some(Falling), [b, c]) == [None, Some(Rising)];
    assert Tripped(cfg, capacity, Rising, [c]) == [None];
    assert Tripped(cfg, capacity, Rising, [b, c]) == [None, None];
  }

  ghost predicate Alternates(ds: seq<Direction>) {
    forall i | 0 <= i < |ds| - 1 :: ds[i] != ds[i + 1]
  }

  /** Committed directions alternate, whatever POSTs fail. */
  lemma {:induction false} DirectionsAlternate(cfg: Settings, capacity: nat, count: nat, last: Option<Direction>,
                                               us: seq<Update>)
    ensures var es := Events(cfg, capacity, count, last, us);
            Alternates(es) && (es != [] ==> Some(es[0]) != last)
    decreases |us|
  {
    if us != [] {
      var d := if us[0].posted then Threshold(cfg, capacity, count, us[0].count, last) else None;
      DirectionsAlternate(cfg, capacity, us[0].count, if d.Some? then d else last, us[1..]);
    }
  }

  /** The counts at which the events of a run were committed. */
  ghost predicate Apart(counts: seq<nat>, distance: nat) {
    forall i | 0 <= i < |counts| - 1 ::
      counts[i] >= counts[i + 1] + 2 * distance || counts[i + 1] >= counts[i] + 2 * distance
  }

  ghost predicate OnItsSide(cfg: Settings, capacity: nat, d: Direction, count: nat) {
    if d == Rising then RisingAt(cfg, capacity) <= count as real else count as real <= FallingAt(cfg, capacity)
  }

  /** Consecutive events are at least two deadbands of people apart, whatever POSTs fail. */
  lemma {:induction false} EventsAreApart(cfg: Settings, capacity: nat, us: seq<Update>)
    ensures var t := ApplyAll(cfg, capacity, FRESH, us);
            && |t.events| == |t.counts| && Apart(t.counts, cfg.deadband) && Alternates(t.events)
            && (t.events == [] <==> t.last.None?)
            && (t.events != [] ==> t.last == Some(t.events[|t.events| - 1])
                                   && OnItsSide(cfg, capacity, t.last.value, t.counts[|t.counts| - 1]))
    decreases |us|
  {
    if us != [] {
      EventsAreApart(cfg, capacity, us[..|us| - 1]);
    }
  }

  // ---------------------------------------------------------------- delivery

  /** Neighbours among the events whose own POST succeeded. */
  predicate NextDelivered(ok: seq<bool>, i: nat, j: nat) {
    i < j < |ok| && ok[i] && ok[j] && forall k | i < k < j :: !ok[k]
  }

  /**
   A direction is committed before its event is posted, so a failed POST loses the event. What is
   delivered still alternates exactly when every run of losses between two deliveries is even.
   */
  lemma DeliveredAlternateIff(ds: seq<Direction>, ok: seq<bool>)
    requires Alternates(ds) && |ok| == |ds|
    ensures (forall i: nat, j: nat | NextDelivered(ok, i, j) :: ds[i] != ds[j])
            <==> (forall i: nat, j: nat | NextDelivered(ok, i, j) :: (j - i - 1) % 2 == 0)
  {
    forall i: nat, j: nat | NextDelivered(ok, i, j) ensures ds[i] != ds[j] <==> (j - i - 1) % 2 == 0 {
      ParityOfDistance(ds, i, j);
    }
  }

  lemma {:induction false} ParityOfDistance(ds: seq<Direction>, i: nat, j: nat)
    requires Alternates(ds) && i <= j < |ds|
    ensures ds[i] == ds[j] <==> (j - i) % 2 == 0
    decreases j - i
  {
    if i < j {
      ParityOfDistance(ds, i + 1, j);
      assert ds[i] != ds[i + 1];
    }
  }
}
