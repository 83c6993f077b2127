/**
 Per-car occupancy: the in-flight guard and 1 Hz limit in front of each update, and the
 threshold check with its deadband after the update has been posted.
 */
module ZoneCounter {
  import opened Keys

  datatype Direction = Rising | Falling

  datatype Detection = Detection(kind: string, track: Option<int>)

  datatype Settings = Settings(thresholdPct: real, deadband: nat)

  /** What the counter keeps for one car; `last` is the direction last committed. */
  datatype Car = Car(capacity: nat, count: nat, lastEmit: real, inFlight: bool, last: Option<Direction>)

  function RisingAt(cfg: Settings, capacity: nat): real {
    cfg.thresholdPct * capacity as real + cfg.deadband as real
  }

  function FallingAt(cfg: Settings, capacity: nat): real {
    cfg.thresholdPct * capacity as real - cfg.deadband as real
  }

  function PersonTracks(detections: seq<Detection>): set<int> {
    set d | d in detections && d.kind == "person" && d.track.Some? :: d.track.value
  }

  predicate Accepts(c: Car, now: real) {
    !c.inFlight && now - c.lastEmit >= 1.0
  }

  function Begin(c: Car, count: nat, now: real): Car {
    if Accepts(c, now) then c.(count := count, lastEmit := now, inFlight := true) else c
  }

  /** The direction an update from `prev` to `count` commits, if it commits one. */
  function Threshold(cfg: Settings, capacity: nat, prev: nat, count: nat, last: Option<Direction>): Option<Direction> {
    var rising, falling := RisingAt(cfg, capacity), FallingAt(cfg, capacity);
    if prev as real < rising <= count as real && last != Some(Rising) then Some(Rising)
    else if prev as real > falling >= count as real && last != Some(Falling) then Some(Falling)
    else None
  }

  function Commit(c: Car, d: Option<Direction>): Car {
    if d.Some? then c.(last := d) else c
  }

  class Counter {
    const cfg: Settings
    var cars: map<string, Car>

    constructor (cfg: Settings, capacities: map<string, nat>)
      ensures this.cfg == cfg
      ensures cars == map id | id in capacities :: Car(capacities[id], 0, 0.0, false, None)
    {
      this.cfg := cfg;
      cars := map id | id in capacities :: Car(capacities[id], 0, 0.0, false, None);
    }

    /** Up to the first await: either nothing happens or the new count is in place and the flag is up. */
    method BeginUpdate(car: string, detections: seq<Detection>, now: real) returns (prev: Option<nat>)
      modifies this
      ensures prev.Some? <==> car in old(cars) && !old(cars)[car].inFlight && now - old(cars)[car].lastEmit >= 1.0
      ensures prev.Some? ==> prev.value == old(cars)[car].count
      ensures cars == if prev.Some?
                      then old(cars)[car := old(cars)[car].(count := |PersonTracks(detections)|, lastEmit := now,
                                                            inFlight := true)]
                      else old(cars)
    {
      if car !in cars {
        return None;
      }
      var c := cars[car];
      if c.inFlight || now - c.lastEmit < 1.0 {
        return None;
      }
      cars := cars[car := c.(count := |PersonTracks(detections)|, lastEmit := now, inFlight := true)];
      return Some(c.count);
    }

    /** The check after a successful post; the direction is committed before its event is sent. */
    method CheckThreshold(car: string, prev: nat, count: nat) returns (fire: Option<Direction>)
      requires car in cars
      modifies this
      ensures fire == Threshold(cfg, old(cars)[car].capacity, prev, count, old(cars)[car].last)
      ensures var c, level := old(cars)[car], cfg.thresholdPct * old(cars)[car].capacity as real;
              && (fire == Some(Rising) <==>
                    c.last != Some(Rising) && prev as real < level + cfg.deadband as real <= count as real)
              && (fire == Some(Falling) <==>
                    c.last != Some(Falling) && prev as real > level - cfg.deadband as real >= count as real)
      ensures cars == old(cars)[car := Commit(old(cars)[car], fire)]
    {
      var c := cars[car];
      var thresholdCount := cfg.thresholdPct * c.capacity as real;
      var risingAt, fallingAt := thresholdCount + cfg.deadband as real, thresholdCount - cfg.deadband as real;
      fire := None;
      if prev as real < risingAt <= count as real && c.last != Some(Rising) {
        fire := Some(Rising);
      } else if prev as real > fallingAt >= count as real && c.last != Some(Falling) {
        fire := Some(Falling);
      }
      cars := cars[car := Commit(c, fire)];
    }

    /** The `finally` of the chain. */
    method EndUpdate(car: string)
      requires car in cars
      modifies this
      ensures cars == old(cars)[car := old(cars)[car].(inFlight := false)]
    {
      cars := cars[car := cars[car].(inFlight := false)];
    }
  }

  /** What one more detection adds to the count: one, exactly for a person with a track id not seen yet. */
  lemma PersonTracksStep(ds: seq<Detection>, d: Detection)
    ensures PersonTracks([]) == {}
    ensures |PersonTracks(ds + [d])| == |PersonTracks(ds)| +
              if d.kind == "person" && d.track.Some?
                 && !(exists e | e in ds :: e.kind == "person" && e.track == d.track)
              then 1 else 0
  {
    var more := ds + [d];
    assert forall e :: e in more <==> e in ds || e == d;
    if d.kind == "person" && d.track.Some? {
      assert PersonTracks(more) == PersonTracks(ds) + {d.track.value};
      assert d.track.value in PersonTracks(ds) <==> exists e | e in ds :: e.kind == "person" && e.track == d.track;
    } else {
      assert PersonTracks(more) == PersonTracks(ds);
    }
  }

  // ---------------------------------------------------------------- one car, one update at a time

  /** An accepted update; `posted` says whether its occupancy POST succeeded. */
  datatype Update = Update(count: nat, at: real, posted: bool)

  /** Reference: the updates of a car applied one after the other. */
  datatype Trace = Trace(count: nat, last: Option<Direction>, events: seq<Direction>, counts: seq<nat>)

  function Apply(cfg: Settings, capacity: nat, t: Trace, u: Update): Trace {
    var d := if u.posted then Threshold(cfg, capacity, t.count, u.count, t.last) else None;
    if d.Some? then Trace(u.count, d, t.events + [d.value], t.counts + [u.count]) else t.(count := u.count)
  }

  function ApplyAll(cfg: Settings, capacity: nat, t: Trace, us: seq<Update>): Trace {
    if us == [] then t else Apply(cfg, capacity, ApplyAll(cfg, capacity, t, us[..|us| - 1]), us[|us| - 1])
  }

  const FRESH := Trace(0, None, [], [])

  // ---------------------------------------------------------------- all interleavings

  /** A running update: `Posting` awaits the occupancy POST, `Tail` everything after the check. */
  datatype Stage = Posting | Tail

  datatype Chain = Chain(car: string, prev: nat, count: nat, stage: Stage)

  /** A car with its accepted updates and the directions it committed. */
  datatype Slot = Slot(car: Car, history: seq<Update>, events: seq<Direction>)

  datatype Sys = Sys(slots: map<string, Slot>, chains: map<int, Chain>, clock: real)

  datatype Step =
    | Start(task: int, car: string, count: nat, now: real)
    | Posted(task: int, ok: bool)
    | Finish(task: int)

  ghost predicate Enabled(s: Sys, step: Step) {
    match step
    case Start(task, car, _, now) => task !in s.chains && car in s.slots && s.clock <= now
    case Posted(task, _) => task in s.chains && s.chains[task].stage == Posting && s.chains[task].car in s.slots
    case Finish(task) => task in s.chains && s.chains[task].stage == Tail && s.chains[task].car in s.slots
  }

  function Accepted(x: Slot, count: nat, now: real): Slot {
    x.(car := Begin(x.car, count, now), history := x.history + [Update(count, now, false)])
  }

  function MarkPosted(h: seq<Update>): seq<Update> {
    if h == [] then h else h[|h| - 1 := h[|h| - 1].(posted := true)]
  }

  /** The check reads the car's count as it is after the await. */
  function Checked(cfg: Settings, x: Slot, prev: nat): Slot {
    var d := Threshold(cfg, x.car.capacity, prev, x.car.count, x.car.last);
    Slot(Commit(x.car, d), MarkPosted(x.history), if d.Some? then x.events + [d.value] else x.events)
  }

  function Released(x: Slot): Slot {
    x.(car := x.car.(inFlight := false))
  }

  ghost function Next(cfg: Settings, s: Sys, step: Step): Sys
    requires Enabled(s, step)
  {
    match step
    case Start(task, car, count, now) =>
      var x := s.slots[car];
      if !Accepts(x.car, now) then s.(clock := now)
      else Sys(s.slots[car := Accepted(x, count, now)], s.chains[task := Chain(car, x.car.count, count, Posting)], now)
    case Posted(task, ok) =>
      var chain := s.chains[task];
      var x := s.slots[chain.car];
      if ok
      then s.(slots := s.slots[chain.car := Checked(cfg, x, chain.prev)],
              chains := s.chains[task := chain.(stage := Tail)])
      else s.(slots := s.slots[chain.car := Released(x)], chains := s.chains - {task})
    case Finish(task) =>
      var car := s.chains[task].car;
      s.(slots := s.slots[car := Released(s.slots[car])], chains := s.chains - {task})
  }

  ghost function Run(cfg: Settings, s: Sys, steps: seq<Step>): Sys
    decreases |steps|
  {
    if steps == [] then s
    else Run(cfg, if Enabled(s, steps[0]) then Next(cfg, s, steps[0]) else s, steps[1..])
  }

  /** The car is where applying its accepted updates one by one would have put it. */
  ghost predicate Sequential(cfg: Settings, x: Slot) {
    var t, h := ApplyAll(cfg, x.car.capacity, FRESH, x.history), x.history;
    && x.car.count == t.count && x.car.last == t.last && x.events == t.events
    && x.car.lastEmit == (if h == [] then 0.0 else h[|h| - 1].at)
    && (forall i | 0 <= i < |h| - 1 :: h[i + 1].at >= h[i].at + 1.0)
  }

  /** A chain in flight belongs to the last accepted update of its car, and nobody has touched it. */
  ghost predicate Undisturbed(cfg: Settings, x: Slot, c: Chain) {
    var h := x.history;
    && h != [] && x.car.inFlight && x.car.count == c.count == h[|h| - 1].count
    && (c.stage == Posting ==> !h[|h| - 1].posted)
    && ApplyAll(cfg, x.car.capacity, FRESH, h[..|h| - 1]).count == c.prev
  }

  ghost predicate Inv(cfg: Settings, s: Sys) {
    && (forall car | car in s.slots :: Sequential(cfg, s.slots[car]))
    && (forall a | a in s.chains ::
          s.chains[a].car in s.slots && Undisturbed(cfg, s.slots[s.chains[a].car], s.chains[a]))
    && (forall a, b | a in s.chains && b in s.chains && a != b :: s.chains[a].car != s.chains[b].car)
  }

  lemma AcceptKeeps(cfg: Settings, x: Slot, car: string, count: nat, now: real)
    requires Sequential(cfg, x) && Accepts(x.car, now)
    ensures var y := Accepted(x, count, now);
            Sequential(cfg, y) && Undisturbed(cfg, y, Chain(car, x.car.count, count, Posting))
  {
    assert (x.history + [Update(count, now, false)])[..|x.history|] == x.history;
  }

  lemma CheckKeeps(cfg: Settings, x: Slot, c: Chain)
    requires Sequential(cfg, x) && Undisturbed(cfg, x, c) && c.stage == Posting
    ensures var y := Checked(cfg, x, c.prev);
            Sequential(cfg, y) && Undisturbed(cfg, y, c.(stage := Tail))
  {
    var h, g := x.history, MarkPosted(x.history);
    assert g[..|g| - 1] == h[..|h| - 1];
  }

  /** Changing one car, and the one chain that works on it, leaves the others as they were. */
  lemma OneCarChanges(cfg: Settings, s: Sys, t: Sys, task: int, car: string, y: Slot)
    requires Inv(cfg, s) && t.slots == s.slots[car := y] && Sequential(cfg, y)
    requires forall a | a != task ::
               (a in t.chains <==> a in s.chains) && (a in s.chains ==> t.chains[a] == s.chains[a])
    requires forall a | a in s.chains && a != task :: s.chains[a].car != car
    requires task in t.chains ==> t.chains[task].car == car && Undisturbed(cfg, y, t.chains[task])
    ensures Inv(cfg, t)
  {
    forall a | a in t.chains
      ensures t.chains[a].car in t.slots && Undisturbed(cfg, t.slots[t.chains[a].car], t.chains[a])
    {
      if a != task {
        assert a in s.chains && t.slots[t.chains[a].car] == s.slots[s.chains[a].car];
      }
    }
  }

  lemma NextKeeps(cfg: Settings, s: Sys, step: Step)
    requires Inv(cfg, s) && Enabled(s, step)
    ensures Inv(cfg, Next(cfg, s, step))
  {
    var t := Next(cfg, s, step);
    match step
    case Start(task, car, count, now) =>
      if Accepts(s.slots[car].car, now) {
        AcceptKeeps(cfg, s.slots[car], car, count, now);
        OneCarChanges(cfg, s, t, task, car, Accepted(s.slots[car], count, now));
      }
    case Posted(task, ok) =>
      var car := s.chains[task].car;
      if ok {
        CheckKeeps(cfg, s.slots[car], s.chains[task]);
        OneCarChanges(cfg, s, t, task, car, Checked(cfg, s.slots[car], s.chains[task].prev));
      } else {
        OneCarChanges(cfg, s, t, task, car, Released(s.slots[car]));
      }
    case Finish(task) =>
      OneCarChanges(cfg, s, t, task, s.chains[task].car, Released(s.slots[s.chains[task].car]));
  }

  /**
   Over all interleavings: one update per car in flight, its count untouched while it is posted,
   accepted updates a second apart, and the car's counts and events those of a sequential run.
   */
  lemma {:induction false} UpdatesAreSequential(cfg: Settings, s: Sys, steps: seq<Step>)
    requires Inv(cfg, s)
    ensures Inv(cfg, Run(cfg, s, steps))
    decreases |steps|
  {
    if steps != [] {
      if Enabled(s, steps[0]) {
        NextKeeps(cfg, s, steps[0]);
        UpdatesAreSequential(cfg, Next(cfg, s, steps[0]), steps[1..]);
      } else {
        UpdatesAreSequential(cfg, s, steps[1..]);
      }
    }
  }

  ghost function Idle(capacities: map<string, nat>): Sys {
    Sys(map id | id in capacities :: Slot(Car(capacities[id], 0, 0.0, false, None), [], []), map[], 0.0)
  }

  /** The count accepted before the last one; a car starts empty. */
  function PreviousCount(h: seq<Update>): nat {
    if |h| < 2 then 0 else h[|h| - 2].count
  }

  /** The same, spelled out for a run from start-up. */
  lemma InFlightExclusion(cfg: Settings, capacities: map<string, nat>, steps: seq<Step>)
    ensures var s := Run(cfg, Idle(capacities), steps);
            && (forall a, b | a in s.chains && b in s.chains && a != b :: s.chains[a].car != s.chains[b].car)
            && (forall a | a in s.chains ::
                  && s.chains[a].car in s.slots && s.slots[s.chains[a].car].car.inFlight
                  && s.slots[s.chains[a].car].car.count == s.chains[a].count
                  && s.chains[a].prev == PreviousCount(s.slots[s.chains[a].car].history))
            && (forall car | car in s.slots ::
                  && s.slots[car].events == ApplyAll(cfg, s.slots[car].car.capacity, FRESH, s.slots[car].history).events
                  && forall i | 0 <= i < |s.slots[car].history| - 1 ::
                       s.slots[car].history[i + 1].at >= s.slots[car].history[i].at + 1.0)
  {
    UpdatesAreSequential(cfg, Idle(capacities), steps);
  }

  // ---------------------------------------------------------------- which updates are accepted

  ghost function Updating(chains: map<int, Chain>): set<string> {
    set a | a in chains :: chains[a].car
  }

  /** A car's flag is up exactly while an update of it runs. */
  ghost predicate Flagged(s: Sys) {
    forall car | car in s.slots :: s.slots[car].car.inFlight <==> car in Updating(s.chains)
  }

  lemma ChainsWith(chains: map<int, Chain>, task: int, c: Chain)
    requires task in chains ==> chains[task].car == c.car
    ensures Updating(chains[task := c]) == Updating(chains) + {c.car}
  {
    var after := chains[task := c];
    forall car | car in Updating(chains) ensures car in Updating(after) {
      var a :| a in chains && chains[a].car == car;
      assert a in after && after[a].car == car;
    }
    assert task in after && after[task].car == c.car;
  }

  lemma ChainsWithout(chains: map<int, Chain>, task: int)
    requires task in chains && forall a | a in chains && a != task :: chains[a].car != chains[task].car
    ensures Updating(chains - {task}) == Updating(chains) - {chains[task].car}
  {
    var after := chains - {task};
    forall car | car in Updating(chains) && car != chains[task].car ensures car in Updating(after) {
      var a :| a in chains && chains[a].car == car;
      assert a in after && after[a].car == car;
    }
  }

  lemma StepKeepsFlags(cfg: Settings, s: Sys, step: Step)
    requires Inv(cfg, s) && Flagged(s) && Enabled(s, step)
    ensures Flagged(Next(cfg, s, step))
  {
    match step
    case Start(task, car, count, now) =>
      ChainsWith(s.chains, task, Chain(car, s.slots[car].car.count, count, Posting));
    case Posted(task, ok) =>
      if ok {
        ChainsWith(s.chains, task, s.chains[task].(stage := Tail));
      } else {
        ChainsWithout(s.chains, task);
      }
    case Finish(task) => ChainsWithout(s.chains, task);
  }

  lemma {:induction false} RunKeepsFlags(cfg: Settings, s: Sys, steps: seq<Step>)
    requires Inv(cfg, s) && Flagged(s)
    ensures Flagged(Run(cfg, s, steps))
    decreases |steps|
  {
    if steps != [] {
      if Enabled(s, steps[0]) {
        NextKeeps(cfg, s, steps[0]);
        StepKeepsFlags(cfg, s, steps[0]);
        RunKeepsFlags(cfg, Next(cfg, s, steps[0]), steps[1..]);
      } else {
        RunKeepsFlags(cfg, s, steps[1..]);
      }
    }
  }

  /**
   In every run a new update of a car is accepted exactly when no update of that car is running and a
   second has passed since its last accepted one, or since time 0; nothing else holds a car up.
   */
  lemma StartAcceptedIff(cfg: Settings, capacities: map<string, nat>, steps: seq<Step>, task: int, car: string,
                         count: nat, now: real)
    requires Enabled(Run(cfg, Idle(capacities), steps), Start(task, car, count, now))
    ensures var s := Run(cfg, Idle(capacities), steps);
            var h, t := s.slots[car].history, Next(cfg, s, Start(task, car, count, now));
            if car !in Updating(s.chains) && now - (if h == [] then 0.0 else h[|h| - 1].at) >= 1.0
            then t.slots[car].history == h + [Update(count, now, false)] && car in Updating(t.chains)
            else t.slots == s.slots && t.chains == s.chains
  {
    UpdatesAreSequential(cfg, Idle(capacities), steps);
    RunKeepsFlags(cfg, Idle(capacities), steps);
    var s := Run(cfg, Idle(capacities), steps);
    assert Sequential(cfg, s.slots[car]);
    ChainsWith(s.chains, task, Chain(car, s.slots[car].car.count, count, Posting));
  }
}
