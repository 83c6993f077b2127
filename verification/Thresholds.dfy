/**
 The cached reader over the confidence_thresholds table: a TTL, a lock, and a generation
 counter so that a query overtaken by an `invalidate` is not cached.
 */
module Thresholds {
  import opened Keys

  /** A persisted value before it has been looked at. */
  datatype Raw = Null | NotNumeric | NotFinite | Number(value: real)

  datatype Row = Row(key: string, value: Raw)

  datatype Config = Config(perClass: map<string, real>, floor: real)

  const DEFAULTS: map<string, real> := map[
    "unattended_bag" := 0.75, "door_obstruction" := 0.85, "accessibility_detected" := 0.70,
    "slip_fall" := 0.75, "luggage_rack_saturation" := 0.70]

  const DEGRADED_BANNER_FLOOR := 0.60

  const FLOOR_KEY := "degraded_banner_floor"

  const PER_CLASS_PREFIX := "per_class:"

  const DEFAULT_CONFIG := Config(DEFAULTS, DEGRADED_BANNER_FLOOR)

  predicate Usable(value: Raw, floor: bool) {
    value.Number? && 0.0 <= value.value <= 1.0 && (floor ==> value.value > 0.0)
  }

  /** Reference: the last usable row for a key decides, and without one the default stands. */
  function LastUsable(rows: seq<Row>, key: string, floor: bool, default: real): real {
    if rows == [] then default
    else
      var last := rows[|rows| - 1];
      if last.key == key && Usable(last.value, floor) then last.value.value
      else LastUsable(rows[..|rows| - 1], key, floor, default)
  }

  function Read(rows: seq<Row>): Config {
    Config(map cls | cls in DEFAULTS :: LastUsable(rows, PER_CLASS_PREFIX + cls, false, DEFAULTS[cls]),
           LastUsable(rows, FLOOR_KEY, true, DEGRADED_BANNER_FLOOR))
  }

  /** Whatever the table holds: exactly the known classes, values in [0, 1], a floor in (0, 1]. */
  ghost predicate FailSafe(c: Config) {
    && c.perClass.Keys == DEFAULTS.Keys
    && (forall cls | cls in c.perClass :: 0.0 <= c.perClass[cls] <= 1.0)
    && 0.0 < c.floor <= 1.0
  }

  lemma {:induction false} LastUsableInRange(rows: seq<Row>, key: string, floor: bool, default: real)
    requires Usable(Number(default), floor)
    ensures Usable(Number(LastUsable(rows, key, floor, default)), floor)
  {
    if rows != [] {
      LastUsableInRange(rows[..|rows| - 1], key, floor, default);
    }
  }

  lemma ReadIsFailSafe(rows: seq<Row>)
    ensures FailSafe(Read(rows))
  {
    LastUsableInRange(rows, FLOOR_KEY, true, DEGRADED_BANNER_FLOOR);
    forall cls | cls in DEFAULTS ensures 0.0 <= Read(rows).perClass[cls] <= 1.0 {
      LastUsableInRange(rows, PER_CLASS_PREFIX + cls, false, DEFAULTS[cls]);
    }
  }

  /** A number a class may be set to, and one the floor may be set to. */
  predicate InRange(value: Raw, floor: bool) {
    value.Number? && (if floor then 0.0 < value.value else 0.0 <= value.value) && value.value <= 1.0
  }

  lemma {:induction false} LastUsableAt(rows: seq<Row>, key: string, floor: bool, default: real, i: nat)
    requires i < |rows| && rows[i].key == key && InRange(rows[i].value, floor)
    requires forall j | i < j < |rows| :: rows[j].key != key || !InRange(rows[j].value, floor)
    ensures LastUsable(rows, key, floor, default) == rows[i].value.value
    decreases |rows|
  {
    if i < |rows| - 1 {
      LastUsableAt(rows[..|rows| - 1], key, floor, default, i);
    }
  }

  lemma {:induction false} NoneUsable(rows: seq<Row>, key: string, floor: bool, default: real)
    requires forall j | 0 <= j < |rows| :: rows[j].key != key || !InRange(rows[j].value, floor)
    ensures LastUsable(rows, key, floor, default) == default
    decreases |rows|
  {
    if rows != [] {
      NoneUsable(rows[..|rows| - 1], key, floor, default);
    }
  }

  /**
   The table is honoured: a class has the value of its last row within [0, 1], the floor that of its last
   row within (0, 1], and what no such row sets has its default, whatever the other rows hold.
   */
  lemma ReadHonours(rows: seq<Row>, cls: string, i: nat)
    requires cls in DEFAULTS && i <= |rows|
    ensures i < |rows| && rows[i].key == "per_class:" + cls && InRange(rows[i].value, false)
            && (forall j | i < j < |rows| :: rows[j].key != "per_class:" + cls || !InRange(rows[j].value, false)) ==>
              Read(rows).perClass[cls] == rows[i].value.value
    ensures i < |rows| && rows[i].key == "degraded_banner_floor" && InRange(rows[i].value, true)
            && (forall j | i < j < |rows| ::
                  rows[j].key != "degraded_banner_floor" || !InRange(rows[j].value, true)) ==>
              Read(rows).floor == rows[i].value.value
    ensures (forall j | 0 <= j < |rows| :: rows[j].key != "per_class:" + cls || !InRange(rows[j].value, false)) ==>
              Read(rows).perClass[cls] == DEFAULTS[cls]
    ensures (forall j | 0 <= j < |rows| :: rows[j].key != "degraded_banner_floor" || !InRange(rows[j].value, true)) ==>
              Read(rows).floor == 0.60
  {
    var key := "per_class:" + cls;
    if i < |rows| && rows[i].key == key && InRange(rows[i].value, false)
       && (forall j | i < j < |rows| :: rows[j].key != key || !InRange(rows[j].value, false)) {
      LastUsableAt(rows, key, false, DEFAULTS[cls], i);
    }
    if i < |rows| && rows[i].key == FLOOR_KEY && InRange(rows[i].value, true)
       && (forall j | i < j < |rows| :: rows[j].key != FLOOR_KEY || !InRange(rows[j].value, true)) {
      LastUsableAt(rows, FLOOR_KEY, true, DEGRADED_BANNER_FLOOR, i);
    }
    if forall j | 0 <= j < |rows| :: rows[j].key != key || !InRange(rows[j].value, false) {
      NoneUsable(rows, key, false, DEFAULTS[cls]);
    }
    if forall j | 0 <= j < |rows| :: rows[j].key != FLOOR_KEY || !InRange(rows[j].value, true) {
      NoneUsable(rows, FLOOR_KEY, true, DEGRADED_BANNER_FLOOR);
    }
  }

  /** What one more row changes. */
  function ReadRow(cfg: Config, r: Row): Config {
    if r.key == FLOOR_KEY then
      if Usable(r.value, true) then cfg.(floor := r.value.value) else cfg
    else if PER_CLASS_PREFIX <= r.key && Usable(r.value, false) && r.key[|PER_CLASS_PREFIX|..] in DEFAULTS then
      cfg.(perClass := cfg.perClass[r.key[|PER_CLASS_PREFIX|..] := r.value.value])
    else cfg
  }

  lemma LastUsableSnoc(rows: seq<Row>, r: Row, key: string, floor: bool, default: real)
    ensures LastUsable(rows + [r], key, floor, default)
         == if r.key == key && Usable(r.value, floor) then r.value.value else LastUsable(rows, key, floor, default)
  {
    assert (rows + [r])[..|rows|] == rows;
  }

  lemma IsClassKey(key: string, cls: string)
    ensures key == PER_CLASS_PREFIX + cls <==> PER_CLASS_PREFIX <= key && key[|PER_CLASS_PREFIX|..] == cls
    ensures PER_CLASS_PREFIX + cls != FLOOR_KEY
  {
    if PER_CLASS_PREFIX <= key {
      assert key == PER_CLASS_PREFIX + key[|PER_CLASS_PREFIX|..];
    }
    assert (PER_CLASS_PREFIX + cls)[0] == PER_CLASS_PREFIX[0] != FLOOR_KEY[0];
  }

  lemma RowReads(rows: seq<Row>, r: Row)
    ensures Read(rows + [r]) == ReadRow(Read(rows), r)
  {
    LastUsableSnoc(rows, r, FLOOR_KEY, true, DEGRADED_BANNER_FLOOR);
    forall cls | cls in DEFAULTS
      ensures Read(rows + [r]).perClass[cls] == ReadRow(Read(rows), r).perClass[cls]
    {
      LastUsableSnoc(rows, r, PER_CLASS_PREFIX + cls, false, DEFAULTS[cls]);
      IsClassKey(r.key, cls);
    }
    assert Read(rows + [r]).perClass == ReadRow(Read(rows), r).perClass;
  }

  class ThresholdStore {
    const ttl: real
    var loadedAt: Option<real>
    var cache: Config
    var generation: nat

    constructor (ttl: real)
      ensures this.ttl == ttl && loadedAt == None && cache == DEFAULT_CONFIG && generation == 0
    {
      this.ttl, loadedAt, cache, generation := ttl, None, DEFAULT_CONFIG, 0;
    }

    method Invalidate()
      modifies this
      ensures loadedAt == None && generation == old(generation) + 1 && cache == old(cache)
    {
      loadedAt, generation := None, generation + 1;
    }

    /** The check a load makes before and again under the lock. */
    method TryCached(now: real) returns (cfg: Option<Config>)
      ensures cfg == if loadedAt.Some? && now < loadedAt.value + ttl then Some(cache) else None
    {
      if loadedAt.Some? && now - loadedAt.value < ttl {
        return Some(cache);
      }
      return None;
    }

    /** Fills a copy of the defaults row by row. */
    method Fill(rows: seq<Row>) returns (cfg: Config)
      ensures cfg == Read(rows) && FailSafe(cfg)
    {
      cfg := DEFAULT_CONFIG;
      for i := 0 to |rows|
        invariant cfg == Read(rows[..i])
      {
        var r := rows[i];
        RowReads(rows[..i], r);
        assert rows[..i + 1] == rows[..i] + [r];
        if r.key == FLOOR_KEY {
          if Usable(r.value, true) {
            cfg := cfg.(floor := r.value.value);
          }
        } else if PER_CLASS_PREFIX <= r.key {
          if !Usable(r.value, false) {
            continue;
          }
          var cls := r.key[|PER_CLASS_PREFIX|..];
          if cls in DEFAULTS {
            cfg := cfg.(perClass := cfg.perClass[cls := r.value.value]);
          }
        }
      }
      assert rows[..|rows|] == rows;
      ReadIsFailSafe(rows);
    }

    /** The end of a load, still under the lock: an overtaken snapshot is applied but left stale. */
    method FinishLoad(rows: seq<Row>, genAtStart: nat, now: real) returns (cfg: Config)
      modifies this
      ensures cfg == cache == Read(rows) && generation == old(generation)
      ensures loadedAt == if generation != genAtStart then None else Some(now)
    {
      cfg := Fill(rows);
      cache := cfg;
      loadedAt := if generation != genAtStart then None else Some(now);
    }
  }

  // ---------------------------------------------------------------- all interleavings

  /** `known` is the table version announced by the last invalidate before the load started. */
  datatype Load = Waiting(known: nat) | Querying(known: nat, gen: nat, began: nat, now: real)

  /** `began` is when the query behind the reply was about to start, `at` when the reply was given. */
  datatype Reply = Reply(known: nat, version: nat, cfg: Config, cached: bool, began: real, at: real)

  /** `tables[v]` is the table after v commits; `cached` is the version the cache was read from. */
  datatype Sys = Sys(tables: seq<seq<Row>>, announced: nat,
                     cache: Config, cached: nat, loadedAt: Option<real>, generation: nat, lock: Option<int>,
                     loads: map<int, Load>, replies: seq<Reply>, clock: real)

  datatype Step =
    | Commit(rows: seq<Row>)
    | Invalidate
    | Start(task: int, now: real)
    | Enter(task: int, now: real)
    | Answer(task: int, version: nat, now: real)
    | Fail(task: int)

  ghost function Init(rows: seq<Row>): Sys {
    Sys([rows], 0, DEFAULT_CONFIG, 0, None, 0, None, map[], [], 0.0)
  }

  ghost predicate Fresh(s: Sys, ttl: real, now: real) {
    s.loadedAt.Some? && now - s.loadedAt.value < ttl
  }

  ghost predicate Enabled(s: Sys, step: Step) {
    match step
    case Commit(_) => true
    case Invalidate => s.tables != []
    case Start(task, now) => task !in s.loads && s.clock <= now
    case Enter(task, now) =>
      task in s.loads && s.loads[task].Waiting? && s.lock.None? && s.clock <= now && s.tables != []
    case Answer(task, version, now) =>
      && task in s.loads && s.loads[task].Querying? && s.lock == Some(task) && s.clock <= now
      && s.loads[task].began <= version < |s.tables|
    case Fail(task) => task in s.loads && s.loads[task].Querying? && s.lock == Some(task)
  }

  ghost function FromCache(s: Sys, known: nat, now: real): Reply
    requires s.loadedAt.Some?
  {
    Reply(known, s.cached, s.cache, true, s.loadedAt.value, now)
  }

  ghost function Next(ttl: real, s: Sys, step: Step): Sys
    requires Enabled(s, step)
  {
    match step
    case Commit(rows) => s.(tables := s.tables + [rows])
    case Invalidate => s.(loadedAt := None, generation := s.generation + 1, announced := |s.tables| - 1)
    case Start(task, now) =>
      var t := s.(clock := now);
      if Fresh(s, ttl, now) then t.(replies := s.replies + [FromCache(s, s.announced, now)])
      else t.(loads := s.loads[task := Waiting(s.announced)])
    case Enter(task, now) =>
      var known, t := s.loads[task].known, s.(clock := now);
      if Fresh(s, ttl, now) then t.(loads := s.loads - {task}, replies := s.replies + [FromCache(s, known, now)])
      else t.(loads := s.loads[task := Querying(known, s.generation, |s.tables| - 1, now)], lock := Some(task))
    case Answer(task, version, now) =>
      var q, cfg := s.loads[task], Read(s.tables[version]);
      s.(cache := cfg, cached := version, loadedAt := if s.generation != q.gen then None else Some(q.now),
         lock := None, loads := s.loads - {task}, clock := now,
         replies := s.replies + [Reply(q.known, version, cfg, false, q.now, now)])
    case Fail(task) => s.(lock := None, loads := s.loads - {task})
  }

  ghost function Run(ttl: real, s: Sys, steps: seq<Step>): Sys
    decreases |steps|
  {
    if steps == [] then s
    else Run(ttl, if Enabled(s, steps[0]) then Next(ttl, s, steps[0]) else s, steps[1..])
  }

  /**
   A reply is a real version of the table, no older than what was announced before its load, and if it
   came from the cache its query is less than the TTL ago.
   */
  ghost predicate Coherent(ttl: real, s: Sys, r: Reply) {
    && r.known <= r.version < |s.tables| && r.cfg == Read(s.tables[r.version]) && r.began <= r.at
    && (r.cached ==> r.at - r.began < ttl)
  }

  ghost predicate LoadOk(s: Sys, task: int, l: Load) {
    match l
    case Waiting(known) => known <= s.announced
    case Querying(known, gen, began, now) =>
      && s.lock == Some(task) && known <= began < |s.tables| && gen <= s.generation && now <= s.clock
      && (gen == s.generation ==> s.announced <= began)
  }

  /** What makes the cache worth trusting. */
  ghost predicate CacheOk(s: Sys) {
    && s.announced < |s.tables|
    && (s.loadedAt.Some? ==>
          s.announced <= s.cached < |s.tables| && s.cache == Read(s.tables[s.cached]) && s.loadedAt.value <= s.clock)
  }

  ghost predicate LoadsOk(s: Sys) {
    forall task | task in s.loads :: LoadOk(s, task, s.loads[task])
  }

  ghost predicate RepliesOk(ttl: real, s: Sys) {
    forall i | 0 <= i < |s.replies| :: Coherent(ttl, s, s.replies[i])
  }

  ghost predicate Inv(ttl: real, s: Sys) {
    CacheOk(s) && LoadsOk(s) && RepliesOk(ttl, s)
  }

  /** A step that gives no reply leaves the earlier ones coherent. */
  lemma RepliesStay(ttl: real, s: Sys, t: Sys)
    requires RepliesOk(ttl, s) && t.replies == s.replies && s.tables <= t.tables
    ensures RepliesOk(ttl, t)
  {
    forall i | 0 <= i < |t.replies| ensures Coherent(ttl, t, t.replies[i]) {
      assert Coherent(ttl, s, s.replies[i]);
    }
  }

  lemma ReplyJoins(ttl: real, s: Sys, t: Sys, r: Reply)
    requires RepliesOk(ttl, s) && t.replies == s.replies + [r] && t.tables == s.tables && Coherent(ttl, s, r)
    ensures RepliesOk(ttl, t)
  {
    forall i | 0 <= i < |t.replies| ensures Coherent(ttl, t, t.replies[i]) {
      assert i < |s.replies| ==> Coherent(ttl, s, s.replies[i]);
    }
  }

  lemma RepliesKeep(ttl: real, s: Sys, step: Step)
    requires Inv(ttl, s) && Enabled(s, step)
    ensures RepliesOk(ttl, Next(ttl, s, step))
  {
    var t := Next(ttl, s, step);
    match step
    case Start(task, now) =>
      if Fresh(s, ttl, now) {
        ReplyJoins(ttl, s, t, FromCache(s, s.announced, now));
      } else {
        RepliesStay(ttl, s, t);
      }
    case Enter(task, now) =>
      assert LoadOk(s, task, s.loads[task]);
      if Fresh(s, ttl, now) {
        ReplyJoins(ttl, s, t, FromCache(s, s.loads[task].known, now));
      } else {
        RepliesStay(ttl, s, t);
      }
    case Answer(task, version, now) =>
      var q := s.loads[task];
      assert LoadOk(s, task, q);
      ReplyJoins(ttl, s, t, Reply(q.known, version, Read(s.tables[version]), false, q.now, now));
    case _ => RepliesStay(ttl, s, t);
  }

  lemma LoadsKeep(ttl: real, s: Sys, step: Step)
    requires CacheOk(s) && LoadsOk(s) && Enabled(s, step)
    ensures LoadsOk(Next(ttl, s, step))
  {
    var t := Next(ttl, s, step);
    forall task | task in t.loads ensures LoadOk(t, task, t.loads[task]) {
      assert task in s.loads ==> LoadOk(s, task, s.loads[task]);
    }
  }

  /** What is trusted after a step was trusted before it, or was queried after the last invalidate. */
  lemma CacheKeeps(ttl: real, s: Sys, step: Step)
    requires CacheOk(s) && LoadsOk(s) && Enabled(s, step)
    ensures CacheOk(Next(ttl, s, step))
  {
    var t := Next(ttl, s, step);
    assert s.tables <= t.tables;
    if step.Answer? {
      assert LoadOk(s, step.task, s.loads[step.task]);
    }
  }

  lemma NextKeeps(ttl: real, s: Sys, step: Step)
    requires Inv(ttl, s) && Enabled(s, step)
    ensures Inv(ttl, Next(ttl, s, step))
  {
    CacheKeeps(ttl, s, step);
    LoadsKeep(ttl, s, step);
    RepliesKeep(ttl, s, step);
  }

  lemma {:induction false} RunKeeps(ttl: real, s: Sys, steps: seq<Step>)
    requires Inv(ttl, s)
    ensures Inv(ttl, Run(ttl, s, steps))
    decreases |steps|
  {
    if steps != [] {
      if Enabled(s, steps[0]) {
        NextKeeps(ttl, s, steps[0]);
        RunKeeps(ttl, Next(ttl, s, steps[0]), steps[1..]);
      } else {
        RunKeeps(ttl, s, steps[1..]);
      }
    }
  }

  /**
   Cache coherence: in every interleaving of loads, commits and invalidates from start-up, a load that
   started after an `invalidate` returns a version at least as new as the one it announced, a cached
   reply is younger than the TTL, and whatever is returned is fail-safe.
   */
  lemma LoadsAreCoherent(ttl: real, rows: seq<Row>, steps: seq<Step>)
    ensures var t := Run(ttl, Init(rows), steps);
            forall i | 0 <= i < |t.replies| :: Coherent(ttl, t, t.replies[i]) && FailSafe(t.replies[i].cfg)
  {
    RunKeeps(ttl, Init(rows), steps);
    var t := Run(ttl, Init(rows), steps);
    forall i | 0 <= i < |t.replies| ensures Coherent(ttl, t, t.replies[i]) && FailSafe(t.replies[i].cfg) {
      assert Coherent(ttl, t, t.replies[i]);
      ReadIsFailSafe(t.tables[t.replies[i].version]);
    }
  }

  // ---------------------------------------------------------------- the cache is used

  /** Steps that leave alone what the cache holds and whether it is trusted. */
  predicate Quiet(steps: seq<Step>) {
    forall x | x in steps :: !x.Invalidate? && !x.Answer?
  }

  lemma {:induction false} QuietKeepsCache(ttl: real, s: Sys, steps: seq<Step>)
    requires Quiet(steps)
    ensures var t := Run(ttl, s, steps);
            && t.cache == s.cache && t.cached == s.cached && t.loadedAt == s.loadedAt
            && t.announced == s.announced && t.generation == s.generation
    decreases |steps|
  {
    if steps != [] {
      assert steps[0] in steps;
      QuietKeepsCache(ttl, if Enabled(s, steps[0]) then Next(ttl, s, steps[0]) else s, steps[1..]);
    }
  }

  /**
   An answer that no `invalidate` overtook is what every load that starts within the TTL gets, at once and
   without a query, as long as nothing is invalidated or answered in between; one that was overtaken is
   given to its own load only.
   */
  lemma CacheIsUsed(ttl: real, s: Sys, task: int, version: nat, at: real, steps: seq<Step>, reader: int, now: real)
    requires Enabled(s, Answer(task, version, at)) && Quiet(steps)
    requires Enabled(Run(ttl, Next(ttl, s, Answer(task, version, at)), steps), Start(reader, now))
    ensures var q, t := s.loads[task], Run(ttl, Next(ttl, s, Answer(task, version, at)), steps);
            var u := Next(ttl, t, Start(reader, now));
            if s.generation == q.gen && now - q.now < ttl
            then u == t.(clock := now, replies :=
                         t.replies + [Reply(s.announced, version, Read(s.tables[version]), true, q.now, now)])
            else u == t.(clock := now, loads := t.loads[reader := Waiting(s.announced)])
  {
    QuietKeepsCache(ttl, Next(ttl, s, Answer(task, version, at)), steps);
  }

  function Invalidations(steps: seq<Step>): nat {
    if steps == [] then 0 else (if steps[0].Invalidate? then 1 else 0) + Invalidations(steps[1..])
  }

  /** The generation counts the invalidates of a run. */
  lemma {:induction false} GenerationCounts(ttl: real, s: Sys, steps: seq<Step>)
    requires s.tables != []
    ensures Run(ttl, s, steps).generation == s.generation + Invalidations(steps)
    decreases |steps|
  {
    if steps != [] {
      GenerationCounts(ttl, if Enabled(s, steps[0]) then Next(ttl, s, steps[0]) else s, steps[1..]);
    }
  }

  /** A load's answer is trusted exactly when nothing was invalidated between its query and its answer. */
  lemma AnswerIsTrustedIff(ttl: real, s: Sys, steps: seq<Step>, task: int, version: nat, now: real)
    requires s.tables != [] && task in s.loads && s.loads[task].Querying? && s.loads[task].gen == s.generation
    requires Enabled(Run(ttl, s, steps), Answer(task, version, now)) && Run(ttl, s, steps).loads[task] == s.loads[task]
    ensures Next(ttl, Run(ttl, s, steps), Answer(task, version, now)).loadedAt.Some? <==> Invalidate !in steps
  {
    GenerationCounts(ttl, s, steps);
    NoInvalidations(steps);
  }

  lemma {:induction false} NoInvalidations(steps: seq<Step>)
    ensures Invalidations(steps) == 0 <==> Invalidate !in steps
  {
    if steps != [] {
      NoInvalidations(steps[1..]);
      assert steps == [steps[0]] + steps[1..];
    }
  }
}
