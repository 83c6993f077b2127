/**
 fusion's closed ledger: per-coach passenger counts kept from wagon exits and entries and
 corrected to the camera. `Books` carries the ledger together with the account of what moved it.
 */
module Ledger {
  import opened Keys

  datatype Row = Row(count: int, reconciled: Option<int>, unreconciled: int)

  datatype PendingExit = PendingExit(coachFrom: string, coachTo: string)

  /** A redacted event has an opaque track token (None here) or no camera. */
  datatype WagonEvent = WagonEvent(track: Option<int>, camera: Option<string>, coachFrom: string,
                                   coachTo: string, expectOrphan: bool)

  datatype Observation = Observation(car: string, cameraCount: int, ledgerCount: int, delta: int,
                                     threshold: int, surface: bool)

  datatype Config = Config(threshold: nat, bucketSize: int)

  datatype State = State(rows: map<string, Row>, table: map<string, Row>, pending: map<int, PendingExit>,
                         seen: set<string>, lastBucket: map<string, int>)

  const NEW_ROW := Row(0, None, 0)

  function Abs(x: int): nat {
    if x < 0 then -x else x
  }

  predicate Redacted(e: WagonEvent) {
    e.track.None? || e.camera.None?
  }

  // ---------------------------------------------------------------- the operations

  function RowOf(s: State, coach: string): Row {
    if coach in s.rows then s.rows[coach] else NEW_ROW
  }

  function Write(s: State, coach: string, row: Row): State {
    s.(rows := s.rows[coach := row], table := s.table[coach := row])
  }

  function See(s: State, e: WagonEvent): State {
    s.(seen := s.seen + {e.coachFrom, e.coachTo})
  }

  function Exit(s: State, e: WagonEvent): State {
    if Redacted(e) then s
    else if !e.expectOrphan && e.track.value in s.pending then See(s, e)
    else
      var row := RowOf(s, e.coachFrom);
      if e.expectOrphan then Write(See(s, e), e.coachFrom, row.(count := row.count - 1))
      else
        Write(See(s, e), e.coachFrom, row.(count := row.count - 1, unreconciled := row.unreconciled + 1))
          .(pending := s.pending[e.track.value := PendingExit(e.coachFrom, e.coachTo)])
  }

  function Credit(s: State, coach: string, now: int): State {
    var row := RowOf(s, coach);
    Write(s, coach, row.(count := row.count + 1, reconciled := Some(now)))
  }

  function Settle(s: State, coach: string): State {
    var row := RowOf(s, coach);
    Write(s, coach, if row.unreconciled > 0 then row.(unreconciled := row.unreconciled - 1) else row)
  }

  function Entry(s: State, e: WagonEvent, now: int): State {
    if Redacted(e) then s
    else
      var t := Credit(See(s, e), e.coachTo, now);
      if e.track.value in s.pending
      then Settle(t, s.pending[e.track.value].coachFrom).(pending := s.pending - {e.track.value})
      else t
  }

  /** A timeout task pops whatever is pending for its track, also an exit armed after its own. */
  function Timeout(s: State, track: int): State {
    s.(pending := s.pending - {track})
  }

  function DriftBucket(cfg: Config, delta: int): int
    requires cfg.bucketSize >= 1
  {
    var magnitude := Abs(delta) / cfg.bucketSize;
    if delta < 0 then -magnitude else magnitude
  }

  function Bucket(cfg: Config, delta: int): int
    requires cfg.bucketSize >= 1
  {
    if Abs(delta) <= cfg.threshold then 0 else DriftBucket(cfg, delta)
  }

  function LastBucket(s: State, car: string): int {
    if car in s.lastBucket then s.lastBucket[car] else 0
  }

  function CheckDrift(cfg: Config, s: State, car: string, camera: int): State
    requires cfg.bucketSize >= 1
  {
    if car !in s.seen then s
    else
      var row := RowOf(s, car);
      var bucket := Bucket(cfg, row.count - camera);
      if bucket == LastBucket(s, car) then Write(s, car, row)
      else Write(s, car, row.(count := camera)).(lastBucket := s.lastBucket[car := bucket])
  }

  predicate Observes(cfg: Config, s: State, car: string, camera: int)
    requires cfg.bucketSize >= 1
  {
    car in s.seen && Bucket(cfg, RowOf(s, car).count - camera) != LastBucket(s, car)
  }

  /** The observation of a drift, or of one that cleared, which reports the corrected count. */
  function Report(cfg: Config, s: State, car: string, camera: int, approach: bool): Option<Observation>
    requires cfg.bucketSize >= 1
  {
    if !Observes(cfg, s, car, camera) then None
    else
      var delta := RowOf(s, car).count - camera;
      Some(if Bucket(cfg, delta) == 0 then Observation(car, camera, camera, 0, cfg.threshold, approach)
           else Observation(car, camera, delta + camera, delta, cfg.threshold, approach))
  }

  function Seed(s: State, coach: string): State {
    if coach in s.rows then s else Write(s, coach, NEW_ROW)
  }

  /** What a new process makes of the table it finds. */
  function Load(table: map<string, Row>): State {
    var rows := map c | c in table :: Cleaned(table[c]);
    State(rows, rows, map[], {}, map[])
  }

  function Cleaned(row: Row): Row {
    if row.unreconciled > 0 then row.(unreconciled := 0) else row
  }

  class CoachLedger {
    const cfg: Config
    var rows: map<string, Row>
    var table: map<string, Row>
    var pendingExits: map<int, PendingExit>
    var seenWagon: set<string>
    var lastDriftBucket: map<string, int>

    function View(): State
      reads this
    {
      State(rows, table, pendingExits, seenWagon, lastDriftBucket)
    }

    ghost predicate Valid()
      reads this
    {
      cfg.bucketSize >= 1 && table == rows
    }

    /** Restart: counts are kept, exits that were waiting are forgotten. */
    constructor (cfg: Config, stored: map<string, Row>)
      ensures Valid() && View() == Load(stored)
      ensures this.cfg == cfg.(bucketSize := if cfg.bucketSize < 1 then 1 else cfg.bucketSize)
    {
      this.cfg := cfg.(bucketSize := if cfg.bucketSize < 1 then 1 else cfg.bucketSize);
      pendingExits, seenWagon, lastDriftBucket := map[], {}, map[];
      rows, table := map[], stored;
      new;
      LoadRowsAndCleanStalePendings();
    }

    method LoadRowsAndCleanStalePendings()
      requires rows == map[]
      modifies this`rows, this`table
      ensures rows == table == Load(old(table)).rows
    {
      var stale := LoadRows();
      PersistStale(stale);
    }

    method LoadRows() returns (stale: set<string>)
      requires rows == map[]
      modifies this`rows
      ensures rows == Load(table).rows
      ensures stale <= table.Keys && forall c | c in table :: c in stale <==> table[c].unreconciled > 0
    {
      var todo := table.Keys;
      stale := {};
      while todo != {}
        invariant todo <= table.Keys && rows.Keys == table.Keys - todo
        invariant forall c | c in rows :: rows[c] == Cleaned(table[c])
        invariant stale <= rows.Keys && forall c | c in rows :: c in stale <==> table[c].unreconciled > 0
        decreases |todo|
      {
        var c :| c in todo;
        if table[c].unreconciled > 0 {
          stale := stale + {c};
        }
        rows := rows[c := Cleaned(table[c])];
        todo := todo - {c};
      }
    }

    method PersistStale(stale: set<string>)
      requires stale <= rows.Keys == table.Keys
      requires forall c | c in rows && c !in stale :: table[c] == rows[c]
      modifies this`table
      ensures table == rows
    {
      var todo := stale;
      while todo != {}
        invariant todo <= stale && rows.Keys == table.Keys
        invariant forall c | c in rows && c !in todo :: table[c] == rows[c]
        decreases |todo|
      {
        var c :| c in todo;
        Persist(c);
        todo := todo - {c};
      }
    }

    method Persist(coach: string)
      requires coach in rows
      modifies this`table
      ensures table == old(table)[coach := rows[coach]]
    {
      table := table[coach := rows[coach]];
    }

    /** Creates and persists a missing row. */
    method FetchRow(coach: string) returns (row: Row)
      requires Valid()
      modifies this`rows, this`table
      ensures Valid() && coach in rows && rows[coach] == row == RowOf(old(View()), coach)
      ensures rows == old(rows)[coach := row]
    {
      if coach !in rows {
        rows := rows[coach := NEW_ROW];
        Persist(coach);
      }
      row := rows[coach];
    }

    method SeedCoach(coach: string)
      requires Valid()
      modifies this
      ensures Valid() && View() == Seed(old(View()), coach)
    {
      if coach in rows {
        return;
      }
      rows := rows[coach := NEW_ROW];
      Persist(coach);
    }

    method OnWagonExit(e: WagonEvent)
      requires Valid()
      modifies this
      ensures Valid() && View() == Exit(old(View()), e)
    {
      if e.track.None? || e.camera.None? {
        return;
      }
      seenWagon := seenWagon + {e.coachFrom, e.coachTo};
      if !e.expectOrphan && e.track.value in pendingExits {
        return;
      }
      var row := FetchRow(e.coachFrom);
      row := row.(count := row.count - 1);
      if e.expectOrphan {
        rows := rows[e.coachFrom := row];
        Persist(e.coachFrom);
        return;
      }
      rows := rows[e.coachFrom := row.(unreconciled := row.unreconciled + 1)];
      Persist(e.coachFrom);
      pendingExits := pendingExits[e.track.value := PendingExit(e.coachFrom, e.coachTo)];
    }

    method OnWagonEntry(e: WagonEvent, now: int)
      requires Valid()
      modifies this
      ensures Valid() && View() == Entry(old(View()), e, now)
    {
      if e.track.None? || e.camera.None? {
        return;
      }
      seenWagon := seenWagon + {e.coachFrom, e.coachTo};
      var pending := if e.track.value in pendingExits then Some(pendingExits[e.track.value]) else None;
      pendingExits := pendingExits - {e.track.value};
      CreditCoach(e.coachTo, now);
      if pending.Some? {
        SettleExit(pending.value.coachFrom);
      }
    }

    method CreditCoach(coach: string, now: int)
      requires Valid()
      modifies this`rows, this`table
      ensures Valid() && View() == Credit(old(View()), coach, now)
    {
      var row := FetchRow(coach);
      rows := rows[coach := row.(count := row.count + 1, reconciled := Some(now))];
      Persist(coach);
    }

    method SettleExit(coach: string)
      requires Valid()
      modifies this`rows, this`table
      ensures Valid() && View() == Settle(old(View()), coach)
    {
      var row := FetchRow(coach);
      if row.unreconciled > 0 {
        rows := rows[coach := row.(unreconciled := row.unreconciled - 1)];
        Persist(coach);
      }
    }

    method HandlePendingTimeout(track: int)
      requires Valid()
      modifies this
      ensures Valid() && View() == Timeout(old(View()), track)
    {
      pendingExits := pendingExits - {track};
    }

    /** The camera is authoritative. */
    method CorrectTo(car: string, camera: int)
      requires Valid() && car in rows
      modifies this`rows, this`table
      ensures Valid() && rows == old(rows)[car := old(rows)[car].(count := camera)]
    {
      if rows[car].count != camera {
        rows := rows[car := rows[car].(count := camera)];
        Persist(car);
      }
    }

    method CheckDriftOf(car: string, camera: int, stationApproach: bool) returns (obs: Option<Observation>)
      requires Valid()
      modifies this
      ensures Valid() && View() == CheckDrift(cfg, old(View()), car, camera)
      ensures obs == Report(cfg, old(View()), car, camera, stationApproach)
    {
      if car !in seenWagon {
        return None;
      }
      var row := FetchRow(car);
      var delta := row.count - camera;
      var bucket := if Abs(delta) <= cfg.threshold then 0 else DriftBucket(cfg, delta);
      var last := if car in lastDriftBucket then lastDriftBucket[car] else 0;
      if bucket == last {
        return None;
      }
      lastDriftBucket := lastDriftBucket[car := bucket];
      if bucket == 0 {
        obs := Some(Observation(car, camera, camera, 0, cfg.threshold, stationApproach));
      } else {
        obs := Some(Observation(car, camera, row.count, delta, cfg.threshold, stationApproach));
      }
      CorrectTo(car, camera);
    }
  }

  /**
   What an observation says: the arguments of the check, and the count the coach had before it, or, of a
   drift that cleared, the corrected one. The row then agrees with the camera.
   */
  lemma ReportIsConsistent(cfg: Config, s: State, car: string, camera: int, approach: bool)
    requires cfg.bucketSize >= 1
    ensures var r, t := Report(cfg, s, car, camera, approach), CheckDrift(cfg, s, car, camera);
            && (r.Some? <==> Observes(cfg, s, car, camera))
            && (r.Some? ==>
                  && r.value.car == car && r.value.threshold == cfg.threshold && r.value.surface == approach
                  && r.value.cameraCount == camera == RowOf(t, car).count
                  && r.value.ledgerCount == RowOf(if t.lastBucket[car] != 0 then s else t, car).count
                  && r.value.delta == r.value.ledgerCount - camera
                  && (Abs(r.value.delta) > cfg.threshold <==> t.lastBucket[car] != 0))
  {
  }
}
