/** Laws of the ledger over whole runs: conservation, unreconciled exits, drift control. */
module LedgerLaws {
  import opened Keys
  import opened Ledger

  datatype Step =
    | ExitStep(e: WagonEvent)
    | EntryStep(e: WagonEvent, now: int)
    | TimeoutStep(track: int)
    | CheckStep(car: string, camera: int)
    | SeedStep(coach: string)
    | RestartStep

  /** The ledger and, since the last start: who timed out, what the camera corrected, who had no partner. */
  datatype Books = Books(s: State, timedOut: multiset<string>, start: int, corrections: int,
                         orphanEntries: nat, orphanExits: nat)

  ghost function Total(rows: map<string, Row>): int {
    if rows == map[] then 0
    else
      var c :| c in rows;
      rows[c].count + Total(rows - {c})
  }

  ghost function Opened(s: State): Books {
    Books(s, multiset{}, Total(s.rows), 0, 0, 0)
  }

  predicate Orphaned(s: State, e: WagonEvent) {
    !Redacted(e) && e.track.value !in s.pending
  }

  function Apply(cfg: Config, s: State, step: Step): State
    requires cfg.bucketSize >= 1
  {
    match step
    case ExitStep(e) => Exit(s, e)
    case EntryStep(e, now) => Entry(s, e, now)
    case TimeoutStep(track) => Timeout(s, track)
    case CheckStep(car, camera) => CheckDrift(cfg, s, car, camera)
    case SeedStep(coach) => Seed(s, coach)
    case RestartStep => Load(s.table)
  }

  ghost function Next(cfg: Config, b: Books, step: Step): Books
    requires cfg.bucketSize >= 1
  {
    var t := b.(s := Apply(cfg, b.s, step));
    match step
    case ExitStep(e) => t.(orphanExits := b.orphanExits + if !Redacted(e) && e.expectOrphan then 1 else 0)
    case EntryStep(e, _) => t.(orphanEntries := b.orphanEntries + if Orphaned(b.s, e) then 1 else 0)
    case TimeoutStep(track) =>
      if track in b.s.pending then t.(timedOut := b.timedOut + multiset{b.s.pending[track].coachFrom}) else t
    case CheckStep(car, camera) =>
      t.(corrections := b.corrections + if Observes(cfg, b.s, car, camera) then camera - RowOf(b.s, car).count else 0)
    case SeedStep(_) => t
    case RestartStep => Opened(t.s)
  }

  ghost function Run(cfg: Config, b: Books, steps: seq<Step>): Books
    requires cfg.bucketSize >= 1
    decreases |steps|
  {
    if steps == [] then b else Run(cfg, Next(cfg, b, steps[0]), steps[1..])
  }

  function PendingFrom(pending: map<int, PendingExit>, coach: string): nat {
    |set t | t in pending && pending[t].coachFrom == coach|
  }

  ghost predicate Mirrored(s: State) {
    s.table == s.rows
  }

  /** `unreconciled_exits` is the coach's pending exits plus those that timed out. */
  ghost predicate Accounted(s: State, timedOut: multiset<string>) {
    forall c :: RowOf(s, c).unreconciled == PendingFrom(s.pending, c) + timedOut[c]
  }

  ghost predicate Conserved(b: Books) {
    Total(b.s.rows) == b.start + b.corrections + b.orphanEntries - b.orphanExits - |b.s.pending| - |b.timedOut|
  }

  ghost predicate Inv(b: Books) {
    Mirrored(b.s) && Accounted(b.s, b.timedOut) && Conserved(b)
  }

  // ---------------------------------------------------------------- sums

  lemma {:induction false} TotalWithout(rows: map<string, Row>, c: string)
    requires c in rows
    ensures Total(rows) == rows[c].count + Total(rows - {c})
    decreases |rows|
  {
    var d :| d in rows && Total(rows) == rows[d].count + Total(rows - {d});
    if d != c {
      assert c in rows - {d} && d in rows - {c};
      TotalWithout(rows - {d}, c);
      TotalWithout(rows - {c}, d);
      assert rows - {d} - {c} == rows - {c} - {d};
    }
  }

  lemma TotalWrite(s: State, c: string, row: Row)
    ensures Total(Write(s, c, row).rows) == Total(s.rows) - RowOf(s, c).count + row.count
  {
    var rows := s.rows[c := row];
    TotalWithout(rows, c);
    if c in s.rows {
      TotalWithout(s.rows, c);
      assert rows - {c} == s.rows - {c};
    } else {
      assert rows - {c} == s.rows;
    }
  }

  lemma PendingPlus(pending: map<int, PendingExit>, track: int, x: PendingExit)
    requires track !in pending
    ensures |pending[track := x]| == |pending| + 1
    ensures forall c :: PendingFrom(pending[track := x], c) ==
                        PendingFrom(pending, c) + if c == x.coachFrom then 1 else 0
  {
    assert pending[track := x].Keys == pending.Keys + {track};
    forall c { PendingPlusAt(pending, track, x, c); }
  }

  lemma PendingPlusAt(pending: map<int, PendingExit>, track: int, x: PendingExit, c: string)
    requires track !in pending
    ensures PendingFrom(pending[track := x], c) == PendingFrom(pending, c) + if c == x.coachFrom then 1 else 0
  {
    var after := pending[track := x];
    var was, now := set t | t in pending && pending[t].coachFrom == c, set t | t in after && after[t].coachFrom == c;
    assert now == was + if c == x.coachFrom then {track} else {};
  }

  lemma PendingMinus(pending: map<int, PendingExit>, track: int)
    requires track in pending
    ensures |pending - {track}| == |pending| - 1
    ensures forall c :: PendingFrom(pending, c) ==
                        PendingFrom(pending - {track}, c) + if c == pending[track].coachFrom then 1 else 0
  {
    PendingPlus(pending - {track}, track, pending[track]);
    assert (pending - {track})[track := pending[track]] == pending;
  }

  lemma PendingNone(pending: map<int, PendingExit>, track: int)
    requires track !in pending
    ensures pending - {track} == pending
  {
  }

  // ---------------------------------------------------------------- the invariant over runs

  lemma ExitKeeps(b: Books, e: WagonEvent, cfg: Config)
    requires Inv(b) && cfg.bucketSize >= 1
    ensures Inv(Next(cfg, b, ExitStep(e)))
  {
    if !Redacted(e) && (e.expectOrphan || e.track.value !in b.s.pending) {
      var row, s := RowOf(b.s, e.coachFrom), See(b.s, e);
      TotalWrite(s, e.coachFrom, row.(count := row.count - 1));
      TotalWrite(s, e.coachFrom, row.(count := row.count - 1, unreconciled := row.unreconciled + 1));
      if !e.expectOrphan {
        PendingPlus(b.s.pending, e.track.value, PendingExit(e.coachFrom, e.coachTo));
      }
    }
  }

  /** The `> 0` guard before the decrement never fails. */
  lemma GuardHolds(b: Books, e: WagonEvent, now: int)
    requires Inv(b) && !Redacted(e) && e.track.value in b.s.pending
    ensures RowOf(Credit(See(b.s, e), e.coachTo, now), b.s.pending[e.track.value].coachFrom).unreconciled > 0
  {
    PendingMinus(b.s.pending, e.track.value);
    var c := b.s.pending[e.track.value].coachFrom;
    assert RowOf(b.s, c).unreconciled == PendingFrom(b.s.pending, c) + b.timedOut[c];
  }

  /** Writing a row without touching its counter of unreconciled exits. */
  lemma WriteKeepsAccounts(s: State, c: string, row: Row, timedOut: multiset<string>)
    requires Accounted(s, timedOut) && row.unreconciled == RowOf(s, c).unreconciled
    ensures Accounted(Write(s, c, row), timedOut)
    ensures Total(Write(s, c, row).rows) == Total(s.rows) - RowOf(s, c).count + row.count
  {
    TotalWrite(s, c, row);
    forall d ensures RowOf(Write(s, c, row), d).unreconciled == RowOf(s, d).unreconciled {}
  }

  lemma CreditKeeps(b: Books, coach: string, now: int)
    requires Inv(b)
    ensures Inv(b.(s := Credit(b.s, coach, now), orphanEntries := b.orphanEntries + 1))
  {
    var row := RowOf(b.s, coach);
    WriteKeepsAccounts(b.s, coach, row.(count := row.count + 1, reconciled := Some(now)), b.timedOut);
  }

  lemma SettleKeeps(b: Books, track: int)
    requires Inv(b) && track in b.s.pending && b.orphanEntries > 0
    ensures Inv(b.(s := Settle(b.s, b.s.pending[track].coachFrom).(pending := b.s.pending - {track}),
                   orphanEntries := b.orphanEntries - 1))
  {
    var c := b.s.pending[track].coachFrom;
    var row := RowOf(b.s, c);
    PendingMinus(b.s.pending, track);
    assert row.unreconciled == PendingFrom(b.s.pending, c) + b.timedOut[c];
    TotalWrite(b.s, c, row.(unreconciled := row.unreconciled - 1));
  }

  lemma EntryKeeps(b: Books, e: WagonEvent, now: int, cfg: Config)
    requires Inv(b) && cfg.bucketSize >= 1
    ensures Inv(Next(cfg, b, EntryStep(e, now)))
  {
    if !Redacted(e) {
      var seen := b.(s := See(b.s, e));
      assert forall c :: RowOf(seen.s, c) == RowOf(b.s, c);
      CreditKeeps(seen, e.coachTo, now);
      if e.track.value in b.s.pending {
        SettleKeeps(seen.(s := Credit(seen.s, e.coachTo, now), orphanEntries := b.orphanEntries + 1), e.track.value);
      }
    }
  }

  lemma TimeoutKeeps(b: Books, track: int, cfg: Config)
    requires Inv(b) && cfg.bucketSize >= 1
    ensures Inv(Next(cfg, b, TimeoutStep(track)))
  {
    if track in b.s.pending {
      PendingMinus(b.s.pending, track);
    } else {
      PendingNone(b.s.pending, track);
    }
  }

  lemma CorrectionKeeps(b: Books, car: string, camera: int)
    requires Inv(b)
    ensures var row := RowOf(b.s, car);
            Inv(b.(s := Write(b.s, car, row.(count := camera)), corrections := b.corrections + camera - row.count))
  {
    WriteKeepsAccounts(b.s, car, RowOf(b.s, car).(count := camera), b.timedOut);
  }

  lemma SameRowKeeps(b: Books, car: string)
    requires Inv(b)
    ensures Inv(b.(s := Write(b.s, car, RowOf(b.s, car))))
  {
    WriteKeepsAccounts(b.s, car, RowOf(b.s, car), b.timedOut);
  }

  lemma CheckKeeps(cfg: Config, b: Books, car: string, camera: int)
    requires Inv(b) && cfg.bucketSize >= 1
    ensures Inv(Next(cfg, b, CheckStep(car, camera)))
  {
    if Observes(cfg, b.s, car, camera) {
      CorrectionKeeps(b, car, camera);
    } else if car in b.s.seen {
      SameRowKeeps(b, car);
    }
  }

  lemma LoadWithout(table: map<string, Row>, c: string)
    requires c in table
    ensures Load(table - {c}).rows == Load(table).rows - {c}
    ensures c in Load(table).rows && Load(table).rows[c].count == table[c].count
  {
  }

  lemma {:induction false} LoadedTotal(table: map<string, Row>)
    ensures Total(Load(table).rows) == Total(table)
    decreases |table|
  {
    if table != map[] {
      var c :| c in table;
      LoadWithout(table, c);
      TotalWithout(table, c);
      TotalWithout(Load(table).rows, c);
      LoadedTotal(table - {c});
    } else {
      assert Load(table).rows == map[];
    }
  }

  lemma NoPending(c: string)
    ensures PendingFrom(map[], c) == 0
  {
    var none: map<int, PendingExit> := map[];
    assert (set t | t in none && none[t].coachFrom == c) == {};
  }

  /** Restart keeps every count, zeroes every unreconciled counter and re-establishes the accounts. */
  lemma RestartRestores(b: Books, cfg: Config)
    requires Inv(b) && cfg.bucketSize >= 1
    ensures var t := Next(cfg, b, RestartStep);
            && Inv(t) && t.start == Total(b.s.rows)
            && (forall c :: RowOf(t.s, c).count == RowOf(b.s, c).count && RowOf(t.s, c).unreconciled == 0)
  {
    LoadedTotal(b.s.table);
    var t := Load(b.s.table);
    forall c
      ensures RowOf(t, c).count == RowOf(b.s, c).count && RowOf(t, c).unreconciled == 0
      ensures PendingFrom(t.pending, c) == 0
    {
      NoPending(c);
      assert RowOf(b.s, c).unreconciled == PendingFrom(b.s.pending, c) + b.timedOut[c];
    }
  }

  lemma NextKeeps(cfg: Config, b: Books, step: Step)
    requires Inv(b) && cfg.bucketSize >= 1
    ensures Inv(Next(cfg, b, step))
  {
    match step
    case ExitStep(e) => ExitKeeps(b, e, cfg);
    case EntryStep(e, now) => EntryKeeps(b, e, now, cfg);
    case TimeoutStep(track) => TimeoutKeeps(b, track, cfg);
    case CheckStep(car, camera) => CheckKeeps(cfg, b, car, camera);
    case SeedStep(coach) => if coach !in b.s.rows { TotalWrite(b.s, coach, NEW_ROW); }
    case RestartStep => RestartRestores(b, cfg);
  }

  /** Over any run from an empty ledger, in any order and with any restarts, the books balance. */
  lemma {:induction false} BooksBalance(cfg: Config, b: Books, steps: seq<Step>)
    requires Inv(b) && cfg.bucketSize >= 1
    ensures Inv(Run(cfg, b, steps))
    decreases |steps|
  {
    if steps != [] {
      NextKeeps(cfg, b, steps[0]);
      BooksBalance(cfg, Next(cfg, b, steps[0]), steps[1..]);
    }
  }

  lemma EmptyBooks()
    ensures Inv(Opened(Load(map[])))
  {
    forall c ensures PendingFrom(map[], c) == 0 { NoPending(c); }
    assert Load(map[]).rows == map[];
  }

  /** Conservation, accounting and persistence in every state a ledger can reach. */
  lemma LedgerIsConserved(cfg: Config, steps: seq<Step>)
    requires cfg.bucketSize >= 1
    ensures var b := Run(cfg, Opened(Load(map[])), steps);
            && Total(b.s.rows) == b.start + b.corrections + b.orphanEntries - b.orphanExits
                                  - |b.s.pending| - |b.timedOut|
            && (forall c :: RowOf(b.s, c).unreconciled == PendingFrom(b.s.pending, c) + b.timedOut[c])
            && b.s.table == b.s.rows
  {
    EmptyBooks();
    BooksBalance(cfg, Opened(Load(map[])), steps);
  }

  /** A matched pair moves one passenger from the exit's coach to the entry's and nothing else. */
  lemma MatchedPairMovesOne(s: State, exit: WagonEvent, entry: WagonEvent, now: int)
    requires !Redacted(exit) && !Redacted(entry) && exit.track == entry.track && !exit.expectOrphan
    requires exit.track.value !in s.pending && RowOf(s, exit.coachFrom).unreconciled >= 0
    ensures var t := Entry(Exit(s, exit), entry, now);
            && t.pending == s.pending
            && forall c :: RowOf(t, c).unreconciled == RowOf(s, c).unreconciled
                           && RowOf(t, c).count == RowOf(s, c).count
                                                   - (if c == exit.coachFrom then 1 else 0)
                                                   + (if c == entry.coachTo then 1 else 0)
    ensures Exit(Exit(s, exit), exit) == Exit(s, exit)
  {
    var u := Exit(s, exit);
    assert u.pending - {exit.track.value} == s.pending;
    assert See(u, exit) == u;
  }
}
