/**
 What the ledger says of itself along a run: that its observations account for its corrections, which
 coaches it has seen, and when a coach was last reconciled.
 */
module LedgerReports {
  import opened Keys
  import opened Ledger
  import opened LedgerLaws

  // ---------------------------------------------------------------- observations and corrections

  /** The observations made along a run, of all coaches. */
  function Reports(cfg: Config, s: State, steps: seq<Step>): seq<Observation>
    requires cfg.bucketSize >= 1
    decreases |steps|
  {
    if steps == [] then []
    else
      var rest := Reports(cfg, Apply(cfg, s, steps[0]), steps[1..]);
      match steps[0]
      case CheckStep(car, camera) =>
        var r := Report(cfg, s, car, camera, false);
        if r.Some? then [r.value] + rest else rest
      case _ => rest
  }

  function Deltas(reports: seq<Observation>): int {
    if reports == [] then 0 else reports[0].delta + Deltas(reports[1..])
  }

  /** What the observations of drifts that cleared corrected, which they do not say: each reports a difference of 0. */
  function Cleared(cfg: Config, s: State, steps: seq<Step>): int
    requires cfg.bucketSize >= 1
    decreases |steps|
  {
    if steps == [] then 0
    else
      Cleared(cfg, Apply(cfg, s, steps[0]), steps[1..]) +
      match steps[0]
      case CheckStep(car, camera) =>
        if Observes(cfg, s, car, camera) && Bucket(cfg, RowOf(s, car).count - camera) == 0
        then camera - RowOf(s, car).count else 0
      case _ => 0
  }

  lemma OneCheck(cfg: Config, b: Books, car: string, camera: int)
    requires cfg.bucketSize >= 1
    ensures var r := Report(cfg, b.s, car, camera, false);
            Next(cfg, b, CheckStep(car, camera)).corrections ==
              b.corrections - (if r.Some? then r.value.delta else 0) + Cleared(cfg, b.s, [CheckStep(car, camera)])
  {
    assert Cleared(cfg, Apply(cfg, b.s, CheckStep(car, camera)), [CheckStep(car, camera)][1..]) == 0;
  }

  /** Between restarts the corrections are the negated differences reported, plus what drifts that cleared were off. */
  lemma {:induction false} ReportsExplainCorrections(cfg: Config, b: Books, steps: seq<Step>)
    requires cfg.bucketSize >= 1 && RestartStep !in steps
    ensures var t := Run(cfg, b, steps);
            && t.corrections == b.corrections - Deltas(Reports(cfg, b.s, steps)) + Cleared(cfg, b.s, steps)
            && t.start == b.start
    decreases |steps|
  {
    if steps != [] {
      var x := steps[0];
      ReportsExplainCorrections(cfg, Next(cfg, b, x), steps[1..]);
      if x.CheckStep? {
        OneCheck(cfg, b, x.car, x.camera);
        assert [x][1..] == [];
        var r, rest := Report(cfg, b.s, x.car, x.camera, false), Reports(cfg, Apply(cfg, b.s, x), steps[1..]);
        if r.Some? {
          assert ([r.value] + rest)[1..] == rest;
        }
      }
    }
  }

  /** So the total of the counts can be told from the observations and the wagon events alone. */
  lemma TotalFollowsReports(cfg: Config, table: map<string, Row>, steps: seq<Step>)
    requires cfg.bucketSize >= 1 && RestartStep !in steps && Inv(Opened(Load(table)))
    ensures var b := Run(cfg, Opened(Load(table)), steps);
            Total(b.s.rows) ==
              Total(Load(table).rows) - Deltas(Reports(cfg, Load(table), steps)) + Cleared(cfg, Load(table), steps)
              + b.orphanEntries - b.orphanExits - |b.s.pending| - |b.timedOut|
  {
    BooksBalance(cfg, Opened(Load(table)), steps);
    ReportsExplainCorrections(cfg, Opened(Load(table)), steps);
  }

  // ---------------------------------------------------------------- seen coaches

  /** A wagon event that is not redacted and has the coach on either side. */
  predicate Names(x: Step, car: string) {
    && (x.ExitStep? || x.EntryStep?)
    && x.e.track.Some? && x.e.camera.Some? && (x.e.coachFrom == car || x.e.coachTo == car)
  }

  /** Named by a step after which nothing restarted. */
  ghost predicate NamedSinceStart(steps: seq<Step>, car: string) {
    exists i | 0 <= i < |steps| :: Names(steps[i], car) && RestartStep !in steps[i + 1..]
  }

  lemma NamedFirst(steps: seq<Step>, car: string)
    requires steps != []
    ensures NamedSinceStart(steps, car)
            <==> (Names(steps[0], car) && RestartStep !in steps[1..]) || NamedSinceStart(steps[1..], car)
  {
    var rest := steps[1..];
    if NamedSinceStart(rest, car) {
      var i :| 0 <= i < |rest| && Names(rest[i], car) && RestartStep !in rest[i + 1..];
      assert steps[i + 1] == rest[i] && steps[i + 2..] == rest[i + 1..];
    }
    if i :| 0 < i < |steps| && Names(steps[i], car) && RestartStep !in steps[i + 1..] {
      assert rest[i - 1] == steps[i] && rest[i..] == steps[i + 1..];
    }
  }

  lemma SeesIff(cfg: Config, s: State, x: Step, car: string)
    requires cfg.bucketSize >= 1
    ensures car in Apply(cfg, s, x).seen <==> !x.RestartStep? && (car in s.seen || Names(x, car))
  {
  }

  /** Drift is checked of exactly the coaches that a wagon event has named since the last restart. */
  lemma {:induction false} SeenIff(cfg: Config, b: Books, steps: seq<Step>, car: string)
    requires cfg.bucketSize >= 1
    ensures car in Run(cfg, b, steps).s.seen
            <==> (car in b.s.seen && RestartStep !in steps) || NamedSinceStart(steps, car)
    decreases |steps|
  {
    if steps != [] {
      var rest := steps[1..];
      SeenIff(cfg, Next(cfg, b, steps[0]), rest, car);
      SeesIff(cfg, b.s, steps[0], car);
      NamedFirst(steps, car);
      assert steps == [steps[0]] + rest;
    }
  }

  // ---------------------------------------------------------------- when a coach was last reconciled

  /** The time of the last entry into the coach that is not redacted, or `before` without one. */
  function LastEntry(steps: seq<Step>, coach: string, before: Option<int>): Option<int>
    decreases |steps|
  {
    if steps == [] then before
    else
      var last := steps[|steps| - 1];
      if last.EntryStep? && last.e.coachTo == coach && last.e.track.Some? && last.e.camera.Some? then Some(last.now)
      else LastEntry(steps[..|steps| - 1], coach, before)
  }

  lemma {:induction false} LastEntryFrom(steps: seq<Step>, coach: string, before: Option<int>)
    requires steps != []
    ensures LastEntry(steps, coach, before) == LastEntry(steps[1..], coach, LastEntry(steps[..1], coach, before))
    decreases |steps|
  {
    var init := steps[..|steps| - 1];
    if |steps| == 1 {
      assert steps[..1] == steps;
    } else {
      LastEntryFrom(init, coach, before);
      assert init[1..] == steps[1..][..|steps| - 2] && init[..1] == steps[..1];
      assert steps[1..][|steps| - 2] == steps[|steps| - 1];
    }
  }

  lemma ReconciledStep(cfg: Config, s: State, x: Step, coach: string)
    requires cfg.bucketSize >= 1 && s.table == s.rows
    ensures var t := Apply(cfg, s, x);
            t.table == t.rows && RowOf(t, coach).reconciled == LastEntry([x], coach, RowOf(s, coach).reconciled)
  {
    assert [x][..0] == [];
  }

  /** Restarts included, a coach's reconciliation time is that of the last entry into it, and of nothing else. */
  lemma {:induction false} ReconciledIsLastEntry(cfg: Config, b: Books, steps: seq<Step>, coach: string)
    requires cfg.bucketSize >= 1 && b.s.table == b.s.rows
    ensures RowOf(Run(cfg, b, steps).s, coach).reconciled == LastEntry(steps, coach, RowOf(b.s, coach).reconciled)
    decreases |steps|
  {
    if steps != [] {
      ReconciledStep(cfg, b.s, steps[0], coach);
      ReconciledIsLastEntry(cfg, Next(cfg, b, steps[0]), steps[1..], coach);
      LastEntryFrom(steps, coach, RowOf(b.s, coach).reconciled);
      assert steps[..1] == [steps[0]];
    }
  }
}
