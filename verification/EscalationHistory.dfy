/** Over runs: which escalations exist, and what each row of an audit log records. */
module EscalationHistory {
  import opened Escalation
  import opened EscalationRuns
  import opened IngestEffects

  function Start(db: Db): Batch {
    Batch(db, 0, [], [])
  }

  /** The step commits a batch in which a new event raises an alert under this id. */
  ghost predicate RaisesNow(s: Sys, step: Step, id: int) {
    step.Ingest? && TakeAll(Start(s.db), step.evs).1 && Alerts(s.db, step.evs, id)
  }

  /** What a step does to one escalation: raises it, records one transition of it, or nothing. */
  ghost predicate Moves(s: Sys, step: Step, id: int) {
    var t := Next(s, step);
    if step.Ingest? then if TakeAll(Start(s.db), step.evs).1 then Escalates(s.db, step.evs, t.db, id) else t.db == s.db
    else
      && (id in t.db.status <==> id in s.db.status)
      && Log(t.db.audit, id) == Log(s.db.audit, id) + Recorded(s, step, id)
  }

  /** The row a commit appends to the escalation's log. */
  function Recorded(s: Sys, step: Step, id: int): seq<Transition> {
    if Transits(s, step, Acknowledge, id) then [Acked]
    else if Transits(s, step, Resolve, id) then [Closed]
    else if Transits(s, step, Dismiss, id) then [Dismissed]
    else []
  }

  lemma RecordedByCommit(s: Sys, task: int, id: int)
    requires task in s.requests
    ensures var (kind, other) := s.requests[task];
            Recorded(s, Commit(task), id)
            == if other == id && Has(s.db, id, Guard(kind)) then [Records(kind)] else []
  {
  }

  lemma WriteLogs(db: Db, k: Kind, other: int, id: int)
    ensures var after := Write(db, k, other);
            && (id in after.status <==> id in db.status)
            && Log(after.audit, id)
               == Log(db.audit, id) + if other == id && Has(db, id, Guard(k)) then [Records(k)] else []
  {
    LogSnoc(db.audit, Entry(other, Records(k)), id);
    assert Log(db.audit, id) + [] == Log(db.audit, id);
  }

  lemma CommitMoves(s: Sys, task: int, id: int)
    requires task in s.requests
    ensures Moves(s, Commit(task), id)
  {
    var (kind, other) := s.requests[task];
    RecordedByCommit(s, task, id);
    WriteLogs(s.db, kind, other, id);
  }

  lemma StepMoves(s: Sys, step: Step, id: int)
    ensures Moves(s, step, id)
  {
    if step.Ingest? {
      if TakeAll(Start(s.db), step.evs).1 {
        CommittedBatchEscalates(s.db, step.evs, id);
      }
    } else if step.Commit? && step.task in s.requests {
      CommitMoves(s, step.task, id);
    } else {
      assert Log(s.db.audit, id) + [] == Log(s.db.audit, id);
    }
  }

  ghost predicate RaisesAt(steps: seq<Step>, q: nat, id: int)
    requires q < |steps|
  {
    RaisesNow(Run(steps[..q]), steps[q], id)
  }

  /** At which steps of the run it is raised. */
  ghost function Raisings(steps: seq<Step>, id: int): (r: seq<bool>)
    ensures |r| == |steps|
  {
    seq(|steps|, q requires 0 <= q < |steps| => RaisesAt(steps, q, id))
  }

  lemma RaisesAtPrefix(steps: seq<Step>, n: nat, q: nat, id: int)
    requires q < n <= |steps|
    ensures RaisesAt(steps[..n], q, id) == RaisesAt(steps, q, id)
  {
    assert steps[..n][..q] == steps[..q];
  }

  lemma RaisingsSnoc(steps: seq<Step>, id: int)
    requires steps != []
    ensures var n := |steps| - 1;
            Raisings(steps, id) == Raisings(steps[..n], id) + [RaisesAt(steps, n, id)]
  {
    var n := |steps| - 1;
    var all, init := Raisings(steps, id), Raisings(steps[..n], id);
    forall q | 0 <= q < n ensures all[q] == init[q] {
      RaisesAtPrefix(steps, n, q, id);
    }
  }

  /**
   Under any interleaving an escalation exists exactly if a batch was committed in which a new event raised
   a complete alert under its id.
   */
  lemma {:induction false} EscalatedIff(steps: seq<Step>, id: int)
    ensures id in Run(steps).db.status <==> true in Raisings(steps, id)
    decreases |steps|
  {
    if steps != [] {
      var init, last := steps[..|steps| - 1], steps[|steps| - 1];
      EscalatedIff(init, id);
      RaisingsSnoc(steps, id);
      StepMoves(Run(init), last, id);
    }
  }

  /** How many commits of a run carried the transition out. */
  function Transited(steps: seq<Step>, k: Kind, id: int): nat {
    if steps == [] then 0
    else
      var init, last := steps[..|steps| - 1], steps[|steps| - 1];
      Transited(init, k, id) + if Transits(Run(init), last, k, id) then 1 else 0
  }

  lemma Counts(a: seq<Transition>, b: seq<Transition>, t: Transition)
    ensures Count(a + b, t) == Count(a, t) + Count(b, t)
  {
    assert multiset(a + b) == multiset(a) + multiset(b);
  }

  function KindOf(t: Transition): Kind {
    match t case Acked => Acknowledge case Closed => Resolve case _ => Dismiss
  }

  lemma RecordedCount(s: Sys, step: Step, id: int, t: Transition)
    ensures Count(Recorded(s, step, id), t)
         == if t != Raised && Transits(s, step, KindOf(t), id) then 1 else 0
  {
  }

  /** What one step adds to the number of rows of a kind. */
  lemma RowsAdded(s: Sys, step: Step, id: int, t: Transition)
    ensures Count(Log(Next(s, step).db.audit, id), t) == Count(Log(s.db.audit, id), t) +
              if t == Raised then if id !in s.db.status && id in Next(s, step).db.status then 1 else 0
              else if Transits(s, step, KindOf(t), id) then 1 else 0
  {
    StepMoves(s, step, id);
    RecordedCount(s, step, id, t);
    Counts(Log(s.db.audit, id), [Raised], t);
    Counts(Log(s.db.audit, id), Recorded(s, step, id), t);
  }

  lemma {:induction false} RowsOfKind(steps: seq<Step>, id: int, t: Transition)
    requires t != Raised
    ensures Count(Log(Run(steps).db.audit, id), t) == Transited(steps, KindOf(t), id)
    decreases |steps|
  {
    if steps != [] {
      var init, last := steps[..|steps| - 1], steps[|steps| - 1];
      RowsOfKind(init, id, t);
      RowsAdded(Run(init), last, id, t);
    }
  }

  lemma {:induction false} RaisedRow(steps: seq<Step>, id: int)
    ensures Count(Log(Run(steps).db.audit, id), Raised) == if id in Run(steps).db.status then 1 else 0
    decreases |steps|
  {
    if steps != [] {
      var init, last := steps[..|steps| - 1], steps[|steps| - 1];
      RaisedRow(init, id);
      StepMoves(Run(init), last, id);
      RowsAdded(Run(init), last, id, Raised);
    }
  }

  /**
   The audit log is exactly the record of what happened: one `raised` row per escalation, and as many rows
   of each other kind as commits carried that transition out, dismissals included.
   */
  lemma RowsAreTransitions(steps: seq<Step>, id: int)
    ensures var s := Run(steps);
            var log := Log(s.db.audit, id);
            && Count(log, Raised) == (if id in s.db.status then 1 else 0)
            && Count(log, Acked) == Transited(steps, Acknowledge, id)
            && Count(log, Closed) == Transited(steps, Resolve, id)
            && Count(log, Dismissed) == Transited(steps, Dismiss, id)
  {
    RaisedRow(steps, id);
    RowsOfKind(steps, id, Acked);
    RowsOfKind(steps, id, Closed);
    RowsOfKind(steps, id, Dismissed);
  }
}
