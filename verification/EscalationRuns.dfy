/**
 Runs of the escalation endpoints: any number of requests, each a status read followed later by a
 guarded transaction and, after the commit returns, by a lifecycle frame for the other operators.
 */
module EscalationRuns {
  import opened Keys
  import opened Escalation

  /** `owed` holds the frames of committed transitions not yet fanned out; `lost` those that never will be. */
  datatype Sys = Sys(db: Db, requests: map<int, (Kind, int)>, owed: multiset<Entry>, frames: seq<Entry>,
                     lost: multiset<Entry>)

  const START := Sys(EMPTY, map[], multiset{}, [], multiset{})

  datatype Step =
    | Ingest(evs: seq<Event>)
    | Read(task: int, kind: Kind, id: int, tagsValid: bool)
    | Commit(task: int)
    | Abort(task: int)
    | Publish(frame: Entry)
    | Lose(frame: Entry)

  predicate Fans(k: Kind, db: Db, id: int) {
    k != Dismiss && Has(db, id, Guard(k))
  }

  /** A step that is not enabled leaves the system as it is. */
  function Next(s: Sys, step: Step): Sys {
    match step
    case Ingest(evs) =>
      var (end, ok) := TakeAll(Batch(s.db, 0, [], []), evs);
      if ok then s.(db := end.db) else s
    case Read(task, kind, id, tagsValid) =>
      if task !in s.requests && Decide(s.db, kind, id, tagsValid) == Proceed
      then s.(requests := s.requests[task := (kind, id)]) else s
    case Commit(task) =>
      if task !in s.requests then s
      else
        var (kind, id) := s.requests[task];
        Sys(Write(s.db, kind, id), s.requests - {task},
            if Fans(kind, s.db, id) then s.owed + multiset{Entry(id, Records(kind))} else s.owed,
            s.frames, s.lost)
    case Abort(task) => s.(requests := s.requests - {task})
    case Publish(frame) =>
      if frame in s.owed then s.(owed := s.owed - multiset{frame}, frames := s.frames + [frame]) else s
    case Lose(frame) =>
      if frame in s.owed then s.(owed := s.owed - multiset{frame}, lost := s.lost + multiset{frame}) else s
  }

  function Run(steps: seq<Step>): Sys {
    if steps == [] then START else Next(Run(steps[..|steps| - 1]), steps[|steps| - 1])
  }

  // ---------------------------------------------------------------- status follows the log

  function PhaseOf(db: Db, id: int): Phase {
    if id in db.status then Reached(db.status[id]) else Nothing
  }

  ghost predicate LogMatches(db: Db) {
    forall id :: Replay(Log(db.audit, id)) == PhaseOf(db, id)
  }

  lemma LogSnoc(audit: seq<Entry>, e: Entry, id: int)
    ensures Log(audit + [e], id) == Log(audit, id) + if e.id == id then [e.transition] else []
  {
    assert (audit + [e])[..|audit|] == audit;
  }

  lemma AppendKeeps(db: Db, e: Entry, after: Status)
    requires LogMatches(db)
    requires Advance(PhaseOf(db, e.id), e.transition) == Reached(after)
    ensures LogMatches(db.(status := db.status[e.id := after], audit := db.audit + [e]))
  {
    var db' := db.(status := db.status[e.id := after], audit := db.audit + [e]);
    forall id ensures Replay(Log(db'.audit, id)) == PhaseOf(db', id) {
      LogSnoc(db.audit, e, id);
      if id == e.id {
        Snoc(Log(db.audit, id), e.transition);
      } else {
        assert Log(db.audit, id) + [] == Log(db.audit, id);
      }
    }
  }

  lemma WriteKeeps(db: Db, k: Kind, id: int)
    requires LogMatches(db)
    ensures LogMatches(Write(db, k, id))
  {
    if Has(db, id, Guard(k)) {
      AppendKeeps(db, Entry(id, Records(k)), Leaves(k));
    }
  }

  lemma RaiseKeeps(db: Db, id: int)
    requires LogMatches(db)
    ensures LogMatches(Raise(db, id))
  {
    if id !in db.status {
      AppendKeeps(db, Entry(id, Raised), Unacknowledged);
    }
  }

  /** The rows that have frames. */
  function Lifecycle(audit: seq<Entry>): multiset<Entry> {
    if audit == [] then multiset{}
    else
      var last := audit[|audit| - 1];
      Lifecycle(audit[..|audit| - 1]) + if last.transition in {Acked, Closed} then multiset{last} else multiset{}
  }

  lemma LifecycleSnoc(audit: seq<Entry>, e: Entry)
    ensures Lifecycle(audit + [e])
         == Lifecycle(audit) + if e.transition in {Acked, Closed} then multiset{e} else multiset{}
  {
    assert (audit + [e])[..|audit|] == audit;
  }

  function Rank(s: Status): nat {
    match s case Unacknowledged => 0 case Acknowledged => 1 case Resolved => 2
  }

  /** Escalations are never removed and their status never goes back. */
  ghost predicate Forward(a: Db, b: Db) {
    forall id | id in a.status :: id in b.status && Rank(a.status[id]) <= Rank(b.status[id])
  }

  lemma {:induction false} IngestKeeps(b: Batch, evs: seq<Event>)
    requires LogMatches(b.db)
    ensures var end := TakeAll(b, evs).0;
            LogMatches(end.db) && Lifecycle(end.db.audit) == Lifecycle(b.db.audit) && Forward(b.db, end.db)
    decreases |evs|
  {
    if evs != [] && Take(b, evs[0]).Some? {
      var db := if Stores(b.db, evs[0]) then b.db.(events := b.db.events[evs[0].id := evs[0].naturalKey]) else b.db;
      assert LogMatches(db) by {
        assert forall id :: PhaseOf(db, id) == PhaseOf(b.db, id);
      }
      RaiseKeeps(db, evs[0].id);
      LifecycleSnoc(db.audit, Entry(evs[0].id, Raised));
      var n := Take(b, evs[0]).value;
      assert n.db == db || n.db == Raise(db, evs[0].id);
      IngestKeeps(n, evs[1..]);
    }
  }

  // ---------------------------------------------------------------- the invariant

  /** Every transition has its frame sent, owed or lost. */
  ghost predicate Balanced(s: Sys) {
    multiset(s.frames) + s.owed + s.lost == Lifecycle(s.db.audit)
  }

  /** A request that decided to write still names an escalation at least as far along as it read. */
  ghost predicate Informed(db: Db, requests: map<int, (Kind, int)>) {
    forall t | t in requests ::
      requests[t].1 in db.status && Rank(Guard(requests[t].0)) <= Rank(db.status[requests[t].1])
  }

  ghost predicate Inv(s: Sys) {
    LogMatches(s.db) && Balanced(s) && Informed(s.db, s.requests)
  }

  lemma WriteBalances(s: Sys, k: Kind, id: int)
    requires Balanced(s)
    ensures multiset(s.frames) + (if Fans(k, s.db, id) then s.owed + multiset{Entry(id, Records(k))} else s.owed)
            + s.lost == Lifecycle(Write(s.db, k, id).audit)
  {
    LifecycleSnoc(s.db.audit, Entry(id, Records(k)));
  }

  lemma WriteForward(db: Db, k: Kind, id: int)
    ensures Forward(db, Write(db, k, id))
  {
  }

  lemma ForwardInforms(a: Db, b: Db, requests: map<int, (Kind, int)>)
    requires Informed(a, requests) && Forward(a, b)
    ensures Informed(b, requests)
  {
    forall t | t in requests
      ensures requests[t].1 in b.status && Rank(Guard(requests[t].0)) <= Rank(b.status[requests[t].1])
    {
      var id := requests[t].1;
      assert Rank(a.status[id]) <= Rank(b.status[id]);
    }
  }

  lemma MoveToFrames(owed: multiset<Entry>, frames: seq<Entry>, lost: multiset<Entry>, f: Entry)
    requires f in owed
    ensures multiset(frames + [f]) + (owed - multiset{f}) + lost == multiset(frames) + owed + lost
  {
    assert multiset(frames + [f]) == multiset(frames) + multiset{f};
    assert owed == multiset{f} + (owed - multiset{f});
  }

  lemma MoveToLost(owed: multiset<Entry>, sent: multiset<Entry>, lost: multiset<Entry>, f: Entry)
    requires f in owed
    ensures sent + (owed - multiset{f}) + (lost + multiset{f}) == sent + owed + lost
  {
    assert owed == multiset{f} + (owed - multiset{f});
  }

  lemma CommitKeeps(s: Sys, task: int)
    requires Inv(s) && task in s.requests
    ensures Inv(Next(s, Commit(task))) && Forward(s.db, Next(s, Commit(task)).db)
  {
    var (kind, id) := s.requests[task];
    WriteKeeps(s.db, kind, id);
    WriteBalances(s, kind, id);
    WriteForward(s.db, kind, id);
    ForwardInforms(s.db, Write(s.db, kind, id), s.requests);
  }

  lemma PublishKeeps(s: Sys, f: Entry)
    requires Balanced(s) && f in s.owed
    ensures Balanced(Next(s, Publish(f)))
  {
    MoveToFrames(s.owed, s.frames, s.lost, f);
  }

  lemma LoseKeeps(s: Sys, f: Entry)
    requires Balanced(s) && f in s.owed
    ensures Balanced(Next(s, Lose(f)))
  {
    MoveToLost(s.owed, multiset(s.frames), s.lost, f);
  }

  lemma IngestStepKeeps(s: Sys, evs: seq<Event>)
    requires Inv(s)
    ensures Inv(Next(s, Ingest(evs))) && Forward(s.db, Next(s, Ingest(evs)).db)
  {
    IngestKeeps(Batch(s.db, 0, [], []), evs);
    ForwardInforms(s.db, Next(s, Ingest(evs)).db, s.requests);
  }

  lemma NextKeeps(s: Sys, step: Step)
    requires Inv(s)
    ensures Inv(Next(s, step)) && Forward(s.db, Next(s, step).db)
  {
    match step
    case Ingest(evs) => IngestStepKeeps(s, evs);
    case Read(_, _, _, _) =>
    case Commit(task) => if task in s.requests { CommitKeeps(s, task); }
    case Abort(_) =>
    case Publish(frame) => if frame in s.owed { PublishKeeps(s, frame); }
    case Lose(frame) => if frame in s.owed { LoseKeeps(s, frame); }
  }

  lemma {:induction false} RunKeeps(steps: seq<Step>)
    ensures Inv(Run(steps))
    decreases |steps|
  {
    if steps != [] {
      RunKeeps(steps[..|steps| - 1]);
      NextKeeps(Run(steps[..|steps| - 1]), steps[|steps| - 1]);
    }
  }

  // ---------------------------------------------------------------- the history language

  /**
   After any interleaving of ingest and operator requests, an escalation's audit log is raised, then
   dismissals, then perhaps acknowledged, then perhaps resolved, and its status is the end of the log.
   */
  lemma HistoryLanguage(steps: seq<Step>, id: int, s: Status)
    ensures var db := Run(steps).db;
            && (Has(db, id, s) <==> InLanguage(Log(db.audit, id), s))
            && (id !in db.status <==> Log(db.audit, id) == [])
  {
    RunKeeps(steps);
    var db := Run(steps).db;
    assert Replay(Log(db.audit, id)) == PhaseOf(db, id);
    LanguageIsReplay(Log(db.audit, id), s);
    NothingIsEmpty(Log(db.audit, id));
  }

  /** No row of an escalation follows a row that the protocol says must come later. */
  lemma NothingAfterAcknowledge(steps: seq<Step>, id: int, i: nat, j: nat)
    requires var log := Log(Run(steps).db.audit, id); i < j < |log| && log[i] == Acked
    ensures var log := Log(Run(steps).db.audit, id); log[j] == Closed && j == i + 1 == |log| - 1
  {
    RunKeeps(steps);
    var db := Run(steps).db;
    assert Replay(Log(db.audit, id)) == PhaseOf(db, id);
    NothingIsEmpty(Log(db.audit, id));
    var n := ShapeOf(Log(db.audit, id));
  }

  // ---------------------------------------------------------------- replies

  /**
   A request that got past its status read and commits makes its reply true, whoever wrote in between:
   "resolved" is then the status, and "acknowledged" has been reached though it may already be past.
   */
  lemma ReplyIsTrue(steps: seq<Step>, task: int)
    requires task in Run(steps).requests
    ensures var s := Run(steps);
            var (kind, id) := s.requests[task];
            var after := Next(s, Commit(task)).db;
            && id in after.status
            && Rank(Leaves(kind)) <= Rank(after.status[id])
            && (kind == Resolve ==> after.status[id] == Resolved)
            && (kind == Acknowledge ==>
                  (after.status[id] == Acknowledged <==> !Has(s.db, id, Resolved)))
  {
    RunKeeps(steps);
  }

  // ---------------------------------------------------------------- frames

  function Count(log: seq<Transition>, t: Transition): nat {
    multiset(log)[t]
  }

  lemma CountSnoc(log: seq<Transition>, t: Transition, u: Transition)
    ensures Count(log + [t], u) == Count(log, u) + if t == u then 1 else 0
  {
  }

  lemma {:induction false} LifecycleCounts(audit: seq<Entry>, id: int, t: Transition)
    requires t in {Acked, Closed}
    ensures Lifecycle(audit)[Entry(id, t)] == Count(Log(audit, id), t)
    decreases |audit|
  {
    if audit != [] {
      var init, last := audit[..|audit| - 1], audit[|audit| - 1];
      LifecycleCounts(init, id, t);
      CountSnoc(Log(init, id), last.transition, t);
    }
  }

  /** How many frames of a kind an escalation should have had by the time it has this status. */
  function Due(p: Phase, t: Transition): nat {
    if p.Reached? && Rank(p.status) >= (if t == Acked then 1 else 2) then 1 else 0
  }

  lemma {:induction false} LogCounts(log: seq<Transition>, t: Transition)
    requires Replay(log) != Wrong && t in {Acked, Closed}
    ensures Count(log, t) == Due(Replay(log), t)
    decreases |log|
  {
    if log != [] {
      var init, last := log[..|log| - 1], log[|log| - 1];
      LogCounts(init, t);
      assert log == init + [last];
      CountSnoc(init, last, t);
    }
  }

  /**
   Frames correspond one to one with acknowledged and resolved transitions: each is sent at most once,
   and exactly once unless it is still owed or was lost between the commit and the fan-out.
   */
  lemma FramesAreOneToOne(steps: seq<Step>, id: int, t: Transition)
    requires t in {Acked, Closed}
    ensures var s := Run(steps);
            var f := Entry(id, t);
            multiset(s.frames)[f] + s.owed[f] + s.lost[f] == Due(PhaseOf(s.db, id), t)
  {
    RunKeeps(steps);
    var s := Run(steps);
    LifecycleCounts(s.db.audit, id, t);
    assert Replay(Log(s.db.audit, id)) == PhaseOf(s.db, id);
    LogCounts(Log(s.db.audit, id), t);
    assert (multiset(s.frames) + s.owed + s.lost)[Entry(id, t)]
        == multiset(s.frames)[Entry(id, t)] + s.owed[Entry(id, t)] + s.lost[Entry(id, t)];
  }

  /** Frames are only ever sent for acknowledged and resolved. */
  lemma OnlyLifecycleFrames(steps: seq<Step>, f: Entry)
    requires f in Run(steps).frames
    ensures f.transition in {Acked, Closed}
  {
    RunKeeps(steps);
    var s := Run(steps);
    assert f in multiset(s.frames) + s.owed + s.lost;
    LifecycleMembers(s.db.audit, f);
  }

  lemma {:induction false} LifecycleMembers(audit: seq<Entry>, f: Entry)
    requires f in Lifecycle(audit)
    ensures f.transition in {Acked, Closed}
    decreases |audit|
  {
    var last := audit[|audit| - 1];
    if last != f || last.transition !in {Acked, Closed} {
      LifecycleMembers(audit[..|audit| - 1], f);
    }
  }

  // ---------------------------------------------------------------- the order of frames

  lemma {:induction false} LogCountsFrames(frames: seq<Entry>, id: int, t: Transition)
    ensures multiset(frames)[Entry(id, t)] == Count(Log(frames, id), t)
    decreases |frames|
  {
    if frames != [] {
      var init, last := frames[..|frames| - 1], frames[|frames| - 1];
      LogCountsFrames(init, id, t);
      CountSnoc(Log(init, id), last.transition, t);
      FrameSnoc(init, last);
      assert frames == init + [last];
    }
  }

  lemma FrameSnoc(frames: seq<Entry>, f: Entry)
    ensures multiset(frames + [f]) == multiset(frames) + multiset{f}
  {
  }

  /** The step is the commit that carries the transition out. */
  predicate Transits(s: Sys, step: Step, k: Kind, id: int) {
    step.Commit? && step.task in s.requests && s.requests[step.task] == (k, id) && Has(s.db, id, Guard(k))
  }

  /** At which steps a request commits the transition. */
  function Commits(steps: seq<Step>, k: Kind, id: int): (r: seq<bool>)
    ensures |r| == |steps|
  {
    seq(|steps|, i requires 0 <= i < |steps| => Transits(Run(steps[..i]), steps[i], k, id))
  }

  predicate Disposes(step: Step, f: Entry) {
    step == Publish(f) || step == Lose(f)
  }

  /** At which steps its frame is sent, or lost. */
  function Disposals(steps: seq<Step>, f: Entry): (r: seq<bool>)
    ensures |r| == |steps|
  {
    seq(|steps|, i requires 0 <= i < |steps| => Disposes(steps[i], f))
  }

  /** Begun before q and not ended since. */
  ghost predicate Open(begun: seq<bool>, ended: seq<bool>, q: nat)
    requires |begun| == |ended| >= q
  {
    exists i: nat | i < q :: begun[i] && forall p | i < p < q :: !ended[p]
  }

  lemma OpenNext(begun: seq<bool>, ended: seq<bool>, q: nat)
    requires |begun| == |ended| > q
    ensures Open(begun, ended, q + 1) <==> begun[q] || (Open(begun, ended, q) && !ended[q])
  {
    if Open(begun, ended, q) && !ended[q] {
      var i: nat :| i < q && begun[i] && forall p | i < p < q :: !ended[p];
      assert forall p | i < p < q + 1 :: !ended[p];
    }
  }

  /** Before step q the transition has been committed, and its frame has neither been sent nor lost since. */
  ghost predicate Unsent(steps: seq<Step>, k: Kind, id: int, q: nat)
    requires q <= |steps|
  {
    Open(Commits(steps, k, id), Disposals(steps, Entry(id, Records(k))), q)
  }

  /**
   At step q the resolving request, which has committed, sends its frame, while the acknowledging
   request has committed too but has not sent its own.
   */
  ghost predicate OvertakesAt(steps: seq<Step>, id: int, q: nat)
    requires q < |steps|
  {
    steps[q] == Publish(Entry(id, Closed)) && Unsent(steps, Resolve, id, q) && Unsent(steps, Acknowledge, id, q)
  }

  ghost function Overtakings(steps: seq<Step>, id: int): (r: seq<bool>)
    ensures |r| == |steps|
  {
    seq(|steps|, q requires 0 <= q < |steps| => OvertakesAt(steps, id, q))
  }

  ghost predicate Overtaken(steps: seq<Step>, id: int) {
    Any(Overtakings(steps, id), |steps|)
  }

  predicate Any(marks: seq<bool>, n: nat)
    requires n <= |marks|
    ensures Any(marks, n) <==> exists q | 0 <= q < n :: marks[q]
  {
    n > 0 && (Any(marks, n - 1) || marks[n - 1])
  }

  lemma OwedMinus(owed: multiset<Entry>, f: Entry, g: Entry)
    requires owed[g] <= 1
    ensures g in owed - multiset{f} <==> g in owed && g != f
  {
  }

  lemma OwedPlus(owed: multiset<Entry>, f: Entry, g: Entry)
    ensures g in owed + multiset{f} <==> g in owed || g == f
  {
  }

  lemma CommitChanges(s: Sys, task: int, k: Kind, id: int)
    requires k != Dismiss && task in s.requests
    ensures var f := Entry(id, Records(k));
            f in Next(s, Commit(task)).owed <==> Transits(s, Commit(task), k, id) || f in s.owed
  {
    var (kind, other) := s.requests[task];
    OwedPlus(s.owed, Entry(other, Records(kind)), Entry(id, Records(k)));
    assert Records(kind) == Records(k) ==> kind == k;
  }

  lemma DisposalChanges(s: Sys, frame: Entry, f: Entry)
    requires s.owed[f] <= 1
    ensures f in Next(s, Publish(frame)).owed <==> f in s.owed && frame != f
    ensures f in Next(s, Lose(frame)).owed <==> f in s.owed && frame != f
  {
    OwedMinus(s.owed, frame, f);
  }

  lemma OwedStays(s: Sys, step: Step)
    requires !step.Publish? && !step.Lose? && !(step.Commit? && step.task in s.requests)
    ensures Next(s, step).owed == s.owed
  {
  }

  /** A frame becomes owed in its own commit and stops being owed in its own sending or loss. */
  lemma OwedChanges(s: Sys, step: Step, k: Kind, id: int)
    requires k != Dismiss && s.owed[Entry(id, Records(k))] <= 1
    ensures var f := Entry(id, Records(k));
            f in Next(s, step).owed <==> Transits(s, step, k, id) || (f in s.owed && !Disposes(step, f))
  {
    if step.Publish? || step.Lose? {
      DisposalChanges(s, step.frame, Entry(id, Records(k)));
    } else if step.Commit? && step.task in s.requests {
      CommitChanges(s, step.task, k, id);
    } else {
      OwedStays(s, step);
    }
  }

  lemma RunOneMore(steps: seq<Step>, q: nat)
    requires q < |steps|
    ensures Run(steps[..q + 1]) == Next(Run(steps[..q]), steps[q])
  {
    assert steps[..q + 1][..q] == steps[..q];
  }

  lemma {:induction false} UnsentIff(steps: seq<Step>, k: Kind, id: int, q: nat)
    requires q <= |steps| && k != Dismiss
    ensures Unsent(steps, k, id, q) <==> Entry(id, Records(k)) in Run(steps[..q]).owed
    decreases q
  {
    if q > 0 {
      UnsentIff(steps, k, id, q - 1);
      OpenNext(Commits(steps, k, id), Disposals(steps, Entry(id, Records(k))), q - 1);
      FramesAreOneToOne(steps[..q - 1], id, Records(k));
      OwedChanges(Run(steps[..q - 1]), steps[q - 1], k, id);
      RunOneMore(steps, q - 1);
    }
  }

  /** The same told from what is owed when the resolved frame goes out. */
  predicate SentAhead(steps: seq<Step>, id: int)
    decreases |steps|
  {
    steps != [] &&
    (SentAhead(steps[..|steps| - 1], id) || SendsAhead(Run(steps[..|steps| - 1]), steps[|steps| - 1], id))
  }

  predicate SendsAhead(s: Sys, step: Step, id: int) {
    step == Publish(Entry(id, Closed)) && Entry(id, Closed) in s.owed && Entry(id, Acked) in s.owed
  }

  lemma OvertakesIff(steps: seq<Step>, id: int, q: nat)
    requires q < |steps|
    ensures OvertakesAt(steps, id, q) <==> SendsAhead(Run(steps[..q]), steps[q], id)
  {
    UnsentIff(steps, Resolve, id, q);
    UnsentIff(steps, Acknowledge, id, q);
  }

  lemma SentAheadOneMore(steps: seq<Step>, id: int, q: nat)
    requires q < |steps|
    ensures SentAhead(steps[..q + 1], id) <==> SentAhead(steps[..q], id) || SendsAhead(Run(steps[..q]), steps[q], id)
  {
    assert steps[..q + 1][..q] == steps[..q];
  }

  lemma {:induction false} SentAheadIff(steps: seq<Step>, id: int, n: nat)
    requires n <= |steps|
    ensures SentAhead(steps[..n], id) <==> Any(Overtakings(steps, id), n)
    decreases n
  {
    if n > 0 {
      SentAheadIff(steps, id, n - 1);
      OvertakesIff(steps, id, n - 1);
      SentAheadOneMore(steps, id, n - 1);
    }
  }

  /** The orders in which an escalation's frames can have gone out. */
  datatype Order = Silent | OnlyAcked | OnlyClosed | InOrder | Swapped

  function Sent(o: Order): seq<Transition> {
    match o
    case Silent => [] case OnlyAcked => [Acked] case OnlyClosed => [Closed]
    case InOrder => [Acked, Closed] case Swapped => [Closed, Acked]
  }

  function Append(o: Order, t: Transition): Order {
    match o
    case Silent => if t == Acked then OnlyAcked else OnlyClosed
    case OnlyAcked => InOrder
    case _ => Swapped
  }

  lemma SentCounts(o: Order)
    ensures Count(Sent(o), Acked) == (if o in {Silent, OnlyClosed} then 0 else 1)
    ensures Count(Sent(o), Closed) == (if o in {Silent, OnlyAcked} then 0 else 1)
  {
    assert multiset([Acked, Closed]) == multiset{Acked, Closed} && multiset([Closed, Acked]) == multiset{Acked, Closed};
  }

  lemma SentAppends(o: Order, t: Transition)
    requires t in {Acked, Closed} && Count(Sent(o), t) == 0
    ensures Sent(Append(o, t)) == Sent(o) + [t]
  {
    SentCounts(o);
  }

  predicate OwesAcked(s: Sys, id: int) {
    Entry(id, Acked) in s.owed
  }

  predicate LostAcked(s: Sys, id: int) {
    Entry(id, Acked) in s.lost
  }

  /** An order is swapped, or bound to be unless a frame is lost, exactly by overtaking. */
  predicate Explained(o: Order, owes: bool, lost: bool, overtaken: bool) {
    && (o == Swapped ==> overtaken)
    && (overtaken ==> o == Swapped || (o == OnlyClosed && (owes || lost)))
    && (o == OnlyClosed && owes ==> overtaken)
  }

  lemma PublishMoves(s: Sys, f: Entry)
    requires f in s.owed && f.transition in {Acked, Closed}
    requires s.owed[f] <= 1
    ensures var n := Next(s, Publish(f));
            && Log(n.frames, f.id) == Log(s.frames, f.id) + [f.transition]
            && OwesAcked(n, f.id) == (OwesAcked(s, f.id) && f.transition == Closed)
            && LostAcked(n, f.id) == LostAcked(s, f.id)
  {
    LogSnoc(s.frames, f, f.id);
    if f.transition == Acked {
      OwedMinus(s.owed, f, f);
    } else {
      OwedOther(s.owed, f, Entry(f.id, Acked));
    }
  }

  lemma OwedOther(owed: multiset<Entry>, f: Entry, g: Entry)
    requires f != g
    ensures g in owed - multiset{f} <==> g in owed
  {
  }

  /** A step that does not publish a frame of the escalation leaves the frames it has had alone. */
  lemma OtherStepMoves(s: Sys, step: Step, id: int)
    requires !(step.Publish? && step.frame in s.owed && step.frame.id == id)
    ensures var n := Next(s, step);
            && Log(n.frames, id) == Log(s.frames, id)
            && (OwesAcked(s, id) || LostAcked(s, id) ==> OwesAcked(n, id) || LostAcked(n, id))
            && (OwesAcked(n, id) && !OwesAcked(s, id) ==> Has(s.db, id, Unacknowledged))
  {
    if step.Publish? {
      LogSnoc(s.frames, step.frame, id);
    }
  }

  /** Each of an escalation's two frames is in exactly one place once its transition is recorded. */
  lemma FrameCounts(steps: seq<Step>, id: int, t: Transition)
    requires t in {Acked, Closed}
    ensures var s := Run(steps);
            Count(Log(s.frames, id), t) + s.owed[Entry(id, t)] + s.lost[Entry(id, t)] == Due(PhaseOf(s.db, id), t)
  {
    FramesAreOneToOne(steps, id, t);
    LogCountsFrames(Run(steps).frames, id, t);
  }

  lemma {:induction false} FrameOrder(steps: seq<Step>, id: int) returns (o: Order)
    ensures var s := Run(steps);
            && Log(s.frames, id) == Sent(o)
            && Explained(o, OwesAcked(s, id), LostAcked(s, id), SentAhead(steps, id))
    decreases |steps|
  {
    if steps == [] {
      o := Silent;
    } else {
      var init, last := steps[..|steps| - 1], steps[|steps| - 1];
      var before := FrameOrder(init, id);
      var s := Run(init);
      SentCounts(before);
      FrameCounts(init, id, Acked);
      FrameCounts(init, id, Closed);
      if last.Publish? && last.frame in s.owed && last.frame.id == id {
        var f := last.frame;
        OwedAreLifecycle(init, f);
        assert f == Entry(id, Acked) || f == Entry(id, Closed);
        PublishMoves(s, f);
        SentAppends(before, f.transition);
        o := Append(before, f.transition);
      } else {
        OtherStepMoves(s, last, id);
        o := before;
      }
    }
  }

  lemma OwedAreLifecycle(steps: seq<Step>, f: Entry)
    requires f in Run(steps).owed
    ensures f.transition in {Acked, Closed}
  {
    RunKeeps(steps);
    var s := Run(steps);
    assert f in multiset(s.frames) + s.owed + s.lost;
    LifecycleMembers(s.db.audit, f);
  }

  /** What another operator's panel shows: the last frame it got for the escalation. */
  function Panel(frames: seq<Entry>, id: int): Status {
    var seen := Log(frames, id);
    if seen == [] then Unacknowledged else if seen[|seen| - 1] == Acked then Acknowledged else Resolved
  }

  /**
   Once every frame of an escalation has gone out, the other panels show its status exactly when its
   resolved frame did not overtake its acknowledged one; the fan-out happens after the commit, unordered.
   */
  lemma PanelConvergesIff(steps: seq<Step>, id: int)
    requires var s := Run(steps); forall t :: Entry(id, t) !in s.owed && Entry(id, t) !in s.lost
    requires id in Run(steps).db.status
    ensures Panel(Run(steps).frames, id) == Run(steps).db.status[id] <==> !Overtaken(steps, id)
  {
    var s := Run(steps);
    var o := FrameOrder(steps, id);
    SentAheadIff(steps, id, |steps|);
    assert steps[..|steps|] == steps;
    SentCounts(o);
    FrameCounts(steps, id, Acked);
    FrameCounts(steps, id, Closed);
    assert Entry(id, Acked) !in s.owed && Entry(id, Acked) !in s.lost;
    assert Entry(id, Closed) !in s.owed && Entry(id, Closed) !in s.lost;
  }
}
