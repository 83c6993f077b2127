/**
 What holds of every run of cloud-sync from an empty queue: nothing is lost, acknowledgements
 are safe, and what is below the cursor stays where it is.
 */
module SyncTheorems {
  import opened Keys
  import opened Queue
  import ES = EventStore
  import opened SyncProtocol

  lemma ReachableInv(cfg: Config, steps: seq<Step>)
    ensures Inv(cfg, Run(cfg, INIT, steps))
  {
    RunKeeps(cfg, INIT, steps);
  }

  /** No loss: whatever reached the queue is still pending there or was PUBACKed. */
  lemma NoLoss(cfg: Config, steps: seq<Step>)
    ensures var s := Run(cfg, INIT, steps);
            && (forall k | k in s.enqueued :: k in Pending(s.db.rows) || k in s.acks)
            && (forall id | id in s.db.rows && s.db.rows[id].published :: RowKey(s.db.rows, id) in s.acks)
  {
    ReachableInv(cfg, steps);
    var s := Run(cfg, INIT, steps);
    assert forall id | id in s.db.rows && s.db.rows[id].published :: RowKey(s.db.rows, id) in Published(s.db.rows);
  }

  /**
   Ack safety: when the ack loop finds a cursor to send, every forwardable event at or below it has been
   PUBACKed, except one appended below an event that had already been pulled and one that
   event-store truncated before it was ever pulled.
   */
  lemma AckSafety(cfg: Config, steps: seq<Step>, id: int)
    requires var rows := Run(cfg, INIT, steps).db.rows; PublishedPrefix(rows) == Some(id) && id in rows
    ensures var s := Run(cfg, INIT, steps);
            forall k | k in Forwardable(cfg, s.ever) && AtMost(k, RowKey(s.db.rows, id)) && k !in s.late ::
              k in s.acks || (k.id !in s.store && k !in s.enqueued)
  {
    ReachableInv(cfg, steps);
    AckSendIsSafe(cfg, Run(cfg, INIT, steps), id);
  }

  /** And it stays so: whatever runs after the send, the cursor covers only such events. */
  lemma AckStaysSafe(cfg: Config, s: Sys, steps: seq<Step>, e: Key)
    requires Inv(cfg, s) && e in s.sent
    ensures var t := Run(cfg, s, steps);
            forall k | k in Forwardable(cfg, t.ever) && AtMost(k, e) && k !in t.late ::
              k in t.acks || (k.id !in t.store && k !in t.enqueued)
  {
    RunKeeps(cfg, s, steps);
    SentStays(cfg, s, steps, e);
  }

  lemma {:induction false} SentStays(cfg: Config, s: Sys, steps: seq<Step>, e: Key)
    requires Inv(cfg, s) && e in s.sent
    ensures e in Run(cfg, s, steps).sent
    decreases |steps|
  {
    if steps != [] {
      if Enabled(cfg, s, steps[0]) {
        NextKeeps(cfg, s, steps[0]);
        StepFrame(cfg, s, steps[0]);
        SentStays(cfg, Next(cfg, s, steps[0]), steps[1..], e);
      } else {
        SentStays(cfg, s, steps[1..], e);
      }
    }
  }

  /** What a step leaves alone, and what only grows. */
  lemma StepFrame(cfg: Config, s: Sys, step: Step)
    requires Inv(cfg, s) && Enabled(cfg, s, step)
    ensures var t := Next(cfg, s, step);
            && s.sent <= t.sent && s.late <= t.late && s.enqueued <= t.enqueued
            && (forall id | id in s.ever :: id in t.ever && t.ever[id] == s.ever[id])
            && (forall id | id in t.store && id in s.ever :: id in s.store)
            && (s.pull.PullIdle? ==> t.enqueued == s.enqueued && t.db.pulled == s.db.pulled)
            && (t.pull.Received? && !step.PullPage? ==> t.pull == s.pull)
  {
    if step.PullCommit? { AbsorbManyKeeps(cfg, s, |s.pull.page|); }
    if step.PullCrash? { AbsorbManyKeeps(cfg, s, step.n); }
  }

  /** The broker first confirms keys in ascending order, late events apart, crashes or not. */
  lemma PubacksAscend(cfg: Config, steps: seq<Step>)
    ensures var s := Run(cfg, INIT, steps);
            forall i, j | 0 <= i < j < |s.acks| && s.acks[j] !in s.late :: Less(s.acks[i], s.acks[j])
  {
    ReachableInv(cfg, steps);
  }

  // ---------------------------------------------------------------- in-order appends

  /** The event's key is above every key ever appended. */
  ghost predicate OnTop(ever: map<int, ES.Event>, e: ES.Event) {
    forall id | id in ever :: Less(ES.KeyOf(ever[id]), ES.KeyOf(e))
  }

  ghost predicate InOrderAppends(cfg: Config, s: Sys, steps: seq<Step>)
    decreases |steps|
  {
    steps == [] ||
    var t := if Enabled(cfg, s, steps[0]) then Next(cfg, s, steps[0]) else s;
    (steps[0].Append? && Enabled(cfg, s, steps[0]) ==> OnTop(s.ever, steps[0].e)) && InOrderAppends(cfg, t, steps[1..])
  }

  /** Whatever was taken was appended before, so an event on top is not late. */
  lemma OnTopIsNotLate(cfg: Config, s: Sys, e: ES.Event)
    requires Inv(cfg, s) && OnTop(s.ever, e)
    ensures !IsLate(s, e)
  {
    forall h | h in Taken(s) ensures !Less(ES.KeyOf(e), h) {
      assert h in Forwardable(cfg, s.ever);
      assert Less(ES.KeyOf(s.ever[h.id]), ES.KeyOf(e));
    }
  }

  lemma {:induction false} NothingIsLate(cfg: Config, s: Sys, steps: seq<Step>)
    requires Inv(cfg, s) && s.late == {} && InOrderAppends(cfg, s, steps)
    ensures Run(cfg, s, steps).late == {}
    decreases |steps|
  {
    if steps != [] {
      if Enabled(cfg, s, steps[0]) {
        NextKeeps(cfg, s, steps[0]);
        LateGrowsByAppends(cfg, s, steps[0]);
        if steps[0].Append? {
          OnTopIsNotLate(cfg, s, steps[0].e);
        }
        NothingIsLate(cfg, Next(cfg, s, steps[0]), steps[1..]);
      } else {
        NothingIsLate(cfg, s, steps[1..]);
      }
    }
  }

  lemma LateGrowsByAppends(cfg: Config, s: Sys, step: Step)
    requires Inv(cfg, s) && Enabled(cfg, s, step)
    ensures !step.Append? || !IsLate(s, step.e) ==> Next(cfg, s, step).late == s.late
  {
    if step.PullCommit? { AbsorbManyKeeps(cfg, s, |s.pull.page|); }
    if step.PullCrash? { AbsorbManyKeeps(cfg, s, step.n); }
  }

  /** In every run with in-order appends: first PUBACKs ascend, and the acknowledged prefix has all been PUBACKed. */
  lemma InOrderRuns(cfg: Config, steps: seq<Step>, id: int)
    requires InOrderAppends(cfg, INIT, steps)
    ensures var s := Run(cfg, INIT, steps);
            && s.late == {} && Ascending(s.acks)
            && (PublishedPrefix(s.db.rows) == Some(id) && id in s.db.rows ==>
                  forall k | k in Forwardable(cfg, s.ever) && AtMost(k, RowKey(s.db.rows, id)) ::
                    k in s.acks || (k.id !in s.store && k !in s.enqueued))
  {
    NothingIsLate(cfg, INIT, steps);
    PubacksAscend(cfg, steps);
    var rows := Run(cfg, INIT, steps).db.rows;
    if PublishedPrefix(rows) == Some(id) && id in rows {
      AckSafety(cfg, steps, id);
    }
  }

  // ---------------------------------------------------------------- late events

  /** The cursor is past `k`, and so is the page in hand. */
  ghost predicate Passed(s: Sys, k: Key) {
    && s.db.pulled.Some? && s.db.pulled.value in s.ever
    && var c := ES.KeyOf(s.ever[s.db.pulled.value]);
       Less(k, c) && (s.pull.Received? ==> forall x | x in WellFormedKeys(s.pull.page) :: Less(c, x))
  }

  /** What the late exception means: the cursor never moves back, so an event below it is never pulled. */
  lemma {:induction false} PassedIsNeverPulled(cfg: Config, s: Sys, k: Key, steps: seq<Step>)
    requires Inv(cfg, s) && Passed(s, k) && k !in s.enqueued
    ensures var t := Run(cfg, s, steps); k !in t.enqueued && k !in t.acks
    decreases |steps|
  {
    if steps != [] {
      if Enabled(cfg, s, steps[0]) {
        NextKeeps(cfg, s, steps[0]);
        PassedStays(cfg, s, k, steps[0]);
        PassedIsNeverPulled(cfg, Next(cfg, s, steps[0]), k, steps[1..]);
      } else {
        PassedIsNeverPulled(cfg, s, k, steps[1..]);
      }
    }
  }

  lemma PassedStays(cfg: Config, s: Sys, k: Key, step: Step)
    requires Inv(cfg, s) && Enabled(cfg, s, step) && Passed(s, k) && k !in s.enqueued
    ensures Passed(Next(cfg, s, step), k) && k !in Next(cfg, s, step).enqueued
  {
    StepFrame(cfg, s, step);
    match step
    case PullPage =>
      RedactedKeys(cfg, s.store, RawPage(cfg, s));
      assert forall x | x in RawPage(cfg, s) :: x in Ahead(s);
    case PullCommit => CommitPasses(cfg, s, k);
    case PullCrash(n) =>
      OnlyPageIsAbsorbed(cfg, s, n);
      AbsorbManyKeeps(cfg, s, n);
      EnqueueKeepsCursors(s.db, s.pull.page[..n]);
    case _ =>
  }

  lemma CommitPasses(cfg: Config, s: Sys, k: Key)
    requires Inv(cfg, s) && s.pull.Received? && Passed(s, k) && k !in s.enqueued
    ensures Passed(Next(cfg, s, PullCommit), k) && k !in Next(cfg, s, PullCommit).enqueued
  {
    var ks := WellFormedKeys(s.pull.page);
    PullCommitKeeps(cfg, s);
    OnlyPageIsAbsorbed(cfg, s, |s.pull.page|);
    EnqueueKeepsCursors(s.db, s.pull.page);
    if ks != [] {
      var last := ks[|ks| - 1];
      assert last in ks && last in Forwardable(cfg, s.ever);
      assert ES.KeyOf(s.ever[last.id]) == last;
    }
  }

  // ---------------------------------------------------------------- what a page adds

  lemma {:induction false} OnlyPageIsAbsorbed(cfg: Config, s: Sys, n: nat)
    requires s.pull.Received? && n <= |s.pull.page|
    ensures forall k | k in AbsorbMany(s, n).enqueued :: k in s.enqueued || k in WellFormedKeys(s.pull.page)
    decreases n
  {
    if n > 0 {
      OnlyPageIsAbsorbed(cfg, Absorb(s), n - 1);
    }
  }

  lemma {:induction false} EnqueueKeepsCursors(db: Db, page: seq<Envelope>)
    ensures EnqueueAll(db, page) == db.(rows := EnqueueAll(db, page).rows)
    decreases |page|
  {
    if page != [] {
      EnqueueKeepsCursors(if page[0].WellFormed? then Enqueue(db, page[0]) else db, page[1..]);
    }
  }

  /** The rows the next pull reads from. */
  ghost function Ahead(s: Sys): seq<Key>
    requires ES.KeyedById(s.store)
  {
    ES.Listing(s.store, After(s.db.pulled))
  }
}
