/**
 What the truncation that an acknowledgement licenses does to events that were not pulled yet. It
 keeps the newest journeys and looks neither at the cursor it was sent nor at the pull cursor.
 */
module Truncation {
  import opened Keys
  import opened Queue
  import ES = EventStore
  import opened SyncProtocol
  import opened SyncTheorems
  import opened PullProgress
  import opened PullRuns

  predicate Kept(store: map<int, ES.Event>, keep: set<string>, id: int) {
    id in store && store[id].journey in keep
  }

  ghost function Truncated(store: map<int, ES.Event>, keep: set<string>): map<int, ES.Event> {
    map id | id in store && store[id].journey in keep :: store[id]
  }

  // ---------------------------------------------------------------- lost for good

  /** A forwardable event that has not reached the queue and is not in the page in hand. */
  ghost predicate Unpulled(cfg: Config, s: Sys, k: Key) {
    && k in Forwardable(cfg, s.ever) && k !in s.enqueued
    && (s.pull.Received? ==> k !in WellFormedKeys(s.pull.page))
  }

  /** An unpulled event that leaves the store is never queued and never published. */
  lemma {:induction false} TruncatedIsLost(cfg: Config, s: Sys, k: Key, steps: seq<Step>)
    requires Inv(cfg, s) && Unpulled(cfg, s, k) && k.id !in s.store
    ensures var t := Run(cfg, s, steps); k !in t.enqueued && k !in t.acks
    decreases |steps|
  {
    if steps != [] {
      if Enabled(cfg, s, steps[0]) {
        NextKeeps(cfg, s, steps[0]);
        StepFrame(cfg, s, steps[0]);
        LostStays(cfg, s, k, steps[0]);
        TruncatedIsLost(cfg, Next(cfg, s, steps[0]), k, steps[1..]);
      } else {
        TruncatedIsLost(cfg, s, k, steps[1..]);
      }
    }
  }

  lemma LostStays(cfg: Config, s: Sys, k: Key, step: Step)
    requires Inv(cfg, s) && Enabled(cfg, s, step) && Unpulled(cfg, s, k) && k.id !in s.store
    ensures Unpulled(cfg, Next(cfg, s, step), k)
  {
    var t := Next(cfg, s, step);
    StepFrame(cfg, s, step);
    assert t.ever[k.id] == s.ever[k.id];
    assert ES.KeyOf(t.ever[k.id]) in Forwardable(cfg, t.ever);
    match step
    case PullPage => RedactedKeys(cfg, s.store, RawPage(cfg, s));
    case PullCommit => OnlyPageIsAbsorbed(cfg, s, |s.pull.page|);
    case PullCrash(n) => OnlyPageIsAbsorbed(cfg, s, n);
    case _ =>
  }

  /** The pull cursor, and what the page in hand would move it to, both name events that are gone. */
  ghost predicate NoCursorLeft(s: Sys, keep: set<string>) {
    && s.db.pulled.Some? && !Kept(s.store, keep, s.db.pulled.value)
    && (s.pull.Received? ==> !Kept(s.store, keep, AdvancePulled(s.db, s.pull.page).pulled.value))
  }

  /** Every pull is refused from here on, and what is not in hand is never queued. */
  ghost predicate Frozen(s: Sys, k: Key) {
    && k !in s.enqueued
    && s.db.pulled.Some? && s.db.pulled.value in s.ever && s.db.pulled.value !in s.store
    && (s.pull.Received? ==>
          && k !in WellFormedKeys(s.pull.page)
          && AdvancePulled(s.db, s.pull.page).pulled.value in s.ever
          && AdvancePulled(s.db, s.pull.page).pulled.value !in s.store)
  }

  lemma FrozenStays(cfg: Config, s: Sys, k: Key, step: Step)
    requires Inv(cfg, s) && Enabled(cfg, s, step) && Frozen(s, k)
    ensures Frozen(Next(cfg, s, step), k)
  {
    StepFrame(cfg, s, step);
    match step
    case PullCommit =>
      OnlyPageIsAbsorbed(cfg, s, |s.pull.page|);
      PullCommitKeeps(cfg, s);
      EnqueueKeepsCursors(s.db, s.pull.page);
    case PullCrash(n) =>
      OnlyPageIsAbsorbed(cfg, s, n);
      AbsorbManyKeeps(cfg, s, n);
      EnqueueKeepsCursors(s.db, s.pull.page[..n]);
    case _ =>
  }

  lemma {:induction false} FrozenForGood(cfg: Config, s: Sys, k: Key, steps: seq<Step>)
    requires Inv(cfg, s) && Frozen(s, k)
    ensures var t := Run(cfg, s, steps); k !in t.enqueued && k !in t.acks
    decreases |steps|
  {
    if steps != [] {
      if Enabled(cfg, s, steps[0]) {
        NextKeeps(cfg, s, steps[0]);
        FrozenStays(cfg, s, k, steps[0]);
        FrozenForGood(cfg, Next(cfg, s, steps[0]), k, steps[1..]);
      } else {
        FrozenForGood(cfg, s, k, steps[1..]);
      }
    }
  }

  /**
   An unpulled event is lost for good, in every continuation, when its own journey is dropped and also
   when its journey is kept but no cursor is left from which the pull loop could reach it.
   */
  lemma LostForGood(cfg: Config, s: Sys, cursor: Key, keep: set<string>, k: Key, steps: seq<Step>)
    requires Inv(cfg, s) && Enabled(cfg, s, Truncate(cursor, keep))
    requires Unpulled(cfg, s, k) && (!Kept(s.store, keep, k.id) || NoCursorLeft(s, keep))
    ensures var t := Run(cfg, Next(cfg, s, Truncate(cursor, keep)), steps); k !in t.enqueued && k !in t.acks
  {
    var t := Next(cfg, s, Truncate(cursor, keep));
    TruncateKeeps(cfg, s, cursor, keep);
    if !Kept(s.store, keep, k.id) {
      TruncatedIsLost(cfg, t, k, steps);
    } else {
      CursorsAreEvents(cfg, s);
      FrozenForGood(cfg, t, k, steps);
    }
  }

  lemma CursorsAreEvents(cfg: Config, s: Sys)
    requires Inv(cfg, s) && s.db.pulled.Some?
    ensures s.db.pulled.value in s.ever
    ensures s.pull.Received? ==> AdvancePulled(s.db, s.pull.page).pulled.value in s.ever
  {
    var c :| c in s.enqueued && c.id == s.db.pulled.value;
    assert c in Forwardable(cfg, s.ever);
    if s.pull.Received? && WellFormedKeys(s.pull.page) != [] {
      var ks := WellFormedKeys(s.pull.page);
      assert ks[|ks| - 1] in ks && ks[|ks| - 1] in Forwardable(cfg, s.ever);
    }
  }

  // ---------------------------------------------------------------- delivered after all

  /** Where the pull loop goes on from: a crash forgets the page in hand, otherwise it is committed first. */
  ghost function Settle(cfg: Config, s: Sys, crash: bool): Sys {
    if crash then Forget(s) else if s.pull.Received? then Next(cfg, s, PullCommit) else s
  }

  function KeptRows(store: map<int, ES.Event>, keep: set<string>, ks: seq<Key>): (r: seq<Key>)
    ensures forall k :: k in r <==> k in ks && Kept(store, keep, k.id)
  {
    if ks == [] then []
    else (if Kept(store, keep, ks[0].id) then [ks[0]] else []) + KeptRows(store, keep, ks[1..])
  }

  lemma {:induction false} KeptRowsAscend(store: map<int, ES.Event>, keep: set<string>, ks: seq<Key>)
    requires Ascending(ks)
    ensures Ascending(KeptRows(store, keep, ks))
    decreases |ks|
  {
    if ks != [] {
      var rest := KeptRows(store, keep, ks[1..]);
      KeptRowsAscend(store, keep, ks[1..]);
      assert [ks[0]] + ks[1..] == ks;
      ConsAscends(ks[0], rest, ks[1..]);
    }
  }

  /** From a cursor that is kept the truncated store lists the kept rows of the old listing. */
  lemma TruncatedListing(store: map<int, ES.Event>, keep: set<string>, cursor: Option<int>)
    requires ES.KeyedById(store) && (cursor.Some? ==> Kept(store, keep, cursor.value))
    ensures ES.KeyedById(Truncated(store, keep))
    ensures ES.Listing(Truncated(store, keep), After(cursor)) == KeptRows(store, keep, ES.Listing(store, After(cursor)))
  {
    var small, q := Truncated(store, keep), After(cursor);
    var ks := ES.Listing(store, q);
    KeptRowsAscend(store, keep, ks);
    forall k ensures k in ES.WantedKeys(small, q) <==> k in ES.WantedKeys(store, q) && Kept(store, keep, k.id) {
      if k in ES.WantedKeys(small, q) {
        assert ES.Wanted(store, q, store[k.id]);
      }
      if k in ES.WantedKeys(store, q) && Kept(store, keep, k.id) {
        assert ES.Wanted(small, q, small[k.id]);
      }
    }
    AscendingUnique(ES.Listing(small, q), KeptRows(store, keep, ks));
  }

  lemma {:induction false} AbsorbIgnoresStore(s: Sys, store: map<int, ES.Event>, n: nat)
    requires s.pull.Received? && n <= |s.pull.page|
    ensures AbsorbMany(s.(store := store), n) == AbsorbMany(s, n).(store := store)
    decreases n
  {
    if n > 0 {
      assert Absorb(s.(store := store)) == Absorb(s).(store := store);
      AbsorbIgnoresStore(Absorb(s), store, n - 1);
    }
  }

  lemma SettleIgnoresTruncation(cfg: Config, s: Sys, cursor: Key, keep: set<string>, crash: bool)
    requires Inv(cfg, s) && Enabled(cfg, s, Truncate(cursor, keep))
    ensures Settle(cfg, Next(cfg, s, Truncate(cursor, keep)), crash)
         == Settle(cfg, s, crash).(store := Truncated(s.store, keep))
  {
    if s.pull.Received? {
      AbsorbIgnoresStore(s, Truncated(s.store, keep), |s.pull.page|);
    }
  }

  lemma SettleKeeps(cfg: Config, s: Sys, crash: bool)
    requires Inv(cfg, s)
    ensures var v := Settle(cfg, s, crash); Inv(cfg, v) && v.store == s.store && v.pull.PullIdle?
  {
    if crash {
      ForgetKeeps(cfg, s);
    } else if s.pull.Received? {
      CommitEnds(cfg, s);
    }
  }

  /** A refused cursor makes every round void. */
  lemma {:induction false} RefusedRounds(cfg: Config, s: Sys, n: nat)
    requires !Enabled(cfg, s, PullPage)
    ensures PullRounds(cfg, s, n) == s
    decreases n
  {
    if n > 0 {
      RefusedRounds(cfg, s, n - 1);
    }
  }

  /** Only the rows of the listing matter to what blocks it. */
  lemma BlockedAgrees(ks: seq<Key>, a: set<Key>, b: set<Key>, page: nat, k: Key)
    requires forall x | x in ks :: x in a <==> x in b
    ensures Blocked(ks, a, page, k) <==> Blocked(ks, b, page, k)
  {
    forall j: nat | j + page <= |ks| ensures Blank(ks, a, j, page) <==> Blank(ks, b, j, page) {
      assert forall m | j <= m < j + page :: ks[m] in ks;
    }
  }

  /** A forwardable event ahead of the cursor that the queue does not have. */
  ghost predicate Waiting(cfg: Config, v: Sys, k: Key)
    requires ES.KeyedById(v.store)
  {
    k in Ahead(v) && k in Forwardable(cfg, v.store) && k !in v.enqueued
  }

  /** The rows ahead that survive, as the pull loop will list them. */
  ghost function Remaining(v: Sys, keep: set<string>): seq<Key>
    requires ES.KeyedById(v.store)
  {
    KeptRows(v.store, keep, Ahead(v))
  }

  /** What has to be true of a waiting event before the truncation for it to be queued after it. */
  ghost predicate Survives(cfg: Config, v: Sys, keep: set<string>, k: Key)
    requires ES.KeyedById(v.store)
  {
    && Kept(v.store, keep, k.id)
    && (v.db.pulled.Some? ==> Kept(v.store, keep, v.db.pulled.value))
    && !Blocked(Remaining(v, keep), Forwardable(cfg, v.store), cfg.pullLimit, k)
  }

  /** The truncated system pulls on from its cursor. */
  lemma KeptCursorPulls(v: Sys, u: Sys, keep: set<string>)
    requires ES.KeyedById(v.store) && u == v.(store := Truncated(v.store, keep)) && u.pull.PullIdle?
    requires v.db.pulled.Some? ==> Kept(v.store, keep, v.db.pulled.value)
    ensures ES.KeyedById(u.store) && Ahead(u) == Remaining(v, keep) && |Ahead(u)| <= |Ahead(v)|
    ensures u.db.pulled.Some? ==> u.db.pulled.value in u.store
  {
    TruncatedListing(v.store, keep, v.db.pulled);
    KeptIsShorter(v.store, keep, Ahead(v));
  }

  lemma KeptIsQueuedIff(cfg: Config, v: Sys, u: Sys, keep: set<string>, k: Key, n: nat)
    requires ES.KeyedById(v.store) && u == v.(store := Truncated(v.store, keep)) && Ready(cfg, u)
    requires cfg.pullLimit > 0 && n >= |Ahead(u)| && Waiting(cfg, v, k) && Kept(v.store, keep, k.id)
    requires Ahead(u) == Remaining(v, keep)
    ensures k in PullRounds(cfg, u, n).enqueued
       <==> !Blocked(Remaining(v, keep), Forwardable(cfg, v.store), cfg.pullLimit, k)
  {
    ForwardableAgrees(cfg, v.store, keep);
    BlockedAgrees(Ahead(u), Forwardable(cfg, u.store), Forwardable(cfg, v.store), cfg.pullLimit, k);
    QueuedIff(cfg, u, n, k);
  }

  lemma DroppedIsNotQueued(cfg: Config, u: Sys, k: Key, n: nat)
    requires Ready(cfg, u) && k !in Ahead(u) && k !in u.enqueued
    ensures k !in PullRounds(cfg, u, n).enqueued
  {
    RoundsConsume(cfg, u, n);
    NotAheadNotQueued(cfg, u, PullRounds(cfg, u, n), RoundsCut(cfg, u, n), k);
  }

  lemma RoundsAfterTruncation(cfg: Config, v: Sys, u: Sys, keep: set<string>, k: Key, n: nat)
    requires ES.KeyedById(v.store) && Inv(cfg, u) && u == v.(store := Truncated(v.store, keep)) && u.pull.PullIdle?
    requires cfg.pullLimit > 0 && n >= |Ahead(v)| && Waiting(cfg, v, k)
    ensures k in PullRounds(cfg, u, n).enqueued <==> Survives(cfg, v, keep, k)
  {
    if v.db.pulled.Some? && !Kept(v.store, keep, v.db.pulled.value) {
      RefusedRounds(cfg, u, n);
    } else {
      KeptCursorPulls(v, u, keep);
      if Kept(v.store, keep, k.id) {
        KeptIsQueuedIff(cfg, v, u, keep, k, n);
      } else {
        DroppedIsNotQueued(cfg, u, k, n);
      }
    }
  }

  lemma NotAheadNotQueued(cfg: Config, u: Sys, t: Sys, d: nat, k: Key)
    requires ES.KeyedById(u.store) && d <= |Ahead(u)| && Consumed(cfg, u, t, d)
    requires k !in Ahead(u) && k !in u.enqueued
    ensures k !in t.enqueued
  {
    SplitAt(Ahead(u), d);
  }

  lemma {:induction false} KeptIsShorter(store: map<int, ES.Event>, keep: set<string>, ks: seq<Key>)
    ensures |KeptRows(store, keep, ks)| <= |ks|
    decreases |ks|
  {
    if ks != [] {
      KeptIsShorter(store, keep, ks[1..]);
    }
  }

  lemma ForwardableAgrees(cfg: Config, store: map<int, ES.Event>, keep: set<string>)
    requires ES.KeyedById(store)
    ensures forall k: Key | k.id in Truncated(store, keep) ::
              k in Forwardable(cfg, Truncated(store, keep)) <==> k in Forwardable(cfg, store)
  {
    var small := Truncated(store, keep);
    forall k: Key | k.id in small && k in Forwardable(cfg, store) ensures k in Forwardable(cfg, small) {
      assert small[k.id] == store[k.id];
    }
  }

  /** The truncated system as the pull loop goes on from it. */
  ghost function AfterTruncation(cfg: Config, s: Sys, cursor: Key, keep: set<string>, crash: bool): Sys
    requires Enabled(cfg, s, Truncate(cursor, keep))
  {
    Settle(cfg, Next(cfg, s, Truncate(cursor, keep)), crash)
  }

  /** The pull loop was not already refused before the truncation, and `n` rounds are enough for what is ahead. */
  ghost predicate Pulling(v: Sys, n: nat) {
    ES.KeyedById(v.store) && (v.db.pulled.Some? ==> v.db.pulled.value in v.store) && n >= |Ahead(v)|
  }

  /**
   After the truncation, with the page in hand committed or forgotten by a crash, the pull loop left alone
   queues a waiting event exactly when its journey is kept, the event the loop's cursor names is kept, and
   no page worth of unusable kept rows lies before it.
   */
  lemma TruncationDeliversIff(cfg: Config, s: Sys, cursor: Key, keep: set<string>, crash: bool, k: Key, n: nat)
    requires Inv(cfg, s) && Enabled(cfg, s, Truncate(cursor, keep)) && cfg.pullLimit > 0
    requires Pulling(Settle(cfg, s, crash), n) && Waiting(cfg, Settle(cfg, s, crash), k)
    ensures k in PullRounds(cfg, AfterTruncation(cfg, s, cursor, keep, crash), n).enqueued
       <==> Survives(cfg, Settle(cfg, s, crash), keep, k)
  {
    var t := Next(cfg, s, Truncate(cursor, keep));
    SettleKeeps(cfg, s, crash);
    TruncateKeeps(cfg, s, cursor, keep);
    SettleKeeps(cfg, t, crash);
    SettleIgnoresTruncation(cfg, s, cursor, keep, crash);
    RoundsAfterTruncation(cfg, Settle(cfg, s, crash), Settle(cfg, t, crash), keep, k, n);
  }

  /** Nothing that waits is lost exactly when the cursor is kept, if anything waits, and all of it is kept and free. */
  lemma TruncationLosesNothingIff(cfg: Config, s: Sys, cursor: Key, keep: set<string>, crash: bool, n: nat)
    requires Inv(cfg, s) && Enabled(cfg, s, Truncate(cursor, keep)) && cfg.pullLimit > 0
    requires Pulling(Settle(cfg, s, crash), n)
    ensures var v, t := Settle(cfg, s, crash), AfterTruncation(cfg, s, cursor, keep, crash);
            (forall k: Key | Waiting(cfg, v, k) :: k in PullRounds(cfg, t, n).enqueued)
            <==>
            && ((exists k: Key :: Waiting(cfg, v, k)) && v.db.pulled.Some? ==> Kept(v.store, keep, v.db.pulled.value))
            && (forall k: Key | Waiting(cfg, v, k) ::
                  && Kept(v.store, keep, k.id)
                  && !Blocked(Remaining(v, keep), Forwardable(cfg, v.store), cfg.pullLimit, k))
  {
    var v, t := Settle(cfg, s, crash), AfterTruncation(cfg, s, cursor, keep, crash);
    forall k: Key | Waiting(cfg, v, k)
      ensures k in PullRounds(cfg, t, n).enqueued <==> Survives(cfg, v, keep, k)
    {
      TruncationDeliversIff(cfg, s, cursor, keep, crash, k, n);
    }
  }

  lemma KeptInRunIff(cfg: Config, v: Sys, u: Sys, keep: set<string>, k: Key, steps: seq<Step>)
    requires ES.KeyedById(v.store) && u == v.(store := Truncated(v.store, keep)) && Ready(cfg, u)
    requires Waiting(cfg, v, k) && Kept(v.store, keep, k.id) && Ahead(u) == Remaining(v, keep)
    requires CalmRun(cfg, u, steps) && Commits(cfg, u, steps) >= |Ahead(u)|
    ensures k in Run(cfg, u, steps).enqueued
       <==> !Blocked(Remaining(v, keep), Forwardable(cfg, v.store), cfg.pullLimit, k)
  {
    ForwardableAgrees(cfg, v.store, keep);
    BlockedAgrees(Ahead(u), Forwardable(cfg, u.store), Forwardable(cfg, v.store), cfg.pullLimit, k);
    QueuedInRunIff(cfg, u, steps, k);
  }

  lemma RefusedRun(cfg: Config, v: Sys, u: Sys, keep: set<string>, k: Key, steps: seq<Step>)
    requires Inv(cfg, u) && u == v.(store := Truncated(v.store, keep)) && u.pull.PullIdle?
    requires k !in v.enqueued && v.db.pulled.Some? && !Kept(v.store, keep, v.db.pulled.value)
    ensures k !in Run(cfg, u, steps).enqueued
  {
    CursorsAreEvents(cfg, u);
    FrozenForGood(cfg, u, k, steps);
  }

  lemma DroppedRun(cfg: Config, v: Sys, u: Sys, keep: set<string>, k: Key, steps: seq<Step>)
    requires Inv(cfg, u) && u == v.(store := Truncated(v.store, keep)) && u.pull.PullIdle?
    requires k in Forwardable(cfg, v.ever) && k !in v.enqueued && !Kept(v.store, keep, k.id)
    ensures k !in Run(cfg, u, steps).enqueued
  {
    TruncatedIsLost(cfg, u, k, steps);
  }

  /** If the loop can pull at all, the run commits a page for every row that remains. */
  ghost predicate CommitsEnough(cfg: Config, u: Sys, steps: seq<Step>, rows: nat) {
    Enabled(cfg, u, PullPage) ==> Commits(cfg, u, steps) >= rows
  }

  lemma KeptIsReady(cfg: Config, v: Sys, u: Sys, keep: set<string>)
    requires ES.KeyedById(v.store) && Inv(cfg, u) && u == v.(store := Truncated(v.store, keep)) && u.pull.PullIdle?
    requires v.db.pulled.Some? ==> Kept(v.store, keep, v.db.pulled.value)
    ensures Ready(cfg, u) && Ahead(u) == Remaining(v, keep)
  {
    KeptCursorPulls(v, u, keep);
  }

  lemma KeptRun(cfg: Config, v: Sys, u: Sys, keep: set<string>, k: Key, steps: seq<Step>)
    requires ES.KeyedById(v.store) && u == v.(store := Truncated(v.store, keep)) && Ready(cfg, u)
    requires Waiting(cfg, v, k) && Kept(v.store, keep, k.id) && Ahead(u) == Remaining(v, keep)
    requires CalmRun(cfg, u, steps) && CommitsEnough(cfg, u, steps, |Ahead(u)|)
    ensures k in Run(cfg, u, steps).enqueued
       <==> !Blocked(Remaining(v, keep), Forwardable(cfg, v.store), cfg.pullLimit, k)
  {
    KeptInRunIff(cfg, v, u, keep, k, steps);
  }

  lemma RunAfterTruncation(cfg: Config, v: Sys, u: Sys, keep: set<string>, k: Key, steps: seq<Step>)
    requires ES.KeyedById(v.store) && Inv(cfg, u) && u == v.(store := Truncated(v.store, keep)) && u.pull.PullIdle?
    requires Waiting(cfg, v, k) && k in Forwardable(cfg, v.ever)
    requires CalmRun(cfg, u, steps) && CommitsEnough(cfg, u, steps, |Remaining(v, keep)|)
    ensures k in Run(cfg, u, steps).enqueued <==> Survives(cfg, v, keep, k)
  {
    if v.db.pulled.Some? && !Kept(v.store, keep, v.db.pulled.value) {
      RefusedRun(cfg, v, u, keep, k, steps);
    } else if !Kept(v.store, keep, k.id) {
      DroppedRun(cfg, v, u, keep, k, steps);
    } else {
      KeptIsReady(cfg, v, u, keep);
      KeptRun(cfg, v, u, keep, k, steps);
    }
  }

  lemma WaitingIsForwardable(cfg: Config, v: Sys, k: Key)
    requires Inv(cfg, v) && ES.KeyedById(v.store) && Waiting(cfg, v, k)
    ensures k in Forwardable(cfg, v.ever)
  {
    assert v.ever[k.id] == v.store[k.id];
  }

  /**
   The same over runs: once the page in hand is committed or forgotten, any calm run, in which publishing,
   acknowledging and in-order appends go on and enough pages are committed, queues a waiting event exactly
   when it survives.
   */
  lemma TruncationDeliversInRunIff(cfg: Config, s: Sys, cursor: Key, keep: set<string>, crash: bool, k: Key,
                                   steps: seq<Step>)
    requires Inv(cfg, s) && Enabled(cfg, s, Truncate(cursor, keep))
    requires ES.KeyedById(Settle(cfg, s, crash).store) && Waiting(cfg, Settle(cfg, s, crash), k)
    requires var u := AfterTruncation(cfg, s, cursor, keep, crash);
             CalmRun(cfg, u, steps) && CommitsEnough(cfg, u, steps, |Remaining(Settle(cfg, s, crash), keep)|)
    ensures k in Run(cfg, AfterTruncation(cfg, s, cursor, keep, crash), steps).enqueued
       <==> Survives(cfg, Settle(cfg, s, crash), keep, k)
  {
    var t := Next(cfg, s, Truncate(cursor, keep));
    SettleKeeps(cfg, s, crash);
    TruncateKeeps(cfg, s, cursor, keep);
    SettleKeeps(cfg, t, crash);
    SettleIgnoresTruncation(cfg, s, cursor, keep, crash);
    WaitingIsForwardable(cfg, Settle(cfg, s, crash), k);
    RunAfterTruncation(cfg, Settle(cfg, s, crash), Settle(cfg, t, crash), keep, k, steps);
  }

  /** Once the pulled cursor's own event is truncated, every pull is refused and nothing is queued again. */
  lemma {:induction false} TruncatedCursorFreezesPull(cfg: Config, s: Sys, steps: seq<Step>)
    requires Inv(cfg, s) && s.pull.PullIdle?
    requires s.db.pulled.Some? && s.db.pulled.value in s.ever && s.db.pulled.value !in s.store
    ensures var t := Run(cfg, s, steps); t.enqueued == s.enqueued && t.db.pulled == s.db.pulled
    decreases |steps|
  {
    if steps != [] {
      if Enabled(cfg, s, steps[0]) {
        NextKeeps(cfg, s, steps[0]);
        StepFrame(cfg, s, steps[0]);
        TruncatedCursorFreezesPull(cfg, Next(cfg, s, steps[0]), steps[1..]);
      } else {
        TruncatedCursorFreezesPull(cfg, s, steps[1..]);
      }
    }
  }

}
