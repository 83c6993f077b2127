/**
 The pull loop among the other coroutines: whether an event ahead of the cursor is reached is the
 same as when the loop is left alone, however publishing, acknowledging and in-order appends interleave.
 */
module PullRuns {
  import opened Keys
  import opened Queue
  import ES = EventStore
  import opened SyncProtocol
  import opened SyncTheorems
  import opened PullProgress

  /** No crash, no truncation, and appends on top. */
  ghost predicate Calm(s: Sys, step: Step) {
    match step
    case Append(e) => OnTop(s.ever, e)
    case Truncate(_, _) => false
    case PullCrash(_) => false
    case PubackCrash => false
    case AckCrash(_) => false
    case Crash => false
    case _ => true
  }

  ghost function Then(cfg: Config, s: Sys, step: Step): Sys {
    if Enabled(cfg, s, step) then Next(cfg, s, step) else s
  }

  ghost predicate CalmRun(cfg: Config, s: Sys, steps: seq<Step>)
    decreases |steps|
  {
    steps == [] || (Calm(s, steps[0]) && CalmRun(cfg, Then(cfg, s, steps[0]), steps[1..]))
  }

  /** How many pages a run commits. */
  ghost function Commits(cfg: Config, s: Sys, steps: seq<Step>): nat
    decreases |steps|
  {
    if steps == [] then 0
    else
      (if steps[0].PullCommit? && s.pull.Received? then 1 else 0) + Commits(cfg, Then(cfg, s, steps[0]), steps[1..])
  }

  // ---------------------------------------------------------------- what the pull loop sees

  /** The cursor, with the page in hand counted as taken. */
  ghost function Cursor(s: Sys): Option<int> {
    if s.pull.Received? then AdvancePulled(s.db, s.pull.page).pulled else s.db.pulled
  }

  /** Rows beyond the cursor and the page in hand, the usable ones, the queue's history, and the page in hand. */
  datatype View = View(rows: seq<Key>, fwd: set<Key>, queued: set<Key>, hand: set<Key>, received: bool)

  ghost function Hand(s: Sys): set<Key> {
    if s.pull.Received? then set k | k in WellFormedKeys(s.pull.page) else {}
  }

  ghost function ViewOf(cfg: Config, s: Sys): View
    requires ES.KeyedById(s.store)
  {
    View(ES.Listing(s.store, After(Cursor(s))), Forwardable(cfg, s.store), s.enqueued, Hand(s), s.pull.Received?)
  }

  ghost predicate Pulled(v: View, w: View, page: nat) {
    var c := PageCut(v.rows, v.fwd, page);
    !v.received && w == View(v.rows[c..], v.fwd, v.queued, Usable(v.rows[..c], v.fwd), true)
  }

  ghost predicate Committed(v: View, w: View) {
    v.received && w == View(v.rows, v.fwd, v.queued + v.hand, {}, false)
  }

  ghost predicate Grown(v: View, w: View) {
    && v.rows <= w.rows && w == v.(rows := w.rows, fwd := w.fwd)
    && forall k | k in v.rows :: k in w.fwd <==> k in v.fwd
  }

  /** `m` more commits are enough for `k`. */
  ghost predicate Within(v: View, k: Key, page: nat, m: nat) {
    || k in v.queued
    || (k in v.hand && m >= 1)
    || exists i | 0 <= i < |v.rows| ::
         v.rows[i] == k && k in v.fwd && !BlockedAt(v.rows, v.fwd, page, i) && m >= i + (if v.received then 2 else 1)
  }

  ghost predicate OutOfReach(v: View, k: Key, page: nat) {
    k !in v.queued + v.hand && k in v.fwd && Blocked(v.rows, v.fwd, page, k)
  }

  lemma PrefixBlocks(ks: seq<Key>, more: seq<Key>, a: set<Key>, b: set<Key>, page: nat, i: nat)
    requires ks <= more && i < |ks| && forall k | k in ks :: k in a <==> k in b
    ensures BlockedAt(ks, a, page, i) <==> BlockedAt(more, b, page, i)
  {
    forall j: nat | j + page <= i ensures Blank(ks, a, j, page) <==> Blank(more, b, j, page) {
      assert forall m | j <= m < j + page :: ks[m] in ks && more[m] == ks[m];
    }
  }

  lemma PulledWithin(v: View, w: View, k: Key, page: nat, m: nat)
    requires Pulled(v, w, page) && v.hand == {} && Within(v, k, page, m)
    ensures Within(w, k, page, m)
  {
    if k !in v.queued {
      var c := PageCut(v.rows, v.fwd, page);
      var i :| 0 <= i < |v.rows| && v.rows[i] == k && k in v.fwd && !BlockedAt(v.rows, v.fwd, page, i) && m >= i + 1;
      if c == 0 {
        BlankPageBlocks(v.rows, v.fwd, page, i);
      } else if i < c {
        assert v.rows[..c][i] == k;
      } else {
        BlockedAhead(v.rows, v.fwd, page, c, i);
        assert w.rows[i - c] == k;
      }
    }
  }

  lemma PulledOutOfReach(v: View, w: View, k: Key, page: nat)
    requires Pulled(v, w, page) && Ascending(v.rows) && OutOfReach(v, k, page)
    ensures OutOfReach(w, k, page)
  {
    var c := PageCut(v.rows, v.fwd, page);
    var i :| 0 <= i < |v.rows| && v.rows[i] == k && BlockedAt(v.rows, v.fwd, page, i);
    assert i >= page >= c;
    AtOneIndex(v.rows, i, c);
    if c > 0 {
      BlockedAhead(v.rows, v.fwd, page, c, i);
    } else {
      assert v.rows[0..] == v.rows;
    }
    assert w.rows[i - c] == k;
  }

  lemma GrownWithin(v: View, w: View, k: Key, page: nat, m: nat)
    requires Grown(v, w) && Within(v, k, page, m)
    ensures Within(w, k, page, m)
  {
    if k !in v.queued && !(k in v.hand && m >= 1) {
      var i :| 0 <= i < |v.rows| && v.rows[i] == k && k in v.fwd && !BlockedAt(v.rows, v.fwd, page, i)
               && m >= i + (if v.received then 2 else 1);
      PrefixBlocks(v.rows, w.rows, v.fwd, w.fwd, page, i);
      assert w.rows[i] == k && k in v.rows;
    }
  }

  lemma GrownOutOfReach(v: View, w: View, k: Key, page: nat)
    requires Grown(v, w) && OutOfReach(v, k, page)
    ensures OutOfReach(w, k, page)
  {
    var i :| 0 <= i < |v.rows| && v.rows[i] == k && BlockedAt(v.rows, v.fwd, page, i);
    PrefixBlocks(v.rows, w.rows, v.fwd, w.fwd, page, i);
    assert w.rows[i] == k && k in v.rows;
  }

  // ---------------------------------------------------------------- the steps, as the pull loop sees them

  /** The loop's cursor is one event-store knows, now and after the page in hand. */
  ghost predicate Usual(cfg: Config, s: Sys) {
    && Inv(cfg, s) && ES.KeyedById(s.store)
    && (s.db.pulled.Some? ==> s.db.pulled.value in s.store)
    && (Cursor(s).Some? ==> Cursor(s).value in s.store)
  }

  lemma PageSeen(cfg: Config, s: Sys)
    requires Ready(cfg, s)
    ensures var ks, c := WellFormedKeys(Redact(cfg, s.store, RawPage(cfg, s))), RoundCut(cfg, s);
            && (set k | k in ks) == Usable(Ahead(s)[..c], Forwardable(cfg, s.store))
            && (c == 0 ==> ks == []) && (c > 0 ==> ks != [] && ks[|ks| - 1] == Ahead(s)[c - 1])
  {
    var raw, c := RawPage(cfg, s), RoundCut(cfg, s);
    RawPageIsClosed(cfg, s);
    PageIsPrefix(cfg, s);
    UsableRows(cfg, s.store, raw, c);
    assert c > 0 ==> raw[..c][c - 1] == Ahead(s)[..c][c - 1];
  }

  lemma CursorSeen(cfg: Config, s: Sys, t: Sys, c: nat)
    requires ES.KeyedById(s.store) && t.store == s.store && c <= |Ahead(s)|
    requires s.db.pulled.Some? ==> s.db.pulled.value in s.store
    requires Cursor(t) == if c > 0 then Some(Ahead(s)[c - 1].id) else s.db.pulled
    ensures ES.Listing(t.store, After(Cursor(t))) == Ahead(s)[c..]
    ensures Cursor(t).Some? ==> Cursor(t).value in t.store
  {
    if c > 0 {
      CursorDropsPrefix(s.store, s.db.pulled, c);
    } else {
      assert Ahead(s)[0..] == Ahead(s);
    }
  }

  lemma PullPageSeen(cfg: Config, s: Sys)
    requires Usual(cfg, s) && s.pull.PullIdle?
    ensures var t := Next(cfg, s, PullPage);
            Usual(cfg, t) && Pulled(ViewOf(cfg, s), ViewOf(cfg, t), cfg.pullLimit)
  {
    var t := Next(cfg, s, PullPage);
    PullPageKeeps(cfg, s);
    PageSeen(cfg, s);
    CursorSeen(cfg, s, t, RoundCut(cfg, s));
  }

  lemma PullCommitSeen(cfg: Config, s: Sys)
    requires Usual(cfg, s) && s.pull.Received?
    ensures var t := Next(cfg, s, PullCommit); Usual(cfg, t) && Committed(ViewOf(cfg, s), ViewOf(cfg, t))
  {
    CommitEnds(cfg, s);
  }

  lemma Topped(store: map<int, ES.Event>, e: ES.Event, id: int)
    requires id in store && e.id !in store && OnTop(store, e)
    ensures store[e.id := e][id] == store[id] && Less(ES.KeyOf(store[id]), ES.KeyOf(e))
  {
  }

  lemma WantedGrows(store: map<int, ES.Event>, e: ES.Event, cursor: Option<int>)
    requires ES.KeyedById(store) && e.id !in store && OnTop(store, e) && (cursor.Some? ==> cursor.value in store)
    ensures ES.WantedKeys(store[e.id := e], After(cursor)) == ES.WantedKeys(store, After(cursor)) + {ES.KeyOf(e)}
  {
    var more, q := store[e.id := e], After(cursor);
    if cursor.Some? {
      Topped(store, e, cursor.value);
    }
    assert q.after == cursor && q.journey.None? && q.types == [] && q.minSeverity.None?;
    assert ES.Wanted(more, q, e) && more[e.id] == e;
    forall id | id in store ensures ES.Wanted(more, q, more[id]) <==> ES.Wanted(store, q, store[id]) {
      assert more[id] == store[id];
    }
    forall k | k in ES.WantedKeys(store, q) ensures k in ES.WantedKeys(more, q) {
      var id :| id in store && ES.Wanted(store, q, store[id]) && k == ES.KeyOf(store[id]);
      assert id in more && ES.Wanted(more, q, more[id]);
    }
  }

  lemma LastComesLast(ks: seq<Key>, x: Key)
    requires Ascending(ks) && forall k | k in ks :: Less(k, x)
    ensures Ascending(ks + [x])
  {
    forall i | 0 <= i < |ks| ensures Less(ks[i], x) {
      assert ks[i] in ks;
    }
  }

  /** An event on top is listed last. */
  lemma ListingGrows(store: map<int, ES.Event>, e: ES.Event, cursor: Option<int>)
    requires ES.KeyedById(store) && e.id !in store && OnTop(store, e) && (cursor.Some? ==> cursor.value in store)
    ensures ES.KeyedById(store[e.id := e])
    ensures ES.Listing(store[e.id := e], After(cursor)) == ES.Listing(store, After(cursor)) + [ES.KeyOf(e)]
  {
    var ks, x := ES.Listing(store, After(cursor)), ES.KeyOf(e);
    WantedGrows(store, e, cursor);
    LastComesLast(ks, x);
    assert forall k :: k in ks + [x] <==> k in ks || k == x;
    AscendingUnique(ES.Listing(store[e.id := e], After(cursor)), ks + [x]);
  }

  lemma ForwardableGrows(cfg: Config, store: map<int, ES.Event>, e: ES.Event, k: Key)
    requires ES.KeyedById(store) && e.id !in store && k.id in store
    ensures k in Forwardable(cfg, store[e.id := e]) <==> k in Forwardable(cfg, store)
  {
    var more := store[e.id := e];
    if k in Forwardable(cfg, store) {
      assert more[k.id] == store[k.id];
    }
  }

  lemma AppendSeen(cfg: Config, s: Sys, e: ES.Event)
    requires Usual(cfg, s) && e.id !in s.ever && OnTop(s.ever, e)
    ensures var t := Next(cfg, s, Append(e)); Usual(cfg, t) && Grown(ViewOf(cfg, s), ViewOf(cfg, t))
  {
    AppendKeeps(cfg, s, e);
    StoreIsOld(cfg, s, e);
    ListingGrows(s.store, e, Cursor(s));
    forall k | k in ViewOf(cfg, s).rows
      ensures k in Forwardable(cfg, s.store[e.id := e]) <==> k in Forwardable(cfg, s.store)
    {
      ForwardableGrows(cfg, s.store, e, k);
    }
  }

  lemma StoreIsOld(cfg: Config, s: Sys, e: ES.Event)
    requires Inv(cfg, s) && e.id !in s.ever && OnTop(s.ever, e)
    ensures e.id !in s.store && OnTop(s.store, e)
  {
  }

  predicate Elsewhere(step: Step) {
    match step
    case FetchBatch => true
    case PublishOk => true
    case PublishFail(_) => true
    case PublishStop => true
    case AckSend => true
    case AckReply(_) => true
    case _ => false
  }

  /** The other coroutines leave the store, the pull cursor and the page in hand alone. */
  lemma ElsewhereUnseen(cfg: Config, s: Sys, step: Step)
    requires Usual(cfg, s) && Elsewhere(step) && Enabled(cfg, s, step)
    ensures var t := Next(cfg, s, step); Usual(cfg, t) && ViewOf(cfg, t) == ViewOf(cfg, s)
  {
    NextKeeps(cfg, s, step);
    ElsewhereFrame(cfg, s, step);
  }

  lemma ElsewhereFrame(cfg: Config, s: Sys, step: Step)
    requires Elsewhere(step) && Enabled(cfg, s, step)
    ensures var t := Next(cfg, s, step);
            t.store == s.store && t.pull == s.pull && t.enqueued == s.enqueued && t.db.pulled == s.db.pulled
  {
  }

  // ---------------------------------------------------------------- runs

  lemma StepWithin(cfg: Config, s: Sys, step: Step, k: Key, m: nat)
    requires Usual(cfg, s) && Calm(s, step) && Enabled(cfg, s, step) && Within(ViewOf(cfg, s), k, cfg.pullLimit, m)
    requires step.PullCommit? ==> m > 0
    ensures var t := Next(cfg, s, step);
            Usual(cfg, t) && Within(ViewOf(cfg, t), k, cfg.pullLimit, if step.PullCommit? then m - 1 else m)
  {
    match step
    case PullPage =>
      PullPageSeen(cfg, s);
      PulledWithin(ViewOf(cfg, s), ViewOf(cfg, Next(cfg, s, step)), k, cfg.pullLimit, m);
    case PullCommit => PullCommitSeen(cfg, s);
    case Append(e) =>
      AppendSeen(cfg, s, e);
      GrownWithin(ViewOf(cfg, s), ViewOf(cfg, Next(cfg, s, step)), k, cfg.pullLimit, m);
    case _ => ElsewhereUnseen(cfg, s, step);
  }

  lemma StepOutOfReach(cfg: Config, s: Sys, step: Step, k: Key)
    requires Usual(cfg, s) && Calm(s, step) && Enabled(cfg, s, step) && OutOfReach(ViewOf(cfg, s), k, cfg.pullLimit)
    ensures var t := Next(cfg, s, step); Usual(cfg, t) && OutOfReach(ViewOf(cfg, t), k, cfg.pullLimit)
  {
    match step
    case PullPage =>
      PullPageSeen(cfg, s);
      PulledOutOfReach(ViewOf(cfg, s), ViewOf(cfg, Next(cfg, s, step)), k, cfg.pullLimit);
    case PullCommit => PullCommitSeen(cfg, s);
    case Append(e) =>
      AppendSeen(cfg, s, e);
      GrownOutOfReach(ViewOf(cfg, s), ViewOf(cfg, Next(cfg, s, step)), k, cfg.pullLimit);
    case _ => ElsewhereUnseen(cfg, s, step);
  }

  lemma {:induction false} RunReaches(cfg: Config, s: Sys, steps: seq<Step>, k: Key)
    requires Usual(cfg, s) && CalmRun(cfg, s, steps)
    requires Within(ViewOf(cfg, s), k, cfg.pullLimit, Commits(cfg, s, steps))
    ensures k in Run(cfg, s, steps).enqueued
    decreases |steps|
  {
    if steps != [] {
      if Enabled(cfg, s, steps[0]) {
        StepWithin(cfg, s, steps[0], k, Commits(cfg, s, steps));
        RunReaches(cfg, Next(cfg, s, steps[0]), steps[1..], k);
      } else {
        RunReaches(cfg, s, steps[1..], k);
      }
    }
  }

  lemma {:induction false} RunNeverReaches(cfg: Config, s: Sys, steps: seq<Step>, k: Key)
    requires Usual(cfg, s) && CalmRun(cfg, s, steps) && OutOfReach(ViewOf(cfg, s), k, cfg.pullLimit)
    ensures k !in Run(cfg, s, steps).enqueued
    decreases |steps|
  {
    if steps != [] {
      if Enabled(cfg, s, steps[0]) {
        StepOutOfReach(cfg, s, steps[0], k);
        RunNeverReaches(cfg, Next(cfg, s, steps[0]), steps[1..], k);
      } else {
        RunNeverReaches(cfg, s, steps[1..], k);
      }
    }
  }

  /**
   In every calm run that commits enough pages, whatever the publisher and the ack loop do in between and
   whatever is appended on top, a forwardable event ahead is queued exactly when it is not blocked.
   */
  lemma QueuedInRunIff(cfg: Config, s: Sys, steps: seq<Step>, k: Key)
    requires Ready(cfg, s) && CalmRun(cfg, s, steps) && Commits(cfg, s, steps) >= |Ahead(s)|
    requires k in Ahead(s) && k in Forwardable(cfg, s.store) && k !in s.enqueued
    ensures k in Run(cfg, s, steps).enqueued <==> !Blocked(Ahead(s), Forwardable(cfg, s.store), cfg.pullLimit, k)
  {
    if Blocked(Ahead(s), Forwardable(cfg, s.store), cfg.pullLimit, k) {
      RunNeverReaches(cfg, s, steps, k);
    } else {
      var i :| 0 <= i < |Ahead(s)| && Ahead(s)[i] == k;
      assert !BlockedAt(Ahead(s), Forwardable(cfg, s.store), cfg.pullLimit, i);
      RunReaches(cfg, s, steps, k);
    }
  }
}
