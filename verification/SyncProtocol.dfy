/**
 cloud-sync as a step system: three tasks that share the queue, the event-store they pull
 from, and crashes. A step is what one task does between two awaits, or what the
 environment does; a crash forgets the tasks and keeps the tables.

 History variables: `ever` is every event appended, `enqueued` every key that ever reached
 the queue, `acks` the first PUBACK of each key in the order they arrived, `late` the
 events appended below one that was already in the queue or in the page in hand, `sent`
 the cursors acknowledged upstream.
 */
module SyncProtocol {
  import opened Keys
  import opened Queue
  import ES = EventStore

  /** What the egress route makes of an event: dropped, missing a key, or an envelope. */
  datatype Egress = Withheld | Broken | Clear(json: string)

  datatype Config = Config(egress: ES.Event -> Egress, pullLimit: nat, publishLimit: nat)

  datatype Outcome = Failed | Drift | Acked(id: int)

  datatype PullState = PullIdle | Received(page: seq<Envelope>)

  datatype AckState = AckIdle | Awaiting(cursor: int)

  datatype Sys = Sys(
    ever: map<int, ES.Event>, store: map<int, ES.Event>,
    db: Db, pull: PullState, batch: seq<Key>, ack: AckState,
    enqueued: set<Key>, acks: seq<Key>, late: set<Key>, sent: set<Key>)

  datatype Step =
    | Append(e: ES.Event)
    | Truncate(cursor: Key, keep: set<string>)
    | PullPage
    | PullCommit
    | PullCrash(n: nat)
    | FetchBatch
    | PublishOk
    | PublishFail(error: string)
    | PublishStop
    | PubackCrash
    | AckSend
    | AckReply(outcome: Outcome)
    | AckCrash(outcome: Outcome)
    | Crash

  const INIT := Sys(map[], map[], EMPTY, PullIdle, [], AckIdle, {}, [], {}, {})

  // ---------------------------------------------------------------- event-store side

  /** Keys of the events that leave the train well-formed. */
  ghost function Forwardable(cfg: Config, events: map<int, ES.Event>): set<Key> {
    set id | id in events && cfg.egress(events[id]).Clear? :: ES.KeyOf(events[id])
  }

  ghost function After(cursor: Option<int>): ES.Request {
    ES.Request(None, cursor, [], None)
  }

  function Wire(cfg: Config, e: ES.Event): seq<Envelope> {
    match cfg.egress(e)
    case Withheld => []
    case Broken => [Malformed]
    case Clear(json) => [WellFormed(e.id, e.ts, json)]
  }

  function Redact(cfg: Config, events: map<int, ES.Event>, ks: seq<Key>): seq<Envelope>
    requires forall k | k in ks :: k.id in events
  {
    if ks == [] then [] else Wire(cfg, events[ks[0].id]) + Redact(cfg, events, ks[1..])
  }

  /** The rows a pull reads: the first `pullLimit` above the cursor. */
  ghost function RawRows(cfg: Config, store: map<int, ES.Event>, cursor: Option<int>): (raw: seq<Key>)
    requires ES.KeyedById(store)
    ensures forall k | k in raw :: k.id in store && k == ES.KeyOf(store[k.id])
  {
    var raw := Limit(ES.Listing(store, After(cursor)), cfg.pullLimit);
    assert forall k | k in raw :: k in ES.Listing(store, After(cursor));
    raw
  }

  /** The keys that were in the queue at some time or are in the page in hand. */
  ghost function Taken(s: Sys): set<Key> {
    s.enqueued + if s.pull.Received? then set k | k in WellFormedKeys(s.pull.page) else {}
  }

  ghost predicate IsLate(s: Sys, e: ES.Event) {
    exists h | h in Taken(s) :: Less(ES.KeyOf(e), h)
  }

  ghost function LastEvent(store: map<int, ES.Event>, journey: string): int
    requires exists id | id in store :: store[id].journey == journey
  {
    var stamps := set id | id in store && store[id].journey == journey :: Key(store[id].ts, 0);
    assert stamps != {} by {
      var id :| id in store && store[id].journey == journey;
      assert Key(store[id].ts, 0) in stamps;
    }
    Greatest(stamps).ts
  }

  /** The journeys `GROUP BY journey ORDER BY MAX(timestamp) DESC LIMIT 3` may select. */
  ghost predicate NewestThree(store: map<int, ES.Event>, keep: set<string>) {
    var journeys := set id | id in store :: store[id].journey;
    && keep <= journeys
    && |keep| == (if |journeys| < 3 then |journeys| else 3)
    && forall a, b | a in keep && b in journeys - keep :: LastEvent(store, b) <= LastEvent(store, a)
  }

  // ---------------------------------------------------------------- the steps

  function WellFormedKeys(page: seq<Envelope>): seq<Key> {
    if page == [] then []
    else if page[0].WellFormed? then [Key(page[0].ts, page[0].id)] + WellFormedKeys(page[1..])
    else WellFormedKeys(page[1..])
  }

  function EnqueueAll(db: Db, page: seq<Envelope>): Db
    decreases |page|
  {
    if page == [] then db
    else if page[0].WellFormed? then EnqueueAll(Enqueue(db, page[0]), page[1..])
    else EnqueueAll(db, page[1..])
  }

  function AdvancePulled(db: Db, page: seq<Envelope>): Db {
    var ks := WellFormedKeys(page);
    if ks == [] then db else db.(pulled := Some(ks[|ks| - 1].id))
  }

  /** Takes the next envelope of the page in hand. */
  ghost function Absorb(s: Sys): Sys
    requires s.pull.Received? && s.pull.page != []
  {
    var e := s.pull.page[0];
    var t := s.(pull := Received(s.pull.page[1..]));
    if e.WellFormed? then t.(db := Enqueue(s.db, e), enqueued := s.enqueued + {Key(e.ts, e.id)}) else t
  }

  ghost function AbsorbMany(s: Sys, n: nat): Sys
    requires s.pull.Received? && n <= |s.pull.page|
    decreases n
  {
    if n == 0 then s else AbsorbMany(Absorb(s), n - 1)
  }

  ghost function Forget(s: Sys): Sys {
    s.(pull := PullIdle, batch := [], ack := AckIdle)
  }

  function Acknowledge(acks: seq<Key>, k: Key): seq<Key> {
    if k in acks then acks else acks + [k]
  }

  function Target(cursor: int, outcome: Outcome): int
    requires !outcome.Failed?
  {
    if outcome.Drift? then cursor else outcome.id
  }

  ghost function RawPage(cfg: Config, s: Sys): (raw: seq<Key>)
    requires ES.KeyedById(s.store)
    ensures forall k | k in raw :: k.id in s.store && k == ES.KeyOf(s.store[k.id])
  {
    RawRows(cfg, s.store, s.db.pulled)
  }

  ghost predicate Enabled(cfg: Config, s: Sys, step: Step) {
    match step
    case Append(e) => e.id !in s.ever
    case Truncate(cursor, keep) => cursor in s.sent && cursor.id in s.store && NewestThree(s.store, keep)
    case PullPage => s.pull.PullIdle? && (s.db.pulled.Some? ==> s.db.pulled.value in s.store) && ES.KeyedById(s.store)
    case PullCommit => s.pull.Received?
    case PullCrash(n) => s.pull.Received? && n <= |s.pull.page|
    case FetchBatch => s.batch == []
    case PublishOk => s.batch != []
    case PublishFail(_) => s.batch != []
    case PublishStop => true
    case PubackCrash => s.batch != []
    case AckSend =>
      && s.ack.AckIdle? && PublishedPrefix(s.db.rows).Some?
      && PublishedPrefix(s.db.rows).value in s.db.rows && PublishedPrefix(s.db.rows) != s.db.acked
    case AckReply(_) => s.ack.Awaiting?
    case AckCrash(outcome) => s.ack.Awaiting? && !outcome.Failed?
    case Crash => true
  }

  ghost function Next(cfg: Config, s: Sys, step: Step): Sys
    requires Enabled(cfg, s, step)
  {
    match step
    case Append(e) =>
      s.(ever := s.ever[e.id := e], store := s.store[e.id := e],
         late := if IsLate(s, e) then s.late + {ES.KeyOf(e)} else s.late)
    case Truncate(_, keep) =>
      s.(store := map id | id in s.store && s.store[id].journey in keep :: s.store[id])
    case PullPage =>
      s.(pull := Received(Redact(cfg, s.store, RawPage(cfg, s))))
    case PullCommit =>
      var t := AbsorbMany(s, |s.pull.page|);
      t.(db := AdvancePulled(t.db, s.pull.page), pull := PullIdle)
    case PullCrash(n) => Forget(AbsorbMany(s, n))
    case FetchBatch => s.(batch := Limit(OrderBy(Pending(s.db.rows)), cfg.publishLimit))
    case PublishOk =>
      var k := s.batch[0];
      s.(acks := Acknowledge(s.acks, k), db := MarkPublished(s.db, k.id), batch := s.batch[1..])
    case PublishFail(error) => s.(db := MarkFailed(s.db, s.batch[0].id, error), batch := [])
    case PublishStop => s.(batch := [])
    case PubackCrash => Forget(s.(acks := Acknowledge(s.acks, s.batch[0])))
    case AckSend =>
      var e := PublishedPrefix(s.db.rows).value;
      s.(sent := s.sent + {RowKey(s.db.rows, e)}, ack := Awaiting(e))
    case AckReply(outcome) =>
      if outcome.Failed? then s.(ack := AckIdle)
      else
        var id := Target(s.ack.cursor, outcome);
        s.(db := DeleteAcked(s.db.(acked := Some(id)), id), ack := AckIdle)
    case AckCrash(outcome) => Forget(s.(db := s.db.(acked := Some(Target(s.ack.cursor, outcome)))))
    case Crash => Forget(s)
  }

  /** A run skips the steps that are not enabled, so every sequence of steps is a run. */
  ghost function Run(cfg: Config, s: Sys, steps: seq<Step>): Sys
    decreases |steps|
  {
    if steps == [] then s
    else Run(cfg, if Enabled(cfg, s, steps[0]) then Next(cfg, s, steps[0]) else s, steps[1..])
  }

  lemma {:induction false} RunConcat(cfg: Config, s: Sys, a: seq<Step>, b: seq<Step>)
    ensures Run(cfg, s, a + b) == Run(cfg, Run(cfg, s, a), b)
    decreases |a|
  {
    if a == [] {
      assert a + b == b;
    } else {
      assert (a + b)[1..] == a[1..] + b;
      RunConcat(cfg, if Enabled(cfg, s, a[0]) then Next(cfg, s, a[0]) else s, a[1..], b);
    }
  }

  // ---------------------------------------------------------------- the invariant

  /** Nothing that reached the queue is lost, and `published` means PUBACKed. */
  ghost predicate Durable(fwd: set<Key>, db: Db, enqueued: set<Key>, acks: seq<Key>) {
    && enqueued <= fwd
    && AllKeys(db.rows) <= enqueued
    && (forall k | k in enqueued :: k in Pending(db.rows) || k in acks)
    && (forall k | k in Published(db.rows) :: k in acks)
    && (forall k | k in acks :: k in enqueued)
    && (db.pulled.Some? ==> exists k | k in enqueued :: k.id == db.pulled.value)
  }

  ghost predicate Settled(store: map<int, ES.Event>, late: set<Key>, enqueued: set<Key>, k: Key) {
    k in enqueued || k in late || k.id !in store
  }

  /** Below anything enqueued, everything forwardable is enqueued, late or truncated. */
  ghost predicate Closed(fwd: set<Key>, store: map<int, ES.Event>, late: set<Key>, enqueued: set<Key>) {
    forall h, k | h in enqueued && k in fwd && Less(k, h) :: Settled(store, late, enqueued, k)
  }

  ghost predicate PageFits(fwd: set<Key>, store: map<int, ES.Event>, late: set<Key>, enqueued: set<Key>, ks: seq<Key>) {
    && Ascending(ks)
    && (forall k | k in ks :: k in fwd)
    && (forall h, k | h in ks && k in fwd && Less(k, h) :: k in ks || Settled(store, late, enqueued, k))
    && (forall h, k | h in enqueued && k in ks && AtMost(k, h) :: k in enqueued || k in late)
  }

  ghost predicate BatchFits(rows: map<int, Row>, enqueued: set<Key>, acks: seq<Key>, late: set<Key>, batch: seq<Key>) {
    && Ascending(batch)
    && (forall b | b in batch :: b in Pending(rows))
    && (forall b, k | b in batch && k in enqueued && Less(k, b) :: k in batch || k in acks || k in late)
  }

  /** First PUBACKs arrive in key order, except those of late events. */
  ghost predicate InOrder(enqueued: set<Key>, acks: seq<Key>, late: set<Key>) {
    && (forall p, k | p in acks && k in enqueued && Less(k, p) :: k in acks || k in late)
    && (forall i, j | 0 <= i < j < |acks| && acks[j] !in late :: Less(acks[i], acks[j]))
  }

  /** Up to `upTo`, everything forwardable is PUBACKed, late, or was truncated before it was ever pulled. */
  ghost predicate Delivered(fwd: set<Key>, s: Sys, upTo: Key) {
    forall k | k in fwd && AtMost(k, upTo) ::
      k in s.acks || k in s.late || (k.id !in s.store && k !in s.enqueued)
  }

  ghost predicate Inv(cfg: Config, s: Sys) {
    var fwd := Forwardable(cfg, s.ever);
    && ES.KeyedById(s.ever) && (forall id | id in s.store :: id in s.ever && s.store[id] == s.ever[id])
    && (forall k | k in s.sent :: k in s.enqueued)
    && Durable(fwd, s.db, s.enqueued, s.acks)
    && Closed(fwd, s.store, s.late, s.enqueued)
    && (s.pull.Received? ==> PageFits(fwd, s.store, s.late, s.enqueued, WellFormedKeys(s.pull.page)))
    && BatchFits(s.db.rows, s.enqueued, s.acks, s.late, s.batch)
    && InOrder(s.enqueued, s.acks, s.late)
    && (forall e | e in s.sent :: Delivered(fwd, s, e))
  }

  // ---------------------------------------------------------------- steps keep it

  /** `x` joins the forwardable events. */
  ghost predicate Grows(fwd: set<Key>, fwd': set<Key>, late: set<Key>, late': set<Key>, x: Key) {
    && fwd <= fwd' && late <= late'
    && forall k | k in fwd' :: k in fwd || k == x
  }

  lemma AppendGrows(cfg: Config, s: Sys, e: ES.Event)
    requires Inv(cfg, s) && e.id !in s.ever
    ensures var t := Next(cfg, s, Append(e));
            && Grows(Forwardable(cfg, s.ever), Forwardable(cfg, t.ever), s.late, t.late, ES.KeyOf(e))
            && (ES.KeyOf(e) in t.late || forall h | h in Taken(s) :: Less(h, ES.KeyOf(e)))
  {
    var t := Next(cfg, s, Append(e));
    forall k | k in Forwardable(cfg, t.ever) ensures k in Forwardable(cfg, s.ever) || k == ES.KeyOf(e) {
      assert t.ever[k.id].id == k.id;
    }
    forall k | k in Forwardable(cfg, s.ever) ensures k in Forwardable(cfg, t.ever) {
      assert k.id in s.ever && t.ever[k.id] == s.ever[k.id];
    }
    if !IsLate(s, e) {
      forall h | h in Taken(s) ensures Less(h, ES.KeyOf(e)) {
        assert h in Forwardable(cfg, s.ever);
        assert !Less(ES.KeyOf(e), h) && h.id != e.id;
      }
    }
  }

  lemma GrowthKeepsOrder(fwd: set<Key>, fwd': set<Key>, s: Sys, t: Sys, x: Key)
    requires Grows(fwd, fwd', s.late, t.late, x) && (x in t.late || forall h | h in s.enqueued :: Less(h, x))
    requires t == s.(ever := t.ever, store := t.store, late := t.late)
    requires forall k | k in fwd && k.id in t.store :: k.id in s.store
    requires s.enqueued <= fwd && Closed(fwd, s.store, s.late, s.enqueued)
    requires forall e | e in s.sent :: e in s.enqueued && Delivered(fwd, s, e)
    ensures Closed(fwd', t.store, t.late, s.enqueued)
    ensures forall e | e in s.sent :: Delivered(fwd', t, e)
  {
  }

  lemma AppendKeeps(cfg: Config, s: Sys, e: ES.Event)
    requires Inv(cfg, s) && e.id !in s.ever
    ensures Inv(cfg, Next(cfg, s, Append(e)))
  {
    var t := Next(cfg, s, Append(e));
    var fwd, fwd' := Forwardable(cfg, s.ever), Forwardable(cfg, t.ever);
    AppendGrows(cfg, s, e);
    assert forall k | k in fwd :: k.id in s.ever;
    GrowthKeepsOrder(fwd, fwd', s, t, ES.KeyOf(e));
    if s.pull.Received? {
      assert forall k | k in WellFormedKeys(s.pull.page) :: k in Taken(s);
      GrowthKeepsPage(fwd, fwd', s, t, ES.KeyOf(e), WellFormedKeys(s.pull.page));
    }
  }

  lemma GrowthKeepsPage(fwd: set<Key>, fwd': set<Key>, s: Sys, t: Sys, x: Key, ks: seq<Key>)
    requires Grows(fwd, fwd', s.late, t.late, x) && (x in t.late || forall h | h in ks :: Less(h, x))
    requires forall k | k in fwd && k.id in t.store :: k.id in s.store
    requires PageFits(fwd, s.store, s.late, s.enqueued, ks)
    ensures PageFits(fwd', t.store, t.late, s.enqueued, ks)
  {
  }

  lemma TruncateKeeps(cfg: Config, s: Sys, cursor: Key, keep: set<string>)
    requires Inv(cfg, s) && Enabled(cfg, s, Truncate(cursor, keep))
    ensures Inv(cfg, Next(cfg, s, Truncate(cursor, keep)))
  {
  }

  lemma ForgetKeeps(cfg: Config, s: Sys)
    requires Inv(cfg, s)
    ensures Inv(cfg, Forget(s))
  {
  }

  lemma AbsorbKeeps(cfg: Config, s: Sys)
    requires Inv(cfg, s) && s.pull.Received? && s.pull.page != []
    ensures Inv(cfg, Absorb(s))
  {
    var e, page := s.pull.page[0], s.pull.page;
    if e.WellFormed? {
      var k, ks := Key(e.ts, e.id), WellFormedKeys(page);
      assert ks == [k] + WellFormedKeys(page[1..]) && k in ks;
      EnqueueIsDurable(cfg, s, e);
      PageTail(Forwardable(cfg, s.ever), s.store, s.late, s.enqueued, ks);
      NewcomerKeepsOrder(s, Absorb(s), Forwardable(cfg, s.ever), k);
    }
  }

  /** A key that is new or late where it matters disturbs neither the batch nor what was acknowledged. */
  lemma NewcomerKeepsOrder(s: Sys, t: Sys, fwd: set<Key>, k: Key)
    requires t.enqueued == s.enqueued + {k} && Pending(s.db.rows) <= Pending(t.db.rows)
    requires t.acks == s.acks && t.late == s.late && t.batch == s.batch && t.sent == s.sent && t.store == s.store
    requires forall h | h in s.enqueued && AtMost(k, h) :: k in s.enqueued || k in s.late
    requires forall b | b in s.batch || b in s.acks || b in s.sent :: b in s.enqueued
    requires BatchFits(s.db.rows, s.enqueued, s.acks, s.late, s.batch) && InOrder(s.enqueued, s.acks, s.late)
    requires forall e | e in s.sent :: Delivered(fwd, s, e)
    ensures BatchFits(t.db.rows, t.enqueued, t.acks, t.late, t.batch)
    ensures InOrder(t.enqueued, t.acks, t.late)
    ensures forall e | e in t.sent :: Delivered(fwd, t, e)
  {
  }

  lemma EnqueueIsDurable(cfg: Config, s: Sys, e: Envelope)
    requires Inv(cfg, s) && e.WellFormed? && Key(e.ts, e.id) in Forwardable(cfg, s.ever)
    ensures Durable(Forwardable(cfg, s.ever), Enqueue(s.db, e), s.enqueued + {Key(e.ts, e.id)}, s.acks)
    ensures Pending(s.db.rows) <= Pending(Enqueue(s.db, e).rows)
  {
    var k, db := Key(e.ts, e.id), Enqueue(s.db, e);
    if e.id in s.db.rows {
      assert RowKey(s.db.rows, e.id) in AllKeys(s.db.rows);
      assert RowKey(s.db.rows, e.id) == k;
    } else {
      assert forall id | id in s.db.rows :: RowKey(db.rows, id) == RowKey(s.db.rows, id);
      assert RowKey(db.rows, e.id) == k;
      assert k in Pending(db.rows);
    }
  }

  /** With the head enqueued, what is left of the page still fits. */
  lemma PageTail(fwd: set<Key>, store: map<int, ES.Event>, late: set<Key>, enqueued: set<Key>, ks: seq<Key>)
    requires PageFits(fwd, store, late, enqueued, ks) && ks != []
    requires Closed(fwd, store, late, enqueued)
    ensures PageFits(fwd, store, late, enqueued + {ks[0]}, ks[1..])
    ensures Closed(fwd, store, late, enqueued + {ks[0]})
  {
    var k, rest := ks[0], ks[1..];
    assert k in ks && ks == [k] + rest;
    assert forall x | x in ks :: x == k || x in rest;
    forall x | x in rest ensures x in ks && Less(k, x) {
      var i :| 0 <= i < |rest| && rest[i] == x;
      assert ks[i + 1] == x;
    }
  }

  lemma {:induction false} AbsorbManyKeeps(cfg: Config, s: Sys, n: nat)
    requires Inv(cfg, s) && s.pull.Received? && n <= |s.pull.page|
    ensures var t := AbsorbMany(s, n);
            && Inv(cfg, t)
            && t.pull == Received(s.pull.page[n..])
            && t.db == EnqueueAll(s.db, s.pull.page[..n])
            && s.enqueued <= t.enqueued
            && (forall k | k in WellFormedKeys(s.pull.page[..n]) :: k in t.enqueued)
            && t == s.(pull := t.pull, db := t.db, enqueued := t.enqueued)
    decreases n
  {
    var page := s.pull.page;
    if n == 0 {
      assert page[0..] == page;
    } else {
      AbsorbKeeps(cfg, s);
      var a := Absorb(s);
      AbsorbManyKeeps(cfg, a, n - 1);
      assert page[1..][n - 1..] == page[n..];
      assert page[..n][1..] == page[1..][..n - 1] && page[..n][0] == page[0];
    }
  }

  lemma PullCommitKeeps(cfg: Config, s: Sys)
    requires Inv(cfg, s) && s.pull.Received?
    ensures Inv(cfg, Next(cfg, s, PullCommit))
    ensures Next(cfg, s, PullCommit).db == AdvancePulled(EnqueueAll(s.db, s.pull.page), s.pull.page)
    ensures var t := Next(cfg, s, PullCommit);
            && t == s.(pull := PullIdle, db := t.db, enqueued := t.enqueued)
            && s.enqueued <= t.enqueued && forall k | k in WellFormedKeys(s.pull.page) :: k in t.enqueued
  {
    var page := s.pull.page;
    AbsorbManyKeeps(cfg, s, |page|);
    assert page[..|page|] == page;
    var ks := WellFormedKeys(page);
    if ks != [] {
      assert ks[|ks| - 1] in ks;
    }
  }

  lemma WireKeys(cfg: Config, e: ES.Event, tail: seq<Envelope>)
    ensures WellFormedKeys(Wire(cfg, e) + tail)
         == (if cfg.egress(e).Clear? then [ES.KeyOf(e)] + WellFormedKeys(tail) else WellFormedKeys(tail))
  {
    var head := Wire(cfg, e);
    if head == [] {
      assert head + tail == tail;
    } else {
      assert (head + tail)[1..] == tail;
    }
  }

  lemma ConsAscends(k: Key, ks: seq<Key>, rest: seq<Key>)
    requires Ascending([k] + rest) && Ascending(ks) && forall x | x in ks :: x in rest
    ensures Ascending([k] + ks)
  {
    var all := [k] + rest;
    forall x | x in rest ensures Less(k, x) {
      var i :| 0 <= i < |rest| && rest[i] == x;
      assert all[0] == k && all[i + 1] == x;
    }
  }

  lemma {:induction false} RedactedKeys(cfg: Config, events: map<int, ES.Event>, ks: seq<Key>)
    requires forall k | k in ks :: k.id in events && ES.KeyOf(events[k.id]) == k
    ensures forall k :: k in WellFormedKeys(Redact(cfg, events, ks)) <==> k in ks && cfg.egress(events[k.id]).Clear?
    ensures Ascending(ks) ==> Ascending(WellFormedKeys(Redact(cfg, events, ks)))
    decreases |ks|
  {
    if ks != [] {
      var rest := ks[1..];
      assert ks == [ks[0]] + rest;
      RedactedKeys(cfg, events, rest);
      var tail := WellFormedKeys(Redact(cfg, events, rest));
      WireKeys(cfg, events[ks[0].id], Redact(cfg, events, rest));
      if Ascending(ks) {
        ConsAscends(ks[0], tail, rest);
      }
    }
  }

  lemma PullPageKeeps(cfg: Config, s: Sys)
    requires Inv(cfg, s) && Enabled(cfg, s, PullPage)
    ensures Inv(cfg, Next(cfg, s, PullPage))
  {
    RawPageIsClosed(cfg, s);
    RedactedKeys(cfg, s.store, RawPage(cfg, s));
    PageOfStore(Forwardable(cfg, s.ever), s, RawPage(cfg, s), WellFormedKeys(Redact(cfg, s.store, RawPage(cfg, s))));
  }

  lemma PageOfStore(fwd: set<Key>, s: Sys, raw: seq<Key>, ks: seq<Key>)
    requires Ascending(ks) && Closed(fwd, s.store, s.late, s.enqueued)
    requires forall k | k in raw :: k.id in s.store
    requires forall k | k in raw || k in fwd :: k in ks <==> k in raw && k in fwd
    requires forall k | k in ks :: k in raw
    requires forall h, k | h in raw && k in fwd && Less(k, h) :: k in raw || Settled(s.store, s.late, s.enqueued, k)
    ensures PageFits(fwd, s.store, s.late, s.enqueued, ks)
  {
  }

  /** Below a row of the raw page, what is forwardable is in the page or settled before it. */
  lemma RawPageIsClosed(cfg: Config, s: Sys)
    requires Inv(cfg, s) && Enabled(cfg, s, PullPage)
    ensures Ascending(RawPage(cfg, s))
    ensures forall h, k | h in RawPage(cfg, s) && k in Forwardable(cfg, s.ever) && Less(k, h) ::
              k in RawPage(cfg, s) || Settled(s.store, s.late, s.enqueued, k)
  {
    var all := ES.Listing(s.store, After(s.db.pulled));
    forall h, k | h in RawPage(cfg, s) && k in Forwardable(cfg, s.ever) && Less(k, h) && k.id in s.store
      ensures k in RawPage(cfg, s) || k in s.enqueued || k in s.late
    {
      if s.db.pulled.None? || Less(ES.KeyOf(s.store[s.db.pulled.value]), k) {
        assert ES.KeyOf(s.store[k.id]) == k && ES.Wanted(s.store, After(s.db.pulled), s.store[k.id]);
        assert k in ES.WantedKeys(s.store, After(s.db.pulled));
        LimitIsClosed(all, cfg.pullLimit, k, h);
      } else {
        BelowCursor(cfg, s, k);
      }
    }
  }

  lemma LimitIsClosed(all: seq<Key>, n: nat, k: Key, h: Key)
    requires Ascending(all) && k in all && h in Limit(all, n) && Less(k, h)
    ensures k in Limit(all, n)
  {
    var i :| 0 <= i < |all| && all[i] == k;
    var j :| 0 <= j < |Limit(all, n)| && Limit(all, n)[j] == h;
    assert all[j] == h && i < j;
    assert Limit(all, n)[i] == k;
  }

  lemma BelowCursor(cfg: Config, s: Sys, k: Key)
    requires Inv(cfg, s) && s.db.pulled.Some? && s.db.pulled.value in s.store
    requires k in Forwardable(cfg, s.ever) && k.id in s.store
    requires !Less(ES.KeyOf(s.store[s.db.pulled.value]), k)
    ensures k in s.enqueued || k in s.late
  {
    var c :| c in s.enqueued && c.id == s.db.pulled.value;
    assert c in Forwardable(cfg, s.ever);
    assert ES.KeyOf(s.store[c.id]) == c;
    assert AtMost(k, c);
  }

  // publisher

  lemma FetchKeeps(cfg: Config, s: Sys)
    requires Inv(cfg, s) && Enabled(cfg, s, FetchBatch)
    ensures Inv(cfg, Next(cfg, s, FetchBatch))
  {
    var all := OrderBy(Pending(s.db.rows));
    var batch := Limit(all, cfg.publishLimit);
    assert forall b | b in batch :: b in all;
    forall b, k | b in batch && k in s.enqueued && Less(k, b)
      ensures k in batch || k in s.acks
    {
      if k in Pending(s.db.rows) {
        LimitIsClosed(all, cfg.publishLimit, k, b);
      }
    }
  }

  lemma AcknowledgeHead(cfg: Config, s: Sys)
    requires Inv(cfg, s) && s.batch != []
    ensures var acks := Acknowledge(s.acks, s.batch[0]);
            && (forall k :: k in acks <==> k in s.acks || k == s.batch[0])
            && s.batch[0] in s.enqueued
            && InOrder(s.enqueued, acks, s.late)
            && (forall e | e in s.sent :: Delivered(Forwardable(cfg, s.ever), s.(acks := acks), e))
  {
    var h, acks := s.batch[0], Acknowledge(s.acks, s.batch[0]);
    assert h in s.batch && h in AllKeys(s.db.rows);
    assert forall b | b in s.batch :: AtMost(h, b);
    if h !in s.acks && h !in s.late {
      forall i | 0 <= i < |s.acks| ensures Less(s.acks[i], h) {
        assert s.acks[i] in s.acks;
      }
    }
  }

  lemma MarkedRows(rows: map<int, Row>, db: Db, id: int)
    requires db.rows == rows
    ensures var after := MarkPublished(db, id).rows;
            && AllKeys(after) == AllKeys(rows)
            && (forall k :: k in Pending(after) <==> k in Pending(rows) && k.id != id)
            && (forall k :: k in Published(after) <==> k in AllKeys(rows) && (k in Published(rows) || k.id == id))
  {
    var after := MarkPublished(db, id).rows;
    assert forall i | i in rows :: RowKey(after, i) == RowKey(rows, i);
    assert forall k | k in AllKeys(rows) :: k == RowKey(after, k.id);
  }

  lemma PublishIsDurable(fwd: set<Key>, db: Db, enqueued: set<Key>, acks: seq<Key>, h: Key)
    requires Durable(fwd, db, enqueued, acks) && h in Pending(db.rows)
    ensures Durable(fwd, MarkPublished(db, h.id), enqueued, Acknowledge(acks, h))
  {
    MarkedRows(db.rows, db, h.id);
    var after := MarkPublished(db, h.id).rows;
    assert forall k | k in AllKeys(db.rows) && k.id == h.id :: k == RowKey(db.rows, h.id) == h;
    assert forall k :: k in Acknowledge(acks, h) <==> k in acks || k == h;
  }

  lemma BatchTail(db: Db, enqueued: set<Key>, acks: seq<Key>, late: set<Key>, batch: seq<Key>)
    requires BatchFits(db.rows, enqueued, acks, late, batch) && batch != []
    ensures BatchFits(MarkPublished(db, batch[0].id).rows, enqueued, Acknowledge(acks, batch[0]), late, batch[1..])
  {
    var h, rest := batch[0], batch[1..];
    MarkedRows(db.rows, db, h.id);
    assert batch == [h] + rest && h in batch;
    forall b | b in rest ensures b in batch && b.id != h.id {
      var i :| 0 <= i < |rest| && rest[i] == b;
      assert batch[i + 1] == b && Less(batch[0], batch[i + 1]);
      assert b == RowKey(db.rows, b.id) && h == RowKey(db.rows, h.id);
    }
  }

  lemma PublishOkKeeps(cfg: Config, s: Sys)
    requires Inv(cfg, s) && s.batch != []
    ensures Inv(cfg, Next(cfg, s, PublishOk))
  {
    AcknowledgeHead(cfg, s);
    assert s.batch[0] in s.batch;
    PublishIsDurable(Forwardable(cfg, s.ever), s.db, s.enqueued, s.acks, s.batch[0]);
    BatchTail(s.db, s.enqueued, s.acks, s.late, s.batch);
  }

  lemma FailedRows(db: Db, id: int, error: string)
    ensures var after := MarkFailed(db, id, error).rows;
            && AllKeys(after) == AllKeys(db.rows)
            && Pending(after) == Pending(db.rows) && Published(after) == Published(db.rows)
  {
    var after := MarkFailed(db, id, error).rows;
    assert forall i | i in db.rows :: RowKey(after, i) == RowKey(db.rows, i);
  }

  lemma PublishFailKeeps(cfg: Config, s: Sys, error: string)
    requires Inv(cfg, s) && s.batch != []
    ensures Inv(cfg, Next(cfg, s, PublishFail(error)))
  {
    FailedRows(s.db, s.batch[0].id, error);
  }

  // acknowledgement

  /** The central step: the cursor that goes upstream covers only PUBACKed events. */
  lemma AckSendIsSafe(cfg: Config, s: Sys, id: int)
    requires Inv(cfg, s) && PublishedPrefix(s.db.rows) == Some(id) && id in s.db.rows
    ensures var e := RowKey(s.db.rows, id); e in s.enqueued && Delivered(Forwardable(cfg, s.ever), s, e)
  {
    PrefixIsSafe(s.db.rows);
    var e := RowKey(s.db.rows, id);
    assert e in AllKeys(s.db.rows);
    PrefixDelivers(Forwardable(cfg, s.ever), s, e);
  }

  lemma PrefixDelivers(fwd: set<Key>, s: Sys, e: Key)
    requires Durable(fwd, s.db, s.enqueued, s.acks) && Closed(fwd, s.store, s.late, s.enqueued) && e in s.enqueued
    requires forall k | k in AllKeys(s.db.rows) && AtMost(k, e) :: s.db.rows[k.id].published
    ensures Delivered(fwd, s, e)
  {
    assert forall k | k in Pending(s.db.rows) :: k in AllKeys(s.db.rows);
  }

  lemma DeleteIsDurable(fwd: set<Key>, db: Db, enqueued: set<Key>, acks: seq<Key>, id: int)
    requires Durable(fwd, db, enqueued, acks)
    ensures Durable(fwd, DeleteAcked(db, id), enqueued, acks)
    ensures Pending(DeleteAcked(db, id).rows) == Pending(db.rows)
  {
    var rows, after := db.rows, DeleteAcked(db, id).rows;
    DeleteAckedTwice(db, id);
    assert forall i | i in after :: RowKey(after, i) == RowKey(rows, i);
    assert AllKeys(after) <= AllKeys(rows) && Published(after) <= Published(rows);
  }

  lemma DeleteKeeps(cfg: Config, s: Sys, id: int)
    requires Inv(cfg, s)
    ensures Inv(cfg, s.(db := DeleteAcked(s.db.(acked := Some(id)), id), ack := AckIdle))
  {
    DeleteIsDurable(Forwardable(cfg, s.ever), s.db.(acked := Some(id)), s.enqueued, s.acks, id);
  }

  lemma SentJoins(fwd: set<Key>, s: Sys, t: Sys, e: Key)
    requires t == s.(sent := s.sent + {e}, ack := t.ack) && Delivered(fwd, s, e)
    requires forall x | x in s.sent :: Delivered(fwd, s, x)
    ensures forall x | x in t.sent :: Delivered(fwd, t, x)
  {
    forall x | x in t.sent ensures Delivered(fwd, t, x) {
      assert Delivered(fwd, s, x);
    }
  }

  lemma AckSendKeeps(cfg: Config, s: Sys)
    requires Inv(cfg, s) && Enabled(cfg, s, AckSend)
    ensures Inv(cfg, Next(cfg, s, AckSend))
  {
    var id := PublishedPrefix(s.db.rows).value;
    AckSendIsSafe(cfg, s, id);
    SentJoins(Forwardable(cfg, s.ever), s, Next(cfg, s, AckSend), RowKey(s.db.rows, id));
  }

  lemma AckReplyKeeps(cfg: Config, s: Sys, outcome: Outcome)
    requires Inv(cfg, s) && s.ack.Awaiting?
    ensures Inv(cfg, Next(cfg, s, AckReply(outcome)))
  {
    if !outcome.Failed? { DeleteKeeps(cfg, s, Target(s.ack.cursor, outcome)); }
  }

  lemma PubackCrashKeeps(cfg: Config, s: Sys)
    requires Inv(cfg, s) && s.batch != []
    ensures Inv(cfg, Next(cfg, s, PubackCrash))
  {
    AcknowledgeHead(cfg, s);
  }

  lemma NextKeeps(cfg: Config, s: Sys, step: Step)
    requires Inv(cfg, s) && Enabled(cfg, s, step)
    ensures Inv(cfg, Next(cfg, s, step))
  {
    match step
    case Append(e) => AppendKeeps(cfg, s, e);
    case Truncate(cursor, keep) => TruncateKeeps(cfg, s, cursor, keep);
    case PullPage => PullPageKeeps(cfg, s);
    case PullCommit => PullCommitKeeps(cfg, s);
    case PullCrash(n) => AbsorbManyKeeps(cfg, s, n); ForgetKeeps(cfg, AbsorbMany(s, n));
    case FetchBatch => FetchKeeps(cfg, s);
    case PublishOk => PublishOkKeeps(cfg, s);
    case PublishFail(error) => PublishFailKeeps(cfg, s, error);
    case PublishStop =>
    case PubackCrash => PubackCrashKeeps(cfg, s);
    case AckSend => AckSendKeeps(cfg, s);
    case AckReply(outcome) => AckReplyKeeps(cfg, s, outcome);
    case AckCrash(_) =>
    case Crash => ForgetKeeps(cfg, s);
  }

  lemma {:induction false} RunKeeps(cfg: Config, s: Sys, steps: seq<Step>)
    requires Inv(cfg, s)
    ensures Inv(cfg, Run(cfg, s, steps))
    decreases |steps|
  {
    if steps != [] {
      if Enabled(cfg, s, steps[0]) {
        NextKeeps(cfg, s, steps[0]);
        RunKeeps(cfg, Next(cfg, s, steps[0]), steps[1..]);
      } else {
        RunKeeps(cfg, s, steps[1..]);
      }
    }
  }
}
