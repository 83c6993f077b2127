/** What a committed batch leaves behind, told from the request: the new escalations, their audit rows, the reply. */
module IngestEffects {
  import opened Collections
  import opened Escalation
  import opened Keys

  // ---------------------------------------------------------------- the effects of a prefix of a batch

  /** The j-th event is new and a complete ALERT_RAISED. */
  predicate IsNewAlert(db: Db, evs: seq<Event>, j: nat)
    requires j < |evs|
  {
    IsNew(db, evs, j) && evs[j].alertRaised && evs[j].complete
  }

  function Accepted(db: Db, evs: seq<Event>, m: nat): nat
    requires m <= |evs|
  {
    if m == 0 then 0 else Accepted(db, evs, m - 1) + if IsNew(db, evs, m - 1) then 1 else 0
  }

  /** The ids of supported events that are not new, in order. */
  function Repeated(db: Db, evs: seq<Event>, m: nat): seq<int>
    requires m <= |evs|
  {
    if m == 0 then []
    else Repeated(db, evs, m - 1) + if evs[m - 1].supported && !IsNew(db, evs, m - 1) then [evs[m - 1].id] else []
  }

  /** The ids of new events of an alert class, in order. */
  function Fanned(db: Db, evs: seq<Event>, m: nat): seq<int>
    requires m <= |evs|
  {
    if m == 0 then []
    else Fanned(db, evs, m - 1) + if IsNew(db, evs, m - 1) && evs[m - 1].fanOut then [evs[m - 1].id] else []
  }

  /** The ids that get an escalation, in order. */
  function Raises(db: Db, evs: seq<Event>, m: nat): seq<int>
    requires m <= |evs|
  {
    if m == 0 then []
    else
      Raises(db, evs, m - 1) +
      if IsNewAlert(db, evs, m - 1) && evs[m - 1].id !in db.status then [evs[m - 1].id] else []
  }

  function Opened(status: map<int, Status>, ids: seq<int>): map<int, Status> {
    if ids == [] then status else Opened(status, ids[..|ids| - 1])[ids[|ids| - 1] := Unacknowledged]
  }

  function RaisedRows(ids: seq<int>): seq<Entry> {
    seq(|ids|, i requires 0 <= i < |ids| => Entry(ids[i], Raised))
  }

  ghost predicate Effects(db: Db, evs: seq<Event>, m: nat, b: Batch)
    requires m <= |evs|
  {
    && b.db.status == Opened(db.status, Raises(db, evs, m))
    && b.db.audit == db.audit + RaisedRows(Raises(db, evs, m))
    && b.accepted == Accepted(db, evs, m)
    && b.duplicates == Repeated(db, evs, m)
    && b.published == Fanned(db, evs, m)
  }

  lemma {:induction false} RaisedAreNew(db: Db, evs: seq<Event>, m: nat, id: int)
    requires m <= |evs| && id in Raises(db, evs, m)
    ensures id in NewIds(db, evs, m) && id !in db.status
    decreases m
  {
    if id in Raises(db, evs, m - 1) {
      RaisedAreNew(db, evs, m - 1, id);
    }
  }

  lemma {:induction false} OpenedAt(status: map<int, Status>, ids: seq<int>, id: int)
    ensures id in Opened(status, ids) <==> id in status || id in ids
    ensures id in ids ==> Opened(status, ids)[id] == Unacknowledged
    ensures id in status && id !in ids ==> Opened(status, ids)[id] == status[id]
    decreases |ids|
  {
    if ids != [] {
      var init := ids[..|ids| - 1];
      OpenedAt(status, init, id);
      assert ids == init + [ids[|ids| - 1]];
    }
  }

  lemma OpenedSnoc(status: map<int, Status>, ids: seq<int>, id: int)
    ensures Opened(status, ids + [id]) == Opened(status, ids)[id := Unacknowledged]
    ensures RaisedRows(ids + [id]) == RaisedRows(ids) + [Entry(id, Raised)]
  {
    assert (ids + [id])[..|ids|] == ids;
  }

  /** The escalation part of a stored event. */
  lemma OneRaise(db: Db, evs: seq<Event>, m: nat, b: Batch)
    requires m < |evs| && Effects(db, evs, m, b) && Stores(b.db, evs[m]) && IsNew(db, evs, m) && !Clashes(db, evs, m)
    ensures var after := IngestOne(b.db, evs[m]).value;
            && after.status == Opened(db.status, Raises(db, evs, m + 1))
            && after.audit == db.audit + RaisedRows(Raises(db, evs, m + 1))
  {
    var ids, id := Raises(db, evs, m), evs[m].id;
    OpenedAt(db.status, ids, id);
    if id in ids {
      RaisedAreNew(db, evs, m, id);
    }
    OpenedSnoc(db.status, ids, id);
    assert ids + [] == ids;
  }

  lemma StoreTakes(b: Batch, ev: Event)
    requires Stores(b.db, ev)
    ensures Take(b, ev) == Some(Batch(IngestOne(b.db, ev).value, b.accepted + 1, b.duplicates,
                                      if ev.fanOut then b.published + [ev.id] else b.published))
  {
  }

  lemma NewInReply(db: Db, evs: seq<Event>, m: nat)
    requires m < |evs| && IsNew(db, evs, m)
    ensures Accepted(db, evs, m + 1) == Accepted(db, evs, m) + 1
    ensures Repeated(db, evs, m + 1) == Repeated(db, evs, m)
    ensures Fanned(db, evs, m + 1)
         == if evs[m].fanOut then Fanned(db, evs, m) + [evs[m].id] else Fanned(db, evs, m)
  {
    assert Repeated(db, evs, m) + [] == Repeated(db, evs, m);
    assert Fanned(db, evs, m) + [] == Fanned(db, evs, m);
  }

  lemma StoreHasEffects(db: Db, evs: seq<Event>, m: nat, b: Batch)
    requires m < |evs| && Effects(db, evs, m, b) && Stores(b.db, evs[m]) && IsNew(db, evs, m) && !Clashes(db, evs, m)
    ensures Effects(db, evs, m + 1, Take(b, evs[m]).value)
  {
    OneRaise(db, evs, m, b);
    StoreTakes(b, evs[m]);
    NewInReply(db, evs, m);
  }

  lemma SkipTakes(db: Db, evs: seq<Event>, m: nat, b: Batch)
    requires m < |evs| && Progress(db, evs, m, b) && !IsNew(db, evs, m)
    ensures Take(b, evs[m]) ==
              Some(if evs[m].supported then b.(duplicates := b.duplicates + [evs[m].id]) else b)
  {
  }

  lemma SkipHasEffects(db: Db, evs: seq<Event>, m: nat, b: Batch)
    requires m < |evs| && Progress(db, evs, m, b) && Effects(db, evs, m, b) && !IsNew(db, evs, m)
    ensures Take(b, evs[m]).Some? && Effects(db, evs, m + 1, Take(b, evs[m]).value)
  {
    SkipTakes(db, evs, m, b);
    assert Raises(db, evs, m + 1) == Raises(db, evs, m);
  }

  lemma {:induction false} PrefixHasEffects(db: Db, evs: seq<Event>, m: nat) returns (b: Batch)
    requires m <= |evs| && forall j | 0 <= j < m :: !Clashes(db, evs, j)
    ensures TakeAll(Batch(db, 0, [], []), evs[..m]) == (b, true) && Progress(db, evs, m, b) && Effects(db, evs, m, b)
    decreases m
  {
    var start := Batch(db, 0, [], []);
    if m == 0 {
      b := start;
      NothingYet(db, evs);
    } else {
      var mid := PrefixHasEffects(db, evs, m - 1);
      TakeProgresses(db, evs, m - 1, mid);
      OneFurther(start, evs, m - 1, mid);
      b := Take(mid, evs[m - 1]).value;
      if IsNew(db, evs, m - 1) {
        StoreHasEffects(db, evs, m - 1, mid);
      } else {
        SkipHasEffects(db, evs, m - 1, mid);
      }
    }
  }

  // ---------------------------------------------------------------- a committed batch

  lemma {:induction false} RaisesIff(db: Db, evs: seq<Event>, m: nat, id: int)
    requires m <= |evs|
    ensures id in Raises(db, evs, m)
            <==> id !in db.status && exists j | 0 <= j < m :: IsNewAlert(db, evs, j) && evs[j].id == id
    decreases m
  {
    if m > 0 {
      RaisesIff(db, evs, m - 1, id);
    }
  }

  /** New events that do not clash have ids of their own, so each is raised once. */
  lemma {:induction false} RaisesAreDistinct(db: Db, evs: seq<Event>, m: nat)
    requires m <= |evs| && forall j | 0 <= j < m :: !Clashes(db, evs, j)
    ensures Distinct(Raises(db, evs, m))
    decreases m
  {
    if m > 0 {
      var before, id := Raises(db, evs, m - 1), evs[m - 1].id;
      RaisesAreDistinct(db, evs, m - 1);
      assert !Clashes(db, evs, m - 1);
      forall i | 0 <= i < |before| && IsNew(db, evs, m - 1) ensures before[i] != id {
        RaisedAreNew(db, evs, m - 1, before[i]);
      }
    }
  }

  lemma {:induction false} RaisedLog(ids: seq<int>, id: int)
    requires Distinct(ids)
    ensures Log(RaisedRows(ids), id) == if id in ids then [Raised] else []
    decreases |ids|
  {
    if ids != [] {
      var init, last := ids[..|ids| - 1], ids[|ids| - 1];
      RaisedLog(init, id);
      OpenedSnoc(map[], init, last);
      assert ids == init + [last] && last !in init;
      assert (RaisedRows(init) + [Entry(last, Raised)])[..|init|] == RaisedRows(init);
    }
  }

  lemma {:induction false} LogConcat(a: seq<Entry>, b: seq<Entry>, id: int)
    ensures Log(a + b, id) == Log(a, id) + Log(b, id)
    decreases |b|
  {
    if b == [] {
      assert a + b == a;
    } else {
      LogConcat(a, b[..|b| - 1], id);
      assert (a + b)[..|a + b| - 1] == a + b[..|b| - 1];
    }
  }

  /** Some new event of the batch raises an alert under this id. */
  ghost predicate Alerts(db: Db, evs: seq<Event>, id: int) {
    exists j | 0 <= j < |evs| :: IsNewAlert(db, evs, j) && evs[j].id == id
  }

  /** What a batch without a clash makes of one escalation. */
  ghost predicate Escalates(db: Db, evs: seq<Event>, after: Db, id: int) {
    && (id in after.status <==> id in db.status || Alerts(db, evs, id))
    && (id in db.status ==> after.status[id] == db.status[id] && Log(after.audit, id) == Log(db.audit, id))
    && (id !in db.status && id in after.status ==>
          after.status[id] == Unacknowledged && Log(after.audit, id) == Log(db.audit, id) + [Raised])
    && (id !in after.status ==> Log(after.audit, id) == Log(db.audit, id))
  }

  /**
   A committed batch: an escalation exists afterwards exactly if it did before or a new event raised an
   alert under its id; each new one is unacknowledged and has exactly one audit row, `raised`, more; the
   others and their audit logs are as they were.
   */
  lemma CommittedBatchEscalates(db: Db, evs: seq<Event>, id: int)
    requires TakeAll(Batch(db, 0, [], []), evs).1
    ensures Escalates(db, evs, TakeAll(Batch(db, 0, [], []), evs).0.db, id)
  {
    CommitsIff(db, evs);
    var b := PrefixHasEffects(db, evs, |evs|);
    assert evs[..|evs|] == evs;
    var ids := Raises(db, evs, |evs|);
    OpenedAt(db.status, ids, id);
    RaisesIff(db, evs, |evs|, id);
    RaisesAreDistinct(db, evs, |evs|);
    RaisedLog(ids, id);
    LogConcat(db.audit, RaisedRows(ids), id);
  }

  /** Its reply counts the new events and names the others that are supported, in order; the alerts go out in order. */
  lemma CommittedBatchReplies(db: Db, evs: seq<Event>)
    requires TakeAll(Batch(db, 0, [], []), evs).1
    ensures var end := TakeAll(Batch(db, 0, [], []), evs).0;
            && end.accepted == Accepted(db, evs, |evs|)
            && end.duplicates == Repeated(db, evs, |evs|)
            && end.published == Fanned(db, evs, |evs|)
            && end.db.events.Keys == db.events.Keys + NewIds(db, evs, |evs|)
  {
    CommitsIff(db, evs);
    var _ := PrefixHasEffects(db, evs, |evs|);
    assert evs[..|evs|] == evs;
  }
}
