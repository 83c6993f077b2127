/**
 The queue drains: what the publisher's rounds and one acknowledgement leave in the queue when nothing
 fails and nothing new is pulled.
 */
module Drain {
  import opened Collections
  import opened Keys
  import opened Queue
  import opened SyncProtocol

  // ---------------------------------------------------------------- one acknowledgement

  /** The walk ends at `p`: what is left past it starts with a pending row, or nothing is left. */
  lemma PrefixIsUsedUp(rows: map<int, Row>, after: map<int, Row>, id: int)
    requires PublishedPrefix(rows) == Some(id) && id in rows
    requires forall i | i in after :: i in rows && after[i] == rows[i]
    requires AllKeys(after) == AllKeys(rows) - Confirmed(rows, id)
    ensures PublishedPrefix(after).None?
  {
    var ks := OrderBy(AllKeys(rows));
    WalkFinds(rows, ks, None);
    var p :| p in ks && PublishedPrefix(rows) == Some(p.id) && EndsRun(rows, ks, p);
    assert p == RowKey(rows, id);
    PrefixIsSafe(after);
    if AllKeys(after) != {} {
      NextIsPending(rows, after, ks, p, Least(AllKeys(after)));
    }
  }

  lemma GapIsKept(rows: map<int, Row>, after: map<int, Row>, ks: seq<Key>, p: Key, k: Key) returns (g: Key)
    requires forall x :: x in ks <==> x in AllKeys(rows)
    requires EndsRun(rows, ks, p) && AllKeys(after) == AllKeys(rows) - Confirmed(rows, p.id)
    requires k in ks && rows[k.id].published && Less(p, k)
    ensures g in AllKeys(after) && Less(g, k)
  {
    g :| g in ks && Less(g, k) && !rows[g.id].published;
    assert g in AllKeys(rows) && g !in Published(rows);
  }

  lemma NextIsPending(rows: map<int, Row>, after: map<int, Row>, ks: seq<Key>, p: Key, least: Key)
    requires forall k :: k in ks <==> k in AllKeys(rows)
    requires EndsRun(rows, ks, p) && p.id in rows && p == RowKey(rows, p.id)
    requires forall i | i in after :: i in rows && after[i] == rows[i]
    requires AllKeys(after) == AllKeys(rows) - Confirmed(rows, p.id)
    requires least in AllKeys(after) && forall k | k in AllKeys(after) :: AtMost(least, k)
    ensures !after[least.id].published
  {
    if rows[least.id].published {
      assert least in Published(rows);
      var _ := GapIsKept(rows, after, ks, p, least);
    }
  }

  lemma ClearsThePrefix(db: Db, id: int)
    requires PublishedPrefix(db.rows) == Some(id) && id in db.rows
    ensures var after := DeleteAcked(db.(acked := Some(id)), id);
            && PublishedPrefix(after.rows).None? && after.acked == Some(id)
            && (forall i | i in after.rows :: i in db.rows && after.rows[i] == db.rows[i])
            && AllKeys(after.rows) ==
               Pending(db.rows) + (set k | k in Published(db.rows) && Less(RowKey(db.rows, id), k))
  {
    DeletesThePrefix(db.(acked := Some(id)), id);
    PrefixIsUsedUp(db.rows, DeleteAcked(db.(acked := Some(id)), id).rows, id);
  }

  lemma AckSteps(cfg: Config, s: Sys, outcome: Outcome)
    requires Enabled(cfg, s, AckSend) && !outcome.Failed?
    requires Target(PublishedPrefix(s.db.rows).value, outcome) == PublishedPrefix(s.db.rows).value
    ensures var id, t := PublishedPrefix(s.db.rows).value, Next(cfg, Next(cfg, s, AckSend), AckReply(outcome));
            t == s.(db := DeleteAcked(s.db.(acked := Some(id)), id), sent := t.sent)
  {
  }

  /**
   An acknowledgement of the cursor just sent uses the published prefix up: what is pending stays, what
   was published past a pending row stays, and there is nothing more to acknowledge.
   */
  lemma AckClearsThePrefix(cfg: Config, s: Sys, outcome: Outcome)
    requires Enabled(cfg, s, AckSend)
    requires outcome == Drift || outcome == Acked(PublishedPrefix(s.db.rows).value)
    ensures var id := PublishedPrefix(s.db.rows).value;
            var t := Next(cfg, Next(cfg, s, AckSend), AckReply(outcome));
            && PublishedPrefix(t.db.rows).None? && t.db.acked == Some(id) && t.ack == AckIdle
            && (forall i | i in t.db.rows :: i in s.db.rows && t.db.rows[i] == s.db.rows[i])
            && AllKeys(t.db.rows) ==
               Pending(s.db.rows) + (set k | k in Published(s.db.rows) && Less(RowKey(s.db.rows, id), k))
  {
    AckSteps(cfg, s, outcome);
    ClearsThePrefix(s.db, PublishedPrefix(s.db.rows).value);
  }

  // ---------------------------------------------------------------- the publisher's rounds

  function PubAcks(n: nat): seq<Step> {
    if n == 0 then [] else [PublishOk] + PubAcks(n - 1)
  }

  /** One pass of the publisher in which the broker takes everything. */
  function Round(limit: nat): seq<Step> {
    [FetchBatch] + PubAcks(limit)
  }

  function Rounds(limit: nat, n: nat): seq<Step> {
    if n == 0 then [] else Round(limit) + Rounds(limit, n - 1)
  }

  ghost function Members(ks: seq<Key>): set<Key> {
    set k | k in ks
  }

  /** `t` differs from `s` in the queue's published marks and the PUBACKs received only. */
  ghost predicate OnlyPublishes(s: Sys, t: Sys) {
    && t == s.(db := t.db, acks := t.acks, batch := t.batch)
    && t.db == s.db.(rows := t.db.rows)
    && AllKeys(t.db.rows) == AllKeys(s.db.rows)
  }

  lemma {:induction false} BatchIsPublished(cfg: Config, s: Sys, n: nat)
    requires n >= |s.batch| && forall b | b in s.batch :: b in Pending(s.db.rows)
    requires Ascending(s.batch)
    ensures var t := Run(cfg, s, PubAcks(n));
            && OnlyPublishes(s, t) && t.batch == [] && Pending(t.db.rows) == Pending(s.db.rows) - Members(s.batch)
    decreases n
  {
    if n > 0 {
      assert PubAcks(n)[1..] == PubAcks(n - 1);
      if s.batch == [] {
        BatchIsPublished(cfg, s, n - 1);
      } else {
        var t := Next(cfg, s, PublishOk);
        HeadIsPublished(s.db, s.batch);
        BatchIsPublished(cfg, t, n - 1);
      }
    }
  }

  lemma HeadIsPublished(db: Db, batch: seq<Key>)
    requires batch != [] && Ascending(batch) && forall b | b in batch :: b in Pending(db.rows)
    ensures var after := MarkPublished(db, batch[0].id).rows;
            && AllKeys(after) == AllKeys(db.rows) && Ascending(batch[1..])
            && (forall b | b in batch[1..] :: b in Pending(after))
            && Pending(after) - Members(batch[1..]) == Pending(db.rows) - Members(batch)
  {
    var h, rest := batch[0], batch[1..];
    MarkedRows(db.rows, db, h.id);
    assert batch == [h] + rest && h in batch;
    forall k | k in Pending(db.rows) && k.id == h.id ensures k == h {
      assert k == RowKey(db.rows, k.id) && h == RowKey(db.rows, h.id);
    }
    forall b | b in rest ensures b in batch && b != h {
      HeadIsLess(batch, b);
    }
  }

  lemma RoundFetches(cfg: Config, s: Sys)
    requires s.batch == []
    ensures Run(cfg, s, Round(cfg.publishLimit))
         == Run(cfg, s.(batch := Limit(OrderBy(Pending(s.db.rows)), cfg.publishLimit)), PubAcks(cfg.publishLimit))
  {
    assert Round(cfg.publishLimit)[1..] == PubAcks(cfg.publishLimit);
  }

  /** A round publishes exactly the oldest pending rows, up to the limit. */
  lemma RoundPublishesTheOldest(cfg: Config, s: Sys)
    requires s.batch == []
    ensures var t := Run(cfg, s, Round(cfg.publishLimit));
            && OnlyPublishes(s, t) && t.batch == []
            && Pending(t.db.rows) == Pending(s.db.rows) - Members(Limit(OrderBy(Pending(s.db.rows)), cfg.publishLimit))
  {
    var batch := Limit(OrderBy(Pending(s.db.rows)), cfg.publishLimit);
    assert forall b | b in batch :: b in OrderBy(Pending(s.db.rows));
    RoundFetches(cfg, s);
    BatchIsPublished(cfg, s.(batch := batch), cfg.publishLimit);
  }

  lemma RoundMakesProgress(pending: set<Key>, limit: nat)
    requires limit > 0 && pending != {}
    ensures |pending - Members(Limit(OrderBy(pending), limit))| < |pending|
  {
    var batch := Limit(OrderBy(pending), limit);
    assert |OrderBy(pending)| > 0;
    assert batch[0] in batch && batch[0] in OrderBy(pending);
    var left := pending - Members(batch);
    assert left <= pending - {batch[0]};
    SubsetSize(left, pending - {batch[0]});
  }

  lemma PublishesOn(s: Sys, t: Sys, u: Sys)
    requires OnlyPublishes(s, t) && OnlyPublishes(t, u)
    ensures OnlyPublishes(s, u)
  {
  }

  lemma RoundThenRest(cfg: Config, s: Sys, n: nat)
    requires n > 0
    ensures Run(cfg, s, Rounds(cfg.publishLimit, n))
         == Run(cfg, Run(cfg, s, Round(cfg.publishLimit)), Rounds(cfg.publishLimit, n - 1))
  {
    RunConcat(cfg, s, Round(cfg.publishLimit), Rounds(cfg.publishLimit, n - 1));
  }

  lemma OneRound(cfg: Config, s: Sys, n: nat) returns (t: Sys)
    requires s.batch == [] && cfg.publishLimit > 0 && n > 0
    ensures OnlyPublishes(s, t) && t.batch == []
    ensures |Pending(t.db.rows)| <= if Pending(s.db.rows) == {} then 0 else |Pending(s.db.rows)| - 1
    ensures Run(cfg, s, Rounds(cfg.publishLimit, n)) == Run(cfg, t, Rounds(cfg.publishLimit, n - 1))
  {
    t := Run(cfg, s, Round(cfg.publishLimit));
    RoundPublishesTheOldest(cfg, s);
    RoundThenRest(cfg, s, n);
    if Pending(s.db.rows) != {} {
      RoundMakesProgress(Pending(s.db.rows), cfg.publishLimit);
    }
  }

  /** As many rounds as there are pending rows publish them all, whatever the batch size. */
  lemma {:induction false} RoundsPublishAll(cfg: Config, s: Sys, n: nat)
    requires s.batch == [] && cfg.publishLimit > 0 && n >= |Pending(s.db.rows)|
    ensures var t := Run(cfg, s, Rounds(cfg.publishLimit, n));
            OnlyPublishes(s, t) && t.batch == [] && Pending(t.db.rows) == {}
    decreases n
  {
    if n > 0 {
      var t := OneRound(cfg, s, n);
      RoundsPublishAll(cfg, t, n - 1);
      PublishesOn(s, t, Run(cfg, t, Rounds(cfg.publishLimit, n - 1)));
    }
  }

  // ---------------------------------------------------------------- the whole queue

  /** The row the ack loop sends once everything is published. */
  function Newest(rows: map<int, Row>): Option<int> {
    if AllKeys(rows) == {} then None else Some(Greatest(AllKeys(rows)).id)
  }

  lemma AllPublished(rows: map<int, Row>)
    requires Pending(rows) == {}
    ensures PublishedPrefix(rows) == Newest(rows)
    ensures Newest(rows).Some? ==> Newest(rows).value in rows && Confirmed(rows, Newest(rows).value) == AllKeys(rows)
  {
    TwoQueriesRefineWalk(rows);
    assert AllKeys(rows) == Pending(rows) + Published(rows);
    assert AllKeys(rows) == Published(rows);
    if AllKeys(rows) != {} {
      NewestConfirmsAll(rows, Greatest(AllKeys(rows)));
    }
  }

  lemma NewestConfirmsAll(rows: map<int, Row>, g: Key)
    requires AllKeys(rows) == Published(rows) && g in AllKeys(rows) && forall k | k in AllKeys(rows) :: AtMost(k, g)
    ensures g.id in rows && Confirmed(rows, g.id) == AllKeys(rows)
  {
    assert g == RowKey(rows, g.id);
  }

  lemma SameNewest(a: map<int, Row>, b: map<int, Row>)
    requires AllKeys(a) == AllKeys(b)
    ensures Newest(a) == Newest(b)
  {
  }

  lemma AckRuns(cfg: Config, s: Sys, outcome: Outcome)
    requires s.ack == AckIdle
    ensures Run(cfg, s, [AckSend, AckReply(outcome)])
         == if Enabled(cfg, s, AckSend) then Next(cfg, Next(cfg, s, AckSend), AckReply(outcome)) else s
  {
    var t := Run(cfg, s, [AckSend]);
    OneStep(cfg, s, AckSend);
    OneStep(cfg, t, AckReply(outcome));
    RunConcat(cfg, s, [AckSend], [AckReply(outcome)]);
    assert [AckSend] + [AckReply(outcome)] == [AckSend, AckReply(outcome)];
    AwaitsIff(cfg, s);
  }

  lemma AwaitsIff(cfg: Config, s: Sys)
    requires s.ack == AckIdle
    ensures (if Enabled(cfg, s, AckSend) then Next(cfg, s, AckSend) else s).ack.Awaiting? <==> Enabled(cfg, s, AckSend)
  {
  }

  lemma OneStep(cfg: Config, s: Sys, step: Step)
    ensures Run(cfg, s, [step]) == if Enabled(cfg, s, step) then Next(cfg, s, step) else s
  {
    assert [step][1..] == [];
  }

  /** The last acknowledgement, when nothing is pending. */
  lemma LastAck(cfg: Config, s: Sys, outcome: Outcome)
    requires s.ack == AckIdle && Pending(s.db.rows) == {}
    requires outcome == Drift || (outcome.Acked? && Some(outcome.id) == Newest(s.db.rows))
    ensures var t := Run(cfg, s, [AckSend, AckReply(outcome)]);
            AllKeys(t.db.rows) == if s.db.acked == Newest(s.db.rows) then AllKeys(s.db.rows) else {}
  {
    AllPublished(s.db.rows);
    AckRuns(cfg, s, outcome);
    if Enabled(cfg, s, AckSend) {
      var id := Newest(s.db.rows).value;
      AckSteps(cfg, s, outcome);
      KeptKeys(s.db.(acked := Some(id)), id);
    }
  }

  /**
   Once no more is pulled, publishing everything and one acknowledgement empty the queue: exactly
   unless its newest row is one the cursor row already calls acknowledged.
   */
  lemma QueueEmptiesIff(cfg: Config, s: Sys, n: nat, outcome: Outcome)
    requires s.batch == [] && s.ack == AckIdle && cfg.publishLimit > 0 && n >= |Pending(s.db.rows)|
    requires outcome == Drift || (outcome.Acked? && Some(outcome.id) == Newest(s.db.rows))
    ensures var t := Run(cfg, s, Rounds(cfg.publishLimit, n) + [AckSend, AckReply(outcome)]);
            AllKeys(t.db.rows) == {} <==> AllKeys(s.db.rows) == {} || s.db.acked != Newest(s.db.rows)
  {
    var t := Run(cfg, s, Rounds(cfg.publishLimit, n));
    RunConcat(cfg, s, Rounds(cfg.publishLimit, n), [AckSend, AckReply(outcome)]);
    RoundsPublishAll(cfg, s, n);
    SameNewest(s.db.rows, t.db.rows);
    LastAck(cfg, t, outcome);
  }

  /**
   That happens: a crash after the cursor row was written and before the rows were deleted leaves them
   acknowledged, and no later tick deletes them until the published prefix ends in another row.
   */
  lemma AckCrashLeavesRows(cfg: Config, s: Sys, outcome: Outcome)
    requires Enabled(cfg, s, AckSend)
    requires outcome == Drift || outcome == Acked(PublishedPrefix(s.db.rows).value)
    ensures var t := Next(cfg, Next(cfg, s, AckSend), AckCrash(outcome));
            && t.db.rows == s.db.rows && t.db.acked == PublishedPrefix(t.db.rows)
            && !Enabled(cfg, t, AckSend)
  {
    CrashSteps(cfg, s, outcome);
  }

  lemma CrashSteps(cfg: Config, s: Sys, outcome: Outcome)
    requires Enabled(cfg, s, AckSend) && !outcome.Failed?
    requires Target(PublishedPrefix(s.db.rows).value, outcome) == PublishedPrefix(s.db.rows).value
    ensures Next(cfg, Next(cfg, s, AckSend), AckCrash(outcome)).db == s.db.(acked := PublishedPrefix(s.db.rows))
  {
  }
}
