/**
 event-store's live subscriptions: a new subscriber is registered first, then replayed the newest stored
 events that match, and only then sent what has been broadcast to it since, less what the replay sent.
 */
module Subscriptions {
  import opened Collections
  import opened Keys
  import opened EventStore

  datatype Subscription = Subscription(types: seq<string>, minSeverity: string, coaches: Option<seq<string>>)

  // ---------------------------------------------------------------- the live filter

  /** A dictionary lookup with a default. */
  function Rank(severity: string, default: int): int {
    if severity == "info" then 0
    else if severity == "warning" then 1
    else if severity == "critical" then 2
    else default
  }

  predicate Matches(sub: Subscription, e: Event) {
    && e.eventType in sub.types
    && Rank(e.severity, -1) >= Rank(sub.minSeverity, 0)
    && (sub.coaches.None? || e.car.None? || e.car.value in sub.coaches.value)
  }

  /** What the handler lets through when a client subscribes. */
  predicate Accepted(sub: Subscription) {
    sub.types != [] && KnownSeverity(sub.minSeverity) && sub.coaches != Some([])
  }

  /** The replay's query; an empty list of types is no filter there. */
  function Query(sub: Subscription): Request {
    Request(None, None, sub.types, Some(sub.minSeverity))
  }

  ghost predicate Replayed(sub: Subscription, e: Event) {
    Wanted(map[], Query(sub), e) && CoachWanted(e, sub.coaches)
  }

  ghost predicate ReplayRuns(sub: Subscription) {
    sub.coaches != Some([]) && Refusal(map[], {}, Query(sub)).None?
  }

  /**
   The replay passes the same events as the live filter exactly for a subscription with a type and a
   severity; with no type it replays every type to a subscriber that gets nothing live, with no severity
   it replays unknown ones.
   */
  lemma ReplayMirrorsLiveIff(sub: Subscription)
    requires ReplayRuns(sub)
    ensures (forall e :: Replayed(sub, e) <==> Matches(sub, e)) <==> sub.types != [] && sub.minSeverity != ""
  {
    var unlike := if sub.types == [] then Event(0, 0, "", "", "critical", None, 1)
                  else Event(0, 0, "", sub.types[0], "", None, 1);
    if sub.types == [] || sub.minSeverity == "" {
      assert Replayed(sub, unlike) && !Matches(sub, unlike);
    }
  }

  lemma AcceptedMirrors(sub: Subscription, e: Event)
    requires Accepted(sub)
    ensures ReplayRuns(sub) && (Replayed(sub, e) <==> Matches(sub, e))
  {
  }

  function MatchingKeys(sub: Subscription, events: map<int, Event>): set<Key> {
    set id | id in events && Matches(sub, events[id]) :: KeyOf(events[id])
  }

  /** So for an accepted subscription the replay sends the last stored events the live path would have sent. */
  lemma ReplayIsTailOfLive(sub: Subscription, events: map<int, Event>)
    requires KeyedById(events) && Accepted(sub)
    ensures CoachListing(events, Query(sub), sub.coaches) == OrderBy(MatchingKeys(sub, events))
  {
    forall id | id in events
      ensures Wanted(events, Query(sub), events[id]) && CoachWanted(events[id], sub.coaches)
         <==> Matches(sub, events[id])
    {
      AcceptedMirrors(sub, events[id]);
    }
    assert CoachKeys(events, Query(sub), sub.coaches) == MatchingKeys(sub, events);
  }

  // ---------------------------------------------------------------- one subscriber among the writers

  const QUEUE_MAX := 256

  const REPLAY_CAP := 1000

  datatype Phase = Absent | Registered | Streaming

  /**
   `ever` is every event stored, `owed` the ids stored and not yet broadcast. History: `due` holds the ids
   replayed or broadcast to the subscriber, `lost` those that met a full queue.
   */
  datatype Sys = Sys(events: map<int, Event>, ever: map<int, Event>, owed: set<int>, phase: Phase,
                     queue: seq<Event>, pending: set<int>, sent: seq<Event>, due: set<int>, lost: set<int>)

  datatype Step =
    | Store(e: Event)
    | Truncate(ids: set<int>)
    | Broadcast(id: int)
    | Register
    | Replay(depth: int)
    | Write

  function IdsOf(es: seq<Event>): (ids: seq<int>)
    ensures |ids| == |es| && forall i | 0 <= i < |es| :: ids[i] == es[i].id
  {
    seq(|es|, i requires 0 <= i < |es| => es[i].id)
  }

  function Depth(requested: int): nat {
    if requested <= 0 then 0 else if requested > REPLAY_CAP then REPLAY_CAP else requested
  }

  ghost function ReplayRows(sub: Subscription, events: map<int, Event>, depth: int): seq<Event>
    requires KeyedById(events)
  {
    var ks := CoachListing(events, Query(sub), sub.coaches);
    assert forall k | k in Last(ks, Depth(depth)) :: k in ks;
    RowsOf(events, Last(ks, Depth(depth)))
  }

  ghost predicate Enabled(s: Sys, step: Step) {
    match step
    case Store(e) => e.id !in s.ever
    case Truncate(_) => true
    case Broadcast(id) => id in s.owed && id in s.ever
    case Register => s.phase == Absent
    case Replay(_) => s.phase == Registered && KeyedById(s.events)
    case Write => s.phase == Streaming && s.queue != []
  }

  ghost function Next(sub: Subscription, s: Sys, step: Step): Sys
    requires Enabled(s, step)
  {
    match step
    case Store(e) => s.(events := s.events[e.id := e], ever := s.ever[e.id := e], owed := s.owed + {e.id})
    case Truncate(ids) => s.(events := s.events - ids)
    case Broadcast(id) =>
      var t := s.(owed := s.owed - {id});
      if s.phase == Absent || !Matches(sub, s.ever[id]) then t
      else if |s.queue| >= QUEUE_MAX then t.(due := s.due + {id}, lost := s.lost + {id})
      else t.(due := s.due + {id}, queue := s.queue + [s.ever[id]])
    case Register => s.(phase := Registered)
    case Replay(depth) =>
      var rows := ReplayRows(sub, s.events, depth);
      var ids := set id | id in IdsOf(rows);
      s.(phase := Streaming, sent := rows, pending := ids, due := s.due + ids)
    case Write =>
      var e, t := s.queue[0], s.(queue := s.queue[1..]);
      if e.id in s.pending then t.(pending := s.pending - {e.id}) else t.(sent := s.sent + [e])
  }

  ghost function Run(sub: Subscription, s: Sys, steps: seq<Step>): Sys
    decreases |steps|
  {
    if steps == [] then s
    else Run(sub, if Enabled(s, steps[0]) then Next(sub, s, steps[0]) else s, steps[1..])
  }

  ghost function Start(events: map<int, Event>): Sys {
    Sys(events, events, {}, Absent, [], {}, [], {}, {})
  }

  // ---------------------------------------------------------------- the invariant

  /** Stored events that match, no two of them the same. */
  ghost predicate Proper(sub: Subscription, ever: map<int, Event>, es: seq<Event>) {
    && Distinct(IdsOf(es))
    && forall e | e in es :: e.id in ever && ever[e.id] == e && Matches(sub, e)
  }

  ghost predicate Stored(s: Sys) {
    && KeyedById(s.ever) && s.owed <= s.ever.Keys
    && forall id | id in s.events :: id in s.ever && s.events[id] == s.ever[id]
  }

  /** What was sent and may come again, by the queue or by a broadcast, is pending. */
  ghost predicate Guarded(s: Sys) {
    && (forall id | id in s.pending :: id in IdsOf(s.sent))
    && (forall id | id in IdsOf(s.queue) || id in s.owed :: id in IdsOf(s.sent) ==> id in s.pending)
    && (forall id | id in IdsOf(s.queue) :: id !in s.owed)
  }

  ghost predicate Phased(s: Sys) {
    && (s.phase == Absent ==> s.queue == [])
    && (s.phase != Streaming ==> s.sent == [] && s.pending == {})
  }

  ghost predicate Served(s: Sys) {
    && (forall id | id in s.due :: id in IdsOf(s.sent) || id in IdsOf(s.queue) || id in s.lost)
    && (forall id | id in IdsOf(s.sent) :: id in s.due)
  }

  ghost predicate Inv(sub: Subscription, s: Sys) {
    && Stored(s) && Phased(s) && Guarded(s) && Served(s)
    && Proper(sub, s.ever, s.queue) && Proper(sub, s.ever, s.sent)
    && forall id | id in IdsOf(s.queue) :: id in s.due
  }

  lemma IdMember(es: seq<Event>, id: int)
    ensures id in IdsOf(es) <==> exists e :: e in es && e.id == id
  {
    if id in IdsOf(es) {
      var i :| 0 <= i < |es| && IdsOf(es)[i] == id;
      assert es[i] in es;
    }
    if e :| e in es && e.id == id {
      var i :| 0 <= i < |es| && es[i] == e;
      assert IdsOf(es)[i] == id;
    }
  }

  lemma IdsSnoc(es: seq<Event>, e: Event)
    ensures IdsOf(es + [e]) == IdsOf(es) + [e.id]
    ensures forall id :: id in IdsOf(es + [e]) <==> id in IdsOf(es) || id == e.id
  {
  }

  lemma ProperSnoc(sub: Subscription, ever: map<int, Event>, es: seq<Event>, e: Event)
    requires Proper(sub, ever, es) && e.id !in IdsOf(es)
    requires e.id in ever && ever[e.id] == e && Matches(sub, e)
    ensures Proper(sub, ever, es + [e])
  {
    IdsSnoc(es, e);
    forall i | 0 <= i < |es| ensures IdsOf(es)[i] != e.id {
      assert IdsOf(es)[i] in IdsOf(es);
    }
  }

  lemma ProperTail(sub: Subscription, ever: map<int, Event>, es: seq<Event>)
    requires Proper(sub, ever, es) && es != []
    ensures Proper(sub, ever, es[1..]) && es[0].id !in IdsOf(es[1..])
    ensures forall id :: id in IdsOf(es) <==> id == es[0].id || id in IdsOf(es[1..])
    ensures es[0] in es
  {
    var ids, rest := IdsOf(es), IdsOf(es[1..]);
    assert ids == [es[0].id] + rest;
    forall i | 0 <= i < |rest| ensures rest[i] != es[0].id {
      assert ids[0] == es[0].id && ids[i + 1] == rest[i];
    }
  }

  lemma ProperRows(sub: Subscription, events: map<int, Event>, ever: map<int, Event>, ks: seq<Key>)
    requires forall id | id in events :: id in ever && events[id] == ever[id]
    requires Ascending(ks)
    requires forall k | k in ks :: k.id in events && k == KeyOf(events[k.id]) && Matches(sub, events[k.id])
    ensures Proper(sub, ever, RowsOf(events, ks))
  {
    var rows := RowsOf(events, ks);
    forall i | 0 <= i < |ks| ensures ks[i] in ks && rows[i].id == ks[i].id {
      assert ks[i] in ks && ks[i] == KeyOf(events[ks[i].id]);
    }
    forall i, j | 0 <= i < j < |ks| ensures ks[i].id != ks[j].id {
      assert Less(ks[i], ks[j]) && ks[i] == KeyOf(rows[i]) && ks[j] == KeyOf(rows[j]);
    }
  }

  lemma LastIsPart(all: seq<Key>, n: nat)
    requires Ascending(all)
    ensures Ascending(Last(all, n)) && forall k | k in Last(all, n) :: k in all
  {
  }

  lemma MatchingAreStored(sub: Subscription, events: map<int, Event>)
    requires KeyedById(events)
    ensures forall k | k in OrderBy(MatchingKeys(sub, events)) ::
              k.id in events && k == KeyOf(events[k.id]) && Matches(sub, events[k.id])
  {
  }

  lemma RowsAreProper(sub: Subscription, events: map<int, Event>, ever: map<int, Event>, depth: int)
    requires Accepted(sub) && KeyedById(events)
    requires forall id | id in events :: id in ever && events[id] == ever[id]
    ensures Proper(sub, ever, ReplayRows(sub, events, depth))
  {
    ReplayIsTailOfLive(sub, events);
    MatchingAreStored(sub, events);
    var all := OrderBy(MatchingKeys(sub, events));
    LastIsPart(all, Depth(depth));
    ProperRows(sub, events, ever, Last(all, Depth(depth)));
  }

  // ---------------------------------------------------------------- every step keeps it

  lemma StoreKeeps(sub: Subscription, s: Sys, e: Event)
    requires Inv(sub, s) && e.id !in s.ever
    ensures Inv(sub, Next(sub, s, Store(e)))
  {
    IdMember(s.queue, e.id);
    IdMember(s.sent, e.id);
  }

  lemma BroadcastKeeps(sub: Subscription, s: Sys, id: int)
    requires Inv(sub, s) && Enabled(s, Broadcast(id))
    ensures Inv(sub, Next(sub, s, Broadcast(id)))
  {
    var e := s.ever[id];
    IdsSnoc(s.queue, e);
    if s.phase != Absent && Matches(sub, e) && |s.queue| < QUEUE_MAX {
      ProperSnoc(sub, s.ever, s.queue, e);
    }
  }

  lemma ReplayKeeps(sub: Subscription, s: Sys, depth: int)
    requires Accepted(sub) && Inv(sub, s) && Enabled(s, Replay(depth))
    ensures Inv(sub, Next(sub, s, Replay(depth)))
  {
    RowsAreProper(sub, s.events, s.ever, depth);
  }

  lemma WriteKeeps(sub: Subscription, s: Sys)
    requires Inv(sub, s) && Enabled(s, Write)
    ensures Inv(sub, Next(sub, s, Write))
  {
    var e := s.queue[0];
    ProperTail(sub, s.ever, s.queue);
    IdsSnoc(s.sent, e);
    if e.id !in s.pending {
      ProperSnoc(sub, s.ever, s.sent, e);
    }
  }

  lemma NextKeeps(sub: Subscription, s: Sys, step: Step)
    requires Accepted(sub) && Inv(sub, s) && Enabled(s, step)
    ensures Inv(sub, Next(sub, s, step))
  {
    match step
    case Store(e) => StoreKeeps(sub, s, e);
    case Truncate(_) =>
    case Broadcast(id) => BroadcastKeeps(sub, s, id);
    case Register =>
    case Replay(depth) => ReplayKeeps(sub, s, depth);
    case Write => WriteKeeps(sub, s);
  }

  lemma {:induction false} RunKeeps(sub: Subscription, s: Sys, steps: seq<Step>)
    requires Accepted(sub) && Inv(sub, s)
    ensures Inv(sub, Run(sub, s, steps))
    decreases |steps|
  {
    if steps != [] {
      if Enabled(s, steps[0]) {
        NextKeeps(sub, s, steps[0]);
        RunKeeps(sub, Next(sub, s, steps[0]), steps[1..]);
      } else {
        RunKeeps(sub, s, steps[1..]);
      }
    }
  }

  // ---------------------------------------------------------------- what a subscriber gets

  /**
   However storing, broadcasting, replaying and writing interleave: no event is sent twice, only stored
   events that match are sent, and each that was replayed or broadcast to the subscriber has been sent,
   still waits in its queue, or met a full queue.
   */
  lemma SentOnce(sub: Subscription, events: map<int, Event>, steps: seq<Step>)
    requires Accepted(sub) && KeyedById(events)
    ensures var s := Run(sub, Start(events), steps);
            && (forall i, j | 0 <= i < j < |s.sent| :: s.sent[i].id != s.sent[j].id)
            && (forall e | e in s.sent :: e.id in s.ever && s.ever[e.id] == e && Matches(sub, e))
            && (forall id | id in s.due ::
                  (exists e | e in s.sent :: e.id == id) || (exists e | e in s.queue :: e.id == id) || id in s.lost)
  {
    RunKeeps(sub, Start(events), steps);
    var s := Run(sub, Start(events), steps);
    forall i, j | 0 <= i < j < |s.sent| ensures s.sent[i].id != s.sent[j].id {
      assert IdsOf(s.sent)[i] != IdsOf(s.sent)[j];
    }
    forall id | id in s.due
      ensures (exists e | e in s.sent :: e.id == id) || (exists e | e in s.queue :: e.id == id) || id in s.lost
    {
      IdMember(s.sent, id);
      IdMember(s.queue, id);
    }
  }

  /** Every event that matches is due, or still to be broadcast. */
  ghost predicate NoGap(sub: Subscription, s: Sys) {
    s.phase != Absent && forall id | id in s.ever && Matches(sub, s.ever[id]) :: id in s.owed || id in s.due
  }

  lemma DeepReplayHas(sub: Subscription, events: map<int, Event>, depth: int, id: int)
    requires Accepted(sub) && KeyedById(events) && |MatchingKeys(sub, events)| <= Depth(depth)
    requires id in events && Matches(sub, events[id])
    ensures id in IdsOf(ReplayRows(sub, events, depth))
  {
    ReplayIsTailOfLive(sub, events);
    MatchingAreStored(sub, events);
    var all := OrderBy(MatchingKeys(sub, events));
    assert Last(all, Depth(depth)) == all;
    assert KeyOf(events[id]) in all;
    RowIsThere(events, all, KeyOf(events[id]));
  }

  lemma RowIsThere(events: map<int, Event>, ks: seq<Key>, k: Key)
    requires KeyedById(events) && (forall x | x in ks :: x.id in events) && k in ks
    ensures k.id in IdsOf(RowsOf(events, ks))
  {
    var i :| 0 <= i < |ks| && ks[i] == k;
    assert IdsOf(RowsOf(events, ks))[i] == k.id;
  }

  lemma ReplayClosesGap(sub: Subscription, s: Sys, depth: int)
    requires Accepted(sub) && Inv(sub, s) && Enabled(s, Replay(depth)) && s.events == s.ever
    requires |MatchingKeys(sub, s.events)| <= Depth(depth)
    ensures NoGap(sub, Next(sub, s, Replay(depth)))
  {
    forall id | id in s.ever && Matches(sub, s.ever[id]) ensures id in IdsOf(ReplayRows(sub, s.events, depth)) {
      DeepReplayHas(sub, s.events, depth, id);
    }
  }

  lemma {:induction false} NoGapStays(sub: Subscription, s: Sys, steps: seq<Step>)
    requires NoGap(sub, s)
    ensures NoGap(sub, Run(sub, s, steps))
    decreases |steps|
  {
    if steps != [] {
      NoGapStays(sub, if Enabled(s, steps[0]) then Next(sub, s, steps[0]) else s, steps[1..]);
    }
  }

  /**
   Registering before replaying leaves no gap: if the replay was deep enough for what was stored and
   nothing had been truncated, then once everything is broadcast and the queue is written the subscriber
   has been sent every event that matches, whenever it was stored, but for those that met a full queue.
   */
  lemma NothingIsMissed(sub: Subscription, s: Sys, depth: int, steps: seq<Step>, id: int)
    requires Accepted(sub) && Inv(sub, s) && Enabled(s, Replay(depth)) && s.events == s.ever
    requires |MatchingKeys(sub, s.events)| <= Depth(depth)
    requires var t := Run(sub, Next(sub, s, Replay(depth)), steps); t.owed == {} && t.queue == []
    ensures var t := Run(sub, Next(sub, s, Replay(depth)), steps);
            id in t.ever && Matches(sub, t.ever[id]) ==> t.ever[id] in t.sent || id in t.lost
  {
    ReplayClosesGap(sub, s, depth);
    ReplayKeeps(sub, s, depth);
    RunKeeps(sub, Next(sub, s, Replay(depth)), steps);
    NoGapStays(sub, Next(sub, s, Replay(depth)), steps);
    var t := Run(sub, Next(sub, s, Replay(depth)), steps);
    if id in t.ever && Matches(sub, t.ever[id]) {
      IdMember(t.sent, id);
    }
  }
}
