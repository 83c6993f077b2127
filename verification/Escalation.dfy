/**
 Escalations on the backend: raised by ingest, acknowledged, resolved or silently dismissed by
 requests that read the status and then write under a guard, with an append-only audit log.
 */
module Escalation {
  import opened Keys

  datatype Status = Unacknowledged | Acknowledged | Resolved

  datatype Transition = Raised | Dismissed | Acked | Closed

  datatype Entry = Entry(id: int, transition: Transition)

  /** `naturalKey` stands for (journey, type, source, source time); `fanOut` for an alert class that is not filtered. */
  datatype Event = Event(id: int, naturalKey: int, supported: bool, alertRaised: bool, complete: bool, fanOut: bool)

  datatype Db = Db(events: map<int, int>, status: map<int, Status>, audit: seq<Entry>)

  const EMPTY := Db(map[], map[], [])

  // ---------------------------------------------------------------- guarded writes

  function Raise(db: Db, id: int): Db {
    if id in db.status then db
    else db.(status := db.status[id := Unacknowledged], audit := db.audit + [Entry(id, Raised)])
  }

  predicate Has(db: Db, id: int, s: Status) {
    id in db.status && db.status[id] == s
  }

  datatype Kind = Acknowledge | Resolve | Dismiss

  /** The status a write requires, the one it leaves, and the row it appends. */
  function Guard(k: Kind): Status {
    if k == Resolve then Acknowledged else Unacknowledged
  }

  function Leaves(k: Kind): Status {
    match k case Acknowledge => Acknowledged case Resolve => Resolved case Dismiss => Unacknowledged
  }

  function Records(k: Kind): Transition {
    match k case Acknowledge => Acked case Resolve => Closed case Dismiss => Dismissed
  }

  function Write(db: Db, k: Kind, id: int): Db {
    if Has(db, id, Guard(k))
    then db.(status := db.status[id := Leaves(k)], audit := db.audit + [Entry(id, Records(k))])
    else db
  }

  datatype Answer = NotFound | Conflict | Unprocessable | Reported(status: Status) | NoContent | Proceed

  /** What a request does with the status it read. */
  function Decide(db: Db, k: Kind, id: int, tagsValid: bool): (a: Answer)
    ensures a == NotFound <==> id !in db.status
    ensures a == Proceed <==> Has(db, id, Guard(k)) && (k == Resolve ==> tagsValid)
    ensures Has(db, id, Unacknowledged) ==> a == if k == Resolve then Conflict else Proceed
    ensures k == Acknowledge && id in db.status && !Has(db, id, Unacknowledged) ==> a == Reported(Acknowledged)
    ensures k == Dismiss && id in db.status && !Has(db, id, Unacknowledged) ==> a == NoContent
    ensures k == Resolve && Has(db, id, Acknowledged) ==> a == if tagsValid then Proceed else Unprocessable
    ensures k == Resolve && Has(db, id, Resolved) ==> a == if tagsValid then Reported(Resolved) else Unprocessable
  {
    if id !in db.status then NotFound
    else
      var s := db.status[id];
      match k
      case Acknowledge => if s == Unacknowledged then Proceed else Reported(Acknowledged)
      case Resolve =>
        if s == Unacknowledged then Conflict
        else if !tagsValid then Unprocessable
        else if s == Acknowledged then Proceed else Reported(Resolved)
      case Dismiss => if s == Unacknowledged then Proceed else NoContent
  }

  // ---------------------------------------------------------------- ingest

  function StoredKeys(events: map<int, int>): set<int> {
    set i | i in events :: events[i]
  }

  predicate Duplicate(db: Db, ev: Event) {
    ev.naturalKey in StoredKeys(db.events)
  }

  /** Stores a new event; None is the primary-key violation that fails the request. */
  function IngestOne(db: Db, ev: Event): Option<Db> {
    if !ev.supported || Duplicate(db, ev) then Some(db)
    else if ev.id in db.events then None
    else
      var stored := db.(events := db.events[ev.id := ev.naturalKey]);
      Some(if ev.alertRaised && ev.complete then Raise(stored, ev.id) else stored)
  }

  predicate Stores(db: Db, ev: Event) {
    ev.supported && !Duplicate(db, ev) && ev.id !in db.events
  }

  datatype Batch = Batch(db: Db, accepted: nat, duplicates: seq<int>, published: seq<int>)

  function Take(b: Batch, ev: Event): Option<Batch> {
    var next := IngestOne(b.db, ev);
    if next.None? then None
    else
      Some(Batch(next.value, b.accepted + (if Stores(b.db, ev) then 1 else 0),
                 if ev.supported && Duplicate(b.db, ev) then b.duplicates + [ev.id] else b.duplicates,
                 if Stores(b.db, ev) && ev.fanOut then b.published + [ev.id] else b.published))
  }

  /** How far a batch gets: its state after the events before the first failure, if there is one. */
  function TakeAll(b: Batch, evs: seq<Event>): (Batch, bool)
    decreases |evs|
  {
    if evs == [] then (b, true)
    else
      var next := Take(b, evs[0]);
      if next.None? then (b, false) else TakeAll(next.value, evs[1..])
  }

  class Backend {
    var db: Db
    var alerts: seq<int>

    constructor ()
      ensures db == EMPTY && alerts == []
    {
      db, alerts := EMPTY, [];
    }

    /** One transaction for the whole batch; alerts go out as the loop reaches them, before the commit. */
    method IngestEvents(evs: seq<Event>) returns (r: Option<(nat, seq<int>)>)
      modifies this
      ensures var (end, ok) := TakeAll(Batch(old(db), 0, [], []), evs);
              && db == (if ok then end.db else old(db))
              && r == (if ok then Some((end.accepted, end.duplicates)) else None)
              && alerts == old(alerts) + end.published
    {
      var work := Batch(db, 0, [], []);
      for i := 0 to |evs|
        invariant TakeAll(Batch(old(db), 0, [], []), evs) == TakeAll(work, evs[i..])
        invariant db == old(db) && alerts == old(alerts) + work.published
      {
        assert evs[i..][0] == evs[i] && evs[i..][1..] == evs[i + 1..];
        var ev := evs[i];
        ghost var before := work;
        if !ev.supported {
          assert Take(before, ev) == Some(work);
          continue;
        }
        if Duplicate(work.db, ev) {
          work := work.(duplicates := work.duplicates + [ev.id]);
          assert Take(before, ev) == Some(work);
          continue;
        }
        if ev.id in work.db.events {
          return None;
        }
        var stored := work.db.(events := work.db.events[ev.id := ev.naturalKey]);
        if ev.alertRaised && ev.complete {
          stored := Raise(stored, ev.id);
        }
        if ev.fanOut {
          alerts := alerts + [ev.id];
        }
        work := Batch(stored, work.accepted + 1, work.duplicates,
                      if ev.fanOut then work.published + [ev.id] else work.published);
        assert Take(before, ev) == Some(work);
      }
      db := work.db;
      return Some((work.accepted, work.duplicates));
    }

    /** UPDATE ... WHERE status = ..., then the audit row when a row was updated, then COMMIT. */
    method GuardedWrite(k: Kind, id: int) returns (rows: nat)
      modifies this`db
      ensures db == Write(old(db), k, id)
      ensures rows == if Has(old(db), id, Guard(k)) then 1 else 0
    {
      rows := 0;
      if id in db.status && db.status[id] == Guard(k) {
        rows := 1;
        db := db.(status := db.status[id := Leaves(k)]);
        db := db.(audit := db.audit + [Entry(id, Records(k))]);
      }
    }
  }

  /** A response accounts for every supported event of the batch. */
  lemma {:induction false} EveryEventIsAccountedFor(b: Batch, evs: seq<Event>)
    requires TakeAll(b, evs).1
    ensures var end := TakeAll(b, evs).0;
            end.accepted + |end.duplicates| == b.accepted + |b.duplicates| + Supported(evs)
    decreases |evs|
  {
    if evs != [] {
      EveryEventIsAccountedFor(Take(b, evs[0]).value, evs[1..]);
    }
  }

  function Supported(evs: seq<Event>): nat {
    if evs == [] then 0 else (if evs[0].supported then 1 else 0) + Supported(evs[1..])
  }

  // ---------------------------------------------------------------- which batches fail, told from the request

  /** The natural keys of the supported events among the first `m`. */
  function KeysBefore(evs: seq<Event>, m: nat): set<int>
    requires m <= |evs|
  {
    if m == 0 then {} else KeysBefore(evs, m - 1) + if evs[m - 1].supported then {evs[m - 1].naturalKey} else {}
  }

  /** The j-th event is new: supported, and no stored or earlier supported event has its natural key. */
  predicate IsNew(db: Db, evs: seq<Event>, j: nat)
    requires j < |evs|
  {
    evs[j].supported && evs[j].naturalKey !in StoredKeys(db.events) + KeysBefore(evs, j)
  }

  /** The ids of the new events among the first `m`. */
  function NewIds(db: Db, evs: seq<Event>, m: nat): set<int>
    requires m <= |evs|
  {
    if m == 0 then {} else NewIds(db, evs, m - 1) + if IsNew(db, evs, m - 1) then {evs[m - 1].id} else {}
  }

  /** A new event whose id is stored already or was an earlier new event's: a primary-key violation. */
  predicate Clashes(db: Db, evs: seq<Event>, j: nat)
    requires j < |evs|
  {
    IsNew(db, evs, j) && evs[j].id in db.events.Keys + NewIds(db, evs, j)
  }

  /** Of these, the ids of events of an alert class. */
  function FannedIds(db: Db, evs: seq<Event>, m: nat): set<int>
    requires m <= |evs|
  {
    if m == 0 then {}
    else FannedIds(db, evs, m - 1) + if IsNew(db, evs, m - 1) && evs[m - 1].fanOut then {evs[m - 1].id} else {}
  }

  /** What the loop has made of the first `m` events, said without the loop. */
  ghost predicate Progress(db: Db, evs: seq<Event>, m: nat, b: Batch)
    requires m <= |evs|
  {
    && b.db.events.Keys == db.events.Keys + NewIds(db, evs, m)
    && StoredKeys(b.db.events) == StoredKeys(db.events) + KeysBefore(evs, m)
    && (set id | id in b.published) == FannedIds(db, evs, m)
  }

  lemma InsertKeys(events: map<int, int>, id: int, key: int)
    requires id !in events
    ensures events[id := key].Keys == events.Keys + {id} && StoredKeys(events[id := key]) == StoredKeys(events) + {key}
  {
    var t := events[id := key];
    forall v | v in StoredKeys(events) ensures v in StoredKeys(t) {
      var i :| i in events && events[i] == v;
      assert t[i] == v;
    }
    assert t[id] == key;
  }

  lemma StoredEvents(db: Db, ev: Event)
    requires Stores(db, ev)
    ensures IngestOne(db, ev).value.events == db.events[ev.id := ev.naturalKey]
  {
  }

  lemma PublishedSnoc(published: seq<int>, id: int)
    ensures (set x | x in published + [id]) == (set x | x in published) + {id}
  {
  }

  /** A new event that does not clash is stored and, if it is of an alert class, announced. */
  lemma StoreProgresses(db: Db, evs: seq<Event>, m: nat, b: Batch)
    requires m < |evs| && Progress(db, evs, m, b) && Stores(b.db, evs[m]) && IsNew(db, evs, m)
    ensures Progress(db, evs, m + 1, Take(b, evs[m]).value)
  {
    StoredEvents(b.db, evs[m]);
    InsertKeys(b.db.events, evs[m].id, evs[m].naturalKey);
    PublishedSnoc(b.published, evs[m].id);
  }

  /** Any other event that does not fail the batch leaves both tables and the alerts alone. */
  lemma SkipProgresses(db: Db, evs: seq<Event>, m: nat, b: Batch)
    requires m < |evs| && Progress(db, evs, m, b) && !IsNew(db, evs, m)
    ensures Take(b, evs[m]).Some? && Progress(db, evs, m + 1, Take(b, evs[m]).value)
  {
  }

  lemma TakeProgresses(db: Db, evs: seq<Event>, m: nat, b: Batch)
    requires m < |evs| && Progress(db, evs, m, b)
    ensures Take(b, evs[m]).None? <==> Clashes(db, evs, m)
    ensures Take(b, evs[m]).Some? ==> Progress(db, evs, m + 1, Take(b, evs[m]).value)
  {
    if !IsNew(db, evs, m) {
      SkipProgresses(db, evs, m, b);
    } else if !Clashes(db, evs, m) {
      StoreProgresses(db, evs, m, b);
    }
  }

  lemma TakeAllSnoc(b: Batch, evs: seq<Event>, ev: Event)
    ensures var (mid, ok) := TakeAll(b, evs);
            TakeAll(b, evs + [ev])
            == (if !ok then (mid, false)
                else if Take(mid, ev).None? then (mid, false)
                else (Take(mid, ev).value, true))
    decreases |evs|
  {
    if evs == [] {
      assert ([] + [ev])[1..] == [];
    } else {
      assert (evs + [ev])[1..] == evs[1..] + [ev];
      if Take(b, evs[0]).Some? {
        TakeAllSnoc(Take(b, evs[0]).value, evs[1..], ev);
      }
    }
  }

  lemma {:induction false} FailureSticks(b: Batch, evs: seq<Event>, more: seq<Event>)
    requires !TakeAll(b, evs).1
    ensures TakeAll(b, evs + more) == TakeAll(b, evs)
    decreases |evs|
  {
    if evs != [] {
      assert (evs + more)[1..] == evs[1..] + more;
      if Take(b, evs[0]).Some? {
        FailureSticks(Take(b, evs[0]).value, evs[1..], more);
      }
    }
  }

  /** The loop, one event further: it goes on, or it is over for the whole batch. */
  lemma OneFurther(start: Batch, evs: seq<Event>, m: nat, b: Batch)
    requires m < |evs| && TakeAll(start, evs[..m]) == (b, true)
    ensures Take(b, evs[m]).Some? ==> TakeAll(start, evs[..m + 1]) == (Take(b, evs[m]).value, true)
    ensures Take(b, evs[m]).None? ==> TakeAll(start, evs) == (b, false)
  {
    TakeAllSnoc(start, evs[..m], evs[m]);
    assert evs[..m + 1] == evs[..m] + [evs[m]];
    if Take(b, evs[m]).None? {
      FailureSticks(start, evs[..m + 1], evs[m + 1..]);
      assert evs == evs[..m + 1] + evs[m + 1..];
    }
  }

  lemma NothingYet(db: Db, evs: seq<Event>)
    ensures Progress(db, evs, 0, Batch(db, 0, [], []))
  {
  }

  /** Before the first clash the loop goes through. */
  lemma {:induction false} PrefixProgresses(db: Db, evs: seq<Event>, m: nat) returns (b: Batch)
    requires m <= |evs| && forall j | 0 <= j < m :: !Clashes(db, evs, j)
    ensures TakeAll(Batch(db, 0, [], []), evs[..m]) == (b, true) && Progress(db, evs, m, b)
    decreases m
  {
    var start := Batch(db, 0, [], []);
    if m == 0 {
      b := start;
      NothingYet(db, evs);
    } else {
      var mid := PrefixProgresses(db, evs, m - 1);
      TakeProgresses(db, evs, m - 1, mid);
      OneFurther(start, evs, m - 1, mid);
      b := Take(mid, evs[m - 1]).value;
    }
  }

  lemma FirstClashEnds(db: Db, evs: seq<Event>, f: nat) returns (b: Batch)
    requires f < |evs| && Clashes(db, evs, f) && forall j | 0 <= j < f :: !Clashes(db, evs, j)
    ensures TakeAll(Batch(db, 0, [], []), evs) == (b, false) && Progress(db, evs, f, b)
  {
    b := PrefixProgresses(db, evs, f);
    TakeProgresses(db, evs, f, b);
    OneFurther(Batch(db, 0, [], []), evs, f, b);
  }

  /** The index of the first clash among the first `m` events, or `m`. */
  function FirstClash(db: Db, evs: seq<Event>, m: nat): (f: nat)
    requires m <= |evs|
    ensures f <= m && (f < m ==> Clashes(db, evs, f)) && forall j | 0 <= j < f :: !Clashes(db, evs, j)
  {
    if m == 0 then 0
    else
      var f := FirstClash(db, evs, m - 1);
      if f == m - 1 && !Clashes(db, evs, f) then m else f
  }

  /** A batch commits exactly when no event of it clashes. */
  lemma CommitsIff(db: Db, evs: seq<Event>)
    ensures TakeAll(Batch(db, 0, [], []), evs).1 <==> forall j | 0 <= j < |evs| :: !Clashes(db, evs, j)
  {
    var f := FirstClash(db, evs, |evs|);
    if f < |evs| {
      var _ := FirstClashEnds(db, evs, f);
    } else {
      var _ := PrefixProgresses(db, evs, |evs|);
      assert evs[..|evs|] == evs;
    }
  }

  lemma {:induction false} NewBeforeClashIsUnstored(db: Db, evs: seq<Event>, f: nat)
    requires f <= |evs| && forall j | 0 <= j < f :: !Clashes(db, evs, j)
    ensures FannedIds(db, evs, f) !! db.events.Keys && FannedIds(db, evs, f) <= NewIds(db, evs, f)
    decreases f
  {
    if f > 0 {
      NewBeforeClashIsUnstored(db, evs, f - 1);
      assert !Clashes(db, evs, f - 1);
    }
  }

  ghost predicate AllIn(published: seq<int>, events: map<int, int>) {
    forall id | id in published :: id in events
  }

  lemma AllInIff(published: seq<int>, events: map<int, int>, ids: set<int>)
    requires ids == set id | id in published
    ensures AllIn(published, events) <==> ids <= events.Keys
  {
    if ids <= events.Keys {
      forall id | id in published ensures id in events { assert id in ids && id in events.Keys; }
    }
    if AllIn(published, events) {
      forall id | id in ids ensures id in events.Keys { assert id in published; }
    }
  }

  /**
   A failing event rolls the batch back but not the alerts already sent: every alert of a request is
   backed by a stored event exactly when the batch has no clash or none of its new events before the
   first one is of an alert class.
   */
  lemma AlertsAreBackedIff(db: Db, evs: seq<Event>)
    ensures var (end, ok) := TakeAll(Batch(db, 0, [], []), evs);
            var f := FirstClash(db, evs, |evs|);
            (if ok then AllIn(end.published, end.db.events) else AllIn(end.published, db.events))
            <==> (f == |evs| || FannedIds(db, evs, f) == {})
  {
    var f := FirstClash(db, evs, |evs|);
    NewBeforeClashIsUnstored(db, evs, f);
    if f < |evs| {
      var end := FirstClashEnds(db, evs, f);
      var fanned := FannedIds(db, evs, f);
      AllInIff(end.published, db.events, fanned);
      assert fanned <= db.events.Keys ==> fanned == fanned * db.events.Keys == {};
    } else {
      var end := PrefixProgresses(db, evs, |evs|);
      assert evs[..|evs|] == evs;
      AllInIff(end.published, end.db.events, FannedIds(db, evs, f));
    }
  }

  /** Two events of one id and different natural keys: the first is announced, and nothing is stored. */
  lemma AlertWithoutEvent(id: int, key: int, other: int)
    requires key != other
    ensures var evs := [Event(id, key, true, true, true, true), Event(id, other, true, true, true, true)];
            var (end, ok) := TakeAll(Batch(EMPTY, 0, [], []), evs);
            !ok && end.published == [id] && FirstClash(EMPTY, evs, 2) == 1
  {
    var a, b := Event(id, key, true, true, true, true), Event(id, other, true, true, true, true);
    var evs, start := [a, b], Batch(EMPTY, 0, [], []);
    assert StoredKeys(EMPTY.events) == {};
    assert KeysBefore(evs, 0) == {} && NewIds(EMPTY, evs, 0) == {};
    assert KeysBefore(evs, 1) == {key} && NewIds(EMPTY, evs, 1) == {id};
    assert !Clashes(EMPTY, evs, 0) && Clashes(EMPTY, evs, 1);
    assert FirstClash(EMPTY, evs, 1) == 1;
    assert Stores(EMPTY, a) && Take(start, a).value.published == [id];
    var end := FirstClashEnds(EMPTY, evs, 1);
    OneFurther(start, evs, 0, start);
    var one := Take(start, a).value;
    assert TakeAll(start, evs[..1]) == (one, true);
    NothingYet(EMPTY, evs);
    TakeProgresses(EMPTY, evs, 0, start);
    TakeProgresses(EMPTY, evs, 1, one);
    OneFurther(start, evs, 1, one);
  }

  // ---------------------------------------------------------------- the audit log as a language

  function Log(audit: seq<Entry>, id: int): seq<Transition> {
    if audit == [] then []
    else
      var last := audit[|audit| - 1];
      Log(audit[..|audit| - 1], id) + if last.id == id then [last.transition] else []
  }

  datatype Phase = Nothing | Reached(status: Status) | Wrong

  function Advance(p: Phase, t: Transition): Phase {
    match (p, t)
    case (Nothing, Raised) => Reached(Unacknowledged)
    case (Reached(Unacknowledged), Dismissed) => p
    case (Reached(Unacknowledged), Acked) => Reached(Acknowledged)
    case (Reached(Acknowledged), Closed) => Reached(Resolved)
    case _ => Wrong
  }

  /** The status a log leads to. */
  function Replay(log: seq<Transition>): Phase {
    if log == [] then Nothing else Advance(Replay(log[..|log| - 1]), log[|log| - 1])
  }

  function Repeat(n: nat): seq<Transition> {
    seq(n, i => Dismissed)
  }

  function EndOf(s: Status): seq<Transition> {
    match s case Unacknowledged => [] case Acknowledged => [Acked] case Resolved => [Acked, Closed]
  }

  /** raised, then dismissed any number of times, then acknowledged and resolved as far as `s` says */
  ghost predicate InLanguage(log: seq<Transition>, s: Status) {
    exists n: nat :: log == [Raised] + Repeat(n) + EndOf(s)
  }

  lemma Snoc(log: seq<Transition>, t: Transition)
    ensures Replay(log + [t]) == Advance(Replay(log), t)
  {
    assert (log + [t])[..|log|] == log;
  }

  lemma {:induction false} ReplayDismissals(n: nat)
    ensures Replay([Raised] + Repeat(n)) == Reached(Unacknowledged)
  {
    if n == 0 {
      assert [Raised] + Repeat(0) == [] + [Raised];
      Snoc([], Raised);
    } else {
      assert [Raised] + Repeat(n) == [Raised] + Repeat(n - 1) + [Dismissed];
      ReplayDismissals(n - 1);
      Snoc([Raised] + Repeat(n - 1), Dismissed);
    }
  }

  lemma LanguageReplays(n: nat, s: Status)
    ensures Replay([Raised] + Repeat(n) + EndOf(s)) == Reached(s)
  {
    var head := [Raised] + Repeat(n);
    ReplayDismissals(n);
    Snoc(head, Acked);
    Snoc(head + [Acked], Closed);
    assert head + [] == head && head + [Acked] + [Closed] == head + [Acked, Closed];
  }

  /** The logs that replay to a status are those of the language, and the status fixes how they end. */
  lemma LanguageIsReplay(log: seq<Transition>, s: Status)
    ensures Replay(log) == Reached(s) <==> InLanguage(log, s)
  {
    if Replay(log) == Reached(s) {
      var n := ShapeOf(log);
    }
    if InLanguage(log, s) {
      var n: nat :| log == [Raised] + Repeat(n) + EndOf(s);
      LanguageReplays(n, s);
    }
  }

  lemma NothingIsEmpty(log: seq<Transition>)
    ensures Replay(log).Nothing? <==> log == []
  {
  }

  lemma {:induction false} ShapeOf(log: seq<Transition>) returns (n: nat)
    requires Replay(log).Reached?
    ensures log == [Raised] + Repeat(n) + EndOf(Replay(log).status)
  {
    var init, t := log[..|log| - 1], log[|log| - 1];
    assert log == init + [t];
    NothingIsEmpty(init);
    if Replay(init).Nothing? {
      n := 0;
      assert log == [Raised] + Repeat(0) + [];
    } else {
      n := ShapeOf(init);
      if t == Dismissed {
        assert log == [Raised] + Repeat(n + 1) + [];
        n := n + 1;
      } else {
        assert log == [Raised] + Repeat(n) + EndOf(Replay(log).status);
      }
    }
  }
}
