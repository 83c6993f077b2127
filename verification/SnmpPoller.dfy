/**
 SNMP alarm transitions: a poll compares the alarm table with what was last emitted, and commits a
 transition only when its event was accepted, so that a failed emit is tried again by the next poll.
 */
module SnmpPoller {
  import opened Collections
  import opened Keys

  /** `accepted` is the outcome an emit for this row would have. */
  datatype Row = Row(id: int, active: bool, accepted: bool)

  /** ALARM_ACTIVE when `active`, otherwise ALARM_CLEARED. */
  datatype Emitted = Emitted(id: int, active: bool)

  /** `order` is the insertion order of the dictionary `prev`; `log` holds the events accepted so far. */
  datatype Table = Table(order: seq<int>, prev: map<int, bool>, log: seq<Emitted>)

  const EMPTY := Table([], map[], [])

  // ---------------------------------------------------------------- one row, one vanished alarm

  function Set(t: Table, id: int, active: bool): Table {
    t.(prev := t.prev[id := active], order := if id in t.prev then t.order else t.order + [id])
  }

  predicate Transition(t: Table, row: Row) {
    row.id !in t.prev || t.prev[row.id] != row.active
  }

  function RowStep(t: Table, row: Row): Table {
    if !Transition(t, row) then t
    else if row.accepted then Set(t, row.id, row.active).(log := t.log + [Emitted(row.id, row.active)])
    else t
  }

  function RowSteps(t: Table, rows: seq<Row>): Table
    decreases |rows|
  {
    if rows == [] then t else RowStep(RowSteps(t, rows[..|rows| - 1]), rows[|rows| - 1])
  }

  predicate Vanished(t: Table, id: int, seen: set<int>) {
    id !in seen && id in t.prev && t.prev[id]
  }

  function GhostStep(t: Table, id: int, seen: set<int>, failing: set<int>): Table {
    if Vanished(t, id, seen) && id !in failing
    then Table(Without(t.order, id), t.prev - {id}, t.log + [Emitted(id, false)])
    else t
  }

  function GhostSteps(t: Table, ids: seq<int>, seen: set<int>, failing: set<int>): Table
    decreases |ids|
  {
    if ids == [] then t
    else GhostStep(GhostSteps(t, ids[..|ids| - 1], seen, failing), ids[|ids| - 1], seen, failing)
  }

  function Ids(rows: seq<Row>): set<int> {
    set i | 0 <= i < |rows| :: rows[i].id
  }

  /** `stop` is how many rows were handled when an exception ended the poll, if one did. */
  datatype Poll = Poll(rows: seq<Row>, failing: set<int>, stop: Option<nat>)

  predicate Legal(p: Poll) {
    p.stop.Some? ==> p.stop.value <= |p.rows|
  }

  function Process(t: Table, p: Poll): Table
    requires Legal(p)
  {
    if p.stop.Some? then RowSteps(t, p.rows[..p.stop.value])
    else
      var u := RowSteps(t, p.rows);
      GhostSteps(u, u.order, Ids(p.rows), p.failing)
  }

  // ---------------------------------------------------------------- the dictionary and its order

  ghost predicate Ordered(t: Table) {
    Distinct(t.order) && forall id :: id in t.prev <==> id in t.order
  }

  lemma RowStepOrdered(t: Table, row: Row)
    requires Ordered(t)
    ensures Ordered(RowStep(t, row))
  {
  }

  lemma GhostStepOrdered(t: Table, id: int, seen: set<int>, failing: set<int>)
    requires Ordered(t)
    ensures Ordered(GhostStep(t, id, seen, failing))
  {
    WithoutKeeps(t.order, id);
  }

  class Poller {
    var prevAlarms: map<int, bool>
    var insertion: seq<int>
    ghost var sent: seq<Emitted>

    ghost function State(): Table
      reads this
    {
      Table(insertion, prevAlarms, sent)
    }

    constructor ()
      ensures State() == EMPTY
    {
      prevAlarms, insertion, sent := map[], [], [];
    }

    method Store(id: int, active: bool)
      modifies this
      ensures State() == Set(old(State()), id, active)
    {
      if id !in prevAlarms {
        insertion := insertion + [id];
      }
      prevAlarms := prevAlarms[id := active];
    }

    method ProcessAlarms(rows: seq<Row>, failing: set<int>, stop: Option<nat>)
      requires Legal(Poll(rows, failing, stop))
      requires Ordered(State())
      modifies this
      ensures State() == Process(old(State()), Poll(rows, failing, stop))
      ensures Ordered(State())
    {
      var current: set<int> := {};
      for i := 0 to |rows|
        invariant stop.Some? ==> i <= stop.value
        invariant current == Ids(rows[..i])
        invariant State() == RowSteps(old(State()), rows[..i]) && Ordered(State())
      {
        if stop == Some(i) {
          return;
        }
        var row := rows[i];
        assert rows[..i + 1] == rows[..i] + [row] && rows[..i + 1][..i] == rows[..i];
        RowStepOrdered(State(), row);
        current := current + {row.id};
        if row.id !in prevAlarms || prevAlarms[row.id] != row.active {
          if row.accepted {
            sent := sent + [Emitted(row.id, row.active)];
            Store(row.id, row.active);
          }
        } else {
          Store(row.id, row.active);
        }
      }
      assert rows[..|rows|] == rows;
      if stop == Some(|rows|) {
        return;
      }
      ClearVanished(current, failing);
    }

    /** The defensive second loop, over a copy of the dictionary's items. */
    method ClearVanished(current: set<int>, failing: set<int>)
      requires Ordered(State())
      modifies this
      ensures State() == GhostSteps(old(State()), old(insertion), current, failing)
      ensures Ordered(State())
    {
      var items := insertion;
      var wasActive := prevAlarms;
      ghost var u := State();
      assert items[..0] == [] && items == u.order;
      assert forall k | 0 <= k < |items| :: items[k] in items;
      assert forall id | id in items :: id in u.prev;
      for i := 0 to |items|
        invariant State() == GhostSteps(u, items[..i], current, failing) && Ordered(State())
        invariant forall k | i <= k < |items| ::
                    items[k] in prevAlarms && items[k] in wasActive && prevAlarms[items[k]] == wasActive[items[k]]
      {
        var id := items[i];
        assert items[..i + 1][..i] == items[..i];
        GhostStepOrdered(State(), id, current, failing);
        if id !in current && wasActive[id] {
          if id !in failing {
            sent := sent + [Emitted(id, false)];
            insertion := Without(insertion, id);
            prevAlarms := prevAlarms - {id};
          }
        }
      }
      assert items[..|items|] == items;
    }
  }

  // ---------------------------------------------------------------- what the events say

  /** The events of one alarm, oldest first; true is ALARM_ACTIVE. */
  function History(log: seq<Emitted>, id: int): seq<bool> {
    if log == [] then []
    else
      var last := log[|log| - 1];
      History(log[..|log| - 1], id) + if last.id == id then [last.active] else []
  }

  /** The fold of the event log a consumer keeps: an alarm is on when its last event is ALARM_ACTIVE. */
  predicate On(log: seq<Emitted>, id: int) {
    var h := History(log, id);
    h != [] && h[|h| - 1]
  }

  lemma HistorySnoc(log: seq<Emitted>, e: Emitted, id: int)
    ensures History(log + [e], id) == History(log, id) + if e.id == id then [e.active] else []
  {
    assert (log + [e])[..|log|] == log;
  }

  predicate Alternates(h: seq<bool>) {
    forall i | 0 <= i < |h| - 1 :: h[i] ==> !h[i + 1]
  }

  /** The poller's memory of an alarm agrees with the events accepted for it. */
  predicate Remembers(t: Table, id: int) {
    && (On(t.log, id) <==> id in t.prev && t.prev[id])
    && (id in t.prev ==> History(t.log, id) != [])
    && Alternates(History(t.log, id))
  }

  ghost predicate Faithful(t: Table) {
    Ordered(t) && forall id :: Remembers(t, id)
  }

  /** An accepted event: nothing changes for other alarms, and two ACTIVEs never meet. */
  lemma EmitRemembers(t: Table, t': Table, e: Emitted, id: int)
    requires Remembers(t, id) && t'.log == t.log + [e]
    requires e.active ==> !(e.id in t.prev && t.prev[e.id])
    requires e.id != id ==> (id in t'.prev <==> id in t.prev) && (id in t.prev ==> t'.prev[id] == t.prev[id])
    requires e.id == id ==> (e.active ==> id in t'.prev) && (id in t'.prev ==> t'.prev[id] == e.active)
    ensures Remembers(t', id)
  {
    HistorySnoc(t.log, e, id);
    assert History(t.log, id) + [] == History(t.log, id);
  }

  lemma RowKeeps(t: Table, row: Row)
    requires Faithful(t)
    ensures Faithful(RowStep(t, row))
  {
    var t' := RowStep(t, row);
    RowStepOrdered(t, row);
    if t' != t {
      forall id ensures Remembers(t', id) {
        EmitRemembers(t, t', Emitted(row.id, row.active), id);
      }
    }
  }

  lemma GhostKeeps(t: Table, id: int, seen: set<int>, failing: set<int>)
    requires Faithful(t)
    ensures Faithful(GhostStep(t, id, seen, failing))
  {
    var t' := GhostStep(t, id, seen, failing);
    GhostStepOrdered(t, id, seen, failing);
    if t' != t {
      forall x ensures Remembers(t', x) {
        EmitRemembers(t, t', Emitted(id, false), x);
      }
    }
  }

  lemma {:induction false} RowsKeep(t: Table, rows: seq<Row>)
    requires Faithful(t)
    ensures Faithful(RowSteps(t, rows))
    decreases |rows|
  {
    if rows != [] {
      RowsKeep(t, rows[..|rows| - 1]);
      RowKeeps(RowSteps(t, rows[..|rows| - 1]), rows[|rows| - 1]);
    }
  }

  lemma {:induction false} GhostsKeep(t: Table, ids: seq<int>, seen: set<int>, failing: set<int>)
    requires Faithful(t)
    ensures Faithful(GhostSteps(t, ids, seen, failing))
    decreases |ids|
  {
    if ids != [] {
      GhostsKeep(t, ids[..|ids| - 1], seen, failing);
      GhostKeeps(GhostSteps(t, ids[..|ids| - 1], seen, failing), ids[|ids| - 1], seen, failing);
    }
  }

  lemma ProcessKeeps(t: Table, p: Poll)
    requires Legal(p) && Faithful(t)
    ensures Faithful(Process(t, p))
  {
    if p.stop.Some? {
      RowsKeep(t, p.rows[..p.stop.value]);
    } else {
      RowsKeep(t, p.rows);
      var u := RowSteps(t, p.rows);
      GhostsKeep(u, u.order, Ids(p.rows), p.failing);
    }
  }

  // ---------------------------------------------------------------- runs of polls

  function Polls(ps: seq<Poll>): Table
    requires forall p | p in ps :: Legal(p)
    decreases |ps|
  {
    if ps == [] then EMPTY else Process(Polls(ps[..|ps| - 1]), ps[|ps| - 1])
  }

  lemma {:induction false} PollsAreFaithful(ps: seq<Poll>)
    requires forall p | p in ps :: Legal(p)
    ensures Faithful(Polls(ps))
    decreases |ps|
  {
    if ps != [] {
      PollsAreFaithful(ps[..|ps| - 1]);
      ProcessKeeps(Polls(ps[..|ps| - 1]), ps[|ps| - 1]);
    }
  }

  /**
   Over any polls, with any emits failing and any poll cut short, the poller remembers an alarm as active
   exactly when its last accepted event is ACTIVE, and no alarm gets two ACTIVEs without a CLEARED between.
   */
  lemma NoDoubleActive(ps: seq<Poll>, id: int)
    requires forall p | p in ps :: Legal(p)
    ensures var t := Polls(ps);
            && (On(t.log, id) <==> id in t.prev && t.prev[id])
            && Alternates(History(t.log, id))
  {
    PollsAreFaithful(ps);
    assert Remembers(Polls(ps), id);
  }

  // ---------------------------------------------------------------- fidelity to the table

  /** Where an alarm last appears in the table; the same alarm may be listed by several rows. */
  function LastIndex(rows: seq<Row>, id: int): (k: Option<nat>)
    ensures k.Some? ==> k.value < |rows| && rows[k.value].id == id
    ensures forall i | (if k.Some? then k.value + 1 else 0) <= i < |rows| :: rows[i].id != id
    decreases |rows|
  {
    if rows == [] then None
    else if rows[|rows| - 1].id == id then Some(|rows| - 1)
    else LastIndex(rows[..|rows| - 1], id)
  }

  predicate Listed(rows: seq<Row>, id: int) {
    var k := LastIndex(rows, id);
    k.Some? && rows[k.value].active
  }

  lemma RowDecides(t: Table, row: Row, id: int)
    requires Faithful(t)
    ensures row.id != id ==> (On(RowStep(t, row).log, id) <==> On(t.log, id))
    ensures row.id == id ==>
              (On(RowStep(t, row).log, id) == row.active <==> row.accepted || On(t.log, id) == row.active)
  {
    assert Remembers(t, id);
    var e := Emitted(row.id, row.active);
    HistorySnoc(t.log, e, id);
    assert History(t.log, id) + [] == History(t.log, id);
    assert On(t.log + [e], id) == if row.id == id then row.active else On(t.log, id);
  }

  lemma {:induction false} RowsDecide(t: Table, rows: seq<Row>, id: int)
    requires Faithful(t)
    ensures var k := LastIndex(rows, id);
            var on := On(RowSteps(t, rows).log, id);
            if k.None? then on == On(t.log, id)
            else
              on == rows[k.value].active
              <==> rows[k.value].accepted || On(RowSteps(t, rows[..k.value]).log, id) == rows[k.value].active
    decreases |rows|
  {
    if rows != [] {
      var init, last := rows[..|rows| - 1], rows[|rows| - 1];
      RowsKeep(t, init);
      RowsDecide(t, init, id);
      RowDecides(RowSteps(t, init), last, id);
      if last.id != id && LastIndex(init, id).Some? {
        var k := LastIndex(init, id).value;
        assert init[..k] == rows[..k];
      }
    }
  }

  lemma GhostDecides(t: Table, x: int, seen: set<int>, failing: set<int>, id: int)
    requires Faithful(t)
    ensures On(GhostStep(t, x, seen, failing).log, id)
       <==> On(t.log, id) && !(x == id && id !in seen && id !in failing)
  {
    assert Remembers(t, id) && Remembers(t, x);
    var e := Emitted(x, false);
    HistorySnoc(t.log, e, id);
    assert History(t.log, id) + [] == History(t.log, id);
    assert On(t.log + [e], id) == (x != id && On(t.log, id));
  }

  lemma {:induction false} GhostsDecide(t: Table, ids: seq<int>, seen: set<int>, failing: set<int>, id: int)
    requires Faithful(t)
    ensures On(GhostSteps(t, ids, seen, failing).log, id)
       <==> On(t.log, id) && !(id in ids && id !in seen && id !in failing)
    decreases |ids|
  {
    if ids != [] {
      var init, last := ids[..|ids| - 1], ids[|ids| - 1];
      assert id in ids <==> id in init || id == last;
      GhostsKeep(t, init, seen, failing);
      GhostsDecide(t, init, seen, failing, id);
      GhostDecides(GhostSteps(t, init, seen, failing), last, seen, failing, id);
    }
  }

  /**
   After a poll that ran to its end, the event log and the table agree on an alarm exactly when the emit
   for its last row was accepted or not needed, or, for a vanished alarm, its clear was.
   */
  lemma LogMatchesTableIff(ps: seq<Poll>, p: Poll, id: int)
    requires (forall q | q in ps :: Legal(q)) && p.stop.None?
    ensures var t := Polls(ps);
            var k := LastIndex(p.rows, id);
            (On(Process(t, p).log, id) <==> Listed(p.rows, id))
            <==> (if k.Some?
                  then p.rows[k.value].accepted
                       || On(RowSteps(t, p.rows[..k.value]).log, id) == p.rows[k.value].active
                  else id !in p.failing || !On(t.log, id))
  {
    var t := Polls(ps);
    PollsAreFaithful(ps);
    RowsKeep(t, p.rows);
    RowsDecide(t, p.rows, id);
    var u := RowSteps(t, p.rows);
    GhostsDecide(u, u.order, Ids(p.rows), p.failing, id);
    assert Remembers(u, id);
    assert id in Ids(p.rows) <==> LastIndex(p.rows, id).Some? by {
      if id in Ids(p.rows) {
        var i :| 0 <= i < |p.rows| && p.rows[i].id == id;
      }
    }
  }

  /** One poll with no failing emit repairs whatever earlier failures left behind. */
  lemma CleanPollSynchronises(ps: seq<Poll>, p: Poll)
    requires (forall q | q in ps :: Legal(q)) && p.stop.None?
    requires p.failing == {} && forall row | row in p.rows :: row.accepted
    ensures forall id :: On(Process(Polls(ps), p).log, id) <==> Listed(p.rows, id)
  {
    forall id ensures On(Process(Polls(ps), p).log, id) <==> Listed(p.rows, id) {
      LogMatchesTableIff(ps, p, id);
    }
  }

  lemma {:induction false} UnlistedIsUntouched(t: Table, rows: seq<Row>, id: int)
    requires LastIndex(rows, id).None?
    ensures var u := RowSteps(t, rows);
            && History(u.log, id) == History(t.log, id)
            && (id in u.prev <==> id in t.prev) && (id in t.prev ==> u.prev[id] == t.prev[id])
    decreases |rows|
  {
    if rows != [] {
      var init, last := rows[..|rows| - 1], rows[|rows| - 1];
      UnlistedIsUntouched(t, init, id);
      var u := RowSteps(t, init);
      HistorySnoc(u.log, Emitted(last.id, last.active), id);
      assert History(u.log, id) + [] == History(u.log, id);
    }
  }

  /**
   A poll that an exception ends has decided about the alarms of the rows handled by then, each by its last
   such row, and about no other: an alarm not among them keeps its events and is remembered as before, so
   nothing is taken to have vanished.
   */
  lemma CutShort(ps: seq<Poll>, p: Poll, id: int)
    requires (forall q | q in ps :: Legal(q)) && Legal(p) && p.stop.Some?
    ensures var t, u, handled := Polls(ps), Process(Polls(ps), p), p.rows[..p.stop.value];
            var k := LastIndex(handled, id);
            if k.None? then
              && History(u.log, id) == History(t.log, id)
              && (id in u.prev <==> id in t.prev) && (id in t.prev ==> u.prev[id] == t.prev[id])
            else
              On(u.log, id) == handled[k.value].active
              <==> handled[k.value].accepted || On(RowSteps(t, handled[..k.value]).log, id) == handled[k.value].active
  {
    PollsAreFaithful(ps);
    var handled := p.rows[..p.stop.value];
    RowsDecide(Polls(ps), handled, id);
    if LastIndex(handled, id).None? {
      UnlistedIsUntouched(Polls(ps), handled, id);
    }
  }

  // ---------------------------------------------------------------- unpaired CLEARED events

  /** A row clears an alarm that is not on exactly when the poller has no memory of it. */
  lemma UnpairedClearIff(ps: seq<Poll>, row: Row)
    requires forall p | p in ps :: Legal(p)
    ensures var t := Polls(ps);
            RowStep(t, row).log == t.log + [Emitted(row.id, false)] && !On(t.log, row.id)
            <==> row.id !in t.prev && !row.active && row.accepted
  {
    var t := Polls(ps);
    PollsAreFaithful(ps);
    assert Remembers(t, row.id);
    assert |t.log + [Emitted(row.id, false)]| != |t.log|;
    assert RowStep(t, row).log == t.log + [Emitted(row.id, false)] ==> !row.active by {
      assert (t.log + [Emitted(row.id, true)])[|t.log|] != (t.log + [Emitted(row.id, false)])[|t.log|];
    }
  }

  /** On, gone, and back but off: three polls that clear one alarm twice. */
  lemma ThreePollsClearTwice(a: Poll, b: Poll, c: Poll, id: int)
    requires a.rows == [Row(id, true, true)] && b.rows == [] && c.rows == [Row(id, false, true)]
    requires a.stop.None? && b.stop.None? && c.stop.None? && b.failing == {}
    ensures History(Process(Process(Process(EMPTY, a), b), c).log, id) == [true, false, false]
  {
    var on, off := Emitted(id, true), Emitted(id, false);
    OneRow(EMPTY, a);
    VanishedRow(Process(EMPTY, a), b, id);
    OneRow(Process(Process(EMPTY, a), b), c);
    HistorySnoc([], on, id);
    HistorySnoc([] + [on], off, id);
    HistorySnoc([] + [on] + [off], off, id);
  }

  /** A clear for a vanished alarm is forgotten, so the row's return as inactive clears it again. */
  lemma ClearedTwice(id: int)
    ensures var a, c := Poll([Row(id, true, true)], {}, None), Poll([Row(id, false, true)], {}, None);
            var b := Poll([], {}, None);
            History(Polls([a, b, c]).log, id) == [true, false, false]
  {
    var a, b, c := Poll([Row(id, true, true)], {}, None), Poll([], {}, None), Poll([Row(id, false, true)], {}, None);
    ThreePolls(a, b, c);
    ThreePollsClearTwice(a, b, c, id);
  }

  lemma ThreePolls(a: Poll, b: Poll, c: Poll)
    requires Legal(a) && Legal(b) && Legal(c)
    ensures Polls([a, b, c]) == Process(Process(Process(EMPTY, a), b), c)
  {
    assert [a, b, c][..2] == [a, b] && [a, b][..1] == [a] && [a][..0] == [];
    assert Polls([a, b]) == Process(Polls([a]), b) && Polls([a]) == Process(Polls([]), a);
  }

  lemma OneRow(t: Table, p: Poll)
    requires |p.rows| == 1 && p.rows[0].accepted && p.stop.None? && t.order == [] && t.prev == map[]
    ensures Process(t, p)
         == Table([p.rows[0].id], map[p.rows[0].id := p.rows[0].active],
                  t.log + [Emitted(p.rows[0].id, p.rows[0].active)])
  {
    var id := p.rows[0].id;
    assert RowSteps(t, p.rows[..0]) == t;
    var u := RowSteps(t, p.rows);
    assert u.order == [id] && p.rows[0].id in Ids(p.rows);
    assert GhostSteps(u, [id][..0], Ids(p.rows), p.failing) == u;
  }

  lemma VanishedRow(t: Table, p: Poll, id: int)
    requires p.rows == [] && p.failing == {} && p.stop.None? && t.order == [id] && t.prev == map[id := true]
    ensures Process(t, p) == Table([], map[], t.log + [Emitted(id, false)])
  {
    assert GhostSteps(t, [id][..0], Ids(p.rows), p.failing) == t;
    assert Ids([]) == {};
    assert Without([id], id) == [];
  }

  // ---------------------------------------------------------------- restarts

  /** A restart starts from an empty memory; the events of earlier lives stay with the consumer. */
  datatype Item = Polled(p: Poll) | Restart

  /** `past` holds the events accepted in earlier lives, `t.log` those of this one. */
  datatype Life = Life(past: seq<Emitted>, t: Table)

  predicate LegalItem(x: Item) {
    x.Polled? ==> Legal(x.p)
  }

  function Lives(items: seq<Item>): Life
    requires forall x | x in items :: LegalItem(x)
    decreases |items|
  {
    if items == [] then Life([], EMPTY)
    else
      var l, x := Lives(items[..|items| - 1]), items[|items| - 1];
      assert items[|items| - 1] in items && LegalItem(x);
      match x
      case Polled(p) => l.(t := Process(l.t, p))
      case Restart => Life(l.past + l.t.log, EMPTY)
  }

  function AllEvents(l: Life): seq<Emitted> {
    l.past + l.t.log
  }

  lemma {:induction false} LivesAreFaithful(items: seq<Item>)
    requires forall x | x in items :: LegalItem(x)
    ensures Faithful(Lives(items).t)
    decreases |items|
  {
    if items != [] {
      var init, x := items[..|items| - 1], items[|items| - 1];
      LivesAreFaithful(init);
      assert x in items;
      if x.Polled? {
        ProcessKeeps(Lives(init).t, x.p);
      }
    }
  }

  lemma {:induction false} HistoryConcat(a: seq<Emitted>, b: seq<Emitted>, id: int)
    ensures History(a + b, id) == History(a, id) + History(b, id)
    decreases |b|
  {
    if b == [] {
      assert a + b == a;
    } else {
      assert (a + b)[..|a + b| - 1] == a + b[..|b| - 1];
      HistoryConcat(a, b[..|b| - 1], id);
    }
  }

  /** On in the consumer's eyes: by this life's events for the alarm if it has any, else by the past's. */
  lemma OnAcrossLives(l: Life, id: int)
    ensures On(AllEvents(l), id) == if History(l.t.log, id) != [] then On(l.t.log, id) else On(l.past, id)
  {
    HistoryConcat(l.past, l.t.log, id);
  }

  /**
   Over any polls and restarts, an ACTIVE meets an ACTIVE exactly when the row of an alarm is accepted as
   active that was left on in an earlier life and has had no event in this one.
   */
  lemma DoubleActiveIff(items: seq<Item>, row: Row)
    requires forall x | x in items :: LegalItem(x)
    ensures var l := Lives(items);
            RowStep(l.t, row).log == l.t.log + [Emitted(row.id, true)] && On(AllEvents(l), row.id)
            <==> row.active && row.accepted && On(l.past, row.id) && History(l.t.log, row.id) == []
  {
    var l := Lives(items);
    LivesAreFaithful(items);
    OnAcrossLives(l, row.id);
    assert Remembers(l.t, row.id);
    var on, off := Emitted(row.id, true), Emitted(row.id, false);
    assert |l.t.log + [on]| != |l.t.log| && (l.t.log + [on])[|l.t.log|] != (l.t.log + [off])[|l.t.log|];
  }

  /** In every life by itself two ACTIVEs have a CLEARED between them. */
  lemma EachLifeAlternates(items: seq<Item>, id: int)
    requires forall x | x in items :: LegalItem(x)
    ensures Alternates(History(Lives(items).t.log, id))
  {
    LivesAreFaithful(items);
    assert Remembers(Lives(items).t, id);
  }

  lemma LogMatchesIf(t: Table, p: Poll, id: int)
    requires Faithful(t) && p.stop.None? && p.failing == {} && forall row | row in p.rows :: row.accepted
    ensures On(Process(t, p).log, id) <==> Listed(p.rows, id)
    ensures LastIndex(p.rows, id).Some? ==> History(Process(t, p).log, id) != []
  {
    RowsKeep(t, p.rows);
    RowsDecide(t, p.rows, id);
    var u := RowSteps(t, p.rows);
    GhostsDecide(u, u.order, Ids(p.rows), {}, id);
    assert Remembers(u, id);
    ProcessKeeps(t, p);
    assert Remembers(Process(t, p), id);
    ListedIds(p.rows, id);
    if LastIndex(p.rows, id).Some? {
      RowsRemember(t, p.rows, id);
      GhostsRemember(u, u.order, Ids(p.rows), {}, id);
    }
  }

  lemma ListedIds(rows: seq<Row>, id: int)
    ensures id in Ids(rows) <==> LastIndex(rows, id).Some?
  {
    if id in Ids(rows) {
      var i :| 0 <= i < |rows| && rows[i].id == id;
    }
  }

  /** An accepted row leaves its alarm in memory, so it has had an event. */
  lemma {:induction false} RowsRemember(t: Table, rows: seq<Row>, id: int)
    requires Faithful(t) && LastIndex(rows, id).Some? && forall row | row in rows :: row.accepted
    ensures id in RowSteps(t, rows).prev && History(RowSteps(t, rows).log, id) != []
    decreases |rows|
  {
    var init, last := rows[..|rows| - 1], rows[|rows| - 1];
    RowsKeep(t, init);
    RowsKeep(t, rows);
    if last.id != id {
      assert forall row | row in init :: row in rows;
      RowsRemember(t, init, id);
    } else {
      assert last in rows;
    }
    assert Remembers(RowSteps(t, rows), id);
  }

  /** A listed alarm is not touched by the second loop. */
  lemma {:induction false} GhostsRemember(t: Table, ids: seq<int>, seen: set<int>, failing: set<int>, id: int)
    requires id in seen
    ensures History(GhostSteps(t, ids, seen, failing).log, id) == History(t.log, id)
    decreases |ids|
  {
    if ids != [] {
      var init, last := ids[..|ids| - 1], ids[|ids| - 1];
      GhostsRemember(t, init, seen, failing, id);
      var u := GhostSteps(t, init, seen, failing);
      HistorySnoc(u.log, Emitted(last, false), id);
      assert History(u.log, id) + [] == History(u.log, id);
    }
  }

  /**
   After a whole poll without failing emits, in any life, the event log and the table agree on an alarm
   exactly unless it was left on in an earlier life and has had no event in this one: an alarm that ended
   while the poller was down stays on for the consumer.
   */
  lemma StaleAfterRestartIff(items: seq<Item>, p: Poll, id: int)
    requires (forall x | x in items :: LegalItem(x)) && p.stop.None?
    requires p.failing == {} && forall row | row in p.rows :: row.accepted
    ensures var l := Lives(items + [Polled(p)]);
            (On(AllEvents(l), id) <==> Listed(p.rows, id)) <==> !(On(l.past, id) && History(l.t.log, id) == [])
  {
    var before := Lives(items);
    assert (items + [Polled(p)])[..|items|] == items;
    LivesAreFaithful(items);
    LogMatchesIf(before.t, p, id);
    OnAcrossLives(before.(t := Process(before.t, p)), id);
  }
}
