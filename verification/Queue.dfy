/**
 cloud-sync's SQLite buffer: the publish queue and the cursor row. Every method is one
 committed statement sequence; `Db` is the content of the two tables, and the functions
 on it are what the statements do to that content.
 */
module Queue {
  import opened Collections
  import opened Keys

  /** An envelope as the pull loop receives it; Malformed lacks one of the four required keys. */
  datatype Envelope = WellFormed(id: int, ts: int, json: string) | Malformed

  datatype Row = Row(ts: int, json: string, published: bool, attempts: nat, lastError: Option<string>)

  datatype Db = Db(rows: map<int, Row>, pulled: Option<int>, acked: Option<int>)

  const EMPTY := Db(map[], None, None)

  function RowKey(rows: map<int, Row>, id: int): Key
    requires id in rows
  {
    Key(rows[id].ts, id)
  }

  function AllKeys(rows: map<int, Row>): set<Key> {
    set id | id in rows :: RowKey(rows, id)
  }

  function Pending(rows: map<int, Row>): set<Key> {
    set id | id in rows && !rows[id].published :: RowKey(rows, id)
  }

  function Published(rows: map<int, Row>): set<Key> {
    set id | id in rows && rows[id].published :: RowKey(rows, id)
  }

  // ---------------------------------------------------------------- the statements

  function Enqueue(db: Db, e: Envelope): Db
    requires e.WellFormed?
  {
    if e.id in db.rows then db
    else db.(rows := db.rows[e.id := Row(e.ts, e.json, false, 0, None)])
  }

  function MarkPublished(db: Db, id: int): Db {
    if id in db.rows then db.(rows := db.rows[id := db.rows[id].(published := true)]) else db
  }

  function MarkFailed(db: Db, id: int, error: string): Db {
    if id in db.rows
    then db.(rows := db.rows[id := db.rows[id].(attempts := db.rows[id].attempts + 1, lastError := Some(error))])
    else db
  }

  function Acknowledged(rows: map<int, Row>, id: int, upTo: Key): bool
    requires id in rows
  {
    rows[id].published && AtMost(RowKey(rows, id), upTo)
  }

  function DeleteAcked(db: Db, upTo: int): Db {
    if upTo !in db.rows then db
    else
      var ref := RowKey(db.rows, upTo);
      db.(rows := map id | id in db.rows && !Acknowledged(db.rows, id, ref) :: db.rows[id])
  }

  /** A failed publish counts one more attempt, keeps the newest error and leaves the row pending or not as it was. */
  lemma FailureIsCounted(db: Db, id: int, error: string)
    requires id in db.rows
    ensures var row, was := MarkFailed(db, id, error).rows[id], db.rows[id];
            && row.attempts == was.attempts + 1 && row.lastError == Some(error)
            && row.published == was.published && row.ts == was.ts && row.json == was.json
    ensures forall i | i in db.rows && i != id :: MarkFailed(db, id, error).rows[i] == db.rows[i]
  {
  }

  // ---------------------------------------------------------------- what the deletion removes

  /** The published keys up to the acknowledged row, if that row is there. */
  function Confirmed(rows: map<int, Row>, upTo: int): set<Key> {
    if upTo in rows then set k | k in Published(rows) && !Less(RowKey(rows, upTo), k) else {}
  }

  lemma {:induction false} KeyCountOf(rows: map<int, Row>, ids: set<int>)
    requires ids <= rows.Keys
    ensures |set id | id in ids :: RowKey(rows, id)| == |ids|
    decreases |ids|
  {
    if ids != {} {
      var id := SomeMember(ids);
      var rest := ids - {id};
      KeyCountOf(rows, rest);
      var ks := set i | i in rest :: RowKey(rows, i);
      assert (set i | i in ids :: RowKey(rows, i)) == ks + {RowKey(rows, id)};
      assert RowKey(rows, id) !in ks;
    }
  }

  lemma KeyCount(rows: map<int, Row>)
    ensures |AllKeys(rows)| == |rows|
  {
    KeyCountOf(rows, rows.Keys);
    assert AllKeys(rows) == set id | id in rows.Keys :: RowKey(rows, id);
  }

  lemma KeptKeys(db: Db, upTo: int)
    ensures var after := DeleteAcked(db, upTo).rows;
            && (forall id | id in after :: id in db.rows && after[id] == db.rows[id])
            && AllKeys(after) == AllKeys(db.rows) - Confirmed(db.rows, upTo)
  {
    var rows, after := db.rows, DeleteAcked(db, upTo).rows;
    assert forall id | id in after :: RowKey(after, id) == RowKey(rows, id);
    forall k ensures k in AllKeys(after) <==> k in AllKeys(rows) && k !in Confirmed(rows, upTo) {
      if k in AllKeys(rows) && k !in Confirmed(rows, upTo) {
        assert k == RowKey(after, k.id);
      }
    }
  }

  /**
   After an acknowledgement the queue holds what is pending and what was published past the acknowledged
   row, unchanged; an id that is not queued removes nothing.
   */
  lemma DeletesThePrefix(db: Db, upTo: int)
    ensures var after := DeleteAcked(db, upTo);
            && after.pulled == db.pulled && after.acked == db.acked
            && (forall id | id in after.rows :: id in db.rows && after.rows[id] == db.rows[id])
            && AllKeys(after.rows) == AllKeys(db.rows) - Confirmed(db.rows, upTo)
            && (upTo !in db.rows ==> after == db)
            && (upTo in db.rows ==>
                  AllKeys(after.rows) ==
                  Pending(db.rows) + set k | k in Published(db.rows) && Less(RowKey(db.rows, upTo), k))
  {
    KeptKeys(db, upTo);
    assert AllKeys(db.rows) == Pending(db.rows) + Published(db.rows);
  }

  lemma DeletedCount(db: Db, upTo: int)
    ensures |db.rows| == |DeleteAcked(db, upTo).rows| + |Confirmed(db.rows, upTo)|
  {
    var all, kept, gone := AllKeys(db.rows), AllKeys(DeleteAcked(db, upTo).rows), Confirmed(db.rows, upTo);
    KeptKeys(db, upTo);
    assert gone <= all;
    assert all == kept + gone;
    KeyCount(db.rows);
    KeyCount(DeleteAcked(db, upTo).rows);
  }

  // ---------------------------------------------------------------- the published prefix

  /** Walks rows in key order and stops at the first one that is still pending. */
  function Walk(rows: map<int, Row>, ks: seq<Key>, last: Option<int>): Option<int>
    requires forall k | k in ks :: k.id in rows
  {
    if ks == [] || !rows[ks[0].id].published then last
    else Walk(rows, ks[1..], Some(ks[0].id))
  }

  function PublishedPrefix(rows: map<int, Row>): Option<int> {
    Walk(rows, OrderBy(AllKeys(rows)), None)
  }

  /** `p` ends the published run of an ascending listing: published up to it, pending right after. */
  ghost predicate EndsRun(rows: map<int, Row>, ks: seq<Key>, p: Key)
    requires forall k | k in ks :: k.id in rows
  {
    && p in ks
    && (forall k | k in ks && AtMost(k, p) :: rows[k.id].published)
    && (forall k | k in ks && Less(p, k) && rows[k.id].published ::
          exists g | g in ks :: Less(g, k) && !rows[g.id].published)
  }

  lemma HeadIsLess(ks: seq<Key>, k: Key)
    requires Ascending(ks) && ks != []
    ensures k in ks <==> k == ks[0] || k in ks[1..]
    ensures k in ks[1..] ==> Less(ks[0], k)
  {
    assert ks == [ks[0]] + ks[1..];
  }

  lemma RunStops(rows: map<int, Row>, ks: seq<Key>)
    requires Ascending(ks) && forall k | k in ks :: k.id in rows
    requires ks != [] && rows[ks[0].id].published && (|ks| == 1 || !rows[ks[1].id].published)
    ensures EndsRun(rows, ks, ks[0])
  {
    forall k | k in ks && AtMost(k, ks[0]) ensures rows[k.id].published {
      HeadIsLess(ks, k);
    }
    forall k | k in ks && Less(ks[0], k) && rows[k.id].published
      ensures exists g | g in ks :: Less(g, k) && !rows[g.id].published
    {
      HeadIsLess(ks, k);
      assert ks[1] in ks && AtMost(ks[1], k);
    }
  }

  lemma RunContinues(rows: map<int, Row>, ks: seq<Key>, p: Key)
    requires Ascending(ks) && forall k | k in ks :: k.id in rows
    requires ks != [] && rows[ks[0].id].published && EndsRun(rows, ks[1..], p)
    ensures EndsRun(rows, ks, p)
  {
    forall k ensures (k in ks <==> k == ks[0] || k in ks[1..]) && (k in ks[1..] ==> Less(ks[0], k)) {
      HeadIsLess(ks, k);
    }
  }

  lemma {:induction false} WalkFinds(rows: map<int, Row>, ks: seq<Key>, last: Option<int>)
    requires Ascending(ks) && forall k | k in ks :: k.id in rows
    ensures ks == [] || !rows[ks[0].id].published ==> Walk(rows, ks, last) == last
    ensures ks != [] && rows[ks[0].id].published ==>
              exists p | p in ks :: Walk(rows, ks, last) == Some(p.id) && EndsRun(rows, ks, p)
  {
    if ks != [] && rows[ks[0].id].published {
      var rest := ks[1..];
      WalkFinds(rows, rest, Some(ks[0].id));
      if rest == [] || !rows[rest[0].id].published {
        RunStops(rows, ks);
      } else {
        var p :| p in rest && Walk(rows, rest, Some(ks[0].id)) == Some(p.id) && EndsRun(rows, rest, p);
        RunContinues(rows, ks, p);
      }
    }
  }

  /** The prefix id is safe to acknowledge: its row and every row below it is published. */
  lemma PrefixIsSafe(rows: map<int, Row>)
    ensures PublishedPrefix(rows).Some? ==>
              var e := PublishedPrefix(rows).value;
              && e in rows
              && forall k | k in AllKeys(rows) && AtMost(k, RowKey(rows, e)) :: rows[k.id].published
    ensures PublishedPrefix(rows).None? <==>
              AllKeys(rows) == {} || !rows[Least(AllKeys(rows)).id].published
  {
    var ks := OrderBy(AllKeys(rows));
    WalkFinds(rows, ks, None);
    if AllKeys(rows) != {} {
      assert ks[0] in ks && Least(AllKeys(rows)) in ks;
      assert ks[0] == Least(AllKeys(rows));
    }
  }

  /** The two queries: the first pending row, then the last published row before it. */
  function TwoQueryPrefix(rows: map<int, Row>): Option<int> {
    if Pending(rows) == {} then
      if Published(rows) == {} then None else Some(Greatest(Published(rows)).id)
    else
      var gap := Least(Pending(rows));
      var before := set k | k in Published(rows) && Less(k, gap);
      if before == {} then None else Some(Greatest(before).id)
  }

  /** For every queue the two queries find what the walk finds. */
  lemma TwoQueriesRefineWalk(rows: map<int, Row>)
    ensures TwoQueryPrefix(rows) == PublishedPrefix(rows)
  {
    var ks := OrderBy(AllKeys(rows));
    WalkFinds(rows, ks, None);
    if ks == [] {
      assert Pending(rows) <= AllKeys(rows) && Published(rows) <= AllKeys(rows);
    } else if !rows[ks[0].id].published {
      FirstPending(rows, ks);
    } else {
      var p :| p in ks && PublishedPrefix(rows) == Some(p.id) && EndsRun(rows, ks, p);
      RunEndIsFound(rows, ks, p);
    }
  }

  lemma FirstPending(rows: map<int, Row>, ks: seq<Key>)
    requires Ascending(ks) && (forall k :: k in ks <==> k in AllKeys(rows))
    requires ks != [] && ks[0].id in rows && !rows[ks[0].id].published
    ensures TwoQueryPrefix(rows).None?
  {
    assert ks[0] in ks;
    assert ks[0] in Pending(rows);
    assert forall k | k in AllKeys(rows) :: k in ks && AtMost(ks[0], k);
    assert forall k | k in Pending(rows) :: k in AllKeys(rows);
    assert Least(Pending(rows)) == ks[0];
    assert forall k | k in Published(rows) :: k in AllKeys(rows);
  }

  lemma RunEndIsFound(rows: map<int, Row>, ks: seq<Key>, p: Key)
    requires forall k :: k in ks <==> k in AllKeys(rows)
    requires EndsRun(rows, ks, p)
    ensures TwoQueryPrefix(rows) == Some(p.id)
  {
    assert p in Published(rows);
    assert forall k | k in Published(rows) :: k in AllKeys(rows);
    assert forall k | k in Pending(rows) :: k in AllKeys(rows);
    forall k | k in Published(rows) && Less(p, k)
      ensures exists g | g in Pending(rows) :: Less(g, k)
    {
      var g :| g in ks && Less(g, k) && !rows[g.id].published;
      assert g in AllKeys(rows);
      assert g in Pending(rows);
    }
    if Pending(rows) == {} {
      assert Greatest(Published(rows)) == p;
    } else {
      var gap := Least(Pending(rows));
      var before := set k | k in Published(rows) && Less(k, gap);
      assert p in before;
      assert forall k | k in before :: AtMost(k, p);
      assert Greatest(before) == p;
    }
  }

  // ---------------------------------------------------------------- the connection

  class Connection {
    var rows: map<int, Row>
    var lastPulled: Option<int>
    var lastAcked: Option<int>

    function State(): Db
      reads this
    {
      Db(rows, lastPulled, lastAcked)
    }

    constructor ()
      ensures State() == EMPTY
    {
      rows, lastPulled, lastAcked := map[], None, None;
    }

    method EnqueueEvent(e: Envelope) returns (inserted: bool)
      requires e.WellFormed?
      modifies this`rows
      ensures State() == Enqueue(old(State()), e)
      ensures inserted == (e.id !in old(rows))
    {
      inserted := e.id !in rows;
      if inserted {
        rows := rows[e.id := Row(e.ts, e.json, false, 0, None)];
      }
    }

    /** The oldest `limit` rows that are not published yet. */
    method IterPending(limit: nat) returns (batch: seq<Key>)
      ensures batch == Limit(OrderBy(Pending(rows)), limit)
    {
      batch := Limit(OrderBy(Pending(rows)), limit);
    }

    method SetPublished(id: int)
      modifies this`rows
      ensures State() == MarkPublished(old(State()), id)
    {
      if id in rows {
        rows := rows[id := rows[id].(published := true)];
      }
    }

    method SetFailed(id: int, error: string)
      modifies this`rows
      ensures State() == MarkFailed(old(State()), id, error)
    {
      if id in rows {
        rows := rows[id := rows[id].(attempts := rows[id].attempts + 1, lastError := Some(error))];
      }
    }

    method SetPulled(id: int)
      modifies this`lastPulled
      ensures State() == old(State()).(pulled := Some(id))
    {
      lastPulled := Some(id);
    }

    method SetAcked(id: int)
      modifies this`lastAcked
      ensures State() == old(State()).(acked := Some(id))
    {
      lastAcked := Some(id);
    }

    /** Computed by the two queries, specified by the walk. */
    method ContiguousPublishedPrefix() returns (r: Option<int>)
      ensures r == PublishedPrefix(rows)
    {
      TwoQueriesRefineWalk(rows);
      var pending, published := Pending(rows), Published(rows);
      if pending == {} {
        if published == {} {
          return None;
        }
        return Some(Greatest(published).id);
      }
      var gap := Least(pending);
      var before := set k | k in published && Less(k, gap);
      if before == {} {
        return None;
      }
      return Some(Greatest(before).id);
    }

    method DeleteUpTo(upTo: int) returns (deleted: nat)
      modifies this`rows
      ensures State() == DeleteAcked(old(State()), upTo)
      ensures AllKeys(rows) == AllKeys(old(rows)) - Confirmed(old(rows), upTo)
      ensures deleted == |Confirmed(old(rows), upTo)|
    {
      KeptKeys(State(), upTo);
      DeletedCount(State(), upTo);
      if upTo !in rows {
        return 0;
      }
      var ref := RowKey(rows, upTo);
      var kept := map id | id in rows && !Acknowledged(rows, id, ref) :: rows[id];
      deleted := |rows| - |kept|;
      rows := kept;
    }
  }

  /** Running the deletion again removes nothing; it never removes a pending row. */
  lemma DeleteAckedTwice(db: Db, upTo: int)
    ensures DeleteAcked(DeleteAcked(db, upTo), upTo) == DeleteAcked(db, upTo)
    ensures Pending(DeleteAcked(db, upTo).rows) == Pending(db.rows)
  {
    var once := DeleteAcked(db, upTo);
    if upTo in once.rows {
      assert DeleteAcked(once, upTo).rows == once.rows;
    }
    assert forall id | id in once.rows :: RowKey(once.rows, id) == RowKey(db.rows, id);
  }
}
