/** The ack loop's two halves, before and after the await on event-store. */
module AckLoop {
  import opened Keys
  import opened Queue
  import opened SyncProtocol

  /** Which cursor, if any, this tick sends upstream. */
  method TickBegin(conn: Connection) returns (cursor: Option<int>)
    ensures cursor.Some? ==> cursor == PublishedPrefix(conn.rows) != conn.lastAcked
    ensures cursor.None? ==> PublishedPrefix(conn.rows).None? || PublishedPrefix(conn.rows) == conn.lastAcked
  {
    var newCursor := conn.ContiguousPublishedPrefix();
    if newCursor.None? || conn.lastAcked == newCursor {
      return None;
    }
    return newCursor;
  }

  /** On drift the cursor we sent counts as acknowledged; a failure leaves both tables alone. */
  method TickEnd(conn: Connection, cursor: int, outcome: Outcome)
    modifies conn
    ensures outcome.Failed? ==> conn.State() == old(conn.State())
    ensures !outcome.Failed? ==>
              var id := Target(cursor, outcome);
              conn.State() == DeleteAcked(old(conn.State()).(acked := Some(id)), id)
    ensures Pending(conn.rows) == Pending(old(conn.rows))
    ensures !outcome.Failed? ==>
              && conn.lastAcked == Some(Target(cursor, outcome))
              && AllKeys(conn.rows) == AllKeys(old(conn.rows)) - Confirmed(old(conn.rows), Target(cursor, outcome))
  {
    match outcome
    case Failed =>
    case Drift =>
      DeleteAckedTwice(conn.State().(acked := Some(cursor)), cursor);
      conn.SetAcked(cursor);
      var _ := conn.DeleteUpTo(cursor);
    case Acked(id) =>
      DeleteAckedTwice(conn.State().(acked := Some(id)), id);
      conn.SetAcked(id);
      var _ := conn.DeleteUpTo(id);
  }
}
