/** The pull loop's code between two awaits, proved against the step system's functions. */
module PullLoop {
  import opened Keys
  import opened Queue
  import opened SyncProtocol
  import ES = EventStore

  /** The id the cursor moves to: the last envelope of the page that has all required keys. */
  method LastWellFormedEventId(envelopes: seq<Envelope>) returns (r: Option<int>)
    ensures r.None? <==> forall i | 0 <= i < |envelopes| :: envelopes[i].Malformed?
    ensures r.Some? ==> exists i ::
              && 0 <= i < |envelopes| && envelopes[i].WellFormed? && envelopes[i].id == r.value
              && forall j | i < j < |envelopes| :: envelopes[j].Malformed?
  {
    for i := |envelopes| downto 0
      invariant forall j | i <= j < |envelopes| :: envelopes[j].Malformed?
    {
      if envelopes[i].WellFormed? {
        return Some(envelopes[i].id);
      }
    }
    return None;
  }

  /** A malformed envelope is skipped and does not stop the page; the cursor moves afterwards. */
  method HandlePage(conn: Connection, page: seq<Envelope>)
    modifies conn
    ensures conn.State() == AdvancePulled(EnqueueAll(old(conn.State()), page), page)
  {
    for i := 0 to |page|
      invariant conn.State() == EnqueueAll(old(conn.State()), page[..i])
    {
      EnqueueAllSnoc(old(conn.State()), page[..i], page[i]);
      assert page[..i] + [page[i]] == page[..i + 1];
      if page[i].Malformed? {
        continue;
      }
      var _ := conn.EnqueueEvent(page[i]);
    }
    assert page[..|page|] == page;
    var last := LastWellFormedEventId(page);
    LastKey(page, last);
    if last.Some? {
      conn.SetPulled(last.value);
    }
  }

  /** The egress route's filter: withheld events are dropped from the page. */
  method AnonymisePage(cfg: Config, ghost events: map<int, ES.Event>, ghost ks: seq<Key>, rows: seq<ES.Event>)
    returns (out: seq<Envelope>)
    requires (forall k | k in ks :: k.id in events) && rows == ES.RowsOf(events, ks)
    ensures out == Redact(cfg, events, ks)
  {
    out := [];
    for i := 0 to |rows|
      invariant forall k | k in ks[..i] :: k.id in events
      invariant out == Redact(cfg, events, ks[..i])
    {
      assert ks[..i + 1] == ks[..i] + [ks[i]];
      RedactSnoc(cfg, events, ks[..i], ks[i]);
      out := out + Wire(cfg, rows[i]);
    }
    assert ks[..|rows|] == ks;
  }

  lemma RedactSnoc(cfg: Config, events: map<int, ES.Event>, ks: seq<Key>, k: Key)
    requires (forall x | x in ks :: x.id in events) && k.id in events
    ensures Redact(cfg, events, ks + [k]) == Redact(cfg, events, ks) + Wire(cfg, events[k.id])
  {
    if ks == [] {
      assert ([k])[1..] == [];
    } else {
      assert (ks + [k])[1..] == ks[1..] + [k];
      RedactSnoc(cfg, events, ks[1..], k);
    }
  }

  /** One iteration against a store that answers at once; a refused cursor changes nothing. */
  method PullOnce(cfg: Config, store: ES.Database, conn: Connection)
    requires store.Valid() && cfg.pullLimit > 0
    modifies conn
    ensures var refused := old(conn.lastPulled).Some? && old(conn.lastPulled).value !in store.events;
            if refused then conn.State() == old(conn.State())
            else
              var page := Redact(cfg, store.events, RawRows(cfg, store.events, old(conn.lastPulled)));
              conn.State() == AdvancePulled(EnqueueAll(old(conn.State()), page), page)
  {
    var read := store.GetEventsPage(ES.Request(None, conn.lastPulled, [], None), Some(cfg.pullLimit));
    if read.Err? {
      return;
    }
    ghost var ks := RawRows(cfg, store.events, conn.lastPulled);
    var page := AnonymisePage(cfg, store.events, ks, read.value);
    HandlePage(conn, page);
  }

  lemma EnqueueAllSnoc(db: Db, page: seq<Envelope>, e: Envelope)
    ensures EnqueueAll(db, page + [e]) ==
            if e.WellFormed? then Enqueue(EnqueueAll(db, page), e) else EnqueueAll(db, page)
    decreases |page|
  {
    if page != [] {
      assert (page + [e])[1..] == page[1..] + [e];
      EnqueueAllSnoc(if page[0].WellFormed? then Enqueue(db, page[0]) else db, page[1..], e);
    }
  }

  lemma LastKey(page: seq<Envelope>, last: Option<int>)
    requires last.None? <==> forall i | 0 <= i < |page| :: page[i].Malformed?
    requires last.Some? ==> exists i ::
               && 0 <= i < |page| && page[i].WellFormed? && page[i].id == last.value
               && forall j | i < j < |page| :: page[j].Malformed?
    ensures last.None? <==> WellFormedKeys(page) == []
    ensures last.Some? ==> WellFormedKeys(page)[|WellFormedKeys(page)| - 1].id == last.value
  {
    if page != [] {
      var rest := page[1..];
      if i :| 0 <= i < |page| && page[i].WellFormed? && (forall j | i < j < |page| :: page[j].Malformed?) {
        if i == 0 {
          assert forall j | 0 <= j < |rest| :: rest[j] == page[j + 1];
          LastKey(rest, None);
        } else {
          assert rest[i - 1] == page[i];
          LastKey(rest, last);
        }
      } else {
        LastKey(rest, None);
      }
    }
  }
}
