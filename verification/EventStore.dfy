/**
 event-store's table of events: idempotent insert, cursor-paginated filtered reads and
 the replay query. JSON payloads are reduced to the one field a query looks into.
 */
module EventStore {
  import opened Keys

  datatype Event = Event(id: int, ts: int, journey: string, eventType: string, severity: string,
                         car: Option<string>, schemaVersion: int)

  /** `after` is None for a missing or an empty cursor; `types` is empty when unset. */
  datatype Request = Request(journey: Option<string>, after: Option<int>, types: seq<string>,
                             minSeverity: Option<string>)

  datatype Error = JourneyNotFound | InvalidCursor | UnknownSeverity | UnsupportedSchemaVersion | NoCoaches

  datatype Result<+T> = Ok(value: T) | Err(error: Error)

  /** One conjunct of the WHERE clause. */
  datatype Clause =
    | AfterKey(cursor: Key)
    | InJourney(journey: string)
    | TypeIn(types: seq<string>)
    | SeverityAtLeast(score: int)
    | CoachIn(coaches: seq<string>)

  const SUPPORTED_SCHEMA_VERSIONS := {1}

  function KeyOf(e: Event): Key {
    Key(e.ts, e.id)
  }

  /** `ELSE -1` in the SQL, a ValueError in Python. */
  function SeverityScore(severity: string): int {
    if severity == "info" then 0
    else if severity == "warning" then 1
    else if severity == "critical" then 2
    else -1
  }

  predicate Holds(c: Clause, e: Event) {
    match c
    case AfterKey(k) => Less(k, KeyOf(e))
    case InJourney(j) => e.journey == j
    case TypeIn(types) => e.eventType in types
    case SeverityAtLeast(score) => SeverityScore(e.severity) >= score
    case CoachIn(coaches) => e.car == None || e.car.value in coaches
  }

  predicate AllHold(clauses: seq<Clause>, e: Event) {
    forall c | c in clauses :: Holds(c, e)
  }

  function Matching(events: map<int, Event>, clauses: seq<Clause>): set<Key> {
    set id | id in events && AllHold(clauses, events[id]) :: KeyOf(events[id])
  }

  /** The primary key, and the UNIQUE (journey_id, event_type, timestamp) constraint. */
  ghost predicate Constraints(events: map<int, Event>) {
    && KeyedById(events)
    && (forall i, j | i in events && j in events && i != j :: !SameNaturalKey(events[i], events[j]))
  }

  ghost predicate KeyedById(events: map<int, Event>) {
    forall id | id in events :: events[id].id == id
  }

  predicate SameNaturalKey(a: Event, b: Event) {
    a.journey == b.journey && a.eventType == b.eventType && a.ts == b.ts
  }

  predicate KnownSeverity(name: string) {
    name == "info" || name == "warning" || name == "critical"
  }

  /** The severities a filter lets through, by name. */
  predicate Passes(filter: string, severity: string) {
    || severity == "critical"
    || (severity == "warning" && filter != "critical")
    || (severity == "info" && filter == "info")
  }

  /** What a read asks for, said without clauses. */
  ghost predicate Wanted(events: map<int, Event>, q: Request, e: Event) {
    && (q.after.Some? && q.after.value in events ==> Less(KeyOf(events[q.after.value]), KeyOf(e)))
    && (q.journey.Some? && q.journey.value != "" ==> e.journey == q.journey.value)
    && (q.types != [] ==> e.eventType in q.types)
    && (q.minSeverity.Some? && q.minSeverity.value != "" ==> Passes(q.minSeverity.value, e.severity))
  }

  ghost function WantedKeys(events: map<int, Event>, q: Request): set<Key> {
    set id | id in events && Wanted(events, q, events[id]) :: KeyOf(events[id])
  }

  function RowsOf(events: map<int, Event>, ks: seq<Key>): (rows: seq<Event>)
    requires forall k | k in ks :: k.id in events
    ensures |rows| == |ks| && forall i | 0 <= i < |ks| :: rows[i] == events[ks[i].id]
  {
    seq(|ks|, i requires 0 <= i < |ks| => assert ks[i] in ks; events[ks[i].id])
  }

  /** Every wanted event, oldest first; a row is named by its key. */
  ghost function Listing(events: map<int, Event>, q: Request): (ks: seq<Key>)
    requires KeyedById(events)
    ensures forall k | k in ks :: k.id in events && k == KeyOf(events[k.id]) && Wanted(events, q, events[k.id])
  {
    OrderBy(WantedKeys(events, q))
  }

  /** The checks of a page read, in the order they are made. */
  ghost function Refusal(events: map<int, Event>, journeys: set<string>, q: Request): Option<Error> {
    if q.journey.Some? && q.journey.value !in journeys then Some(JourneyNotFound)
    else if q.after.Some? && q.after.value !in events then Some(InvalidCursor)
    else if q.minSeverity.Some? && q.minSeverity.value != "" && !KnownSeverity(q.minSeverity.value)
      then Some(UnknownSeverity)
    else None
  }

  class Database {
    var events: map<int, Event>
    var journeys: set<string>
    const cursorPageSize: nat := 100

    ghost predicate Valid()
      reads this
    {
      Constraints(events)
    }

    constructor ()
      ensures Valid() && events == map[] && journeys == {}
    {
      events, journeys := map[], {};
    }

    /** INSERT OR IGNORE: either uniqueness constraint makes the event a duplicate. */
    method InsertEvent(e: Event) returns (r: Result<bool>)
      requires Valid()
      modifies this`events
      ensures Valid()
      ensures r.Err? <==> e.schemaVersion !in SUPPORTED_SCHEMA_VERSIONS
      ensures r.Err? ==> r.error == UnsupportedSchemaVersion
      ensures r == Ok(true) <==>
              && r.Ok? && e.id !in old(events)
              && forall i | i in old(events) ::
                   var stored := old(events)[i];
                   stored.journey != e.journey || stored.eventType != e.eventType || stored.ts != e.ts
      ensures events == if r == Ok(true) then old(events)[e.id := e] else old(events)
    {
      if e.schemaVersion !in SUPPORTED_SCHEMA_VERSIONS {
        return Err(UnsupportedSchemaVersion);
      }
      if e.id in events || exists i | i in events :: SameNaturalKey(events[i], e) {
        return Ok(false);
      }
      events := events[e.id := e];
      return Ok(true);
    }

    /** Appends one clause per filter that is set. */
    method BuildFilterClauses(q: Request) returns (r: Result<seq<Clause>>)
      requires Valid()
      ensures r.Err? <==> Refusal(events, {}, q.(journey := None)).Some?
      ensures r.Err? ==> Refusal(events, {}, q.(journey := None)) == Some(r.error)
      ensures r.Ok? ==> forall e :: AllHold(r.value, e) <==> Wanted(events, q, e)
    {
      var clauses: seq<Clause> := [];
      if q.after.Some? {
        if q.after.value !in events {
          return Err(InvalidCursor);
        }
        clauses := clauses + [AfterKey(KeyOf(events[q.after.value]))];
        forall e { AllHoldSnoc([], AfterKey(KeyOf(events[q.after.value])), e); }
      }
      ghost var c1 := clauses;
      if q.journey.Some? && q.journey.value != "" {
        clauses := clauses + [InJourney(q.journey.value)];
        forall e { AllHoldSnoc(c1, InJourney(q.journey.value), e); }
      }
      ghost var c2 := clauses;
      if q.types != [] {
        clauses := clauses + [TypeIn(q.types)];
        forall e { AllHoldSnoc(c2, TypeIn(q.types), e); }
      }
      ghost var c3 := clauses;
      if q.minSeverity.Some? && q.minSeverity.value != "" {
        var threshold := SeverityScore(q.minSeverity.value);
        if threshold < 0 {
          return Err(UnknownSeverity);
        }
        clauses := clauses + [SeverityAtLeast(threshold)];
        forall e { AllHoldSnoc(c3, SeverityAtLeast(threshold), e); }
        forall e: Event ensures Passes(q.minSeverity.value, e.severity) <==> Holds(SeverityAtLeast(threshold), e) {
          PassesByScore(q.minSeverity.value, e.severity);
        }
      }
      return Ok(clauses);
    }

    /** One page: the first `limit` wanted events, or the configured page size without a limit. */
    method GetEventsPage(q: Request, limit: Option<nat>) returns (r: Result<seq<Event>>)
      requires Valid()
      ensures r.Err? <==> Refusal(events, journeys, q).Some?
      ensures r.Err? ==> Refusal(events, journeys, q) == Some(r.error)
      ensures r.Ok? ==>
                var size := if limit.Some? && limit.value != 0 then limit.value else cursorPageSize;
                r.value == RowsOf(events, Limit(Listing(events, q), size))
    {
      var pageSize := if limit.Some? && limit.value != 0 then limit.value else cursorPageSize;
      if q.journey.Some? && q.journey.value !in journeys {
        return Err(JourneyNotFound);
      }
      var built := BuildFilterClauses(q);
      if built.Err? {
        return Err(built.error);
      }
      assert Matching(events, built.value) == WantedKeys(events, q);
      var ks := OrderBy(Matching(events, built.value));
      KeysAreRows(events, built.value);
      return Ok(RowsOf(events, Limit(ks, pageSize)));
    }

    /**
     The subscription replay: newest first, cut, then put back into chronological order. A query that
     SQLite cannot run (`broken`) replays nothing.
     */
    method GetFilteredEventsForReplay(types: seq<string>, minSeverity: Option<string>,
                                      coaches: Option<seq<string>>, limit: nat, broken: bool)
      returns (r: Result<seq<Event>>)
      requires Valid()
      ensures coaches == Some([]) ==> r == Err(NoCoaches)
      ensures r.Err? && coaches != Some([]) <==>
              coaches != Some([])
              && Refusal(events, {}, Request(None, None, types, minSeverity)) == Some(UnknownSeverity)
      ensures r.Err? ==> r.error == if coaches == Some([]) then NoCoaches else UnknownSeverity
      ensures r.Ok? && broken ==> r.value == []
      ensures r.Ok? && !broken ==>
                var q := Request(None, None, types, minSeverity);
                r.value == RowsOf(events, Last(CoachListing(events, q, coaches), limit))
    {
      if coaches == Some([]) {
        return Err(NoCoaches);
      }
      var q := Request(None, None, types, minSeverity);
      var built := BuildFilterClauses(q);
      if built.Err? {
        return Err(built.error);
      }
      var clauses := built.value;
      if coaches.Some? {
        clauses := clauses + [CoachIn(coaches.value)];
        forall e { AllHoldSnoc(built.value, CoachIn(coaches.value), e); }
      }
      if broken {
        return Ok([]);
      }
      var ks := Matching(events, clauses);
      assert ks == CoachKeys(events, q, coaches);
      KeysAreRows(events, clauses);
      ReplayKeys(ks, limit);
      return Ok(RowsOf(events, Reverse(Limit(OrderByDesc(ks), limit))));
    }
  }

  /** The scores of the SQL order the known severities as the filter's names do; an unknown one is below all. */
  lemma PassesByScore(filter: string, severity: string)
    ensures KnownSeverity(filter) <==> SeverityScore(filter) >= 0
    ensures KnownSeverity(filter) ==> (Passes(filter, severity) <==> SeverityScore(severity) >= SeverityScore(filter))
  {
  }

  lemma KeysAreRows(events: map<int, Event>, clauses: seq<Clause>)
    requires KeyedById(events)
    ensures forall k | k in Matching(events, clauses) :: k.id in events
  {
  }

  /** ORDER BY ... DESC LIMIT n, reversed, is the tail of ORDER BY ... ASC. */
  lemma ReplayKeys(ks: set<Key>, limit: nat)
    ensures Reverse(Limit(OrderByDesc(ks), limit)) == Last(OrderBy(ks), limit)
    ensures forall k | k in Last(OrderBy(ks), limit) :: k in ks
  {
    DescIsReversedAsc(ks);
    ReverseLimit(OrderBy(ks), limit);
  }

  lemma AllHoldSnoc(clauses: seq<Clause>, c: Clause, e: Event)
    ensures AllHold(clauses + [c], e) <==> AllHold(clauses, e) && Holds(c, e)
  {
    assert c in clauses + [c];
    assert forall d | d in clauses :: d in clauses + [c];
  }

  /** The live path lets an event without a car through every coach filter; so does replay. */
  ghost predicate CoachWanted(e: Event, coaches: Option<seq<string>>) {
    coaches.None? || e.car.None? || e.car.value in coaches.value
  }

  ghost function CoachKeys(events: map<int, Event>, q: Request, coaches: Option<seq<string>>): set<Key> {
    set id | id in events && Wanted(events, q, events[id]) && CoachWanted(events[id], coaches) :: KeyOf(events[id])
  }

  ghost function CoachListing(events: map<int, Event>, q: Request, coaches: Option<seq<string>>): (ks: seq<Key>)
    requires KeyedById(events)
    ensures forall k | k in ks :: k.id in events
  {
    OrderBy(CoachKeys(events, q, coaches))
  }

  // ---------------------------------------------------------------- what is listed, in plain fields

  /** A severity filter, by name: what it leaves of the same read without one. */
  lemma SeverityFilterByName(events: map<int, Event>, q: Request, filter: string, e: Event)
    ensures var plain, filtered := Wanted(events, q.(minSeverity := None), e),
                                   Wanted(events, q.(minSeverity := Some(filter)), e);
            && (filter == "critical" ==> (filtered <==> plain && e.severity == "critical"))
            && (filter == "warning" ==> (filtered <==> plain && e.severity in {"warning", "critical"}))
            && (filter == "info" ==> (filtered <==> plain && e.severity in {"info", "warning", "critical"}))
            && (filter == "" ==> (filtered <==> plain))
  {
    assert |"info"| == 4 && |"warning"| == 7 && |"critical"| == 8;
  }

  /** Exactly the three names, and no name at all, are accepted as a filter. */
  lemma AcceptedFilters(events: map<int, Event>, journeys: set<string>, q: Request)
    ensures Refusal(events, journeys, q) == Some(UnknownSeverity) <==>
              && Refusal(events, journeys, q.(minSeverity := None)).None?
              && q.minSeverity.Some? && q.minSeverity.value !in {"", "info", "warning", "critical"}
  {
  }

  /** A page is in order of time, ties by id; whatever is wanted and missing comes later than all of a full page. */
  lemma PageIsChronological(events: map<int, Event>, q: Request, size: nat)
    requires KeyedById(events)
    ensures var page := RowsOf(events, Limit(Listing(events, q), size));
            && (forall i, j | 0 <= i < j < |page| ::
                  page[i].ts < page[j].ts || (page[i].ts == page[j].ts && page[i].id < page[j].id))
            && (forall e | e in page :: e.id in events && events[e.id] == e && Wanted(events, q, e))
            && (forall id | id in events && Wanted(events, q, events[id]) && events[id] !in page ::
                  && |page| == size
                  && forall e | e in page ::
                       e.ts < events[id].ts || (e.ts == events[id].ts && e.id < id))
  {
    var ks := Limit(Listing(events, q), size);
    PageOrder(events, ks);
    forall id | id in events && Wanted(events, q, events[id])
      ensures events[id] in RowsOf(events, ks)
              || (|ks| == size && forall e | e in RowsOf(events, ks) :: Less(KeyOf(e), KeyOf(events[id])))
    {
      ListedOrLater(events, q, size, id);
    }
    PageIsWanted(events, q, ks);
  }

  lemma PageOrder(events: map<int, Event>, ks: seq<Key>)
    requires KeyedById(events) && Ascending(ks)
    requires forall k | k in ks :: k.id in events && k == KeyOf(events[k.id])
    ensures var page := RowsOf(events, ks);
            forall i, j | 0 <= i < j < |page| :: Less(KeyOf(page[i]), KeyOf(page[j]))
  {
    forall i | 0 <= i < |ks| ensures KeyOf(RowsOf(events, ks)[i]) == ks[i] {
      assert ks[i] in ks;
    }
  }

  lemma PageIsWanted(events: map<int, Event>, q: Request, ks: seq<Key>)
    requires KeyedById(events)
    requires forall k | k in ks :: k.id in events && Wanted(events, q, events[k.id])
    ensures forall e | e in RowsOf(events, ks) :: e.id in events && events[e.id] == e && Wanted(events, q, e)
  {
    var page := RowsOf(events, ks);
    forall e | e in page ensures e.id in events && events[e.id] == e && Wanted(events, q, e) {
      var i :| 0 <= i < |page| && page[i] == e;
      assert ks[i] in ks;
    }
  }

  lemma ListedOrLater(events: map<int, Event>, q: Request, size: nat, id: int)
    requires KeyedById(events) && id in events && Wanted(events, q, events[id])
    ensures var page := RowsOf(events, Limit(Listing(events, q), size));
            events[id] in page
            || (|page| == size && forall e | e in page :: Less(KeyOf(e), KeyOf(events[id])))
  {
    var all := Listing(events, q);
    var ks := Limit(all, size);
    var page := RowsOf(events, ks);
    assert KeyOf(events[id]) in WantedKeys(events, q);
    var n :| 0 <= n < |all| && all[n] == KeyOf(events[id]);
    if n < |ks| {
      assert page[n] == events[id];
    } else {
      forall e | e in page ensures Less(KeyOf(e), KeyOf(events[id])) {
        var i :| 0 <= i < |page| && page[i] == e;
        assert ks[i] == all[i] && all[i] in all;
      }
    }
  }

  // ---------------------------------------------------------------- following the cursor

  /** A client that repeats the read from the last id of each full page. */
  ghost function Crawl(events: map<int, Event>, q: Request, limit: nat): seq<seq<Key>>
    requires KeyedById(events) && limit > 0
    requires q.after.Some? ==> q.after.value in events
    decreases |WantedKeys(events, q)|
  {
    var page := Limit(Listing(events, q), limit);
    if |page| == limit then
      NextListing(events, q, limit - 1);
      [page] + Crawl(events, q.(after := Some(page[limit - 1].id)), limit)
    else
      [page]
  }

  function Flatten<T>(pages: seq<seq<T>>): seq<T> {
    if pages == [] then [] else pages[0] + Flatten(pages[1..])
  }

  /** Restarting from the n-th listed event lists exactly what came after it. */
  lemma NextListing(events: map<int, Event>, q: Request, n: nat)
    requires KeyedById(events) && n < |Listing(events, q)|
    requires q.after.Some? ==> q.after.value in events
    ensures Listing(events, q)[n] in Listing(events, q)
    ensures var next := q.(after := Some(Listing(events, q)[n].id));
            && Listing(events, next) == Listing(events, q)[n + 1..]
            && |WantedKeys(events, next)| == |WantedKeys(events, q)| - (n + 1)
  {
    var ks := Listing(events, q);
    assert ks[n] in ks;
    WantedAfter(events, q, events[ks[n].id]);
    AfterCursor(WantedKeys(events, q), n);
  }

  lemma WantedAfter(events: map<int, Event>, q: Request, cursor: Event)
    requires KeyedById(events) && cursor.id in events && events[cursor.id] == cursor
    requires Wanted(events, q, cursor)
    requires q.after.Some? ==> q.after.value in events
    ensures WantedKeys(events, q.(after := Some(cursor.id))) ==
            set k | k in WantedKeys(events, q) && Less(KeyOf(cursor), k)
  {
    var next := q.(after := Some(cursor.id));
    forall id | id in events
      ensures Wanted(events, next, events[id])
         <==> Wanted(events, q, events[id]) && Less(KeyOf(cursor), KeyOf(events[id]))
    {
    }
  }

  /** The pages are the listing cut up: full pages, then one that is not. */
  ghost predicate Cuts(pages: seq<seq<Key>>, all: seq<Key>, limit: nat) {
    && Flatten(pages) == all
    && |pages| > 0 && |pages[|pages| - 1]| < limit
    && forall i | 0 <= i < |pages| - 1 :: |pages[i]| == limit
  }

  lemma OnlyPage(all: seq<Key>, limit: nat)
    requires |all| < limit
    ensures Cuts([all], all, limit)
  {
    assert [all][1..] == [];
  }

  /** Pagination loses nothing, repeats nothing and stops. */
  lemma {:induction false} CrawlIsLossless(events: map<int, Event>, q: Request, limit: nat)
    requires KeyedById(events) && limit > 0
    requires q.after.Some? ==> q.after.value in events
    ensures Cuts(Crawl(events, q, limit), Listing(events, q), limit)
    decreases |WantedKeys(events, q)|
  {
    var all := Listing(events, q);
    if limit <= |all| {
      NextListing(events, q, limit - 1);
      var next := q.(after := Some(all[limit - 1].id));
      CrawlIsLossless(events, next, limit);
      CutsCons(all, Crawl(events, next, limit), limit);
      FullPageFirst(events, q, limit);
    } else {
      OnlyPage(all, limit);
      ShortPageOnly(events, q, limit);
    }
  }

  lemma FullPageFirst(events: map<int, Event>, q: Request, limit: nat)
    requires KeyedById(events) && 0 < limit <= |Listing(events, q)|
    requires q.after.Some? ==> q.after.value in events
    requires Listing(events, q)[limit - 1].id in events
    ensures var all := Listing(events, q);
            Crawl(events, q, limit) == [all[..limit]] + Crawl(events, q.(after := Some(all[limit - 1].id)), limit)
  {
    var all := Listing(events, q);
    var page := Limit(all, limit);
    assert page == all[..limit] && page[limit - 1] == all[limit - 1];
  }

  lemma ShortPageOnly(events: map<int, Event>, q: Request, limit: nat)
    requires KeyedById(events) && limit > |Listing(events, q)|
    requires q.after.Some? ==> q.after.value in events
    ensures Crawl(events, q, limit) == [Listing(events, q)]
  {
  }

  lemma CutsCons(all: seq<Key>, pages: seq<seq<Key>>, limit: nat)
    requires limit <= |all| && Cuts(pages, all[limit..], limit)
    ensures Cuts([all[..limit]] + pages, all, limit)
  {
    assert ([all[..limit]] + pages)[1..] == pages;
    assert all == all[..limit] + all[limit..];
  }
}
