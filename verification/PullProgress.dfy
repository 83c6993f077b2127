/**
 How far the pull loop gets when it is left alone with a store: each round moves the cursor to
 the last envelope it can use, whatever `next_cursor` says.
 */
module PullProgress {
  import opened Keys
  import opened Queue
  import ES = EventStore
  import opened SyncProtocol
  import opened SyncTheorems

  // ---------------------------------------------------------------- rounds over a listing

  ghost predicate Blank(ks: seq<Key>, fwd: set<Key>, from: nat, count: nat)
    requires from + count <= |ks|
  {
    forall m | from <= m < from + count :: ks[m] !in fwd
  }

  /** How many of the first `m` rows a round consumes: up to the last one it can use. */
  ghost function Cut(ks: seq<Key>, fwd: set<Key>, m: nat): (c: nat)
    requires m <= |ks|
    ensures c <= m && (c > 0 ==> ks[c - 1] in fwd) && Blank(ks, fwd, c, m - c)
  {
    if m == 0 || ks[m - 1] in fwd then m else Cut(ks, fwd, m - 1)
  }

  ghost function PageCut(ks: seq<Key>, fwd: set<Key>, page: nat): (c: nat)
    ensures c <= |ks| && c <= page
  {
    Cut(ks, fwd, if page < |ks| then page else |ks|)
  }

  /** How many rows `n` rounds consume. */
  ghost function Done(ks: seq<Key>, fwd: set<Key>, page: nat, n: nat): (d: nat)
    ensures d <= |ks|
    decreases n
  {
    if n == 0 then 0
    else
      var c := PageCut(ks, fwd, page);
      c + Done(ks[c..], fwd, page, n - 1)
  }

  /** A whole page worth of rows that cannot be used lies before the i-th row. */
  ghost predicate BlockedAt(ks: seq<Key>, fwd: set<Key>, page: nat, i: nat)
    requires i <= |ks|
  {
    exists j: nat :: j + page <= i && Blank(ks, fwd, j, page)
  }

  ghost predicate Blocked(ks: seq<Key>, fwd: set<Key>, page: nat, k: Key) {
    exists i | 0 <= i < |ks| :: ks[i] == k && BlockedAt(ks, fwd, page, i)
  }

  /** A blockage cannot straddle a row that is used. */
  lemma BlockedAhead(ks: seq<Key>, fwd: set<Key>, page: nat, c: nat, i: nat)
    requires 0 < c <= page && c <= i < |ks| && ks[c - 1] in fwd
    ensures BlockedAt(ks, fwd, page, i) <==> BlockedAt(ks[c..], fwd, page, i - c)
  {
    var rest := ks[c..];
    if j: nat :| j + page <= i && Blank(ks, fwd, j, page) {
      assert j >= c;
      assert forall m | j - c <= m < j - c + page :: rest[m] == ks[m + c];
      assert Blank(rest, fwd, j - c, page);
    }
    if j: nat :| j + page <= i - c && Blank(rest, fwd, j, page) {
      forall m | j + c <= m < j + c + page ensures ks[m] !in fwd {
        assert ks[m] == rest[m - c];
      }
      assert Blank(ks, fwd, j + c, page);
    }
  }

  lemma {:induction false} NothingDone(ks: seq<Key>, fwd: set<Key>, page: nat, n: nat)
    requires PageCut(ks, fwd, page) == 0
    ensures Done(ks, fwd, page, n) == 0
    decreases n
  {
    if n > 0 {
      assert ks[0..] == ks;
      NothingDone(ks, fwd, page, n - 1);
    }
  }

  lemma BlankPageBlocks(ks: seq<Key>, fwd: set<Key>, page: nat, i: nat)
    requires i < |ks| && ks[i] in fwd && PageCut(ks, fwd, page) == 0
    ensures BlockedAt(ks, fwd, page, i)
  {
    assert 0 + page <= i && Blank(ks, fwd, 0, page);
  }

  lemma FirstPageIsFree(ks: seq<Key>, fwd: set<Key>, page: nat, i: nat)
    requires i < |ks| && i < page
    ensures !BlockedAt(ks, fwd, page, i)
  {
  }

  /** Enough rounds consume a usable row exactly when it is not blocked. */
  lemma {:induction false} DoneIff(ks: seq<Key>, fwd: set<Key>, page: nat, n: nat, i: nat)
    requires page > 0 && n >= |ks| && i < |ks| && ks[i] in fwd
    ensures i < Done(ks, fwd, page, n) <==> !BlockedAt(ks, fwd, page, i)
    decreases n
  {
    var c := PageCut(ks, fwd, page);
    if c == 0 {
      NothingDone(ks, fwd, page, n);
      BlankPageBlocks(ks, fwd, page, i);
    } else if i < c {
      FirstPageIsFree(ks, fwd, page, i);
    } else {
      BlockedAhead(ks, fwd, page, c, i);
      DoneIff(ks[c..], fwd, page, n - 1, i - c);
    }
  }

  // ---------------------------------------------------------------- rounds of the system

  ghost function PullRound(cfg: Config, s: Sys): Sys {
    if Enabled(cfg, s, PullPage) then Next(cfg, Next(cfg, s, PullPage), PullCommit) else s
  }

  ghost function PullRounds(cfg: Config, s: Sys, n: nat): Sys
    decreases n
  {
    if n == 0 then s else PullRounds(cfg, PullRound(cfg, s), n - 1)
  }

  ghost function RoundCut(cfg: Config, s: Sys): (c: nat)
    requires ES.KeyedById(s.store)
    ensures c <= |Ahead(s)| && c <= cfg.pullLimit
  {
    PageCut(Ahead(s), Forwardable(cfg, s.store), cfg.pullLimit)
  }

  ghost predicate Ready(cfg: Config, s: Sys) {
    Inv(cfg, s) && Enabled(cfg, s, PullPage)
  }

  ghost function Usable(ks: seq<Key>, fwd: set<Key>): set<Key> {
    set k | k in ks && k in fwd
  }

  /** From `ks` ahead and `queued`, the first `d` rows are consumed and the usable ones among them queued. */
  ghost predicate Takes(ks: seq<Key>, queued: set<Key>, ks': seq<Key>, queued': set<Key>, fwd: set<Key>, d: nat)
    requires d <= |ks|
  {
    ks' == ks[d..] && queued' == queued + Usable(ks[..d], fwd)
  }

  ghost predicate Consumed(cfg: Config, s: Sys, t: Sys, d: nat)
    requires ES.KeyedById(s.store) && d <= |Ahead(s)|
  {
    t.store == s.store && Takes(Ahead(s), s.enqueued, Ahead(t), t.enqueued, Forwardable(cfg, s.store), d)
  }

  lemma SplitAt(ks: seq<Key>, i: nat)
    requires i <= |ks|
    ensures forall k :: k in ks <==> k in ks[..i] || k in ks[i..]
  {
    assert ks == ks[..i] + ks[i..];
  }

  lemma BlankIsUnusable(ks: seq<Key>, fwd: set<Key>, c: nat)
    requires c <= |ks| && Blank(ks, fwd, c, |ks| - c)
    ensures Usable(ks, fwd) == Usable(ks[..c], fwd)
  {
    SplitAt(ks, c);
    forall k | k in ks[c..] ensures k !in fwd {
      var m :| 0 <= m < |ks[c..]| && ks[c..][m] == k;
      assert ks[c + m] == k;
    }
  }

  /** The usable rows of a page, and the last of them. */
  lemma UsableRows(cfg: Config, store: map<int, ES.Event>, raw: seq<Key>, c: nat)
    requires ES.KeyedById(store) && Ascending(raw)
    requires forall k | k in raw :: k.id in store && ES.KeyOf(store[k.id]) == k
    requires c == Cut(raw, Forwardable(cfg, store), |raw|)
    ensures var ks := WellFormedKeys(Redact(cfg, store, raw));
            && (set k | k in ks) == Usable(raw[..c], Forwardable(cfg, store))
            && (c == 0 ==> ks == []) && (c > 0 ==> ks != [] && ks[|ks| - 1] == raw[c - 1])
  {
    var ks, fwd := WellFormedKeys(Redact(cfg, store, raw)), Forwardable(cfg, store);
    RedactedKeys(cfg, store, raw);
    forall k | k in raw ensures k in fwd <==> cfg.egress(store[k.id]).Clear? {}
    BlankIsUnusable(raw, fwd, c);
    assert (set k | k in ks) == Usable(raw, fwd);
    HasMember(ks);
    if c > 0 {
      assert raw[..c][c - 1] == raw[c - 1];
      assert raw[c - 1] in Usable(raw[..c], fwd);
      forall k | k in ks ensures k in raw[..c] { assert k in Usable(raw[..c], fwd); }
      LastInOrder(raw, ks, c - 1);
    }
  }

  lemma LastInOrder(raw: seq<Key>, ks: seq<Key>, i: nat)
    requires Ascending(raw) && Ascending(ks) && i < |raw| && raw[i] in ks
    requires forall k | k in ks :: k in raw[..i + 1]
    ensures ks[|ks| - 1] == raw[i]
  {
    var last := ks[|ks| - 1];
    assert last in ks;
    var j :| 0 <= j < |raw[..i + 1]| && raw[..i + 1][j] == last;
    var m :| 0 <= m < |ks| && ks[m] == raw[i];
  }

  /** What one round leaves. */
  lemma RoundEnds(cfg: Config, s: Sys)
    requires Ready(cfg, s)
    ensures var t, page := PullRound(cfg, s), Redact(cfg, s.store, RawPage(cfg, s));
            && Inv(cfg, t) && t.store == s.store && t.pull.PullIdle?
            && t.db.pulled == AdvancePulled(s.db, page).pulled
            && t.enqueued == s.enqueued + set k | k in WellFormedKeys(page)
  {
    PullPageKeeps(cfg, s);
    CommitEnds(cfg, Next(cfg, s, PullPage));
  }

  lemma CommitEnds(cfg: Config, u: Sys)
    requires Inv(cfg, u) && u.pull.Received?
    ensures var t := Next(cfg, u, PullCommit);
            && Inv(cfg, t) && t.store == u.store && t.pull.PullIdle?
            && t.db.pulled == AdvancePulled(u.db, u.pull.page).pulled
            && t.enqueued == u.enqueued + set k | k in WellFormedKeys(u.pull.page)
  {
    PullCommitKeeps(cfg, u);
    EnqueueKeepsCursors(u.db, u.pull.page);
    OnlyPageIsAbsorbed(cfg, u, |u.pull.page|);
  }

  lemma PrefixCut(ks: seq<Key>, raw: seq<Key>, fwd: set<Key>, m: nat)
    requires m <= |raw| <= |ks| && raw <= ks
    ensures Cut(raw, fwd, m) == Cut(ks, fwd, m)
  {
  }

  lemma PageIsPrefix(cfg: Config, s: Sys)
    requires ES.KeyedById(s.store)
    ensures RawPage(cfg, s) <= Ahead(s)
    ensures RoundCut(cfg, s) == Cut(RawPage(cfg, s), Forwardable(cfg, s.store), |RawPage(cfg, s)|)
    ensures RawPage(cfg, s)[..RoundCut(cfg, s)] == Ahead(s)[..RoundCut(cfg, s)]
  {
    var raw := RawPage(cfg, s);
    PrefixCut(Ahead(s), raw, Forwardable(cfg, s.store), |raw|);
  }

  lemma CursorDropsPrefix(store: map<int, ES.Event>, cursor: Option<int>, c: nat)
    requires ES.KeyedById(store) && (cursor.Some? ==> cursor.value in store)
    requires 0 < c <= |ES.Listing(store, After(cursor))|
    ensures var id := ES.Listing(store, After(cursor))[c - 1].id;
            id in store && ES.Listing(store, After(Some(id))) == ES.Listing(store, After(cursor))[c..]
  {
    ES.NextListing(store, After(cursor), c - 1);
  }

  lemma RoundConsumes(cfg: Config, s: Sys)
    requires Ready(cfg, s)
    ensures Ready(cfg, PullRound(cfg, s)) && Consumed(cfg, s, PullRound(cfg, s), RoundCut(cfg, s))
  {
    var u, raw, c := PullRound(cfg, s), RawPage(cfg, s), RoundCut(cfg, s);
    RoundEnds(cfg, s);
    RawPageIsClosed(cfg, s);
    PageIsPrefix(cfg, s);
    UsableRows(cfg, s.store, raw, c);
    if c > 0 {
      assert raw[c - 1] == Ahead(s)[c - 1];
      CursorDropsPrefix(s.store, s.db.pulled, c);
    } else {
      assert Ahead(s)[0..] == Ahead(s);
    }
  }

  lemma UsableSplits(ks: seq<Key>, fwd: set<Key>, c: nat, d: nat)
    requires c + d <= |ks|
    ensures ks[c..][d..] == ks[c + d..]
    ensures Usable(ks[..c + d], fwd) == Usable(ks[..c], fwd) + Usable(ks[c..][..d], fwd)
  {
    assert ks[..c + d] == ks[..c] + ks[c..][..d];
  }

  /** A round and then the rest of the rounds. */
  lemma RoundThenRounds(ks: seq<Key>, q: set<Key>, ks1: seq<Key>, q1: set<Key>, ks2: seq<Key>, q2: set<Key>,
                        fwd: set<Key>, page: nat, n: nat)
    requires n > 0 && Takes(ks, q, ks1, q1, fwd, PageCut(ks, fwd, page))
    requires Takes(ks1, q1, ks2, q2, fwd, Done(ks1, fwd, page, n - 1))
    ensures Takes(ks, q, ks2, q2, fwd, Done(ks, fwd, page, n))
  {
    var c, d := PageCut(ks, fwd, page), Done(ks1, fwd, page, n - 1);
    assert Done(ks, fwd, page, n) == c + d;
    UsableSplits(ks, fwd, c, d);
  }

  ghost function RoundsCut(cfg: Config, s: Sys, n: nat): (d: nat)
    requires ES.KeyedById(s.store)
    ensures d <= |Ahead(s)|
  {
    Done(Ahead(s), Forwardable(cfg, s.store), cfg.pullLimit, n)
  }

  lemma ConsumedThen(cfg: Config, s: Sys, u: Sys, t: Sys, n: nat)
    requires ES.KeyedById(s.store) && n > 0 && Consumed(cfg, s, u, RoundCut(cfg, s))
    requires Consumed(cfg, u, t, RoundsCut(cfg, u, n - 1))
    ensures Consumed(cfg, s, t, RoundsCut(cfg, s, n))
  {
    RoundThenRounds(Ahead(s), s.enqueued, Ahead(u), u.enqueued, Ahead(t), t.enqueued,
                    Forwardable(cfg, s.store), cfg.pullLimit, n);
  }

  lemma NoRounds(cfg: Config, s: Sys)
    requires ES.KeyedById(s.store)
    ensures Consumed(cfg, s, s, RoundsCut(cfg, s, 0))
  {
    assert Ahead(s)[0..] == Ahead(s);
  }

  lemma {:induction false} RoundsConsume(cfg: Config, s: Sys, n: nat)
    requires Ready(cfg, s)
    ensures Ready(cfg, PullRounds(cfg, s, n)) && Consumed(cfg, s, PullRounds(cfg, s, n), RoundsCut(cfg, s, n))
    decreases n
  {
    NoRounds(cfg, s);
    if n > 0 {
      var u := PullRound(cfg, s);
      RoundConsumes(cfg, s);
      RoundsConsume(cfg, u, n - 1);
      ConsumedThen(cfg, s, u, PullRounds(cfg, u, n - 1), n);
    }
  }

  // ---------------------------------------------------------------- reaching an event, reaching the end

  /** With enough rounds a forwardable event ahead is queued exactly when it is not blocked. */
  lemma QueuedIff(cfg: Config, s: Sys, n: nat, k: Key)
    requires Ready(cfg, s) && cfg.pullLimit > 0 && n >= |Ahead(s)|
    requires k in Ahead(s) && k in Forwardable(cfg, s.store) && k !in s.enqueued
    ensures k in PullRounds(cfg, s, n).enqueued <==> !Blocked(Ahead(s), Forwardable(cfg, s.store), cfg.pullLimit, k)
  {
    var ks, fwd := Ahead(s), Forwardable(cfg, s.store);
    var i :| 0 <= i < |ks| && ks[i] == k;
    RoundsConsume(cfg, s, n);
    DoneIff(ks, fwd, cfg.pullLimit, n, i);
    AtOneIndex(ks, i, Done(ks, fwd, cfg.pullLimit, n));
    forall j | 0 <= j < |ks| && ks[j] == k ensures j == i { AtOneIndex(ks, i, j); }
  }

  lemma AtOneIndex(ks: seq<Key>, i: nat, d: nat)
    requires Ascending(ks) && i < |ks| && d <= |ks|
    ensures ks[i] in ks[..d] <==> i < d
    ensures d < |ks| && ks[d] == ks[i] ==> d == i
  {
    if i < d {
      assert ks[..d][i] == ks[i];
    } else {
      forall j | 0 <= j < |ks[..d]| ensures ks[..d][j] != ks[i] { assert Less(ks[j], ks[i]); }
      assert d < |ks| && d != i ==> d < i;
    }
    assert d < |ks| && i < d ==> Less(ks[i], ks[d]);
    assert d < |ks| && d < i ==> Less(ks[d], ks[i]);
  }

  ghost predicate CaughtUp(cfg: Config, s: Sys)
    requires ES.KeyedById(s.store)
  {
    forall k | k in Ahead(s) :: k !in Forwardable(cfg, s.store)
  }

  /** A whole page worth of rows that do not leave the train, with one behind it that does. */
  ghost predicate Gap(ks: seq<Key>, fwd: set<Key>, page: nat) {
    exists i | 0 <= i < |ks| :: ks[i] in fwd && BlockedAt(ks, fwd, page, i)
  }

  lemma NothingLeftIff(ks: seq<Key>, fwd: set<Key>, page: nat, n: nat)
    requires page > 0 && n >= |ks|
    ensures var d := Done(ks, fwd, page, n); (forall k | k in ks[d..] :: k !in fwd) <==> !Gap(ks, fwd, page)
    ensures var d := Done(ks, fwd, page, n); !Gap(ks, fwd, page) ==> Usable(ks, fwd) == Usable(ks[..d], fwd)
  {
    var d := Done(ks, fwd, page, n);
    forall i | 0 <= i < |ks| && ks[i] in fwd ensures i < d <==> !BlockedAt(ks, fwd, page, i) {
      DoneIff(ks, fwd, page, n, i);
    }
    assert forall i | d <= i < |ks| :: ks[d..][i - d] == ks[i];
    if !Gap(ks, fwd, page) {
      BlankIsUnusable(ks, fwd, d);
    }
  }

  /**
   Left alone with a store the pull loop reaches the end if and only if no page worth of
   consecutive rows ahead is withheld or malformed while something forwardable waits behind them.
   */
  lemma CatchesUpIff(cfg: Config, s: Sys, n: nat)
    requires Ready(cfg, s) && cfg.pullLimit > 0 && n >= |Ahead(s)|
    ensures var t := PullRounds(cfg, s, n);
            && Inv(cfg, t) && t.store == s.store
            && (CaughtUp(cfg, t) <==> !Gap(Ahead(s), Forwardable(cfg, s.store), cfg.pullLimit))
            && (CaughtUp(cfg, t) ==> Usable(Ahead(s), Forwardable(cfg, s.store)) <= t.enqueued)
  {
    RoundsConsume(cfg, s, n);
    NothingLeftIff(Ahead(s), Forwardable(cfg, s.store), cfg.pullLimit, n);
  }

  // ---------------------------------------------------------------- a store on which it stalls

  ghost function Holding(events: map<int, ES.Event>): Sys {
    INIT.(ever := events, store := events)
  }

  lemma HoldingIsReachable(cfg: Config, events: map<int, ES.Event>)
    requires ES.KeyedById(events)
    ensures Inv(cfg, Holding(events))
  {
  }

  /** One withheld event fills a page of one: the event behind it is never queued, however often the loop pulls. */
  lemma StallsBehindOneWithheldEvent(cfg: Config, a: ES.Event, b: ES.Event, n: nat)
    requires a.id != b.id && Less(ES.KeyOf(a), ES.KeyOf(b)) && cfg.pullLimit == 1
    requires cfg.egress(a).Withheld? && cfg.egress(b).Clear? && n >= 2
    ensures ES.KeyOf(b) !in PullRounds(cfg, Holding(map[a.id := a, b.id := b]), n).enqueued
  {
    var events := map[a.id := a, b.id := b];
    var s, ka, kb := Holding(events), ES.KeyOf(a), ES.KeyOf(b);
    HoldingIsReachable(cfg, events);
    assert events[a.id] == a && events[b.id] == b;
    assert ES.WantedKeys(events, After(None)) == {ka, kb} by {
      assert ES.Wanted(events, After(None), a) && ES.Wanted(events, After(None), b);
      assert ka in ES.WantedKeys(events, After(None)) && kb in ES.WantedKeys(events, After(None));
    }
    AscendingUnique(Ahead(s), [ka, kb]);
    var fwd := Forwardable(cfg, events);
    assert kb in fwd && ka !in fwd;
    assert Blank([ka, kb], fwd, 0, 1) && BlockedAt([ka, kb], fwd, 1, 1);
    QueuedIff(cfg, s, n, kb);
  }
}
