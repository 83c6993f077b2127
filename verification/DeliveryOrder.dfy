/**
 The ledger when exits, entries and timeouts arrive in any order: the two cameras of a gangway post
 independently, so an entry can come before its exit.
 */
module DeliveryOrder {
  import opened Keys
  import T = Tripwire
  import L = Ledger
  import Laws = LedgerLaws
  import opened PassengerFlow

  /** Wagon events, timeouts and new rows, of any tracks and coaches. */
  predicate Traffic(x: Laws.Step) {
    x.ExitStep? || x.EntryStep? || x.TimeoutStep? || x.SeedStep?
  }

  predicate AllTraffic(steps: seq<Laws.Step>) {
    forall x | x in steps :: Traffic(x)
  }

  predicate ForwardExit(x: Laws.Step) {
    x.ExitStep? && !L.Redacted(x.e) && !x.e.expectOrphan
  }

  /** Whether an exit of the track is waiting for its entry: the last of its messages that count decides. */
  function Waiting(before: bool, steps: seq<Laws.Step>, track: int): bool
    decreases |steps|
  {
    if steps == [] then before
    else
      var x := steps[|steps| - 1];
      if ForwardExit(x) && x.e.track == Some(track) then true
      else if (x.EntryStep? && !L.Redacted(x.e) && x.e.track == Some(track)) || x == Laws.TimeoutStep(track) then false
      else Waiting(before, steps[..|steps| - 1], track)
  }

  /** The exit would be dropped as a duplicate: an earlier one of its track is still waiting. */
  predicate Duplicate(pending: set<int>, before: seq<Laws.Step>, x: Laws.Step) {
    ForwardExit(x) && Waiting(x.e.track.value in pending, before, x.e.track.value)
  }

  function One(b: bool): nat { if b then 1 else 0 }

  predicate LeavesFrom(x: Laws.Step, c: string) {
    x.ExitStep? && !L.Redacted(x.e) && x.e.coachFrom == c
  }

  predicate ArrivesIn(x: Laws.Step, c: string) {
    x.EntryStep? && !L.Redacted(x.e) && x.e.coachTo == c
  }

  function Departures(steps: seq<Laws.Step>, c: string): nat {
    if steps == [] then 0
    else Departures(steps[..|steps| - 1], c) + One(LeavesFrom(steps[|steps| - 1], c))
  }

  function Arrivals(steps: seq<Laws.Step>, c: string): nat {
    if steps == [] then 0
    else Arrivals(steps[..|steps| - 1], c) + One(ArrivesIn(steps[|steps| - 1], c))
  }

  /** How many exits from the coach are dropped. */
  function Dropped(pending: set<int>, steps: seq<Laws.Step>, c: string): nat {
    if steps == [] then 0
    else
      var init, x := steps[..|steps| - 1], steps[|steps| - 1];
      Dropped(pending, init, c) + One(LeavesFrom(x, c) && Duplicate(pending, init, x))
  }

  lemma {:induction false} RunSnoc(cfg: L.Config, s: L.State, steps: seq<Laws.Step>, x: Laws.Step)
    requires cfg.bucketSize >= 1
    ensures RunLedger(cfg, s, steps + [x]) == Laws.Apply(cfg, RunLedger(cfg, s, steps), x)
    decreases |steps|
  {
    if steps == [] {
      assert ([] + [x])[1..] == [];
    } else {
      assert (steps + [x])[1..] == steps[1..] + [x];
      RunSnoc(cfg, Laws.Apply(cfg, s, steps[0]), steps[1..], x);
    }
  }

  /** What one message does to one coach's count and to one track's pending exit. */
  lemma OneMessage(cfg: L.Config, s: L.State, x: Laws.Step, c: string, track: int)
    requires cfg.bucketSize >= 1 && Traffic(x)
    ensures var t := Laws.Apply(cfg, s, x);
            && L.RowOf(t, c).count == L.RowOf(s, c).count + One(ArrivesIn(x, c))
                 - One(LeavesFrom(x, c) && !(ForwardExit(x) && x.e.track.value in s.pending))
            && (track in t.pending <==>
                  (ForwardExit(x) && x.e.track == Some(track))
                  || (track in s.pending && x != Laws.TimeoutStep(track)
                      && !(x.EntryStep? && !L.Redacted(x.e) && x.e.track == Some(track))))
  {
  }

  /**
   Whatever arrives in whatever order, a coach's count moves by its arrivals less its departures, except
   that a dropped exit takes nobody out; and a track's exit is pending exactly when it is waiting.
   */
  lemma {:induction false} CountsFollowMessages(cfg: L.Config, s: L.State, steps: seq<Laws.Step>, c: string)
    requires cfg.bucketSize >= 1 && AllTraffic(steps)
    ensures var t := RunLedger(cfg, s, steps);
            && L.RowOf(t, c).count
               == L.RowOf(s, c).count + Arrivals(steps, c) - Departures(steps, c) + Dropped(s.pending.Keys, steps, c)
            && forall track :: track in t.pending <==> Waiting(track in s.pending, steps, track)
    decreases |steps|
  {
    if steps != [] {
      var init, x := steps[..|steps| - 1], steps[|steps| - 1];
      CountsFollowMessages(cfg, s, init, c);
      assert steps == init + [x] && x in steps;
      RunSnoc(cfg, s, init, x);
      var u := RunLedger(cfg, s, init);
      forall track { OneMessage(cfg, u, x, c, track); }
    }
  }

  /** In the order given, the count moves by exactly arrivals less departures when no exit is dropped, and only then. */
  lemma CountIsExactIff(cfg: L.Config, s: L.State, steps: seq<Laws.Step>, c: string)
    requires cfg.bucketSize >= 1 && AllTraffic(steps)
    ensures L.RowOf(RunLedger(cfg, s, steps), c).count
              == L.RowOf(s, c).count + Arrivals(steps, c) - Departures(steps, c)
       <==> forall i | 0 <= i < |steps| && LeavesFrom(steps[i], c) :: !Duplicate(s.pending.Keys, steps[..i], steps[i])
  {
    CountsFollowMessages(cfg, s, steps, c);
    NoneDroppedIff(s.pending.Keys, steps, c, |steps|);
    assert steps[..|steps|] == steps;
  }

  lemma {:induction false} NoneDroppedIff(pending: set<int>, steps: seq<Laws.Step>, c: string, n: nat)
    requires n <= |steps|
    ensures Dropped(pending, steps[..n], c) == 0
       <==> forall i | 0 <= i < n && LeavesFrom(steps[i], c) :: !Duplicate(pending, steps[..i], steps[i])
    decreases n
  {
    if n > 0 {
      NoneDroppedIff(pending, steps, c, n - 1);
      assert steps[..n][..n - 1] == steps[..n - 1];
    }
  }

  // ---------------------------------------------------------------- one track through one gangway

  function Exits(g: Gangway, track: int, crossings: seq<T.Traversal>, now: int): seq<Laws.Step> {
    if crossings == [] then []
    else [Report(g, T.EventOf(T.Fwd, track, crossings[0]), now)] + Exits(g, track, crossings[1..], now)
  }

  function Entries(g: Gangway, track: int, crossings: seq<T.Traversal>, now: int): seq<Laws.Step> {
    if crossings == [] then []
    else [Report(g, T.EventOf(T.Aft, track, crossings[0]), now)] + Entries(g, track, crossings[1..], now)
  }

  /** `steps` is an interleaving of the two streams. */
  predicate Merges(steps: seq<Laws.Step>, xs: seq<Laws.Step>, es: seq<Laws.Step>) {
    if steps == [] then xs == [] && es == []
    else
      (xs != [] && steps[0] == xs[0] && Merges(steps[1..], xs[1..], es))
      || (es != [] && steps[0] == es[0] && Merges(steps[1..], xs, es[1..]))
  }

  lemma {:induction false} FlowAdds(a: seq<Laws.Step>, b: seq<Laws.Step>, c: string)
    ensures Departures(a + b, c) == Departures(a, c) + Departures(b, c)
    ensures Arrivals(a + b, c) == Arrivals(a, c) + Arrivals(b, c)
    decreases |b|
  {
    if b == [] {
      assert a + b == a;
    } else {
      FlowAdds(a, b[..|b| - 1], c);
      assert (a + b)[..|a + b| - 1] == a + b[..|b| - 1];
    }
  }

  lemma HeadFlow(steps: seq<Laws.Step>, c: string)
    requires steps != []
    ensures Departures(steps, c) == One(LeavesFrom(steps[0], c)) + Departures(steps[1..], c)
    ensures Arrivals(steps, c) == One(ArrivesIn(steps[0], c)) + Arrivals(steps[1..], c)
  {
    FlowAdds([steps[0]], steps[1..], c);
    assert [steps[0]] + steps[1..] == steps && [steps[0]][..0] == [];
  }

  lemma {:induction false} MergedFlow(steps: seq<Laws.Step>, xs: seq<Laws.Step>, es: seq<Laws.Step>, c: string)
    requires Merges(steps, xs, es)
    ensures Departures(steps, c) == Departures(xs, c) + Departures(es, c)
    ensures Arrivals(steps, c) == Arrivals(xs, c) + Arrivals(es, c)
    ensures AllTraffic(xs) && AllTraffic(es) ==> AllTraffic(steps)
    decreases |steps|
  {
    if steps != [] {
      HeadFlow(steps, c);
      assert steps == [steps[0]] + steps[1..];
      if xs != [] && steps[0] == xs[0] && Merges(steps[1..], xs[1..], es) {
        HeadFlow(xs, c);
        assert xs == [xs[0]] + xs[1..];
        MergedFlow(steps[1..], xs[1..], es, c);
      } else {
        HeadFlow(es, c);
        assert es == [es[0]] + es[1..];
        MergedFlow(steps[1..], xs, es[1..], c);
      }
    }
  }

  lemma {:induction false} StreamFlow(g: Gangway, track: int, crossings: seq<T.Traversal>, now: int, c: string)
    ensures var xs, es := Exits(g, track, crossings, now), Entries(g, track, crossings, now);
            && AllTraffic(xs) && AllTraffic(es)
            && Departures(xs, c) == (if c == g.coachFrom then |crossings| else 0) && Arrivals(xs, c) == 0
            && Arrivals(es, c) == (if c == g.coachTo then |crossings| else 0) && Departures(es, c) == 0
    decreases |crossings|
  {
    var xs, es := Exits(g, track, crossings, now), Entries(g, track, crossings, now);
    if crossings != [] {
      StreamFlow(g, track, crossings[1..], now, c);
      HeadFlow(xs, c);
      HeadFlow(es, c);
    }
  }

  /**
   However the two cameras' events interleave, n crossings add n to the far coach; they take n from the
   near one exactly when no exit arrives while an earlier one still waits for its entry.
   */
  lemma {:induction false} AnyMergeMovesForwardIff(cfg: L.Config, s: L.State, g: Gangway, track: int,
                                                   crossings: seq<T.Traversal>, now: int, steps: seq<Laws.Step>)
    requires cfg.bucketSize >= 1 && g.coachFrom != g.coachTo
    requires Merges(steps, Exits(g, track, crossings, now), Entries(g, track, crossings, now))
    ensures var t := RunLedger(cfg, s, steps);
            && L.RowOf(t, g.coachTo).count == L.RowOf(s, g.coachTo).count + |crossings|
            && (L.RowOf(t, g.coachFrom).count == L.RowOf(s, g.coachFrom).count - |crossings|
                <==> forall i | 0 <= i < |steps| && LeavesFrom(steps[i], g.coachFrom) ::
                       !Duplicate(s.pending.Keys, steps[..i], steps[i]))
  {
    var xs, es := Exits(g, track, crossings, now), Entries(g, track, crossings, now);
    StreamFlow(g, track, crossings, now, g.coachFrom);
    MergedFlow(steps, xs, es, g.coachFrom);
    StreamFlow(g, track, crossings, now, g.coachTo);
    MergedFlow(steps, xs, es, g.coachTo);
    assert AllTraffic(steps);
    CountIsExactIff(cfg, s, steps, g.coachFrom);
    CountIsExactIff(cfg, s, steps, g.coachTo);
    NoDepartures(steps, g.coachTo);
  }

  lemma {:induction false} NoDepartures(steps: seq<Laws.Step>, c: string)
    requires Departures(steps, c) == 0
    ensures forall i | 0 <= i < |steps| :: !LeavesFrom(steps[i], c)
    decreases |steps|
  {
    if steps != [] {
      var init := steps[..|steps| - 1];
      NoDepartures(init, c);
      assert forall i | 0 <= i < |init| :: init[i] == steps[i];
    }
  }

  /**
   The events carry the direction of each crossing and the ledger does not look at it: in whatever order
   they arrive, the far coach's count follows a passenger exactly when that passenger never crosses back.
   */
  lemma CountsFollowPassengerIff(cfg: L.Config, s: L.State, g: Gangway, track: int, crossings: seq<T.Traversal>,
                                 now: int, steps: seq<Laws.Step>)
    requires cfg.bucketSize >= 1 && g.coachFrom != g.coachTo
    requires Merges(steps, Exits(g, track, crossings, now), Entries(g, track, crossings, now))
    ensures L.RowOf(RunLedger(cfg, s, steps), g.coachTo).count - L.RowOf(s, g.coachTo).count
              == T.Count(T.FromTo, crossings) - T.Count(T.ToFrom, crossings)
            <==> T.ToFrom !in crossings
  {
    AnyMergeMovesForwardIff(cfg, s, g, track, crossings, now, steps);
    CountsAddUp(crossings);
  }

  // ---------------------------------------------------------------- which crossings can be delivered in any order

  /** The tracks with a waiting exit, one message later. */
  function After(pending: set<int>, x: Laws.Step): set<int> {
    if ForwardExit(x) then pending + {x.e.track.value}
    else if x.EntryStep? && !L.Redacted(x.e) then pending - {x.e.track.value}
    else if x.TimeoutStep? then pending - {x.track}
    else pending
  }

  lemma {:induction false} WaitingHead(pending: set<int>, x: Laws.Step, rest: seq<Laws.Step>, track: int)
    ensures Waiting(track in pending, [x] + rest, track) == Waiting(track in After(pending, x), rest, track)
    decreases |rest|
  {
    var all := [x] + rest;
    if rest == [] {
      assert all[..|all| - 1] == [] && all == [x];
    } else {
      assert all[..|all| - 1] == [x] + rest[..|rest| - 1] && all[|all| - 1] == rest[|rest| - 1];
      WaitingHead(pending, x, rest[..|rest| - 1], track);
    }
  }

  lemma {:induction false} DroppedHead(pending: set<int>, x: Laws.Step, rest: seq<Laws.Step>, c: string)
    ensures Dropped(pending, [x] + rest, c)
         == One(LeavesFrom(x, c) && Duplicate(pending, [], x)) + Dropped(After(pending, x), rest, c)
    decreases |rest|
  {
    var all := [x] + rest;
    if rest == [] {
      assert all[..|all| - 1] == [] && all == [x];
    } else {
      var init, y := rest[..|rest| - 1], rest[|rest| - 1];
      assert all[..|all| - 1] == [x] + init && all[|all| - 1] == y;
      DroppedHead(pending, x, init, c);
      if ForwardExit(y) {
        WaitingHead(pending, x, init, y.e.track.value);
      }
    }
  }

  function ExitOf(g: Gangway, track: int, c: T.Traversal, now: int): Laws.Step {
    Report(g, T.EventOf(T.Fwd, track, c), now)
  }

  function EntryOf(g: Gangway, track: int, c: T.Traversal, now: int): Laws.Step {
    Report(g, T.EventOf(T.Aft, track, c), now)
  }

  /** An exit of the gangway is dropped when it is forward and its track waits; a forward one makes it wait. */
  lemma ExitHead(g: Gangway, track: int, c: T.Traversal, now: int, pending: set<int>, rest: seq<Laws.Step>)
    ensures Dropped(pending, [ExitOf(g, track, c, now)] + rest, g.coachFrom)
         == One(c == T.FromTo && track in pending)
            + Dropped(if c == T.FromTo then pending + {track} else pending, rest, g.coachFrom)
  {
    DroppedHead(pending, ExitOf(g, track, c, now), rest, g.coachFrom);
  }

  /** An entry is never dropped and ends the waiting of its track. */
  lemma EntryHead(g: Gangway, track: int, c: T.Traversal, now: int, pending: set<int>, rest: seq<Laws.Step>)
    ensures Dropped(pending, [EntryOf(g, track, c, now)] + rest, g.coachFrom)
         == Dropped(pending - {track}, rest, g.coachFrom)
  {
    DroppedHead(pending, EntryOf(g, track, c, now), rest, g.coachFrom);
  }

  function Forward(crossings: seq<T.Traversal>): nat {
    T.Count(T.FromTo, crossings)
  }

  lemma {:induction false} EntriesDropNothing(g: Gangway, track: int, ce: seq<T.Traversal>, now: int, pending: set<int>)
    ensures Dropped(pending, Entries(g, track, ce, now), g.coachFrom) == 0
    decreases |ce|
  {
    if ce != [] {
      EntriesDropNothing(g, track, ce[1..], now, pending - {track});
      EntryHead(g, track, ce[0], now, pending, Entries(g, track, ce[1..], now));
    }
  }

  /** All exits before all entries: every forward exit but the first is dropped, and the first if the track waits. */
  lemma {:induction false} ExitsFirst(g: Gangway, track: int, cx: seq<T.Traversal>, ce: seq<T.Traversal>, now: int,
                                      pending: set<int>)
    ensures Dropped(pending, Exits(g, track, cx, now) + Entries(g, track, ce, now), g.coachFrom)
         == if Forward(cx) == 0 then 0 else Forward(cx) - 1 + One(track in pending)
    decreases |cx|
  {
    var xs, es := Exits(g, track, cx, now), Entries(g, track, ce, now);
    if cx == [] {
      assert xs + es == es;
      EntriesDropNothing(g, track, ce, now, pending);
    } else {
      var rest := Exits(g, track, cx[1..], now) + es;
      assert xs + es == [ExitOf(g, track, cx[0], now)] + rest;
      ExitHead(g, track, cx[0], now, pending, rest);
      ExitsFirst(g, track, cx[1..], ce, now, if cx[0] == T.FromTo then pending + {track} else pending);
    }
  }

  /** All entries before all exits: as if the track did not wait, when there is an entry at all. */
  lemma {:induction false} EntriesFirst(g: Gangway, track: int, cx: seq<T.Traversal>, ce: seq<T.Traversal>, now: int,
                                        pending: set<int>)
    ensures Dropped(pending, Entries(g, track, ce, now) + Exits(g, track, cx, now), g.coachFrom)
         == if Forward(cx) == 0 then 0 else Forward(cx) - 1 + One(track in pending && ce == [])
    decreases |ce|
  {
    var xs, es := Exits(g, track, cx, now), Entries(g, track, ce, now);
    if ce == [] {
      assert es + xs == xs + Entries(g, track, [], now);
      ExitsFirst(g, track, cx, [], now, pending);
    } else {
      var rest := Entries(g, track, ce[1..], now) + xs;
      assert es + xs == [EntryOf(g, track, ce[0], now)] + rest;
      EntryHead(g, track, ce[0], now, pending, rest);
      EntriesFirst(g, track, cx, ce[1..], now, pending - {track});
    }
  }

  /** Each exit right before its entry: at most the very first exit is dropped. */
  lemma {:induction false} Alternating(g: Gangway, track: int, crossings: seq<T.Traversal>, now: int, pending: set<int>)
    ensures Dropped(pending, Steps(g, track, crossings, now), g.coachFrom) <= One(track in pending)
    decreases |crossings|
  {
    if crossings != [] {
      var c, rest := crossings[0], Steps(g, track, crossings[1..], now);
      var x, e := ExitOf(g, track, c, now), EntryOf(g, track, c, now);
      assert Steps(g, track, crossings, now) == [x] + ([e] + rest);
      var waiting := if c == T.FromTo then pending + {track} else pending;
      ExitHead(g, track, c, now, pending, [e] + rest);
      EntryHead(g, track, c, now, waiting, rest);
      Alternating(g, track, crossings[1..], now, waiting - {track});
    }
  }

  lemma {:induction false} AlternatingMerges(g: Gangway, track: int, crossings: seq<T.Traversal>, now: int)
    ensures Merges(Steps(g, track, crossings, now), Exits(g, track, crossings, now), Entries(g, track, crossings, now))
    decreases |crossings|
  {
    if crossings != [] {
      var steps := Steps(g, track, crossings, now);
      var xs, es := Exits(g, track, crossings, now), Entries(g, track, crossings, now);
      AlternatingMerges(g, track, crossings[1..], now);
      assert steps[1..][1..] == Steps(g, track, crossings[1..], now);
      assert steps[1..][0] == es[0] && Merges(steps[1..], xs[1..], es);
    }
  }

  lemma {:induction false} EntriesFirstMerges(xs: seq<Laws.Step>, es: seq<Laws.Step>)
    ensures Merges(es + xs, xs, es)
    decreases |xs| + |es|
  {
    if es != [] {
      assert (es + xs)[0] == es[0] && (es + xs)[1..] == es[1..] + xs;
      EntriesFirstMerges(xs, es[1..]);
    } else if xs != [] {
      assert es + xs == xs && es + xs[1..] == xs[1..];
      EntriesFirstMerges(xs[1..], es);
    }
  }

  /** With at most one forward exit, and none waiting before it, no interleaving drops anything. */
  lemma {:induction false} NoMergeDrops(g: Gangway, track: int, cx: seq<T.Traversal>, ce: seq<T.Traversal>, now: int,
                                        pending: set<int>, steps: seq<Laws.Step>)
    requires Merges(steps, Exits(g, track, cx, now), Entries(g, track, ce, now))
    requires Forward(cx) == 0 || (Forward(cx) == 1 && track !in pending)
    ensures Dropped(pending, steps, g.coachFrom) == 0
    decreases |steps|
  {
    var xs, es := Exits(g, track, cx, now), Entries(g, track, ce, now);
    if steps != [] {
      assert steps == [steps[0]] + steps[1..];
      if xs != [] && steps[0] == xs[0] && Merges(steps[1..], xs[1..], es) {
        assert xs[0] == ExitOf(g, track, cx[0], now) && xs[1..] == Exits(g, track, cx[1..], now);
        ExitHead(g, track, cx[0], now, pending, steps[1..]);
        NoMergeDrops(g, track, cx[1..], ce, now, if cx[0] == T.FromTo then pending + {track} else pending, steps[1..]);
      } else {
        assert es[0] == EntryOf(g, track, ce[0], now) && es[1..] == Entries(g, track, ce[1..], now);
        EntryHead(g, track, ce[0], now, pending, steps[1..]);
        NoMergeDrops(g, track, cx, ce[1..], now, pending - {track}, steps[1..]);
      }
    }
  }

  /** The count of the near coach after an interleaving depends on it through the dropped exits only. */
  lemma NearCount(cfg: L.Config, s: L.State, g: Gangway, track: int, crossings: seq<T.Traversal>, now: int,
                  steps: seq<Laws.Step>)
    requires cfg.bucketSize >= 1 && g.coachFrom != g.coachTo
    requires Merges(steps, Exits(g, track, crossings, now), Entries(g, track, crossings, now))
    ensures L.RowOf(RunLedger(cfg, s, steps), g.coachFrom).count
         == L.RowOf(s, g.coachFrom).count - |crossings| + Dropped(s.pending.Keys, steps, g.coachFrom)
  {
    StreamFlow(g, track, crossings, now, g.coachFrom);
    MergedFlow(steps, Exits(g, track, crossings, now), Entries(g, track, crossings, now), g.coachFrom);
    CountsFollowMessages(cfg, s, steps, g.coachFrom);
  }

  ghost predicate OrderIsIrrelevant(cfg: L.Config, s: L.State, g: Gangway, track: int, crossings: seq<T.Traversal>,
                                    now: int)
    requires cfg.bucketSize >= 1
  {
    var xs, es := Exits(g, track, crossings, now), Entries(g, track, crossings, now);
    forall a, b | Merges(a, xs, es) && Merges(b, xs, es) ::
      L.RowOf(RunLedger(cfg, s, a), g.coachFrom).count == L.RowOf(RunLedger(cfg, s, b), g.coachFrom).count
  }

  /**
   The order in which the two cameras' events arrive does not matter to the near coach exactly when no
   crossing is forward, or one is and the track has no exit waiting from before. (It never matters to
   the far coach.)
   */
  lemma OrderIsIrrelevantIff(cfg: L.Config, s: L.State, g: Gangway, track: int, crossings: seq<T.Traversal>, now: int)
    requires cfg.bucketSize >= 1 && g.coachFrom != g.coachTo
    ensures OrderIsIrrelevant(cfg, s, g, track, crossings, now)
       <==> Forward(crossings) == 0 || (Forward(crossings) == 1 && track !in s.pending)
  {
    var xs, es := Exits(g, track, crossings, now), Entries(g, track, crossings, now);
    if Forward(crossings) == 0 || (Forward(crossings) == 1 && track !in s.pending) {
      forall a | Merges(a, xs, es)
        ensures L.RowOf(RunLedger(cfg, s, a), g.coachFrom).count == L.RowOf(s, g.coachFrom).count - |crossings|
      {
        NearCount(cfg, s, g, track, crossings, now, a);
        NoMergeDrops(g, track, crossings, crossings, now, s.pending.Keys, a);
      }
    } else {
      var other := TwoOrders(g, track, crossings, now, s.pending.Keys);
      ConcatMerges(xs, es);
      NearCount(cfg, s, g, track, crossings, now, xs + es);
      NearCount(cfg, s, g, track, crossings, now, other);
    }
  }

  /** Exits first against entries first or strict alternation. */
  lemma TwoOrders(g: Gangway, track: int, crossings: seq<T.Traversal>, now: int, pending: set<int>)
    returns (other: seq<Laws.Step>)
    requires Forward(crossings) > 1 || (Forward(crossings) == 1 && track in pending)
    ensures var xs, es := Exits(g, track, crossings, now), Entries(g, track, crossings, now);
            && Merges(other, xs, es)
            && Dropped(pending, other, g.coachFrom) < Dropped(pending, xs + es, g.coachFrom)
  {
    ExitsFirst(g, track, crossings, crossings, now, pending);
    if track in pending {
      other := Entries(g, track, crossings, now) + Exits(g, track, crossings, now);
      EntriesFirst(g, track, crossings, crossings, now, pending);
      EntriesFirstMerges(Exits(g, track, crossings, now), Entries(g, track, crossings, now));
    } else {
      other := Steps(g, track, crossings, now);
      Alternating(g, track, crossings, now, pending);
      AlternatingMerges(g, track, crossings, now);
    }
  }

  // ---------------------------------------------------------------- two failing inputs

  /** There and back: the passenger is where the walk began, and the far coach counts two more. */
  lemma ThereAndBack(cfg: L.Config, s: L.State, g: Gangway, track: int, now: int)
    requires cfg.bucketSize >= 1 && g.coachFrom != g.coachTo
    ensures var crossings := [T.FromTo, T.ToFrom];
            var steps := Exits(g, track, crossings, now) + Entries(g, track, crossings, now);
            L.RowOf(RunLedger(cfg, s, steps), g.coachTo).count == L.RowOf(s, g.coachTo).count + 2
  {
    var crossings := [T.FromTo, T.ToFrom];
    var xs, es := Exits(g, track, crossings, now), Entries(g, track, crossings, now);
    ConcatMerges(xs, es);
    AnyMergeMovesForwardIff(cfg, s, g, track, crossings, now, xs + es);
  }

  lemma {:induction false} ConcatMerges(xs: seq<Laws.Step>, es: seq<Laws.Step>)
    ensures Merges(xs + es, xs, es)
    decreases |xs| + |es|
  {
    if xs != [] {
      assert (xs + es)[0] == xs[0] && (xs + es)[1..] == xs[1..] + es;
      ConcatMerges(xs[1..], es);
    } else if es != [] {
      assert xs + es == es && xs + es[1..] == es[1..];
      ConcatMerges(xs, es[1..]);
    }
  }

  /** Two crossings forward whose exits both arrive before an entry: the second exit is dropped. */
  lemma SecondExitDropped(cfg: L.Config, s: L.State, g: Gangway, track: int, now: int)
    requires cfg.bucketSize >= 1 && g.coachFrom != g.coachTo
    ensures var crossings := [T.FromTo, T.FromTo];
            var steps := Exits(g, track, crossings, now) + Entries(g, track, crossings, now);
            L.RowOf(RunLedger(cfg, s, steps), g.coachFrom).count != L.RowOf(s, g.coachFrom).count - 2
  {
    var crossings := [T.FromTo, T.FromTo];
    var xs, es := Exits(g, track, crossings, now), Entries(g, track, crossings, now);
    var steps := xs + es;
    ConcatMerges(xs, es);
    AnyMergeMovesForwardIff(cfg, s, g, track, crossings, now, steps);
    var x := Report(g, T.EventOf(T.Fwd, track, T.FromTo), now);
    assert crossings[1..] == [T.FromTo] && [T.FromTo][1..] == [];
    assert Exits(g, track, [T.FromTo], now) == [x];
    assert xs == [x, x] && steps[0] == x == steps[1];
    assert steps[..1][0] == x && ForwardExit(x) && x.e.track == Some(track);
    assert LeavesFrom(steps[1], g.coachFrom) && Duplicate(s.pending.Keys, steps[..1], steps[1]);
  }
}
