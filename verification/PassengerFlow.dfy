/**
 The pipeline from the two gangway cameras to the ledger: each crossing is reported as an
 exit by the forward camera and as an entry by the aft camera, and the ledger applies both.
 */
module PassengerFlow {
  import opened Keys
  import T = Tripwire
  import L = Ledger
  import Laws = LedgerLaws

  datatype Gangway = Gangway(coachFrom: string, coachTo: string, fwdCamera: string, aftCamera: string)

  /** The ledger step a camera's event becomes. */
  function Report(g: Gangway, e: T.WagonEvent, now: int): Laws.Step {
    match e
    case WagonExit(track, _, expectOrphan) =>
      Laws.ExitStep(L.WagonEvent(Some(track), Some(g.fwdCamera), g.coachFrom, g.coachTo, expectOrphan))
    case WagonEntry(track, _) =>
      Laws.EntryStep(L.WagonEvent(Some(track), Some(g.aftCamera), g.coachFrom, g.coachTo, false), now)
  }

  function Steps(g: Gangway, track: int, crossings: seq<T.Traversal>, now: int): seq<Laws.Step> {
    if crossings == [] then []
    else
      [Report(g, T.EventOf(T.Fwd, track, crossings[0]), now), Report(g, T.EventOf(T.Aft, track, crossings[0]), now)]
      + Steps(g, track, crossings[1..], now)
  }

  function RunLedger(cfg: L.Config, s: L.State, steps: seq<Laws.Step>): L.State
    requires cfg.bucketSize >= 1
    decreases |steps|
  {
    if steps == [] then s else RunLedger(cfg, Laws.Apply(cfg, s, steps[0]), steps[1..])
  }

  /** Every crossing, in whichever direction, takes one from `coachFrom` and adds one to `coachTo`. */
  lemma {:induction false} EveryCrossingMovesForward(cfg: L.Config, s: L.State, g: Gangway, track: int,
                                                     crossings: seq<T.Traversal>, now: int)
    requires cfg.bucketSize >= 1 && g.coachFrom != g.coachTo && track !in s.pending
    requires forall c :: L.RowOf(s, c).unreconciled >= 0
    ensures var t := RunLedger(cfg, s, Steps(g, track, crossings, now));
            && t.pending == s.pending
            && L.RowOf(t, g.coachFrom).count == L.RowOf(s, g.coachFrom).count - |crossings|
            && L.RowOf(t, g.coachTo).count == L.RowOf(s, g.coachTo).count + |crossings|
            && forall c | c != g.coachFrom && c != g.coachTo :: L.RowOf(t, c) == L.RowOf(s, c)
    decreases |crossings|
  {
    if crossings != [] {
      var u := OneCrossing(cfg, s, g, track, crossings[0], now, Steps(g, track, crossings[1..], now));
      EveryCrossingMovesForward(cfg, u, g, track, crossings[1..], now);
    }
  }

  /** One passenger less in `coachFrom`, one more in `coachTo`, nothing else of note. */
  ghost predicate Moved(g: Gangway, s: L.State, u: L.State) {
    && u.pending == s.pending && (forall x :: L.RowOf(u, x).unreconciled >= 0)
    && L.RowOf(u, g.coachFrom).count == L.RowOf(s, g.coachFrom).count - 1
    && L.RowOf(u, g.coachTo).count == L.RowOf(s, g.coachTo).count + 1
    && forall x | x != g.coachFrom && x != g.coachTo :: L.RowOf(u, x) == L.RowOf(s, x)
  }

  lemma OneCrossing(cfg: L.Config, s: L.State, g: Gangway, track: int, c: T.Traversal, now: int,
                    rest: seq<Laws.Step>) returns (u: L.State)
    requires cfg.bucketSize >= 1 && g.coachFrom != g.coachTo && track !in s.pending
    requires forall x :: L.RowOf(s, x).unreconciled >= 0
    ensures var two := [Report(g, T.EventOf(T.Fwd, track, c), now), Report(g, T.EventOf(T.Aft, track, c), now)];
            RunLedger(cfg, s, two + rest) == RunLedger(cfg, u, rest)
    ensures Moved(g, s, u)
  {
    var exit, entry := Report(g, T.EventOf(T.Fwd, track, c), now), Report(g, T.EventOf(T.Aft, track, c), now);
    u := L.Entry(L.Exit(s, exit.e), entry.e, now);
    assert ([exit, entry] + rest)[1..] == [entry] + rest && ([entry] + rest)[1..] == rest;
    PairMoves(s, g, exit.e, entry.e, now);
  }

  lemma PairMoves(s: L.State, g: Gangway, exit: L.WagonEvent, entry: L.WagonEvent, now: int)
    requires !L.Redacted(exit) && !L.Redacted(entry) && exit.track == entry.track && exit.track.value !in s.pending
    requires exit.coachFrom == g.coachFrom && entry.coachTo == g.coachTo && g.coachFrom != g.coachTo
    requires forall x :: L.RowOf(s, x).unreconciled >= 0
    ensures Moved(g, s, L.Entry(L.Exit(s, exit), entry, now))
  {
    var m := L.Exit(s, exit);
    var u := L.Entry(m, entry, now);
    if !exit.expectOrphan {
      Laws.MatchedPairMovesOne(s, exit, entry, now);
    }
    forall x | x != g.coachFrom && x != g.coachTo ensures L.RowOf(u, x) == L.RowOf(s, x) {}
  }

  lemma CountsAddUp(cs: seq<T.Traversal>)
    ensures T.Count(T.FromTo, cs) + T.Count(T.ToFrom, cs) == |cs|
    ensures T.Count(T.ToFrom, cs) == 0 <==> T.ToFrom !in cs
  {
    if cs != [] {
      CountsAddUp(cs[1..]);
      assert cs == [cs[0]] + cs[1..];
    }
  }
}
