/**
 A run with in-order appends in which an acknowledgement makes event-store delete an event
 that was never pulled, and the pull cursor's own event with it: the truncation keeps the
 three newest journeys and does not look at any cursor. The events it keeps are lost too.
 */
module SyncWitness {
  import opened Keys
  import opened Queue
  import ES = EventStore
  import opened SyncProtocol
  import opened SyncTheorems
  import opened PullProgress
  import T = Truncation

  const CFG := Config(_ => Clear(""), 1, 1)

  function Ev(n: int, journey: string): ES.Event {
    ES.Event(n, n, journey, "OCCUPANCY_UPDATE", "info", None, 1)
  }

  const EVENTS := map[1 := Ev(1, "A"), 2 := Ev(2, "A"), 3 := Ev(3, "B"), 4 := Ev(4, "C"), 5 := Ev(5, "D")]

  const K1 := Key(1, 1)

  const KEEP := {"B", "C", "D"}

  const APPENDS := [Append(Ev(1, "A")), Append(Ev(2, "A")), Append(Ev(3, "B")), Append(Ev(4, "C")), Append(Ev(5, "D"))]

  const TASKS := [PullPage, PullCommit, FetchBatch, PublishOk, AckSend, Truncate(K1, KEEP)]

  ghost predicate Leads(s: Sys, step: Step, t: Sys) {
    Enabled(CFG, s, step) && Next(CFG, s, step) == t
  }

  ghost const FULL := INIT.(ever := EVENTS, store := EVENTS)

  ghost const QUEUED := FULL.(db := Db(map[1 := Row(1, "", false, 0, None)], Some(1), None), enqueued := {K1})

  ghost const SENT := QUEUED.(
    db := Db(map[1 := Row(1, "", true, 0, None)], Some(1), None), acks := [K1], sent := {K1}, ack := Awaiting(1))

  ghost const CUT := SENT.(store := map[3 := Ev(3, "B"), 4 := Ev(4, "C"), 5 := Ev(5, "D")])

  lemma RunOne(s: Sys, step: Step, t: Sys, rest: seq<Step>)
    requires Leads(s, step, t)
    ensures Run(CFG, s, [step] + rest) == Run(CFG, t, rest)
  {
    assert ([step] + rest)[1..] == rest;
  }

  /** Three runs of one step each, put together. */
  lemma ThreeRuns(s0: Sys, a: Step, s1: Sys, b: Step, s2: Sys, c: Step, s3: Sys, rest: seq<Step>)
    requires Run(CFG, s0, [a] + ([b] + ([c] + rest))) == Run(CFG, s1, [b] + ([c] + rest))
    requires Run(CFG, s1, [b] + ([c] + rest)) == Run(CFG, s2, [c] + rest)
    requires Run(CFG, s2, [c] + rest) == Run(CFG, s3, rest)
    ensures Run(CFG, s0, [a, b, c] + rest) == Run(CFG, s3, rest)
  {
    assert [a, b, c] + rest == [a] + ([b] + ([c] + rest));
  }

  lemma AppendRuns(events: map<int, ES.Event>, e: ES.Event, rest: seq<Step>)
    requires e.id !in events
    ensures Run(CFG, Holding(events), [Append(e)] + rest) == Run(CFG, Holding(events[e.id := e]), rest)
  {
    RunOne(Holding(events), Append(e), Holding(events[e.id := e]), rest);
  }

  lemma Appended()
    ensures Run(CFG, INIT, APPENDS) == FULL
  {
    var m1: map<int, ES.Event> := map[1 := Ev(1, "A")];
    var m2 := m1[2 := Ev(2, "A")];
    var m3 := m2[3 := Ev(3, "B")];
    var m4 := m3[4 := Ev(4, "C")];
    var e := [APPENDS[4]];
    AppendRuns(map[], Ev(1, "A"), APPENDS[1..]);
    AppendRuns(m1, Ev(2, "A"), APPENDS[2..]);
    AppendRuns(m2, Ev(3, "B"), APPENDS[3..]);
    AppendRuns(m3, Ev(4, "C"), APPENDS[4..]);
    AppendRuns(m4, Ev(5, "D"), APPENDS[5..]);
    forall i | 0 <= i < 5 ensures APPENDS[i..] == [APPENDS[i]] + APPENDS[i + 1..] {}
    assert APPENDS[0..] == APPENDS && APPENDS[5..] == [];
  }

  lemma FirstRow(cfg: Config, s: Sys, k: Key)
    requires ES.KeyedById(s.store) && cfg.pullLimit == 1
    requires k in ES.WantedKeys(s.store, After(s.db.pulled))
    requires forall x | x in ES.WantedKeys(s.store, After(s.db.pulled)) :: AtMost(k, x)
    ensures RawPage(cfg, s) == [k]
  {
    var ks := ES.WantedKeys(s.store, After(s.db.pulled));
    assert Least(ks) == k;
    assert OrderBy(ks) == [k] + OrderBy(ks - {k});
  }

  lemma OldestEvent()
    ensures ES.KeyedById(EVENTS) && K1 in ES.WantedKeys(EVENTS, After(None))
    ensures forall x | x in ES.WantedKeys(EVENTS, After(None)) :: AtMost(K1, x)
  {
    assert ES.KeyOf(EVENTS[1]) == K1 && ES.Wanted(EVENTS, After(None), EVENTS[1]);
  }

  lemma FirstPage()
    ensures ES.KeyedById(FULL.store) && RawPage(CFG, FULL) == [K1]
    ensures Leads(FULL, PullPage, PAGE)
  {
    OldestEvent();
    FirstRow(CFG, FULL, K1);
    OneEnvelope(CFG, FULL.store, K1);
  }

  lemma OneEnvelope(cfg: Config, events: map<int, ES.Event>, k: Key)
    requires k.id in events && ES.KeyOf(events[k.id]) == k && cfg.egress(events[k.id]).Clear?
    ensures Redact(cfg, events, [k]) == [WellFormed(k.id, k.ts, cfg.egress(events[k.id]).json)]
  {
    assert [k][1..] == [];
  }

  ghost const PAGE := FULL.(pull := Received([WellFormed(1, 1, "")]))

  ghost const BATCH := QUEUED.(batch := [K1])

  ghost const PUBLISHED := SENT.(sent := {}, ack := AckIdle)

  lemma Pulled()
    ensures Leads(PAGE, PullCommit, QUEUED)
  {
    var page := [WellFormed(1, 1, "")];
    assert WellFormedKeys(page) == [K1];
    assert AbsorbMany(PAGE, 1) == AbsorbMany(Absorb(PAGE), 0) == Absorb(PAGE);
    assert {} + {K1} == {K1};
  }

  lemma OneRow(published: bool)
    ensures var rows := map[1 := Row(1, "", published, 0, None)];
            && OrderBy(Pending(rows)) == (if published then [] else [K1])
            && PublishedPrefix(rows) == (if published then Some(1) else None)
  {
    var rows := map[1 := Row(1, "", published, 0, None)];
    assert RowKey(rows, 1) == K1;
    forall k ensures k in AllKeys(rows) <==> k == K1 { assert K1 in AllKeys(rows); }
    forall k ensures k in Pending(rows) <==> k == K1 && !published {
      if !published { assert K1 in Pending(rows); }
    }
    assert AllKeys(rows) == {K1};
    assert Pending(rows) == if published then {} else {K1};
    OrderOne(K1);
    assert [K1][1..] == [];
    assert Walk(rows, [K1], None) == if published then Walk(rows, [], Some(1)) else None;
  }

  lemma OrderOne(k: Key)
    ensures OrderBy({k}) == [k]
  {
    AscendingUnique(OrderBy({k}), [k]);
  }

  lemma Kept()
    ensures NewestThree(EVENTS, KEEP)
  {
    var journeys := set id | id in EVENTS :: EVENTS[id].journey;
    assert EVENTS[1].journey == "A" && EVENTS[3].journey == "B" && EVENTS[4].journey == "C" && EVENTS[5].journey == "D";
    assert journeys == KEEP + {"A"};
    assert |KEEP| == 3 && |journeys| == 4;
    forall a, b | a in KEEP && b in journeys - KEEP ensures LastEvent(EVENTS, b) <= LastEvent(EVENTS, a) {
      assert b == "A";
    }
  }

  lemma Fetched()
    ensures Leads(QUEUED, FetchBatch, BATCH)
  {
    OneRow(false);
  }

  lemma Published()
    ensures Leads(BATCH, PublishOk, PUBLISHED)
  {
    assert [K1][1..] == [];
  }

  lemma Sent()
    ensures Leads(PUBLISHED, AckSend, SENT)
  {
    OneRow(true);
    assert {} + {K1} == {K1};
  }

  lemma CutStore()
    ensures (map id | id in EVENTS && EVENTS[id].journey in KEEP :: EVENTS[id]) == CUT.store
  {
  }

  lemma Truncated()
    ensures Leads(SENT, Truncate(K1, KEEP), CUT)
  {
    Kept();
    CutStore();
    assert 1 in EVENTS;
  }

  lemma PullPageRuns(rest: seq<Step>)
    ensures Run(CFG, FULL, [PullPage] + rest) == Run(CFG, PAGE, rest)
  {
    FirstPage();
    RunOne(FULL, PullPage, PAGE, rest);
  }

  lemma PullCommitRuns(rest: seq<Step>)
    ensures Run(CFG, PAGE, [PullCommit] + rest) == Run(CFG, QUEUED, rest)
  {
    Pulled();
    RunOne(PAGE, PullCommit, QUEUED, rest);
  }

  lemma FetchRuns(rest: seq<Step>)
    ensures Run(CFG, QUEUED, [FetchBatch] + rest) == Run(CFG, BATCH, rest)
  {
    Fetched();
    RunOne(QUEUED, FetchBatch, BATCH, rest);
  }

  lemma PublishRuns(rest: seq<Step>)
    ensures Run(CFG, BATCH, [PublishOk] + rest) == Run(CFG, PUBLISHED, rest)
  {
    Published();
    RunOne(BATCH, PublishOk, PUBLISHED, rest);
  }

  lemma SendRuns(rest: seq<Step>)
    ensures Run(CFG, PUBLISHED, [AckSend] + rest) == Run(CFG, SENT, rest)
  {
    Sent();
    RunOne(PUBLISHED, AckSend, SENT, rest);
  }

  lemma TruncateRuns(rest: seq<Step>)
    ensures Run(CFG, SENT, [Truncate(K1, KEEP)] + rest) == Run(CFG, CUT, rest)
  {
    Truncated();
    RunOne(SENT, Truncate(K1, KEEP), CUT, rest);
  }

  lemma PullTasks(rest: seq<Step>)
    ensures Run(CFG, FULL, [PullPage, PullCommit, FetchBatch] + rest) == Run(CFG, BATCH, rest)
  {
    PullPageRuns([PullCommit] + ([FetchBatch] + rest));
    PullCommitRuns([FetchBatch] + rest);
    FetchRuns(rest);
    ThreeRuns(FULL, PullPage, PAGE, PullCommit, QUEUED, FetchBatch, BATCH, rest);
  }

  lemma AckTasks(rest: seq<Step>)
    ensures Run(CFG, BATCH, [PublishOk, AckSend, Truncate(K1, KEEP)] + rest) == Run(CFG, CUT, rest)
  {
    PublishRuns([AckSend] + ([Truncate(K1, KEEP)] + rest));
    SendRuns([Truncate(K1, KEEP)] + rest);
    TruncateRuns(rest);
    ThreeRuns(BATCH, PublishOk, PUBLISHED, AckSend, SENT, Truncate(K1, KEEP), CUT, rest);
  }

  lemma TasksRun()
    ensures Run(CFG, FULL, TASKS) == CUT
  {
    var acks := [PublishOk, AckSend, Truncate(K1, KEEP)];
    PullTasks(acks);
    AckTasks([]);
    assert TASKS == [PullPage, PullCommit, FetchBatch] + acks && acks + [] == acks;
  }

  lemma CutForwards(n: int)
    requires 2 <= n <= 5
    ensures Key(n, n) in Forwardable(CFG, EVENTS)
  {
    assert n in EVENTS && ES.KeyOf(EVENTS[n]) == Key(n, n);
  }

  lemma CutIsFrozen(steps: seq<Step>, n: int)
    requires Inv(CFG, CUT) && 2 <= n <= 5
    ensures Key(n, n) !in Run(CFG, CUT, steps).acks
  {
    T.TruncatedCursorFreezesPull(CFG, CUT, steps);
    RunKeeps(CFG, CUT, steps);
    assert Key(n, n) !in CUT.enqueued;
  }

  lemma RunEndsInCut()
    ensures Run(CFG, INIT, APPENDS + TASKS) == CUT && Inv(CFG, CUT)
  {
    RunConcat(CFG, INIT, APPENDS, TASKS);
    Appended();
    TasksRun();
    ReachableInv(CFG, APPENDS + TASKS);
  }

  /**
   The events are in order and forwardable, and no continuation ever publishes any of them, although
   all but one are of kept journeys and still stored.
   */
  lemma TruncationLosesUnpulledEvents()
    ensures var s := Run(CFG, INIT, APPENDS + TASKS);
            && s.late == {} && s.acks == [K1] && s.store.Keys == {3, 4, 5}
            && (forall n | 2 <= n <= 5 :: Key(n, n) in Forwardable(CFG, s.ever))
            && forall steps: seq<Step>, n | 2 <= n <= 5 :: Key(n, n) !in Run(CFG, s, steps).acks
  {
    RunEndsInCut();
    forall n | 2 <= n <= 5 { CutForwards(n); }
    forall steps: seq<Step>, n | 2 <= n <= 5 { CutIsFrozen(steps, n); }
  }
}
