/** What is queued is what the egress route sent: every row carries its own event's timestamp and payload. */
module Payloads {
  import opened Keys
  import opened Queue
  import ES = EventStore
  import opened SyncProtocol

  /** The timestamp and payload under this id are those of the event as it leaves the train. */
  ghost predicate Genuine(cfg: Config, ever: map<int, ES.Event>, id: int, ts: int, json: string) {
    id in ever && ever[id].ts == ts && cfg.egress(ever[id]) == Clear(json)
  }

  ghost predicate GenuineRows(cfg: Config, ever: map<int, ES.Event>, rows: map<int, Row>) {
    forall id | id in rows :: Genuine(cfg, ever, id, rows[id].ts, rows[id].json)
  }

  ghost predicate GenuinePage(cfg: Config, ever: map<int, ES.Event>, page: seq<Envelope>) {
    forall e | e in page && e.WellFormed? :: Genuine(cfg, ever, e.id, e.ts, e.json)
  }

  ghost predicate AllGenuine(cfg: Config, s: Sys) {
    GenuineRows(cfg, s.ever, s.db.rows) && (s.pull.Received? ==> GenuinePage(cfg, s.ever, s.pull.page))
  }

  lemma WireIsGenuine(cfg: Config, events: map<int, ES.Event>, id: int)
    requires id in events && events[id].id == id
    ensures GenuinePage(cfg, events, Wire(cfg, events[id]))
  {
  }

  lemma {:induction false} RedactedIsGenuine(cfg: Config, events: map<int, ES.Event>, ks: seq<Key>)
    requires ES.KeyedById(events) && forall k | k in ks :: k.id in events
    ensures GenuinePage(cfg, events, Redact(cfg, events, ks))
    decreases |ks|
  {
    if ks != [] {
      assert ks[0] in ks && forall k | k in ks[1..] :: k in ks;
      WireIsGenuine(cfg, events, ks[0].id);
      RedactedIsGenuine(cfg, events, ks[1..]);
    }
  }

  lemma StoreIsPart(cfg: Config, store: map<int, ES.Event>, ever: map<int, ES.Event>, page: seq<Envelope>)
    requires (forall id | id in store :: id in ever && store[id] == ever[id]) && GenuinePage(cfg, store, page)
    ensures GenuinePage(cfg, ever, page)
  {
  }

  lemma {:induction false} AbsorbedAreGenuine(cfg: Config, s: Sys, n: nat)
    requires AllGenuine(cfg, s) && s.pull.Received? && n <= |s.pull.page|
    ensures AllGenuine(cfg, AbsorbMany(s, n))
    decreases n
  {
    if n > 0 {
      var page := s.pull.page;
      assert page[0] in page && forall e | e in page[1..] :: e in page;
      AbsorbedAreGenuine(cfg, Absorb(s), n - 1);
    }
  }

  /** Statements that change a row leave its timestamp and payload alone, and none changes what was appended. */
  lemma StepIsGenuine(cfg: Config, s: Sys, step: Step)
    requires Inv(cfg, s) && AllGenuine(cfg, s) && Enabled(cfg, s, step)
    ensures AllGenuine(cfg, Next(cfg, s, step))
  {
    match step
    case PullPage => PulledIsGenuine(cfg, s);
    case PullCommit => AbsorbedAreGenuine(cfg, s, |s.pull.page|);
    case PullCrash(n) => AbsorbedAreGenuine(cfg, s, n);
    case _ =>
  }

  lemma PulledIsGenuine(cfg: Config, s: Sys)
    requires Inv(cfg, s) && AllGenuine(cfg, s) && Enabled(cfg, s, PullPage)
    ensures AllGenuine(cfg, Next(cfg, s, PullPage))
  {
    RedactedIsGenuine(cfg, s.store, RawPage(cfg, s));
    StoreIsPart(cfg, s.store, s.ever, Redact(cfg, s.store, RawPage(cfg, s)));
  }

  lemma {:induction false} RunIsGenuine(cfg: Config, s: Sys, steps: seq<Step>)
    requires Inv(cfg, s) && AllGenuine(cfg, s)
    ensures AllGenuine(cfg, Run(cfg, s, steps))
    decreases |steps|
  {
    if steps != [] {
      if Enabled(cfg, s, steps[0]) {
        NextKeeps(cfg, s, steps[0]);
        StepIsGenuine(cfg, s, steps[0]);
        RunIsGenuine(cfg, Next(cfg, s, steps[0]), steps[1..]);
      } else {
        RunIsGenuine(cfg, s, steps[1..]);
      }
    }
  }

  /**
   In every reachable state each queued row carries the timestamp and the redacted payload of the event
   with its id: nothing is mixed up, and nothing withheld is ever queued.
   */
  lemma QueueIsGenuine(cfg: Config, steps: seq<Step>, id: int)
    requires id in Run(cfg, INIT, steps).db.rows
    ensures var s := Run(cfg, INIT, steps);
            id in s.ever && s.db.rows[id].ts == s.ever[id].ts && cfg.egress(s.ever[id]) == Clear(s.db.rows[id].json)
  {
    RunIsGenuine(cfg, INIT, steps);
  }
}
