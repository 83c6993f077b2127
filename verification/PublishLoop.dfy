/** The publisher's pass over one batch, proved against the step system's publisher steps. */
module PublishLoop {
  import opened Keys
  import opened Queue
  import opened SyncProtocol

  /** What happens to a row of the batch: its PUBACK, a failed publish, or a stop before it. */
  datatype Attempt = Puback | Refused(error: string) | Stopped

  function StepOf(a: Attempt): Step {
    match a case Puback => PublishOk case Refused(error) => PublishFail(error) case Stopped => PublishStop
  }

  function StepsOf(attempts: seq<Attempt>): seq<Step> {
    seq(|attempts|, i requires 0 <= i < |attempts| => StepOf(attempts[i]))
  }

  /** With no batch in hand the publisher's steps do nothing. */
  lemma {:induction false} NothingLeft(cfg: Config, s: Sys, attempts: seq<Attempt>)
    requires s.batch == []
    ensures Run(cfg, s, StepsOf(attempts)) == s
    decreases |attempts|
  {
    if attempts != [] {
      assert StepsOf(attempts)[1..] == StepsOf(attempts[1..]);
      NothingLeft(cfg, s, attempts[1..]);
    }
  }

  /** A published row is marked after its PUBACK; a refused one is recorded and ends the pass, as a stop does. */
  method DrainBatch(ghost cfg: Config, ghost s: Sys, conn: Connection, batch: seq<Key>, attempts: seq<Attempt>)
    returns (published: seq<int>)
    requires conn.State() == s.db && batch == s.batch && |attempts| == |batch|
    modifies conn
    ensures conn.State() == Run(cfg, s, StepsOf(attempts)).db
    ensures |published| <= |batch|
    ensures forall i | 0 <= i < |published| :: published[i] == batch[i].id && attempts[i].Puback?
    ensures |published| < |batch| ==> !attempts[|published|].Puback?
  {
    published := [];
    ghost var cur := s;
    for i := 0 to |batch|
      invariant conn.State() == cur.db && cur.batch == batch[i..]
      invariant Run(cfg, s, StepsOf(attempts)) == Run(cfg, cur, StepsOf(attempts[i..]))
      invariant |published| == i && forall k | 0 <= k < i :: published[k] == batch[k].id && attempts[k].Puback?
    {
      assert StepsOf(attempts[i..])[1..] == StepsOf(attempts[i + 1..]);
      assert attempts[i..][1..] == attempts[i + 1..] && batch[i..][1..] == batch[i + 1..];
      match attempts[i]
      case Stopped =>
        NothingLeft(cfg, cur.(batch := []), attempts[i + 1..]);
        return;
      case Refused(error) =>
        NothingLeft(cfg, Next(cfg, cur, PublishFail(error)), attempts[i + 1..]);
        conn.SetFailed(batch[i].id, error);
        return;
      case Puback =>
        conn.SetPublished(batch[i].id);
        published := published + [batch[i].id];
        cur := Next(cfg, cur, PublishOk);
    }
    NothingLeft(cfg, cur, attempts[|batch|..]);
  }
}
