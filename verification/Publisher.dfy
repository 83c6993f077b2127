/** The publisher's rate limiter and its reconnect backoff, over an exact clock. */
module Publisher {
  import opened Keys
  import opened Reals

  datatype Bucket = Bucket(rate: real, tokens: real, last: real)

  ghost predicate BucketOk(b: Bucket) {
    1.0 <= b.rate && 0.0 <= b.tokens <= b.rate
  }

  function Refill(b: Bucket, now: real): Bucket {
    var t := b.tokens + (now - b.last) * b.rate;
    b.(tokens := if b.rate < t then b.rate else t, last := now)
  }

  /** One pass under the lock: refill, then take a token if there is a whole one. */
  function Pass(b: Bucket, now: real): Bucket {
    var r := Refill(b, now);
    if r.tokens >= 1.0 then r.(tokens := r.tokens - 1.0) else r
  }

  predicate Granted(b: Bucket, now: real) {
    Refill(b, now).tokens >= 1.0
  }

  class TokenBucket {
    const rate: real
    var tokens: real
    var last: real

    function State(): Bucket
      reads this
    {
      Bucket(rate, tokens, last)
    }

    constructor (rate: int, now: real)
      requires rate > 0
      ensures State() == Bucket(rate as real, rate as real, now) && BucketOk(State())
    {
      this.rate, tokens, last := rate as real, rate as real, now;
    }

    /** A rate that is not positive is refused. */
    static method Create(rate: int, now: real) returns (r: Option<TokenBucket>)
      ensures r.None? <==> rate <= 0
      ensures r.Some? ==> fresh(r.value) && r.value.State() == Bucket(rate as real, rate as real, now)
    {
      if rate <= 0 {
        return None;
      }
      var b := new TokenBucket(rate, now);
      return Some(b);
    }

    /** One turn of `acquire`'s loop; without a grant it says how long to sleep. */
    method TryAcquire(now: real) returns (granted: bool, wait: real)
      requires BucketOk(State()) && last <= now
      modifies this`tokens, this`last
      ensures State() == Pass(old(State()), now) && BucketOk(State())
      ensures granted == Granted(old(State()), now)
      ensures !granted ==> tokens + wait * rate == 1.0 && wait > 0.0
    {
      PassOk(State(), now);
      var elapsed := now - last;
      tokens := if rate < tokens + elapsed * rate then rate else tokens + elapsed * rate;
      last := now;
      if tokens >= 1.0 {
        tokens := tokens - 1.0;
        return true, 0.0;
      }
      wait := (1.0 - tokens) / rate;
      Quotient(1.0 - tokens, rate);
      return false, wait;
    }
  }

  lemma Quotient(x: real, y: real)
    requires x > 0.0 && y > 0.0
    ensures x / y * y == x && x / y > 0.0
  {
  }

  lemma PassOk(b: Bucket, now: real)
    requires BucketOk(b) && b.last <= now
    ensures BucketOk(Refill(b, now)) && BucketOk(Pass(b, now))
  {
    assert (now - b.last) * b.rate >= 0.0;
  }

  // ---------------------------------------------------------------- any callers, any clock

  /** The clock readings of consecutive passes, whoever makes them. */
  ghost predicate Clock(start: real, times: seq<real>) {
    && (forall i | 0 <= i < |times| :: start <= times[i])
    && (forall i, j | 0 <= i < j < |times| :: times[i] <= times[j])
  }

  ghost function After(b: Bucket, times: seq<real>): Bucket
    decreases |times|
  {
    if times == [] then b else After(Pass(b, times[0]), times[1..])
  }

  ghost function Grants(b: Bucket, times: seq<real>): nat
    decreases |times|
  {
    if times == [] then 0
    else (if Granted(b, times[0]) then 1 else 0) + Grants(Pass(b, times[0]), times[1..])
  }

  /** What a bucket could pay for by `end` if its capacity never cut it short. */
  ghost function Budget(b: Bucket, end: real): real {
    b.tokens + (end - b.last) * b.rate
  }

  lemma PassPays(b: Bucket, t: real, end: real)
    ensures Budget(Refill(b, t), end) <= Budget(b, end)
    ensures Budget(Pass(b, t), end) + (if Granted(b, t) then 1.0 else 0.0) <= Budget(b, end)
  {
    assert (end - b.last) * b.rate == (end - t) * b.rate + (t - b.last) * b.rate;
  }

  lemma BudgetCoversTokens(b: Bucket, end: real)
    requires BucketOk(b) && b.last <= end
    ensures b.tokens <= Budget(b, end)
  {
    assert (end - b.last) * b.rate >= 0.0;
  }

  /** Every grant is paid for out of the budget. */
  lemma {:induction false} GrantsArePaid(b: Bucket, times: seq<real>, end: real)
    requires BucketOk(b) && Clock(b.last, times) && b.last <= end
    requires times != [] ==> times[|times| - 1] <= end
    ensures BucketOk(After(b, times)) && After(b, times).rate == b.rate && After(b, times).last <= end
    ensures Grants(b, times) as real + Budget(After(b, times), end) <= Budget(b, end)
    decreases |times|
  {
    if times != [] {
      PassOk(b, times[0]);
      PassPays(b, times[0], end);
      GrantsArePaid(Pass(b, times[0]), times[1..], end);
    }
  }

  /** In any window of any run at most rate * length + rate tokens are granted, reconnects or not. */
  lemma WindowBound(b: Bucket, before: seq<real>, window: seq<real>)
    requires BucketOk(b) && Clock(b.last, before + window) && window != []
    ensures var s := After(b, before);
            Grants(s, window) as real <= Allowance(b.rate, window[|window| - 1] - window[0])
  {
    SplitClock(b.last, before, window);
    GrantsArePaid(b, before, window[0]);
    WindowFrom(After(b, before), window);
  }

  lemma WindowFrom(s: Bucket, window: seq<real>)
    requires BucketOk(s) && window != [] && s.last <= window[0] && Clock(window[0], window)
    ensures Grants(s, window) as real <= Allowance(s.rate, window[|window| - 1] - window[0])
  {
    var end := window[|window| - 1];
    var r := Refill(s, window[0]);
    PassOk(s, window[0]);
    RefillTwice(s, window[0]);
    assert Grants(r, window) == Grants(s, window);
    GrantsWithin(r, window, end);
    BudgetWithin(r, end);
  }

  /** rate * length + rate */
  function Allowance(rate: real, length: real): real {
    rate * length + rate
  }

  lemma BudgetWithin(r: Bucket, end: real)
    requires BucketOk(r)
    ensures Budget(r, end) <= Allowance(r.rate, end - r.last)
  {
  }

  lemma GrantsWithin(b: Bucket, times: seq<real>, end: real)
    requires BucketOk(b) && Clock(b.last, times) && b.last <= end
    requires times != [] ==> times[|times| - 1] <= end
    ensures Grants(b, times) as real <= Budget(b, end)
  {
    GrantsArePaid(b, times, end);
    BudgetCoversTokens(After(b, times), end);
  }

  lemma SplitClock(start: real, before: seq<real>, window: seq<real>)
    requires Clock(start, before + window) && window != []
    ensures Clock(start, before) && Clock(window[0], window) && start <= window[0]
    ensures before != [] ==> before[|before| - 1] <= window[0]
  {
    var all := before + window;
    assert forall i | 0 <= i < |before| :: all[i] == before[i];
    assert forall i | 0 <= i < |window| :: all[|before| + i] == window[i];
  }

  /** A full or freshly refilled bucket gains nothing at the same instant. */
  lemma NoGain(r: Bucket)
    requires r.tokens <= r.rate
    ensures Refill(r, r.last) == r
  {
    var d := r.last - r.last;
    assert d == 0.0 && d * r.rate == 0.0;
  }

  lemma RefillTwice(b: Bucket, now: real)
    ensures Refill(Refill(b, now), now) == Refill(b, now)
  {
    NoGain(Refill(b, now));
  }

  /** Readings within the second that starts at `t`, its end not included. */
  ghost predicate WithinSecond(t: real, times: seq<real>) {
    Clock(t, times) && forall i | 0 <= i < |times| :: times[i] < t + 1.0
  }

  /**
   The design promises at most `rate` publishes in any rolling second. From a given bucket every
   continuation keeps to that for the coming second exactly when at most one token is in hand: with
   more, one is taken at once and the refilled bucket is emptied before the second is over.
   */
  lemma RollingSecondIff(b: Bucket, rate: nat, t: real)
    requires BucketOk(b) && b.rate == rate as real && b.last <= t
    ensures (forall times: seq<real> | WithinSecond(t, times) :: Grants(b, times) <= rate)
            <==> Refill(b, t).tokens <= 1.0
  {
    if Refill(b, t).tokens <= 1.0 {
      forall times: seq<real> | WithinSecond(t, times) ensures Grants(b, times) <= rate {
        SecondFrom(b, rate, t, times);
      }
    } else {
      var times := EarlyBurst(b, rate, t);
    }
  }

  lemma SecondFrom(b: Bucket, rate: nat, t: real, times: seq<real>)
    requires BucketOk(b) && b.rate == rate as real && b.last <= t && Refill(b, t).tokens <= 1.0
    requires WithinSecond(t, times)
    ensures Grants(b, times) <= rate
  {
    if times != [] {
      var end := times[|times| - 1];
      RefillFirst(b, t, times);
      PassOk(b, t);
      GrantsWithin(Refill(b, t), times, end);
      LessThanASecond(Refill(b, t), end);
    }
  }

  /** Refilling at the start of a run changes none of its grants. */
  lemma RefillFirst(b: Bucket, t: real, times: seq<real>)
    requires BucketOk(b) && b.last <= t && Clock(t, times) && times != []
    ensures Grants(Refill(b, t), times) == Grants(b, times)
  {
    RefillAgain(b, t, times[0]);
  }

  lemma RefillAgain(b: Bucket, t: real, u: real)
    requires BucketOk(b) && b.last <= t <= u
    ensures Refill(Refill(b, t), u) == Refill(b, u)
  {
    var x, y := (t - b.last) * b.rate, (u - t) * b.rate;
    assert (u - b.last) * b.rate == x + y;
    ProductNonNegative(t - b.last, b.rate);
    ProductNonNegative(u - t, b.rate);
  }

  lemma PartOfRate(d: real, rate: real)
    requires d < 1.0 && rate > 0.0
    ensures d * rate < rate
  {
    ProductPositive(1.0 - d, rate);
    assert (1.0 - d) * rate == rate - d * rate;
  }

  lemma LessThanASecond(r: Bucket, end: real)
    requires BucketOk(r) && r.tokens <= 1.0 && end < r.last + 1.0
    ensures Budget(r, end) < 1.0 + r.rate
  {
    var d := end - r.last;
    PartOfRate(d, r.rate);
    assert Budget(r, end) == r.tokens + d * r.rate;
    assert d * r.rate < r.rate;
  }

  /** The time at which a bucket is full again. */
  function FullAt(p: Bucket): real
    requires p.rate > 0.0
  {
    p.last + (p.rate - p.tokens) / p.rate
  }

  lemma RefillAfter(p: Bucket, q: real)
    requires q * p.rate == p.rate - p.tokens
    ensures Refill(p, p.last + q) == Bucket(p.rate, p.rate, p.last + q)
  {
    assert p.last + q - p.last == q;
  }

  lemma FullAgain(p: Bucket)
    requires BucketOk(p)
    ensures p.last <= FullAt(p) && Refill(p, FullAt(p)) == Bucket(p.rate, p.rate, FullAt(p))
    ensures p.tokens > 0.0 ==> FullAt(p) < p.last + 1.0
  {
    var q := (p.rate - p.tokens) / p.rate;
    DivTimes(p.rate - p.tokens, p.rate);
    Share(q, p.rate);
    RefillAfter(p, q);
  }

  lemma Share(q: real, y: real)
    requires 0.0 <= q * y <= y && y > 0.0
    ensures 0.0 <= q && (q * y < y ==> q < 1.0)
  {
    Enlarges(q, y);
    Negates(q, y);
  }

  lemma Enlarges(q: real, y: real)
    requires y > 0.0
    ensures q >= 1.0 ==> q * y >= y
  {
    if q >= 1.0 {
      ProductNonNegative(q - 1.0, y);
      assert (q - 1.0) * y == q * y - y;
    }
  }

  lemma Negates(q: real, y: real)
    requires y > 0.0
    ensures q < 0.0 ==> q * y < 0.0
  {
    if q < 0.0 {
      ProductPositive(-q, y);
    }
  }

  /** One grant at once, and as many as the rate when the bucket is full again. */
  lemma EarlyBurst(b: Bucket, rate: nat, t: real) returns (times: seq<real>)
    requires BucketOk(b) && b.rate == rate as real && b.last <= t && Refill(b, t).tokens > 1.0
    ensures WithinSecond(t, times) && Grants(b, times) == rate + 1
  {
    PassOk(b, t);
    var p := Pass(b, t);
    FullAgain(p);
    var now := FullAt(p);
    var burst := seq(rate, i => now);
    times := [t] + burst;
    assert times[1..] == burst;
    FullBurst(p, now, rate);
  }

  lemma FullBurst(p: Bucket, now: real, rate: nat)
    requires BucketOk(p) && p.rate == rate as real && Refill(p, now) == Bucket(p.rate, p.rate, now)
    ensures Grants(p, seq(rate, i => now)) == rate
  {
    var r := Refill(p, now);
    RefillTwice(p, now);
    assert Grants(p, seq(rate, i => now)) == Grants(r, seq(rate, i => now));
    Burst(r, now, rate);
  }

  lemma {:induction false} Burst(b: Bucket, now: real, n: nat)
    requires b.last == now && n as real <= b.tokens <= b.rate
    ensures Grants(b, seq(n, i => now)) == n
    decreases n
  {
    if n > 0 {
      assert (now - b.last) * b.rate == 0.0;
      assert seq(n, i => now)[1..] == seq(n - 1, i => now);
      assert seq(n, i => now)[0] == now;
      Burst(Pass(b, now), now, n - 1);
    }
  }

  /** A full bucket of two per second grants three within half a second. */
  lemma ThreeInHalfASecond()
    ensures WithinSecond(0.0, [0.0, 0.5, 0.5]) && Grants(Bucket(2.0, 2.0, 0.0), [0.0, 0.5, 0.5]) == 3
  {
    var b, p := Bucket(2.0, 2.0, 0.0), Bucket(2.0, 1.0, 0.0);
    RefillTwice(b, 0.0);
    assert Pass(b, 0.0) == p && Granted(b, 0.0);
    RefillAfter(p, 0.5);
    FullBurst(p, 0.5, 2);
    assert [0.0, 0.5, 0.5][1..] == seq(2, i => 0.5);
  }

  /** A caller that is alone and sleeps at least as long as it was told is served on its next pass. */
  lemma SleeperIsServed(b: Bucket, now: real, wake: real)
    requires BucketOk(b) && b.last <= now && !Granted(b, now)
    requires wake >= now + (1.0 - Refill(b, now).tokens) / b.rate
    ensures Granted(Pass(b, now), wake)
  {
    PassOk(b, now);
    var r := Refill(b, now);
    Quotient(1.0 - r.tokens, b.rate);
    assert (wake - now) * b.rate >= (1.0 - r.tokens) / b.rate * b.rate;
  }

  // ---------------------------------------------------------------- reconnect backoff

  const BACKOFF_SCHEDULE := [1.0, 2.0, 5.0, 10.0, 30.0, 60.0]

  const STABLE_UPTIME_RESET_S := 30.0

  function Backoff(attempt: nat): real {
    BACKOFF_SCHEDULE[if attempt < 5 then attempt else 5]
  }

  /** One broken session; `connectedAt` stays 0.0 when the connection never opened. */
  datatype Session = Session(connectedAt: real, brokenAt: real, published: nat)

  predicate Stable(x: Session) {
    x.connectedAt > 0.0 && x.brokenAt - x.connectedAt >= STABLE_UPTIME_RESET_S
  }

  class MqttPublisher {
    var reconnectAttempt: nat

    constructor ()
      ensures reconnectAttempt == 0
    {
      reconnectAttempt := 0;
    }

    /** The MqttError and TimeoutError branch of the outer loop. */
    method OnDisconnect(x: Session) returns (wait: real)
      modifies this
      ensures wait == Backoff(if Stable(x) then 0 else old(reconnectAttempt))
      ensures reconnectAttempt == (if Stable(x) then 1 else old(reconnectAttempt) + 1)
    {
      if x.connectedAt > 0.0 && x.brokenAt - x.connectedAt >= STABLE_UPTIME_RESET_S {
        reconnectAttempt := 0;
      }
      wait := Backoff(reconnectAttempt);
      reconnectAttempt := reconnectAttempt + 1;
    }
  }

  function AttemptsAfter(attempt: nat, sessions: seq<Session>): nat
    decreases |sessions|
  {
    if sessions == [] then attempt
    else AttemptsAfter(if Stable(sessions[0]) then 1 else attempt + 1, sessions[1..])
  }

  /** A flapping broker climbs the schedule and stays at its top, however much it let us publish. */
  lemma {:induction false} FlappingEscalates(attempt: nat, sessions: seq<Session>)
    requires forall x | x in sessions :: !Stable(x)
    ensures AttemptsAfter(attempt, sessions) == attempt + |sessions|
    ensures Backoff(attempt) <= Backoff(AttemptsAfter(attempt, sessions)) <= 60.0
    ensures |sessions| >= 5 ==> Backoff(AttemptsAfter(attempt, sessions)) == 60.0
    decreases |sessions|
  {
    if sessions != [] {
      assert sessions[0] in sessions;
      FlappingEscalates(attempt + 1, sessions[1..]);
    }
  }

  /** The wait after the i-th broken session of a run, in seconds. */
  function WaitAfter(sessions: seq<Session>, i: nat): real
    requires i < |sessions|
  {
    Backoff(if Stable(sessions[i]) then 0 else AttemptsAfter(0, sessions[..i]))
  }

  predicate LongLived(x: Session) {
    x.connectedAt > 0.0 && x.brokenAt - x.connectedAt >= 30.0
  }

  function Seconds(n: nat): real {
    if n == 0 then 1.0 else if n == 1 then 2.0 else if n == 2 then 5.0
    else if n == 3 then 10.0 else if n == 4 then 30.0 else 60.0
  }

  lemma {:induction false} AttemptsSnoc(attempt: nat, sessions: seq<Session>, x: Session)
    ensures AttemptsAfter(attempt, sessions + [x])
         == if LongLived(x) then 1 else AttemptsAfter(attempt, sessions) + 1
    decreases |sessions|
  {
    if sessions == [] {
      assert ([] + [x])[1..] == [];
    } else {
      assert (sessions + [x])[1..] == sessions[1..] + [x];
      AttemptsSnoc(if Stable(sessions[0]) then 1 else attempt + 1, sessions[1..], x);
    }
  }

  /** The attempts counted before the i-th session breaks, if none of the sessions from `from` on lasted. */
  lemma {:induction false} AttemptsSince(sessions: seq<Session>, from: nat, i: nat)
    requires from <= i <= |sessions| && forall j | from <= j < i :: !LongLived(sessions[j])
    ensures AttemptsAfter(0, sessions[..i]) == AttemptsAfter(0, sessions[..from]) + (i - from)
    decreases i
  {
    if from < i {
      AttemptsSince(sessions, from, i - 1);
      AttemptsSnoc(0, sessions[..i - 1], sessions[i - 1]);
      assert sessions[..i] == sessions[..i - 1] + [sessions[i - 1]];
    }
  }

  /**
   1, 2, 5, 10, 30, 60, 60, ... seconds: a session that lasted half a minute starts the waits over, a
   shorter one is followed by the next longer wait, and a first session by the first.
   */
  lemma WaitsFollowSchedule(sessions: seq<Session>, i: nat)
    requires i < |sessions|
    ensures LongLived(sessions[i]) ==> WaitAfter(sessions, i) == 1.0
    ensures (forall j | 0 <= j <= i :: !LongLived(sessions[j])) ==> WaitAfter(sessions, i) == Seconds(i)
    ensures forall s | 0 <= s < i && LongLived(sessions[s]) && (forall j | s < j <= i :: !LongLived(sessions[j])) ::
              WaitAfter(sessions, i) == Seconds(i - s)
  {
    if forall j | 0 <= j <= i :: !LongLived(sessions[j]) {
      AttemptsSince(sessions, 0, i);
    }
    forall s | 0 <= s < i && LongLived(sessions[s]) && (forall j | s < j <= i :: !LongLived(sessions[j]))
      ensures WaitAfter(sessions, i) == Seconds(i - s)
    {
      AttemptsSince(sessions, s + 1, i);
      AttemptsSnoc(0, sessions[..s], sessions[s]);
      assert sessions[..s + 1] == sessions[..s] + [sessions[s]];
    }
  }

  /**
   The module's description also resets the counter on the first successful publish; the code does
   not. The two choose the same wait unless a session published, broke within 30 s and was not the first.
   */
  lemma FirstPublishResetIff(attempt: nat, x: Session)
    ensures Backoff(if Stable(x) then 0 else attempt) == Backoff(if Stable(x) || x.published > 0 then 0 else attempt)
            <==> Stable(x) || x.published == 0 || attempt == 0
  {
  }
}
