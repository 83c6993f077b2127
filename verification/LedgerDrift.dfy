/** How the drift check corrects the ledger to the camera, and when it stays silent. */
module LedgerDrift {
  import opened Keys
  import opened Ledger
  import opened LedgerLaws

  function Max(a: int, b: int): int {
    if a < b then b else a
  }

  lemma DivSpan(x: nat, k: nat)
    requires k >= 1
    ensures x / k * k <= x <= (x / k + 1) * k - 1
  {
    var q := x / k;
    assert x == q * k + x % k;
    assert (q + 1) * k == q * k + k;
  }

  lemma DivNonNegative(x: nat, k: nat)
    requires k >= 1
    ensures x / k >= 0
  {
  }

  lemma BucketSign(cfg: Config, delta: int)
    requires cfg.bucketSize >= 1
    ensures Abs(DriftBucket(cfg, delta)) == Abs(delta) / cfg.bucketSize
    ensures delta > 0 ==> DriftBucket(cfg, delta) >= 0
    ensures delta < 0 ==> DriftBucket(cfg, delta) <= 0
  {
    DivNonNegative(Abs(delta), cfg.bucketSize);
  }

  lemma BucketSpan(cfg: Config, delta: int)
    requires cfg.bucketSize >= 1
    ensures Abs(DriftBucket(cfg, delta)) * cfg.bucketSize <= Abs(delta)
            <= (Abs(DriftBucket(cfg, delta)) + 1) * cfg.bucketSize - 1
    ensures delta > 0 ==> DriftBucket(cfg, delta) >= 0
    ensures delta < 0 ==> DriftBucket(cfg, delta) <= 0
  {
    BucketSign(cfg, delta);
    DivSpan(Abs(delta), cfg.bucketSize);
  }

  /** After a check of a seen coach the ledger is close to the camera, and equal to it on an observation. */
  lemma DriftIsBounded(cfg: Config, s: State, car: string, camera: int)
    requires cfg.bucketSize >= 1 && car in s.seen
    ensures var t := CheckDrift(cfg, s, car, camera);
            && (Observes(cfg, s, car, camera) ==> RowOf(t, car).count == camera)
            && Abs(RowOf(t, car).count - camera) <=
               Max(cfg.threshold, (Abs(LastBucket(t, car)) + 1) * cfg.bucketSize - 1)
  {
    BucketSpan(cfg, RowOf(s, car).count - camera);
    var t := CheckDrift(cfg, s, car, camera);
    assert (Abs(LastBucket(t, car)) + 1) * cfg.bucketSize >= 0;
  }

  /** The buckets of the observations of `car` along a run. */
  function Buckets(cfg: Config, s: State, car: string, steps: seq<Step>): seq<int>
    requires cfg.bucketSize >= 1
    decreases |steps|
  {
    if steps == [] then []
    else
      var rest := Buckets(cfg, Apply(cfg, s, steps[0]), car, steps[1..]);
      match steps[0]
      case CheckStep(c, camera) =>
        if c == car && Observes(cfg, s, c, camera)
        then [Bucket(cfg, RowOf(s, c).count - camera)] + rest else rest
      case _ => rest
  }

  ghost predicate NoRepeat(s: seq<int>) {
    forall i | 0 <= i < |s| - 1 :: s[i] != s[i + 1]
  }

  /** Adjacent observations of a coach never share a bucket, whatever happens in between. */
  lemma {:induction false} ObservationsChangeBucket(cfg: Config, s: State, car: string, steps: seq<Step>)
    requires cfg.bucketSize >= 1 && RestartStep !in steps
    ensures NoRepeat([LastBucket(s, car)] + Buckets(cfg, s, car, steps))
    decreases |steps|
  {
    if steps != [] {
      var t := Apply(cfg, s, steps[0]);
      var rest := Buckets(cfg, t, car, steps[1..]);
      ObservationsChangeBucket(cfg, t, car, steps[1..]);
      assert NoRepeat([LastBucket(t, car)] + rest);
      if steps[0].CheckStep? && steps[0].car == car && Observes(cfg, s, car, steps[0].camera) {
        NoRepeatCons(LastBucket(s, car), [LastBucket(t, car)] + rest);
        assert Buckets(cfg, s, car, steps) == [LastBucket(t, car)] + rest;
      } else {
        assert LastBucket(t, car) == LastBucket(s, car);
        assert Buckets(cfg, s, car, steps) == rest;
      }
    }
  }

  lemma NoRepeatCons(x: int, s: seq<int>)
    requires NoRepeat(s) && s != [] && s[0] != x
    ensures NoRepeat([x] + s)
  {
    assert forall i | 0 <= i < |s| - 1 :: ([x] + s)[i + 1] == s[i];
  }

  /** What a run shows of a coach: the buckets observed, and None for each restart. */
  function Marks(cfg: Config, s: State, car: string, steps: seq<Step>): seq<Option<int>>
    requires cfg.bucketSize >= 1
    decreases |steps|
  {
    if steps == [] then []
    else
      var rest := Marks(cfg, Apply(cfg, s, steps[0]), car, steps[1..]);
      match steps[0]
      case CheckStep(c, camera) =>
        if c == car && Observes(cfg, s, c, camera)
        then [Some(Bucket(cfg, RowOf(s, c).count - camera))] + rest else rest
      case RestartStep => [None] + rest
      case _ => rest
  }

  function BucketOf(mark: Option<int>): int {
    if mark.Some? then mark.value else 0
  }

  /** An observation differs from the bucket before it; a restart counts as bucket 0. */
  ghost predicate Changing(marks: seq<Option<int>>) {
    forall i | 0 < i < |marks| && marks[i].Some? :: marks[i].value != BucketOf(marks[i - 1])
  }

  lemma ChangingCons(x: Option<int>, marks: seq<Option<int>>)
    requires Changing(marks)
    requires marks != [] && marks[0].Some? ==> marks[0].value != BucketOf(x)
    ensures Changing([x] + marks)
  {
    var all := [x] + marks;
    forall i | 0 < i < |all| && all[i].Some? ensures all[i].value != BucketOf(all[i - 1]) {
      assert all[i] == marks[i - 1] && (i > 1 ==> all[i - 1] == marks[i - 2]);
    }
  }

  lemma ChangingTail(x: Option<int>, marks: seq<Option<int>>)
    requires Changing([x] + marks)
    ensures Changing(marks)
    ensures marks != [] && marks[0].Some? ==> marks[0].value != BucketOf(x)
  {
    var all := [x] + marks;
    forall i | 0 < i < |marks| && marks[i].Some? ensures marks[i].value != BucketOf(marks[i - 1]) {
      assert all[i + 1] == marks[i] && all[i] == marks[i - 1];
    }
    assert all[0] == x;
    if marks != [] && marks[0].Some? {
      assert all[1] == marks[0] && all[1].value != BucketOf(all[1 - 1]);
    }
  }

  /** Over runs with restarts: only a restart lets a bucket be observed twice in a row, and then not bucket 0. */
  lemma {:induction false} ObservationsAcrossRestarts(cfg: Config, s: State, car: string, steps: seq<Step>)
    requires cfg.bucketSize >= 1
    ensures Changing([Some(LastBucket(s, car))] + Marks(cfg, s, car, steps))
    decreases |steps|
  {
    if steps != [] {
      var x := steps[0];
      var t := Apply(cfg, s, x);
      var last, next := Some(LastBucket(s, car)), Some(LastBucket(t, car));
      var rest := Marks(cfg, t, car, steps[1..]);
      ObservationsAcrossRestarts(cfg, t, car, steps[1..]);
      ChangingTail(next, rest);
      if x.RestartStep? {
        ChangingCons(None, rest);
        ChangingCons(last, [None] + rest);
      } else if x.CheckStep? && x.car == car && Observes(cfg, s, car, x.camera) {
        ChangingCons(last, [next] + rest);
      } else {
        assert next == last && Marks(cfg, s, car, steps) == rest;
      }
    }
  }

  /** No wagon event, and every check of `car` sees the same camera count. */
  predicate Steady(steps: seq<Step>, car: string, camera: int) {
    forall x | x in steps ::
      !x.ExitStep? && !x.EntryStep? && (x.CheckStep? && x.car == car ==> x.camera == camera)
  }

  /** A step that is not a check of `car` leaves alone what its checks look at. */
  lemma OtherStepsDoNotMatter(cfg: Config, s: State, car: string, x: Step)
    requires cfg.bucketSize >= 1
    requires x.TimeoutStep? || x.SeedStep? || (x.CheckStep? && x.car != car)
    ensures var t := Apply(cfg, s, x);
            && RowOf(t, car).count == RowOf(s, car).count && LastBucket(t, car) == LastBucket(s, car)
            && (car in t.seen <==> car in s.seen)
  {
  }

  /** A restart forgets that the coach was seen, so its checks are silent. */
  lemma RestartIsSilent(cfg: Config, s: State, car: string, camera: int)
    requires cfg.bucketSize >= 1
    ensures !Observes(cfg, Apply(cfg, s, RestartStep), car, camera)
  {
  }

  /** One silent check means silence for ever, whatever other coaches do. */
  lemma {:induction false} SilenceLasts(cfg: Config, s: State, car: string, camera: int, steps: seq<Step>)
    requires cfg.bucketSize >= 1 && Steady(steps, car, camera) && !Observes(cfg, s, car, camera)
    ensures Buckets(cfg, s, car, steps) == []
    decreases |steps|
  {
    if steps != [] {
      var x := steps[0];
      assert x in steps;
      if x.RestartStep? {
        RestartIsSilent(cfg, s, car, camera);
      } else if !(x.CheckStep? && x.car == car) {
        OtherStepsDoNotMatter(cfg, s, car, x);
      }
      SilenceLasts(cfg, Apply(cfg, s, x), car, camera, steps[1..]);
    }
  }

  /** The ledger has been corrected to the camera: at most one observation is left, that the drift cleared. */
  lemma {:induction false} SettlesAfterCorrection(cfg: Config, s: State, car: string, camera: int, steps: seq<Step>)
    requires cfg.bucketSize >= 1 && Steady(steps, car, camera) && RowOf(s, car).count == camera
    ensures |Buckets(cfg, s, car, steps)| <= 1
    decreases |steps|
  {
    if steps != [] {
      var x := steps[0];
      var t := Apply(cfg, s, x);
      assert x in steps;
      if x.CheckStep? && x.car == car && Observes(cfg, s, car, camera) {
        assert Bucket(cfg, 0) == 0;
        SilenceLasts(cfg, t, car, camera, steps[1..]);
      } else if x.RestartStep? {
        RestartIsSilent(cfg, s, car, camera);
        SilenceLasts(cfg, t, car, camera, steps[1..]);
      } else {
        if !(x.CheckStep? && x.car == car) {
          OtherStepsDoNotMatter(cfg, s, car, x);
        }
        SettlesAfterCorrection(cfg, t, car, camera, steps[1..]);
      }
    }
  }

  /** A constant camera is reported at most twice, the drift and that it cleared, in any such run. */
  lemma {:induction false} AtMostTwoObservations(cfg: Config, s: State, car: string, camera: int, steps: seq<Step>)
    requires cfg.bucketSize >= 1 && Steady(steps, car, camera)
    ensures |Buckets(cfg, s, car, steps)| <= 2
    decreases |steps|
  {
    if steps != [] {
      var x := steps[0];
      var t := Apply(cfg, s, x);
      assert x in steps;
      if x.CheckStep? && x.car == car && Observes(cfg, s, car, camera) {
        SettlesAfterCorrection(cfg, t, car, camera, steps[1..]);
      } else {
        AtMostTwoObservations(cfg, t, car, camera, steps[1..]);
      }
    }
  }

  /** "Bucket 0 means within threshold" holds of every delta exactly for buckets no wider than that. */
  lemma BucketZeroIsWithinThresholdIff(cfg: Config)
    requires cfg.bucketSize >= 1
    ensures (forall delta :: Bucket(cfg, delta) == 0 <==> Abs(delta) <= cfg.threshold)
            <==> cfg.bucketSize <= cfg.threshold + 1
  {
    if cfg.bucketSize > cfg.threshold + 1 {
      BucketSpan(cfg, cfg.threshold + 1);
      SmallIsZero(cfg, cfg.threshold + 1);
      assert Bucket(cfg, cfg.threshold + 1) == 0;
    } else {
      forall delta ensures Bucket(cfg, delta) == 0 <==> Abs(delta) <= cfg.threshold {
        BucketSpan(cfg, delta);
        if Abs(delta) > cfg.threshold && DriftBucket(cfg, delta) == 0 {
          assert false;
        }
      }
    }
  }

  lemma SmallIsZero(cfg: Config, delta: nat)
    requires delta < cfg.bucketSize
    ensures DriftBucket(cfg, delta) == 0
  {
    DivExact(0, cfg.bucketSize, delta);
  }

  /** A bucket other than 0 was last reported for a drift above the threshold. */
  ghost predicate Reported(cfg: Config, s: State) {
    forall car :: WorthReporting(cfg, LastBucket(s, car))
  }

  predicate WorthReporting(cfg: Config, bucket: int) {
    bucket == 0 || (Abs(bucket) + 1) * cfg.bucketSize - 1 > cfg.threshold
  }

  /** So it is in every state a ledger can reach. */
  lemma {:induction false} OnlyDriftsAreReported(cfg: Config, b: Books, steps: seq<Step>)
    requires cfg.bucketSize >= 1 && Reported(cfg, b.s)
    ensures Reported(cfg, Run(cfg, b, steps).s)
    decreases |steps|
  {
    if steps != [] {
      var t := Apply(cfg, b.s, steps[0]);
      forall car ensures WorthReporting(cfg, LastBucket(t, car)) {
        assert WorthReporting(cfg, LastBucket(b.s, car));
        if steps[0].CheckStep? {
          BucketSpan(cfg, RowOf(b.s, steps[0].car).count - steps[0].camera);
        }
      }
      OnlyDriftsAreReported(cfg, Next(cfg, b, steps[0]), steps[1..]);
    }
  }

  /** The camera count `camera` would be passed over in silence although it is a drift above the threshold. */
  predicate Overlooks(cfg: Config, s: State, car: string, camera: nat)
    requires cfg.bucketSize >= 1
  {
    !Observes(cfg, s, car, camera) && Abs(RowOf(s, car).count - camera) > cfg.threshold
  }

  /**
   Whether some camera count, which is never negative, is overlooked: told from the row's count and the
   bucket last reported. Bucket 0 has to be wider than the threshold; a positive bucket has to be within
   reach of a count of people; a negative one always is, unless the count is far below zero.
   */
  predicate CanOverlook(cfg: Config, count: int, bucket: int) {
    if bucket == 0 then cfg.bucketSize > cfg.threshold + 1 && count + cfg.bucketSize - 1 >= 0
    else if bucket > 0 then count >= Max(cfg.threshold + 1, bucket * cfg.bucketSize)
    else count + (Abs(bucket) + 1) * cfg.bucketSize - 1 >= 0
  }

  /** The smallest difference between ledger and camera that bucket `bucket` covers above the threshold. */
  function LeastDelta(cfg: Config, bucket: int): int {
    if bucket > 0 then Max(cfg.threshold + 1, bucket * cfg.bucketSize)
    else -((Abs(bucket) + 1) * cfg.bucketSize - 1)
  }

  lemma LeastDeltaIsCovered(cfg: Config, bucket: int)
    requires cfg.bucketSize >= 1 && WorthReporting(cfg, bucket)
    requires bucket == 0 ==> cfg.bucketSize > cfg.threshold + 1
    ensures Bucket(cfg, LeastDelta(cfg, bucket)) == bucket && Abs(LeastDelta(cfg, bucket)) > cfg.threshold
  {
    var m, k, delta := Abs(bucket), cfg.bucketSize, LeastDelta(cfg, bucket);
    assert (m + 1) * k - 1 == m * k + (k - 1);
    assert m * k <= Abs(delta) <= m * k + (k - 1);
    DivExact(m, k, Abs(delta) - m * k);
  }

  lemma CoveredIsNoLess(cfg: Config, bucket: int, delta: int)
    requires cfg.bucketSize >= 1 && Abs(delta) > cfg.threshold && Bucket(cfg, delta) == bucket
    ensures LeastDelta(cfg, bucket) <= delta
    ensures bucket == 0 ==> cfg.bucketSize > cfg.threshold + 1
  {
    BucketSpan(cfg, delta);
  }

  /**
   A silent check does not mean the coach is within the threshold: it means the bucket is the one last
   reported. The two agree for every count a camera can give exactly when none can be overlooked.
   */
  lemma SilenceMeansWithinThresholdIff(cfg: Config, s: State, car: string)
    requires cfg.bucketSize >= 1 && car in s.seen && Reported(cfg, s)
    ensures (forall camera: nat :: !Overlooks(cfg, s, car, camera))
            <==> !CanOverlook(cfg, RowOf(s, car).count, LastBucket(s, car))
  {
    var b, count := LastBucket(s, car), RowOf(s, car).count;
    assert WorthReporting(cfg, b);
    if CanOverlook(cfg, count, b) {
      LeastDeltaIsCovered(cfg, b);
      var camera: nat := count - LeastDelta(cfg, b);
      assert count - camera == LeastDelta(cfg, b);
      assert Overlooks(cfg, s, car, camera);
    }
    forall camera: nat | Overlooks(cfg, s, car, camera) ensures CanOverlook(cfg, count, b) {
      CoveredIsNoLess(cfg, b, count - camera);
    }
  }

  /**
   A ledger of 20 that last agreed with its camera overlooks a camera count of 16 at the
   thresholds 2 and 5: a drift of 4 that is never reported nor corrected.
   */
  lemma SilentDrift(s: State, car: string)
    requires car in s.seen && RowOf(s, car).count == 20 && LastBucket(s, car) == 0
    ensures Overlooks(Config(2, 5), s, car, 16)
    ensures RowOf(CheckDrift(Config(2, 5), s, car, 16), car).count == 20
  {
    DivExact(0, 5, 4);
    assert DriftBucket(Config(2, 5), 4) == 0;
  }

  lemma DivExact(m: nat, k: nat, r: nat)
    requires r < k
    ensures (m * k + r) / k == m
  {
    var n: int := m * k + r;
    var q := n / k;
    assert n == q * k + n % k;
    assert (q - m) * k == r - n % k;
    Multiple(q - m, k);
  }

  lemma Multiple(x: int, k: int)
    requires k >= 0
    ensures x >= 1 ==> x * k >= k
    ensures x <= -1 ==> x * k <= -k
  {
  }
}
