/** What a whole trace of calls can get out of one bucket: the limiter as it runs, where the server
    drops idle buckets by its own clock and tokens grow by the callers' clocks. */
module BucketTraces {
  import opened Domain
  import opened TokenBucket

  // ---------------------------------------------------------------- traces

  /** The slot after the first `n` calls. */
  function Kept(cfg: Config, start: Option<Slot>, calls: seq<Call>, n: nat): Option<Slot>
    requires n <= |calls|
  {
    if n == 0 then start else Some(Written(cfg, Kept(cfg, start, calls, n - 1), calls[n - 1]))
  }

  /** The tokens call `i` finds. */
  function Offered(cfg: Config, start: Option<Slot>, calls: seq<Call>, i: nat): real
    requires i < |calls|
  {
    Level(cfg, Found(Kept(cfg, start, calls, i), calls[i].server), calls[i].now)
  }

  /** Call `i` is let through. */
  predicate Passes(cfg: Config, start: Option<Slot>, calls: seq<Call>, i: nat)
    requires i < |calls|
  {
    Allowed(cfg, Kept(cfg, start, calls, i), calls[i])
  }

  ghost predicate InOrder(calls: seq<Call>) {
    forall i, j :: 0 <= i <= j < |calls| ==> calls[i].now <= calls[j].now
  }

  ghost predicate OneClock(calls: seq<Call>) {
    forall i :: 0 <= i < |calls| ==> calls[i].server == calls[i].now
  }

  ghost predicate NoRefunds(calls: seq<Call>) {
    forall i :: 0 <= i < |calls| ==> calls[i].cost >= 0.0
  }

  predicate Sensible(cfg: Config) {
    cfg.capacity >= 0.0 && cfg.rate >= 0.0
  }

  predicate Holds(cfg: Config, slot: Option<Slot>) {
    slot.Some? ==> 0.0 <= slot.value.bucket.tokens <= cfg.capacity
  }

  lemma {:induction false} TokensStayInRange(cfg: Config, start: Option<Slot>, calls: seq<Call>, n: nat)
    requires n <= |calls| && Sensible(cfg) && NoRefunds(calls) && Holds(cfg, start)
    ensures Holds(cfg, Kept(cfg, start, calls, n))
  {
    if n == 0 {
    } else {
      TokensStayInRange(cfg, start, calls, n - 1);
      LevelInRange(cfg, Found(Kept(cfg, start, calls, n - 1), calls[n - 1].server), calls[n - 1].now);
    }
  }

  lemma RefillAdds(cfg: Config, a: real, b: real)
    ensures Refill(cfg, a + b) == Refill(cfg, a) + Refill(cfg, b)
  {
  }

  lemma RefillGrows(cfg: Config, a: real, b: real)
    requires cfg.rate >= 0.0 && a <= b
    ensures Refill(cfg, a) <= Refill(cfg, b) && Refill(cfg, 0.0) == 0.0
  {
  }

  lemma LevelInRange(cfg: Config, b: Option<Bucket>, now: real)
    requires Sensible(cfg) && (b.Some? ==> 0.0 <= b.value.tokens <= cfg.capacity)
    ensures 0.0 <= Level(cfg, b, now) <= cfg.capacity
  {
    if b.Some? { RefillGrows(cfg, 0.0, Max(0.0, now - b.value.lastRefill)); }
  }

  lemma LevelOf(cfg: Config, b: Option<Bucket>, now: real)
    requires b.Some?
    ensures Level(cfg, b, now) == Min(cfg.capacity, b.value.tokens + Refill(cfg, Max(0.0, now - b.value.lastRefill)))
  {
  }

  // ---------------------------------------------------------------- lapses

  /** By the time of `b` the server has dropped the bucket that `a` wrote. */
  predicate Lapsed(a: Call, b: Call) {
    a.server + EXPIRY <= b.server
  }

  /** What the callers' clocks say the bucket earned between two calls. */
  function Jump(cfg: Config, a: Call, b: Call): real {
    Refill(cfg, Max(0.0, b.now - a.now))
  }

  /** A dropped bucket would have been full anyway. */
  predicate Paid(cfg: Config, a: Call, b: Call) {
    Lapsed(a, b) ==> cfg.capacity <= Jump(cfg, a, b)
  }

  ghost predicate LapsesPaid(cfg: Config, calls: seq<Call>) {
    forall i :: 0 < i < |calls| ==> Paid(cfg, calls[i - 1], calls[i])
  }

  /** The same for any two calls, so that it holds of every trace made by leaving calls out. */
  ghost predicate GapsPaid(cfg: Config, calls: seq<Call>) {
    forall i, j :: 0 <= i < j < |calls| ==> Paid(cfg, calls[i], calls[j])
  }

  lemma Jumps(cfg: Config, a: Call, b: Call)
    requires Sensible(cfg)
    ensures Jump(cfg, a, b) >= 0.0
    ensures a.now <= b.now ==> Jump(cfg, a, b) == Refill(cfg, b.now - a.now)
  {
    RefillGrows(cfg, 0.0, Max(0.0, b.now - a.now));
  }

  /** What a call finds in the bucket the call before it left, unless that bucket lapsed. */
  lemma OfferedUnlessLapsed(cfg: Config, start: Option<Slot>, calls: seq<Call>, i: nat)
    requires 0 < i < |calls|
    ensures Kept(cfg, start, calls, i).value.bucket.lastRefill == calls[i - 1].now
    ensures Offered(cfg, start, calls, i) ==
            if Lapsed(calls[i - 1], calls[i]) then cfg.capacity
            else Min(cfg.capacity, Kept(cfg, start, calls, i).value.bucket.tokens + Jump(cfg, calls[i - 1], calls[i]))
  {
    var slot := Kept(cfg, start, calls, i);
    assert slot.value.expires == calls[i - 1].server + EXPIRY;
    if Lapsed(calls[i - 1], calls[i]) {
      assert Found(slot, calls[i].server).None?;
      MissingIsFull(cfg, calls[i].now);
    } else {
      assert Found(slot, calls[i].server) == Some(slot.value.bucket);
      LevelOf(cfg, Some(slot.value.bucket), calls[i].now);
    }
  }

  lemma MissingIsFull(cfg: Config, now: real)
    ensures Level(cfg, None, now) == cfg.capacity
  {
    assert Refill(cfg, 0.0) == 0.0;
  }

  /** A paid lapse cannot be told from no lapse. */
  lemma OfferedWhenPaid(cfg: Config, start: Option<Slot>, calls: seq<Call>, i: nat)
    requires 0 < i < |calls| && Sensible(cfg) && NoRefunds(calls) && Holds(cfg, start)
    requires Paid(cfg, calls[i - 1], calls[i])
    ensures Offered(cfg, start, calls, i) ==
            Min(cfg.capacity, Kept(cfg, start, calls, i).value.bucket.tokens + Jump(cfg, calls[i - 1], calls[i]))
  {
    OfferedUnlessLapsed(cfg, start, calls, i);
    TokensStayInRange(cfg, start, calls, i);
  }

  /** Drift between the server's clock and the callers': how much further the server's has moved
      between any two calls. */
  ghost predicate DriftsAtMost(calls: seq<Call>, drift: real) {
    forall i, j :: 0 <= i < j < |calls| ==>
      (calls[j].server - calls[i].server) - (calls[j].now - calls[i].now) <= drift
  }

  /** A bucket that fills in `fill` seconds hides its expiry as long as the clocks drift apart by at
      most the rest of the hour. */
  lemma DriftIsHarmless(cfg: Config, calls: seq<Call>, fill: real)
    requires Sensible(cfg) && fill >= 0.0 && cfg.capacity <= Refill(cfg, fill)
    requires DriftsAtMost(calls, EXPIRY - fill)
    ensures GapsPaid(cfg, calls) && LapsesPaid(cfg, calls)
  {
    forall i, j | 0 <= i < j < |calls| ensures Paid(cfg, calls[i], calls[j]) {
      if Lapsed(calls[i], calls[j]) {
        assert (calls[j].server - calls[i].server) - (calls[j].now - calls[i].now) <= EXPIRY - fill;
        RefillGrows(cfg, fill, calls[j].now - calls[i].now);
      }
    }
  }

  // ---------------------------------------------------------------- expiry is invisible

  /** The bucket after the first `n` calls, if buckets never expired. */
  function After(cfg: Config, calls: seq<Call>, n: nat): Option<Bucket>
    requires n <= |calls|
  {
    if n == 0 then None else Some(Charged(cfg, After(cfg, calls, n - 1), calls[n - 1].now, calls[n - 1].cost))
  }

  /** Call `i` is let through by a limiter whose buckets never expire. */
  predicate Admitted(cfg: Config, calls: seq<Call>, i: nat)
    requires i < |calls|
  {
    Admits(cfg, After(cfg, calls, i), calls[i].now, calls[i].cost)
  }

  function BucketOf(slot: Option<Slot>): Option<Bucket> {
    if slot.Some? then Some(slot.value.bucket) else None
  }

  /** As long as every lapse is paid for, the limiter finds, decides and keeps what a limiter whose
      buckets never expire would, whatever the clocks do otherwise. */
  lemma {:induction false} ExpiryIsInvisible(cfg: Config, calls: seq<Call>, n: nat)
    requires n <= |calls| && Sensible(cfg) && NoRefunds(calls) && LapsesPaid(cfg, calls)
    ensures BucketOf(Kept(cfg, None, calls, n)) == After(cfg, calls, n)
    ensures n < |calls| ==> Offered(cfg, None, calls, n) == Level(cfg, After(cfg, calls, n), calls[n].now)
    ensures n < |calls| ==> Passes(cfg, None, calls, n) == Admitted(cfg, calls, n)
  {
    if n == 0 {
    } else {
      ExpiryIsInvisible(cfg, calls, n - 1);
      SameLevelSameCharge(cfg, Found(Kept(cfg, None, calls, n - 1), calls[n - 1].server), After(cfg, calls, n - 1),
                          calls[n - 1].now, calls[n - 1].cost);
      if n < |calls| {
        OfferedUnlessLapsed(cfg, None, calls, n);
        OfferedWhenPaid(cfg, None, calls, n);
        LevelOf(cfg, After(cfg, calls, n), calls[n].now);
      }
    }
  }

  lemma SameLevelSameCharge(cfg: Config, b: Option<Bucket>, b': Option<Bucket>, now: real, cost: real)
    requires Level(cfg, b, now) == Level(cfg, b', now)
    ensures Charged(cfg, b, now, cost) == Charged(cfg, b', now, cost)
  {
  }

  /** On one clock, capacity ≤ 3600 × rate is enough. */
  lemma OneClockHidesExpiry(cfg: Config, calls: seq<Call>, i: nat)
    requires i < |calls| && Sensible(cfg) && NoRefunds(calls) && OneClock(calls)
    requires cfg.capacity <= Refill(cfg, EXPIRY)
    ensures Passes(cfg, None, calls, i) == Admitted(cfg, calls, i)
  {
    DriftIsHarmless(cfg, calls, EXPIRY);
    ExpiryIsInvisible(cfg, calls, i);
  }

  // ---------------------------------------------------------------- the exact characterisation

  /** What a limiter in use satisfies: callers' clocks that do not step back, and paid lapses. */
  ghost predicate Regular(cfg: Config, calls: seq<Call>) {
    Sensible(cfg) && NoRefunds(calls) && InOrder(calls) && LapsesPaid(cfg, calls)
  }

  /** The cost let through of the calls `from, …, n - 1`. */
  function Spent(cfg: Config, calls: seq<Call>, from: nat, n: nat): real
    requires from <= n <= |calls|
    decreases n - from
  {
    if n == from then 0.0
    else Spent(cfg, calls, from, n - 1) + if Passes(cfg, None, calls, n - 1) then calls[n - 1].cost else 0.0
  }

  /** What is left at time `now` of the allowance that starts full with call `from`. */
  function Slack(cfg: Config, calls: seq<Call>, from: nat, n: nat, now: real): real
    requires from <= n <= |calls| && from < |calls|
  {
    cfg.capacity + Refill(cfg, now - calls[from].now) - Spent(cfg, calls, from, n)
  }

  lemma FullSlack(cfg: Config, calls: seq<Call>, i: nat)
    requires i < |calls|
    ensures Slack(cfg, calls, i, i, calls[i].now) == cfg.capacity
    ensures Offered(cfg, None, calls, i) <= cfg.capacity
    ensures i == 0 ==> Offered(cfg, None, calls, i) == cfg.capacity
  {
    MissingIsFull(cfg, calls[i].now);
    assert Refill(cfg, 0.0) == 0.0;
  }

  lemma SlackGrows(cfg: Config, calls: seq<Call>, j: nat, i: nat)
    requires j < i < |calls| && Regular(cfg, calls)
    ensures Slack(cfg, calls, j, i, calls[i].now) ==
            Slack(cfg, calls, j, i, calls[i - 1].now) + Jump(cfg, calls[i - 1], calls[i])
  {
    Jumps(cfg, calls[i - 1], calls[i]);
    RefillAdds(cfg, calls[i - 1].now - calls[j].now, calls[i].now - calls[i - 1].now);
  }

  lemma SlackShrinks(cfg: Config, calls: seq<Call>, j: nat, n: nat, now: real)
    requires j < n <= |calls|
    ensures Slack(cfg, calls, j, n, now) ==
            Slack(cfg, calls, j, n - 1, now) - if Passes(cfg, None, calls, n - 1) then calls[n - 1].cost else 0.0
  {
  }

  /** A call keeps what it found, less its cost if it passed. */
  lemma KeptAfter(cfg: Config, start: Option<Slot>, calls: seq<Call>, n: nat)
    requires 0 < n <= |calls|
    ensures Kept(cfg, start, calls, n).value.bucket ==
            Bucket(Offered(cfg, start, calls, n - 1)
                     - if Passes(cfg, start, calls, n - 1) then calls[n - 1].cost else 0.0, calls[n - 1].now)
  {
  }

  /** The stored tokens are the least slack over all start points. */
  lemma {:induction false} TokensAreLeastSlack(cfg: Config, calls: seq<Call>, n: nat, now: real)
    requires 0 < n <= |calls| && Regular(cfg, calls) && now == calls[n - 1].now
    ensures Kept(cfg, None, calls, n).value.bucket.lastRefill == now
    ensures forall j :: 0 <= j < n ==> Kept(cfg, None, calls, n).value.bucket.tokens <= Slack(cfg, calls, j, n, now)
    ensures exists j :: 0 <= j < n && Kept(cfg, None, calls, n).value.bucket.tokens == Slack(cfg, calls, j, n, now)
    decreases n, 0
  {
    OfferedIsLeastSlack(cfg, calls, n - 1);
    KeptAfter(cfg, None, calls, n);
    forall j | 0 <= j < n
      ensures Slack(cfg, calls, j, n, now) ==
              Slack(cfg, calls, j, n - 1, now) - if Passes(cfg, None, calls, n - 1) then calls[n - 1].cost else 0.0
    {
      SlackShrinks(cfg, calls, j, n, now);
    }
    var j :| 0 <= j <= n - 1 && Offered(cfg, None, calls, n - 1) == Slack(cfg, calls, j, n - 1, now);
    assert Kept(cfg, None, calls, n).value.bucket.tokens == Slack(cfg, calls, j, n, now);
  }

  lemma {:induction false} OfferedIsLeastSlack(cfg: Config, calls: seq<Call>, i: nat)
    requires i < |calls| && Regular(cfg, calls)
    ensures forall j :: 0 <= j <= i ==> Offered(cfg, None, calls, i) <= Slack(cfg, calls, j, i, calls[i].now)
    ensures exists j :: 0 <= j <= i && Offered(cfg, None, calls, i) == Slack(cfg, calls, j, i, calls[i].now)
    decreases i, 1
  {
    FullSlack(cfg, calls, i);
    if i == 0 {
      assert Offered(cfg, None, calls, i) == Slack(cfg, calls, i, i, calls[i].now);
    } else {
      TokensAreLeastSlack(cfg, calls, i, calls[i - 1].now);
      OfferedWhenPaid(cfg, None, calls, i);
      var tokens, gain := Kept(cfg, None, calls, i).value.bucket.tokens, Jump(cfg, calls[i - 1], calls[i]);
      forall j | 0 <= j < i
        ensures Slack(cfg, calls, j, i, calls[i].now) == Slack(cfg, calls, j, i, calls[i - 1].now) + gain
      {
        SlackGrows(cfg, calls, j, i);
      }
      var j :| 0 <= j < i && tokens == Slack(cfg, calls, j, i, calls[i - 1].now);
      assert Slack(cfg, calls, j, i, calls[i].now) == tokens + gain;
      assert Offered(cfg, None, calls, i) == Slack(cfg, calls, if tokens + gain <= cfg.capacity then j else i, i, calls[i].now);
    }
  }

  /** A call passes if and only if its cost fits the slack of every earlier start point: the cost let
      through since then plus its own is at most capacity + rate × elapsed. */
  lemma AdmissionIff(cfg: Config, calls: seq<Call>, i: nat)
    requires i < |calls| && Regular(cfg, calls)
    ensures Passes(cfg, None, calls, i) <==>
            forall j :: 0 <= j <= i ==> calls[i].cost <= Slack(cfg, calls, j, i, calls[i].now)
  {
    OfferedIsLeastSlack(cfg, calls, i);
  }

  /** The same on every configured route: buckets fill in a minute, so the server's clock may drift
      ahead of the callers' by up to 59 minutes. */
  lemma DeployedAdmissionIff(path: string, calls: seq<Call>, i: nat)
    requires i < |calls| && InOrder(calls) && NoRefunds(calls) && DriftsAtMost(calls, 3540.0)
    ensures Passes(ConfigFor(path), None, calls, i) <==>
            forall j :: 0 <= j <= i ==> calls[i].cost <= Slack(ConfigFor(path), calls, j, i, calls[i].now)
  {
    ConfiguredBucketsFillInTime(path);
    DriftIsHarmless(ConfigFor(path), calls, 60.0);
    AdmissionIff(ConfigFor(path), calls, i);
  }

  /** In numbers: ten plus one per six seconds for registration, twenty plus one per three seconds for
      login, two hundred plus ten per three seconds for other paths. */
  function Allowance(path: string, elapsed: real): real {
    if "/api/v1/public/auth/register" <= path then 10.0 + elapsed / 6.0
    else if "/api/v1/public/auth/login" <= path then 20.0 + elapsed / 3.0
    else 200.0 + elapsed * 10.0 / 3.0
  }

  lemma AllowanceIsRefill(path: string, elapsed: real)
    ensures Allowance(path, elapsed) == ConfigFor(path).capacity + Refill(ConfigFor(path), elapsed)
  {
    RoutesInNumbers(path);
    RefillPerMinute(ConfigFor(path), elapsed, ConfigFor(path).capacity);
  }

  /** A call passes if and only if, since every earlier call, it and what was let through fit the allowance. */
  lemma AllowanceInNumbers(path: string, calls: seq<Call>, i: nat)
    requires i < |calls| && InOrder(calls) && NoRefunds(calls) && DriftsAtMost(calls, 3540.0)
    ensures Passes(ConfigFor(path), None, calls, i) <==>
            forall j :: 0 <= j <= i ==>
              Spent(ConfigFor(path), calls, j, i) + calls[i].cost <= Allowance(path, calls[i].now - calls[j].now)
  {
    DeployedAdmissionIff(path, calls, i);
    forall j | 0 <= j <= i
      ensures Slack(ConfigFor(path), calls, j, i, calls[i].now) ==
              Allowance(path, calls[i].now - calls[j].now) - Spent(ConfigFor(path), calls, j, i)
    {
      AllowanceIsRefill(path, calls[i].now - calls[j].now);
    }
  }

  lemma RefillPerMinute(cfg: Config, seconds: real, perMinute: real)
    requires cfg.rate * 60.0 == perMinute
    ensures Refill(cfg, seconds) == seconds * perMinute / 60.0
  {
    assert cfg.rate == perMinute / 60.0;
    assert seconds * (perMinute / 60.0) == seconds * perMinute / 60.0;
  }

  /** Calls that all come at one instant and cost one token each. */
  ghost predicate UnitBurst(calls: seq<Call>) {
    forall i, j :: 0 <= i <= j < |calls| ==> calls[i] == calls[j] && calls[j].cost == 1.0
  }

  lemma {:induction false} BurstDrains(cfg: Config, calls: seq<Call>, i: nat, size: nat)
    requires i < |calls| && UnitBurst(calls) && cfg.capacity == size as real && cfg.rate >= 0.0
    ensures Offered(cfg, None, calls, i) == if i < size then (size - i) as real else 0.0
  {
    if i == 0 {
      MissingIsFull(cfg, calls[0].now);
    } else {
      BurstDrains(cfg, calls, i - 1, size);
      OfferedUnlessLapsed(cfg, None, calls, i);
      KeptAfter(cfg, None, calls, i);
      assert calls[i - 1] == calls[i] && calls[i - 1].cost == 1.0;
      RefillGrows(cfg, 0.0, 0.0);
    }
  }

  /** Of such calls on a fresh bucket the first ten pass for registration, the first twenty for login,
      the first two hundred for every other path, and no more. */
  lemma BurstInNumbers(path: string, calls: seq<Call>, i: nat)
    requires i < |calls| && UnitBurst(calls)
    ensures Passes(ConfigFor(path), None, calls, i) <==>
            if "/api/v1/public/auth/register" <= path then i < 10
            else if "/api/v1/public/auth/login" <= path then i < 20
            else i < 200
  {
    RoutesInNumbers(path);
    var cfg := ConfigFor(path);
    assert calls[i] == calls[i] && calls[i].cost == 1.0;
    BurstDrains(cfg, calls, i, if cfg.capacity == 10.0 then 10 else if cfg.capacity == 20.0 then 20 else 200);
  }

  // ---------------------------------------------------------------- clocks that step back

  /** What the callers' clocks say the bucket earned over the first `n` calls: the refill of the sum
      of the forward jumps. */
  function Forward(calls: seq<Call>, n: nat): real
    requires n <= |calls|
  {
    if n <= 1 then 0.0 else Forward(calls, n - 1) + Max(0.0, calls[n - 1].now - calls[n - 2].now)
  }

  /** What a lapse gives away beyond the forward jump it comes with. */
  function Shortfall(cfg: Config, a: Call, b: Call): real {
    if Lapsed(a, b) then Max(0.0, cfg.capacity - Jump(cfg, a, b)) else 0.0
  }

  function Shortfalls(cfg: Config, calls: seq<Call>, n: nat): real
    requires n <= |calls|
  {
    if n <= 1 then 0.0 else Shortfalls(cfg, calls, n - 1) + Shortfall(cfg, calls[n - 2], calls[n - 1])
  }

  /** The cost let through of the first `n` calls. */
  function Passed(cfg: Config, start: Option<Slot>, calls: seq<Call>, n: nat): real
    requires n <= |calls|
  {
    if n == 0 then 0.0
    else Passed(cfg, start, calls, n - 1) + if Passes(cfg, start, calls, n - 1) then calls[n - 1].cost else 0.0
  }

  /** All that the first `n` calls can have been paid with. */
  function Budget(cfg: Config, calls: seq<Call>, n: nat): real
    requires n <= |calls|
  {
    cfg.capacity + Refill(cfg, Forward(calls, n)) + Shortfalls(cfg, calls, n)
  }

  lemma BudgetGrows(cfg: Config, calls: seq<Call>, n: nat)
    requires 1 < n <= |calls|
    ensures Budget(cfg, calls, n) ==
            Budget(cfg, calls, n - 1) + Jump(cfg, calls[n - 2], calls[n - 1]) + Shortfall(cfg, calls[n - 2], calls[n - 1])
  {
    RefillAdds(cfg, Forward(calls, n - 1), Max(0.0, calls[n - 1].now - calls[n - 2].now));
  }

  lemma OfferedIsPaidFor(cfg: Config, start: Option<Slot>, calls: seq<Call>, i: nat)
    requires 0 < i < |calls| && Sensible(cfg) && Holds(cfg, Kept(cfg, start, calls, i))
    ensures Offered(cfg, start, calls, i) <=
            Kept(cfg, start, calls, i).value.bucket.tokens + Jump(cfg, calls[i - 1], calls[i]) + Shortfall(cfg, calls[i - 1], calls[i])
  {
    OfferedUnlessLapsed(cfg, start, calls, i);
  }

  /** Whatever both clocks do, what has passed and what is kept is at most one full bucket, the refill
      of the forward jumps, and what unpaid lapses gave away. */
  lemma {:induction false} PassedIsBounded(cfg: Config, start: Option<Slot>, calls: seq<Call>, n: nat)
    requires n <= |calls| && Sensible(cfg) && NoRefunds(calls) && Holds(cfg, start)
    ensures Passed(cfg, start, calls, n) + (if n == 0 then 0.0 else Kept(cfg, start, calls, n).value.bucket.tokens) <=
            Budget(cfg, calls, n)
  {
    assert Refill(cfg, 0.0) == 0.0;
    if n == 0 {
    } else {
      PassedIsBounded(cfg, start, calls, n - 1);
      TokensStayInRange(cfg, start, calls, n - 1);
      KeptAfter(cfg, start, calls, n);
      if n == 1 {
        LevelInRange(cfg, Found(start, calls[0].server), calls[0].now);
      } else {
        OfferedIsPaidFor(cfg, start, calls, n - 1);
        BudgetGrows(cfg, calls, n);
      }
    }
  }

  lemma {:induction false} NothingGivenAway(cfg: Config, calls: seq<Call>, n: nat)
    requires n <= |calls| && LapsesPaid(cfg, calls)
    ensures Shortfalls(cfg, calls, n) == 0.0
  {
    if n <= 1 {
    } else {
      NothingGivenAway(cfg, calls, n - 1);
      assert Paid(cfg, calls[n - 2], calls[n - 1]);
    }
  }

  /** The first `n` calls get at most one full bucket and the refill of the forward jumps. */
  predicate WithinForward(cfg: Config, start: Option<Slot>, calls: seq<Call>, n: nat)
    requires n <= |calls|
  {
    Passed(cfg, start, calls, n) <= cfg.capacity + Refill(cfg, Forward(calls, n))
  }

  /** With callers' clocks that may step back: no more than that passes, provided every lapse is paid for. */
  lemma PassedWithinForward(cfg: Config, start: Option<Slot>, calls: seq<Call>, n: nat)
    requires n <= |calls| && Sensible(cfg) && NoRefunds(calls) && Holds(cfg, start) && LapsesPaid(cfg, calls)
    ensures WithinForward(cfg, start, calls, n)
  {
    PassedIsBounded(cfg, start, calls, n);
    TokensStayInRange(cfg, start, calls, n);
    NothingGivenAway(cfg, calls, n);
  }

  lemma DeployedWithinForward(path: string, calls: seq<Call>, n: nat)
    requires n <= |calls| && NoRefunds(calls) && DriftsAtMost(calls, 3540.0)
    ensures WithinForward(ConfigFor(path), None, calls, n)
  {
    ConfiguredBucketsFillInTime(path);
    DriftIsHarmless(ConfigFor(path), calls, 60.0);
    PassedWithinForward(ConfigFor(path), None, calls, n);
  }

  /** Two calls at the times of `a` and `b`, at other costs. */
  function AtCosts(a: Call, b: Call, cost: real, cost': real): seq<Call> {
    [a.(cost := cost), b.(cost := cost')]
  }

  /** Two calls that each ask for a full bucket pass both across an unpaid lapse. */
  lemma UnpaidLapseShows(cfg: Config, a: Call, b: Call)
    requires Sensible(cfg) && !Paid(cfg, a, b)
    ensures var calls := AtCosts(a, b, cfg.capacity, cfg.capacity);
      && Passes(cfg, None, calls, 1) && !Admitted(cfg, calls, 1)
      && !WithinForward(cfg, None, calls, 2)
  {
    var calls := AtCosts(a, b, cfg.capacity, cfg.capacity);
    MissingIsFull(cfg, a.now);
    assert Passes(cfg, None, calls, 0) && Admitted(cfg, calls, 0);
    OfferedUnlessLapsed(cfg, None, calls, 1);
    assert Passes(cfg, None, calls, 1);
    assert Passed(cfg, None, calls, 1) == cfg.capacity;
    assert Passed(cfg, None, calls, 2) == cfg.capacity + cfg.capacity;
    assert Forward(calls, 1) == 0.0;
    assert Forward(calls, 2) == Max(0.0, b.now - a.now);
    assert After(cfg, calls, 1) == Some(Bucket(0.0, a.now));
    LevelOf(cfg, After(cfg, calls, 1), b.now);
  }

  // ---------------------------------------------------------------- the condition is exact

  /** The same clock readings, at other costs. */
  function WithCosts(calls: seq<Call>, costs: seq<real>): (r: seq<Call>)
    requires |costs| == |calls|
    ensures |r| == |calls|
  {
    seq(|calls|, i requires 0 <= i < |calls| => calls[i].(cost := costs[i]))
  }

  ghost predicate NonNegative(costs: seq<real>) {
    forall i :: 0 <= i < |costs| ==> costs[i] >= 0.0
  }

  /** Every call is decided as if buckets never expired. */
  ghost predicate DecidesAlike(cfg: Config, calls: seq<Call>) {
    forall i :: 0 <= i < |calls| ==> Passes(cfg, None, calls, i) == Admitted(cfg, calls, i)
  }

  /** Every stretch of the trace, taken as a trace of its own, keeps to the bound. */
  ghost predicate StretchesWithinForward(cfg: Config, calls: seq<Call>) {
    forall i, j :: 0 <= i <= j <= |calls| ==> WithinForward(cfg, None, calls[i..j], j - i)
  }

  lemma CostsDoNotMatter(cfg: Config, calls: seq<Call>, costs: seq<real>)
    requires |costs| == |calls| && LapsesPaid(cfg, calls)
    ensures LapsesPaid(cfg, WithCosts(calls, costs))
  {
    var priced := WithCosts(calls, costs);
    forall i | 0 < i < |priced| ensures Paid(cfg, priced[i - 1], priced[i]) {
      assert Paid(cfg, calls[i - 1], calls[i]);
    }
  }

  lemma PaidTraceKeepsPromises(cfg: Config, calls: seq<Call>)
    requires Sensible(cfg) && NoRefunds(calls) && LapsesPaid(cfg, calls)
    ensures DecidesAlike(cfg, calls) && StretchesWithinForward(cfg, calls)
  {
    forall i | 0 <= i < |calls| ensures Passes(cfg, None, calls, i) == Admitted(cfg, calls, i) {
      ExpiryIsInvisible(cfg, calls, i);
    }
    forall i, j | 0 <= i <= j <= |calls| ensures WithinForward(cfg, None, calls[i..j], j - i) {
      var stretch := calls[i..j];
      forall l | 0 < l < |stretch| ensures Paid(cfg, stretch[l - 1], stretch[l]) {
        assert Paid(cfg, calls[i + l - 1], calls[i + l]);
      }
      PassedWithinForward(cfg, None, stretch, j - i);
    }
  }

  /** Nothing is asked for until call `at - 1`; that call and the next one each ask for a full bucket. */
  function TwoFull(cfg: Config, n: nat, at: nat): (costs: seq<real>)
    ensures |costs| == n
  {
    seq(n, i => if i == at - 1 || i == at then cfg.capacity else 0.0)
  }

  /** Calls that ask for nothing leave a full bucket full. */
  lemma {:induction false} FullUntilAsked(cfg: Config, calls: seq<Call>, n: nat)
    requires n < |calls| && Sensible(cfg) && forall i :: 0 <= i < n ==> calls[i].cost == 0.0
    ensures Offered(cfg, None, calls, n) == cfg.capacity == Level(cfg, After(cfg, calls, n), calls[n].now)
  {
    MissingIsFull(cfg, calls[n].now);
    if n == 0 {
    } else {
      FullUntilAsked(cfg, calls, n - 1);
      KeptAfter(cfg, None, calls, n);
      OfferedUnlessLapsed(cfg, None, calls, n);
      Jumps(cfg, calls[n - 1], calls[n]);
      LevelOf(cfg, After(cfg, calls, n), calls[n].now);
    }
  }

  lemma UnpaidLapseInTrace(cfg: Config, calls: seq<Call>, at: nat)
    requires Sensible(cfg) && 0 < at < |calls| && !Paid(cfg, calls[at - 1], calls[at])
    ensures var priced := WithCosts(calls, TwoFull(cfg, |calls|, at));
      && Passes(cfg, None, priced, at) && !Admitted(cfg, priced, at)
      && !WithinForward(cfg, None, priced[at - 1..at + 1], 2)
  {
    var priced := WithCosts(calls, TwoFull(cfg, |calls|, at));
    FullUntilAsked(cfg, priced, at - 1);
    KeptAfter(cfg, None, priced, at);
    OfferedUnlessLapsed(cfg, None, priced, at);
    assert After(cfg, priced, at) == Some(Bucket(0.0, calls[at - 1].now));
    LevelOf(cfg, After(cfg, priced, at), priced[at].now);
    UnpaidLapseShows(cfg, calls[at - 1], calls[at]);
    assert priced[at - 1..at + 1] == AtCosts(calls[at - 1], calls[at], cfg.capacity, cfg.capacity);
  }

  /** At all costs the clock readings of a trace keep each promise, invisible expiry and the bound on
      every stretch, if and only if all lapses are paid for. */
  lemma PaidIsExact(cfg: Config, calls: seq<Call>)
    requires Sensible(cfg)
    ensures LapsesPaid(cfg, calls) <==>
            forall costs :: |costs| == |calls| && NonNegative(costs) ==> DecidesAlike(cfg, WithCosts(calls, costs))
    ensures LapsesPaid(cfg, calls) <==>
            forall costs :: |costs| == |calls| && NonNegative(costs) ==> StretchesWithinForward(cfg, WithCosts(calls, costs))
  {
    if LapsesPaid(cfg, calls) {
      forall costs | |costs| == |calls| && NonNegative(costs)
        ensures DecidesAlike(cfg, WithCosts(calls, costs)) && StretchesWithinForward(cfg, WithCosts(calls, costs))
      {
        CostsDoNotMatter(cfg, calls, costs);
        PaidTraceKeepsPromises(cfg, WithCosts(calls, costs));
      }
    } else {
      var at: nat :| 0 < at < |calls| && !Paid(cfg, calls[at - 1], calls[at]);
      var costs := TwoFull(cfg, |calls|, at);
      UnpaidLapseInTrace(cfg, calls, at);
      assert NonNegative(costs);
      assert !DecidesAlike(cfg, WithCosts(calls, costs));
      assert !StretchesWithinForward(cfg, WithCosts(calls, costs));
    }
  }

  /** On the login route: two calls that each take 20 tokens, an hour apart for the server and at the
      same time for the callers, both pass. */
  lemma ServerClockAhead() returns (calls: seq<Call>)
    ensures calls == [Call(0.0, 0.0, 20.0), Call(3600.0, 0.0, 20.0)]
    ensures Passed(ConfigFor(LOGIN), None, calls, 2) == 40.0
    ensures ConfigFor(LOGIN).capacity + Refill(ConfigFor(LOGIN), Forward(calls, 2)) == 20.0
  {
    calls := [Call(0.0, 0.0, 20.0), Call(3600.0, 0.0, 20.0)];
    var cfg := ConfigFor(LOGIN);
    assert LOGIN[20] == 'l' && REGISTER[20] == 'r';
    assert cfg.capacity == 20.0;
    MissingIsFull(cfg, 0.0);
    assert Passes(cfg, None, calls, 0);
    OfferedUnlessLapsed(cfg, None, calls, 1);
    assert Passes(cfg, None, calls, 1);
    assert Passed(cfg, None, calls, 1) == 20.0;
    assert Forward(calls, 2) == 0.0;
  }
}
