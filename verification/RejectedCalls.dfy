/** Rejected calls leave no trace: a run without them decides every other call alike, although a
    rejected call stores the refilled tokens and renews the expiry of its bucket. */
module RejectedCalls {
  import opened Domain
  import opened TokenBucket
  import opened BucketTraces

  // ---------------------------------------------------------------- buckets that never expire

  /** The calls among the first `n` that a limiter whose buckets never expire lets through. */
  function OnlyAdmitted(cfg: Config, calls: seq<Call>, n: nat): seq<Call>
    requires n <= |calls|
  {
    if n == 0 then []
    else OnlyAdmitted(cfg, calls, n - 1) + if Admitted(cfg, calls, n - 1) then [calls[n - 1]] else []
  }

  /** `After` reads only the calls it covers. */
  lemma {:induction false} AfterPrefix(cfg: Config, calls: seq<Call>, calls': seq<Call>, n: nat)
    requires n <= |calls| && n <= |calls'| && calls[..n] == calls'[..n]
    ensures After(cfg, calls, n) == After(cfg, calls', n)
  {
    if n == 0 {
    } else {
      assert calls[..n - 1] == calls[..n][..n - 1] && calls'[..n - 1] == calls'[..n][..n - 1];
      AfterPrefix(cfg, calls, calls', n - 1);
      assert calls[n - 1] == calls[..n][n - 1] && calls'[n - 1] == calls'[..n][n - 1];
    }
  }

  lemma TwoRefills(capacity: real, tokens: real, first: real, second: real)
    requires second >= 0.0
    ensures Min(capacity, Min(capacity, tokens + first) + second) == Min(capacity, tokens + (first + second))
  {
  }

  /** Refilling at `mid` and reading at `now` is reading at `now`. */
  lemma RefillInTwoSteps(cfg: Config, b: Option<Bucket>, mid: real, now: real)
    requires cfg.rate >= 0.0 && mid <= now && (b.Some? ==> b.value.lastRefill <= mid)
    ensures Level(cfg, Some(Bucket(Level(cfg, b, mid), mid)), now) == Level(cfg, b, now)
  {
    RefillGrows(cfg, 0.0, now - mid);
    if b.Some? {
      var last := b.value.lastRefill;
      RefillAdds(cfg, mid - last, now - mid);
      TwoRefills(cfg.capacity, b.value.tokens, Refill(cfg, mid - last), Refill(cfg, now - mid));
    }
  }

  lemma RejectedOnlyRefills(cfg: Config, b: Option<Bucket>, now: real, cost: real)
    requires !Admits(cfg, b, now, cost)
    ensures Charged(cfg, b, now, cost) == Bucket(Level(cfg, b, now), now)
  {
  }

  lemma LastRefill(cfg: Config, calls: seq<Call>, n: nat)
    requires n <= |calls|
    ensures if n == 0 then After(cfg, calls, n).None?
            else After(cfg, calls, n).Some? && After(cfg, calls, n).value.lastRefill == calls[n - 1].now
  {
  }

  /** Running only the admitted calls leaves, from then on, the same tokens to every caller. */
  lemma {:induction false} SameTokensWithoutRejected(cfg: Config, calls: seq<Call>, n: nat, now: real)
    requires n <= |calls| && InOrder(calls) && cfg.rate >= 0.0
    requires forall i :: 0 <= i < n ==> calls[i].now <= now
    ensures Level(cfg, After(cfg, OnlyAdmitted(cfg, calls, n), |OnlyAdmitted(cfg, calls, n)|), now) == Level(cfg, After(cfg, calls, n), now)
  {
    if n == 0 {
    } else {
      var c := calls[n - 1];
      var before, all := OnlyAdmitted(cfg, calls, n - 1), OnlyAdmitted(cfg, calls, n);
      var b := After(cfg, calls, n - 1);
      SameTokensWithoutRejected(cfg, calls, n - 1, c.now);
      if Admitted(cfg, calls, n - 1) {
        assert all[..|before|] == before == before[..|before|];
        AfterPrefix(cfg, all, before, |before|);
        SameLevelSameCharge(cfg, After(cfg, before, |before|), b, c.now, c.cost);
      } else {
        SameTokensWithoutRejected(cfg, calls, n - 1, now);
        LastRefill(cfg, calls, n - 1);
        RefillInTwoSteps(cfg, b, c.now, now);
        RejectedOnlyRefills(cfg, b, c.now, c.cost);
        assert all == before;
        assert After(cfg, calls, n) == Some(Bucket(Level(cfg, b, c.now), c.now));
      }
    }
  }

  lemma {:induction false} RemainingAreAdmitted(cfg: Config, calls: seq<Call>, n: nat)
    requires n <= |calls| && InOrder(calls) && cfg.rate >= 0.0
    ensures var kept := OnlyAdmitted(cfg, calls, n); forall i :: 0 <= i < |kept| ==> Admitted(cfg, kept, i)
  {
    if n == 0 {
    } else {
      RemainingAreAdmitted(cfg, calls, n - 1);
      SameTokensWithoutRejected(cfg, calls, n - 1, calls[n - 1].now);
      var before, kept := OnlyAdmitted(cfg, calls, n - 1), OnlyAdmitted(cfg, calls, n);
      forall i | 0 <= i < |kept| ensures Admitted(cfg, kept, i) {
        var j := if i < |before| then i else |before|;
        assert kept[..j] == before[..j];
        AfterPrefix(cfg, kept, before, j);
        if i < |before| { assert Admitted(cfg, before, i); }
      }
    }
  }

  // ---------------------------------------------------------------- the limiter as it runs

  /** The calls among the first `n` that pass. */
  function OnlyPassed(cfg: Config, calls: seq<Call>, n: nat): seq<Call>
    requires n <= |calls|
  {
    if n == 0 then []
    else OnlyPassed(cfg, calls, n - 1) + if Passes(cfg, None, calls, n - 1) then [calls[n - 1]] else []
  }

  /** What every trace made by leaving calls out of a well-timed one satisfies again. */
  ghost predicate WellTimed(cfg: Config, calls: seq<Call>) {
    Sensible(cfg) && NoRefunds(calls) && InOrder(calls) && GapsPaid(cfg, calls)
  }

  lemma {:induction false} PassedAreAdmitted(cfg: Config, calls: seq<Call>, n: nat)
    requires n <= |calls| && WellTimed(cfg, calls)
    ensures OnlyPassed(cfg, calls, n) == OnlyAdmitted(cfg, calls, n)
  {
    if n == 0 {
    } else {
      PassedAreAdmitted(cfg, calls, n - 1);
      ExpiryIsInvisible(cfg, calls, n - 1);
    }
  }

  lemma {:induction false} PassedAreEarlier(cfg: Config, calls: seq<Call>, n: nat)
    requires n <= |calls|
    ensures forall c :: c in OnlyPassed(cfg, calls, n) ==> c in calls[..n]
  {
    if n == 0 {
    } else {
      PassedAreEarlier(cfg, calls, n - 1);
      assert calls[..n] == calls[..n - 1] + [calls[n - 1]];
    }
  }

  /** A later call may follow any selection of earlier ones. */
  lemma NextMayFollow(cfg: Config, calls: seq<Call>, chosen: seq<Call>, n: nat)
    requires n < |calls| && WellTimed(cfg, calls) && WellTimed(cfg, chosen)
    requires forall c :: c in chosen ==> c in calls[..n]
    ensures WellTimed(cfg, chosen + [calls[n]])
  {
    forall i | 0 <= i < |chosen| ensures chosen[i].now <= calls[n].now && Paid(cfg, chosen[i], calls[n]) {
      assert chosen[i] in calls[..n];
      var p :| 0 <= p < n && calls[p] == chosen[i];
    }
  }

  lemma {:induction false} PassedAreWellTimed(cfg: Config, calls: seq<Call>, n: nat)
    requires n <= |calls| && WellTimed(cfg, calls)
    ensures WellTimed(cfg, OnlyPassed(cfg, calls, n))
  {
    if n == 0 {
    } else {
      PassedAreWellTimed(cfg, calls, n - 1);
      PassedAreEarlier(cfg, calls, n - 1);
      NextMayFollow(cfg, calls, OnlyPassed(cfg, calls, n - 1), n - 1);
    }
  }

  /** With the rejected calls deleted, every remaining call still passes, and the next call of any
      caller finds the same tokens and is decided as before. */
  lemma RejectedCallsLeaveNoTrace(cfg: Config, calls: seq<Call>, n: nat)
    requires n <= |calls| && WellTimed(cfg, calls)
    ensures var kept := OnlyPassed(cfg, calls, n);
      && (forall i :: 0 <= i < |kept| ==> Passes(cfg, None, kept, i))
      && (n < |calls| ==>
            && Offered(cfg, None, kept + [calls[n]], |kept|) == Offered(cfg, None, calls, n)
            && Passes(cfg, None, kept + [calls[n]], |kept|) == Passes(cfg, None, calls, n))
  {
    var kept := OnlyPassed(cfg, calls, n);
    PassedAreAdmitted(cfg, calls, n);
    PassedAreWellTimed(cfg, calls, n);
    RemainingAreAdmitted(cfg, calls, n);
    forall i | 0 <= i < |kept| ensures Passes(cfg, None, kept, i) {
      ExpiryIsInvisible(cfg, kept, i);
      assert Admitted(cfg, kept, i);
    }
    if n < |calls| {
      PassedAreEarlier(cfg, calls, n);
      NextMayFollow(cfg, calls, kept, n);
      NextIsOfferedAlike(cfg, calls, kept, n);
    }
  }

  lemma NextIsOfferedAlike(cfg: Config, calls: seq<Call>, kept: seq<Call>, n: nat)
    requires n < |calls| && WellTimed(cfg, calls) && WellTimed(cfg, kept + [calls[n]])
    requires kept == OnlyAdmitted(cfg, calls, n)
    ensures Offered(cfg, None, kept + [calls[n]], |kept|) == Offered(cfg, None, calls, n)
  {
    var all := kept + [calls[n]];
    ExpiryIsInvisible(cfg, calls, n);
    ExpiryIsInvisible(cfg, all, |kept|);
    assert all[..|kept|] == kept == kept[..|kept|];
    AfterPrefix(cfg, all, kept, |kept|);
    SameTokensWithoutRejected(cfg, calls, n, calls[n].now);
  }

  /** Three calls around a gap that is not paid for: the rejected one in the middle keeps the bucket
      alive, and without it the last one passes. */
  lemma UnpaidGapShows(cfg: Config, a: Call, b: Call, c: Call)
    requires Sensible(cfg) && a.now <= b.now <= c.now && !Paid(cfg, a, c) && !Lapsed(a, b) && !Lapsed(b, c)
    ensures var calls := [a.(cost := cfg.capacity), b.(cost := cfg.capacity + 1.0), c.(cost := cfg.capacity)];
      && OnlyPassed(cfg, calls, 2) == [calls[0]]
      && !Passes(cfg, None, calls, 2)
      && Passes(cfg, None, [calls[0], calls[2]], 1)
  {
    var calls := [a.(cost := cfg.capacity), b.(cost := cfg.capacity + 1.0), c.(cost := cfg.capacity)];
    var short := [calls[0], calls[2]];
    MissingIsFull(cfg, a.now);
    assert Passes(cfg, None, calls, 0);
    assert OnlyPassed(cfg, calls, 1) == [] + [calls[0]];
    OfferedUnlessLapsed(cfg, None, calls, 1);
    OfferedUnlessLapsed(cfg, None, calls, 2);
    OfferedUnlessLapsed(cfg, None, short, 1);
    RefillAdds(cfg, b.now - a.now, c.now - b.now);
    Jumps(cfg, a, b);
    Jumps(cfg, b, c);
    KeptAfter(cfg, None, calls, 1);
    KeptAfter(cfg, None, calls, 2);
    assert OnlyPassed(cfg, calls, 2) == OnlyPassed(cfg, calls, 1) + [];
  }

  /** On every configured route, with the clocks at most 59 minutes apart. */
  lemma DeployedRejectedLeaveNoTrace(path: string, calls: seq<Call>, n: nat)
    requires n < |calls| && InOrder(calls) && NoRefunds(calls) && DriftsAtMost(calls, 3540.0)
    ensures var kept := OnlyPassed(ConfigFor(path), calls, n);
      Passes(ConfigFor(path), None, kept + [calls[n]], |kept|) == Passes(ConfigFor(path), None, calls, n)
  {
    ConfiguredBucketsFillInTime(path);
    DriftIsHarmless(ConfigFor(path), calls, 60.0);
    RejectedCallsLeaveNoTrace(ConfigFor(path), calls, n);
  }
}
