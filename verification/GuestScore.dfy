/** Guest intelligence arithmetic: the quality score and the projected lifetime value. */
module GuestScore {
  import opened Domain

  datatype Guest = Guest(points: int, vip: bool, banned: bool)

  /** Truncation toward zero. */
  function Trunc(x: real): int {
    if x >= 0.0 then x.Floor else -((-x).Floor)
  }

  function Min(a: int, b: int): int { if a <= b then a else b }

  function Max(a: int, b: int): int { if a >= b then a else b }

  function MaxReal(a: real, b: real): real { if a >= b then a else b }

  function Rate(part: int, total: int): real {
    part as real / Max(total, 1) as real
  }

  /** The points a rate earns or costs, out of twenty. */
  function Share(part: int, total: int): int {
    Trunc(Rate(part, total) * 20.0)
  }

  function LoyaltyBonus(points: int): int {
    Min(15, Trunc(points as real / 5000.0 * 15.0))
  }

  function SpendBonus(spent: real): int {
    Min(10, Trunc(spent / 3000.0 * 10.0))
  }

  /** The score before it is clamped to 0–100. */
  function RawScore(g: Guest, total: int, completed: int, cancelled: int, spent: real): int {
    50 + LoyaltyBonus(g.points) + Share(completed, total) - Share(cancelled, total) + SpendBonus(spent)
    + (if g.vip then 10 else 0) - (if g.banned then 30 else 0)
  }

  function Score(g: Guest, total: int, completed: int, cancelled: int, spent: real): int {
    Max(0, Min(100, RawScore(g, total, completed, cancelled, spent)))
  }

  method ComputeAiScore(g: Guest, totalBookings: int, completedStays: int, cancelledBookings: int, totalSpent: real)
    returns (score: int)
    ensures score == Score(g, totalBookings, completedStays, cancelledBookings, totalSpent)
    ensures 0 <= score <= 100
  {
    score := 50;
    score := score + Min(15, Trunc(g.points as real / 5000.0 * 15.0));
    assert score == 50 + LoyaltyBonus(g.points);
    var total := Max(totalBookings, 1);
    var completionRate := completedStays as real / total as real;
    assert completionRate == Rate(completedStays, totalBookings);
    score := score + Trunc(completionRate * 20.0);
    assert score == 50 + LoyaltyBonus(g.points) + Share(completedStays, totalBookings);
    var cancelRate := cancelledBookings as real / total as real;
    assert cancelRate == Rate(cancelledBookings, totalBookings);
    score := score - Trunc(cancelRate * 20.0);
    assert score == 50 + LoyaltyBonus(g.points) + Share(completedStays, totalBookings) - Share(cancelledBookings, totalBookings);
    score := score + Min(10, Trunc(totalSpent / 3000.0 * 10.0));
    if g.vip {
      score := score + 10;
    }
    if g.banned {
      score := score - 30;
    }
    score := Max(0, Min(100, score));
  }

  /** Bookings are either completed, cancelled or neither. */
  predicate Consistent(g: Guest, total: int, completed: int, cancelled: int, spent: real) {
    0 <= completed && 0 <= cancelled && completed + cancelled <= total && 0 <= g.points && 0.0 <= spent
  }

  lemma TruncGrows(x: real, y: real)
    requires 0.0 <= x <= y
    ensures 0 <= Trunc(x) <= Trunc(y)
  {
  }

  lemma CrossMultiply(a: real, b: real, c: real, d: real)
    requires b > 0.0 && d > 0.0 && a * d <= c * b
    ensures a / b <= c / d
  {
    assert a / b == (a * d) / (b * d);
    assert c / d == (c * b) / (b * d);
    Divide(a * d, c * b, b * d);
  }

  lemma Divide(x: real, y: real, m: real)
    requires m > 0.0 && x <= y
    ensures x / m <= y / m
  {
  }

  /** One more booking that counts raises the rate; one more that does not lowers it. */
  lemma RateMoves(part: int, total: int)
    requires 0 <= part <= total
    ensures 0.0 <= Rate(part, total) <= Rate(part + 1, total + 1) <= 1.0
    ensures 0.0 <= Rate(part, total + 1) <= Rate(part, total) <= 1.0
  {
    var p, n := part as real, Max(total, 1) as real;
    CrossMultiply(0.0, 1.0, p, n);
    CrossMultiply(p, n, 1.0, 1.0);
    CrossMultiply(0.0, 1.0, p, (total + 1) as real);
    CrossMultiply(p + 1.0, (total + 1) as real, 1.0, 1.0);
    assert (p + 1.0) * n == p * n + n;
    assert p * (total + 1) as real >= p * n;
    if total >= 1 {
      assert p * (total + 1) as real == p * n + p;
      CrossMultiply(p, n, p + 1.0, (total + 1) as real);
    }
    CrossMultiply(p, (total + 1) as real, p, n);
  }

  lemma RateOfMore(part: int, total: int)
    requires 0 <= part < total
    ensures 0.0 <= Rate(part, total) <= Rate(part + 1, total) <= 1.0
  {
    var p, n := part as real, total as real;
    Divide(0.0, p, n);
    Divide(p, p + 1.0, n);
    Divide(p + 1.0, n, n);
  }

  lemma Scaled(x: real, y: real)
    requires 0.0 <= x <= y <= 1.0
    ensures 0 <= Trunc(x * 20.0) <= Trunc(y * 20.0) <= 20
  {
    TruncGrows(x * 20.0, y * 20.0);
  }

  /** How a share moves with one more booking, or with one more of the bookings on record. */
  lemma ShareMoves(part: int, total: int)
    requires 0 <= part <= total
    ensures 0 <= Share(part, total + 1) <= Share(part, total) <= Share(part + 1, total + 1) <= 20
    ensures part < total ==> Share(part, total) <= Share(part + 1, total)
  {
    RateMoves(part, total);
    Scaled(Rate(part, total), Rate(part + 1, total + 1));
    Scaled(Rate(part, total + 1), Rate(part, total));
    if part < total {
      RateOfMore(part, total);
      Scaled(Rate(part, total), Rate(part + 1, total));
    }
  }

  /** With spend fixed, one more completed stay never lowers the score, whether it is a new booking or
      one already on record. */
  lemma StayNeverLowers(g: Guest, total: int, completed: int, cancelled: int, spent: real)
    requires Consistent(g, total, completed, cancelled, spent)
    ensures Score(g, total + 1, completed + 1, cancelled, spent) >= Score(g, total, completed, cancelled, spent)
    ensures completed + cancelled < total ==>
              Score(g, total, completed + 1, cancelled, spent) >= Score(g, total, completed, cancelled, spent)
  {
    ShareMoves(completed, total);
    ShareMoves(cancelled, total);
  }

  /** One more cancellation never raises it. */
  lemma CancellationNeverRaises(g: Guest, total: int, completed: int, cancelled: int, spent: real)
    requires Consistent(g, total, completed, cancelled, spent)
    ensures Score(g, total + 1, completed, cancelled + 1, spent) <= Score(g, total, completed, cancelled, spent)
    ensures completed + cancelled < total ==>
              Score(g, total, completed, cancelled + 1, spent) <= Score(g, total, completed, cancelled, spent)
  {
    ShareMoves(completed, total);
    ShareMoves(cancelled, total);
  }

  lemma BonusRange(points: int, spent: real)
    requires 0 <= points && 0.0 <= spent
    ensures 0 <= LoyaltyBonus(points) <= 15 && 0 <= SpendBonus(spent) <= 10
  {
    TruncGrows(0.0, points as real / 5000.0 * 15.0);
    TruncGrows(0.0, spent / 3000.0 * 10.0);
  }

  /** The points in whole numbers: three per thousand loyalty points up to fifteen, twenty times
      the share of bookings kept or lost, one per three hundred spent up to ten. */
  lemma PointsInNumbers(points: int, part: int, total: int, spent: real)
    requires 0 <= points && 0 <= part && 0.0 <= spent
    ensures LoyaltyBonus(points) == Min(15, 3 * points / 1000)
    ensures Share(part, total) == 20 * part / Max(total, 1)
    ensures SpendBonus(spent) == Min(10, (spent / 300.0).Floor)
  {
    var n := Max(total, 1);
    FloorOfQuotient(3 * points, 1000);
    FloorOfQuotient(20 * part, n);
    assert points as real / 5000.0 * 15.0 == (3 * points) as real / 1000.0;
    TwentyTimes(part as real, n as real);
    CrossMultiply(0.0, 1.0, part as real, n as real);
    assert spent / 3000.0 * 10.0 == spent / 300.0;
  }

  lemma TwentyTimes(p: real, n: real)
    requires n > 0.0
    ensures p / n * 20.0 == 20.0 * p / n
  {
  }

  lemma FloorOfQuotient(a: int, b: int)
    requires 0 <= a && 0 < b
    ensures (a as real / b as real).Floor == a / b
  {
    var q, r := a / b, a % b;
    assert a == q * b + r && 0 <= r < b;
    assert (q * b) as real == q as real * b as real;
    assert a as real == q as real * b as real + r as real;
    WholeAndPart(q as real, r as real, b as real);
    assert a as real / b as real == q as real + r as real / b as real;
  }

  lemma WholeAndPart(q: real, r: real, m: real)
    requires 0.0 <= r < m
    ensures (q * m + r) / m == q + r / m && 0.0 <= r / m < 1.0
  {
    var part := r / m;
    assert part * m == r;
    assert (q + part) * m == q * m + r;
    Divide(0.0, r, m);
    assert (1.0 - part) * m == m - r;
    PositiveFactor(1.0 - part, m);
  }

  lemma PositiveFactor(x: real, m: real)
    requires m > 0.0 && x * m > 0.0
    ensures x > 0.0
  {
  }

  /** A VIP has ten points more than the same guest without the mark, and a ban costs thirty. */
  lemma MarksInNumbers(g: Guest, total: int, completed: int, cancelled: int, spent: real)
    ensures RawScore(g.(vip := true), total, completed, cancelled, spent) == RawScore(g.(vip := false), total, completed, cancelled, spent) + 10
    ensures RawScore(g.(banned := true), total, completed, cancelled, spent) == RawScore(g.(banned := false), total, completed, cancelled, spent) - 30
  {
  }

  /** A guest without bookings, points, spend or marks stands at fifty. */
  lemma EmptyScore()
    ensures RawScore(Guest(0, false, false), 0, 0, 0, 0.0) == 50
  {
    assert 0.0 / 5000.0 * 15.0 == 0.0 && 0.0 / 3000.0 * 10.0 == 0.0;
    assert LoyaltyBonus(0) == 0 && SpendBonus(0.0) == 0;
    assert Rate(0, 0) == 0.0 && Share(0, 0) == 0;
  }

  /** On consistent counts the lower clamp never fires, and the upper one takes away five points at most. */
  lemma LowerClampIsIdle(g: Guest, total: int, completed: int, cancelled: int, spent: real)
    requires Consistent(g, total, completed, cancelled, spent)
    ensures 0 <= RawScore(g, total, completed, cancelled, spent) <= 105
    ensures Score(g, total, completed, cancelled, spent) == Min(100, RawScore(g, total, completed, cancelled, spent))
  {
    ShareMoves(completed, total);
    ShareMoves(cancelled, total);
    BonusRange(g.points, spent);
  }

  // ---------------------------------------------------------------- lifetime value

  function ChurnProbability(daysSinceVisit: Option<int>, completedStays: int): int {
    if completedStays == 0 then 0
    else
      match daysSinceVisit
      case None => 80
      case Some(days) =>
        if days > 365 then 85 else if days > 180 then 65 else if days > 90 then 40 else if days > 30 then 20 else 10
  }

  function Retention(daysSinceVisit: Option<int>, stays: int): real {
    MaxReal(1.0 - ChurnProbability(daysSinceVisit, stays) as real / 100.0, 0.05)
  }

  /** At least one month; a guest without a creation date counts as a year old. */
  function TenureMonths(tenureDays: Option<int>): real {
    MaxReal((if tenureDays.Some? then tenureDays.value else 365) as real / 30.0, 1.0)
  }

  /** The value before it is rounded to cents. */
  function LifetimeValue(spent: real, completedStays: int, daysSinceVisit: Option<int>, tenureDays: Option<int>): real {
    var stays := Max(completedStays, 0);
    if stays == 0 then 0.0
    else
      var avgPerStay := spent / stays as real;
      var staysPerMonth := stays as real / TenureMonths(tenureDays);
      var projectedFutureStays := staysPerMonth * 12.0 * Retention(daysSinceVisit, stays);
      spent + avgPerStay * projectedFutureStays
  }

  lemma StaysCancel(spent: real, stays: real, months: real, retention: real)
    requires stays > 0.0 && months > 0.0
    ensures spent / stays * (stays / months * 12.0 * retention) == spent * (12.0 * retention / months)
  {
    var perMonth := 12.0 * retention / months;
    assert stays / months * 12.0 * retention == stays * perMonth;
    assert spent / stays * (stays * perMonth) == (spent / stays * stays) * perMonth;
    assert spent / stays * stays == spent;
  }

  /** The stay count cancels: spend grows by twelve months of retention per month of tenure. */
  lemma ValueClosedForm(spent: real, stays: int, days: Option<int>, tenure: Option<int>)
    requires stays > 0
    ensures LifetimeValue(spent, stays, days, tenure) ==
            spent + spent * (12.0 * Retention(days, stays) / TenureMonths(tenure))
  {
    StaysCancel(spent, stays as real, TenureMonths(tenure), Retention(days, stays));
  }

  /** The share of guests expected to return, by the days since the last visit. */
  function ReturnRate(daysSinceVisit: Option<int>): real {
    if daysSinceVisit.None? then 0.2
    else if daysSinceVisit.value <= 30 then 0.9
    else if daysSinceVisit.value <= 90 then 0.8
    else if daysSinceVisit.value <= 180 then 0.6
    else if daysSinceVisit.value <= 365 then 0.35
    else 0.15
  }

  lemma RetentionIsReturnRate(days: Option<int>, stays: int)
    requires stays > 0
    ensures Retention(days, stays) == ReturnRate(days)
  {
  }

  /** In numbers: a guest of at least a month brings in 360 times the return rate, per day of tenure, on
      top of each unit spent; a newer guest twelve times the rate. */
  lemma ValueInNumbers(spent: real, stays: int, days: Option<int>, tenure: int)
    requires stays > 0
    ensures LifetimeValue(spent, stays, days, Some(tenure)) ==
            spent + spent * (if tenure >= 30 then 360.0 * ReturnRate(days) / tenure as real else 12.0 * ReturnRate(days))
  {
    ValueClosedForm(spent, stays, days, Some(tenure));
    RetentionIsReturnRate(days, stays);
    MonthsInDays(12.0 * ReturnRate(days), tenure);
    assert 30.0 * (12.0 * ReturnRate(days)) == 360.0 * ReturnRate(days);
  }

  lemma MonthsInDays(x: real, tenure: int)
    ensures x / TenureMonths(Some(tenure)) == if tenure >= 30 then 30.0 * x / tenure as real else x
  {
    if tenure >= 30 {
      assert tenure as real / 30.0 >= 1.0;
      ThirtyDays(x, tenure as real);
    } else {
      assert tenure as real / 30.0 < 1.0;
    }
  }

  /** Without a stay there is no value; without a known start the guest counts as a year old. */
  lemma ValueAtTheEdges(spent: real, stays: int, days: Option<int>)
    ensures stays <= 0 ==> forall tenure :: LifetimeValue(spent, stays, days, tenure) == 0.0
    ensures LifetimeValue(spent, stays, days, None) == LifetimeValue(spent, stays, days, Some(365))
  {
  }

  lemma ThirtyDays(x: real, d: real)
    requires d > 0.0
    ensures x / (d / 30.0) == 30.0 * x / d
  {
    assert x / (d / 30.0) * (d / 30.0) == x;
    assert 30.0 * x / d * (d / 30.0) == x;
  }

  lemma ValueIgnoresStayCount(spent: real, stays: int, stays': int, days: Option<int>, tenure: Option<int>)
    requires stays > 0 && stays' > 0
    ensures LifetimeValue(spent, stays, days, tenure) == LifetimeValue(spent, stays', days, tenure)
  {
    ValueClosedForm(spent, stays, days, tenure);
    ValueClosedForm(spent, stays', days, tenure);
  }

  lemma RetentionRange(days: Option<int>, stays: int)
    requires stays > 0
    ensures 0.15 <= Retention(days, stays) <= 0.9
  {
  }

  lemma FactorRange(retention: real, months: real)
    requires 0.15 <= retention <= 0.9 && months >= 1.0
    ensures 0.0 <= 12.0 * retention / months <= 10.8
  {
    CrossMultiply(0.0, 1.0, 12.0 * retention, months);
    CrossMultiply(12.0 * retention, months, 10.8, 1.0);
  }

  lemma MultiplyGrows(spent: real, a: real, b: real)
    requires spent >= 0.0 && a <= b
    ensures spent * a <= spent * b
  {
  }

  /** Between what was spent and 11.8 times that. */
  lemma ValueRange(spent: real, stays: int, days: Option<int>, tenure: Option<int>)
    requires stays > 0 && spent >= 0.0
    ensures spent <= LifetimeValue(spent, stays, days, tenure) <= 11.8 * spent
  {
    var factor := 12.0 * Retention(days, stays) / TenureMonths(tenure);
    ValueClosedForm(spent, stays, days, tenure);
    RetentionRange(days, stays);
    FactorRange(Retention(days, stays), TenureMonths(tenure));
    MultiplyGrows(spent, 0.0, factor);
    MultiplyGrows(spent, factor, 10.8);
  }

  /** The longer the guest has been away, the lower the value. */
  lemma ValueNeverRisesWithAbsence(spent: real, stays: int, days: int, days': int, tenure: Option<int>)
    requires stays > 0 && spent >= 0.0 && days <= days'
    ensures LifetimeValue(spent, stays, Some(days'), tenure) <= LifetimeValue(spent, stays, Some(days), tenure)
  {
    ValueClosedForm(spent, stays, Some(days), tenure);
    ValueClosedForm(spent, stays, Some(days'), tenure);
    var months := TenureMonths(tenure);
    var r, r' := Retention(Some(days), stays), Retention(Some(days'), stays);
    Divide(12.0 * r', 12.0 * r, months);
    MultiplyGrows(spent, 12.0 * r' / months, 12.0 * r / months);
  }
}
