/** The occupancy report, bounded by counting the room-nights a sound booking table can hold. */
module Occupancy {
  import opened Domain
  import opened Availability
  import opened Engine
  import opened NoDoubleBooking
  import opened Counting
  import Pricing

  predicate InScope(scope: Option<int>, hotel: int) {
    scope.Some? ==> scope.value == hotel
  }

  function ScopeRooms(db: Db, scope: Option<int>): set<int> {
    set r | r in db.rooms && InScope(scope, db.rooms[r].hotel)
  }

  /** The report's room count: active rooms, or one if there are none. */
  function TotalRooms(db: Db, scope: Option<int>): nat {
    if |ActiveRooms(db, scope)| == 0 then 1 else |ActiveRooms(db, scope)|
  }

  function ActiveRooms(db: Db, scope: Option<int>): set<int> {
    set r | r in db.rooms && InScope(scope, db.rooms[r].hotel) && db.rooms[r].active
  }

  /** The bookings whose nights the report sums. */
  predicate Counted(b: Booking, scope: Option<int>, start: int, end: int) {
    b.status in {Confirmed, Completed} && start <= b.checkIn <= end && InScope(scope, b.hotel)
  }

  /** The report's sum of stay lengths over the first `n` rows. */
  function TotalNights(bookings: seq<Booking>, n: nat, scope: Option<int>, start: int, end: int): int
    requires n <= |bookings|
  {
    if n == 0 then 0
    else
      TotalNights(bookings, n - 1, scope, start, end) +
      if Counted(bookings[n - 1], scope, start, end) then bookings[n - 1].checkOut - bookings[n - 1].checkIn else 0
  }

  /** The reported percentage before it is rounded to two decimals. */
  function OccupancyRate(db: Db, scope: Option<int>, today: int, days: int): real
    requires 1 <= days
  {
    TotalNights(db.bookings, |db.bookings|, scope, today - days, today) as real / (TotalRooms(db, scope) * days) as real * 100.0
  }

  /** The nearest whole number, the even one of two. */
  function Nearest(x: real): int {
    var below := x.Floor;
    var part := x - below as real;
    if part < 0.5 || (part == 0.5 && below % 2 == 0) then below else below + 1
  }

  /** Rounded to two decimals, as the report shows it. */
  function Rounded(x: real): real {
    Nearest(x * 100.0) as real / 100.0
  }

  lemma RoundingKeepsOrder(x: real, y: real)
    requires x <= y
    ensures Rounded(x) <= Rounded(y)
    ensures x - 0.005 <= Rounded(x) <= x + 0.005
  {
    NearestGrows(x * 100.0, y * 100.0);
  }

  lemma NearestGrows(x: real, y: real)
    requires x <= y
    ensures Nearest(x) <= Nearest(y)
    ensures x - 0.5 <= Nearest(x) as real <= x + 0.5
  {
    assert x.Floor <= y.Floor;
  }

  lemma RoundingIsNearest(x: real)
    ensures 2.0 * (x - Nearest(x) as real) <= 1.0 && 2.0 * (Nearest(x) as real - x) <= 1.0
    ensures x - Nearest(x) as real in {0.5, -0.5} ==> Nearest(x) % 2 == 0
  {
  }

  // ---------------------------------------------------------------- what the report counts

  /** All rows. */
  function ReportedNights(db: Db, scope: Option<int>, start: int, end: int): int {
    TotalNights(db.bookings, |db.bookings|, scope, start, end)
  }

  /** A row adds its nights if it is confirmed or completed, starts in the range, both ends included,
      and is of the report's hotel, and else nothing. */
  lemma {:induction false} RowAddsItsNights(bookings: seq<Booking>, i: nat, b: Booking, n: nat, scope: Option<int>, start: int, end: int)
    requires i < n <= |bookings|
    ensures TotalNights(bookings[i := b], n, scope, start, end) - TotalNights(bookings, n, scope, start, end) ==
            RowNights(b, scope, start, end) - RowNights(bookings[i], scope, start, end)
  {
    if i == n - 1 {
      SameRowsSameNights(bookings, bookings[i := b], n - 1, scope, start, end);
    } else {
      RowAddsItsNights(bookings, i, b, n - 1, scope, start, end);
    }
  }

  function RowNights(b: Booking, scope: Option<int>, start: int, end: int): int {
    if (b.status == Confirmed || b.status == Completed) && start <= b.checkIn && b.checkIn <= end
       && (scope == None || scope == Some(b.hotel)) then b.checkOut - b.checkIn else 0
  }

  lemma {:induction false} SameRowsSameNights(bookings: seq<Booking>, bookings': seq<Booking>, n: nat, scope: Option<int>, start: int, end: int)
    requires n <= |bookings| && n <= |bookings'| && bookings[..n] == bookings'[..n]
    ensures TotalNights(bookings, n, scope, start, end) == TotalNights(bookings', n, scope, start, end)
  {
    if n == 0 {
    } else {
      assert bookings[n - 1] == bookings[..n][n - 1] == bookings'[..n][n - 1] == bookings'[n - 1];
      assert bookings[..n - 1] == bookings[..n][..n - 1] && bookings'[..n - 1] == bookings'[..n][..n - 1];
      SameRowsSameNights(bookings, bookings', n - 1, scope, start, end);
    }
  }

  lemma StatusMovesReport(db: Db, id: int, status: Status, scope: Option<int>, start: int, end: int)
    requires HasBooking(db, id)
    ensures ReportedNights(WithStatus(db, id, status), scope, start, end) - ReportedNights(db, scope, start, end) ==
            RowNights(db.bookings[id].(status := status), scope, start, end) - RowNights(db.bookings[id], scope, start, end)
  {
    RowAddsItsNights(db.bookings, id, db.bookings[id].(status := status), |db.bookings|, scope, start, end);
  }

  /** Checking a guest in changes no figure, for any range and scope. */
  lemma CheckInKeepsReport(st: State, desk: Option<int>, id: int, scope: Option<int>, start: int, end: int)
    ensures ReportedNights(Step(st, CheckIn(desk, id)).db, scope, start, end) == ReportedNights(st.db, scope, start, end)
  {
    if CanCheckIn(st.db, desk, id) { StatusMovesReport(st.db, id, Completed, scope, start, end); }
  }

  /** A captured payment of a pending booking raises the report by the nights of the stay, if it starts
      in the range; paying again, or in vain, does not. */
  lemma PaymentRaisesReport(st: State, id: int, user: int, amount: real, gateway: Gateway, scope: Option<int>, start: int, end: int)
    ensures ReportedNights(Step(st, Pay(id, user, amount, gateway)).db, scope, start, end) - ReportedNights(st.db, scope, start, end) ==
            if gateway == Approved && amount > 0.0 && HasBooking(st.db, id) && st.db.bookings[id].status == Pending
               && start <= st.db.bookings[id].checkIn <= end && (scope == None || scope == Some(st.db.bookings[id].hotel))
            then st.db.bookings[id].checkOut - st.db.bookings[id].checkIn else 0
  {
    if CanPay(st.db, id, amount) { StatusMovesReport(st.db, id, Confirmed, scope, start, end); }
  }

  /** A cancellation takes the nights out again, if they were counted. */
  lemma CancellationLowersReport(st: State, user: int, id: int, scope: Option<int>, start: int, end: int)
    ensures ReportedNights(st.db, scope, start, end) - ReportedNights(Step(st, Cancel(user, id)).db, scope, start, end) ==
            if HasBooking(st.db, id) && st.db.bookings[id].user == user && st.db.bookings[id].status in {Confirmed, Completed}
               && start <= st.db.bookings[id].checkIn <= end && (scope == None || scope == Some(st.db.bookings[id].hotel))
            then st.db.bookings[id].checkOut - st.db.bookings[id].checkIn else 0
  {
    if CanCancel(st.db, user, id) { StatusMovesReport(st.db, id, Cancelled, scope, start, end); }
  }

  /** A new booking is pending and not counted. */
  lemma BookingKeepsReport(st: State, user: int, room: int, checkIn: int, checkOut: int, scope: Option<int>, start: int, end: int)
    ensures ReportedNights(Step(st, Create(user, room, checkIn, checkOut)).db, scope, start, end) == ReportedNights(st.db, scope, start, end)
  {
    var rows, rows' := st.db.bookings, Step(st, Create(user, room, checkIn, checkOut)).db.bookings;
    if CanCreate(st.db, room, checkIn, checkOut) {
      assert rows'[..|rows|] == rows == rows[..|rows|] && rows'[|rows|].status == Pending;
      SameRowsSameNights(rows, rows', |rows|, scope, start, end);
    }
  }

  /** The rate is a hundred times the nights over active rooms times days. */
  lemma RateInNights(db: Db, scope: Option<int>, today: int, days: int)
    requires 1 <= days
    ensures OccupancyRate(db, scope, today, days) * (TotalRooms(db, scope) * days) as real ==
            100.0 * ReportedNights(db, scope, today - days, today) as real
    ensures OccupancyRate(db, scope, today, days) - 0.005 <= ReportedRate(db, scope, today, days) <= OccupancyRate(db, scope, today, days) + 0.005
  {
    RoundingKeepsOrder(OccupancyRate(db, scope, today, days), OccupancyRate(db, scope, today, days));
    Undivided(ReportedNights(db, scope, today - days, today) as real, (TotalRooms(db, scope) * days) as real);
  }

  lemma Undivided(nights: real, cells: real)
    requires cells > 0.0
    ensures nights / cells * 100.0 * cells == 100.0 * nights
  {
  }

  /** A new room counts if it is active and of the report's hotel; the count is at least one. */
  lemma NewRoomCounts(st: State, id: int, room: Room, scope: Option<int>)
    requires id !in st.db.rooms
    ensures var before, after := |ActiveRooms(st.db, scope)|, |ActiveRooms(Step(st, AddRoom(id, room)).db, scope)|;
      after == before + if room.active && (scope == None || scope == Some(room.hotel)) then 1 else 0
    ensures TotalRooms(st.db, scope) == Max(|ActiveRooms(st.db, scope)|, 1)
  {
    var before, after := ActiveRooms(st.db, scope), ActiveRooms(Step(st, AddRoom(id, room)).db, scope);
    if room.active && (scope == None || scope == Some(room.hotel)) {
      assert id !in before && id in after;
      SameElements(after, before + {id});
    } else {
      SameElements(after, before);
    }
  }

  function Max(a: int, b: int): int { if a >= b then a else b }

  // ---------------------------------------------------------------- room-nights as a set

  function From(b: Booking, lo: int): int {
    if b.checkIn < lo then lo else b.checkIn
  }

  function Till(b: Booking, hi: int): int {
    if b.checkOut > hi then hi else b.checkOut
  }

  function Clip(b: Booking, lo: int, hi: int): int {
    if From(b, lo) < Till(b, hi) then Till(b, hi) - From(b, lo) else 0
  }

  /** The nights of live bookings in scope that fall in `[lo, hi)`, summed over the first `n` rows. */
  function ClippedNights(bookings: seq<Booking>, n: nat, scope: Option<int>, lo: int, hi: int): int
    requires n <= |bookings|
  {
    if n == 0 then 0
    else
      ClippedNights(bookings, n - 1, scope, lo, hi) +
      if Sells(bookings[n - 1], scope) then Clip(bookings[n - 1], lo, hi) else 0
  }

  ghost function BookingNights(b: Booking, lo: int, hi: int): set<Cell> {
    Nights(b.room, From(b, lo), Till(b, hi))
  }

  lemma BookingNightsCount(b: Booking, lo: int, hi: int)
    ensures forall c :: c in BookingNights(b, lo, hi) <==> c.room == b.room && CoversNight(b, c.night) && lo <= c.night < hi
    ensures |BookingNights(b, lo, hi)| == Clip(b, lo, hi)
  {
    NightsCount(b.room, From(b, lo), Till(b, hi));
  }

  predicate Sells(b: Booking, scope: Option<int>) {
    Live(b) && InScope(scope, b.hotel)
  }

  ghost function Sold(bookings: seq<Booking>, n: nat, scope: Option<int>, lo: int, hi: int): set<Cell>
    requires n <= |bookings|
  {
    if n == 0 then {}
    else
      Sold(bookings, n - 1, scope, lo, hi) +
      if Sells(bookings[n - 1], scope) then BookingNights(bookings[n - 1], lo, hi) else {}
  }

  lemma {:induction false} SoldBy(bookings: seq<Booking>, n: nat, scope: Option<int>, lo: int, hi: int, c: Cell) returns (i: int)
    requires n <= |bookings| && c in Sold(bookings, n, scope, lo, hi)
    ensures 0 <= i < n && Sells(bookings[i], scope)
    ensures bookings[i].room == c.room && CoversNight(bookings[i], c.night) && lo <= c.night < hi
  {
    if c in Sold(bookings, n - 1, scope, lo, hi) {
      i := SoldBy(bookings, n - 1, scope, lo, hi, c);
    } else {
      i := n - 1;
      BookingNightsCount(bookings[i], lo, hi);
    }
  }

  lemma NightIsNew(db: Db, n: nat, scope: Option<int>, lo: int, hi: int, c: Cell)
    requires n < |db.bookings| && NoNightSoldTwice(db) && Sells(db.bookings[n], scope)
    requires c in Sold(db.bookings, n, scope, lo, hi)
    ensures c !in BookingNights(db.bookings[n], lo, hi)
  {
    BookingNightsCount(db.bookings[n], lo, hi);
    var i := SoldBy(db.bookings, n, scope, lo, hi, c);
    assert db.bookings[i].room == db.bookings[n].room ==>
        !(CoversNight(db.bookings[i], c.night) && CoversNight(db.bookings[n], c.night));
  }

  /** No two bookings share a room-night, so counting the set is summing the stays. */
  lemma {:induction false} SoldCount(db: Db, n: nat, scope: Option<int>, lo: int, hi: int)
    requires n <= |db.bookings| && NoNightSoldTwice(db)
    ensures |Sold(db.bookings, n, scope, lo, hi)| == ClippedNights(db.bookings, n, scope, lo, hi)
  {
    if n == 0 {
    } else {
      SoldCount(db, n - 1, scope, lo, hi);
      if Sells(db.bookings[n - 1], scope) {
        AddedCount(db, n - 1, scope, lo, hi);
      }
    }
  }

  lemma AddedCount(db: Db, n: nat, scope: Option<int>, lo: int, hi: int)
    requires n < |db.bookings| && NoNightSoldTwice(db) && Sells(db.bookings[n], scope)
    ensures |Sold(db.bookings, n, scope, lo, hi) + BookingNights(db.bookings[n], lo, hi)| ==
            |Sold(db.bookings, n, scope, lo, hi)| + Clip(db.bookings[n], lo, hi)
  {
    var before, added := Sold(db.bookings, n, scope, lo, hi), BookingNights(db.bookings[n], lo, hi);
    forall c | c in before ensures c !in added {
      NightIsNew(db, n, scope, lo, hi, c);
    }
    DisjointCount(before, added);
    BookingNightsCount(db.bookings[n], lo, hi);
  }

  // ---------------------------------------------------------------- bounds

  /** Nights clipped to any window are at most one per room and day of the window. */
  lemma ClippedNightsFit(db: Db, scope: Option<int>, lo: int, hi: int)
    requires Sound(db) && lo <= hi
    ensures ClippedNights(db.bookings, |db.bookings|, scope, lo, hi) <= |ScopeRooms(db, scope)| * (hi - lo)
  {
    var n := |db.bookings|;
    SoldCount(db, n, scope, lo, hi);
    GridCount(ScopeRooms(db, scope), lo, hi);
    forall c | c in Sold(db.bookings, n, scope, lo, hi) ensures c in Grid(ScopeRooms(db, scope), lo, hi) {
      var i := SoldBy(db.bookings, n, scope, lo, hi, c);
      InGrid(ScopeRooms(db, scope), lo, hi, c);
    }
    SubsetCount(Sold(db.bookings, n, scope, lo, hi), Grid(ScopeRooms(db, scope), lo, hi));
  }

  /** No stay that the report counts is longer. */
  ghost predicate StaysAtMost(bookings: seq<Booking>, scope: Option<int>, start: int, end: int, longest: int) {
    forall i :: 0 <= i < |bookings| && Counted(bookings[i], scope, start, end) ==>
      bookings[i].checkOut - bookings[i].checkIn <= longest
  }

  /** A counted stay starts in the report's range, so it lies whole in the range stretched by the longest stay. */
  lemma {:induction false} CountedStaysAreWhole(bookings: seq<Booking>, n: nat, scope: Option<int>, start: int, end: int, longest: int)
    requires n <= |bookings| && StaysAtMost(bookings, scope, start, end, longest)
    ensures TotalNights(bookings, n, scope, start, end) <= ClippedNights(bookings, n, scope, start, end + longest)
  {
    if n == 0 {
    } else {
      CountedStaysAreWhole(bookings, n - 1, scope, start, end, longest);
    }
  }

  /** The summed nights are at most rooms × (days + longest stay), whichever rooms are active. */
  lemma ReportedNightsFit(db: Db, scope: Option<int>, today: int, days: int, longest: int)
    requires Sound(db) && 1 <= days && 0 <= longest && StaysAtMost(db.bookings, scope, today - days, today, longest)
    ensures TotalNights(db.bookings, |db.bookings|, scope, today - days, today) <=
            |ScopeRooms(db, scope)| * (days + longest)
  {
    CountedStaysAreWhole(db.bookings, |db.bookings|, scope, today - days, today, longest);
    ClippedNightsFit(db, scope, today - days, today + longest);
  }

  lemma AllActive(db: Db, scope: Option<int>)
    requires forall r :: r in ScopeRooms(db, scope) ==> db.rooms[r].active
    ensures ActiveRooms(db, scope) == ScopeRooms(db, scope)
  {
    forall r ensures r in ActiveRooms(db, scope) <==> r in ScopeRooms(db, scope) {
      if r in ScopeRooms(db, scope) {
        assert db.rooms[r].active;
      }
    }
    SameElements(ScopeRooms(db, scope), ActiveRooms(db, scope));
  }

  /** The report's figure: the percentage of room-nights, to two decimals. */
  function ReportedRate(db: Db, scope: Option<int>, today: int, days: int): real
    requires 1 <= days
  {
    Rounded(OccupancyRate(db, scope, today, days))
  }

  /** The percentage a sum of nights is at most when stays last at most `longest` nights. */
  function RateLimit(days: int, longest: int): real
    requires 1 <= days
  {
    100.0 * (1.0 + longest as real / days as real)
  }

  lemma RateFromNights(db: Db, scope: Option<int>, today: int, days: int, longest: int)
    requires 1 <= days
    requires TotalNights(db.bookings, |db.bookings|, scope, today - days, today) <= TotalRooms(db, scope) * (days + longest)
    ensures ReportedRate(db, scope, today, days) <= Rounded(RateLimit(days, longest))
    ensures OccupancyRate(db, scope, today, days) <= RateLimit(days, longest)
  {
    Scaled(TotalNights(db.bookings, |db.bookings|, scope, today - days, today), TotalRooms(db, scope), days, longest);
    RoundingKeepsOrder(OccupancyRate(db, scope, today, days), RateLimit(days, longest));
  }

  /** With every room active, the report divides by a count that covers its sum: the percentage is
      at most 100 × (1 + longest stay / days), rounded alike, in every state a safe run reaches. */
  lemma RateIsBounded(st: State, acts: seq<Action>, scope: Option<int>, today: int, days: int, longest: int)
    requires Fresh(st) && SafeRun(st, acts) && 1 <= days && 0 <= longest
    requires StaysAtMost(Run(st, acts).db.bookings, scope, today - days, today, longest)
    requires forall r :: r in ScopeRooms(Run(st, acts).db, scope) ==> Run(st, acts).db.rooms[r].active
    ensures TotalNights(Run(st, acts).db.bookings, |Run(st, acts).db.bookings|, scope, today - days, today) <=
            TotalRooms(Run(st, acts).db, scope) * (days + longest)
    ensures OccupancyRate(Run(st, acts).db, scope, today, days) <= RateLimit(days, longest)
    ensures ReportedRate(Run(st, acts).db, scope, today, days) <= Rounded(RateLimit(days, longest))
  {
    var db := Run(st, acts).db;
    RunKeepsSound(st, acts);
    NightsPerRoom(db, scope, today, days, longest);
    RateFromNights(db, scope, today, days, longest);
  }

  lemma NightsPerRoom(db: Db, scope: Option<int>, today: int, days: int, longest: int)
    requires Sound(db) && 1 <= days && 0 <= longest && StaysAtMost(db.bookings, scope, today - days, today, longest)
    requires forall r :: r in ScopeRooms(db, scope) ==> db.rooms[r].active
    ensures TotalNights(db.bookings, |db.bookings|, scope, today - days, today) <= TotalRooms(db, scope) * (days + longest)
  {
    ReportedNightsFit(db, scope, today, days, longest);
    AllActive(db, scope);
    MoreRoomsMoreNights(|ScopeRooms(db, scope)|, TotalRooms(db, scope), days + longest);
  }

  lemma MoreRoomsMoreNights(rooms: nat, more: nat, nights: nat)
    requires rooms <= more
    ensures rooms * nights <= more * nights
  {
  }

  lemma Scaled(total: int, rooms: int, days: int, longest: int)
    requires 1 <= rooms && 1 <= days && total <= rooms * (days + longest)
    ensures total as real / (rooms * days) as real * 100.0 <= 100.0 * (1.0 + longest as real / days as real)
  {
    var r, d, l, t := rooms as real, days as real, longest as real, total as real;
    assert (rooms * days) as real == r * d;
    assert t <= r * (d + l);
    assert r * d > 0.0;
    assert t / (r * d) <= 1.0 + l / d by {
      assert (1.0 + l / d) * (r * d) == r * d + r * l;
      DivideBy(t, 1.0 + l / d, r * d);
    }
  }

  lemma DivideBy(t: real, q: real, m: real)
    requires m > 0.0 && t <= q * m
    ensures t / m <= q
  {
  }

  // ---------------------------------------------------------------- the bound is attained

  const ROOM := Room(1, 1, None, true)

  /** A paid stay in the only room. */
  function Stay(checkIn: int, checkOut: int): Booking {
    Booking(1, 1, 7, checkIn, checkOut, Pricing.Total([], ROOM, checkIn, checkOut), Confirmed)
  }

  function NightByNight(start: int, days: nat): seq<Booking> {
    if days == 0 then [] else NightByNight(start, days - 1) + [Stay(start + days - 1, start + days)]
  }

  /** Booking and paying one night after the other. */
  function BookNights(start: int, days: nat): seq<Action> {
    if days == 0 then []
    else BookNights(start, days - 1) + BookAndPay(start + days - 1, start + days, days - 1)
  }

  function BookAndPay(checkIn: int, checkOut: int, id: int): seq<Action> {
    [Create(1, 7, checkIn, checkOut)] + [Pay(id, 1, 1.0, Approved)]
  }

  ghost predicate OneRoomWith(db: Db, stays: seq<Booking>) {
    db.rooms == map[7 := ROOM] && db.bookings == stays && db.blackouts == map[] && db.rules == []
  }

  ghost predicate AllBefore(stays: seq<Booking>, day: int) {
    forall i :: 0 <= i < |stays| ==> stays[i].checkOut <= day
  }

  lemma FreeAfterwards(db: Db, stays: seq<Booking>, checkIn: int, checkOut: int)
    requires OneRoomWith(db, stays) && AllBefore(stays, checkIn) && checkIn < checkOut
    ensures CanCreate(db, 7, checkIn, checkOut)
  {
    assert OverlappingRoomIds(db, 1, checkIn, checkOut) == {};
  }

  lemma BookedAndPaid(st: State, stays: seq<Booking>, checkIn: int, checkOut: int)
    requires OneRoomWith(st.db, stays) && AllBefore(stays, checkIn) && checkIn < checkOut
    ensures OneRoomWith(Step(Step(st, Create(1, 7, checkIn, checkOut)), Pay(|stays|, 1, 1.0, Approved)).db, stays + [Stay(checkIn, checkOut)])
  {
    FreeAfterwards(st.db, stays, checkIn, checkOut);
    var b := NewBooking(st.db, 1, 7, checkIn, checkOut);
    var booked := Step(st, Create(1, 7, checkIn, checkOut)).db;
    assert booked.bookings == stays + [b];
    assert CanPay(booked, |stays|, 1.0);
    assert (stays + [b])[|stays| := b.(status := Confirmed)] == stays + [Stay(checkIn, checkOut)];
  }

  lemma RunBookAndPay(st: State, acts: seq<Action>, checkIn: int, checkOut: int, id: int)
    ensures Run(st, acts + BookAndPay(checkIn, checkOut, id)) ==
            Step(Step(Run(st, acts), Create(1, 7, checkIn, checkOut)), Pay(id, 1, 1.0, Approved))
  {
    var create, pay := Create(1, 7, checkIn, checkOut), Pay(id, 1, 1.0, Approved);
    PrefixStates(st, acts, create, 0);
    PrefixStates(st, acts + [create], pay, 0);
    assert acts + BookAndPay(checkIn, checkOut, id) == acts + [create] + [pay];
  }

  lemma OneMoreStay(st: State, acts: seq<Action>, acts': seq<Action>, stays: seq<Booking>, stays': seq<Booking>,
                    checkIn: int, checkOut: int)
    requires OneRoomWith(Run(st, acts).db, stays) && AllBefore(stays, checkIn) && checkIn < checkOut
    requires acts' == acts + BookAndPay(checkIn, checkOut, |stays|) && stays' == stays + [Stay(checkIn, checkOut)]
    ensures OneRoomWith(Run(st, acts').db, stays')
  {
    RunBookAndPay(st, acts, checkIn, checkOut, |stays|);
    BookedAndPaid(Run(st, acts), stays, checkIn, checkOut);
  }

  lemma {:induction false} NightsEndInTime(start: int, days: nat)
    ensures AllBefore(NightByNight(start, days), start + days) && |NightByNight(start, days)| == days
  {
    if days == 0 {
    } else {
      NightsEndInTime(start, days - 1);
    }
  }

  lemma {:induction false} NightsBooked(st: State, start: int, days: nat)
    requires OneRoomWith(st.db, [])
    ensures OneRoomWith(Run(st, BookNights(start, days)).db, NightByNight(start, days))
  {
    if days == 0 {
    } else {
      NightsBooked(st, start, days - 1);
      NightsEndInTime(start, days - 1);
      OneMoreStay(st, BookNights(start, days - 1), BookNights(start, days), NightByNight(start, days - 1), NightByNight(start, days),
                  start + days - 1, start + days);
    }
  }

  lemma {:induction false} NoOverrides(start: int, days: nat)
    ensures forall a :: a in BookNights(start, days) ==> !a.SetStatus?
  {
    if days == 0 {
    } else {
      NoOverrides(start, days - 1);
    }
  }

  lemma {:induction false} TotalOfPrefix(bookings: seq<Booking>, b: Booking, n: nat, start: int, end: int)
    requires n <= |bookings|
    ensures TotalNights(bookings + [b], n, None, start, end) == TotalNights(bookings, n, None, start, end)
  {
    if n == 0 {
    } else {
      TotalOfPrefix(bookings, b, n - 1, start, end);
    }
  }

  lemma {:induction false} NightByNightTotal(start: int, days: nat, end: int)
    requires start + days <= end + 1
    ensures TotalNights(NightByNight(start, days), |NightByNight(start, days)|, None, start, end) == days
    ensures StaysAtMost(NightByNight(start, days), None, start, end, 1)
  {
    if days == 0 {
    } else {
      NightByNightTotal(start, days - 1, end);
      var before := NightByNight(start, days - 1);
      TotalOfPrefix(before, Stay(start + days - 1, start + days), |before|, start, end);
    }
  }

  /** In the order they are made: one night after the other is booked and paid, and on the last day of
      the range a long stay. */
  function FullHouse(today: int, days: nat, longest: nat): seq<Action> {
    BookNights(today - days, days) + BookAndPay(today, today + longest, days)
  }

  lemma FullHouseIsBooked(st: State, today: int, days: nat, longest: nat)
    requires OneRoomWith(st.db, []) && 1 <= longest
    ensures OneRoomWith(Run(st, FullHouse(today, days, longest)).db, NightByNight(today - days, days) + [Stay(today, today + longest)])
  {
    var nights, stays := BookNights(today - days, days), NightByNight(today - days, days);
    NightsBooked(st, today - days, days);
    NightsEndInTime(today - days, days);
    OneMoreStay(st, nights, FullHouse(today, days, longest), stays, stays + [Stay(today, today + longest)], today, today + longest);
  }

  lemma FullHouseIsSafe(st: State, today: int, days: nat, longest: nat)
    ensures SafeRun(st, FullHouse(today, days, longest))
  {
    NoOverrides(today - days, days);
    var acts := FullHouse(today, days, longest);
    forall i | 0 <= i < |acts| ensures SafeAction(At(st, acts, i).db, acts[i]) {
      assert acts[i] in acts;
      assert !acts[i].SetStatus?;
    }
  }

  lemma FullHouseTotal(today: int, days: nat, longest: nat)
    requires 1 <= longest
    ensures var stays := NightByNight(today - days, days) + [Stay(today, today + longest)];
      && TotalNights(stays, |stays|, None, today - days, today) == days + longest
      && StaysAtMost(stays, None, today - days, today, longest)
  {
    var before, last := NightByNight(today - days, days), Stay(today, today + longest);
    NightByNightTotal(today - days, days, today);
    TotalOfPrefix(before, last, |before|, today - days, today);
  }

  lemma SharedDenominator(d: real, l: real)
    requires d > 0.0
    ensures (d + l) / d == 1.0 + l / d
  {
    assert (d + l) / d == d / d + l / d;
  }

  lemma FullRate(days: nat, longest: nat)
    requires 1 <= days
    ensures (days + longest) as real / (1 * days) as real * 100.0 == RateLimit(days, longest)
  {
    var d, l := days as real, longest as real;
    SharedDenominator(d, l);
  }

  lemma FullHouseReport(db: Db, today: int, days: nat, longest: nat)
    requires 1 <= days && 1 <= longest
    requires OneRoomWith(db, NightByNight(today - days, days) + [Stay(today, today + longest)])
    ensures StaysAtMost(db.bookings, None, today - days, today, longest)
    ensures forall r :: r in ScopeRooms(db, None) ==> db.rooms[r].active
    ensures ReportedRate(db, None, today, days) == Rounded(RateLimit(days, longest))
  {
    FullHouseTotal(today, days, longest);
    assert ActiveRooms(db, None) == {7};
    FullRate(days, longest);
  }

  /** For every range and longest stay a safe run, from empty bookings, reaches the bound. */
  lemma BoundIsAttained(today: int, days: nat, longest: nat) returns (st: State, acts: seq<Action>)
    requires 1 <= days && 1 <= longest
    ensures Fresh(st) && SafeRun(st, acts)
    ensures StaysAtMost(Run(st, acts).db.bookings, None, today - days, today, longest)
    ensures forall r :: r in ScopeRooms(Run(st, acts).db, None) ==> Run(st, acts).db.rooms[r].active
    ensures ReportedRate(Run(st, acts).db, None, today, days) == Rounded(RateLimit(days, longest))
  {
    st := State(Db({1}, map[7 := ROOM], [], [], map[], []), map[], 0.0);
    acts := FullHouse(today, days, longest);
    FullHouseIsBooked(st, today, days, longest);
    FullHouseIsSafe(st, today, days, longest);
    FullHouseReport(Run(st, acts).db, today, days, longest);
  }
}
