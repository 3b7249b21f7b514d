/** When a cached answer is the current answer: exact coherence between cache and tables over runs. */
module Coherence {
  import opened Domain
  import opened Availability
  import opened AvailabilityCache
  import opened Engine

  ghost predicate Touches(b: Booking, k: Key) {
    b.hotel == k.hotel && Overlaps(b, k.checkIn, k.checkOut)
  }

  /** The step changes whether `b` blocks the window `k`, and does not delete `k` from the cache. */
  ghost predicate Bypasses(b: Booking, k: Key) {
    Touches(b, k) && k !in InvalidatedKeys(b.hotel, b.checkIn, b.checkOut)
  }

  /** The steps after which a cached answer for `k` may differ from a fresh one: a booking change
      that the five keys miss, and the endpoints that never touch the cache. */
  ghost predicate Disturbs(db: Db, a: Action, k: Key) {
    match a
    case Create(user, room, checkIn, checkOut) =>
      CanCreate(db, room, checkIn, checkOut) && Bypasses(NewBooking(db, user, room, checkIn, checkOut), k)
    case Cancel(user, id) =>
      CanCancel(db, user, id) && Live(db.bookings[id]) && Bypasses(db.bookings[id], k)
    case SetStatus(id, status) =>
      HasBooking(db, id) && Live(db.bookings[id]) != (status != Cancelled) && Touches(db.bookings[id], k)
    case AddRoom(id, room) =>
      id !in db.rooms && room.hotel == k.hotel
    case UpdateRoom(hotel, id, roomType, basePrice, active) =>
      id in db.rooms && db.rooms[id].hotel == hotel == k.hotel && active == Some(true) && !db.rooms[id].active
    case AddBlackout(id, blackout) =>
      id !in db.blackouts && blackout.hotel == k.hotel && k.checkIn <= blackout.date < k.checkOut
    case DeleteBlackout(hotel, id) =>
      id in db.blackouts && db.blackouts[id].hotel == hotel == k.hotel && k.checkIn <= db.blackouts[id].date < k.checkOut
    case _ => false
  }

  ghost predicate EntryCoherent(db: Db, ids: set<int>, k: Key) {
    && (forall r :: r in ids ==> r in db.rooms && db.rooms[r].hotel == k.hotel)
    && Served(db, ids) == WindowRooms(db, k)
  }

  /** Any entry for `k`, live or expired, serves what a fresh query would. */
  ghost predicate Coherent(st: State, k: Key) {
    k in st.cache ==> EntryCoherent(st.db, st.cache[k].rooms, k)
  }

  lemma CoherentAnswers(st: State, k: Key)
    requires Coherent(st, k)
    ensures Answer(st, k) == WindowRooms(st.db, k)
  {
  }

  // ---------------------------------------------------------------- one step

  lemma FreshEntryCoherent(db: Db, k: Key)
    ensures EntryCoherent(db, WindowRooms(db, k), k)
  {
  }

  lemma SameAnswerKeepsEntry(db: Db, db': Db, ids: set<int>, k: Key)
    requires EntryCoherent(db, ids, k)
    requires db'.rooms == db.rooms && WindowRooms(db', k) == WindowRooms(db, k)
    ensures EntryCoherent(db', ids, k)
  {
  }

  /** Changing the status of a booking matters to a window only if it changes whether the booking blocks it. */
  lemma StatusKeepsWindow(db: Db, id: int, status: Status, k: Key)
    requires HasBooking(db, id)
    requires Live(db.bookings[id]) == (status != Cancelled) || !Touches(db.bookings[id], k)
    ensures WindowRooms(WithStatus(db, id, status), k) == WindowRooms(db, k)
  {
    var db' := WithStatus(db, id, status);
    assert forall i :: 0 <= i < |db.bookings| ==>
        db'.bookings[i] == if i == id then db.bookings[id].(status := status) else db.bookings[i];
    SameOverlapsSameAnswer(db, db', k.hotel, k.checkIn, k.checkOut);
  }

  lemma AppendKeepsWindow(db: Db, b: Booking, k: Key)
    requires !Touches(b, k)
    ensures WindowRooms(db.(bookings := db.bookings + [b]), k) == WindowRooms(db, k)
  {
    var db' := db.(bookings := db.bookings + [b]);
    assert forall i :: 0 <= i < |db.bookings| ==> db'.bookings[i] == db.bookings[i];
    SameOverlapsSameAnswer(db, db', k.hotel, k.checkIn, k.checkOut);
  }

  lemma SameTablesSameWindow(db: Db, db': Db, k: Key)
    requires db'.bookings == db.bookings && db'.rooms == db.rooms && db'.blackouts == db.blackouts
    ensures WindowRooms(db', k) == WindowRooms(db, k)
  {
    SameOverlapsSameAnswer(db, db', k.hotel, k.checkIn, k.checkOut);
  }

  lemma RoomChangeKeepsEntry(db: Db, id: int, room: Room, ids: set<int>, k: Key)
    requires EntryCoherent(db, ids, k)
    requires if id in db.rooms then room.hotel == db.rooms[id].hotel && (room.hotel == k.hotel && room.active ==> db.rooms[id].active)
             else room.hotel != k.hotel
    ensures EntryCoherent(db.(rooms := db.rooms[id := room]), ids, k)
  {
    var db' := db.(rooms := db.rooms[id := room]);
    SameBlackoutsSameAnswer(db, db', k.hotel, k.checkIn, k.checkOut);
    assert OverlappingRoomIds(db', k.hotel, k.checkIn, k.checkOut) == OverlappingRoomIds(db, k.hotel, k.checkIn, k.checkOut);
    forall r ensures r in Served(db', ids) <==> r in WindowRooms(db', k) {
      assert r in Served(db, ids) <==> r in WindowRooms(db, k);
    }
  }

  lemma BlackoutsElsewhere(db: Db, db': Db, k: Key)
    requires db'.bookings == db.bookings && db'.rooms == db.rooms
    requires forall i :: i in db.blackouts && db.blackouts[i].hotel == k.hotel && k.checkIn <= db.blackouts[i].date < k.checkOut ==>
               i in db'.blackouts && db'.blackouts[i] == db.blackouts[i]
    requires forall i :: i in db'.blackouts && db'.blackouts[i].hotel == k.hotel && k.checkIn <= db'.blackouts[i].date < k.checkOut ==>
               i in db.blackouts && db.blackouts[i] == db'.blackouts[i]
    ensures WindowRooms(db', k) == WindowRooms(db, k)
  {
    assert BlackoutRoomIds(db', k.hotel, k.checkIn, k.checkOut) == BlackoutRoomIds(db, k.hotel, k.checkIn, k.checkOut);
    assert OverlappingRoomIds(db', k.hotel, k.checkIn, k.checkOut) == OverlappingRoomIds(db, k.hotel, k.checkIn, k.checkOut);
  }

  /** Booking a room and cancelling the booking gives every window of every hotel its old answer back. */
  lemma CreateThenCancelRestores(st: State, user: int, room: int, checkIn: int, checkOut: int, k: Key)
    requires CanCreate(st.db, room, checkIn, checkOut)
    ensures WindowRooms(Step(Step(st, Create(user, room, checkIn, checkOut)), Cancel(user, |st.db.bookings|)).db, k) ==
            WindowRooms(st.db, k)
  {
    var b := NewBooking(st.db, user, room, checkIn, checkOut);
    var booked := Step(st, Create(user, room, checkIn, checkOut)).db;
    assert booked.bookings[|st.db.bookings|] == b;
    assert WithStatus(booked, |st.db.bookings|, Cancelled) ==
           st.db.(bookings := st.db.bookings + [b.(status := Cancelled)]);
    CancelledRowIsInvisible(st.db, b, k.hotel, k.checkIn, k.checkOut);
  }

  /** The tables change under an entry that stays. */
  lemma TablesKeepEntry(st: State, a: Action, k: Key, ids: set<int>)
    requires EntryCoherent(st.db, ids, k) && !Disturbs(st.db, a, k) && k in Step(st, a).cache
    ensures EntryCoherent(Step(st, a).db, ids, k)
  {
    var db, db' := st.db, Step(st, a).db;
    match a
    case Create(user, room, checkIn, checkOut) =>
      if CanCreate(db, room, checkIn, checkOut) {
        AppendKeepsWindow(db, NewBooking(db, user, room, checkIn, checkOut), k);
        SameAnswerKeepsEntry(db, db', ids, k);
      }
    case Cancel(user, id) =>
      if CanCancel(db, user, id) {
        StatusKeepsWindow(db, id, Cancelled, k);
        SameAnswerKeepsEntry(db, db', ids, k);
      }
    case Pay(id, user, amount, gateway) =>
      if CanPay(db, id, amount) {
        var paid := WithStatus(db, id, Confirmed);
        StatusKeepsWindow(db, id, Confirmed, k);
        SameTablesSameWindow(if gateway.Approved? then paid else db, db', k);
        SameAnswerKeepsEntry(db, db', ids, k);
      }
    case Refund(id) =>
      SameTablesSameWindow(db, db', k);
      SameAnswerKeepsEntry(db, db', ids, k);
    case CheckIn(scope, id) =>
      if CanCheckIn(db, scope, id) {
        StatusKeepsWindow(db, id, Completed, k);
        SameAnswerKeepsEntry(db, db', ids, k);
      }
    case SetStatus(id, status) =>
      if HasBooking(db, id) {
        StatusKeepsWindow(db, id, status, k);
        SameAnswerKeepsEntry(db, db', ids, k);
      }
    case AddRoom(id, room) =>
      if id !in db.rooms { RoomChangeKeepsEntry(db, id, room, ids, k); }
    case UpdateRoom(hotel, id, roomType, basePrice, active) =>
      if id in db.rooms && db.rooms[id].hotel == hotel {
        RoomChangeKeepsEntry(db, id, Patched(db.rooms[id], roomType, basePrice, active), ids, k);
      }
    case AddBlackout(id, blackout) =>
      BlackoutsElsewhere(db, db', k);
      SameAnswerKeepsEntry(db, db', ids, k);
    case DeleteBlackout(hotel, id) =>
      BlackoutsElsewhere(db, db', k);
      SameAnswerKeepsEntry(db, db', ids, k);
    case SetRules(rules) =>
      SameTablesSameWindow(db, db', k);
      SameAnswerKeepsEntry(db, db', ids, k);
    case _ =>
  }

  /** A step either keeps the entry for `k`, drops it, or stores the current answer. */
  lemma EntryAfterStep(st: State, a: Action, k: Key)
    requires k in Step(st, a).cache
    ensures (k in st.cache && Step(st, a).cache[k] == st.cache[k]) ||
            (Step(st, a).db == st.db && Step(st, a).now == st.now &&
             Step(st, a).cache[k] == Entry(WindowRooms(st.db, k), st.now + AVAILABILITY_TTL))
  {
  }

  lemma StepKeepsCoherent(st: State, a: Action, k: Key)
    requires Coherent(st, k) && !Disturbs(st.db, a, k)
    ensures Coherent(Step(st, a), k)
  {
    var st' := Step(st, a);
    if k in st'.cache {
      EntryAfterStep(st, a, k);
      if k in st.cache && st'.cache[k] == st.cache[k] {
        TablesKeepEntry(st, a, k, st.cache[k].rooms);
      } else {
        FreshEntryCoherent(st.db, k);
      }
    }
  }

  // ---------------------------------------------------------------- runs

  ghost predicate Undisturbed(st: State, acts: seq<Action>, k: Key) {
    forall i :: 0 <= i < |acts| ==> !Disturbs(At(st, acts, i).db, acts[i], k)
  }

  /** A window that no step disturbed is always answered as a fresh query would answer it. */
  lemma {:induction false} UndisturbedWindowIsFresh(st: State, acts: seq<Action>, k: Key)
    requires k !in st.cache && Undisturbed(st, acts, k)
    ensures Coherent(Run(st, acts), k)
    ensures Answer(Run(st, acts), k) == WindowRooms(Run(st, acts).db, k)
  {
    if acts == [] {
    } else {
      var init := acts[..|acts| - 1];
      forall i | 0 <= i < |init| ensures !Disturbs(At(st, init, i).db, init[i], k) {
        assert init[..i] == acts[..i];
      }
      UndisturbedWindowIsFresh(st, init, k);
      assert !Disturbs(At(st, acts, |acts| - 1).db, acts[|acts| - 1], k);
      StepKeepsCoherent(Run(st, init), acts[|acts| - 1], k);
    }
    CoherentAnswers(Run(st, acts), k);
  }

  /** The everyday requests, with stays of at most `nights` nights: no blackout or room is created,
      no room is reactivated, and no booking is cancelled or revived past the cache. */
  ghost predicate Everyday(db: Db, a: Action, nights: int) {
    match a
    case Create(user, room, checkIn, checkOut) => CanCreate(db, room, checkIn, checkOut) ==> checkOut - checkIn <= nights
    case SetStatus(id, status) => HasBooking(db, id) ==> Live(db.bookings[id]) == (status != Cancelled)
    case UpdateRoom(hotel, id, roomType, basePrice, active) =>
      active == Some(true) && id in db.rooms && db.rooms[id].hotel == hotel ==> db.rooms[id].active
    case AddRoom(id, room) => false
    case AddBlackout(id, blackout) => false
    case DeleteBlackout(hotel, id) => false
    case _ => true
  }

  ghost predicate EverydayRun(st: State, acts: seq<Action>, nights: int) {
    forall i :: 0 <= i < |acts| ==> Everyday(At(st, acts, i).db, acts[i], nights)
  }

  ghost predicate ShortStays(db: Db, nights: int) {
    forall i :: 0 <= i < |db.bookings| ==> 1 <= db.bookings[i].checkOut - db.bookings[i].checkIn <= nights
  }

  lemma StepKeepsShortStays(st: State, a: Action, nights: int)
    requires ShortStays(st.db, nights) && Everyday(st.db, a, nights)
    ensures ShortStays(Step(st, a).db, nights)
  {
  }

  /** What a stay and a window may come to for the five keys to connect them. Searches are not checked
      for order: a window without nights is not among the keys of any stay that spans it. */
  function Reach(windowNights: int): int {
    if windowNights >= 1 then 3 else 1
  }

  lemma EverydayLeavesShortWindows(db: Db, a: Action, nights: int, k: Key)
    requires ShortStays(db, nights) && Everyday(db, a, nights)
    requires nights + k.Nights() <= Reach(k.Nights())
    ensures !Disturbs(db, a, k)
  {
    match a
    case Create(user, room, checkIn, checkOut) =>
      if CanCreate(db, room, checkIn, checkOut) { ShortStayIsInvalidated(NewBooking(db, user, room, checkIn, checkOut), k); }
    case Cancel(user, id) =>
      if CanCancel(db, user, id) { ShortStayIsInvalidated(db.bookings[id], k); }
    case _ =>
  }

  lemma ShortStayIsInvalidated(b: Booking, k: Key)
    requires b.checkIn < b.checkOut && (b.checkOut - b.checkIn) + k.Nights() <= Reach(k.Nights())
    ensures !Bypasses(b, k)
  {
    if Touches(b, k) {
      SharesNightByBounds(k, b.hotel, b.checkIn, b.checkOut);
      ShortWindowsAreInvalidated(k, b.hotel, b.checkIn, b.checkOut);
    }
  }

  lemma {:induction false} EverydayRunIsShort(st: State, acts: seq<Action>, nights: int)
    requires Fresh(st) && EverydayRun(st, acts, nights)
    ensures ShortStays(Run(st, acts).db, nights)
  {
    if acts == [] {
    } else {
      var init := acts[..|acts| - 1];
      forall i | 0 <= i < |init| ensures Everyday(At(st, init, i).db, init[i], nights) {
        assert init[..i] == acts[..i];
      }
      EverydayRunIsShort(st, init, nights);
      assert Everyday(At(st, acts, |acts| - 1).db, acts[|acts| - 1], nights);
      StepKeepsShortStays(Run(st, init), acts[|acts| - 1], nights);
    }
  }

  /** In any run of everyday requests, searches of `k` answer what the tables say, provided every
      stay plus the window come to at most three nights: two-night stays with the one-night windows
      of the warm-up, or one-night stays with two-night windows. For a window without nights they may
      come to one: an empty window is safe among one-night stays. */
  lemma ShortStaysServeFresh(st: State, acts: seq<Action>, nights: int, k: Key)
    requires Fresh(st) && st.cache == map[] && EverydayRun(st, acts, nights)
    requires nights + k.Nights() <= Reach(k.Nights())
    ensures Answer(Run(st, acts), k) == WindowRooms(Run(st, acts).db, k)
  {
    forall i | 0 <= i < |acts| ensures !Disturbs(At(st, acts, i).db, acts[i], k) {
      forall j | 0 <= j < i ensures Everyday(At(st, acts[..i], j).db, acts[..i][j], nights) {
        assert acts[..i][..j] == acts[..j];
        assert Everyday(At(st, acts, j).db, acts[j], nights);
      }
      EverydayRunIsShort(st, acts[..i], nights);
      assert Everyday(At(st, acts, i).db, acts[i], nights);
      EverydayLeavesShortWindows(At(st, acts, i).db, acts[i], nights, k);
    }
    UndisturbedWindowIsFresh(st, acts, k);
  }

  // ---------------------------------------------------------------- the bound is exact

  /** Every run of everyday requests answers every window of this length as the tables do. */
  ghost predicate AlwaysFresh(nights: int, windowNights: int) {
    forall st, acts, k: Key ::
      Fresh(st) && st.cache == map[] && EverydayRun(st, acts, nights) && k.Nights() == windowNights ==>
        Answer(Run(st, acts), k) == WindowRooms(Run(st, acts).db, k)
  }

  /** One hotel with one room. */
  function OneRoom(bookings: seq<Booking>): Db {
    Db({1}, map[7 := Room(1, 1, None, true)], bookings, [], map[], [])
  }

  lemma OneRoomWindow(b: Booking, k: Key)
    requires b.hotel == k.hotel == 1 && b.room == 7
    ensures WindowRooms(OneRoom([]), k) == {7}
    ensures WindowRooms(OneRoom([b]), k) == if Live(b) && Overlaps(b, k.checkIn, k.checkOut) then {} else {7}
  {
    assert OverlappingRoomIds(OneRoom([]), 1, k.checkIn, k.checkOut) == {};
    assert OneRoom([b]).bookings[0] == b;
    if Live(b) && Overlaps(b, k.checkIn, k.checkOut) {
      assert 7 in OverlappingRoomIds(OneRoom([b]), 1, k.checkIn, k.checkOut);
    } else {
      assert OverlappingRoomIds(OneRoom([b]), 1, k.checkIn, k.checkOut) == {};
    }
  }

  lemma FirstSearch(st: State, k: Key)
    requires st.cache == map[] && st.now == 0.0
    ensures Step(st, Search(k.hotel, k.checkIn, k.checkOut)) == State(st.db, map[k := Entry(WindowRooms(st.db, k), 300.0)], 0.0)
  {
    assert k == Key(k.hotel, k.checkIn, k.checkOut);
  }

  lemma AnswerFromEntry(db: Db, k: Key, rooms: set<int>)
    ensures Answer(State(db, map[k := Entry(rooms, 300.0)], 0.0), k) == Served(db, rooms)
  {
  }

  lemma OneRoomServed(bookings: seq<Booking>)
    ensures Served(OneRoom(bookings), {}) == {} && 7 in Served(OneRoom(bookings), {7})
  {
  }

  /** The only room is booked for `[0, nights)`. */
  lemma OneRoomBooked(st: State, nights: int) returns (b: Booking)
    requires st.db == OneRoom([]) && nights >= 1
    ensures b == NewBooking(st.db, 1, 7, 0, nights)
    ensures Step(st, Create(1, 7, 0, nights)) == State(OneRoom([b]), st.cache - InvalidatedKeys(1, 0, nights), st.now)
    ensures st.cache == map[] ==> Step(st, Create(1, 7, 0, nights)).cache == map[]
  {
    b := NewBooking(st.db, 1, 7, 0, nights);
    OneRoomWindow(b, Key(1, 0, nights));
    assert CanCreate(st.db, 7, 0, nights);
    assert [] + [b] == [b];
  }

  /** A search, then a stay that the five keys do not connect to it. */
  lemma StaleRun(nights: int, k: Key) returns (st: State, acts: seq<Action>)
    requires nights >= 1 && k.hotel == 1 && k.checkIn < nights && 0 < k.checkOut && k !in InvalidatedKeys(1, 0, nights)
    ensures Fresh(st) && st.cache == map[] && EverydayRun(st, acts, nights)
    ensures 7 in Answer(Run(st, acts), k) && 7 !in WindowRooms(Run(st, acts).db, k)
  {
    st := State(OneRoom([]), map[], 0.0);
    var search, create := Search(1, k.checkIn, k.checkOut), Create(1, 7, 0, nights);
    acts := [search, create];
    RunOfTwo(st, search, create);
    FirstSearch(st, k);
    var b := OneRoomBooked(Step(st, search), nights);
    OneRoomWindow(b, k);
    var entries: Store := map[k := Entry({7}, 300.0)];
    assert entries - InvalidatedKeys(1, 0, nights) == entries;
    AnswerFromEntry(OneRoom([b]), k, {7});
    OneRoomServed([b]);
  }

  /** A window of this length that every stay over `[0, nights)` blocks and none invalidates. */
  lemma WindowOutOfReach(nights: int, windowNights: int) returns (k: Key)
    requires nights >= 1 && nights + windowNights > Reach(windowNights)
    ensures k.Nights() == windowNights && k.hotel == 1 && k.checkIn < nights && 0 < k.checkOut
    ensures k !in InvalidatedKeys(1, 0, nights)
  {
    k := if windowNights == 1 then Key(1, 1, 2)
         else if windowNights > 1 then Key(1, nights - 1, nights - 1 + windowNights)
         else Key(1, 1 - windowNights, 1);
  }

  /** For stays and windows of any length, windows without nights included. */
  lemma ThreeNightsIsExact(nights: int, windowNights: int)
    requires nights >= 1
    ensures AlwaysFresh(nights, windowNights) <==> nights + windowNights <= Reach(windowNights)
  {
    if nights + windowNights <= Reach(windowNights) {
      forall st, acts, k: Key |
        Fresh(st) && st.cache == map[] && EverydayRun(st, acts, nights) && k.Nights() == windowNights
        ensures Answer(Run(st, acts), k) == WindowRooms(Run(st, acts).db, k)
      {
        ShortStaysServeFresh(st, acts, nights, k);
      }
    } else {
      var k := WindowOutOfReach(nights, windowNights);
      var st, acts := StaleRun(nights, k);
    }
  }

  lemma OneRoomCancelled(b: Booking, k: Key, rooms: set<int>)
    ensures Step(State(OneRoom([b]), map[k := Entry(rooms, 300.0)], 0.0), SetStatus(0, Cancelled)) ==
            State(OneRoom([b.(status := Cancelled)]), map[k := Entry(rooms, 300.0)], 0.0)
  {
    assert [b][0 := b.(status := Cancelled)] == [b.(status := Cancelled)];
  }

  lemma OneRoomSearched(st: State, b: Booking, k: Key)
    requires st == State(OneRoom([b]), map[], 0.0) && k == Key(1, b.checkIn, b.checkOut)
    requires b.hotel == 1 && b.room == 7 && Live(b) && b.checkIn < b.checkOut
    ensures Step(st, Search(1, b.checkIn, b.checkOut)) == State(OneRoom([b]), map[k := Entry({}, 300.0)], 0.0)
  {
    OneRoomWindow(b, k);
    FirstSearch(st, k);
  }

  lemma OneRoomAnswers(b: Booking, k: Key)
    requires b.hotel == k.hotel == 1 && b.room == 7 && !Live(b)
    ensures var st := State(OneRoom([b]), map[k := Entry({}, 300.0)], 0.0);
      Answer(st, k) == {} && WindowRooms(st.db, k) == {7}
  {
    OneRoomWindow(b, k);
    AnswerFromEntry(OneRoom([b]), k, {});
    OneRoomServed([b]);
  }

  /** The status endpoint cancels without touching the cache: a search in between stays stale. */
  lemma OverrideLeavesStale() returns (st: State, acts: seq<Action>, k: Key)
    ensures Fresh(st) && st.cache == map[] && k.Nights() == 1
    ensures acts == [Create(1, 7, 0, 1), Search(1, 0, 1), SetStatus(0, Cancelled)]
    ensures Answer(Run(st, acts), k) == {} && WindowRooms(Run(st, acts).db, k) == {7}
  {
    st := State(OneRoom([]), map[], 0.0);
    k := Key(1, 0, 1);
    var create, search, cancel := Create(1, 7, 0, 1), Search(1, 0, 1), SetStatus(0, Cancelled);
    acts := [create, search, cancel];
    RunOfThree(st, create, search, cancel);
    var b := OneRoomBooked(st, 1);
    OneRoomSearched(Step(st, create), b, k);
    OneRoomCancelled(b, k, {});
    OneRoomAnswers(b.(status := Cancelled), k);
  }
}
