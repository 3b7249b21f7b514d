/** What single requests do to searches: the nights they take and give back, and what the cache says
    right afterwards. */
module Effects {
  import opened Domain
  import opened Availability
  import opened AvailabilityCache
  import opened Engine
  import Pricing

  // ---------------------------------------------------------------- bookings

  /** An accepted booking takes its room out of the windows of its hotel that share a night with it,
      and changes nothing else. */
  lemma BookingTakesNights(st: State, user: int, room: int, checkIn: int, checkOut: int, hotel: int, a: int, z: int)
    requires CanCreate(st.db, room, checkIn, checkOut)
    ensures var before, after := AvailableRooms(st.db, hotel, a, z),
                                 AvailableRooms(Step(st, Create(user, room, checkIn, checkOut)).db, hotel, a, z);
      forall r :: r in after <==>
        r in before && !(r == room && hotel == st.db.rooms[room].hotel && checkIn < z && a < checkOut)
  {
    var db, db' := st.db, Step(st, Create(user, room, checkIn, checkOut)).db;
    var n := |db.bookings|;
    var b := db'.bookings[n];
    assert b.hotel == db.rooms[room].hotel && b.room == room && b.checkIn == checkIn && b.checkOut == checkOut && Live(b);
    forall r ensures r in OverlappingRoomIds(db', hotel, a, z) <==>
                     r in OverlappingRoomIds(db, hotel, a, z)
                     || (r == room && hotel == db.rooms[room].hotel && checkIn < z && a < checkOut) {
      NewRowBlocks(db.bookings, db, db', b, hotel, a, z, r);
    }
    SameBlackoutsSameAnswer(db, db', hotel, a, z);
  }

  lemma NewRowBlocks(rows: seq<Booking>, db: Db, db': Db, b: Booking, hotel: int, a: int, z: int, r: int)
    requires db.bookings == rows && db'.bookings == rows + [b] && Live(b)
    ensures r in OverlappingRoomIds(db', hotel, a, z) <==>
            r in OverlappingRoomIds(db, hotel, a, z) || (r == b.room && hotel == b.hotel && b.checkIn < z && a < b.checkOut)
  {
    BookedInRows(db, hotel, r, a, z);
    BookedInRows(db', hotel, r, a, z);
    assert forall i :: 0 <= i < |rows| ==> db'.bookings[i] == rows[i];
    if r == b.room && hotel == b.hotel && b.checkIn < z && a < b.checkOut {
      assert db'.bookings[|rows|] == b;
    }
  }

  /** Whatever its status was, a booking cancelled by its guest stands at cancelled, no other row changes,
      and a night of it that no other live booking covers is free of bookings. */
  lemma CancelFreesNights(st: State, user: int, id: int, night: int)
    requires HasBooking(st.db, id) && st.db.bookings[id].user == user
    requires forall i :: 0 <= i < |st.db.bookings| && i != id && st.db.bookings[i].room == st.db.bookings[id].room
                         && st.db.bookings[i].status != Cancelled ==>
               !(st.db.bookings[i].checkIn <= night < st.db.bookings[i].checkOut)
    ensures Step(st, Cancel(user, id)).db == st.db.(bookings := st.db.bookings[id := st.db.bookings[id].(status := Cancelled)])
    ensures !NightBooked(Step(st, Cancel(user, id)).db, st.db.bookings[id].hotel, st.db.bookings[id].room, night)
  {
  }

  /** So the room is offered again in every window where nothing else blocks it. */
  lemma CancelOffersAgain(st: State, user: int, id: int, a: int, z: int)
    requires HasBooking(st.db, id) && st.db.bookings[id].user == user
    ensures var b := st.db.bookings[id];
      b.room in AvailableRooms(Step(st, Cancel(user, id)).db, b.hotel, a, z) <==>
        && b.room in st.db.rooms && st.db.rooms[b.room].hotel == b.hotel && st.db.rooms[b.room].active
        && !CheckBlackoutDates(st.db, b.hotel, b.room, a, z)
        && (forall i :: 0 <= i < |st.db.bookings| && i != id && st.db.bookings[i].hotel == b.hotel
                        && st.db.bookings[i].room == b.room && st.db.bookings[i].status != Cancelled ==>
              st.db.bookings[i].checkOut <= a || z <= st.db.bookings[i].checkIn)
  {
    var b, db' := st.db.bookings[id], Step(st, Cancel(user, id)).db;
    assert forall i :: 0 <= i < |st.db.bookings| ==>
        db'.bookings[i] == if i == id then b.(status := Cancelled) else st.db.bookings[i];
    BookedInRows(db', b.hotel, b.room, a, z);
    BlackoutCheckIsPerNight(st.db, b.hotel, b.room, a, z);
    SameBlackoutsSameAnswer(st.db, db', b.hotel, a, z);
  }

  /** Whatever was cached and however long the stay, a search of the very window just booked, or
      with one end a day off, answers what the tables say. */
  lemma BookedWindowIsFresh(st: State, user: int, room: int, checkIn: int, checkOut: int, k: Key)
    requires CanCreate(st.db, room, checkIn, checkOut) && k.hotel == st.db.rooms[room].hotel
    requires (k.checkOut == checkOut && -1 <= k.checkIn - checkIn <= 1) || (k.checkIn == checkIn && -1 <= k.checkOut - checkOut <= 1)
    ensures var st' := Step(st, Create(user, room, checkIn, checkOut)); Answer(st', k) == WindowRooms(st'.db, k)
  {
    KeysWithinADay(k, st.db.rooms[room].hotel, checkIn, checkOut);
  }

  /** The same after a cancellation. */
  lemma CancelledWindowIsFresh(st: State, user: int, id: int, k: Key)
    requires HasBooking(st.db, id) && st.db.bookings[id].user == user && k.hotel == st.db.bookings[id].hotel
    requires var b := st.db.bookings[id];
      (k.checkOut == b.checkOut && -1 <= k.checkIn - b.checkIn <= 1) || (k.checkIn == b.checkIn && -1 <= k.checkOut - b.checkOut <= 1)
    ensures var st' := Step(st, Cancel(user, id)); Answer(st', k) == WindowRooms(st'.db, k)
  {
    var b := st.db.bookings[id];
    KeysWithinADay(k, b.hotel, b.checkIn, b.checkOut);
  }

  // ---------------------------------------------------------------- rooms and blackouts

  /** A room taken out of use is answered by no search, cached or not, and comes back as it was. */
  lemma InactiveIsNeverAnswered(st: State, hotel: int, id: int, k: Key)
    requires id in st.db.rooms && st.db.rooms[id].hotel == hotel
    ensures var off := Step(st, UpdateRoom(hotel, id, None, None, Some(false)));
      && id !in Answer(off, k)
      && (st.db.rooms[id].active ==> Step(off, UpdateRoom(hotel, id, None, None, Some(true))) == st)
  {
    var off := Step(st, UpdateRoom(hotel, id, None, None, Some(false)));
    if st.db.rooms[id].active {
      assert off.db.rooms[id := st.db.rooms[id]] == st.db.rooms;
    }
  }

  /** An update sets what it names and keeps the rest; a room never changes hotel. */
  lemma UpdateSetsWhatItNames(st: State, hotel: int, id: int, roomType: Option<int>, basePrice: Option<Option<real>>, active: Option<bool>)
    requires id in st.db.rooms && st.db.rooms[id].hotel == hotel
    ensures var db := Step(st, UpdateRoom(hotel, id, roomType, basePrice, active)).db;
      && db.rooms.Keys == st.db.rooms.Keys && (forall r :: r in db.rooms && r != id ==> db.rooms[r] == st.db.rooms[r])
      && db.rooms[id].hotel == hotel
      && (roomType == Some(db.rooms[id].roomType) || (roomType == None && db.rooms[id].roomType == st.db.rooms[id].roomType))
      && (basePrice == Some(db.rooms[id].basePrice) || (basePrice == None && db.rooms[id].basePrice == st.db.rooms[id].basePrice))
      && (active == Some(db.rooms[id].active) || (active == None && db.rooms[id].active == st.db.rooms[id].active))
  {
  }

  /** A new blackout takes its room, or the whole hotel, out of the windows that hold its date. */
  lemma BlackoutTakesNight(st: State, id: int, b: Blackout, hotel: int, a: int, z: int)
    requires id !in st.db.blackouts
    ensures var before, after := AvailableRooms(st.db, hotel, a, z), AvailableRooms(Step(st, AddBlackout(id, b)).db, hotel, a, z);
      forall r :: r in after <==>
        r in before && !(hotel == b.hotel && a <= b.date < z && (b.room == None || b.room == Some(r)))
    ensures Step(Step(st, AddBlackout(id, b)), DeleteBlackout(b.hotel, id)) == st
  {
    var db, db' := st.db, Step(st, AddBlackout(id, b)).db;
    forall r ensures CheckBlackoutDates(db', hotel, r, a, z) <==>
                     CheckBlackoutDates(db, hotel, r, a, z)
                     || (hotel == b.hotel && a <= b.date < z && (b.room == None || b.room == Some(r))) {
      if hotel == b.hotel && a <= b.date < z && (b.room == None || b.room == Some(r)) { assert db'.blackouts[id] == b; }
      if k :| k in db.blackouts && db.blackouts[k].hotel == hotel && a <= db.blackouts[k].date < z
              && (db.blackouts[k].room.None? || db.blackouts[k].room.value == r) {
        assert k in db'.blackouts && db'.blackouts[k] == db.blackouts[k];
      }
    }
    assert OverlappingRoomIds(db', hotel, a, z) == OverlappingRoomIds(db, hotel, a, z);
    forall r ensures r in AvailableRooms(db', hotel, a, z) <==>
                     r in AvailableRooms(db, hotel, a, z)
                     && !(hotel == b.hotel && a <= b.date < z && (b.room == None || b.room == Some(r))) {
      BlackoutCheckIsPerNight(db, hotel, r, a, z);
      BlackoutCheckIsPerNight(db', hotel, r, a, z);
    }
    assert db'.blackouts - {id} == db.blackouts;
  }

  /** The next booking is priced by the rules as they stand then. */
  lemma NewRulesPriceNextBooking(st: State, rules: seq<Rule>, user: int, room: int, checkIn: int, checkOut: int)
    requires CanCreate(st.db, room, checkIn, checkOut)
    ensures var db := Step(Step(st, SetRules(rules)), Create(user, room, checkIn, checkOut)).db;
      && |db.bookings| == |st.db.bookings| + 1
      && db.bookings[|st.db.bookings|].price == Pricing.Total(rules, st.db.rooms[room], checkIn, checkOut)
  {
    var db, db' := st.db, Step(st, SetRules(rules)).db;
    SameBlackoutsSameAnswer(db, db', db.rooms[room].hotel, checkIn, checkOut);
    assert OverlappingRoomIds(db', db.rooms[room].hotel, checkIn, checkOut) == OverlappingRoomIds(db, db.rooms[room].hotel, checkIn, checkOut);
  }

  /** A new room is offered from its first search on, if it is active; nothing else changes. */
  lemma NewRoomIsOffered(st: State, id: int, room: Room, hotel: int, a: int, z: int)
    requires id !in st.db.rooms && forall i :: 0 <= i < |st.db.bookings| ==> st.db.bookings[i].room != id
    ensures var before, after := AvailableRooms(st.db, hotel, a, z), AvailableRooms(Step(st, AddRoom(id, room)).db, hotel, a, z);
      forall r :: r in after <==>
        r in before || (r == id && room.hotel == hotel && room.active && !CheckBlackoutDates(st.db, hotel, id, a, z))
  {
    var db, db' := st.db, Step(st, AddRoom(id, room)).db;
    assert OverlappingRoomIds(db', hotel, a, z) == OverlappingRoomIds(db, hotel, a, z);
    SameBlackoutsSameAnswer(db, db', hotel, a, z);
    BlackoutCheckIsPerNight(db, hotel, id, a, z);
  }

  // ---------------------------------------------------------------- time

  /** Five minutes after it was stored an entry is no longer served: the search answers what the tables say. */
  lemma EntriesAgeOut(st: State, k: Key, seconds: real)
    requires Lookup(st.cache, st.now, k).None? && seconds >= 300.0
    ensures var later := Step(AfterSearch(st, k), Tick(seconds));
      later.now == st.now + seconds && Answer(later, k) == WindowRooms(later.db, k)
  {
  }
}
