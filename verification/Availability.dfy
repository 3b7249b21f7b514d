/** The availability query, and the per-night model it refines. */
module Availability {
  import opened Domain

  predicate Live(b: Booking) {
    b.status != Cancelled
  }

  /** The query's overlap test between a booking and the window `[checkIn, checkOut)`. */
  predicate Overlaps(b: Booking, checkIn: int, checkOut: int) {
    !(b.checkOut <= checkIn || b.checkIn >= checkOut)
  }

  function OverlappingRoomIds(db: Db, hotel: int, checkIn: int, checkOut: int): set<int> {
    set i | 0 <= i < |db.bookings| && db.bookings[i].hotel == hotel && Live(db.bookings[i])
            && Overlaps(db.bookings[i], checkIn, checkOut) :: db.bookings[i].room
  }

  function BlackoutRoomIds(db: Db, hotel: int, checkIn: int, checkOut: int): set<int> {
    set k | k in db.blackouts && db.blackouts[k].hotel == hotel && db.blackouts[k].room.Some?
            && checkIn <= db.blackouts[k].date < checkOut :: db.blackouts[k].room.value
  }

  predicate HotelWideBlackout(db: Db, hotel: int, checkIn: int, checkOut: int) {
    exists k :: k in db.blackouts && db.blackouts[k].hotel == hotel && db.blackouts[k].room.None?
                && checkIn <= db.blackouts[k].date < checkOut
  }

  function AvailableRooms(db: Db, hotel: int, checkIn: int, checkOut: int): set<int> {
    if HotelWideBlackout(db, hotel, checkIn, checkOut) then {}
    else
      set r | r in db.rooms && db.rooms[r].hotel == hotel
              && r !in OverlappingRoomIds(db, hotel, checkIn, checkOut)
              && r !in BlackoutRoomIds(db, hotel, checkIn, checkOut)
              && db.rooms[r].active
  }

  predicate CheckBlackoutDates(db: Db, hotel: int, room: int, checkIn: int, checkOut: int) {
    exists k :: k in db.blackouts && db.blackouts[k].hotel == hotel
                && checkIn <= db.blackouts[k].date < checkOut
                && (db.blackouts[k].room.None? || db.blackouts[k].room.value == room)
  }

  // ---------------------------------------------------------------- the per-night model

  predicate CoversNight(b: Booking, night: int) {
    b.checkIn <= night < b.checkOut
  }

  ghost predicate NightBooked(db: Db, hotel: int, room: int, night: int) {
    exists i :: 0 <= i < |db.bookings| && db.bookings[i].hotel == hotel && db.bookings[i].room == room
                && Live(db.bookings[i]) && CoversNight(db.bookings[i], night)
  }

  ghost predicate NightBlackedOut(db: Db, hotel: int, room: int, night: int) {
    exists k :: k in db.blackouts && db.blackouts[k].hotel == hotel && db.blackouts[k].date == night
                && (db.blackouts[k].room.None? || db.blackouts[k].room.value == room)
  }

  ghost predicate NightFree(db: Db, hotel: int, room: int, night: int) {
    !NightBooked(db, hotel, room, night) && !NightBlackedOut(db, hotel, room, night)
  }

  /** The room can be sold for every night of the stay. */
  ghost predicate Bookable(db: Db, hotel: int, room: int, checkIn: int, checkOut: int) {
    && room in db.rooms && db.rooms[room].hotel == hotel && db.rooms[room].active
    && forall night :: checkIn <= night < checkOut ==> NightFree(db, hotel, room, night)
  }

  /** Every stored booking is for at least one night; the booking schema rejects anything else. */
  ghost predicate ProperStays(db: Db) {
    forall i :: 0 <= i < |db.bookings| ==> db.bookings[i].checkIn < db.bookings[i].checkOut
  }

  // ---------------------------------------------------------------- refinement

  /** For a stay of at least one night, the query's test is "they share a night". */
  lemma OverlapIsSharedNight(b: Booking, checkIn: int, checkOut: int)
    requires checkIn < checkOut && b.checkIn < b.checkOut
    ensures Overlaps(b, checkIn, checkOut) <==> exists night :: checkIn <= night < checkOut && CoversNight(b, night)
  {
    var first := if b.checkIn < checkIn then checkIn else b.checkIn;
    if Overlaps(b, checkIn, checkOut) {
      assert checkIn <= first < checkOut && CoversNight(b, first);
    }
  }

  lemma BookedNightInWindow(db: Db, hotel: int, room: int, checkIn: int, checkOut: int)
    requires ProperStays(db) && checkIn < checkOut
    ensures room in OverlappingRoomIds(db, hotel, checkIn, checkOut) <==>
            exists night :: checkIn <= night < checkOut && NightBooked(db, hotel, room, night)
  {
    if room in OverlappingRoomIds(db, hotel, checkIn, checkOut) {
      var i :| 0 <= i < |db.bookings| && db.bookings[i].hotel == hotel && Live(db.bookings[i])
               && Overlaps(db.bookings[i], checkIn, checkOut) && db.bookings[i].room == room;
      OverlapIsSharedNight(db.bookings[i], checkIn, checkOut);
      var night :| checkIn <= night < checkOut && CoversNight(db.bookings[i], night);
      assert NightBooked(db, hotel, room, night);
    }
    if night :| checkIn <= night < checkOut && NightBooked(db, hotel, room, night) {
      var i :| 0 <= i < |db.bookings| && db.bookings[i].hotel == hotel && db.bookings[i].room == room
               && Live(db.bookings[i]) && CoversNight(db.bookings[i], night);
      OverlapIsSharedNight(db.bookings[i], checkIn, checkOut);
    }
  }

  /** The blackout check agrees with the per-night model on every window, empty ones included. */
  lemma BlackoutCheckIsPerNight(db: Db, hotel: int, room: int, checkIn: int, checkOut: int)
    ensures CheckBlackoutDates(db, hotel, room, checkIn, checkOut) <==>
            exists night :: checkIn <= night < checkOut && NightBlackedOut(db, hotel, room, night)
    ensures CheckBlackoutDates(db, hotel, room, checkIn, checkOut) <==>
            HotelWideBlackout(db, hotel, checkIn, checkOut) || room in BlackoutRoomIds(db, hotel, checkIn, checkOut)
  {
    if CheckBlackoutDates(db, hotel, room, checkIn, checkOut) {
      var k :| k in db.blackouts && db.blackouts[k].hotel == hotel
               && checkIn <= db.blackouts[k].date < checkOut
               && (db.blackouts[k].room.None? || db.blackouts[k].room.value == room);
      assert NightBlackedOut(db, hotel, room, db.blackouts[k].date);
    }
  }

  /** The query returns a room for a stay if and only if the room can be sold for each of its nights. */
  lemma AvailableIffBookable(db: Db, hotel: int, room: int, checkIn: int, checkOut: int)
    requires ProperStays(db) && checkIn < checkOut
    ensures room in AvailableRooms(db, hotel, checkIn, checkOut) <==> Bookable(db, hotel, room, checkIn, checkOut)
  {
    BookedNightInWindow(db, hotel, room, checkIn, checkOut);
    BlackoutCheckIsPerNight(db, hotel, room, checkIn, checkOut);
    if forall night :: checkIn <= night < checkOut ==> NightFree(db, hotel, room, night) {
      assert forall night :: checkIn <= night < checkOut ==>
          !NightBooked(db, hotel, room, night) && !NightBlackedOut(db, hotel, room, night) by {
        forall night | checkIn <= night < checkOut
          ensures !NightBooked(db, hotel, room, night) && !NightBlackedOut(db, hotel, room, night)
        {
          assert NightFree(db, hotel, room, night);
        }
      }
    }
  }

  /** A search may ask for a window without nights. The query then returns a room if and only if it
      is active and no booking starts before the window's end and ends after its start, so a window
      without nights inside a stay loses the room. */
  lemma WindowWithoutNights(db: Db, hotel: int, room: int, checkIn: int, checkOut: int)
    requires checkOut <= checkIn
    ensures room in AvailableRooms(db, hotel, checkIn, checkOut) <==>
            && room in db.rooms && db.rooms[room].hotel == hotel && db.rooms[room].active
            && forall i :: 0 <= i < |db.bookings| && db.bookings[i].hotel == hotel && db.bookings[i].room == room
                           && Live(db.bookings[i]) ==>
                  !(db.bookings[i].checkIn < checkOut && checkIn < db.bookings[i].checkOut)
  {
    if room in OverlappingRoomIds(db, hotel, checkIn, checkOut) {
      var i :| 0 <= i < |db.bookings| && db.bookings[i].hotel == hotel && Live(db.bookings[i])
               && Overlaps(db.bookings[i], checkIn, checkOut) && db.bookings[i].room == room;
      assert db.bookings[i].checkIn < checkOut && checkIn < db.bookings[i].checkOut;
    }
  }

  /** A stay of two nights, and an empty window in its middle: no night is asked for, so every night
      asked for is free, and yet the query drops the room. */
  lemma EmptyWindowLosesRoom() returns (db: Db)
    ensures ProperStays(db) && Bookable(db, 1, 7, 11, 11) && 7 !in AvailableRooms(db, 1, 11, 11)
  {
    var stay := Booking(1, 1, 7, 10, 12, 0.0, Confirmed);
    db := Db({1}, map[7 := Room(1, 1, None, true)], [stay], [], map[], []);
    assert db.bookings[0] == stay && Overlaps(stay, 11, 11);
    WindowWithoutNights(db, 1, 7, 11, 11);
  }

  /** The query, said in the terms of the rows, on every window: the room is there, of this hotel and
      active, every live booking of it ends by the window's start or begins from its end on, and no
      blackout of the room or of the whole hotel falls in the window. */
  lemma QueryInRows(db: Db, hotel: int, room: int, checkIn: int, checkOut: int)
    ensures room in AvailableRooms(db, hotel, checkIn, checkOut) <==>
            && room in db.rooms && db.rooms[room].hotel == hotel && db.rooms[room].active
            && (forall i :: 0 <= i < |db.bookings| && db.bookings[i].hotel == hotel && db.bookings[i].room == room
                            && db.bookings[i].status in {Pending, Confirmed, Completed} ==>
                  db.bookings[i].checkOut <= checkIn || checkOut <= db.bookings[i].checkIn)
            && (forall k :: k in db.blackouts && db.blackouts[k].hotel == hotel
                            && (db.blackouts[k].room == None || db.blackouts[k].room == Some(room)) ==>
                  db.blackouts[k].date < checkIn || checkOut <= db.blackouts[k].date)
  {
    BookedInRows(db, hotel, room, checkIn, checkOut);
    BlackoutCheckIsPerNight(db, hotel, room, checkIn, checkOut);
  }

  lemma BookedInRows(db: Db, hotel: int, room: int, checkIn: int, checkOut: int)
    ensures room in OverlappingRoomIds(db, hotel, checkIn, checkOut) <==>
            exists i :: 0 <= i < |db.bookings| && db.bookings[i].hotel == hotel && db.bookings[i].room == room
                        && db.bookings[i].status in {Pending, Confirmed, Completed}
                        && db.bookings[i].checkIn < checkOut && checkIn < db.bookings[i].checkOut
  {
    if room in OverlappingRoomIds(db, hotel, checkIn, checkOut) {
      var i :| 0 <= i < |db.bookings| && db.bookings[i].hotel == hotel && Live(db.bookings[i])
               && Overlaps(db.bookings[i], checkIn, checkOut) && db.bookings[i].room == room;
      assert db.bookings[i].checkIn < checkOut && checkIn < db.bookings[i].checkOut;
    }
    if i :| 0 <= i < |db.bookings| && db.bookings[i].hotel == hotel && db.bookings[i].room == room
            && db.bookings[i].status in {Pending, Confirmed, Completed}
            && db.bookings[i].checkIn < checkOut && checkIn < db.bookings[i].checkOut {
      assert Overlaps(db.bookings[i], checkIn, checkOut);
    }
  }

  // ---------------------------------------------------------------- laws

  /** A room can be sold for `[a, c)` exactly when it can be sold for both parts of the stay.
      The parts may be empty. */
  lemma AvailabilitySplits(db: Db, hotel: int, a: int, b: int, c: int)
    requires ProperStays(db) && a <= b <= c
    ensures AvailableRooms(db, hotel, a, c) == AvailableRooms(db, hotel, a, b) * AvailableRooms(db, hotel, b, c)
  {
    forall r ensures r in AvailableRooms(db, hotel, a, c) <==>
                     r in AvailableRooms(db, hotel, a, b) && r in AvailableRooms(db, hotel, b, c) {
      if a < b < c {
        AvailableIffBookable(db, hotel, r, a, c);
        AvailableIffBookable(db, hotel, r, a, b);
        AvailableIffBookable(db, hotel, r, b, c);
      } else {
        EmptyPartIsWeaker(db, hotel, r, a, c, b);
      }
    }
  }

  lemma EmptyPartIsWeaker(db: Db, hotel: int, room: int, a: int, c: int, at: int)
    requires ProperStays(db) && a <= at <= c
    ensures room in AvailableRooms(db, hotel, a, c) ==> room in AvailableRooms(db, hotel, at, at)
  {
    WindowWithoutNights(db, hotel, room, at, at);
    if room in AvailableRooms(db, hotel, a, c) {
      forall i | 0 <= i < |db.bookings| && db.bookings[i].hotel == hotel && db.bookings[i].room == room
                 && Live(db.bookings[i])
        ensures !(db.bookings[i].checkIn < at && at < db.bookings[i].checkOut)
      {
        assert !Overlaps(db.bookings[i], a, c);
      }
    }
  }

  /** Every booking of `db` that blocks a room in the window has one in `db'` that blocks the same room. */
  ghost predicate BlocksCarryOver(db: Db, db': Db, hotel: int, checkIn: int, checkOut: int) {
    forall i :: 0 <= i < |db.bookings| && db.bookings[i].hotel == hotel && Live(db.bookings[i])
                && Overlaps(db.bookings[i], checkIn, checkOut) ==>
      exists j :: 0 <= j < |db'.bookings| && db'.bookings[j].hotel == hotel && Live(db'.bookings[j])
                  && Overlaps(db'.bookings[j], checkIn, checkOut) && db'.bookings[j].room == db.bookings[i].room
  }

  lemma SameBlackoutsSameAnswer(db: Db, db': Db, hotel: int, checkIn: int, checkOut: int)
    requires db'.blackouts == db.blackouts
    ensures BlackoutRoomIds(db, hotel, checkIn, checkOut) == BlackoutRoomIds(db', hotel, checkIn, checkOut)
    ensures HotelWideBlackout(db, hotel, checkIn, checkOut) == HotelWideBlackout(db', hotel, checkIn, checkOut)
  {
  }

  lemma SameOverlapsSameAnswer(db: Db, db': Db, hotel: int, checkIn: int, checkOut: int)
    requires BlocksCarryOver(db, db', hotel, checkIn, checkOut) && BlocksCarryOver(db', db, hotel, checkIn, checkOut)
    requires db'.blackouts == db.blackouts && db'.rooms == db.rooms
    ensures AvailableRooms(db, hotel, checkIn, checkOut) == AvailableRooms(db', hotel, checkIn, checkOut)
  {
    assert OverlappingRoomIds(db, hotel, checkIn, checkOut) == OverlappingRoomIds(db', hotel, checkIn, checkOut);
    SameBlackoutsSameAnswer(db, db', hotel, checkIn, checkOut);
  }

  /** A cancelled row changes no answer, on any window. */
  lemma CancelledRowIsInvisible(db: Db, b: Booking, hotel: int, checkIn: int, checkOut: int)
    ensures AvailableRooms(db.(bookings := db.bookings + [b.(status := Cancelled)]), hotel, checkIn, checkOut) ==
            AvailableRooms(db, hotel, checkIn, checkOut)
  {
    var db' := db.(bookings := db.bookings + [b.(status := Cancelled)]);
    assert forall i :: 0 <= i < |db.bookings| ==> db'.bookings[i] == db.bookings[i];
    assert !Live(db'.bookings[|db.bookings|]);
    SameOverlapsSameAnswer(db, db', hotel, checkIn, checkOut);
  }
}
