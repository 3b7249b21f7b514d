/** The request handlers and tasks as they run: they update the tables and the cache in place,
    and each carries out exactly one step of the engine. */
module Backend {
  import opened Domain
  import opened Availability
  import opened AvailabilityCache
  import opened Engine
  import opened Pricing
  import opened NoDoubleBooking

  datatype Response<+T> = Ok(value: T) | NotFound | BadRequest | Unprocessable

  lemma StoreOneMore(cache: Store, db: Db, keys: set<Key>, k: Key, now: real)
    ensures StoredAll(cache, db, keys + {k}, now) == Stored(StoredAll(cache, db, keys, now), now, k, WindowRooms(db, k))
  {
  }

  lemma StoreOneMoreNight(cache: Store, db: Db, keys: set<Key>, hotel: int, today: int, days: nat, now: real)
    ensures Stored(StoredAll(cache, db, keys + WeekSoFar(hotel, today, days), now), now, OneNight(hotel, today + days),
                   WindowRooms(db, OneNight(hotel, today + days))) ==
            StoredAll(cache, db, keys + WeekSoFar(hotel, today, days + 1), now)
  {
    OneMoreDay(hotel, today, days);
    StoreOneMore(cache, db, keys + WeekSoFar(hotel, today, days), OneNight(hotel, today + days), now);
    assert keys + WeekSoFar(hotel, today, days + 1) == keys + WeekSoFar(hotel, today, days) + {OneNight(hotel, today + days)};
  }

  function WeekSoFar(hotel: int, today: int, days: nat): set<Key> {
    set day | today <= day < today + days :: OneNight(hotel, day)
  }

  lemma OneMoreDay(hotel: int, today: int, days: nat)
    ensures WeekSoFar(hotel, today, days + 1) == WeekSoFar(hotel, today, days) + {OneNight(hotel, today + days)}
  {
  }

  lemma OneMoreHotel(hotels: set<int>, hotel: int, today: int)
    ensures WarmKeys(hotels + {hotel}, today) == WarmKeys(hotels, today) + WeekSoFar(hotel, today, 7)
  {
  }

  /** After a warm-up each of the coming seven nights of every hotel is served from the cache. */
  lemma WarmedServes(st: State, today: int, hotel: int, day: int)
    requires hotel in st.db.hotels && today <= day < today + 7
    ensures Lookup(Warmed(st, today), st.now, OneNight(hotel, day)) == Some(WindowRooms(st.db, OneNight(hotel, day)))
  {
    assert OneNight(hotel, day) in WarmKeys(st.db.hotels, today);
  }

  class Server {
    var hotels: set<int>
    var rooms: map<int, Room>
    var bookings: seq<Booking>
    var payments: seq<Payment>
    var blackouts: map<int, Blackout>
    var rules: seq<Rule>
    var now: real
    const cache: Cache

    function Tables(): Db
      reads this
    {
      Db(hotels, rooms, bookings, payments, blackouts, rules)
    }

    ghost function Snapshot(): State
      reads this, cache
    {
      State(Tables(), cache.entries, now)
    }

    constructor (hotels: set<int>, rooms: map<int, Room>, blackouts: map<int, Blackout>, rules: seq<Rule>, now: real)
      ensures Fresh(Snapshot()) && Sound(Tables()) && fresh(cache)
      ensures Snapshot() == State(Db(hotels, rooms, [], [], blackouts, rules), map[], now)
    {
      this.hotels, this.rooms, this.blackouts, this.rules, this.now := hotels, rooms, blackouts, rules, now;
      bookings, payments := [], [];
      cache := new Cache();
    }

    // -------------------------------------------------------------- repositories

    method UpdateBookingStatus(id: int, status: Status) returns (found: bool)
      modifies this`bookings
      ensures found <==> HasBooking(old(Tables()), id)
      ensures Tables() == if found then WithStatus(old(Tables()), id, status) else old(Tables())
    {
      found := 0 <= id < |bookings|;
      if found {
        bookings := bookings[id := bookings[id].(status := status)];
      }
    }

    method CreatePayment(booking: int, user: int, amount: real) returns (id: int)
      modifies this`payments
      ensures id == |old(payments)| && payments == old(payments) + [Payment(booking, user, amount, Unsettled)]
    {
      id := |payments|;
      payments := payments + [Payment(booking, user, amount, Unsettled)];
    }

    method UpdatePaymentStatus(id: int, status: PaymentStatus) returns (found: bool)
      modifies this`payments
      ensures found <==> HasPayment(old(Tables()), id)
      ensures payments == if found then old(payments)[id := old(payments)[id].(status := status)] else old(payments)
    {
      found := 0 <= id < |payments|;
      if found {
        payments := payments[id := payments[id].(status := status)];
      }
    }

    // -------------------------------------------------------------- bookings

    /** Books the room exactly when every night of the stay is free, at the price of its nights. */
    method CreateBooking(user: int, room: int, checkIn: int, checkOut: int) returns (r: Response<int>)
      requires ProperStays(Tables())
      modifies this`bookings, cache
      ensures Snapshot() == Step(old(Snapshot()), Create(user, room, checkIn, checkOut))
      ensures ProperStays(Tables()) && (old(Sound(Tables())) ==> Sound(Tables()))
      ensures r == Unprocessable <==> checkOut <= checkIn
      ensures r == NotFound <==> checkIn < checkOut && room !in rooms
      ensures r.Ok? <==> checkIn < checkOut && room in rooms && Bookable(old(Tables()), rooms[room].hotel, room, checkIn, checkOut)
      ensures r.Ok? ==> r.value == |old(bookings)|
      ensures bookings == if !r.Ok? then old(bookings)
                          else old(bookings) + [Booking(rooms[room].hotel, user, room, checkIn, checkOut,
                                                        Total(rules, rooms[room], checkIn, checkOut), Pending)]
    {
      if checkOut <= checkIn {
        return Unprocessable;
      }
      if room !in rooms {
        return NotFound;
      }
      var hotel := rooms[room].hotel;
      var available := AvailableRooms(Tables(), hotel, checkIn, checkOut);
      AvailableIffBookable(Tables(), hotel, room, checkIn, checkOut);
      if room !in available {
        return BadRequest;
      }
      StepKeepsProperStays(Snapshot(), Create(user, room, checkIn, checkOut));
      if Sound(Tables()) { StepKeepsSound(Snapshot(), Create(user, room, checkIn, checkOut)); }
      var price := CalculateBookingPrice(rules, rooms[room], checkIn, checkOut);
      r := Ok(|bookings|);
      bookings := bookings + [Booking(hotel, user, room, checkIn, checkOut, price, Pending)];
      cache.InvalidateAvailability(hotel, checkIn, checkOut);
    }

    /** Cancels the guest's own booking, whatever its status was. */
    method CancelBooking(user: int, id: int) returns (r: Response<int>)
      modifies this`bookings, cache
      ensures Snapshot() == Step(old(Snapshot()), Cancel(user, id))
      ensures r.Ok? <==> HasBooking(old(Tables()), id) && old(bookings)[id].user == user
      ensures r == if r.Ok? then Ok(id) else NotFound
      ensures bookings == if !r.Ok? then old(bookings) else old(bookings)[id := old(bookings)[id].(status := Cancelled)]
    {
      if !(0 <= id < |bookings|) || bookings[id].user != user {
        return NotFound;
      }
      var b := bookings[id];
      var found := UpdateBookingStatus(id, Cancelled);
      if !found {
        return NotFound;
      }
      cache.InvalidateAvailability(b.hotel, b.checkIn, b.checkOut);
      r := Ok(id);
    }

    method CheckInBooking(scope: Option<int>, id: int) returns (r: Response<()>)
      modifies this`bookings
      ensures Snapshot() == Step(old(Snapshot()), CheckIn(scope, id))
      ensures r.Ok? <==> 0 <= id < |old(bookings)| && (scope == None || scope == Some(old(bookings)[id].hotel))
                         && old(bookings)[id].status == Confirmed
      ensures bookings == if !r.Ok? then old(bookings) else old(bookings)[id := old(bookings)[id].(status := Completed)]
      ensures r == NotFound <==> !(HasBooking(old(Tables()), id) && (scope.Some? ==> old(bookings)[id].hotel == scope.value))
    {
      if !(0 <= id < |bookings|) || (scope.Some? && bookings[id].hotel != scope.value) {
        return NotFound;
      }
      if bookings[id].status != Confirmed {
        return BadRequest;
      }
      var _ := UpdateBookingStatus(id, Completed);
      r := Ok(());
    }

    method UpdateBooking(id: int, status: Status) returns (r: Response<()>)
      modifies this`bookings
      ensures Snapshot() == Step(old(Snapshot()), SetStatus(id, status))
      ensures r == if 0 <= id < |old(bookings)| then Ok(()) else NotFound
      ensures bookings == if !r.Ok? then old(bookings) else old(bookings)[id := old(bookings)[id].(status := status)]
    {
      var updated := UpdateBookingStatus(id, status);
      r := if updated then Ok(()) else NotFound;
    }

    // -------------------------------------------------------------- payments

    /** The row is written before the gateway is asked, settled by its answer, and only a captured
        payment confirms the booking. */
    method ProcessPayment(id: int, user: int, amount: real, gateway: Gateway) returns (r: Response<int>)
      modifies this`bookings, this`payments
      ensures Snapshot() == Step(old(Snapshot()), Pay(id, user, amount, gateway))
      ensures (amount > 0.0 && 0 <= id < |old(bookings)| && old(bookings)[id].status in {Pending, Confirmed}) ==>
                if gateway == Approved then
                  && r == Ok(id) && bookings == old(bookings)[id := old(bookings)[id].(status := Confirmed)]
                  && payments == old(payments) + [Payment(id, user, amount, Succeeded)]
                else
                  r == BadRequest && bookings == old(bookings) && payments == old(payments) + [Payment(id, user, amount, Failed)]
      ensures !(amount > 0.0 && 0 <= id < |old(bookings)| && old(bookings)[id].status in {Pending, Confirmed}) ==>
                r == BadRequest && bookings == old(bookings) && payments == old(payments)
    {
      if amount <= 0.0 {
        return BadRequest;
      }
      if !(0 <= id < |bookings|) {
        return BadRequest;
      }
      if bookings[id].status == Cancelled || bookings[id].status == Completed {
        return BadRequest;
      }
      var payment := CreatePayment(id, user, amount);
      if gateway == Declined {
        var _ := UpdatePaymentStatus(payment, Failed);
        assert payments == old(payments) + [Payment(id, user, amount, Failed)];
        return BadRequest;
      }
      var _ := UpdatePaymentStatus(payment, Succeeded);
      assert payments == old(payments) + [Payment(id, user, amount, Succeeded)];
      bookings := bookings[id := bookings[id].(status := Confirmed)];
      r := Ok(id);
    }

    method RefundPayment(id: int) returns (r: Response<int>)
      modifies this`payments
      ensures Snapshot() == Step(old(Snapshot()), Refund(id))
      ensures r == if 0 <= id < |old(payments)| && old(payments)[id].status == Succeeded then Ok(id) else BadRequest
      ensures payments == if !r.Ok? then old(payments) else old(payments)[id := old(payments)[id].(status := Refunded)]
    {
      if !(0 <= id < |payments|) {
        return BadRequest;
      }
      if payments[id].status != Succeeded {
        return BadRequest;
      }
      var _ := UpdatePaymentStatus(id, Refunded);
      r := Ok(id);
    }

    // -------------------------------------------------------------- search and warm-up

    /** Answers every available room with the price of the stay, from the cache when it can. */
    method SearchAvailableRooms(hotel: int, checkIn: int, checkOut: int) returns (results: map<int, real>)
      modifies cache
      ensures Snapshot() == Step(old(Snapshot()), Search(hotel, checkIn, checkOut))
      ensures results.Keys == Answer(old(Snapshot()), Key(hotel, checkIn, checkOut))
      ensures var k := Key(hotel, checkIn, checkOut);
        if k in old(cache.entries) && now < old(cache.entries)[k].expires then
          && cache.entries == old(cache.entries)
          && forall id :: id in results <==> id in old(cache.entries)[k].rooms && id in rooms && rooms[id].active
        else
          && cache.entries == old(cache.entries)[k := Entry(results.Keys, now + 300.0)]
          && results.Keys == AvailableRooms(Tables(), hotel, checkIn, checkOut)
      ensures forall r :: r in results ==> r in rooms && results[r] == Total(rules, rooms[r], checkIn, checkOut)
    {
      var cached := cache.GetCachedAvailability(now, hotel, checkIn, checkOut);
      var found: set<int>;
      if cached.Some? {
        found := set r | r in cached.value && r in rooms && rooms[r].active;
      } else {
        found := AvailableRooms(Tables(), hotel, checkIn, checkOut);
        cache.SetCachedAvailability(now, hotel, checkIn, checkOut, found);
        assert found == WindowRooms(Tables(), Key(hotel, checkIn, checkOut));
      }
      assert Snapshot() == AfterSearch(old(Snapshot()), Key(hotel, checkIn, checkOut));
      results := map[];
      var todo := found;
      ghost var filled := cache.entries;
      while todo != {}
        invariant cache.entries == filled
        invariant todo <= found && results.Keys == found - todo
        invariant forall r :: r in results ==> r in rooms && results[r] == Total(rules, rooms[r], checkIn, checkOut)
        decreases todo
      {
        var room := PickOne(todo);
        var price := CalculateBookingPrice(rules, rooms[room], checkIn, checkOut);
        results := results[room := price];
        todo := todo - {room};
      }
    }

    /** Stores a fresh answer for each of the next seven nights of every hotel. */
    method HourlyCacheWarmup(today: int)
      modifies cache
      ensures Snapshot() == Step(old(Snapshot()), WarmUp(today))
      ensures forall h, day :: h in hotels && today <= day < today + 7 ==>
                Lookup(cache.entries, now, OneNight(h, day)) == Some(AvailableRooms(Tables(), h, day, day + 1))
      ensures forall k: Key :: !(k.hotel in hotels && today <= k.checkIn < today + 7 && k.checkOut == k.checkIn + 1) ==>
                (k in cache.entries <==> k in old(cache.entries)) && (k in cache.entries ==> cache.entries[k] == old(cache.entries)[k])
    {
      var todo := hotels;
      ghost var warm: set<Key> := {};
      assert cache.entries == StoredAll(old(cache.entries), Tables(), {}, now);
      while todo != {}
        invariant todo <= hotels
        invariant warm == WarmKeys(hotels - todo, today)
        invariant cache.entries == StoredAll(old(cache.entries), Tables(), warm, now)
        decreases todo
      {
        var hotel := PickOne(todo);
        for delta := 0 to 7
          invariant cache.entries == StoredAll(old(cache.entries), Tables(), warm + WeekSoFar(hotel, today, delta), now)
        {
          var checkIn := today + delta;
          var checkOut := checkIn + 1;
          var available := AvailableRooms(Tables(), hotel, checkIn, checkOut);
          cache.SetCachedAvailability(now, hotel, checkIn, checkOut, available);
          StoreOneMoreNight(old(cache.entries), Tables(), warm, hotel, today, delta, now);
        }
        OneMoreHotel(hotels - todo, hotel, today);
        warm := warm + WeekSoFar(hotel, today, 7);
        assert hotels - (todo - {hotel}) == hotels - todo + {hotel};
        todo := todo - {hotel};
      }
      assert hotels - todo == hotels;
      forall h, day | h in hotels && today <= day < today + 7
        ensures Lookup(cache.entries, now, OneNight(h, day)) == Some(AvailableRooms(Tables(), h, day, day + 1))
      {
        WarmedServes(old(Snapshot()), today, h, day);
      }
      forall k: Key | !(k.hotel in hotels && today <= k.checkIn < today + 7 && k.checkOut == k.checkIn + 1)
        ensures k !in WarmKeys(hotels, today)
      {
      }
    }
  }
}
