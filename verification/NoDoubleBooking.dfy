/** Safety of the booking table over whole runs: no night of a room is sold twice. */
module NoDoubleBooking {
  import opened Domain
  import opened Availability
  import opened Engine

  /** Two different live bookings of one room never cover the same night. */
  ghost predicate NoNightSoldTwice(db: Db) {
    forall i, j, night ::
      0 <= i < j < |db.bookings| && Live(db.bookings[i]) && Live(db.bookings[j])
      && db.bookings[i].room == db.bookings[j].room ==>
        !(CoversNight(db.bookings[i], night) && CoversNight(db.bookings[j], night))
  }

  /** A booking carries the hotel of its room, and rooms never change hotel. */
  ghost predicate HotelsAgree(db: Db) {
    forall i :: 0 <= i < |db.bookings| ==>
      db.bookings[i].room in db.rooms && db.rooms[db.bookings[i].room].hotel == db.bookings[i].hotel
  }

  ghost predicate Sound(db: Db) {
    ProperStays(db) && HotelsAgree(db) && NoNightSoldTwice(db)
  }

  /** The guard the status override lacks: a cancelled booking may come back only if the
      availability query does not count its room as booked in its dates. */
  predicate SafeOverride(db: Db, id: int, status: Status) {
    HasBooking(db, id) && db.bookings[id].status == Cancelled && status != Cancelled ==>
      var b := db.bookings[id];
      b.room !in OverlappingRoomIds(db, b.hotel, b.checkIn, b.checkOut)
  }

  predicate SafeAction(db: Db, a: Action) {
    a.SetStatus? ==> SafeOverride(db, a.booking, a.status)
  }

  lemma LiveOverlapIsSeen(db: Db, i: int, hotel: int, checkIn: int, checkOut: int)
    requires 0 <= i < |db.bookings| && Live(db.bookings[i]) && db.bookings[i].hotel == hotel
    requires Overlaps(db.bookings[i], checkIn, checkOut)
    ensures db.bookings[i].room in OverlappingRoomIds(db, hotel, checkIn, checkOut)
  {
  }

  lemma CreateKeepsSound(st: State, user: int, room: int, checkIn: int, checkOut: int)
    requires Sound(st.db) && CanCreate(st.db, room, checkIn, checkOut)
    ensures Sound(Created(st, user, room, checkIn, checkOut).db)
  {
    var db := st.db;
    var db' := Created(st, user, room, checkIn, checkOut).db;
    var n := |db.bookings|;
    forall i, night | 0 <= i < n && Live(db.bookings[i]) && db.bookings[i].room == room
      ensures !(CoversNight(db.bookings[i], night) && CoversNight(db'.bookings[n], night))
    {
      if CoversNight(db.bookings[i], night) && CoversNight(db'.bookings[n], night) {
        LiveOverlapIsSeen(db, i, db.rooms[room].hotel, checkIn, checkOut);
      }
    }
    assert forall i :: 0 <= i < n ==> db'.bookings[i] == db.bookings[i];
  }

  lemma RevivedIsClear(db: Db, id: int, other: int)
    requires Sound(db) && HasBooking(db, id) && HasBooking(db, other) && Live(db.bookings[other])
    requires db.bookings[other].room == db.bookings[id].room
    requires db.bookings[id].room !in
             OverlappingRoomIds(db, db.bookings[id].hotel, db.bookings[id].checkIn, db.bookings[id].checkOut)
    ensures !Overlaps(db.bookings[other], db.bookings[id].checkIn, db.bookings[id].checkOut)
  {
    assert db.bookings[other].hotel == db.bookings[id].hotel;
  }

  /** After an override, no night is sold twice if and only if the missing guard would have passed. */
  lemma OverrideSafeIff(db: Db, id: int, status: Status)
    requires Sound(db) && HasBooking(db, id)
    ensures NoNightSoldTwice(WithStatus(db, id, status)) <==> SafeOverride(db, id, status)
    ensures ProperStays(WithStatus(db, id, status)) && HotelsAgree(WithStatus(db, id, status))
  {
    var db' := WithStatus(db, id, status);
    var b := db.bookings[id];
    assert forall i :: 0 <= i < |db.bookings| && i != id ==> db'.bookings[i] == db.bookings[i];
    if SafeOverride(db, id, status) {
      forall i, j, night | 0 <= i < j < |db'.bookings| && Live(db'.bookings[i]) && Live(db'.bookings[j])
                           && db'.bookings[i].room == db'.bookings[j].room
        ensures !(CoversNight(db'.bookings[i], night) && CoversNight(db'.bookings[j], night))
      {
        var other := if i == id then j else i;
        if (i == id || j == id) && b.status == Cancelled {
          RevivedIsClear(db, id, other);
        }
        assert CoversNight(db'.bookings[i], night) <==> CoversNight(db.bookings[i], night);
        assert CoversNight(db'.bookings[j], night) <==> CoversNight(db.bookings[j], night);
      }
    } else {
      var i :| 0 <= i < |db.bookings| && db.bookings[i].hotel == b.hotel && Live(db.bookings[i])
               && Overlaps(db.bookings[i], b.checkIn, b.checkOut) && db.bookings[i].room == b.room;
      OverlapIsSharedNight(db.bookings[i], b.checkIn, b.checkOut);
      var night :| b.checkIn <= night < b.checkOut && CoversNight(db.bookings[i], night);
      assert CoversNight(db'.bookings[id], night) && CoversNight(db'.bookings[i], night);
    }
  }

  /** A status change that does not bring a cancelled booking back is harmless. */
  lemma StatusKeepsSound(db: Db, id: int, status: Status)
    requires Sound(db) && HasBooking(db, id)
    requires db.bookings[id].status != Cancelled || status == Cancelled
    ensures Sound(WithStatus(db, id, status))
  {
    OverrideSafeIff(db, id, status);
  }

  /** Stays of at least one night outlast every request, guarded or not. */
  lemma StepKeepsProperStays(st: State, a: Action)
    requires ProperStays(st.db)
    ensures ProperStays(Step(st, a).db)
  {
    match a
    case Create(user, room, checkIn, checkOut) =>
    case _ =>
  }

  lemma StepKeepsSound(st: State, a: Action)
    requires Sound(st.db) && SafeAction(st.db, a)
    ensures Sound(Step(st, a).db)
  {
    match a
    case Create(user, room, checkIn, checkOut) =>
      if CanCreate(st.db, room, checkIn, checkOut) { CreateKeepsSound(st, user, room, checkIn, checkOut); }
    case Cancel(user, id) =>
      if CanCancel(st.db, user, id) { StatusKeepsSound(st.db, id, Cancelled); }
    case Pay(id, user, amount, gateway) =>
      if CanPay(st.db, id, amount) { StatusKeepsSound(st.db, id, Confirmed); }
    case CheckIn(scope, id) =>
      if CanCheckIn(st.db, scope, id) { StatusKeepsSound(st.db, id, Completed); }
    case SetStatus(id, status) =>
      if HasBooking(st.db, id) { OverrideSafeIff(st.db, id, status); }
    case _ =>
  }

  /** Every override of the run was one the missing guard would have let through. */
  ghost predicate SafeRun(st: State, acts: seq<Action>) {
    forall i :: 0 <= i < |acts| ==> SafeAction(At(st, acts, i).db, acts[i])
  }

  lemma {:induction false} RunKeepsSound(st: State, acts: seq<Action>)
    requires Sound(st.db) && SafeRun(st, acts)
    ensures Sound(Run(st, acts).db)
  {
    if acts == [] {
    } else {
      var init := acts[..|acts| - 1];
      forall i | 0 <= i < |init| ensures SafeAction(At(st, init, i).db, init[i]) {
        assert init[..i] == acts[..i];
      }
      RunKeepsSound(st, init);
      assert acts[..|acts| - 1] == init && SafeAction(At(st, acts, |acts| - 1).db, acts[|acts| - 1]);
      StepKeepsSound(Run(st, init), acts[|acts| - 1]);
    }
  }

  /** In every state any run of requests reaches, whatever the cache holds, no night is sold twice,
      as long as overrides only revive bookings whose nights are still free. */
  lemma NeverDoubleBooked(st: State, acts: seq<Action>, i: int)
    requires Fresh(st) && SafeRun(st, acts) && 0 <= i <= |acts|
    ensures NoNightSoldTwice(At(st, acts, i).db) && HotelsAgree(At(st, acts, i).db)
  {
    forall j | 0 <= j < i ensures SafeAction(At(st, acts[..i], j).db, acts[..i][j]) {
      assert acts[..i][..j] == acts[..j];
      assert SafeAction(At(st, acts, j).db, acts[j]);
    }
    RunKeepsSound(st, acts[..i]);
  }

  /** The first override that fails the guard sells a night twice: without the guard the claim is false. */
  lemma UnsafeOverrideSellsTwice(st: State, acts: seq<Action>, a: Action)
    requires Fresh(st) && SafeRun(st, acts) && !SafeAction(Run(st, acts).db, a)
    ensures !NoNightSoldTwice(Run(st, acts + [a]).db)
  {
    RunKeepsSound(st, acts);
    PrefixStates(st, acts, a, 0);
    OverrideSafeIff(Run(st, acts).db, a.booking, a.status);
  }

  /** Such a run exists: book, cancel, let another guest book the same night, revive the first booking. */
  lemma RevivalCounterexample() returns (st: State, acts: seq<Action>)
    ensures Fresh(st) && !NoNightSoldTwice(Run(st, acts).db)
  {
    var room := Room(1, 1, None, true);
    st := State(Db({1}, map[7 := room], [], [], map[], []), map[], 0.0);
    acts := [Create(1, 7, 10, 11), Cancel(1, 0), Create(2, 7, 10, 11), SetStatus(0, Confirmed)];
    var s1 := Step(st, acts[0]);
    var s2 := Step(s1, acts[1]);
    var s3 := Step(s2, acts[2]);
    var s4 := Step(s3, acts[3]);
    RunSteps(st, acts, 0); RunSteps(st, acts, 1); RunSteps(st, acts, 2); RunSteps(st, acts, 3);
    assert acts[..4] == acts;
    assert 7 in AvailableRooms(st.db, 1, 10, 11);
    assert |s1.db.bookings| == 1 && |s2.db.bookings| == 1 && !Live(s2.db.bookings[0]);
    assert OverlappingRoomIds(s2.db, 1, 10, 11) == {};
    assert 7 in AvailableRooms(s2.db, 1, 10, 11);
    assert |s3.db.bookings| == 2;
    assert CoversNight(s4.db.bookings[0], 10) && CoversNight(s4.db.bookings[1], 10);
  }

  lemma StepReadsTables(st: State, st': State, a: Action)
    requires st.db == st'.db
    ensures Step(st, a).db == Step(st', a).db
  {
    match a
    case Create(user, room, checkIn, checkOut) =>
    case Cancel(user, id) =>
    case _ =>
  }

  /** Requests decide from the tables alone: a run that starts with another cache, or another
      clock, ends with the same tables. */
  lemma {:induction false} CacheNeverReachesTables(st: State, st': State, acts: seq<Action>)
    requires st.db == st'.db
    ensures Run(st, acts).db == Run(st', acts).db
  {
    if acts == [] {
    } else {
      var init := acts[..|acts| - 1];
      CacheNeverReachesTables(st, st', init);
      StepReadsTables(Run(st, init), Run(st', init), acts[|acts| - 1]);
    }
  }
}
