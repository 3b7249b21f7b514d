/** The booking engine as a state machine: one request or batch task is one step. */
module Engine {
  import opened Domain
  import opened Availability
  import opened AvailabilityCache
  import Pricing

  datatype State = State(db: Db, cache: Store, now: real)

  /** What the payment gateway answers. */
  datatype Gateway = Approved | Declined

  datatype Action =
    | Create(user: int, room: int, checkIn: int, checkOut: int)
    | Cancel(user: int, booking: int)
    | Pay(booking: int, user: int, amount: real, gateway: Gateway)
    | Refund(payment: int)
    | CheckIn(scope: Option<int>, booking: int)
    | SetStatus(booking: int, status: Status)
    | AddRoom(id: int, newRoom: Room)
    | UpdateRoom(hotel: int, room: int, roomType: Option<int>, basePrice: Option<Option<real>>, active: Option<bool>)
    | AddBlackout(id: int, blackout: Blackout)
    | DeleteBlackout(hotel: int, id: int)
    | SetRules(rules: seq<Rule>)
    | Search(hotel: int, checkIn: int, checkOut: int)
    | WarmUp(today: int)
    | Tick(seconds: real)

  predicate HasBooking(db: Db, id: int) { 0 <= id < |db.bookings| }

  predicate HasPayment(db: Db, id: int) { 0 <= id < |db.payments| }

  function WithStatus(db: Db, id: int, status: Status): Db
    requires HasBooking(db, id)
  {
    db.(bookings := db.bookings[id := db.bookings[id].(status := status)])
  }

  function NewBooking(db: Db, user: int, room: int, checkIn: int, checkOut: int): Booking
    requires room in db.rooms
  {
    Booking(db.rooms[room].hotel, user, room, checkIn, checkOut,
            Pricing.Total(db.rules, db.rooms[room], checkIn, checkOut), Pending)
  }

  predicate CanCreate(db: Db, room: int, checkIn: int, checkOut: int) {
    && checkIn < checkOut
    && room in db.rooms
    && room in AvailableRooms(db, db.rooms[room].hotel, checkIn, checkOut)
  }

  predicate CanCancel(db: Db, user: int, id: int) {
    HasBooking(db, id) && db.bookings[id].user == user
  }

  predicate CanPay(db: Db, id: int, amount: real) {
    amount > 0.0 && HasBooking(db, id) && db.bookings[id].status != Cancelled && db.bookings[id].status != Completed
  }

  predicate CanRefund(db: Db, id: int) {
    HasPayment(db, id) && db.payments[id].status == Succeeded
  }

  predicate CanCheckIn(db: Db, scope: Option<int>, id: int) {
    && HasBooking(db, id)
    && (scope.Some? ==> db.bookings[id].hotel == scope.value)
    && db.bookings[id].status == Confirmed
  }

  function Created(st: State, user: int, room: int, checkIn: int, checkOut: int): State
    requires room in st.db.rooms
  {
    var b := NewBooking(st.db, user, room, checkIn, checkOut);
    st.(db := st.db.(bookings := st.db.bookings + [b]),
        cache := st.cache - InvalidatedKeys(b.hotel, checkIn, checkOut))
  }

  function CancelledState(st: State, id: int): State
    requires HasBooking(st.db, id)
  {
    var b := st.db.bookings[id];
    st.(db := WithStatus(st.db, id, Cancelled),
        cache := st.cache - InvalidatedKeys(b.hotel, b.checkIn, b.checkOut))
  }

  function Paid(db: Db, id: int, user: int, amount: real, gateway: Gateway): Db
    requires HasBooking(db, id)
  {
    match gateway
    case Approved => WithStatus(db, id, Confirmed).(payments := db.payments + [Payment(id, user, amount, Succeeded)])
    case Declined => db.(payments := db.payments + [Payment(id, user, amount, Failed)])
  }

  function Patched(r: Room, roomType: Option<int>, basePrice: Option<Option<real>>, active: Option<bool>): Room {
    Room(r.hotel,
         if roomType.Some? then roomType.value else r.roomType,
         if basePrice.Some? then basePrice.value else r.basePrice,
         if active.Some? then active.value else r.active)
  }

  // ---------------------------------------------------------------- searches

  function WindowRooms(db: Db, k: Key): set<int> {
    AvailableRooms(db, k.hotel, k.checkIn, k.checkOut)
  }

  /** The rooms a cache hit serves: the cached ids that are active rooms now. */
  function Served(db: Db, ids: set<int>): set<int> {
    set r | r in ids && r in db.rooms && db.rooms[r].active
  }

  /** The rooms a search for `k` answers. */
  function Answer(st: State, k: Key): set<int> {
    match Lookup(st.cache, st.now, k)
    case Some(ids) => Served(st.db, ids)
    case None => WindowRooms(st.db, k)
  }

  function AfterSearch(st: State, k: Key): State {
    if Lookup(st.cache, st.now, k).Some? then st
    else st.(cache := Stored(st.cache, st.now, k, WindowRooms(st.db, k)))
  }

  function OneNight(hotel: int, day: int): Key {
    Key(hotel, day, day + 1)
  }

  /** The one-night windows of the coming week, for every hotel. */
  function WarmKeys(hotels: set<int>, today: int): set<Key> {
    set h, day | h in hotels && today <= day < today + 7 :: OneNight(h, day)
  }

  /** The cache after fresh answers for `keys` have been stored over it. */
  function StoredAll(cache: Store, db: Db, keys: set<Key>, now: real): Store {
    map k | k in cache.Keys + keys ::
      if k in keys then Entry(WindowRooms(db, k), now + AVAILABILITY_TTL) else cache[k]
  }

  function Warmed(st: State, today: int): Store {
    StoredAll(st.cache, st.db, WarmKeys(st.db.hotels, today), st.now)
  }

  // ---------------------------------------------------------------- steps and runs

  function Step(st: State, a: Action): State {
    match a
    case Create(user, room, checkIn, checkOut) =>
      if CanCreate(st.db, room, checkIn, checkOut) then Created(st, user, room, checkIn, checkOut) else st
    case Cancel(user, id) =>
      if CanCancel(st.db, user, id) then CancelledState(st, id) else st
    case Pay(id, user, amount, gateway) =>
      if CanPay(st.db, id, amount) then st.(db := Paid(st.db, id, user, amount, gateway)) else st
    case Refund(id) =>
      if CanRefund(st.db, id)
      then st.(db := st.db.(payments := st.db.payments[id := st.db.payments[id].(status := Refunded)])) else st
    case CheckIn(scope, id) =>
      if CanCheckIn(st.db, scope, id) then st.(db := WithStatus(st.db, id, Completed)) else st
    case SetStatus(id, status) =>
      if HasBooking(st.db, id) then st.(db := WithStatus(st.db, id, status)) else st
    case AddRoom(id, room) =>
      if id in st.db.rooms then st else st.(db := st.db.(rooms := st.db.rooms[id := room]))
    case UpdateRoom(hotel, id, roomType, basePrice, active) =>
      if id in st.db.rooms && st.db.rooms[id].hotel == hotel
      then st.(db := st.db.(rooms := st.db.rooms[id := Patched(st.db.rooms[id], roomType, basePrice, active)])) else st
    case AddBlackout(id, blackout) =>
      if id in st.db.blackouts then st else st.(db := st.db.(blackouts := st.db.blackouts[id := blackout]))
    case DeleteBlackout(hotel, id) =>
      if id in st.db.blackouts && st.db.blackouts[id].hotel == hotel
      then st.(db := st.db.(blackouts := st.db.blackouts - {id})) else st
    case SetRules(rules) => st.(db := st.db.(rules := rules))
    case Search(hotel, checkIn, checkOut) => AfterSearch(st, Key(hotel, checkIn, checkOut))
    case WarmUp(today) => st.(cache := Warmed(st, today))
    case Tick(seconds) => if seconds >= 0.0 then st.(now := st.now + seconds) else st
  }

  function Run(st: State, acts: seq<Action>): State {
    if acts == [] then st else Step(Run(st, acts[..|acts| - 1]), acts[|acts| - 1])
  }

  /** The state before step `i` of the run. */
  function At(st: State, acts: seq<Action>, i: int): State
    requires 0 <= i <= |acts|
  {
    Run(st, acts[..i])
  }

  lemma RunSteps(st: State, acts: seq<Action>, i: int)
    requires 0 <= i < |acts|
    ensures At(st, acts, i + 1) == Step(At(st, acts, i), acts[i])
  {
    assert acts[..i + 1][..i] == acts[..i];
  }

  lemma PrefixStates(st: State, acts: seq<Action>, a: Action, i: int)
    requires 0 <= i <= |acts|
    ensures At(st, acts + [a], i) == At(st, acts, i)
    ensures Run(st, acts + [a]) == Step(Run(st, acts), a)
  {
    assert (acts + [a])[..i] == acts[..i];
    assert (acts + [a])[..|acts|] == acts;
  }

  lemma RunOfTwo(st: State, a: Action, b: Action)
    ensures Run(st, [a, b]) == Step(Step(st, a), b)
  {
    PrefixStates(st, [], a, 0);
    PrefixStates(st, [a], b, 0);
    assert [] + [a] == [a] && [a] + [b] == [a, b];
  }

  lemma RunOfThree(st: State, a: Action, b: Action, c: Action)
    ensures Run(st, [a, b, c]) == Step(Step(Step(st, a), b), c)
  {
    RunOfTwo(st, a, b);
    PrefixStates(st, [a, b], c, 0);
    assert [a, b] + [c] == [a, b, c];
  }

  /** No bookings and no payments yet; rooms, blackouts, rules and cache contents are arbitrary. */
  ghost predicate Fresh(st: State) {
    st.db.bookings == [] && st.db.payments == []
  }
}
