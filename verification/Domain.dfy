/** The rows of the booking database, and the types they share.

    Dates are day numbers: night `d` is the night that starts on day `d`, and a stay
    `[checkIn, checkOut)` covers the nights `checkIn, …, checkOut - 1`. Money is `real`. */
module Domain {

  datatype Option<+T> = None | Some(value: T)

  /** Some element of a set: tables and dictionaries are walked in no particular order. */
  method PickOne<T>(s: set<T>) returns (x: T)
    requires s != {}
    ensures x in s
  {
    x :| x in s;
  }

  datatype Status = Pending | Confirmed | Cancelled | Completed

  datatype PaymentStatus = Unsettled | Succeeded | Failed | Refunded

  datatype Room = Room(hotel: int, roomType: int, basePrice: Option<real>, active: bool)

  datatype Booking = Booking(hotel: int, user: int, room: int, checkIn: int, checkOut: int,
                             price: real, status: Status)

  datatype Payment = Payment(booking: int, user: int, amount: real, status: PaymentStatus)

  /** `room.None?` blacks out the whole hotel. */
  datatype Blackout = Blackout(hotel: int, room: Option<int>, date: int)

  /** Both dates are inclusive. */
  datatype Rule = Rule(id: int, hotel: int, roomType: int, startDate: int, endDate: int,
                       price: Option<real>, multiplier: Option<real>, priority: int)

  /** The tables. Bookings and payments are only ever appended, so a row's id is its position. */
  datatype Db = Db(hotels: set<int>, rooms: map<int, Room>, bookings: seq<Booking>,
                   payments: seq<Payment>, blackouts: map<int, Blackout>, rules: seq<Rule>)
}
