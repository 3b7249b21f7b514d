/** The life of bookings and payments over whole runs, and the money that passes through them. */
module Lifecycle {
  import opened Domain
  import opened Engine

  // ---------------------------------------------------------------- moves

  /** What one request other than the status override can do to a booking's status. */
  predicate BookingMove(s: Status, s': Status) {
    s == s' || (s == Pending && s' == Confirmed) || (s == Confirmed && s' == Completed) || s' == Cancelled
  }

  predicate PaymentMove(s: PaymentStatus, s': PaymentStatus) {
    s == s' || (s == Succeeded && s' == Refunded)
  }

  /** Rows are never lost, and of a stored row only the status ever changes. */
  ghost predicate RowsKept(db: Db, db': Db) {
    && |db.bookings| <= |db'.bookings| && |db.payments| <= |db'.payments|
    && (forall i :: 0 <= i < |db.bookings| ==>
          db'.bookings[i] == db.bookings[i].(status := db'.bookings[i].status))
    && (forall i :: 0 <= i < |db.payments| ==>
          db'.payments[i] == db.payments[i].(status := db'.payments[i].status))
  }

  ghost predicate MovesAllowed(db: Db, db': Db) {
    && RowsKept(db, db')
    && (forall i :: 0 <= i < |db.bookings| ==> BookingMove(db.bookings[i].status, db'.bookings[i].status))
    && (forall i :: 0 <= i < |db.payments| ==> PaymentMove(db.payments[i].status, db'.payments[i].status))
    && (forall i :: |db.bookings| <= i < |db'.bookings| ==> db'.bookings[i].status == Pending)
    && (forall i :: |db.payments| <= i < |db'.payments| ==> db'.payments[i].status in {Succeeded, Failed})
  }

  lemma StatusMoves(db: Db, id: int, status: Status)
    requires HasBooking(db, id) && BookingMove(db.bookings[id].status, status)
    ensures MovesAllowed(db, WithStatus(db, id, status))
  {
  }

  lemma PayMoves(db: Db, id: int, user: int, amount: real, gateway: Gateway)
    requires CanPay(db, id, amount)
    ensures MovesAllowed(db, Paid(db, id, user, amount, gateway))
  {
    StatusMoves(db, id, Confirmed);
  }

  lemma CreateMoves(st: State, user: int, room: int, checkIn: int, checkOut: int)
    requires room in st.db.rooms
    ensures MovesAllowed(st.db, Created(st, user, room, checkIn, checkOut).db)
  {
  }

  lemma RefundMoves(st: State, id: int)
    requires CanRefund(st.db, id)
    ensures MovesAllowed(st.db, Step(st, Refund(id)).db)
  {
  }

  lemma SameRowsMove(db: Db, db': Db)
    requires db'.bookings == db.bookings && db'.payments == db.payments
    ensures MovesAllowed(db, db')
  {
  }

  /** Every request but the override moves statuses along the life cycle and nowhere else. */
  lemma StepMoves(st: State, a: Action)
    requires !a.SetStatus?
    ensures MovesAllowed(st.db, Step(st, a).db)
  {
    SameRowsMove(st.db, st.db);
    match a
    case Create(user, room, checkIn, checkOut) =>
      if CanCreate(st.db, room, checkIn, checkOut) { CreateMoves(st, user, room, checkIn, checkOut); }
    case Cancel(user, id) =>
      if CanCancel(st.db, user, id) { StatusMoves(st.db, id, Cancelled); }
    case Pay(id, user, amount, gateway) =>
      if CanPay(st.db, id, amount) { PayMoves(st.db, id, user, amount, gateway); }
    case Refund(id) =>
      if CanRefund(st.db, id) { RefundMoves(st, id); }
    case CheckIn(scope, id) =>
      if CanCheckIn(st.db, scope, id) { StatusMoves(st.db, id, Completed); }
    case _ => SameRowsMove(st.db, Step(st, a).db);
  }

  ghost predicate NoOverride(acts: seq<Action>) {
    forall i :: 0 <= i < |acts| ==> !acts[i].SetStatus?
  }

  /** Once a booking is cancelled, or a payment failed or refunded, it stays so; and no later
      request changes what was booked, for whom, when, or at what price. */
  lemma {:induction false} FinalIsFinal(st: State, acts: seq<Action>, i: int, j: int)
    requires NoOverride(acts) && 0 <= i <= j <= |acts|
    ensures RowsKept(At(st, acts, i).db, At(st, acts, j).db)
    ensures forall b :: 0 <= b < |At(st, acts, i).db.bookings| && At(st, acts, i).db.bookings[b].status == Cancelled ==>
              At(st, acts, j).db.bookings[b].status == Cancelled
    ensures forall p :: 0 <= p < |At(st, acts, i).db.payments| && At(st, acts, i).db.payments[p].status in {Failed, Refunded} ==>
              At(st, acts, j).db.payments[p].status == At(st, acts, i).db.payments[p].status
    decreases j - i
  {
    if i == j {
    } else {
      FinalIsFinal(st, acts, i, j - 1);
      RunSteps(st, acts, j - 1);
      StepMoves(At(st, acts, j - 1), acts[j - 1]);
    }
  }

  // ---------------------------------------------------------------- paid before confirmed

  /** One of the booking's payments reached `Succeeded`; a refund may have followed. */
  ghost predicate WasPaid(db: Db, id: int) {
    exists p :: 0 <= p < |db.payments| && db.payments[p].booking == id && db.payments[p].status in {Succeeded, Refunded}
  }

  ghost predicate PaidBeforeConfirmed(db: Db) {
    forall id :: HasBooking(db, id) && db.bookings[id].status in {Confirmed, Completed} ==> WasPaid(db, id)
  }

  /** The check the override lacks. */
  ghost predicate PaidOverride(db: Db, a: Action) {
    a.SetStatus? && HasBooking(db, a.booking) && a.status in {Confirmed, Completed} ==> WasPaid(db, a.booking)
  }

  lemma PaymentsOutlast(db: Db, db': Db, id: int)
    requires RowsKept(db, db') && WasPaid(db, id)
    requires forall i :: 0 <= i < |db.payments| ==> PaymentMove(db.payments[i].status, db'.payments[i].status)
    ensures WasPaid(db', id)
  {
    var p :| 0 <= p < |db.payments| && db.payments[p].booking == id && db.payments[p].status in {Succeeded, Refunded};
    assert db'.payments[p].booking == id && db'.payments[p].status in {Succeeded, Refunded};
  }

  lemma StepKeepsPaid(st: State, a: Action)
    requires PaidBeforeConfirmed(st.db) && !a.SetStatus?
    ensures PaidBeforeConfirmed(Step(st, a).db)
  {
    var db, db' := st.db, Step(st, a).db;
    StepMoves(st, a);
    forall id | HasBooking(db', id) && db'.bookings[id].status in {Confirmed, Completed} ensures WasPaid(db', id) {
      if db.bookings[id].status in {Confirmed, Completed} {
        PaymentsOutlast(db, db', id);
      } else {
        var last := |db'.payments| - 1;
        assert a.Pay? && db'.payments[last].booking == id && db'.payments[last].status == Succeeded;
      }
    }
  }

  /** An override keeps the property if and only if it passes the missing check. */
  lemma OverridePaidIff(st: State, a: Action)
    requires PaidBeforeConfirmed(st.db) && a.SetStatus?
    ensures PaidBeforeConfirmed(Step(st, a).db) <==> PaidOverride(st.db, a)
  {
    var db, db' := st.db, Step(st, a).db;
    assert db'.payments == db.payments;
    assert forall id :: WasPaid(db', id) <==> WasPaid(db, id);
    if HasBooking(db, a.booking) {
      assert db'.bookings[a.booking].status == a.status;
      assert forall id :: HasBooking(db, id) && id != a.booking ==> db'.bookings[id] == db.bookings[id];
    }
  }

  /** Book a room and confirm the booking through the status endpoint: it is confirmed and unpaid. */
  lemma UnpaidOverride() returns (st: State, acts: seq<Action>)
    ensures Fresh(st) && acts == [Create(1, 7, 10, 11), SetStatus(0, Confirmed)]
    ensures !PaidBeforeConfirmed(Run(st, acts).db)
  {
    st := State(Db({1}, map[7 := Room(1, 1, None, true)], [], [], map[], []), map[], 0.0);
    acts := [Create(1, 7, 10, 11), SetStatus(0, Confirmed)];
    var booked := Step(st, acts[0]);
    RunSteps(st, acts, 0);
    RunSteps(st, acts, 1);
    assert acts[..2] == acts;
    assert CanCreate(st.db, 7, 10, 11);
    assert |booked.db.bookings| == 1 && !WasPaid(booked.db, 0);
    OverridePaidIff(booked, acts[1]);
  }

  /** A booking is confirmed or completed only if one of its payments succeeded. */
  lemma {:induction false} ConfirmedWasPaid(st: State, acts: seq<Action>)
    requires Fresh(st)
    requires forall i :: 0 <= i < |acts| ==> PaidOverride(At(st, acts, i).db, acts[i])
    ensures PaidBeforeConfirmed(Run(st, acts).db)
  {
    if acts == [] {
    } else {
      var init, a := acts[..|acts| - 1], acts[|acts| - 1];
      forall i | 0 <= i < |init| ensures PaidOverride(At(st, init, i).db, init[i]) {
        assert init[..i] == acts[..i];
      }
      ConfirmedWasPaid(st, init);
      assert PaidOverride(At(st, acts, |acts| - 1).db, a);
      if a.SetStatus? { OverridePaidIff(Run(st, init), a); } else { StepKeepsPaid(Run(st, init), a); }
    }
  }

  // ---------------------------------------------------------------- money

  /** The sum of the payments for bookings in `of` that stand at `status`. */
  ghost function Sum(payments: seq<Payment>, of: iset<int>, status: PaymentStatus): real {
    if payments == [] then 0.0
    else
      var p := payments[|payments| - 1];
      Sum(payments[..|payments| - 1], of, status) + if p.booking in of && p.status == status then p.amount else 0.0
  }

  lemma SumAppend(payments: seq<Payment>, p: Payment, of: iset<int>, status: PaymentStatus)
    ensures Sum(payments + [p], of, status) ==
            Sum(payments, of, status) + if p.booking in of && p.status == status then p.amount else 0.0
  {
    assert (payments + [p])[..|payments|] == payments;
  }

  lemma {:induction false} SumUpdate(payments: seq<Payment>, i: int, p: Payment, of: iset<int>, status: PaymentStatus)
    requires 0 <= i < |payments|
    ensures Sum(payments[i := p], of, status) == Sum(payments, of, status)
              - (if payments[i].booking in of && payments[i].status == status then payments[i].amount else 0.0)
              + (if p.booking in of && p.status == status then p.amount else 0.0)
  {
    var n := |payments| - 1;
    if i == n {
      assert payments[i := p][..n] == payments[..n];
    } else {
      assert payments[i := p][..n] == payments[..n][i := p];
      SumUpdate(payments[..n], i, p, of, status);
    }
  }

  /** What the gateway was asked to capture in the run, for bookings in `of`. */
  ghost function Captured(st: State, acts: seq<Action>, of: iset<int>): real {
    if acts == [] then 0.0
    else
      var init, a := acts[..|acts| - 1], acts[|acts| - 1];
      Captured(st, init, of) +
      if a.Pay? && CanPay(Run(st, init).db, a.booking, a.amount) && a.gateway == Approved && a.booking in of then a.amount else 0.0
  }

  /** What the run gave back, for bookings in `of`. */
  ghost function GivenBack(st: State, acts: seq<Action>, of: iset<int>): real {
    if acts == [] then 0.0
    else
      var init, a := acts[..|acts| - 1], acts[|acts| - 1];
      var db := Run(st, init).db;
      GivenBack(st, init, of) +
      if a.Refund? && CanRefund(db, a.payment) && db.payments[a.payment].booking in of
      then db.payments[a.payment].amount else 0.0
  }

  /** For one booking, for all bookings, or for any set of them: captured money is what stands as
      succeeded plus what stands as refunded, and the refunded rows are exactly what was given back. */
  lemma {:induction false} MoneyIsConserved(st: State, acts: seq<Action>, of: iset<int>)
    requires Fresh(st)
    ensures Captured(st, acts, of) ==
            Sum(Run(st, acts).db.payments, of, Succeeded) + Sum(Run(st, acts).db.payments, of, Refunded)
    ensures GivenBack(st, acts, of) == Sum(Run(st, acts).db.payments, of, Refunded)
  {
    if acts == [] {
    } else {
      var init, a := acts[..|acts| - 1], acts[|acts| - 1];
      MoneyIsConserved(st, init, of);
      MoneyStep(Run(st, init), a, of, Succeeded);
      MoneyStep(Run(st, init), a, of, Refunded);
    }
  }

  lemma MoneyStep(st: State, a: Action, of: iset<int>, status: PaymentStatus)
    requires status in {Succeeded, Refunded}
    ensures Sum(Step(st, a).db.payments, of, status) == Sum(st.db.payments, of, status)
              + (if a.Pay? && CanPay(st.db, a.booking, a.amount) && a.gateway == Approved && a.booking in of && status == Succeeded
                 then a.amount else 0.0)
              + (if a.Refund? && CanRefund(st.db, a.payment) && st.db.payments[a.payment].booking in of
                 then (if status == Refunded then st.db.payments[a.payment].amount else -st.db.payments[a.payment].amount) else 0.0)
  {
    match a
    case Pay(id, user, amount, gateway) =>
      SumAppend(st.db.payments, Payment(id, user, amount, Succeeded), of, status);
      SumAppend(st.db.payments, Payment(id, user, amount, Failed), of, status);
    case Refund(id) =>
      if CanRefund(st.db, id) { SumUpdate(st.db.payments, id, st.db.payments[id].(status := Refunded), of, status); }
    case Create(user, room, checkIn, checkOut) =>
    case _ =>
  }
}
