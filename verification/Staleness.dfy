/** How old a cached answer can be: windows of any length, every kind of request. */
module Staleness {
  import opened Domain
  import opened AvailabilityCache
  import opened Engine
  import Coherence

  /** A booking was created or cancelled, and one of its five keys is `k`. */
  ghost predicate Invalidates(db: Db, a: Action, k: Key) {
    match a
    case Create(user, room, checkIn, checkOut) =>
      CanCreate(db, room, checkIn, checkOut) && k in InvalidatedKeys(db.rooms[room].hotel, checkIn, checkOut)
    case Cancel(user, id) =>
      CanCancel(db, user, id) &&
      k in InvalidatedKeys(db.bookings[id].hotel, db.bookings[id].checkIn, db.bookings[id].checkOut)
    case _ => false
  }

  /** The entry `e` for `k` was computed in state `i` of the run, and no later step invalidated `k`. */
  ghost predicate StoredAt(st: State, acts: seq<Action>, k: Key, e: Entry, i: int) {
    && 0 <= i <= |acts|
    && e == Entry(WindowRooms(At(st, acts, i).db, k), At(st, acts, i).now + AVAILABILITY_TTL)
    && forall j :: i <= j < |acts| ==> !Invalidates(At(st, acts, j).db, acts[j], k)
  }

  lemma SurvivorsAreNotInvalidated(st: State, a: Action, k: Key)
    requires k in Step(st, a).cache
    ensures !Invalidates(st.db, a, k)
  {
  }

  lemma ClockNeverStepsBack(st: State, a: Action)
    ensures st.now <= Step(st, a).now
  {
  }

  lemma {:induction false} ClockIsMonotone(st: State, acts: seq<Action>, i: int)
    requires 0 <= i <= |acts|
    ensures At(st, acts, i).now <= Run(st, acts).now
    decreases |acts| - i
  {
    if i < |acts| {
      RunSteps(st, acts, i);
      ClockNeverStepsBack(At(st, acts, i), acts[i]);
      ClockIsMonotone(st, acts, i + 1);
    } else {
      assert acts[..i] == acts;
    }
  }

  lemma {:induction false} EntryHasOrigin(st: State, acts: seq<Action>, k: Key) returns (i: int)
    requires k !in st.cache && k in Run(st, acts).cache
    ensures StoredAt(st, acts, k, Run(st, acts).cache[k], i)
  {
    if acts == [] {
      assert false;
    } else {
      var init, a := acts[..|acts| - 1], acts[|acts| - 1];
      assert acts == init + [a];
      Coherence.EntryAfterStep(Run(st, init), a, k);
      SurvivorsAreNotInvalidated(Run(st, init), a, k);
      if k in Run(st, init).cache && Run(st, acts).cache[k] == Run(st, init).cache[k] {
        i := EntryHasOrigin(st, init, k);
        PrefixStates(st, init, a, i);
        forall j | i <= j < |acts| ensures !Invalidates(At(st, acts, j).db, acts[j], k) {
          PrefixStates(st, init, a, j);
          assert init[..|init|] == init;
        }
      } else {
        i := |acts|;
        assert acts[..i] == acts;
      }
    }
  }

  /** Every answer taken from the cache is the answer of a fresh query at some state of the run less
      than 300 seconds ago, restricted to the rooms that are active now; and since that state no
      booking change has invalidated the window. */
  lemma CachedAnswerIsRecent(st: State, acts: seq<Action>, k: Key) returns (i: int)
    requires k !in st.cache
    requires Lookup(Run(st, acts).cache, Run(st, acts).now, k).Some?
    ensures 0 <= i <= |acts|
    ensures At(st, acts, i).now <= Run(st, acts).now < At(st, acts, i).now + 300.0
    ensures Answer(Run(st, acts), k) ==
            set r | r in WindowRooms(At(st, acts, i).db, k) && r in Run(st, acts).db.rooms && Run(st, acts).db.rooms[r].active
    ensures forall j :: i <= j < |acts| ==> !Invalidates(At(st, acts, j).db, acts[j], k)
  {
    i := EntryHasOrigin(st, acts, k);
    ClockIsMonotone(st, acts, i);
  }
}
