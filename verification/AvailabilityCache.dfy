/** The timed availability cache and its five-key invalidation rule. */
module AvailabilityCache {
  import opened Domain

  /** One searched window; the stored key text spells out exactly these three values. */
  datatype Key = Key(hotel: int, checkIn: int, checkOut: int) {
    function Nights(): int { checkOut - checkIn }
  }

  datatype Entry = Entry(rooms: set<int>, expires: real)

  type Store = map<Key, Entry>

  const AVAILABILITY_TTL := 300.0

  /** What a read at time `now` returns: expired entries are gone. */
  function Lookup(entries: Store, now: real, k: Key): Option<set<int>> {
    if k in entries && now < entries[k].expires then Some(entries[k].rooms) else None
  }

  function Stored(entries: Store, now: real, k: Key, rooms: set<int>): Store {
    entries[k := Entry(rooms, now + AVAILABILITY_TTL)]
  }

  function InvalidatedKeys(hotel: int, checkIn: int, checkOut: int): set<Key> {
    { Key(hotel, checkIn, checkOut),
      Key(hotel, checkIn - 1, checkOut), Key(hotel, checkIn + 1, checkOut),
      Key(hotel, checkIn, checkOut - 1), Key(hotel, checkIn, checkOut + 1) }
  }

  ghost predicate SharesNight(k: Key, hotel: int, checkIn: int, checkOut: int) {
    k.hotel == hotel && exists night :: k.checkIn <= night < k.checkOut && InStay(night, checkIn, checkOut)
  }

  predicate InStay(night: int, checkIn: int, checkOut: int) {
    checkIn <= night < checkOut
  }

  lemma SharesNightByBounds(k: Key, hotel: int, checkIn: int, checkOut: int)
    requires k.checkIn < k.checkOut && checkIn < checkOut
    ensures SharesNight(k, hotel, checkIn, checkOut) <==>
            k.hotel == hotel && k.checkIn < checkOut && checkIn < k.checkOut
  {
    var first := if k.checkIn < checkIn then checkIn else k.checkIn;
    assert k.checkIn < checkOut && checkIn < k.checkOut ==>
        k.checkIn <= first < k.checkOut && InStay(first, checkIn, checkOut);
  }

  /** A window that shares a night with a stay is invalidated with it when the two lengths sum to at most three. */
  lemma ShortWindowsAreInvalidated(k: Key, hotel: int, checkIn: int, checkOut: int)
    requires SharesNight(k, hotel, checkIn, checkOut)
    requires k.Nights() + (checkOut - checkIn) <= 3
    ensures k in InvalidatedKeys(hotel, checkIn, checkOut)
  {
    SharesNightByBounds(k, hotel, checkIn, checkOut);
  }

  /** All windows of `windowNights` nights that share a night with a stay of `stayNights` nights are invalidated. */
  ghost predicate CoveredLengths(stayNights: int, windowNights: int) {
    forall k: Key, hotel, checkIn, checkOut ::
      checkOut - checkIn == stayNights && k.Nights() == windowNights && SharesNight(k, hotel, checkIn, checkOut) ==>
        k in InvalidatedKeys(hotel, checkIn, checkOut)
  }

  /** Exactly how far the five keys reach. */
  lemma InvalidationReach(stayNights: int, windowNights: int)
    requires stayNights >= 1 && windowNights >= 1
    ensures CoveredLengths(stayNights, windowNights) <==> stayNights + windowNights <= 3
  {
    if stayNights + windowNights <= 3 {
      forall k: Key, hotel, checkIn, checkOut |
        checkOut - checkIn == stayNights && k.Nights() == windowNights && SharesNight(k, hotel, checkIn, checkOut)
        ensures k in InvalidatedKeys(hotel, checkIn, checkOut)
      {
        ShortWindowsAreInvalidated(k, hotel, checkIn, checkOut);
      }
    } else {
      // The middle night of a long stay, or a window that starts on the last night.
      var k := if windowNights == 1 then Key(0, 1, 2) else Key(0, stayNights - 1, stayNights - 1 + windowNights);
      SharesNightByBounds(k, 0, 0, stayNights);
      assert k.Nights() == windowNights && SharesNight(k, 0, 0, stayNights);
      assert k !in InvalidatedKeys(0, 0, stayNights);
    }
  }

  /** The five keys are the windows of the hotel that keep one end of the stay and move the other by at
      most a day. */
  lemma KeysWithinADay(k: Key, hotel: int, checkIn: int, checkOut: int)
    ensures k in InvalidatedKeys(hotel, checkIn, checkOut) <==>
            k.hotel == hotel && ((k.checkOut == checkOut && -1 <= k.checkIn - checkIn <= 1) ||
                                 (k.checkIn == checkIn && -1 <= k.checkOut - checkOut <= 1))
  {
    assert k == Key(k.hotel, k.checkIn, k.checkOut);
  }

  /** The keys deleted before the loop of the invalidation reaches `delta`. */
  predicate ReachedBy(k: Key, hotel: int, checkIn: int, checkOut: int, delta: int) {
    k.hotel == hotel && ((k.checkOut == checkOut && -1 <= k.checkIn - checkIn < delta) ||
                         (k.checkIn == checkIn && -1 <= k.checkOut - checkOut < delta))
  }

  lemma ReachedAll(k: Key, hotel: int, checkIn: int, checkOut: int)
    ensures ReachedBy(k, hotel, checkIn, checkOut, 2) <==> k in InvalidatedKeys(hotel, checkIn, checkOut)
  {
    assert k == Key(k.hotel, k.checkIn, k.checkOut);
  }

  class Cache {
    var entries: Store

    constructor ()
      ensures entries == map[]
    {
      entries := map[];
    }

    method GetCachedAvailability(now: real, hotel: int, checkIn: int, checkOut: int) returns (r: Option<set<int>>)
      ensures r == Lookup(entries, now, Key(hotel, checkIn, checkOut))
    {
      var k := Key(hotel, checkIn, checkOut);
      if k in entries && now < entries[k].expires {
        r := Some(entries[k].rooms);
      } else {
        r := None;
      }
    }

    method SetCachedAvailability(now: real, hotel: int, checkIn: int, checkOut: int, rooms: set<int>)
      modifies this
      ensures entries == Stored(old(entries), now, Key(hotel, checkIn, checkOut), rooms)
      ensures forall t :: Lookup(entries, t, Key(hotel, checkIn, checkOut)) ==
                          if t < now + 300.0 then Some(rooms) else None
    {
      entries := entries[Key(hotel, checkIn, checkOut) := Entry(rooms, now + AVAILABILITY_TTL)];
    }

    /** Deletes five keys and nothing else. What survives near the stay is too long to have been reached. */
    method InvalidateAvailability(hotel: int, checkIn: int, checkOut: int)
      modifies this
      ensures entries == old(entries) - InvalidatedKeys(hotel, checkIn, checkOut)
      ensures forall k :: k in entries && SharesNight(k, hotel, checkIn, checkOut) ==>
                k.Nights() + (checkOut - checkIn) > 3
    {
      var delta := -1;
      while delta < 2
        invariant -1 <= delta <= 2
        invariant forall k :: k in entries <==> k in old(entries) && !ReachedBy(k, hotel, checkIn, checkOut, delta)
        invariant forall k :: k in entries ==> entries[k] == old(entries)[k]
      {
        entries := entries - {Key(hotel, checkIn + delta, checkOut)};
        entries := entries - {Key(hotel, checkIn, checkOut + delta)};
        delta := delta + 1;
      }
      forall k ensures ReachedBy(k, hotel, checkIn, checkOut, 2) <==> k in InvalidatedKeys(hotel, checkIn, checkOut) {
        ReachedAll(k, hotel, checkIn, checkOut);
      }
      assert entries == old(entries) - InvalidatedKeys(hotel, checkIn, checkOut);
      forall k | k in entries && SharesNight(k, hotel, checkIn, checkOut)
        ensures k.Nights() + (checkOut - checkIn) > 3
      {
        if k.Nights() + (checkOut - checkIn) <= 3 {
          ShortWindowsAreInvalidated(k, hotel, checkIn, checkOut);
        }
      }
    }
  }
}
