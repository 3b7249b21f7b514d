/** Nightly pricing: the ranked rule query, the per-night loop, and what a rule can change. */
module Pricing {
  import opened Domain

  ghost predicate UniqueIds(rules: seq<Rule>) {
    forall i, j :: 0 <= i < j < |rules| ==> rules[i].id != rules[j].id
  }

  /** The sort key of the rule query: priority descending, then id descending. */
  predicate Outranks(a: Rule, b: Rule) {
    a.priority > b.priority || (a.priority == b.priority && a.id > b.id)
  }

  predicate Matches(r: Rule, hotel: int, roomType: int, checkIn: int, checkOut: int) {
    r.hotel == hotel && r.roomType == roomType && r.startDate <= checkOut && r.endDate >= checkIn
  }

  /** The rule applies to one night of rooms of this hotel and type. */
  predicate Covers(r: Rule, room: Room, day: int) {
    Matches(r, room.hotel, room.roomType, day, day)
  }

  function InsertByRank(r: Rule, ranked: seq<Rule>): seq<Rule> {
    if ranked == [] || Outranks(r, ranked[0]) then [r] + ranked
    else [ranked[0]] + InsertByRank(r, ranked[1..])
  }

  /** The rows that match, best rank first. */
  function RulesForRoomType(rules: seq<Rule>, hotel: int, roomType: int, checkIn: int, checkOut: int): seq<Rule> {
    if rules == [] then []
    else
      var rest := RulesForRoomType(rules[1..], hotel, roomType, checkIn, checkOut);
      if Matches(rules[0], hotel, roomType, checkIn, checkOut) then InsertByRank(rules[0], rest) else rest
  }

  function BasePrice(room: Room): real {
    if room.basePrice.Some? then room.basePrice.value else 0.0
  }

  /** What a night costs when `r` is the rule in charge. */
  function RulePrice(r: Rule, room: Room): real {
    if r.price.Some? then r.price.value
    else if r.multiplier.Some? then BasePrice(room) * r.multiplier.value
    else BasePrice(room)
  }

  /** The rule in charge of a night, said without the sorted query: it covers the night and
      outranks every other rule that does. */
  ghost predicate Wins(rules: seq<Rule>, r: Rule, room: Room, day: int) {
    && Covers(r, room, day)
    && forall s :: s in rules && s != r && Covers(s, room, day) ==> Outranks(r, s)
  }

  function NightPrice(rules: seq<Rule>, room: Room, day: int): real {
    var ranked := RulesForRoomType(rules, room.hotel, room.roomType, day, day);
    if ranked == [] then BasePrice(room) else RulePrice(ranked[0], room)
  }

  function Total(rules: seq<Rule>, room: Room, checkIn: int, checkOut: int): real
    decreases checkOut - checkIn
  {
    if checkIn >= checkOut then 0.0
    else Total(rules, room, checkIn, checkOut - 1) + NightPrice(rules, room, checkOut - 1)
  }

  method CalculateBookingPrice(rules: seq<Rule>, room: Room, checkIn: int, checkOut: int) returns (total: real)
    ensures total == Total(rules, room, checkIn, checkOut)
    ensures checkOut <= checkIn ==> total == 0.0
  {
    total := 0.0;
    var basePrice := BasePrice(room);
    var currentDay := checkIn;
    while currentDay < checkOut
      invariant checkIn <= currentDay
      invariant currentDay <= checkOut || currentDay == checkIn
      invariant total == Total(rules, room, checkIn, currentDay)
    {
      var dailyPrice := basePrice;
      var ranked := RulesForRoomType(rules, room.hotel, room.roomType, currentDay, currentDay);
      if ranked != [] {
        var top := ranked[0];
        if top.price.Some? {
          dailyPrice := top.price.value;
        } else if top.multiplier.Some? {
          dailyPrice := basePrice * top.multiplier.value;
        }
      }
      total := total + dailyPrice;
      currentDay := currentDay + 1;
    }
  }

  // ---------------------------------------------------------------- the ranked query

  ghost predicate Ranked(s: seq<Rule>) {
    forall i, j :: 0 <= i < j < |s| ==> Outranks(s[i], s[j])
  }

  lemma {:induction false} InsertKeepsRank(r: Rule, ranked: seq<Rule>)
    requires Ranked(ranked)
    requires forall s :: s in ranked ==> s.id != r.id
    ensures Ranked(InsertByRank(r, ranked))
    ensures forall s :: s in InsertByRank(r, ranked) <==> s == r || s in ranked
    ensures |InsertByRank(r, ranked)| == |ranked| + 1
  {
    if ranked != [] && !Outranks(r, ranked[0]) {
      var rest := InsertByRank(r, ranked[1..]);
      InsertKeepsRank(r, ranked[1..]);
      assert ranked == [ranked[0]] + ranked[1..];
      forall j | 0 <= j < |rest| ensures Outranks(ranked[0], rest[j]) {
        assert rest[j] in rest;
        if rest[j] != r {
          assert rest[j] in ranked[1..];
        }
      }
    } else if ranked != [] {
      assert forall j :: 0 <= j < |ranked| ==> Outranks(r, ranked[j]);
    }
  }

  /** The query returns exactly the matching rows, in strictly descending rank. */
  lemma {:induction false} QueryIsRankedFilter(rules: seq<Rule>, hotel: int, roomType: int, checkIn: int, checkOut: int)
    requires UniqueIds(rules)
    ensures var q := RulesForRoomType(rules, hotel, roomType, checkIn, checkOut);
      && Ranked(q)
      && (forall r :: r in q <==> r in rules && Matches(r, hotel, roomType, checkIn, checkOut))
  {
    if rules == [] {
    } else {
      var rest := RulesForRoomType(rules[1..], hotel, roomType, checkIn, checkOut);
      QueryIsRankedFilter(rules[1..], hotel, roomType, checkIn, checkOut);
      assert rules == [rules[0]] + rules[1..];
      if Matches(rules[0], hotel, roomType, checkIn, checkOut) {
        forall s | s in rest ensures s.id != rules[0].id {
          assert s in rules[1..];
        }
        InsertKeepsRank(rules[0], rest);
      }
    }
  }

  /** A stored rule sets the price of a night if and only if it covers the night and outranks
      every other rule that covers it; with no covering rule the base price holds. */
  lemma NightPriceIsWinners(rules: seq<Rule>, room: Room, day: int)
    requires UniqueIds(rules)
    ensures forall r :: r in rules && Wins(rules, r, room, day) ==> NightPrice(rules, room, day) == RulePrice(r, room)
    ensures (forall r :: r in rules ==> !Covers(r, room, day)) ==> NightPrice(rules, room, day) == BasePrice(room)
    ensures (exists r :: r in rules && Covers(r, room, day)) ==> exists r :: r in rules && Wins(rules, r, room, day)
  {
    var q := RulesForRoomType(rules, room.hotel, room.roomType, day, day);
    QueryIsRankedFilter(rules, room.hotel, room.roomType, day, day);
    if q != [] {
      var top := q[0];
      assert top in q;
      forall s | s in rules && s != top && Covers(s, room, day) ensures Outranks(top, s) {
        assert s in q;
      }
      assert Wins(rules, top, room, day);
      forall r | r in rules && Wins(rules, r, room, day) ensures r == top {
        assert r == top || Outranks(top, r);
      }
    } else {
      forall r | r in rules ensures !Covers(r, room, day) {
        assert r in q <==> Covers(r, room, day);
      }
    }
  }

  lemma DistinctRanks(rules: seq<Rule>, r: Rule, s: Rule)
    requires UniqueIds(rules) && r in rules && s in rules && r != s
    ensures Outranks(r, s) || Outranks(s, r)
  {
    var i :| 0 <= i < |rules| && rules[i] == r;
    var j :| 0 <= j < |rules| && rules[j] == s;
    assert rules[i].id != rules[j].id;
  }

  lemma OneNightTotal(rules: seq<Rule>, room: Room, day: int)
    ensures Total(rules, room, day, day + 1) == NightPrice(rules, room, day)
  {
    assert Total(rules, room, day, day) == 0.0;
  }

  /** One night, said in the terms of the rows: the rule for this hotel and room type whose dates,
      both inclusive, hold the night, and whose priority, then id, is highest, sets a fixed price or
      else multiplies the base price; a missing multiplier is one, a missing base price is nothing. */
  lemma NightInNumbers(rules: seq<Rule>, r: Rule, room: Room, day: int)
    requires UniqueIds(rules) && r in rules
    requires r.hotel == room.hotel && r.roomType == room.roomType && r.startDate <= day <= r.endDate
    requires forall s :: s in rules && s.hotel == room.hotel && s.roomType == room.roomType && s.startDate <= day <= s.endDate ==>
               s.priority < r.priority || (s.priority == r.priority && s.id <= r.id)
    ensures Total(rules, room, day, day + 1) ==
            if r.price.Some? then r.price.value
            else (if room.basePrice.Some? then room.basePrice.value else 0.0)
                   * (if r.multiplier.Some? then r.multiplier.value else 1.0)
  {
    forall s | s in rules && s != r && Covers(s, room, day) ensures Outranks(r, s) {
      DistinctRanks(rules, r, s);
    }
    assert Wins(rules, r, room, day);
    NightPriceIsWinners(rules, room, day);
    OneNightTotal(rules, room, day);
  }

  /** Without such a rule the night costs the base price. */
  lemma NightWithoutRule(rules: seq<Rule>, room: Room, day: int)
    requires UniqueIds(rules)
    requires forall r :: r in rules ==>
               r.hotel != room.hotel || r.roomType != room.roomType || day < r.startDate || r.endDate < day
    ensures Total(rules, room, day, day + 1) == if room.basePrice.Some? then room.basePrice.value else 0.0
  {
    NightPriceIsWinners(rules, room, day);
    OneNightTotal(rules, room, day);
  }

  // ---------------------------------------------------------------- laws of the total

  lemma {:induction false} TotalIsAdditive(rules: seq<Rule>, room: Room, a: int, b: int, c: int)
    requires a <= b <= c
    ensures Total(rules, room, a, c) == Total(rules, room, a, b) + Total(rules, room, b, c)
    decreases c - b
  {
    if b == c {
    } else {
      TotalIsAdditive(rules, room, a, b, c - 1);
    }
  }

  lemma {:induction false} TotalDependsOnNights(rules: seq<Rule>, rules': seq<Rule>, room: Room, checkIn: int, checkOut: int)
    requires forall d :: checkIn <= d < checkOut ==> NightPrice(rules, room, d) == NightPrice(rules', room, d)
    ensures Total(rules, room, checkIn, checkOut) == Total(rules', room, checkIn, checkOut)
    decreases checkOut - checkIn
  {
    if checkIn >= checkOut {
    } else {
      TotalDependsOnNights(rules, rules', room, checkIn, checkOut - 1);
    }
  }

  /** Two tables with the same rows, stored in any order, price every stay alike. */
  lemma StorageOrderIsIrrelevant(rules: seq<Rule>, rules': seq<Rule>, room: Room, checkIn: int, checkOut: int)
    requires UniqueIds(rules) && UniqueIds(rules')
    requires forall r :: r in rules <==> r in rules'
    ensures Total(rules, room, checkIn, checkOut) == Total(rules', room, checkIn, checkOut)
  {
    forall d | checkIn <= d < checkOut ensures NightPrice(rules, room, d) == NightPrice(rules', room, d) {
      NightPriceIsWinners(rules, room, d);
      NightPriceIsWinners(rules', room, d);
      if r :| r in rules && Wins(rules, r, room, d) {
        assert r in rules' && Wins(rules', r, room, d);
      } else {
        assert forall r :: r in rules' ==> !Covers(r, room, d);
      }
    }
    TotalDependsOnNights(rules, rules', room, checkIn, checkOut);
  }

  /** The price change summed over the nights that `r` covers and wins against `rules`, and no others. */
  ghost function Gain(rules: seq<Rule>, r: Rule, room: Room, checkIn: int, checkOut: int): real
    decreases checkOut - checkIn
  {
    if checkIn >= checkOut then 0.0
    else
      Gain(rules, r, room, checkIn, checkOut - 1) +
      if Wins(rules, r, room, checkOut - 1)
      then RulePrice(r, room) - NightPrice(rules, room, checkOut - 1) else 0.0
  }

  ghost predicate Extends(rules: seq<Rule>, r: Rule, rules': seq<Rule>) {
    && UniqueIds(rules) && UniqueIds(rules')
    && r !in rules
    && forall s :: s in rules' <==> s in rules || s == r
  }

  lemma NightGain(rules: seq<Rule>, r: Rule, rules': seq<Rule>, room: Room, day: int)
    requires Extends(rules, r, rules')
    ensures NightPrice(rules', room, day) ==
            if Wins(rules, r, room, day) then RulePrice(r, room) else NightPrice(rules, room, day)
  {
    NightPriceIsWinners(rules, room, day);
    NightPriceIsWinners(rules', room, day);
    if Wins(rules, r, room, day) {
      assert r in rules' && Wins(rules', r, room, day);
    } else if Covers(r, room, day) {
      var s :| s in rules && s != r && Covers(s, room, day) && !Outranks(r, s);
      var w :| w in rules && Wins(rules, w, room, day);
      assert w == s || Outranks(w, s);
      DistinctRanks(rules', r, s);
      assert Wins(rules', w, room, day);
    } else if w :| w in rules && Wins(rules, w, room, day) {
      assert w in rules' && Wins(rules', w, room, day);
    }
  }

  /** Adding a rule (read left to right) or deleting it (right to left) moves the price of a stay
      by exactly the nights the rule covers and wins. */
  lemma {:induction false} OneRuleChange(rules: seq<Rule>, r: Rule, rules': seq<Rule>, room: Room, checkIn: int, checkOut: int)
    requires Extends(rules, r, rules')
    ensures Total(rules', room, checkIn, checkOut) ==
            Total(rules, room, checkIn, checkOut) + Gain(rules, r, room, checkIn, checkOut)
    decreases checkOut - checkIn
  {
    if checkIn >= checkOut {
    } else {
      OneRuleChange(rules, r, rules', room, checkIn, checkOut - 1);
      NightGain(rules, r, rules', room, checkOut - 1);
    }
  }

  /** On every night it covers, some other rule for the same rooms outranks it. */
  ghost predicate AlwaysBeaten(rules: seq<Rule>, r: Rule) {
    forall room: Room, day: int {:trigger Covers(r, room, day)} ::
      Covers(r, room, day) ==> exists s :: s in rules && s != r && Covers(s, room, day) && Outranks(s, r)
  }

  /** Such a rule can be deleted without changing the price of any stay in any room. */
  lemma {:induction false} BeatenRuleIsRemovable(rules: seq<Rule>, r: Rule, rules': seq<Rule>, room: Room, checkIn: int, checkOut: int)
    requires Extends(rules, r, rules') && AlwaysBeaten(rules, r)
    ensures Total(rules', room, checkIn, checkOut) == Total(rules, room, checkIn, checkOut)
  {
    forall d | checkIn <= d < checkOut ensures NightPrice(rules, room, d) == NightPrice(rules', room, d) {
      NightGain(rules, r, rules', room, d);
      if Covers(r, room, d) {
        var s :| s in rules && s != r && Covers(s, room, d) && Outranks(s, r);
        assert !Outranks(r, s);
      }
    }
    TotalDependsOnNights(rules, rules', room, checkIn, checkOut);
  }

  /** And conversely: a rule that wins some night at a different price cannot be deleted unnoticed. */
  lemma WinningRuleIsNot(rules: seq<Rule>, r: Rule, rules': seq<Rule>, room: Room, day: int)
    requires Extends(rules, r, rules')
    ensures Total(rules', room, day, day + 1) != Total(rules, room, day, day + 1) <==>
            Wins(rules, r, room, day) && RulePrice(r, room) != NightPrice(rules, room, day)
  {
    OneRuleChange(rules, r, rules', room, day, day + 1);
    assert Gain(rules, r, room, day, day) == 0.0;
  }

  // ---------------------------------------------------------------- the table

  /** The rows with `id` of this hotel taken out. */
  function WithoutRule(rules: seq<Rule>, id: int, hotel: int): seq<Rule> {
    if rules == [] then []
    else (if rules[0].id == id && rules[0].hotel == hotel then [] else [rules[0]]) + WithoutRule(rules[1..], id, hotel)
  }

  lemma {:induction false} WithoutRuleIsFilter(rules: seq<Rule>, id: int, hotel: int)
    requires UniqueIds(rules)
    ensures UniqueIds(WithoutRule(rules, id, hotel))
    ensures forall r :: r in WithoutRule(rules, id, hotel) <==> r in rules && !(r.id == id && r.hotel == hotel)
  {
    if rules == [] {
    } else {
      var rest := WithoutRule(rules[1..], id, hotel);
      WithoutRuleIsFilter(rules[1..], id, hotel);
      assert rules == [rules[0]] + rules[1..];
      forall j | 0 <= j < |rest| ensures rest[j].id != rules[0].id {
        assert rest[j] in rules[1..];
      }
    }
  }

  class RuleTable {
    var rows: seq<Rule>
    var nextId: int

    ghost predicate Valid()
      reads this
    {
      UniqueIds(rows) && forall r :: r in rows ==> r.id < nextId
    }

    constructor ()
      ensures Valid() && rows == []
    {
      rows, nextId := [], 1;
    }

    /** The stored row carries a fresh id; every price moves by the nights it wins. */
    method CreateRule(hotel: int, roomType: int, startDate: int, endDate: int,
                      price: Option<real>, multiplier: Option<real>, priority: int)
      returns (rule: Rule)
      requires Valid()
      modifies this
      ensures Valid()
      ensures rule == Rule(old(nextId), hotel, roomType, startDate, endDate, price, multiplier, priority)
      ensures rows == old(rows) + [rule] && nextId == old(nextId) + 1
      ensures forall room: Room, a: int, b: int {:trigger Total(rows, room, a, b)} ::
        Total(rows, room, a, b) == Total(old(rows), room, a, b) + Gain(old(rows), rule, room, a, b)
    {
      rule := Rule(nextId, hotel, roomType, startDate, endDate, price, multiplier, priority);
      assert rule !in rows;
      rows := rows + [rule];
      nextId := nextId + 1;
      forall room: Room, a: int, b: int
        ensures Total(rows, room, a, b) == Total(old(rows), room, a, b) + Gain(old(rows), rule, room, a, b)
      {
        OneRuleChange(old(rows), rule, rows, room, a, b);
      }
    }

    /** Returns whether a rule with this id exists in this hotel, and deletes just that row. */
    method DeleteRule(id: int, hotel: int) returns (deleted: bool)
      requires Valid()
      modifies this
      ensures Valid() && nextId == old(nextId)
      ensures deleted <==> exists r :: r in old(rows) && r.id == id && r.hotel == hotel
      ensures forall r :: r in rows <==> r in old(rows) && !(r.id == id && r.hotel == hotel)
      ensures !deleted ==> rows == old(rows)
    {
      var i := 0;
      while i < |rows| && !(rows[i].id == id && rows[i].hotel == hotel)
        invariant 0 <= i <= |rows|
        invariant forall j :: 0 <= j < i ==> !(rows[j].id == id && rows[j].hotel == hotel)
      {
        i := i + 1;
      }
      deleted := i < |rows|;
      if deleted {
        WithoutRuleIsFilter(rows, id, hotel);
        rows := WithoutRule(rows, id, hotel);
      }
    }
  }
}
