/** Phone numbers: the display mask, the E.164 printer and parser, and the input component. */
module Phone {
  import opened Domain

  /** `mask`: an 'X' is a digit, every other character is a literal separator. */
  datatype Country = Country(code: string, dial: string, digits: nat, mask: string)

  predicate IsDigit(c: char) { '0' <= c <= '9' }

  predicate AllDigits(s: string) {
    forall i :: 0 <= i < |s| ==> IsDigit(s[i])
  }

  /** What is left when every non-digit is deleted. */
  function Strip(s: string): string {
    if s == "" then "" else if IsDigit(s[0]) then [s[0]] + Strip(s[1..]) else Strip(s[1..])
  }

  function Cut(s: string, n: nat): string {
    if |s| <= n then s else s[..n]
  }

  // ---------------------------------------------------------------- the mask

  function Masked(digits: string, mask: string): string {
    if mask == "" || digits == "" then ""
    else if mask[0] == 'X' then [digits[0]] + Masked(digits[1..], mask[1..])
    else [mask[0]] + Masked(digits, mask[1..])
  }

  lemma MaskStep(digits: string, mask: string)
    requires digits != "" && mask != ""
    ensures Masked(digits, mask) ==
            if mask[0] == 'X' then [digits[0]] + Masked(digits[1..], mask[1..]) else [mask[0]] + Masked(digits, mask[1..])
  {
  }

  /** What the loop has shown, with what it has yet to show, over one step. */
  lemma ShownSoFar(shown: string, digits: string, mask: string, di: nat, i: nat)
    requires di < |digits| && i < |mask|
    ensures shown + Masked(digits[di..], mask[i..]) ==
            if mask[i] == 'X' then (shown + [digits[di]]) + Masked(digits[di + 1..], mask[i + 1..])
            else (shown + [mask[i]]) + Masked(digits[di..], mask[i + 1..])
  {
    MaskStep(digits[di..], mask[i..]);
    assert mask[i..][1..] == mask[i + 1..] && digits[di..][1..] == digits[di + 1..];
    assert mask[i..][0] == mask[i] && digits[di..][0] == digits[di];
  }

  method ApplyMask(digits: string, mask: string) returns (result: string)
    ensures result == Masked(digits, mask)
  {
    result := "";
    var i, di := 0, 0;
    while i < |mask| && di < |digits|
      invariant 0 <= i <= |mask| && 0 <= di <= |digits|
      invariant result + Masked(digits[di..], mask[i..]) == Masked(digits, mask)
    {
      ShownSoFar(result, digits, mask, di, i);
      if mask[i] == 'X' {
        result := result + [digits[di]];
        di := di + 1;
      } else {
        if di < |digits| {
          result := result + [mask[i]];
        }
      }
      i := i + 1;
    }
    assert Masked(digits[di..], mask[i..]) == "";
  }

  /** The number of digits a mask has room for. */
  function Slots(mask: string): nat {
    SlotsIn(mask, |mask|)
  }

  function SlotsIn(mask: string, n: nat): nat
    requires n <= |mask|
  {
    if n == 0 then 0 else SlotsIn(mask, n - 1) + if mask[n - 1] == 'X' then 1 else 0
  }

  lemma {:induction false} SlotsFromTheFront(mask: string, n: nat)
    requires 1 <= n <= |mask|
    ensures SlotsIn(mask, n) == (if mask[0] == 'X' then 1 else 0) + SlotsIn(mask[1..], n - 1)
  {
    if n == 1 {
    } else {
      SlotsFromTheFront(mask, n - 1);
    }
  }

  lemma SlotsStep(mask: string)
    requires mask != ""
    ensures Slots(mask) == (if mask[0] == 'X' then 1 else 0) + Slots(mask[1..])
  {
    SlotsFromTheFront(mask, |mask|);
  }

  /** A mask has room for as many digits as one can point at in it, from left to right. */
  lemma {:induction false} RoomFor(mask: string, at: seq<int>, n: nat)
    requires n <= |mask| && (at != [] ==> at[|at| - 1] < n)
    requires forall i :: 0 <= i < |at| ==> 0 <= at[i] < |mask| && mask[at[i]] == 'X'
    requires forall i :: 0 <= i < |at| - 1 ==> at[i] < at[i + 1]
    ensures |at| <= SlotsIn(mask, n)
  {
    if at == [] {
    } else {
      var last := |at| - 1;
      RoomFor(mask, if at[last] == n - 1 then at[..last] else at, n - 1);
    }
  }

  ghost predicate NoLiteralDigits(mask: string) {
    forall i :: 0 <= i < |mask| ==> !IsDigit(mask[i])
  }

  lemma CutStep(digits: string, n: nat)
    requires digits != "" && n > 0
    ensures Cut(digits, n) == [digits[0]] + Cut(digits[1..], n - 1)
  {
  }

  lemma StripDigit(digits: string, mask: string)
    requires digits != "" && mask != "" && mask[0] == 'X' && IsDigit(digits[0])
    ensures Strip(Masked(digits, mask)) == [digits[0]] + Strip(Masked(digits[1..], mask[1..]))
  {
    MaskStep(digits, mask);
    StripCons(digits[0], Masked(digits[1..], mask[1..]));
  }

  lemma StripSeparator(digits: string, mask: string)
    requires digits != "" && mask != "" && mask[0] != 'X' && !IsDigit(mask[0])
    ensures Strip(Masked(digits, mask)) == Strip(Masked(digits, mask[1..]))
  {
    MaskStep(digits, mask);
    StripCons(mask[0], Masked(digits, mask[1..]));
  }

  /** The display is a beginning of the mask with digits for its marks. */
  lemma {:induction false} DisplayFollowsMask(digits: string, mask: string, i: nat)
    requires AllDigits(digits) && i < |Masked(digits, mask)|
    ensures i < |mask| && if mask[i] == 'X' then IsDigit(Masked(digits, mask)[i]) else Masked(digits, mask)[i] == mask[i]
  {
    if i == 0 {
    } else {
      DisplayFollowsMask(if mask[0] == 'X' then digits[1..] else digits, mask[1..], i - 1);
    }
  }

  /** A display of digits the mask has room for ends in a digit: no separator follows the last one. */
  lemma {:induction false} DisplayEndsInDigit(digits: string, mask: string)
    requires AllDigits(digits) && digits != "" && |digits| <= Slots(mask)
    ensures var shown := Masked(digits, mask); shown != "" && shown[|shown| - 1] == digits[|digits| - 1]
  {
    MaskStep(digits, mask);
    SlotsStep(mask);
    if mask[0] == 'X' && |digits| == 1 {
    } else if mask[0] == 'X' {
      DisplayEndsInDigit(digits[1..], mask[1..]);
    } else {
      DisplayEndsInDigit(digits, mask[1..]);
    }
  }

  /** Stripping the display gives back the digits, as many as the mask has room for. */
  lemma {:induction false} StripUndoesMask(digits: string, mask: string)
    requires AllDigits(digits) && NoLiteralDigits(mask)
    ensures Strip(Masked(digits, mask)) == Cut(digits, Slots(mask))
  {
    if mask == "" || digits == "" {
    } else if mask[0] == 'X' {
      SlotsStep(mask);
      CutStep(digits, Slots(mask));
      StripUndoesMask(digits[1..], mask[1..]);
      StripDigit(digits, mask);
    } else {
      SlotsStep(mask);
      StripUndoesMask(digits, mask[1..]);
      StripSeparator(digits, mask);
    }
  }

  lemma StripCons(c: char, s: string)
    ensures Strip([c] + s) == if IsDigit(c) then [c] + Strip(s) else Strip(s)
  {
    assert ([c] + s)[1..] == s;
  }

  lemma {:induction false} StripOfDigits(s: string)
    requires AllDigits(s)
    ensures Strip(s) == s
  {
    if s == "" {
    } else {
      StripOfDigits(s[1..]);
    }
  }

  lemma {:induction false} StripIsDigits(s: string)
    ensures AllDigits(Strip(s))
  {
    if s == "" {
    } else {
      StripIsDigits(s[1..]);
    }
  }

  // ---------------------------------------------------------------- printer and parser

  function Emitted(c: Country, localDigits: string): string {
    var digits := Cut(localDigits, c.digits);
    if digits == "" then "" else c.dial + digits
  }

  /** A plus and digits: nothing else is emitted, and nothing after the code but the local digits. */
  lemma EmittedIsPlusAndDigits(c: Country, localDigits: string)
    requires c.dial != "" && c.dial[0] == '+' && AllDigits(c.dial[1..]) && AllDigits(localDigits)
    ensures var s := Emitted(c, localDigits);
      if localDigits == "" || c.digits == 0 then s == ""
      else
        && s[0] == '+' && AllDigits(s[1..])
        && s[..|c.dial|] == c.dial && s[|c.dial|..] == if |localDigits| <= c.digits then localDigits else localDigits[..c.digits]
  {
  }

  function InsertByDial(c: Country, sorted: seq<Country>): seq<Country> {
    if sorted == [] || |c.dial| >= |sorted[0].dial| then [c] + sorted
    else [sorted[0]] + InsertByDial(c, sorted[1..])
  }

  /** A stable sort, longest dial code first. */
  function SortedByDial(table: seq<Country>): seq<Country> {
    if table == [] then [] else InsertByDial(table[0], SortedByDial(table[1..]))
  }

  function FirstMatch(sorted: seq<Country>, s: string): (r: Option<Country>)
    ensures r.Some? ==> r.value in sorted && r.value.dial <= s
  {
    if sorted == [] then None
    else if sorted[0].dial <= s then Some(sorted[0])
    else FirstMatch(sorted[1..], s)
  }

  datatype Parsed = Parsed(country: Country, localDigits: string)

  function Parse(table: seq<Country>, s: string): Option<Parsed> {
    if s == "" || s[0] != '+' then None
    else
      match FirstMatch(SortedByDial(table), s)
      case None => None
      case Some(c) => Some(Parsed(c, Strip(s[|c.dial|..])))
  }

  /** A text is read if and only if it starts with a plus and with one of the codes; its local digits
      are the digits after the code. */
  lemma ReadIffCode(table: seq<Country>, s: string)
    ensures Parse(table, s).Some? <==> s != "" && s[0] == '+' && exists c :: c in table && c.dial <= s
    ensures Parse(table, s).Some? ==>
              var p := Parse(table, s).value; p.country in table && p.country.dial <= s && p.localDigits == Strip(s[|p.country.dial|..])
  {
    SearchIsBest(table, s);
    BestIsLongest(table, s);
  }

  method ParseE164(table: seq<Country>, s: string) returns (r: Option<Parsed>)
    ensures r == Parse(table, s)
  {
    if s == "" || s[0] != '+' {
      return None;
    }
    var sorted := SortedByDial(table);
    var i := 0;
    while i < |sorted|
      invariant 0 <= i <= |sorted|
      invariant FirstMatch(sorted, s) == FirstMatch(sorted[i..], s)
    {
      assert sorted[i..][1..] == sorted[i + 1..];
      if sorted[i].dial <= s {
        return Some(Parsed(sorted[i], Strip(s[|sorted[i].dial|..])));
      }
      i := i + 1;
    }
    return None;
  }

  // ---------------------------------------------------------------- what stripping leaves

  lemma {:induction false} StripOfSum(a: string, b: string)
    ensures Strip(a + b) == Strip(a) + Strip(b)
    ensures forall c :: c in Strip(a) <==> c in a && IsDigit(c)
  {
    if a == "" {
      assert a + b == b;
    } else {
      assert (a + b)[1..] == a[1..] + b && a == [a[0]] + a[1..];
      StripOfSum(a[1..], b);
    }
  }

  // ---------------------------------------------------------------- what the sorted search finds

  /** The longest dial code that starts `s`, and among equal codes the earliest row, said without sorting. */
  function Best(table: seq<Country>, s: string): Option<Country> {
    if table == [] then None
    else
      var rest := Best(table[1..], s);
      if table[0].dial <= s && (rest.None? || |rest.value.dial| <= |table[0].dial|) then Some(table[0]) else rest
  }

  ghost predicate LongestFirst(sorted: seq<Country>) {
    forall i, j :: 0 <= i < j < |sorted| ==> |sorted[i].dial| >= |sorted[j].dial|
  }

  lemma {:induction false} InsertKeepsOrder(c: Country, sorted: seq<Country>)
    requires LongestFirst(sorted)
    ensures LongestFirst(InsertByDial(c, sorted))
    ensures forall x :: x in InsertByDial(c, sorted) <==> x == c || x in sorted
  {
    if sorted == [] || |c.dial| >= |sorted[0].dial| {
    } else {
      var rest := InsertByDial(c, sorted[1..]);
      InsertKeepsOrder(c, sorted[1..]);
      assert sorted == [sorted[0]] + sorted[1..];
      forall j | 0 <= j < |rest| ensures |rest[j].dial| <= |sorted[0].dial| {
        assert rest[j] in rest;
      }
    }
  }

  lemma {:induction false} SearchAfterInsert(c: Country, sorted: seq<Country>, s: string)
    requires LongestFirst(sorted)
    ensures FirstMatch(InsertByDial(c, sorted), s) ==
            var rest := FirstMatch(sorted, s);
            if c.dial <= s && (rest.None? || |rest.value.dial| <= |c.dial|) then Some(c) else rest
  {
    if sorted != [] && |c.dial| < |sorted[0].dial| {
      SearchAfterInsert(c, sorted[1..], s);
      assert InsertByDial(c, sorted)[1..] == InsertByDial(c, sorted[1..]);
    } else {
      assert ([c] + sorted)[1..] == sorted;
      MatchIsNoLonger(sorted, s, |c.dial|);
    }
  }

  lemma {:induction false} MatchIsNoLonger(sorted: seq<Country>, s: string, n: nat)
    requires forall i :: 0 <= i < |sorted| ==> |sorted[i].dial| <= n
    ensures FirstMatch(sorted, s).Some? ==> |FirstMatch(sorted, s).value.dial| <= n
  {
    if sorted == [] || sorted[0].dial <= s {
    } else {
      MatchIsNoLonger(sorted[1..], s, n);
    }
  }

  /** The sorted search finds the best row. */
  lemma {:induction false} SearchIsBest(table: seq<Country>, s: string)
    ensures LongestFirst(SortedByDial(table))
    ensures FirstMatch(SortedByDial(table), s) == Best(table, s)
  {
    if table == [] {
    } else {
      SearchIsBest(table[1..], s);
      InsertKeepsOrder(table[0], SortedByDial(table[1..]));
      SearchAfterInsert(table[0], SortedByDial(table[1..]), s);
    }
  }

  ghost predicate EarliestOfItsDial(table: seq<Country>, c: Country) {
    exists i :: 0 <= i < |table| && table[i] == c && NoneBefore(table, i, c.dial)
  }

  ghost predicate NoneBefore(table: seq<Country>, i: int, dial: string) {
    forall j :: 0 <= j < i && j < |table| ==> table[j].dial != dial
  }

  /** No dial code starts `s` exactly when nothing is found; what is found starts `s`, no code that
      starts `s` is longer, and no earlier row has the same code. */
  lemma {:induction false} BestIsLongest(table: seq<Country>, s: string)
    ensures Best(table, s).None? <==> forall c :: c in table ==> !(c.dial <= s)
    ensures Best(table, s).Some? ==> Best(table, s).value in table && Best(table, s).value.dial <= s
    ensures Best(table, s).Some? ==> forall c :: c in table && c.dial <= s ==> |c.dial| <= |Best(table, s).value.dial|
    ensures Best(table, s).Some? ==> EarliestOfItsDial(table, Best(table, s).value)
  {
    if table == [] {
    } else {
      BestIsLongest(table[1..], s);
      assert table == [table[0]] + table[1..];
      var best := Best(table, s);
      if best.Some? {
        if table[0].dial <= s && best == Some(table[0]) {
          assert table[0] == best.value && NoneBefore(table, 0, best.value.dial);
        } else {
          var i :| 0 <= i < |table[1..]| && table[1..][i] == best.value && NoneBefore(table[1..], i, best.value.dial);
          forall j | 0 <= j < i + 1 ensures table[j].dial != best.value.dial {
            if j > 0 { assert table[1..][j - 1] == table[j]; }
          }
          assert table[i + 1] == best.value && NoneBefore(table, i + 1, best.value.dial);
        }
      }
    }
  }
}
