/** The phone input: what its values mean for any table of countries, and the component in place. */
module PhoneInput {
  import opened Domain
  import opened Phone

  // ---------------------------------------------------------------- round trips

  /** Codes begin with a plus, no code starts another one, and rows that share a code agree on length. */
  ghost predicate Decodable(table: seq<Country>) {
    && (forall c :: c in table ==> c.dial != "" && c.dial[0] == '+')
    && (forall c, d :: c in table && d in table && c.dial <= d.dial ==> c.dial == d.dial && c.digits == d.digits)
  }

  /** The mask has room for this many digits, and shows no digit of its own. */
  ghost predicate Roomy(mask: string, digits: nat) {
    digits <= Slots(mask) && NoLiteralDigits(mask)
  }

  ghost predicate MaskOk(c: Country) {
    Roomy(c.mask, c.digits)
  }

  lemma DialCodesDoNotOverlap(table: seq<Country>, c: Country, d: Country, s: string)
    requires Decodable(table) && c in table && d in table && c.dial <= s && d.dial <= s
    ensures c.dial == d.dial && c.digits == d.digits
  {
    assert c.dial == s[..|c.dial|] && d.dial == s[..|d.dial|];
    assert c.dial <= d.dial || d.dial <= c.dial;
  }

  /** Parsing what was emitted gives back the dial code and the digits, and emitting that again gives
      the same text. The country itself may come back as an earlier row with the same code. A number
      without digits is emitted as the empty text, which no row parses. */
  lemma ParseUndoesEmit(table: seq<Country>, c: Country, local: string)
    requires Decodable(table) && c in table && AllDigits(local)
    ensures var p := Parse(table, Emitted(c, local));
      if Cut(local, c.digits) == "" then Emitted(c, local) == "" && p.None?
      else
        && p.Some? && p.value.country in table && p.value.country.dial == c.dial && p.value.country.digits == c.digits
        && EarliestOfItsDial(table, p.value.country)
        && p.value.localDigits == Cut(local, c.digits)
        && Emitted(p.value.country, p.value.localDigits) == Emitted(c, local)
  {
    var s, digits := Emitted(c, local), Cut(local, c.digits);
    if digits != "" {
      assert s == c.dial + digits && s[0] == '+' && c.dial <= s;
      SearchIsBest(table, s);
      BestIsLongest(table, s);
      DialCodesDoNotOverlap(table, c, Best(table, s).value, s);
      assert s[|c.dial|..] == digits;
      StripOfDigits(digits);
    }
  }

  /** What a value becomes when it is parsed and emitted again; unreadable values become empty. */
  function Normal(table: seq<Country>, s: string): string {
    match Parse(table, s)
    case None => ""
    case Some(p) => Emitted(p.country, p.localDigits)
  }

  /** Whatever text comes in, normalising it twice is normalising it once. */
  lemma NormalIsStable(table: seq<Country>, s: string)
    requires Decodable(table)
    ensures Normal(table, Normal(table, s)) == Normal(table, s)
  {
    if Parse(table, s).Some? {
      var p := Parse(table, s).value;
      StripIsDigits(s[|p.country.dial|..]);
      SearchIsBest(table, s);
      BestIsLongest(table, s);
      ParseUndoesEmit(table, p.country, p.localDigits);
    }
  }

  /** The first row with a code is determined by the code. */
  lemma EarliestIsUnique(table: seq<Country>, c: Country, d: Country)
    requires EarliestOfItsDial(table, c) && EarliestOfItsDial(table, d) && c.dial == d.dial
    ensures c == d
  {
    var i :| 0 <= i < |table| && table[i] == c && NoneBefore(table, i, c.dial);
    var j :| 0 <= j < |table| && table[j] == d && NoneBefore(table, j, d.dial);
    assert i == j;
  }

  // ---------------------------------------------------------------- the component

  datatype Field = Field(country: Country, localDigits: string)

  /** The component's reaction to a value from its parent. */
  function Synced(table: seq<Country>, f: Field, value: string): Field {
    if value == "" then f.(localDigits := "")
    else
      match Parse(table, value)
      case None => f
      case Some(p) => Field(p.country, Cut(p.localDigits, p.country.digits))
  }

  /** The effect runs when the value differs from the one it saw last; it has seen none before the
      first rendering. */
  function Echoed(table: seq<Country>, f: Field, seen: Option<string>, value: string): Field {
    if seen == Some(value) then f else Synced(table, f, value)
  }

  /** The component's reaction to typing: the new field, whose number is emitted. */
  function Typed(f: Field, text: string): Field {
    f.(localDigits := Cut(Strip(text), f.country.digits))
  }

  function Shown(f: Field): string {
    Masked(f.localDigits, f.country.mask)
  }

  ghost predicate Clean(table: seq<Country>, f: Field) {
    f.country in table && AllDigits(f.localDigits)
  }

  ghost predicate Fits(f: Field) {
    |f.localDigits| <= f.country.digits
  }

  /** Typing back what is shown changes nothing. */
  lemma RetypingIsIdentity(f: Field)
    requires MaskOk(f.country) && AllDigits(f.localDigits) && Fits(f)
    ensures Typed(f, Shown(f)) == f
  {
    StripUndoesMask(f.localDigits, f.country.mask);
  }

  /** The value a field emits, handed back by the parent, keeps its dial code and its value, and its
      digits, cut to the country's length if the effect runs. The country stays if the value is the one
      seen last, if there are no digits, or if it is the earliest row with its code; otherwise that
      row takes its place. */
  lemma EchoKeepsWhatWasEmitted(table: seq<Country>, f: Field, seen: Option<string>)
    requires Decodable(table) && Clean(table, f)
    ensures var value := Emitted(f.country, f.localDigits);
      var f' := Echoed(table, f, seen, value);
      && f'.localDigits == (if seen == Some(value) then f.localDigits else Cut(f.localDigits, f.country.digits))
      && f'.country.dial == f.country.dial && f'.country.digits == f.country.digits && Clean(table, f')
      && Emitted(f'.country, f'.localDigits) == value
      && (f'.country == f.country <==>
            seen == Some(value) || Cut(f.localDigits, f.country.digits) == "" || EarliestOfItsDial(table, f.country))
      && (f'.country != f.country ==> EarliestOfItsDial(table, f'.country))
  {
    ParseUndoesEmit(table, f.country, f.localDigits);
    var value := Emitted(f.country, f.localDigits);
    if Parse(table, value).Some? && EarliestOfItsDial(table, f.country) {
      EarliestIsUnique(table, f.country, Parse(table, value).value.country);
    }
  }

  /** A row that shares its code with an earlier one does not survive a value that changed. */
  lemma LaterRowIsReplaced(table: seq<Country>, f: Field, seen: Option<string>, first: nat, later: nat)
    requires Decodable(table) && first < later < |table| && NoneBefore(table, first, table[first].dial)
    requires table[first].dial == table[later].dial && table[later] == f.country
    requires AllDigits(f.localDigits) && Fits(f) && f.localDigits != "" && seen != Some(Emitted(f.country, f.localDigits))
    ensures Echoed(table, f, seen, Emitted(f.country, f.localDigits)) == f.(country := table[first])
  {
    var f' := Echoed(table, f, seen, Emitted(f.country, f.localDigits));
    ParseUndoesEmit(table, f.country, f.localDigits);
    assert EarliestOfItsDial(table, table[first]);
    EarliestIsUnique(table, table[first], f'.country);
  }

  class Input {
    const table: seq<Country>
    var country: Country
    var localDigits: string
    var seen: Option<string>

    ghost function Now(): Field
      reads this
    {
      Field(country, localDigits)
    }

    constructor (table: seq<Country>)
      requires Decodable(table) && table != []
      ensures this.table == table && Now() == Field(table[0], "") && Clean(table, Now()) && seen.None?
    {
      this.table, country, localDigits, seen := table, table[0], "", None;
    }

    /** The effect's body. */
    method SyncValue(value: string)
      requires Decodable(table) && Clean(table, Now())
      modifies this`country, this`localDigits
      ensures Now() == Synced(table, old(Now()), value) && Clean(table, Now())
      ensures value == "" || Parse(table, value).Some? ==> Fits(Now())
      ensures value == "" ==> country == old(country) && localDigits == ""
      ensures value != "" && (value[0] != '+' || forall c :: c in table ==> !(c.dial <= value)) ==> Now() == old(Now())
    {
      SearchIsBest(table, value);
      BestIsLongest(table, value);
      if value == "" {
        localDigits := "";
      } else {
        var parsed := ParseE164(table, value);
        if parsed.Some? {
          StripIsDigits(value[|parsed.value.country.dial|..]);
          country := parsed.value.country;
          localDigits := Cut(parsed.value.localDigits, country.digits);
        }
      }
    }

    /** A rendering with the parent's value. */
    method ReceiveValue(value: string)
      requires Decodable(table) && Clean(table, Now())
      modifies this
      ensures Now() == Echoed(table, old(Now()), old(seen), value) && Clean(table, Now())
      ensures seen == Some(value)
    {
      if seen != Some(value) {
        SyncValue(value);
        seen := Some(value);
      }
    }

    method HandleCountrySelect(c: Country) returns (emitted: string)
      requires c in table && Clean(table, Now())
      modifies this`country
      ensures Now() == Field(c, old(localDigits)) && Clean(table, Now())
      ensures emitted == Emitted(c, localDigits)
    {
      country := c;
      emitted := Emitted(c, localDigits);
    }

    method HandleNumberInput(text: string) returns (emitted: string)
      requires Clean(table, Now())
      modifies this`localDigits
      ensures Now() == Typed(old(Now()), text) && Clean(table, Now()) && Fits(Now())
      ensures emitted == Emitted(country, localDigits)
    {
      StripIsDigits(text);
      localDigits := Cut(Strip(text), country.digits);
      emitted := Emitted(country, localDigits);
    }

    method Display() returns (text: string)
      ensures text == Shown(Now())
    {
      text := ApplyMask(localDigits, country.mask);
    }

    /** Typing a number and getting the emitted value back from the parent: the field holds the typed
        digits, under the same dial code, and would emit the same value again. */
    method TypeAndSync(text: string) returns (emitted: string)
      requires Decodable(table) && Clean(table, Now())
      modifies this
      ensures Clean(table, Now()) && Fits(Now())
      ensures localDigits == Cut(Strip(text), old(country).digits) && country.dial == old(country).dial
      ensures emitted == Emitted(old(country), Strip(text)) == Emitted(country, localDigits)
    {
      emitted := HandleNumberInput(text);
      EchoKeepsWhatWasEmitted(table, Now(), seen);
      ReceiveValue(emitted);
    }
  }
}
