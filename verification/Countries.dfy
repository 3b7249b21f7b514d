/** The country table, and why the round trips of the phone input hold for it. */
module Countries {
  import opened Domain
  import opened Phone
  import opened PhoneInput

  const ROWS_1: seq<Country> := [
    Country("UZ", "+998", 9, "(XX) XXX-XX-XX"),
    Country("US", "+1", 10, "(XXX) XXX-XXXX"),
    Country("CA", "+1", 10, "(XXX) XXX-XXXX"),
    Country("GB", "+44", 10, "XXXX XXXXXX"),
    Country("RU", "+7", 10, "(XXX) XXX-XX-XX"),
    Country("KZ", "+7", 10, "(XXX) XXX-XX-XX"),
    Country("TR", "+90", 10, "(XXX) XXX XX XX"),
    Country("DE", "+49", 10, "XXX XXXXXXX")
  ]

  const ROWS_2: seq<Country> := [
    Country("FR", "+33", 9, "X XX XX XX XX"),
    Country("IT", "+39", 10, "XXX XXX XXXX"),
    Country("ES", "+34", 9, "XXX XXX XXX"),
    Country("CN", "+86", 11, "XXX XXXX XXXX"),
    Country("IN", "+91", 10, "XXXXX XXXXX"),
    Country("PK", "+92", 10, "(XXX) XXXXXXX"),
    Country("AE", "+971", 9, "XX XXX XXXX")
  ]

  const ROWS_3: seq<Country> := [
    Country("SA", "+966", 9, "XX XXX XXXX"),
    Country("KG", "+996", 9, "(XXX) XXX-XXX"),
    Country("TJ", "+992", 9, "XX XXX XXXX"),
    Country("TM", "+993", 8, "XXXX XXXX"),
    Country("AZ", "+994", 9, "XX XXX XXXX"),
    Country("GE", "+995", 9, "XXX XXX XXX"),
    Country("AM", "+374", 8, "XX XXXXXX")
  ]

  const ROWS_4: seq<Country> := [
    Country("UA", "+380", 9, "(XX) XXX-XX-XX"),
    Country("BY", "+375", 9, "(XX) XXX-XX-XX"),
    Country("PL", "+48", 9, "XXX XXX XXX"),
    Country("NL", "+31", 9, "X XX XX XX XX"),
    Country("SE", "+46", 9, "XX XXX XXXX"),
    Country("NO", "+47", 8, "XXXX XXXX"),
    Country("AU", "+61", 9, "XXX XXX XXX")
  ]

  const ROWS_5: seq<Country> := [
    Country("JP", "+81", 10, "XX XXXX XXXX"),
    Country("KR", "+82", 10, "XX XXXX XXXX"),
    Country("BR", "+55", 11, "(XX) XXXXX-XXXX"),
    Country("MX", "+52", 10, "XXX XXX XXXX"),
    Country("AR", "+54", 10, "(XXX) XXX-XXXX"),
    Country("ZA", "+27", 9, "XX XXX XXXX"),
    Country("EG", "+20", 10, "XXX XXX XXXX")
  ]

  const ROWS_6: seq<Country> := [
    Country("NG", "+234", 10, "XXX XXX XXXX"),
    Country("SG", "+65", 8, "XXXX XXXX"),
    Country("MY", "+60", 9, "XX XXXX XXXX"),
    Country("ID", "+62", 10, "XXX XXXX XXXX"),
    Country("PH", "+63", 10, "XXX XXX XXXX"),
    Country("TH", "+66", 9, "XX XXX XXXX"),
    Country("IL", "+972", 9, "XX XXX XXXX")
  ]

  const COUNTRIES := ROWS_1 + ROWS_2 + ROWS_3 + ROWS_4 + ROWS_5 + ROWS_6

  // ---------------------------------------------------------------- the table is decodable

  /** How long the code at the start of `s` is, read off its first two digits. */
  function DialLength(s: string): nat {
    if |s| < 2 then 0
    else if s[1] == '1' || s[1] == '7' then 2
    else if |s| < 3 then 0
    else if (s[1] == '9' && (s[2] == '9' || s[2] == '7' || s[2] == '6'))
         || (s[1] == '3' && (s[2] == '7' || s[2] == '8'))
         || (s[1] == '2' && s[2] == '3') then 4
    else 3
  }

  function DigitValue(c: char): int { c as int - '0' as int }

  /** A code, read as a number. */
  function DialNumber(s: string): int {
    if |s| == 2 then DigitValue(s[1])
    else if |s| == 3 then 10 * DigitValue(s[1]) + DigitValue(s[2])
    else if |s| == 4 then 100 * DigitValue(s[1]) + 10 * DigitValue(s[2]) + DigitValue(s[3])
    else 0
  }

  function DigitsFor(dial: int): nat {
    if dial in {374, 993, 47, 65} then 8
    else if dial in {86, 55} then 11
    else if dial in {998, 33, 34, 971, 966, 996, 992, 994, 995, 380, 375, 48, 31, 46, 61, 27, 60, 66, 972} then 9
    else 10
  }

  predicate DigitsFollow(dial: string) {
    if |dial| == 2 then IsDigit(dial[1])
    else if |dial| == 3 then IsDigit(dial[1]) && IsDigit(dial[2])
    else |dial| == 4 && IsDigit(dial[1]) && IsDigit(dial[2]) && IsDigit(dial[3])
  }

  ghost predicate DialOk(c: Country) {
    && 2 <= |c.dial| == DialLength(c.dial) && c.dial[0] == '+' && DigitsFollow(c.dial)
    && c.digits == DigitsFor(DialNumber(c.dial))
  }

  lemma HasRoom(mask: string, at: seq<int>)
    requires forall i :: 0 <= i < |at| ==> 0 <= at[i] < |mask| && mask[at[i]] == 'X'
    requires forall i :: 0 <= i < |at| - 1 ==> at[i] < at[i + 1]
    requires NoLiteralDigits(mask)
    ensures Roomy(mask, |at|)
  {
    RoomFor(mask, at, |mask|);
  }

  lemma Masks1()
    ensures Roomy("XX XXXXXX", 8)
    ensures Roomy("XXXX XXXX", 8)
  {
    HasRoom("XX XXXXXX", [0, 1, 3, 4, 5, 6, 7, 8]);
    HasRoom("XXXX XXXX", [0, 1, 2, 3, 5, 6, 7, 8]);
  }

  lemma Masks2()
    ensures Roomy("(XX) XXX-XX-XX", 9)
    ensures Roomy("(XXX) XXX-XXX", 9)
  {
    HasRoom("(XX) XXX-XX-XX", [1, 2, 5, 6, 7, 9, 10, 12, 13]);
    HasRoom("(XXX) XXX-XXX", [1, 2, 3, 6, 7, 8, 10, 11, 12]);
  }

  lemma Masks3()
    ensures Roomy("X XX XX XX XX", 9)
    ensures Roomy("XX XXX XXXX", 9)
  {
    HasRoom("X XX XX XX XX", [0, 2, 3, 5, 6, 8, 9, 11, 12]);
    HasRoom("XX XXX XXXX", [0, 1, 3, 4, 5, 7, 8, 9, 10]);
  }

  lemma Masks4()
    ensures Roomy("XXX XXX XXX", 9)
    ensures Roomy("(XXX) XXX XX XX", 10)
  {
    HasRoom("XXX XXX XXX", [0, 1, 2, 4, 5, 6, 8, 9, 10]);
    HasRoom("(XXX) XXX XX XX", [1, 2, 3, 6, 7, 8, 10, 11, 13, 14]);
  }

  lemma Masks5()
    ensures Roomy("(XXX) XXX-XX-XX", 10)
    ensures Roomy("(XXX) XXX-XXXX", 10)
  {
    HasRoom("(XXX) XXX-XX-XX", [1, 2, 3, 6, 7, 8, 10, 11, 13, 14]);
    HasRoom("(XXX) XXX-XXXX", [1, 2, 3, 6, 7, 8, 10, 11, 12, 13]);
  }

  lemma Masks6()
    ensures Roomy("(XXX) XXXXXXX", 10)
    ensures Roomy("XX XXXX XXXX", 10)
  {
    HasRoom("(XXX) XXXXXXX", [1, 2, 3, 6, 7, 8, 9, 10, 11, 12]);
    HasRoom("XX XXXX XXXX", [0, 1, 3, 4, 5, 6, 8, 9, 10, 11]);
  }

  lemma Masks7()
    ensures Roomy("XXX XXX XXXX", 10)
    ensures Roomy("XXX XXXXXXX", 10)
  {
    HasRoom("XXX XXX XXXX", [0, 1, 2, 4, 5, 6, 8, 9, 10, 11]);
    HasRoom("XXX XXXXXXX", [0, 1, 2, 4, 5, 6, 7, 8, 9, 10]);
  }

  lemma Masks8()
    ensures Roomy("XXXX XXXXXX", 10)
    ensures Roomy("XXXXX XXXXX", 10)
  {
    HasRoom("XXXX XXXXXX", [0, 1, 2, 3, 5, 6, 7, 8, 9, 10]);
    HasRoom("XXXXX XXXXX", [0, 1, 2, 3, 4, 6, 7, 8, 9, 10]);
  }

  lemma Masks9()
    ensures Roomy("(XX) XXXXX-XXXX", 11)
    ensures Roomy("XXX XXXX XXXX", 11)
  {
    HasRoom("(XX) XXXXX-XXXX", [1, 2, 5, 6, 7, 8, 9, 11, 12, 13, 14]);
    HasRoom("XXX XXXX XXXX", [0, 1, 2, 4, 5, 6, 7, 9, 10, 11, 12]);
  }

  lemma Rows1Dials(c: Country)
    requires c in ROWS_1
    ensures DialOk(c)
  {
  }

  lemma Rows1Masks(c: Country)
    requires c in ROWS_1
    ensures Roomy(c.mask, c.digits)
  {
    Masks2(); Masks4(); Masks5(); Masks7(); Masks8();
  }

  lemma Rows2Dials(c: Country)
    requires c in ROWS_2
    ensures DialOk(c)
  {
  }

  lemma Rows2Masks(c: Country)
    requires c in ROWS_2
    ensures Roomy(c.mask, c.digits)
  {
    Masks3(); Masks4(); Masks6(); Masks7(); Masks8(); Masks9();
  }

  lemma Rows3Dials(c: Country)
    requires c in ROWS_3
    ensures DialOk(c)
  {
  }

  lemma Rows3Masks(c: Country)
    requires c in ROWS_3
    ensures Roomy(c.mask, c.digits)
  {
    Masks1(); Masks2(); Masks3(); Masks4();
  }

  lemma Rows4Dials(c: Country)
    requires c in ROWS_4
    ensures DialOk(c)
  {
  }

  lemma Rows4Masks(c: Country)
    requires c in ROWS_4
    ensures Roomy(c.mask, c.digits)
  {
    Masks1(); Masks2(); Masks3(); Masks4();
  }

  lemma Rows5Dials(c: Country)
    requires c in ROWS_5
    ensures DialOk(c)
  {
  }

  lemma Rows5Masks(c: Country)
    requires c in ROWS_5
    ensures Roomy(c.mask, c.digits)
  {
    Masks3(); Masks5(); Masks6(); Masks7(); Masks9();
  }

  lemma Rows6Dials(c: Country)
    requires c in ROWS_6
    ensures DialOk(c)
  {
  }

  lemma Rows6Masks(c: Country)
    requires c in ROWS_6
    ensures Roomy(c.mask, c.digits)
  {
    Masks1(); Masks3(); Masks6(); Masks7(); Masks9();
  }

  lemma RowsOk(c: Country)
    requires c in COUNTRIES
    ensures DialOk(c) && MaskOk(c)
  {
    if c in ROWS_1 { Rows1Dials(c); Rows1Masks(c); }
    if c in ROWS_2 { Rows2Dials(c); Rows2Masks(c); }
    if c in ROWS_3 { Rows3Dials(c); Rows3Masks(c); }
    if c in ROWS_4 { Rows4Dials(c); Rows4Masks(c); }
    if c in ROWS_5 { Rows5Dials(c); Rows5Masks(c); }
    if c in ROWS_6 { Rows6Dials(c); Rows6Masks(c); }
  }

  /** Rows whose codes can be read off this way are told apart by them. */
  lemma ReadableCodesAreSeparate(c: Country, d: Country)
    requires DialOk(c) && DialOk(d) && c.dial <= d.dial
    ensures c.dial == d.dial && c.digits == d.digits
  {
    assert DialLength(c.dial) == DialLength(d.dial);
  }

  lemma CountriesAreDecodable()
    ensures Decodable(COUNTRIES)
    ensures forall c :: c in COUNTRIES ==> MaskOk(c)
  {
    forall c | c in COUNTRIES ensures DialOk(c) && MaskOk(c) { RowsOk(c); }
    forall c, d | c in COUNTRIES && d in COUNTRIES && c.dial <= d.dial ensures c.dial == d.dial && c.digits == d.digits {
      ReadableCodesAreSeparate(c, d);
    }
  }

  /** What a field of any of these countries emits is a plus and digits. */
  lemma CountriesEmitDigits(c: Country, localDigits: string)
    requires c in COUNTRIES && AllDigits(localDigits) && localDigits != ""
    ensures var s := Emitted(c, localDigits); s != "" && s[0] == '+' && AllDigits(s[1..])
  {
    RowsOk(c);
    DigitsAfterPlus(c.dial);
    EmittedIsPlusAndDigits(c, localDigits);
  }

  lemma DigitsAfterPlus(dial: string)
    requires DigitsFollow(dial)
    ensures AllDigits(dial[1..])
  {
  }

  lemma SharedCode()
    ensures NoneBefore(COUNTRIES, 1, "+1")
    ensures COUNTRIES[1] == Country("US", "+1", 10, "(XXX) XXX-XXXX")
    ensures COUNTRIES[2] == Country("CA", "+1", 10, "(XXX) XXX-XXXX")
  {
    assert COUNTRIES[0].dial == "+998" && "+998"[1] == '9';
  }

  /** A Canadian number comes back under the row of the United States, which has the same code and
      stands first, when the parent hands it back as a new value. */
  lemma CanadaBecomesUnitedStates(f: Field, seen: Option<string>)
    requires f.country == COUNTRIES[2] && AllDigits(f.localDigits) && Fits(f) && f.localDigits != ""
    requires seen != Some(Emitted(f.country, f.localDigits))
    ensures Echoed(COUNTRIES, f, seen, Emitted(f.country, f.localDigits)) == f.(country := COUNTRIES[1]) != f
  {
    SharedCode();
    CountriesAreDecodable();
    LaterRowIsReplaced(COUNTRIES, f, seen, 1, 2);
  }

  /** Selecting Canada while a number of the United States stands in the field emits the value the field
      has already, so Canada stays. */
  lemma SelectedCanadaStays(f: Field)
    requires f.country == COUNTRIES[1]
    ensures var value := Emitted(f.country, f.localDigits); var selected := f.(country := COUNTRIES[2]);
      Emitted(selected.country, selected.localDigits) == value && Echoed(COUNTRIES, selected, Some(value), value) == selected
  {
    SharedCode();
  }
}
