// Dates in a search query, and the id ranges they stand for.
module SearchDates {
  import opened Options
  import opened Text
  import opened Ids
  import opened Calendar
  import opened DecimalIds
  import Paging

  const MS_PER_DAY: nat := 86_400_000

  // Reading a number accepts a leading plus, and a leading minus if it is signed.
  function ParseSigned(s: string): Option<int> {
    if |s| > 1 && s[0] == '-' && Digits(s[1..]) then
      var v: int := 0 - Value(s[1..]);
      Some(v)
    else
      ParseUnsigned(s)
  }

  function ParseUnsigned(s: string): Option<nat> {
    if |s| > 1 && s[0] == '+' then (if Digits(s[1..]) then Some(Value(s[1..])) else None)
    else if s != "" && Digits(s) then Some(Value(s))
    else None
  }

  // The day a token names.
  function NamedDay(s: string): Option<Date> {
    if |s| != 10 || s[4] != '-' || s[7] != '-' then None
    else
      var year, month, day := ParseSigned(s[0..4]), ParseUnsigned(s[5..7]), ParseUnsigned(s[8..10]);
      if year.None? || month.None? || day.None? then None
      else if !(1 <= month.value <= 12) || day.value < 1 || day.value > DaysInMonth(year.value, month.value) then None
      else Some(Date(year.value, month.value, day.value))
  }

  // Midnight of that day; a day before 1970 counts as the start of it.
  function ParseDate(s: string): Option<nat> {
    if NamedDay(s).None? then None
    else
      var days := DaysFromCivil(NamedDay(s).value);
      if days < 0 then Some(0) else Some(days * MS_PER_DAY)
  }

  function Midnight(d: Date): nat
    requires ValidDate(d)
  {
    if DayNumber(d) < 0 then 0 else DayNumber(d) * MS_PER_DAY
  }

  // ---------------------------------------------------------------------------
  // Round trip
  // ---------------------------------------------------------------------------

  function DigitChar(n: nat): char
    requires n < 10
  {
    (n + '0' as int) as char
  }

  function Pad(n: nat, width: nat): string {
    if width == 0 then "" else Pad(n / 10, width - 1) + [DigitChar(n % 10)]
  }

  lemma {:induction false} PadValue(n: nat, width: nat)
    requires n < Pow10(width)
    ensures |Pad(n, width)| == width && Digits(Pad(n, width)) && Value(Pad(n, width)) == n
  {
    if width > 0 {
      PadValue(n / 10, width - 1);
      var s := Pad(n, width);
      assert s[..width - 1] == Pad(n / 10, width - 1);
      assert DigitOf(s[width - 1]) == n % 10;
    }
  }

  function Render(d: Date): string
    requires 0 <= d.year && 0 <= d.month && 0 <= d.day
  {
    Pad(d.year, 4) + "-" + Pad(d.month, 2) + "-" + Pad(d.day, 2)
  }

  // Every valid date of four digits, written out, is read as itself.
  lemma RenderedDateIsRead(d: Date)
    requires ValidDate(d) && 0 <= d.year <= 9999
    ensures NamedDay(Render(d)) == Some(d) && ParseDate(Render(d)) == Some(Midnight(d))
  {
    Powers();
    RenderedParts(d);
    RenderedNumbers(d);
    ClosedFormCounts(d);
    hide Render, Pad, ParseSigned, ParseUnsigned, DaysFromCivil, DayNumber, DaysInMonth;
  }

  lemma RenderedParts(d: Date)
    requires 0 <= d.year < Pow10(4) && 0 <= d.month < Pow10(2) && 0 <= d.day < Pow10(2)
    ensures var s := Render(d);
      && |s| == 10 && s[4] == '-' && s[7] == '-'
      && s[0..4] == Pad(d.year, 4) && s[5..7] == Pad(d.month, 2) && s[8..10] == Pad(d.day, 2)
  {
    PadValue(d.year, 4);
    PadValue(d.month, 2);
    PadValue(d.day, 2);
    hide Pad, Value, Digits, Pow10;
  }

  lemma RenderedNumbers(d: Date)
    requires 0 <= d.year < Pow10(4) && 0 <= d.month < Pow10(2) && 0 <= d.day < Pow10(2)
    ensures ParseSigned(Pad(d.year, 4)) == Some(d.year)
    ensures ParseUnsigned(Pad(d.month, 2)) == Some(d.month) && ParseUnsigned(Pad(d.day, 2)) == Some(d.day)
  {
    PadValue(d.year, 4);
    PadValue(d.month, 2);
    PadValue(d.day, 2);
    DigitsAreRead(Pad(d.year, 4));
    DigitsAreRead(Pad(d.month, 2));
    DigitsAreRead(Pad(d.day, 2));
    hide Pad, Value, Digits, Pow10, ParseSigned, ParseUnsigned;
  }

  lemma Powers()
    ensures Pow10(2) == 100 && Pow10(4) == 10000
  {
  }

  lemma DigitsAreRead(s: string)
    requires s != "" && Digits(s)
    ensures ParseSigned(s) == Some(Value(s)) && ParseUnsigned(s) == Some(Value(s))
  {
  }

  // Whatever is read is midnight of a valid date of at most four digits.
  lemma ReadDateIsValid(s: string)
    ensures ParseDate(s).Some? <==> NamedDay(s).Some?
    ensures ParseDate(s).Some? ==> ValidDate(NamedDay(s).value) && ParseDate(s).value == Midnight(NamedDay(s).value)
    ensures ParseDate(s).Some? ==> -1000 < NamedDay(s).value.year < 10000
  {
    if NamedDay(s).Some? {
      ClosedFormCounts(NamedDay(s).value);
      Powers();
      assert Pow10(3) == 1000;
      var year := s[0..4];
      if Digits(year) {
        ValueBelow(year);
      } else {
        ValueBelow(year[1..]);
      }
    }
  }

  // The format as documented: four digits, two and two of a valid date.
  ghost predicate Strict(s: string) {
    exists d: Date :: ValidDate(d) && 0 <= d.year <= 9999 && s == Render(d)
  }

  lemma {:induction false} PadOfValue(s: string)
    requires Digits(s)
    ensures Pad(Value(s), |s|) == s
  {
    if s != "" {
      var init := s[..|s| - 1];
      PadOfValue(init);
      assert s == init + [s[|s| - 1]];
    }
  }

  predicate Unsigned(s: string)
    requires |s| == 10
  {
    s[0] != '+' && s[0] != '-' && s[5] != '+' && s[8] != '+'
  }

  lemma StrictIsRead(d: Date)
    requires ValidDate(d) && 0 <= d.year <= 9999
    ensures |Render(d)| == 10 && Unsigned(Render(d)) && NamedDay(Render(d)) == Some(d)
  {
    RenderedDateIsRead(d);
    Powers();
    PadValue(d.year, 4);
    PadValue(d.month, 2);
    PadValue(d.day, 2);
    hide ValidDate, NamedDay, ParseDate, Pad, Value, DaysInMonth;
    var s, y, m, k := Render(d), Pad(d.year, 4), Pad(d.month, 2), Pad(d.day, 2);
    assert s[0] == y[0] && s[5] == m[0] && s[8] == k[0];
  }

  lemma UnsignedIsStrict(s: string)
    requires NamedDay(s).Some? && Unsigned(s)
    ensures Strict(s)
  {
    var y, m, k := s[0..4], s[5..7], s[8..10];
    PadOfValue(y);
    PadOfValue(m);
    PadOfValue(k);
    ValueBelow(y);
    Powers();
    hide DaysInMonth, Pad, Value, Pow10;
    assert s == y + "-" + m + "-" + k;
    assert s == Render(NamedDay(s).value);
  }

  // Main result: the tokens read are those of the documented format and those with a sign
  // where it has a digit.
  lemma StrictIffUnsigned(s: string)
    ensures Strict(s) <==> NamedDay(s).Some? && Unsigned(s)
  {
    hide DaysInMonth, ParseSigned, ParseUnsigned, Pad, Unsigned;
    if Strict(s) {
      var d: Date :| ValidDate(d) && 0 <= d.year <= 9999 && s == Render(d);
      StrictIsRead(d);
    } else if NamedDay(s).Some? && Unsigned(s) {
      UnsignedIsStrict(s);
    }
  }

  // One of the tokens that are not of the format and are read.
  lemma SignsAreRead()
    ensures !Strict("+200-+1-+2") && NamedDay("+200-+1-+2") == Some(Date(200, 1, 2))
  {
    StrictIffUnsigned("+200-+1-+2");
    SignedParts("+200-+1-+2");
    hide Strict, ParseSigned, ParseUnsigned;
  }

  lemma SignedParts(s: string)
    requires s == "+200-+1-+2"
    ensures ParseSigned(s[0..4]) == Some(200) && ParseUnsigned(s[5..7]) == Some(1) && ParseUnsigned(s[8..10]) == Some(2)
  {
    assert s[0..4] == "+200" && s[5..7] == "+1" && s[8..10] == "+2";
    assert "+200"[1..] == "200" && "+1"[1..] == "1" && "+2"[1..] == "2";
    assert "200"[..2] == "20" && "20"[..1] == "2" && "2"[..0] == "" && "1"[..0] == "";
    assert Value("2") == 2;
    assert Value("20") == 20;
  }

  // ---------------------------------------------------------------------------
  // Id ranges
  // ---------------------------------------------------------------------------

  // The UTC day an id was minted on.
  function DayOf(id: U64): nat {
    TimestampMs(id) / MS_PER_DAY
  }

  // A day comes before another exactly when its instants come before the other's midnight.
  lemma DayByMidnight(id: U64, d: Date)
    requires ValidDate(d)
    ensures DayOf(id) < DayNumber(d) <==> TimestampMs(id) < Midnight(d)
    ensures DayOf(id) > DayNumber(d) <==> TimestampMs(id) >= Midnight(d) + MS_PER_DAY
  {
  }

  lemma MidnightFits(d: Date)
    requires ValidDate(d) && d.year <= 9999
    ensures Midnight(d) + MS_PER_DAY < TWO64
  {
    var last := Date(9999, 12, 31);
    LastDay();
    if d != last {
      EarlierIsLess(d, last);
    }
  }

  lemma LastDay()
    ensures ValidDate(Date(9999, 12, 31)) && DayNumber(Date(9999, 12, 31)) == 2_932_896
  {
    hide DayNumber, YearStart, MonthStart;
    ClosedFormCounts(Date(9999, 12, 31));
  }

  // Main result: the bound of `before:` selects exactly the ids of earlier days, for
  // exactly the days whose midnight has a 42-bit time field.
  lemma BeforeIsExactIff(d: Date)
    requires ValidDate(d) && d.year <= 9999 && Midnight(d) < TWO64
    ensures (forall id: U64 :: id < FloorForMs(Midnight(d)) <==> DayOf(id) < DayNumber(d)) <==>
        Midnight(d) < EPOCH_MS + TWO42
  {
    FloorIsLeastIff(Midnight(d));
    forall id: U64
      ensures DayOf(id) < DayNumber(d) <==> TimestampMs(id) < Midnight(d)
    {
      DayByMidnight(id, d);
    }
  }

  // The same for `after:`, which starts at the midnight after the named day.
  lemma AfterIsExactIff(d: Date)
    requires ValidDate(d) && Midnight(d) + MS_PER_DAY < TWO64
    ensures (forall id: U64 :: id >= FloorForMs(Midnight(d) + MS_PER_DAY) <==> DayOf(id) > DayNumber(d)) <==>
        Midnight(d) + MS_PER_DAY < EPOCH_MS + TWO42
  {
    FloorIsLeastIff(Midnight(d) + MS_PER_DAY);
    forall id: U64
      ensures DayOf(id) > DayNumber(d) <==> TimestampMs(id) >= Midnight(d) + MS_PER_DAY
    {
      DayByMidnight(id, d);
    }
  }

  // The table compares signed columns. A bound of 42 bits compares an id as it should
  // exactly when both are on the same side of 2^63.
  lemma SignedBoundIff(id: U64, ms: U64)
    requires ms < EPOCH_MS + TWO42
    ensures (Paging.ToSql(id) < Paging.ToSql(FloorForMs(ms)) <==> TimestampMs(id) < ms) <==>
        (id < TWO63 <==> ms < EPOCH_MS + TWO41)
  {
    FloorIsLeastIff(ms);
    assert id >= FloorForMs(ms) <==> TimestampMs(id) >= ms;
    FloorSide(ms);
    hide FloorForMs;
  }

  lemma FloorSide(ms: U64)
    requires ms < EPOCH_MS + TWO42
    ensures FloorForMs(ms) < TWO63 <==> ms < EPOCH_MS + TWO41
  {
    if EPOCH_MS <= ms {
      ShlIsMultiple(ms - EPOCH_MS);
    }
  }

  // A later bound is the one of a time 2^42 milliseconds or more before it.
  lemma LateBoundWraps(ms: U64)
    requires ms >= EPOCH_MS
    ensures FloorForMs(ms) == FloorForMs(EPOCH_MS + (ms - EPOCH_MS) % TWO42)
  {
    ShlIsMultiple(ms - EPOCH_MS);
    ShlIsMultiple((ms - EPOCH_MS) % TWO42);
  }

  // Main result: while the bound has 42 bits of time, the search puts an id on the right
  // side of `before:` and of `after:` exactly when id and bound both have 41 bits of it or
  // neither has.
  lemma SearchBoundsAreExactIff(id: U64, d: Date)
    requires ValidDate(d) && Midnight(d) + MS_PER_DAY < EPOCH_MS + TWO42
    ensures var bound := Midnight(d);
      (Paging.ToSql(id) < Paging.ToSql(FloorForMs(bound)) <==> DayOf(id) < DayNumber(d)) <==>
      (id < TWO63 <==> bound < EPOCH_MS + TWO41)
    ensures var bound := Midnight(d) + MS_PER_DAY;
      (Paging.ToSql(id) >= Paging.ToSql(FloorForMs(bound)) <==> DayOf(id) > DayNumber(d)) <==>
      (id < TWO63 <==> bound < EPOCH_MS + TWO41)
  {
    SignedBoundIff(id, Midnight(d));
    SignedBoundIff(id, Midnight(d) + MS_PER_DAY);
    DayByMidnight(id, d);
  }

  // A bound past 42 bits should let every id through `before:` and none through `after:`.
  // It does so exactly for the ids below the bound it wraps to.
  lemma SearchPastTheRange(id: U64, d: Date)
    requires ValidDate(d) && d.year <= 9999 && Midnight(d) >= EPOCH_MS + TWO42
    ensures Midnight(d) + MS_PER_DAY < TWO64 && DayOf(id) < DayNumber(d)
    ensures Paging.ToSql(id) < Paging.ToSql(FloorForMs(Midnight(d))) <==>
        Paging.ToSql(id) < Paging.ToSql(FloorForMs(EPOCH_MS + (Midnight(d) - EPOCH_MS) % TWO42))
    ensures Paging.ToSql(id) >= Paging.ToSql(FloorForMs(Midnight(d) + MS_PER_DAY)) <==>
        Paging.ToSql(id) >= Paging.ToSql(FloorForMs(EPOCH_MS + (Midnight(d) + MS_PER_DAY - EPOCH_MS) % TWO42))
  {
    MidnightFits(d);
    LateBoundWraps(Midnight(d));
    LateBoundWraps(Midnight(d) + MS_PER_DAY);
    DayByMidnight(id, d);
    hide FloorForMs, Paging.ToSql, DayNumber;
  }

  // Over the ids a signed column holds in order, this is right for every id exactly while
  // the bound has 41 bits.
  lemma {:induction false} BoundOverColumnIff(ms: U64)
    ensures (forall id: U64 ::
        id < TWO63 ==> (Paging.ToSql(id) < Paging.ToSql(FloorForMs(ms)) <==> TimestampMs(id) < ms)) <==>
        ms < EPOCH_MS + TWO41
  {
    if ms < EPOCH_MS + TWO42 {
      forall id: U64
        ensures (Paging.ToSql(id) < Paging.ToSql(FloorForMs(ms)) <==> TimestampMs(id) < ms) <==>
            (id < TWO63 <==> ms < EPOCH_MS + TWO41)
      {
        SignedBoundIff(id, ms);
      }
      var least: U64 := 0;
      hide FloorForMs, TimestampMs, Paging.ToSql;
      assert least < TWO63;
      if ms >= EPOCH_MS + TWO41 {
        assert !(Paging.ToSql(least) < Paging.ToSql(FloorForMs(ms)) <==> TimestampMs(least) < ms);
      }
    } else {
      var greatest: U64 := TWO63 - 1;
      assert TimestampMs(greatest) < ms;
      FloorIsMultiple(ms);
    }
  }

  lemma FloorIsMultiple(ms: U64)
    ensures FloorForMs(ms) % TWO22 == 0
  {
  }

  // The last day whose midnight has 41 bits of time is 6 September 2093; 42 bits reach to
  // 15 May 2163.
  lemma LastDays()
    ensures Midnight(Date(2093, 9, 6)) < EPOCH_MS + TWO41 <= Midnight(Date(2093, 9, 7))
    ensures Midnight(Date(2163, 5, 15)) < EPOCH_MS + TWO42 <= Midnight(Date(2163, 5, 16))
  {
    FourDays();
    hide DayNumber;
  }

  lemma FourDays()
    ensures DayNumber(Date(2093, 9, 6)) == 45_174 && DayNumber(Date(2093, 9, 7)) == 45_175
    ensures DayNumber(Date(2163, 5, 15)) == 70_626 && DayNumber(Date(2163, 5, 16)) == 70_627
  {
    hide DayNumber, YearStart, MonthStart;
    ClosedFormCounts(Date(2093, 9, 6));
    NextDayCounts(Date(2093, 9, 6));
    ClosedFormCounts(Date(2163, 5, 15));
    NextDayCounts(Date(2163, 5, 15));
  }
}
