/** Dates and day numbers: the arithmetic conversions against the Gregorian
    calendar itself, and the packed time stamps of FAT. */
module Calendar {
  import opened Division

  const WORD := 0x1_0000_0000

  /** A 32-bit value. */
  function Word(x: int): nat { x % WORD }

  datatype Date = Date(year: nat, month: nat, day: nat)

  // ----- the calendar

  predicate Leap(year: nat) { year % 4 == 0 && (year % 100 != 0 || year % 400 == 0) }

  function MonthDays(year: nat, month: nat): nat {
    if month == 2 then (if Leap(year) then 29 else 28)
    else if month == 4 || month == 6 || month == 9 || month == 11 then 30 else 31
  }

  predicate Valid(d: Date) { d.year >= 1970 && 1 <= d.month <= 12 && 1 <= d.day <= MonthDays(d.year, d.month) }

  function Tomorrow(d: Date): Date {
    if d.day < MonthDays(d.year, d.month) then d.(day := d.day + 1)
    else if d.month < 12 then Date(d.year, d.month + 1, 1)
    else Date(d.year + 1, 1, 1)
  }

  // ----- the conversions

  const EPOCH := 719468
  const ERA := 146097

  /** Years begin in March. */
  function MarchYear(d: Date): int { if d.month <= 2 then d.year - 1 else d.year }
  function MarchMonth(month: nat): int { if month > 2 then month - 3 else month + 9 }

  /** Days before a month of a year that begins in March. */
  function MonthStart(m: int): int { (153 * m + 2) / 5 }

  /** Days before year `y` of an era of 400 years. */
  function YearStart(y: int): int { y * 365 + y / 4 - y / 100 }

  /** The day counted from the first of March of year 0, before any 32-bit wrap. */
  function Serial(d: Date): int {
    var year := MarchYear(d);
    year / 400 * ERA + YearStart(year % 400) + MonthStart(MarchMonth(d.month)) + d.day - 1
  }

  function DaysFromCivil(d: Date): nat { Word(Serial(d) - EPOCH) }

  /** The year of the era that a day of the era falls in. */
  function YearOfEra(day: int): int { (day - day / 1460 + day / 36524 - day / 146096) / 365 }

  function CivilOfSerial(shifted: nat): Date {
    var era, dayOfEra := shifted / ERA, shifted % ERA;
    var year := YearOfEra(dayOfEra);
    var dayOfYear := dayOfEra - YearStart(year);
    var m := (5 * dayOfYear + 2) / 153;
    var month := if m < 10 then m + 3 else m - 9;
    var y := year + era * 400 + if month <= 2 then 1 else 0;
    var day := dayOfYear - MonthStart(m) + 1;
    Date(if y >= 0 then y else 0, if month >= 0 then month else 0, if day >= 0 then day else 0)
  }

  function CivilFromDays(days: nat): Date { CivilOfSerial(Word(days + EPOCH)) }

  // ----- the year

  /** Year `y` of an era has a day `r`: 366 days when the calendar year it ends in is a leap year. */
  predicate DayOfYear(y: int, r: int) {
    0 <= y < 400 && 0 <= r <= 365 && (r == 365 ==> y % 4 == 3 && (y % 100 != 99 || y == 399))
  }

  /** A year split by centuries, groups of four and the rest. */
  lemma YearParts(y: int)
    requires 0 <= y < 400
    ensures var c, q, s := y / 100, y % 100 / 4, y % 4;
            0 <= c < 4 && 0 <= q < 25 && 0 <= s < 4 && y == 100 * c + 4 * q + s && y / 4 == 25 * c + q
  {
  }

  /** The divisions find the year back. */
  lemma YearFound(y: int, r: int)
    requires DayOfYear(y, r)
    ensures YearOfEra(YearStart(y) + r) == y && 0 <= YearStart(y) + r < ERA
  {
    YearParts(y);
    var c, q, s := y / 100, y % 100 / 4, y % 4;
    PartsFound(c, q, s, r);
  }

  lemma PartsFound(c: int, q: int, s: int, r: int)
    requires 0 <= c < 4 && 0 <= q < 25 && 0 <= s < 4 && 0 <= r <= 365 && (r == 365 ==> s == 3 && (q < 24 || c == 3))
    ensures var day := 36524 * c + 1461 * q + 365 * s + r;
            0 <= day < ERA && YearOfEra(day) == 100 * c + 4 * q + s
  {
    var day := 36524 * c + 1461 * q + 365 * s + r;
    var rest := 24 * c + q + 365 * s + r;
    var e, f := if rest >= 1460 then 1 else 0, if day == 146096 then 1 else 0;
    assert day == 1460 * (25 * c + q + e) + (rest - 1460 * e) && 0 <= rest - 1460 * e < 1460;
    assert day == 36524 * (c + f) + (1461 * q + 365 * s + r - 36524 * f)
             && 0 <= 1461 * q + 365 * s + r - 36524 * f < 36524;
    assert day / 1460 == 25 * c + q + e;
    assert day / 36524 == c + f;
    assert day / 146096 == f;
    assert day - day / 1460 + day / 36524 - day / 146096 == 365 * (100 * c + 4 * q + s) + (r - e);
  }

  /** Every day of an era is a day of one of its years. */
  lemma YearExists(day: int) returns (y: int, r: int)
    requires 0 <= day < ERA
    ensures DayOfYear(y, r) && day == YearStart(y) + r
  {
    var c := if day / 36524 < 4 then day / 36524 else 3;
    var inCentury := day - 36524 * c;
    var q := inCentury / 1461;
    var inFour := inCentury - 1461 * q;
    var s := if inFour / 365 < 4 then inFour / 365 else 3;
    y, r := 100 * c + 4 * q + s, inFour - 365 * s;
    assert 0 <= q < 25 && 0 <= inFour < 1461;
    assert y / 100 == c && y / 4 == 25 * c + q && y % 4 == s && y % 100 == 4 * q + s;
  }

  // ----- the month

  /** Days from a March month's start to the next. */
  function MarchMonthDays(m: int): int { MonthStart(m + 1) - MonthStart(m) }

  lemma MonthFound(m: int, day: int)
    requires 0 <= m < 12 && 1 <= day <= (if m == 11 then 29 else MarchMonthDays(m))
    ensures var r := MonthStart(m) + day - 1; 0 <= r <= 365 && (5 * r + 2) / 153 == m && (r == 365 <==>
                m == 11 && day == 29)
  {
    if m == 0 {} else if m == 1 {} else if m == 2 {} else if m == 3 {} else if m == 4 {} else if m == 5 {}
    else if m == 6 {} else if m == 7 {} else if m == 8 {} else if m == 9 {} else if m == 10 {} else {}
  }

  lemma MonthExists(r: int)
    requires 0 <= r <= 365
    ensures var m := (5 * r + 2) / 153;
            0 <= m < 12 && 1 <= r - MonthStart(m) + 1 <= (if m == 11 then 29
                else MarchMonthDays(m)) && (m == 11 && r - MonthStart(m) + 1 == 29 <==> r == 365)
  {
    var m := (5 * r + 2) / 153;
    if m == 0 {} else if m == 1 {} else if m == 2 {} else if m == 3 {} else if m == 4 {} else if m == 5 {}
    else if m == 6 {} else if m == 7 {} else if m == 8 {} else if m == 9 {} else if m == 10 {} else {}
  }

  /** Month lengths of the two countings agree, but for February. */
  lemma MonthLengths(year: nat, month: nat)
    requires 1 <= month <= 12 && month != 2
    ensures MonthDays(year, month) == MarchMonthDays(MarchMonth(month)) && 0 <= MarchMonth(month) < 11
  {
  }

  // ----- dates and serials

  /** A valid date has a place in its March year. */
  lemma DateParts(d: Date)
    requires Valid(d)
    ensures var m := MarchMonth(d.month);
            && 0 <= m < 12 && 1 <= d.day <= (if m == 11 then 29 else MarchMonthDays(m))
            && DayOfYear(MarchYear(d) % 400, MonthStart(m) + d.day - 1)
  {
    var m := MarchMonth(d.month);
    if d.month != 2 { MonthLengths(d.year, d.month); }
    MonthFound(m, d.day);
    if m == 11 && d.day == 29 { LeapParts(d.year); }
  }

  lemma LeapParts(year: nat)
    requires year >= 1
    ensures var y := (year - 1) % 400; Leap(year) <==> y % 4 == 3 && (y % 100 != 99 || y == 399)
  {
    var y := (year - 1) % 400;
    var e := (year - 1) / 400;
    assert year == 400 * e + y + 1;
    RemainderOf(year, 100 * e + (y + 1) / 4, 4, (y + 1) % 4);
    RemainderOf(year, 4 * e + (y + 1) / 100, 100, (y + 1) % 100);
    RemainderOf(year, e + (y + 1) / 400, 400, (y + 1) % 400);
    NextRemainders(y);
  }

  lemma NextRemainders(y: nat)
    requires y < 400
    ensures ((y + 1) % 4 == 0 <==> y % 4 == 3) && ((y + 1) % 100 == 0 <==> y % 100 == 99)
    ensures ((y + 1) % 400 == 0 <==> y == 399)
  {
  }

  /** The date of day `r` of March year `year`. */
  function DateOf(year: int, r: int): Date
    requires year >= 0 && 0 <= r <= 365
  {
    MonthExists(r);
    var m := (5 * r + 2) / 153;
    Date(year + (if m < 10 then 0 else 1), if m < 10 then m + 3 else m - 9, r - MonthStart(m) + 1)
  }

  lemma CivilIs(shifted: nat, era: nat, y: int, r: int)
    requires DayOfYear(y, r) && shifted == era * ERA + YearStart(y) + r
    ensures CivilOfSerial(shifted) == DateOf(era * 400 + y, r)
  {
    YearFound(y, r);
    Split(shifted, era, YearStart(y) + r);
    MonthExists(r);
    hide YearStart, YearOfEra, MonthStart;
  }

  lemma SerialIs(d: Date, year: int, r: int)
    requires MarchYear(d) == year && r == MonthStart(MarchMonth(d.month)) + d.day - 1
    ensures Serial(d) == year / 400 * ERA + YearStart(year % 400) + r
  {
  }

  /** The serial of a valid date leads back to it. */
  lemma SerialFound(d: Date)
    requires Valid(d)
    ensures Serial(d) >= EPOCH && CivilOfSerial(Serial(d)) == d
  {
    hide YearStart, CivilOfSerial, MonthStart, Valid, DateOf, Serial, DayOfYear;
    var year, r := MarchYear(d), MonthStart(MarchMonth(d.month)) + d.day - 1;
    DateParts(d);
    AfterEpoch(d);
    FirstYear(d);
    DateOfParts(d);
    SerialIs(d, year, r);
    CivilIs(Serial(d), year / 400, year % 400, r);
    assert year / 400 * 400 + year % 400 == year;
  }

  lemma FirstYear(d: Date)
    requires Valid(d)
    ensures MarchYear(d) >= 1969
  {
  }

  lemma DateOfParts(d: Date)
    requires Valid(d)
    ensures var r := MonthStart(MarchMonth(d.month)) + d.day - 1; 0 <= r <= 365 && DateOf(MarchYear(d), r) == d
  {
    DateParts(d);
    MonthFound(MarchMonth(d.month), d.day);
    hide MonthStart, Valid;
  }

  lemma Split(serial: int, era: int, day: int)
    requires serial == era * ERA + day && 0 <= day < ERA
    ensures serial / ERA == era && serial % ERA == day
  {
  }

  lemma AfterEpoch(d: Date)
    requires Valid(d)
    ensures Serial(d) >= EPOCH
  {
    DateParts(d);
    MonthFound(MarchMonth(d.month), d.day);
    var year := MarchYear(d);
    YearTotal(year);
    if year >= 1970 { YearGrows(1970, year); }
    YearTotal(1970);
  }

  /** Days before year `y`, counted through from year 0. */
  function Through(y: int): int { 365 * y + y / 4 - y / 100 + y / 400 }

  lemma YearTotal(y: int)
    requires y >= 0
    ensures y / 400 * ERA + YearStart(y % 400) == Through(y)
  {
    var e, z := y / 400, y % 400;
    assert y == 400 * e + z;
    assert y / 4 == 100 * e + z / 4 && y / 100 == 4 * e + z / 100;
  }

  lemma YearGrows(a: int, b: int)
    requires 0 <= a <= b
    ensures Through(a) <= Through(b)
  {
    assert a / 100 <= b / 100 && a / 400 <= b / 400;
    assert b / 100 - a / 100 <= b - a + 1;
    if b - a >= 1 { assert b / 100 - a / 100 <= (b - a) / 100 + 1; }
  }

  /** From the epoch on, a serial is a valid date, and leads back. */
  lemma CivilFound(shifted: nat)
    requires shifted >= EPOCH
    ensures Valid(CivilOfSerial(shifted)) && Serial(CivilOfSerial(shifted)) == shifted
  {
    var era := shifted / ERA;
    var y, r := YearExists(shifted % ERA);
    CivilIs(shifted, era, y, r);
    var year := era * 400 + y;
    assert year / 400 == era && year % 400 == y;
    YearTotal(year);
    FromEpoch(year, r);
    DateOfValid(year, r);
  }

  lemma FromEpoch(year: int, r: int)
    requires year >= 0 && 0 <= r <= 365 && Through(year) + r >= EPOCH
    ensures year > 1969 || (year == 1969 && r >= 306)
  {
    if year < 1969 { YearGrows(year, 1968); }
  }

  lemma DateOfValid(year: int, r: int)
    requires DayOfYear(year % 400, r) && (year > 1969 || (year == 1969 && r >= 306))
    ensures Valid(DateOf(year, r)) && MarchYear(DateOf(year, r)) == year
    ensures MonthStart(MarchMonth(DateOf(year, r).month)) + DateOf(year, r).day - 1 == r
  {
    MonthExists(r);
    var d, m := DateOf(year, r), (5 * r + 2) / 153;
    assert MarchMonth(d.month) == m;
    if m == 11 { LeapParts(d.year); } else { MonthLengths(d.year, d.month); }
  }

  // ----- the results

  /** Converting a date to a day number and back gives the date, exactly while the day count from
      year 0 fits 32 bits. */
  lemma CivilUndoesDays(d: Date)
    requires Valid(d)
    ensures CivilFromDays(DaysFromCivil(d)) == d <==> Serial(d) < WORD
  {
    hide Serial, CivilOfSerial, Valid, Word;
    SerialFound(d);
    var shifted := Word(Serial(d));
    WrapBack(Serial(d));
    if Serial(d) >= WORD && CivilOfSerial(shifted) == d {
      SerialOfCivil(shifted);
    }
  }

  /** Every day counted from year 0 leads back from its date, also before 1970. */
  lemma SerialOfCivil(shifted: nat)
    ensures Serial(CivilOfSerial(shifted)) == shifted
  {
    hide YearStart, CivilOfSerial, MonthStart, Valid, DateOf, Serial, DayOfYear, MarchYear, MarchMonth;
    var era := shifted / ERA;
    var y, r := YearExists(shifted % ERA);
    InYear(y, r);
    CivilIs(shifted, era, y, r);
    var year := era * 400 + y;
    assert year / 400 == era && year % 400 == y;
    OfParts(year, r);
    SerialIs(CivilOfSerial(shifted), year, r);
  }

  lemma InYear(y: int, r: int)
    requires DayOfYear(y, r)
    ensures 0 <= y < 400 && 0 <= r <= 365
  {
  }

  lemma OfParts(year: int, r: int)
    requires year >= 0 && 0 <= r <= 365
    ensures MarchYear(DateOf(year, r)) == year
    ensures MonthStart(MarchMonth(DateOf(year, r).month)) + DateOf(year, r).day - 1 == r
  {
    MonthExists(r);
    hide MonthStart;
  }

  /** Converting any 32-bit day number to a date and back gives the number. The date is one from 1970 on
      exactly when the shift by the epoch does not wrap. */
  lemma DaysUndoCivil(days: nat)
    requires days < WORD
    ensures DaysFromCivil(CivilFromDays(days)) == days
    ensures Valid(CivilFromDays(days)) <==> days + EPOCH < WORD
  {
    var shifted := Word(days + EPOCH);
    ShiftedBack(days);
    hide Serial, CivilOfSerial, Valid, Word;
    SerialOfCivil(shifted);
    if days + EPOCH < WORD {
      CivilFound(shifted);
    } else if Valid(CivilOfSerial(shifted)) {
      SerialFound(CivilOfSerial(shifted));
    }
  }

  lemma ShiftedBack(days: nat)
    requires days < WORD
    ensures Word(Word(days + EPOCH) - EPOCH) == days
    ensures Word(days + EPOCH) == if days + EPOCH < WORD then days + EPOCH else days + EPOCH - WORD
  {
    var carry := if days + EPOCH < WORD then 0 else 1;
    RemainderOf(days + EPOCH, carry, WORD, days + EPOCH - carry * WORD);
    RemainderOf(days - carry * WORD, -carry, WORD, days);
  }

  /** The shift by the epoch undoes itself in 32 bits. */
  lemma WrapBack(x: nat)
    ensures Word(x) < WORD && (x < WORD <==> Word(x) == x)
    ensures x >= EPOCH ==> Word(Word(x - EPOCH) + EPOCH) == Word(x)
  {
    if x >= EPOCH {
      var w := Word(x - EPOCH);
      var v := Word(w + EPOCH);
      assert x == ((x - EPOCH) / WORD + (w + EPOCH) / WORD) * WORD + v;
      RemainderOf(x, (x - EPOCH) / WORD + (w + EPOCH) / WORD, WORD, v);
    }
  }

  /** Day 0 is the first of January 1970, and each next day has the next number. */
  lemma DaysCount(d: Date)
    requires Valid(d)
    ensures DaysFromCivil(Date(1970, 1, 1)) == 0 && Valid(Tomorrow(d))
    ensures Serial(Tomorrow(d)) == Serial(d) + 1
  {
    if d.day == MonthDays(d.year, d.month) {
      if d.month == 2 {
        EndOfFebruary(d);
      } else {
        MonthLengths(d.year, d.month);
        hide YearStart, Leap;
      }
    }
  }

  lemma EndOfFebruary(d: Date)
    requires Valid(d) && d.month == 2 && d.day == MonthDays(d.year, 2)
    ensures Serial(Date(d.year, 3, 1)) == Serial(d) + 1
  {
    YearTotal(d.year - 1);
    YearTotal(d.year);
    LeapAdds(d.year);
    SerialIs(d, d.year - 1, MonthStart(11) + d.day - 1);
    SerialIs(Date(d.year, 3, 1), d.year, 0);
    hide YearStart, Leap, Through, Serial;
  }

  lemma LeapAdds(year: nat)
    requires year >= 1
    ensures Through(year) == Through(year - 1) + 365 + if Leap(year) then 1 else 0
  {
    Quotients4(year);
    Quotients100(year);
    Quotients400(year);
    Multiples(year);
  }

  lemma Multiples(year: nat)
    ensures year % 400 == 0 ==> year % 100 == 0
    ensures year % 100 == 0 ==> year % 4 == 0
  {
    if year % 400 == 0 { RemainderOf(year, 4 * (year / 400), 100, 0); }
    if year % 100 == 0 { RemainderOf(year, 25 * (year / 100), 4, 0); }
  }

  lemma Quotients4(y: nat)
    requires y >= 1
    ensures y / 4 == (y - 1) / 4 + if y % 4 == 0 then 1 else 0
  {
  }

  lemma Quotients100(y: nat)
    requires y >= 1
    ensures y / 100 == (y - 1) / 100 + if y % 100 == 0 then 1 else 0
  {
  }

  lemma Quotients400(y: nat)
    requires y >= 1
    ensures y / 400 == (y - 1) / 400 + if y % 400 == 0 then 1 else 0
  {
  }
}
