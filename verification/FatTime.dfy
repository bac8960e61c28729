/** FAT time stamps: seconds since 1970 packed into a date and a time of two
    second steps, for the years FAT can hold. */
module FatTime {
  import opened Division
  import opened Calendar

  const FIRST_YEAR := 1980
  const LAST_YEAR := 2107
  const DAY := 86400

  function First(): nat { DaysFromCivil(Date(FIRST_YEAR, 1, 1)) * DAY }
  function Last(): nat { DaysFromCivil(Date(LAST_YEAR, 12, 31)) * DAY + 86399 }

  function Clamped(t: nat): nat { if t < First() then First() else if t > Last() then Last() else t }

  function PackDate(d: Date): int { (d.year - FIRST_YEAR) * 512 + d.month * 32 + d.day }
  function PackTime(seconds: nat): nat { seconds / 3600 * 2048 + seconds / 60 % 60 * 32 + seconds % 60 / 2 }

  /** The packed date and time of a moment. */
  function Stamp(t: nat): (int, nat) {
    var moment := Clamped(t);
    (PackDate(CivilFromDays(moment / DAY)), PackTime(moment % DAY))
  }

  /** The moment of a packed date and time; a date of zero was never set. */
  function EpochSeconds(date: nat, time: nat): nat {
    if date == 0 then 0 else
    var month, day := date / 32 % 16, date % 32;
    var d := Date(FIRST_YEAR + date / 512, if month < 1 then 1 else if month > 12 then 12 else month, if day < 1 then 1
        else day);
    DaysFromCivil(d) * DAY + TimeOfDay(time)
  }

  /** The second of the day a packed time stands for. */
  function TimeOfDay(time: nat): nat { time / 2048 % 32 * 3600 + time / 32 % 64 * 60 + time % 32 * 2 }

  // ----- the range of years

  lemma NewYear(year: nat)
    requires year >= 1970
    ensures Serial(Date(year, 1, 1)) == Through(year - 1) + 306 && Valid(Date(year, 1, 1))
  {
    YearTotal(year - 1);
    hide YearStart, Through;
  }

  lemma BeforeNewYear(d: Date)
    requires Valid(d)
    ensures Serial(d) < Through(d.year) + 306
  {
    DateParts(d);
    var year, m := MarchYear(d), MarchMonth(d.month);
    MonthFound(m, d.day);
    YearTotal(year);
    SerialIs(d, year, MonthStart(m) + d.day - 1);
    LeapAdds(d.year);
    hide YearStart, Through, Serial, Leap;
  }

  /** Days number the years in order. */
  lemma YearOfDay(d: Date, low: nat, high: nat)
    requires Valid(d) && 1970 <= low <= high
    requires Serial(Date(low, 1, 1)) <= Serial(d) < Serial(Date(high + 1, 1, 1))
    ensures low <= d.year <= high
  {
    hide Serial, Valid, Through;
    NewYear(low);
    NewYear(high + 1);
    BeforeNewYear(d);
    AfterNewYear(d);
    if d.year < low { YearGrows(d.year, low - 1); }
    if d.year > high { YearGrows(high, d.year - 1); }
  }

  lemma AfterNewYear(d: Date)
    requires Valid(d)
    ensures Serial(d) >= Through(d.year - 1) + 306 && d.year >= 1970
  {
    DateParts(d);
    var year, m := MarchYear(d), MarchMonth(d.month);
    MonthFound(m, d.day);
    YearTotal(year);
    SerialIs(d, year, MonthStart(m) + d.day - 1);
    LeapAdds(d.year);
    hide YearStart, Through, Serial, Leap;
  }

  const FIRST_DAY := 3652
  const LAST_DAY := 50402

  lemma Bounds()
    ensures DaysFromCivil(Date(FIRST_YEAR, 1, 1)) == FIRST_DAY && DaysFromCivil(Date(LAST_YEAR, 12, 31)) == LAST_DAY
    ensures Serial(Date(FIRST_YEAR, 1, 1)) == FIRST_DAY + EPOCH
    ensures Serial(Date(LAST_YEAR + 1, 1, 1)) == LAST_DAY + 1 + EPOCH
  {
    NewYear(FIRST_YEAR);
    NewYear(LAST_YEAR + 1);
    DaysCount(Date(LAST_YEAR, 12, 31));
    assert Through(FIRST_YEAR - 1) + 306 == FIRST_DAY + EPOCH && Through(LAST_YEAR) + 306 == LAST_DAY + 1 + EPOCH;
    hide Serial, Through, Valid, Word;
    WrapBack(FIRST_DAY);
    WrapBack(LAST_DAY);
  }

  /** A packed time of day unpacks to the even second at or before it. */
  lemma TimeFields(seconds: nat)
    requires seconds < DAY
    ensures var time := PackTime(seconds);
            time < 0x1_0000 && TimeOfDay(time) == seconds - seconds % 2
  {
    Clock(seconds);
    ClockFields(seconds / 3600, seconds / 60 % 60, seconds % 60 / 2);
  }

  lemma Clock(seconds: nat)
    requires seconds < DAY
    ensures var h, m, s := seconds / 3600, seconds / 60 % 60, seconds % 60;
            seconds == 3600 * h + 60 * m + s && h < 24 && m < 60 && s < 60 && seconds % 2 == s % 2
  {
    var minutes := seconds / 60;
    assert seconds == 60 * minutes + seconds % 60;
    assert minutes == 60 * (minutes / 60) + minutes % 60;
    assert seconds == 3600 * (minutes / 60) + (60 * (minutes % 60) + seconds % 60);
    RemainderOf(seconds, minutes / 60, 3600, 60 * (minutes % 60) + seconds % 60);
  }

  lemma ClockFields(h: nat, m: nat, k: nat)
    requires h < 24 && m < 60 && k < 30
    ensures var time := h * 2048 + m * 32 + k;
            time < 0x1_0000 && time % 32 == k && time / 32 % 64 == m && time / 2048 % 32 == h
  {
    var time := h * 2048 + m * 32 + k;
    RemainderOf(time, 64 * h + m, 32, k);
    RemainderOf(64 * h + m, h, 64, m);
    RemainderOf(time, h, 2048, 32 * m + k);
  }

  /** A packed date unpacks to itself, in two bytes and never zero. */
  lemma DateFields(d: Date)
    requires Valid(d) && FIRST_YEAR <= d.year <= LAST_YEAR
    ensures var date := PackDate(d);
            0 < date < 0x1_0000 && date / 512 == d.year - FIRST_YEAR && date / 32 % 16 == d.month && date % 32 == d.day
  {
    assert d.day <= 31;
    hide PackDate;
    Fields(d);
  }

  lemma StampYear(days: nat)
    requires FIRST_DAY <= days <= LAST_DAY
    ensures var d := CivilFromDays(days); Valid(d) && FIRST_YEAR <= d.year <= LAST_YEAR && DaysFromCivil(d) == days
  {
    hide Serial, Valid, CivilOfSerial;
    DaysUndoCivil(days);
    CivilFound(days + EPOCH);
    Bounds();
    YearOfDay(CivilOfSerial(days + EPOCH), FIRST_YEAR, LAST_YEAR);
  }

  /** Packing a moment and unpacking it gives the even second at or before it, for every moment FAT can
      hold; earlier and later ones become the first and the last. */
  lemma StampRoundTrip(t: nat)
    ensures Stamp(t).0 > 0 && Stamp(t).0 < 0x1_0000 && Stamp(t).1 < 0x1_0000
    ensures EpochSeconds(Stamp(t).0, Stamp(t).1) == Clamped(t) - Clamped(t) % 2
  {
    hide Serial, Valid, CivilFromDays, DaysFromCivil, PackTime, PackDate, EpochSeconds, TimeOfDay;
    Bounds();
    var moment := Clamped(t);
    var days, seconds := moment / DAY, moment % DAY;
    DayOfMoment(moment);
    StampYear(days);
    DateFields(CivilFromDays(days));
    TimeFields(seconds);
    Unpacked(CivilFromDays(days), PackTime(seconds));
  }

  // ----- the other way

  /** The fields of a packed date and time, as numbers of the calendar and the clock. */
  function DateFieldsOf(date: nat): Date { Date(FIRST_YEAR + date / 512, date / 32 % 16, date % 32) }

  predicate OfClock(time: nat) { time / 2048 % 32 < 24 && time / 32 % 64 < 60 && time % 32 < 30 }

  predicate Proper(date: nat, time: nat) { Valid(DateFieldsOf(date)) && OfClock(time) }

  /** Unpacking and packing again gives the two words exactly when their fields are a date of the calendar
      and a time of the clock. */
  lemma UnpackRoundTrip(date: nat, time: nat)
    requires date < 0x1_0000 && time < 0x1_0000
    ensures Stamp(EpochSeconds(date, time)) == (date, time) <==> Proper(date, time)
  {
    if Proper(date, time) { ProperReturns(date, time); }
    StampProper(EpochSeconds(date, time));
  }

  /** Every stamp is proper. */
  lemma StampProper(t: nat)
    ensures Stamp(t).0 >= 0 && Proper(Stamp(t).0, Stamp(t).1)
  {
    hide Serial, Valid, CivilFromDays, DaysFromCivil, PackTime, PackDate;
    Bounds();
    var moment := Clamped(t);
    DayOfMoment(moment);
    StampYear(moment / DAY);
    DateFields(CivilFromDays(moment / DAY));
    TimeProper(moment % DAY);
  }

  lemma TimeProper(seconds: nat)
    requires seconds < DAY
    ensures OfClock(PackTime(seconds))
  {
    Clock(seconds);
    ClockFields(seconds / 3600, seconds / 60 % 60, seconds % 60 / 2);
  }

  lemma ProperReturns(date: nat, time: nat)
    requires date < 0x1_0000 && time < 0x1_0000 && Proper(date, time)
    ensures Stamp(EpochSeconds(date, time)) == (date, time)
  {
    hide Valid, DateFieldsOf, OfClock, Stamp, EpochSeconds, PackDate, PackTime, DaysFromCivil, CivilFromDays, TimeOfDay;
    var d := DateFieldsOf(date);
    DateOfFields(date);
    TimeReturns(time);
    DayInRange(d);
    Unpacked(d, time);
    StampOf(DaysFromCivil(d), TimeOfDay(time));
  }

  lemma StampOf(days: nat, seconds: nat)
    requires FIRST_DAY <= days <= LAST_DAY && seconds < DAY
    ensures Stamp(days * DAY + seconds) == (PackDate(CivilFromDays(days)), PackTime(seconds))
  {
    hide CivilFromDays, DaysFromCivil, PackTime, PackDate;
    Bounds();
    RemainderOf(days * DAY + seconds, days, DAY, seconds);
  }

  /** A day of FAT's years has a number in FAT's range, which leads back to it. */
  lemma DayInRange(d: Date)
    requires Valid(d) && FIRST_YEAR <= d.year <= LAST_YEAR
    ensures FIRST_DAY <= DaysFromCivil(d) <= LAST_DAY && CivilFromDays(DaysFromCivil(d)) == d
  {
    hide Serial, Valid, Through, CivilFromDays, Word;
    Bounds();
    NewYear(FIRST_YEAR);
    NewYear(LAST_YEAR + 1);
    BeforeNewYear(d);
    AfterNewYear(d);
    YearGrows(FIRST_YEAR - 1, d.year - 1);
    YearGrows(d.year, LAST_YEAR);
    WrapBack(Serial(d) - EPOCH);
    CivilUndoesDays(d);
  }

  lemma DateOfFields(date: nat)
    requires date < 0x1_0000
    ensures var d := DateFieldsOf(date); PackDate(d) == date && FIRST_YEAR <= d.year <= LAST_YEAR
  {
    assert date / 512 == date / 32 / 16;
  }

  lemma TimeReturns(time: nat)
    requires time < 0x1_0000 && OfClock(time)
    ensures TimeOfDay(time) < DAY && PackTime(TimeOfDay(time)) == time
  {
    var h, m, k := time / 2048, time / 32 % 64, time % 32;
    TimeParts(time);
    var seconds := 3600 * h + 60 * m + 2 * k;
    RemainderOf(seconds, h, 3600, 60 * m + 2 * k);
    RemainderOf(seconds, 60 * h + m, 60, 2 * k);
    RemainderOf(60 * h + m, h, 60, m);
  }

  lemma TimeParts(time: nat)
    requires time < 0x1_0000
    ensures time == time / 2048 * 2048 + time / 32 % 64 * 32 + time % 32 && time / 2048 % 32 == time / 2048
  {
    var q := time / 32;
    assert q == q / 64 * 64 + q % 64;
    RemainderOf(time, q / 64, 2048, q % 64 * 32 + time % 32);
  }

  /** A day past the end of its month, which FAT can hold, is read as one of the next month. */
  lemma OverlongDay(year: nat, month: nat, day: nat, time: nat)
    requires FIRST_YEAR <= year <= LAST_YEAR && 1 <= month < 12 && MonthDays(year, month) < day <= 31
    ensures PackDate(Date(year, month, day)) >= 0 && PackDate(Date(year, month + 1, day - MonthDays(year, month))) >= 0
    ensures EpochSeconds(PackDate(Date(year, month, day)), time) ==
              EpochSeconds(PackDate(Date(year, month + 1, day - MonthDays(year, month))), time)
  {
    var d, next := Date(year, month, day), Date(year, month + 1, day - MonthDays(year, month));
    var last := Date(year, month, MonthDays(year, month));
    DaysCount(last);
    Later(d, last);
    Later(next, Date(year, month + 1, 1));
    Fields(d);
    Fields(next);
    hide Serial, DaysFromCivil, TimeOfDay, PackDate;
    assert DaysFromCivil(d) == DaysFromCivil(next) by { SameSerial(d, next); }
  }

  lemma SameSerial(d: Date, e: Date)
    requires Serial(d) == Serial(e)
    ensures DaysFromCivil(d) == DaysFromCivil(e)
  {
  }

  lemma Later(d: Date, e: Date)
    requires d.year == e.year && d.month == e.month
    ensures Serial(d) - d.day == Serial(e) - e.day
  {
  }

  lemma Fields(d: Date)
    requires FIRST_YEAR <= d.year <= LAST_YEAR && 1 <= d.month <= 12 && 1 <= d.day <= 31
    ensures 0 < PackDate(d) < 0x1_0000 && DateFieldsOf(PackDate(d)) == d
  {
    var date, year := PackDate(d), d.year - FIRST_YEAR;
    RemainderOf(date, 16 * year + d.month, 32, d.day);
    RemainderOf(16 * year + d.month, year, 16, d.month);
    RemainderOf(date, year, 512, 32 * d.month + d.day);
  }

  /** A moment inside FAT's years, by day and second. */
  lemma DayOfMoment(moment: nat)
    requires FIRST_DAY * DAY <= moment <= LAST_DAY * DAY + 86399
    ensures FIRST_DAY <= moment / DAY <= LAST_DAY && moment % DAY < DAY
    ensures moment == moment / DAY * DAY + moment % DAY && moment % 2 == moment % DAY % 2
  {
    var days, seconds := moment / DAY, moment % DAY;
    assert moment == days * DAY + seconds;
    RemainderOf(moment, days * (DAY / 2) + seconds / 2, 2, seconds % 2);
  }

  lemma Unpacked(d: Date, time: nat)
    requires Valid(d) && FIRST_YEAR <= d.year <= LAST_YEAR
    ensures PackDate(d) > 0 && EpochSeconds(PackDate(d), time) == DaysFromCivil(d) * DAY + TimeOfDay(time)
  {
    DateFields(d);
    DateRange(d);
    hide DaysFromCivil, TimeOfDay, PackDate, Valid;
  }

  lemma DateRange(d: Date)
    requires Valid(d)
    ensures 1 <= d.month <= 12 && 1 <= d.day
  {
  }
}
