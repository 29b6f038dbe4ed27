/** Seconds since 1970-01-01 00:00:00 and the six-field time they stand for:
    `BreakTime` and `fromUtcTime`. */
module CivilTime {
  import opened CppInt
  import opened Date

  /** A minute always has 60 seconds; there are no leap seconds. */
  datatype DateTime = DateTime(year: int, month: int, day: int, hour: int, minute: int, second: int) {
    function CivilDay(): YearMonthDay {
      YearMonthDay(year, month, day)
    }

    function SecondsInDay(): int {
      hour * 3600 + minute * 60 + second
    }

    predicate Valid() {
      IsDate(CivilDay()) && 0 <= hour <= 23 && 0 <= minute <= 59 && 0 <= second <= 59
    }
  }

  const SECONDS_PER_DAY := 24 * 60 * 60

  /** Midnight of 1 March -4800. */
  const FIRST_SECOND := (FIRST_DAY - JULIAN_DAY_OF_1970_01_01) * SECONDS_PER_DAY
  /** The last second of the last day whose decoding stays within an `int`. */
  const LAST_SECOND := (LAST_DAY + 1 - JULIAN_DAY_OF_1970_01_01) * SECONDS_PER_DAY - 1

  /** Splits a count of seconds since midnight. */
  function FillHMS(seconds: int, date: YearMonthDay): DateTime
    requires 0 <= seconds
  {
    var minutes := seconds / 60;
    DateTime(date.year, date.month, date.day, minutes / 60, minutes % 60, seconds % 60)
  }

  /** The day and the second of that day, from a division that truncates toward zero. */
  function SplitDay(t: int): (r: (int, int))
    ensures t == r.0 * SECONDS_PER_DAY + r.1 && 0 <= r.1 < SECONDS_PER_DAY
  {
    var seconds := Rem(t, SECONDS_PER_DAY);
    var days := Quot(t, SECONDS_PER_DAY);
    if seconds < 0 then (days - 1, seconds + SECONDS_PER_DAY) else (days, seconds)
  }

  function BreakTime(t: int): DateTime {
    var (days, seconds) := SplitDay(t);
    FillHMS(seconds, GetYearMonthDay(days + JULIAN_DAY_OF_1970_01_01))
  }

  function FromUtcTime(dt: DateTime): int {
    var days := GetJulianDayNumber(dt.year, dt.month, dt.day) - JULIAN_DAY_OF_1970_01_01;
    days * SECONDS_PER_DAY + dt.SecondsInDay()
  }

  // ---------- Both directions ----------

  lemma UnixEpoch()
    ensures JULIAN_DAY_OF_1970_01_01 == 2440588 == DayNumber(YearMonthDay(1970, 1, 1))
  {
  }

  lemma FillHMSSplits(seconds: int, date: YearMonthDay)
    requires 0 <= seconds < SECONDS_PER_DAY
    ensures FillHMS(seconds, date).SecondsInDay() == seconds
    ensures FillHMS(seconds, date).CivilDay() == date
    ensures FillHMS(seconds, date).Valid() <==> IsDate(date)
  {
  }

  lemma FillHMSUnique(dt: DateTime)
    requires dt.Valid()
    ensures 0 <= dt.SecondsInDay() < SECONDS_PER_DAY
    ensures FillHMS(dt.SecondsInDay(), dt.CivilDay()) == dt
  {
  }

  lemma SplitDayUnique(t: int, days: int, seconds: int)
    requires t == days * SECONDS_PER_DAY + seconds && 0 <= seconds < SECONDS_PER_DAY
    ensures SplitDay(t) == (days, seconds)
  {
  }

  /** `BreakTime` on a day and second already apart. */
  lemma BreakTimeOfDay(days: int, seconds: int)
    requires 0 <= seconds < SECONDS_PER_DAY
    ensures BreakTime(days * SECONDS_PER_DAY + seconds)
            == FillHMS(seconds, GetYearMonthDay(days + JULIAN_DAY_OF_1970_01_01))
  {
    hide GetYearMonthDay, GetJulianDayNumber;
    UnixEpoch();
    SplitDayUnique(days * SECONDS_PER_DAY + seconds, days, seconds);
  }

  lemma FromUtcTimeOfDay(seconds: int, date: YearMonthDay)
    requires 0 <= seconds < SECONDS_PER_DAY
    ensures FromUtcTime(FillHMS(seconds, date)) == (DayNumber(date) - JULIAN_DAY_OF_1970_01_01) * SECONDS_PER_DAY + seconds
  {
    hide GetYearMonthDay, GetJulianDayNumber;
    UnixEpoch();
    FillHMSSplits(seconds, date);
  }

  /** Each second from midnight of 1 March -4800 on breaks into fields within
      their ranges, and no earlier second does. */
  lemma BreakTimeIsValid(t: int)
    ensures BreakTime(t).Valid() <==> t >= FIRST_SECOND
  {
    hide GetYearMonthDay, GetJulianDayNumber;
    var (days, seconds) := SplitDay(t);
    BreakTimeOfDay(days, seconds);
    FillHMSSplits(seconds, GetYearMonthDay(days + JULIAN_DAY_OF_1970_01_01));
    DecodeIsValid(days + JULIAN_DAY_OF_1970_01_01);
  }

  /** Breaking a second and putting it back together changes nothing; the
      seconds before 1970 are included. */
  lemma FromUtcTimeOfBreakTime(t: int)
    requires t >= FIRST_SECOND
    ensures FromUtcTime(BreakTime(t)) == t
  {
    hide GetYearMonthDay, GetJulianDayNumber;
    var (days, seconds) := SplitDay(t);
    BreakTimeOfDay(days, seconds);
    EncodeDecode(days + JULIAN_DAY_OF_1970_01_01);
    FromUtcTimeOfDay(seconds, GetYearMonthDay(days + JULIAN_DAY_OF_1970_01_01));
  }

  /** A valid time comes back unchanged exactly from 1 March -4800 on. */
  lemma BreakTimeOfFromUtcTime(dt: DateTime)
    requires dt.Valid()
    ensures BreakTime(FromUtcTime(dt)) == dt <==> SinceEpoch(dt.CivilDay())
  {
    hide GetYearMonthDay, GetJulianDayNumber;
    var date, seconds := dt.CivilDay(), dt.SecondsInDay();
    FillHMSUnique(dt);
    FromUtcTimeOfDay(seconds, date);
    BreakTimeOfDay(DayNumber(date) - JULIAN_DAY_OF_1970_01_01, seconds);
    FillHMSSplits(seconds, GetYearMonthDay(DayNumber(date)));
    DecodeEncode(date);
  }

  /** Lexicographic order on the six fields. */
  predicate Earlier(p: DateTime, q: DateTime) {
    Before(p.CivilDay(), q.CivilDay())
    || (p.CivilDay() == q.CivilDay()
        && (p.hour < q.hour
            || (p.hour == q.hour
                && (p.minute < q.minute || (p.minute == q.minute && p.second < q.second)))))
  }

  lemma FromUtcTimeOrder(p: DateTime, q: DateTime)
    requires p.Valid() && q.Valid() && SinceEpoch(p.CivilDay()) && SinceEpoch(q.CivilDay())
    ensures Earlier(p, q) <==> FromUtcTime(p) < FromUtcTime(q)
  {
    Assembled(p);
    Assembled(q);
    EncodeOrder(p.CivilDay(), q.CivilDay());
    SameDayOrder(p, q);
    hide FromUtcTime, DayNumber, Before;
    DaySecondOrder(DayNumber(p.CivilDay()), p.SecondsInDay(), DayNumber(q.CivilDay()), q.SecondsInDay());
  }

  lemma Assembled(dt: DateTime)
    requires dt.Valid()
    ensures 0 <= dt.SecondsInDay() < SECONDS_PER_DAY
    ensures FromUtcTime(dt) == (DayNumber(dt.CivilDay()) - JULIAN_DAY_OF_1970_01_01) * SECONDS_PER_DAY + dt.SecondsInDay()
  {
    hide GetYearMonthDay, GetJulianDayNumber;
    FillHMSUnique(dt);
    FromUtcTimeOfDay(dt.SecondsInDay(), dt.CivilDay());
  }

  lemma DaySecondOrder(m: int, s: int, n: int, t: int)
    requires 0 <= s < SECONDS_PER_DAY && 0 <= t < SECONDS_PER_DAY
    ensures (m - JULIAN_DAY_OF_1970_01_01) * SECONDS_PER_DAY + s < (n - JULIAN_DAY_OF_1970_01_01) * SECONDS_PER_DAY + t
            <==> m < n || (m == n && s < t)
  {
  }

  lemma SameDayOrder(p: DateTime, q: DateTime)
    requires p.Valid() && q.Valid()
    ensures p.SecondsInDay() < q.SecondsInDay()
            <==> p.hour < q.hour
                 || (p.hour == q.hour
                     && (p.minute < q.minute || (p.minute == q.minute && p.second < q.second)))
  {
  }

  /** Later seconds break into later times, and only they do. */
  lemma BreakTimeOrder(s: int, t: int)
    requires s >= FIRST_SECOND && t >= FIRST_SECOND
    ensures Earlier(BreakTime(s), BreakTime(t)) <==> s < t
  {
    hide GetYearMonthDay, GetJulianDayNumber;
    BreakTimeRoundTrips(s);
    BreakTimeRoundTrips(t);
    FromUtcTimeOrder(BreakTime(s), BreakTime(t));
  }

  lemma BreakTimeRoundTrips(t: int)
    requires t >= FIRST_SECOND
    ensures BreakTime(t).Valid() && SinceEpoch(BreakTime(t).CivilDay())
    ensures FromUtcTime(BreakTime(t)) == t
  {
    hide GetYearMonthDay, GetJulianDayNumber;
    BreakTimeIsValid(t);
    FromUtcTimeOfBreakTime(t);
    BreakTimeOfFromUtcTime(BreakTime(t));
  }

  // ---------- Second by second ----------

  /** The clock ticks on, and the calendar at midnight. */
  function NextSecond(dt: DateTime): DateTime
    requires dt.Valid()
  {
    if dt.second < 59 then dt.(second := dt.second + 1)
    else if dt.minute < 59 then dt.(minute := dt.minute + 1, second := 0)
    else if dt.hour < 23 then dt.(hour := dt.hour + 1, minute := 0, second := 0)
    else
      var next := NextDay(dt.CivilDay());
      DateTime(next.year, next.month, next.day, 0, 0, 0)
  }

  lemma FromUtcTimeCountsUp(dt: DateTime)
    requires dt.Valid() && SinceEpoch(dt.CivilDay())
    ensures NextSecond(dt).Valid() && SinceEpoch(NextSecond(dt).CivilDay())
    ensures FromUtcTime(NextSecond(dt)) == FromUtcTime(dt) + 1
  {
    hide FromUtcTime, GetJulianDayNumber, DayNumber, IsDate, NextDay;
    NextDayIsDate(dt.CivilDay());
    NextDayNumber(dt.CivilDay());
    Assembled(dt);
    Assembled(NextSecond(dt));
  }

  lemma BreakTimeOfZero()
    ensures BreakTime(0) == DateTime(1970, 1, 1, 0, 0, 0)
  {
    hide GetJulianDayNumber, GetYearMonthDay, BreakTime, DayNumber, IsDate;
    EpochDay();
    BreakTimeOfDay(0, 0);
  }

  lemma EpochDay()
    ensures GetYearMonthDay(JULIAN_DAY_OF_1970_01_01) == YearMonthDay(1970, 1, 1)
  {
    hide GetYearMonthDay;
    UnixEpoch();
    DecodeEncode(YearMonthDay(1970, 1, 1));
  }

  /** Second 0 is midnight of 1 January 1970, and the second after one breaks into
      the time after its time. */
  lemma BreakTimeCountsUp(t: int)
    requires t >= FIRST_SECOND
    ensures BreakTime(0) == DateTime(1970, 1, 1, 0, 0, 0)
    ensures BreakTime(t).Valid() && BreakTime(t + 1) == NextSecond(BreakTime(t))
  {
    hide GetJulianDayNumber, GetYearMonthDay, BreakTime, NextSecond, FromUtcTime;
    BreakTimeOfZero();
    BreakTimeRoundTrips(t);
    FromUtcTimeCountsUp(BreakTime(t));
    BreakTimeOfFromUtcTime(NextSecond(BreakTime(t)));
  }

  /** The casts to `int` in `BreakTime` lose nothing up to LAST_SECOND. */
  lemma BreakTimeFitsInt(t: int)
    requires FIRST_SECOND <= t <= LAST_SECOND
    ensures FitsInt(Rem(t, SECONDS_PER_DAY)) && FitsInt(Quot(t, SECONDS_PER_DAY) - 1)
    ensures FIRST_DAY <= SplitDay(t).0 + JULIAN_DAY_OF_1970_01_01 <= LAST_DAY
  {
    UnixEpoch();
    RemSign(t, SECONDS_PER_DAY);
  }
}
