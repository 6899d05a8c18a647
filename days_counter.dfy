/** The anniversary countdown (`components/DaysCounter.tsx`). Instants are
    local milliseconds counted from the first day of the calendar, so a local
    midnight is a multiple of `MsPerDay`; the year of `now` (`getFullYear`) is
    passed in together with `now`. */
module DaysCounter {
  import opened Text
  import opened Calendar

  const SecondsPerDay: nat := 24 * 60 * 60
  const SecondsPerHour: nat := 60 * 60

  /** `now` lies in year `year`. */
  predicate InYear(now: int, year: int) {
    DaysBeforeYear(year) * MsPerDay <= now < DaysBeforeYear(year + 1) * MsPerDay
  }

  /** Local midnight of the anniversary's month and day in year `year`
      (`new Date(year, month, day)`, which rolls 29 February over to 1 March
      in a common year). */
  function MidnightIn(year: int, anniversary: Date): int
    requires 1 <= anniversary.month <= 12
  {
    DayNumber(year, anniversary.month, anniversary.day) * MsPerDay
  }

  /** `getNextAnniversary`: this year's date unless it is before now, else next year's. */
  function NextAnniversary(now: int, year: int, anniversary: Date): int
    requires 1 <= anniversary.month <= 12
  {
    var thisYear := MidnightIn(year, anniversary);
    if thisYear < now then MidnightIn(year + 1, anniversary) else thisYear
  }

  /** The next anniversary is never before now, and is this year's whenever
      that is not. */
  lemma NextAnniversaryNotBefore(now: int, year: int, anniversary: Date)
    requires ValidDate(anniversary) && InYear(now, year)
    ensures NextAnniversary(now, year, anniversary) >= now
    ensures MidnightIn(year, anniversary) >= now ==>
              NextAnniversary(now, year, anniversary) == MidnightIn(year, anniversary)
  {
    var m, d := anniversary.month, anniversary.day;
    assert DayNumber(year + 1, m, d) >= DaysBeforeYear(year + 1);
    assert DayNumber(year + 1, m, d) * MsPerDay >= DaysBeforeYear(year + 1) * MsPerDay;
  }

  /** `Math.max(0, Math.floor((next - now) / 1000))`; with a positive divisor
      Dafny's `/` is the floor. */
  function TotalSeconds(next: int, now: int): (r: nat)
    ensures next - now < 1000 ==> r == 0
  {
    if (next - now) / 1000 < 0 then 0 else (next - now) / 1000
  }

  /** Whole seconds are exactly the remaining time rounded down. */
  lemma TotalSecondsBounds(next: int, now: int)
    requires next >= now
    ensures TotalSeconds(next, now) * 1000 <= next - now < (TotalSeconds(next, now) + 1) * 1000
  {
  }

  datatype Countdown = Countdown(days: nat, hours: nat, minutes: nat, seconds: nat)

  /** The split shown in the four boxes. */
  function Split(total: nat): Countdown {
    Countdown(total / SecondsPerDay, (total % SecondsPerDay) / SecondsPerHour,
              (total % SecondsPerHour) / 60, total % 60)
  }

  /** `t % (d * e)` taken again `% d` is `t % d`, and the quotient splits. */
  lemma ModOfMod(t: nat, d: nat, e: nat)
    requires d > 0 && e > 0
    ensures (t % (d * e)) % d == t % d
    ensures (t % (d * e)) / d == (t / d) % e
  {
    var q, r := t / (d * e), t % (d * e);
    assert t == (d * e) * q + r;
    var q2, r2 := r / d, r % d;
    assert r == d * q2 + r2;
    MulMonotone(d, q2, e);
    assert t == d * (e * q + q2) + r2;
    DivModUnique(t, d, e * q + q2, r2);
    DivModUnique(e * q + q2, e, q, q2);
  }

  lemma DivModUnique(t: int, d: int, q: int, r: int)
    requires d > 0 && 0 <= r < d && t == d * q + r
    ensures t / d == q && t % d == r
  {
    var q0, r0 := t / d, t % d;
    assert t == d * q0 + r0;
    MulMonotone(d, q0, q + 1);
    MulMonotone(d, q, q0 + 1);
  }

  lemma MulMonotone(d: nat, a: int, b: int)
    ensures a >= b ==> d * a >= d * b
  {
    if a >= b {
      assert d * a == d * b + d * (a - b);
    }
  }

  /** The four values give back the total, each within its unit's range. */
  lemma SplitRecombines(total: nat)
    ensures var c := Split(total);
            c.days * 86400 + c.hours * 3600 + c.minutes * 60 + c.seconds == total
            && c.hours < 24 && c.minutes < 60 && c.seconds < 60
  {
    var c := Split(total);
    ModOfMod(total, 3600, 24);
    ModOfMod(total, 60, 60);
    ModOfMod(total, 60, 1440);
    assert total == 86400 * c.days + total % 86400;
    var r := total % 86400;
    assert r == 3600 * c.hours + r % 3600;
    assert r % 3600 == total % 3600;
    assert total % 3600 == 60 * c.minutes + c.seconds;
  }

  /** `isAnniversaryToday` as written: all four values are 0. */
  predicate IsAnniversaryToday(now: int, year: int, anniversary: Date)
    requires 1 <= anniversary.month <= 12
  {
    Split(TotalSeconds(NextAnniversary(now, year, anniversary), now)) == Countdown(0, 0, 0, 0)
  }

  /** As written, the greeting shows only while less than a second remains
      before the anniversary midnight, or at that very millisecond. */
  lemma AnniversaryGreetingLastsUnderASecond(now: int, year: int, anniversary: Date)
    requires ValidDate(anniversary) && InYear(now, year)
    ensures IsAnniversaryToday(now, year, anniversary) <==>
              NextAnniversary(now, year, anniversary) - now < 1000
  {
    var next := NextAnniversary(now, year, anniversary);
    NextAnniversaryNotBefore(now, year, anniversary);
    SplitRecombines(TotalSeconds(next, now));
  }

  /** One hour into the anniversary day the greeting is not shown. */
  lemma NoGreetingAnHourIn(year: int, anniversary: Date)
    requires ValidDate(anniversary)
    requires InYear(MidnightIn(year, anniversary) + 3600000, year)
    ensures !IsAnniversaryToday(MidnightIn(year, anniversary) + 3600000, year, anniversary)
  {
    var now := MidnightIn(year, anniversary) + 3600000;
    AnniversaryGreetingLastsUnderASecond(now, year, anniversary);
    var m, d := anniversary.month, anniversary.day;
    assert DayNumber(year + 1, m, d) >= DaysBeforeYear(year + 1);
    assert DayNumber(year + 1, m, d) * MsPerDay >= DaysBeforeYear(year + 1) * MsPerDay;
  }

  /** Whether `now` falls on the anniversary's local day this year: the
      greeting as the component's wording means it. */
  predicate IsAnniversaryDay(now: int, year: int, anniversary: Date)
    requires 1 <= anniversary.month <= 12
  {
    now / MsPerDay == DayNumber(year, anniversary.month, anniversary.day)
  }

  /** The corrected greeting holds at every instant of the anniversary day
      and at no other. */
  lemma AnniversaryDayIsWholeDay(now: int, year: int, anniversary: Date)
    requires 1 <= anniversary.month <= 12
    ensures IsAnniversaryDay(now, year, anniversary) <==>
              MidnightIn(year, anniversary) <= now < MidnightIn(year, anniversary) + MsPerDay
  {
    var n := DayNumber(year, anniversary.month, anniversary.day);
    var q, r := now / MsPerDay, now % MsPerDay;
    assert now == MsPerDay * q + r;
    if q == n {
      assert MidnightIn(year, anniversary) == MsPerDay * n;
    } else if q < n {
      assert MsPerDay * n >= MsPerDay * (q + 1);
    } else {
      assert MsPerDay * q >= MsPerDay * (n + 1);
    }
  }

  /** The count shown in a box: `value.toString().padStart(2, "0")`. */
  function TwoDigits(n: nat): string {
    PadStart(NatToString(n), 2, '0')
  }

  /** At least two digits, never cut short, and the same number. */
  lemma TwoDigitsSpec(n: nat)
    ensures |TwoDigits(n)| == if n < 10 then 2 else |NatToString(n)|
    ensures AllDigits(TwoDigits(n)) && DigitsValue(TwoDigits(n)) == n
    ensures n >= 10 ==> TwoDigits(n) == NatToString(n)
  {
    ZeroPaddingValue(NatToString(n), 2);
    NatToStringRoundTrip(n);
  }

  /** 365 days show as all three digits. */
  lemma ThreeDigitDays()
    ensures TwoDigits(365) == "365"
  {
    assert NatToString(3) == "3";
    assert NatToString(36) == "36";
  }
}
