/** Civil time from Unix seconds (src/jobs.rs). */
module Calendar {
  import opened Arithmetic

  // ---- the proleptic Gregorian calendar, counted day by day ----

  predicate IsLeap(y: nat) { y % 4 == 0 && (y % 100 != 0 || y % 400 == 0) }

  function YearLength(y: nat): nat { if IsLeap(y) then 366 else 365 }

  function MonthLength(y: nat, m: nat): nat {
    if m == 2 then (if IsLeap(y) then 29 else 28)
    else if m == 4 || m == 6 || m == 9 || m == 11 then 30
    else 31
  }

  /** Days from the start of year 1 to the start of year y. */
  function DaysBeforeYear(y: nat): nat {
    if y <= 1 then 0 else DaysBeforeYear(y - 1) + YearLength(y - 1)
  }

  /** Days from the start of year y to the start of its month m. */
  function DaysBeforeMonth(y: nat, m: nat): nat {
    if m <= 1 then 0 else DaysBeforeMonth(y, m - 1) + MonthLength(y, m - 1)
  }

  datatype Civil = Civil(y: nat, m: nat, d: nat, h: nat, mi: nat, se: nat)

  ghost predicate Valid(c: Civil) {
    && 1 <= c.y && 1 <= c.m <= 12 && 1 <= c.d <= MonthLength(c.y, c.m)
    && c.h < 24 && c.mi < 60 && c.se < 60
  }

  function DayNumber(y: nat, m: nat, d: nat): int {
    DaysBeforeYear(y) + DaysBeforeMonth(y, m) + d - 1
  }

  /** Seconds since the Unix epoch, by counting days. */
  function SecondsOf(c: Civil): int {
    (DayNumber(c.y, c.m, c.d) - DaysBeforeYear(1970)) * 86400 + c.h * 3600 + c.mi * 60 + c.se
  }

  // ---- the conversion ----

  const U32: nat := 0x1_0000_0000

  /** The date of a day count since the epoch, before the year is narrowed. */
  function CivilDate(days: nat): (nat, nat, nat) {
    var z := days + 719_468;
    var era := z / 146_097;
    var doe := z - era * 146_097;
    YearOfEraBounds(doe);
    var yoe := YearOfEra(doe);
    var y := yoe + era * 400;
    MonthAndDay(y, doe - MarchYears(yoe))
  }

  /** The date of day doy of a year that starts in March. */
  function MonthAndDay(y: nat, doy: nat): (nat, nat, nat) {
    var mp := (5 * doy + 2) / 153;
    var d := doy - (153 * mp + 2) / 5 + 1;
    var m := if mp < 10 then mp + 3 else mp - 9;
    (if m <= 2 then y + 1 else y, m, d)
  }

  function YearOfEra(doe: nat): int
  {
    (doe - doe / 1460 + doe / 36524 - doe / 146_096) / 365
  }

  /** Days before year yoe of an era, with years starting in March. */
  function MarchYears(yoe: nat): int { 365 * yoe + yoe / 4 - yoe / 100 }

  /** Centuries, four-year spans, years and days of an era. */
  ghost predicate EraParts(doe: nat, c: nat, q: nat, a: nat, r: nat) {
    && doe == 36524 * c + 1461 * q + 365 * a + r
    && c <= 3 && q <= 24 && a <= 3 && r <= 365
    && (r == 365 ==> a == 3 && (q == 24 ==> c == 3 && doe == 146_096))
    && (doe / 36524 - doe / 146_096 == c)
  }

  lemma SplitEra(doe: nat) returns (c: nat, q: nat, a: nat, r: nat)
    requires doe < 146_097
    ensures EraParts(doe, c, q, a, r)
  {
    c := if doe == 146_096 then 3 else doe / 36524;
    var x := doe - 36524 * c;
    q := x / 1461;
    var y := x - 1461 * q;
    a := if y == 1460 then 3 else y / 365;
    r := y - 365 * a;
  }

  lemma EraYear(doe: nat, c: nat, q: nat, a: nat, r: nat)
    requires EraParts(doe, c, q, a, r)
    ensures YearOfEra(doe) == 100 * c + 4 * q + a
  {
    var w := 24 * c + q + 365 * a + r;
    var over := if w < 1460 then 0 else 1;
    assert doe == 1460 * (25 * c + q) + w;
    QuotientIs(doe, 1460, 25 * c + q + over);
    QuotientIs(doe - doe / 1460 + c, 365, 100 * c + 4 * q + a);
  }

  lemma EraStart(c: nat, q: nat, a: nat)
    requires c <= 3 && q <= 24 && a <= 3
    ensures MarchYears(100 * c + 4 * q + a) == 36524 * c + 1461 * q + 365 * a
  {
    QuotientIs(100 * c + 4 * q + a, 4, 25 * c + q);
    QuotientIs(100 * c + 4 * q + a, 100, c);
  }

  lemma EraLeap(c: nat, q: nat)
    requires c <= 3 && q <= 24 && (q == 24 ==> c == 3)
    ensures IsLeap(100 * c + 4 * q + 4)
  {
  }

  /** The year of the era starts no later than the day and ends after it. */
  lemma YearOfEraBounds(doe: nat)
    requires doe < 146_097
    ensures var yoe := YearOfEra(doe);
            && 0 <= yoe < 400
            && MarchYears(yoe) <= doe <= MarchYears(yoe) + 365
            && (doe == MarchYears(yoe) + 365 ==> IsLeap(yoe + 1))
  {
    hide MarchYears, IsLeap, YearOfEra;
    var c, q, a, r := SplitEra(doe);
    EraYear(doe, c, q, a, r);
    EraStart(c, q, a);
    if r == 365 { EraLeap(c, q); }
  }

  // ---- the date counts back to the day ----

  /** The day count in closed form. */
  lemma {:induction false} DaysBeforeYearClosed(y: nat)
    requires 1 <= y
    ensures DaysBeforeYear(y) == 365 * (y - 1) + (y - 1) / 4 - (y - 1) / 100 + (y - 1) / 400
  {
    if y > 1 {
      DaysBeforeYearClosed(y - 1);
      LeapCount(y - 1);
    }
  }

  lemma LeapCount(x: nat)
    requires 1 <= x
    ensures x / 4 - x / 100 + x / 400
         == (x - 1) / 4 - (x - 1) / 100 + (x - 1) / 400 + (if IsLeap(x) then 1 else 0)
  {
    DivStep(x, 4);
    DivStep(x, 100);
    DivStep(x, 400);
    assert x % 100 == 0 ==> x % 4 == 0;
    assert x % 400 == 0 ==> x % 100 == 0;
  }

  lemma DivStep(x: nat, d: nat)
    requires 1 <= x && 0 < d
    ensures x / d == (x - 1) / d + (if x % d == 0 then 1 else 0)
  {
    var k := x / d;
    if x % d == 0 {
      assert x - 1 == (k - 1) * d + (d - 1);
      QuotientIs(x - 1, d, k - 1);
    } else {
      QuotientIs(x - 1, d, k);
    }
  }

  /** March 1 of a year, counted from the algorithm's own origin. */
  lemma MarchFirst(era: nat, yoe: nat)
    requires yoe < 400 && 1 <= yoe + era * 400
    ensures var y := yoe + era * 400;
            DaysBeforeYear(y) + 59 + (if IsLeap(y) then 1 else 0) == era * 146_097 + MarchYears(yoe) - 306
  {
    var y := yoe + era * 400;
    DaysBeforeYearClosed(y);
    LeapCount(y);
    QuotientIs(y, 400, era);
    assert y / 4 == 100 * era + yoe / 4 && y / 100 == 4 * era + yoe / 100;
  }

  lemma MonthStarts(y: nat)
    ensures var b := if IsLeap(y) then 60 else 59;
            && DaysBeforeMonth(y, 1) == 0 && DaysBeforeMonth(y, 2) == 31 && DaysBeforeMonth(y, 3) == b
            && DaysBeforeMonth(y, 4) == b + 31 && DaysBeforeMonth(y, 5) == b + 61
            && DaysBeforeMonth(y, 6) == b + 92 && DaysBeforeMonth(y, 7) == b + 122
            && DaysBeforeMonth(y, 8) == b + 153 && DaysBeforeMonth(y, 9) == b + 184
            && DaysBeforeMonth(y, 10) == b + 214 && DaysBeforeMonth(y, 11) == b + 245
            && DaysBeforeMonth(y, 12) == b + 275
  {
    assert DaysBeforeMonth(y, 1) == 0;
    assert DaysBeforeMonth(y, 2) == DaysBeforeMonth(y, 1) + 31;
    assert DaysBeforeMonth(y, 3) == DaysBeforeMonth(y, 2) + MonthLength(y, 2);
    assert DaysBeforeMonth(y, 5) == DaysBeforeMonth(y, 4) + 30;
    assert DaysBeforeMonth(y, 7) == DaysBeforeMonth(y, 6) + 30;
    assert DaysBeforeMonth(y, 9) == DaysBeforeMonth(y, 8) + 31;
    assert DaysBeforeMonth(y, 11) == DaysBeforeMonth(y, 10) + 31;
  }

  /** Within a March-based year the month formula picks the month that holds
      the day, and the day of the month counts from its first. */
  lemma MonthOfDay(y: nat, doy: nat)
    requires doy <= 365 && (doy == 365 ==> IsLeap(y + 1))
    ensures var (year, m, d) := MonthAndDay(y, doy);
            var march := if IsLeap(y) then 60 else 59;
            && 1 <= m <= 12 && 1 <= d <= MonthLength(year, m)
            && year == (if m <= 2 then y + 1 else y)
            && DaysBeforeMonth(year, m) + d - 1 == march + doy - (if m <= 2 then YearLength(y) else 0)
  {
    MonthStarts(y);
    MonthStarts(y + 1);
    var mp := (5 * doy + 2) / 153;
    assert mp <= 11;
    if mp == 0 {} else if mp == 1 {} else if mp == 2 {} else if mp == 3 {} else if mp == 4 {}
    else if mp == 5 {} else if mp == 6 {} else if mp == 7 {} else if mp == 8 {} else if mp == 9 {}
    else if mp == 10 {} else {}
  }

  lemma {:induction false} LeapNextEra(era: nat, yoe: nat)
    ensures IsLeap(yoe + 1) ==> IsLeap(yoe + era * 400 + 1)
  {
    if era > 0 {
      LeapNextEra(era - 1, yoe);
      LeapIn400(yoe + (era - 1) * 400 + 1);
    }
  }

  lemma LeapIn400(y: nat)
    ensures IsLeap(y) == IsLeap(y + 400)
  {
    ModShift(y, 4, 100);
    ModShift(y, 100, 4);
    ModShift(y, 400, 1);
  }

  lemma ModShift(y: nat, d: nat, k: nat)
    requires 0 < d
    ensures (y + d * k) % d == y % d
  {
    assert (y / d + k) * d == y / d * d + d * k;
    QuotientIs(y + d * k, d, y / d + k);
  }

  lemma DaysBeforeNextYear(y: nat)
    requires 1 <= y
    ensures DaysBeforeYear(y + 1) == DaysBeforeYear(y) + YearLength(y)
  {
  }

  /** The date is a real one and counts back to the day it came from. */
  lemma CivilDateInverts(days: nat)
    ensures var (y, m, d) := CivilDate(days);
            && 1970 <= y && 1 <= m <= 12 && 1 <= d <= MonthLength(y, m)
            && DayNumber(y, m, d) - DaysBeforeYear(1970) == days
  {
    hide MonthAndDay, MarchYears, YearOfEra, IsLeap, DaysBeforeYear, DaysBeforeMonth, MonthLength, YearLength;
    var z := days + 719_468;
    var era := z / 146_097;
    var doe := z - era * 146_097;
    YearOfEraBounds(doe);
    var yoe := YearOfEra(doe);
    var y, doy := yoe + era * 400, doe - MarchYears(yoe);
    MarchFirst(era, yoe);
    LeapNextEra(era, yoe);
    MonthOfDay(y, doy);
    DaysBeforeNextYear(y);
    DaysBeforeYearClosed(1970);
    var (year, m, d) := CivilDate(days);
    assert DayNumber(year, m, d) == days + DaysBeforeYear(1970);
    WithinYear(year, m, d);
    if year < 1970 { DaysBeforeYearGrows(year + 1, 1970); }
  }

  lemma {:induction false} DaysBeforeYearGrows(x: nat, y: nat)
    requires x <= y
    ensures DaysBeforeYear(x) <= DaysBeforeYear(y)
  {
    if x < y { DaysBeforeYearGrows(x, y - 1); }
  }

  lemma WithinYear(y: nat, m: nat, d: nat)
    requires 1 <= y && 1 <= m <= 12 && 1 <= d <= MonthLength(y, m)
    ensures DaysBeforeYear(y) <= DayNumber(y, m, d) < DaysBeforeYear(y + 1)
  {
    MonthStarts(y);
  }

  // ---- date and time of a second ----

  /** The full conversion, before the year is narrowed to 32 bits. */
  function WallClock(secs: nat): Civil {
    var rem := secs % 86400;
    var (y, m, d) := CivilDate(secs / 86400);
    Civil(y, m, d, rem / 3600, rem % 3600 / 60, rem % 60)
  }

  /** What the code returns: the year goes through a 32-bit cast. */
  function UnixToYmdhms(secs: nat): Civil {
    var c := WallClock(secs);
    c.(y := c.y % U32)
  }

  /** Every second has a real date and time, and it counts back to the second. */
  lemma WallClockInverts(secs: nat)
    ensures Valid(WallClock(secs)) && WallClock(secs).y >= 1970 && SecondsOf(WallClock(secs)) == secs
  {
    hide CivilDate, MonthLength, DayNumber, DaysBeforeYear;
    CivilDateInverts(secs / 86400);
  }

  /** Chronological order on the fields. */
  ghost predicate Before(a: Civil, b: Civil) {
    a.y < b.y || (a.y == b.y && (
    a.m < b.m || (a.m == b.m && (
    a.d < b.d || (a.d == b.d && (
    a.h < b.h || (a.h == b.h && (
    a.mi < b.mi || (a.mi == b.mi && a.se < b.se)))))))))
  }

  lemma {:induction false} DaysBeforeMonthGrows(y: nat, m: nat, n: nat)
    requires 1 <= m < n
    ensures DaysBeforeMonth(y, m) + MonthLength(y, m) <= DaysBeforeMonth(y, n)
  {
    if m + 1 < n { DaysBeforeMonthGrows(y, m, n - 1); }
  }

  ghost predicate DateBefore(a: Civil, b: Civil) {
    a.y < b.y || (a.y == b.y && (a.m < b.m || (a.m == b.m && a.d < b.d)))
  }

  lemma DateOrder(a: Civil, b: Civil)
    requires Valid(a) && Valid(b) && DateBefore(a, b)
    ensures DayNumber(a.y, a.m, a.d) < DayNumber(b.y, b.m, b.d)
  {
    hide DaysBeforeYear, DaysBeforeMonth, MonthLength;
    if a.y < b.y {
      WithinYear(a.y, a.m, a.d);
      WithinYear(b.y, b.m, b.d);
      DaysBeforeYearGrows(a.y + 1, b.y);
    } else if a.m < b.m {
      DaysBeforeMonthGrows(a.y, a.m, b.m);
    }
  }

  lemma ForwardOrder(a: Civil, b: Civil)
    requires Valid(a) && Valid(b) && Before(a, b)
    ensures SecondsOf(a) < SecondsOf(b)
  {
    hide DayNumber, MonthLength, DaysBeforeYear;
    if DateBefore(a, b) { DateOrder(a, b); }
  }

  /** Comparing fields and counting seconds give the same order. */
  lemma OrderIsChronological(a: Civil, b: Civil)
    requires Valid(a) && Valid(b)
    ensures Before(a, b) <==> SecondsOf(a) < SecondsOf(b)
    ensures SecondsOf(a) == SecondsOf(b) ==> a == b
  {
    hide SecondsOf, Valid;
    if Before(a, b) { ForwardOrder(a, b); }
    if Before(b, a) { ForwardOrder(b, a); }
  }

  /** The conversion is the only inverse of the day count. */
  lemma WallClockUnique(c: Civil)
    requires Valid(c) && c.y >= 1970
    ensures SecondsOf(c) >= 0 && WallClock(SecondsOf(c)) == c
  {
    hide WallClock, SecondsOf;
    var e := Civil(1970, 1, 1, 0, 0, 0);
    EpochIsZero();
    OrderIsChronological(c, e);
    assert !Before(c, e);
    WallClockInverts(SecondsOf(c));
    OrderIsChronological(c, WallClock(SecondsOf(c)));
  }

  lemma EpochIsZero()
    ensures Valid(Civil(1970, 1, 1, 0, 0, 0)) && SecondsOf(Civil(1970, 1, 1, 0, 0, 0)) == 0
  {
    hide DaysBeforeYear;
  }

  lemma WallClockMonotone(s: nat, t: nat)
    requires s < t
    ensures Before(WallClock(s), WallClock(t))
  {
    hide WallClock, SecondsOf, Before;
    WallClockInverts(s);
    WallClockInverts(t);
    OrderIsChronological(WallClock(s), WallClock(t));
  }

  /** Seconds before the start of a year are exactly those dated before it. */
  lemma YearBelow(secs: nat, y: nat)
    requires 1970 <= y
    ensures WallClock(secs).y < y <==> secs < SecondsOf(Civil(y, 1, 1, 0, 0, 0))
  {
    hide WallClock, SecondsOf, MonthLength;
    var c := Civil(y, 1, 1, 0, 0, 0);
    FirstMomentValid(y);
    WallClockInverts(secs);
    OrderIsChronological(WallClock(secs), c);
  }

  lemma FirstMomentValid(y: nat)
    requires 1 <= y
    ensures Valid(Civil(y, 1, 1, 0, 0, 0))
  {
  }

  /** The 32-bit year loses nothing exactly below the first second of year 2^32. */
  lemma NarrowingIff(secs: nat)
    ensures (Valid(UnixToYmdhms(secs)) && SecondsOf(UnixToYmdhms(secs)) == secs)
            <==> secs < SecondsOf(Civil(U32, 1, 1, 0, 0, 0))
  {
    hide SecondsOf, WallClock, Valid;
    YearBelow(secs, U32);
    WallClockInverts(secs);
    var c := WallClock(secs);
    if c.y < U32 {
      SmallModulo(c.y, U32);
    } else if Valid(UnixToYmdhms(secs)) && SecondsOf(UnixToYmdhms(secs)) == secs {
      OrderIsChronological(c, UnixToYmdhms(secs));
      assert false;
    }
  }

  lemma SmallModulo(x: nat, d: nat)
    requires x < d
    ensures x % d == x
  {
    QuotientIs(x, d, 0);
  }

  /** A second within the signed 64-bit range whose date is lost. */
  lemma NarrowingLosesInRange()
    ensures var secs := SecondsOf(Civil(U32, 1, 1, 0, 0, 0));
            0 <= secs < 0x8000_0000_0000_0000 && SecondsOf(UnixToYmdhms(secs)) != secs
  {
    hide WallClock, UnixToYmdhms, DaysBeforeYear;
    FirstMomentValid(U32);
    WallClockUnique(Civil(U32, 1, 1, 0, 0, 0));
    DaysBeforeYearClosed(U32);
    DaysBeforeYearClosed(1970);
    var secs := SecondsOf(Civil(U32, 1, 1, 0, 0, 0));
    NarrowedYearZero(secs);
  }

  lemma NarrowedYearZero(secs: nat)
    requires WallClock(secs) == Civil(U32, 1, 1, 0, 0, 0)
    ensures SecondsOf(UnixToYmdhms(secs)) <= 0
  {
    DaysBeforeYearGrows(1, 1970);
  }
}
