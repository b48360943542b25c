/** Sortable job ids `YYYYMMDD-HHMMSS-NNNNNNNNN` (src/jobs.rs). */
module JobIds {
  import opened Calendar
  import opened Strings

  function Digit(n: nat): char
    requires n < 10
  {
    "0123456789"[n]
  }

  /** Decimal notation without leading zeros. */
  function Decimal(n: nat): string {
    if n < 10 then [Digit(n)] else Decimal(n / 10) + [Digit(n % 10)]
  }

  function Zeros(n: nat): string { if n == 0 then "" else Zeros(n - 1) + "0" }

  /** Zero-padded to at least w characters. */
  function Padded(n: nat, w: nat): string {
    var s := Decimal(n);
    if |s| < w then Zeros(w - |s|) + s else s
  }

  function JobId(secs: nat, nanos: nat): string {
    var c := UnixToYmdhms(secs);
    Padded(c.y, 4) + (Padded(c.m, 2) + (Padded(c.d, 2) + ("-" +
    (Padded(c.h, 2) + (Padded(c.mi, 2) + (Padded(c.se, 2) + ("-" + Padded(nanos, 9))))))))
  }

  // ---- fixed-width numbers sort as numbers ----

  function Pow10(w: nat): nat { if w == 0 then 1 else 10 * Pow10(w - 1) }

  function Fixed(n: nat, w: nat): (s: string)
    ensures |s| == w
  {
    if w == 0 then "" else Fixed(n / 10, w - 1) + [Digit(n % 10)]
  }

  lemma {:induction false} PaddedIsFixed(n: nat, w: nat)
    requires n < Pow10(w) && 0 < w
    ensures Padded(n, w) == Fixed(n, w)
  {
    hide Digit;
    if n < 10 {
      FixedSmall(n, w);
    } else {
      DropDigit(n, w);
      PaddedIsFixed(n / 10, w - 1);
      var s := Decimal(n / 10);
      if |s| < w - 1 {
        assert Zeros(w - 1 - |s|) + (s + [Digit(n % 10)]) == (Zeros(w - 1 - |s|) + s) + [Digit(n % 10)];
      } else {
        assert |s| == w - 1;
      }
    }
  }

  lemma DropDigit(n: nat, w: nat)
    requires 10 <= n < Pow10(w)
    ensures 2 <= w && n / 10 < Pow10(w - 1)
  {
  }

  lemma {:induction false} FixedSmall(n: nat, w: nat)
    requires n < 10 && 0 < w
    ensures Fixed(n, w) == Zeros(w - 1) + [Digit(n)]
  {
    FixedZero(w - 1);
    assert Fixed(n, w) == Fixed(0, w - 1) + [Digit(n)];
  }

  lemma {:induction false} FixedZero(w: nat)
    ensures Fixed(0, w) == Zeros(w)
  {
    if w > 0 { FixedZero(w - 1); }
  }

  /** A block of equal width decides, and only a tie looks further. */
  lemma {:induction false} BlockDecides(a: string, b: string, x: string, y: string)
    requires |a| == |b|
    ensures StrLess(a + x, b + y) <==> StrLess(a, b) || (a == b && StrLess(x, y))
  {
    if a == "" {
      assert a + x == x && b + y == y;
    } else {
      assert (a + x)[1..] == a[1..] + x && (b + y)[1..] == b[1..] + y;
      BlockDecides(a[1..], b[1..], x, y);
      assert a == [a[0]] + a[1..] && b == [b[0]] + b[1..];
    }
  }

  lemma OneCharLess(x: char, y: char)
    ensures StrLess([x], [y]) <==> x < y
  {
  }

  lemma {:induction false} FixedOrder(n: nat, k: nat, w: nat)
    requires n < Pow10(w) && k < Pow10(w)
    ensures StrLess(Fixed(n, w), Fixed(k, w)) <==> n < k
    ensures Fixed(n, w) == Fixed(k, w) <==> n == k
    decreases w
  {
    hide StrLess;
    if w == 0 {
      NotLessThanItself("");
    } else {
      FixedOrder(n / 10, k / 10, w - 1);
      var a, b := Fixed(n / 10, w - 1), Fixed(k / 10, w - 1);
      var x, y := Digit(n % 10), Digit(k % 10);
      assert n % 10 < k % 10 <==> x < y;
      BlockDecides(a, b, [x], [y]);
      OneCharLess(x, y);
      assert (a + [x])[..w - 1] == a && (b + [y])[..w - 1] == b;
      assert (a + [x])[w - 1] == x && (b + [y])[w - 1] == y;
    }
  }

  /** A numeric block in front: order by the number, then by the rest. */
  lemma NumberDecides(n: nat, k: nat, w: nat, x: string, y: string)
    requires 0 < w && n < Pow10(w) && k < Pow10(w)
    ensures StrLess(Padded(n, w) + x, Padded(k, w) + y) <==> n < k || (n == k && StrLess(x, y))
  {
    hide StrLess, Padded, Fixed;
    PaddedIsFixed(n, w);
    PaddedIsFixed(k, w);
    BlockDecides(Fixed(n, w), Fixed(k, w), x, y);
    FixedOrder(n, k, w);
  }

  lemma PowersOfTen()
    ensures Pow10(2) == 100 && Pow10(4) == 10_000 && Pow10(9) == 1_000_000_000
  {
    assert Pow10(1) == 10;
    assert Pow10(3) == 10 * Pow10(2);
    assert Pow10(5) == 10 * Pow10(4);
    assert Pow10(6) == 10 * Pow10(5);
    assert Pow10(7) == 10 * Pow10(6);
    assert Pow10(8) == 10 * Pow10(7);
  }

  /** The year-10000 boundary, in Unix seconds. */
  const YEAR_10000: nat := 253_402_300_800

  lemma YearTenThousand()
    ensures SecondsOf(Civil(10_000, 1, 1, 0, 0, 0)) == YEAR_10000
  {
    hide DaysBeforeYear;
    DaysBeforeYearClosed(10_000);
    DaysBeforeYearClosed(1970);
  }

  function TimePart(c: Civil, nanos: nat): string {
    Padded(c.h, 2) + (Padded(c.mi, 2) + (Padded(c.se, 2) + ("-" + Padded(nanos, 9))))
  }

  function DayPart(c: Civil, rest: string): string {
    Padded(c.y, 4) + (Padded(c.m, 2) + (Padded(c.d, 2) + ("-" + rest)))
  }

  ghost predicate TimeBefore(a: Civil, n: nat, b: Civil, k: nat) {
    a.h < b.h || (a.h == b.h && (a.mi < b.mi || (a.mi == b.mi && (a.se < b.se || (a.se == b.se && n < k)))))
  }

  lemma DashDecides(x: string, y: string)
    ensures StrLess("-" + x, "-" + y) <==> StrLess(x, y)
  {
    hide StrLess;
    BlockDecides("-", "-", x, y);
    NotLessThanItself("-");
  }

  lemma TimePartOrder(a: Civil, n: nat, b: Civil, k: nat)
    requires Valid(a) && Valid(b) && n < 1_000_000_000 && k < 1_000_000_000
    ensures StrLess(TimePart(a, n), TimePart(b, k)) <==> TimeBefore(a, n, b, k)
  {
    hide StrLess, Padded, Pow10;
    PowersOfTen();
    var sa, sb := "-" + Padded(n, 9), "-" + Padded(k, 9);
    assert Padded(n, 9) + "" == Padded(n, 9) && Padded(k, 9) + "" == Padded(k, 9);
    NumberDecides(n, k, 9, "", "");
    NotLessThanItself("");
    DashDecides(Padded(n, 9), Padded(k, 9));
    NumberDecides(a.se, b.se, 2, sa, sb);
    var ma, mb := Padded(a.se, 2) + sa, Padded(b.se, 2) + sb;
    NumberDecides(a.mi, b.mi, 2, ma, mb);
    NumberDecides(a.h, b.h, 2, Padded(a.mi, 2) + ma, Padded(b.mi, 2) + mb);
  }

  lemma DayPartOrder(a: Civil, x: string, b: Civil, y: string)
    requires Valid(a) && Valid(b) && a.y < 10_000 && b.y < 10_000
    ensures StrLess(DayPart(a, x), DayPart(b, y)) <==>
              DateBefore(a, b) || (a.y == b.y && a.m == b.m && a.d == b.d && StrLess(x, y))
  {
    hide StrLess, Padded, Pow10;
    PowersOfTen();
    DashDecides(x, y);
    var da, db := "-" + x, "-" + y;
    NumberDecides(a.d, b.d, 2, da, db);
    var ma, mb := Padded(a.d, 2) + da, Padded(b.d, 2) + db;
    NumberDecides(a.m, b.m, 2, ma, mb);
    NumberDecides(a.y, b.y, 4, Padded(a.m, 2) + ma, Padded(b.m, 2) + mb);
  }

  /** Before year 10000 an id has its documented shape: 25 characters, a dash
      after the date and one after the time, digits everywhere else. */
  lemma JobIdShape(s: nat, n: nat)
    requires s < YEAR_10000 && n < 1_000_000_000
    ensures var id := JobId(s, n);
            && |id| == 25 && id[8] == '-' && id[15] == '-'
            && forall i :: 0 <= i < 25 && i != 8 && i != 15 ==> '0' <= id[i] <= '9'
  {
    hide Padded, Fixed, SecondsOf, WallClock, Pow10;
    YearTenThousand();
    YearBelow(s, 10_000);
    WallClockInverts(s);
    var c := WallClock(s);
    SmallModulo(c.y, U32);
    PowersOfTen();
    AllDigits(c.y, 4);
    AllDigits(c.m, 2);
    AllDigits(c.d, 2);
    AllDigits(c.h, 2);
    AllDigits(c.mi, 2);
    AllDigits(c.se, 2);
    AllDigits(n, 9);
  }

  lemma AllDigits(n: nat, w: nat)
    requires 0 < w && n < Pow10(w)
    ensures |Padded(n, w)| == w && forall i :: 0 <= i < w ==> '0' <= Padded(n, w)[i] <= '9'
  {
    hide Padded;
    PaddedIsFixed(n, w);
    FixedDigits(n, w);
  }

  lemma {:induction false} FixedDigits(n: nat, w: nat)
    ensures forall i :: 0 <= i < w ==> '0' <= Fixed(n, w)[i] <= '9'
  {
    if w > 0 { FixedDigits(n / 10, w - 1); }
  }

  // ---- reading an id back ----

  /** The number a block of digits denotes. */
  function Number(s: string): int {
    if s == "" then 0 else 10 * Number(s[..|s| - 1]) + (s[|s| - 1] as int - '0' as int)
  }

  lemma DigitValue(n: nat)
    requires n < 10
    ensures Digit(n) as int - '0' as int == n
  {
  }

  lemma {:induction false} NumberOfFixed(n: nat, w: nat)
    requires n < Pow10(w)
    ensures Number(Fixed(n, w)) == n
  {
    hide Digit;
    if w > 0 {
      NumberOfFixed(n / 10, w - 1);
      DigitValue(n % 10);
      assert Fixed(n, w)[..w - 1] == Fixed(n / 10, w - 1);
    }
  }

  lemma NumberOfPadded(n: nat, w: nat)
    requires 0 < w && n < Pow10(w)
    ensures |Padded(n, w)| == w && Number(Padded(n, w)) == n
  {
    hide Padded, Number, Fixed;
    PaddedIsFixed(n, w);
    NumberOfFixed(n, w);
  }

  /** The date, as its blocks read. */
  lemma DayReads(c: Civil, rest: string)
    requires Valid(c) && c.y < 10_000
    ensures var id := DayPart(c, rest);
            && |id| == 9 + |rest| && id[8] == '-'
            && Number(id[..4]) == c.y && Number(id[4..6]) == c.m && Number(id[6..8]) == c.d && id[9..] == rest
  {
    hide Padded, Number, Pow10;
    PowersOfTen();
    NumberOfPadded(c.y, 4);
    NumberOfPadded(c.m, 2);
    NumberOfPadded(c.d, 2);
    var id, y, m, d := DayPart(c, rest), Padded(c.y, 4), Padded(c.m, 2), Padded(c.d, 2);
    assert id == y + m + d + "-" + rest;
    assert id[..4] == y && id[4..6] == m && id[6..8] == d && id[9..] == rest;
  }

  /** The time of day, as its blocks read. */
  lemma TimeReads(c: Civil, nanos: nat)
    requires Valid(c) && nanos < 1_000_000_000
    ensures var id := TimePart(c, nanos);
            && |id| == 16 && id[6] == '-'
            && Number(id[..2]) == c.h && Number(id[2..4]) == c.mi
            && Number(id[4..6]) == c.se && Number(id[7..]) == nanos
  {
    hide Padded, Number, Pow10;
    PowersOfTen();
    NumberOfPadded(c.h, 2);
    NumberOfPadded(c.mi, 2);
    NumberOfPadded(c.se, 2);
    NumberOfPadded(nanos, 9);
    var id, h, mi, se, ns := TimePart(c, nanos), Padded(c.h, 2), Padded(c.mi, 2), Padded(c.se, 2), Padded(nanos, 9);
    assert id == h + mi + se + "-" + ns;
    assert id[..2] == h && id[2..4] == mi && id[4..6] == se && id[7..] == ns;
  }

  /** The blocks of an id, read as numbers. */
  predicate Reads(id: string, c: Civil, nanos: nat) {
    && |id| == 25 && id[8] == '-' && id[15] == '-'
    && Number(id[..4]) == c.y && Number(id[4..6]) == c.m && Number(id[6..8]) == c.d
    && Number(id[9..11]) == c.h && Number(id[11..13]) == c.mi && Number(id[13..15]) == c.se
    && Number(id[16..]) == nanos
  }

  /** Before year 10000 an id reads back, block by block, to the moment it was made:
      the date and time that count back to its second, and the nanoseconds. */
  lemma JobIdReads(s: nat, nanos: nat)
    requires s < YEAR_10000 && nanos < 1_000_000_000
    ensures exists c :: Valid(c) && SecondsOf(c) == s && Reads(JobId(s, nanos), c, nanos)
  {
    hide Padded, Number, SecondsOf, WallClock, Pow10, Valid;
    YearTenThousand();
    YearBelow(s, 10_000);
    WallClockInverts(s);
    var c := WallClock(s);
    SmallModulo(c.y, U32);
    var time := TimePart(c, nanos);
    DayReads(c, time);
    TimeReads(c, nanos);
    var id := JobId(s, nanos);
    assert id == DayPart(c, time);
    assert id[9..] == time && id[9..][..2] == id[9..11] && id[9..][2..4] == id[11..13];
    assert id[9..][4..6] == id[13..15] && id[9..][7..] == id[16..];
    assert Reads(id, c, nanos);
  }

  /** Before year 10000 ids sort as strings exactly in chronological order. */
  lemma JobIdOrder(s: nat, n: nat, t: nat, k: nat)
    requires s < YEAR_10000 && t < YEAR_10000 && n < 1_000_000_000 && k < 1_000_000_000
    ensures StrLess(JobId(s, n), JobId(t, k)) <==> s < t || (s == t && n < k)
  {
    hide StrLess, Padded, SecondsOf, WallClock, Valid;
    YearTenThousand();
    YearBelow(s, 10_000);
    YearBelow(t, 10_000);
    var a, b := WallClock(s), WallClock(t);
    WallClockInverts(s);
    WallClockInverts(t);
    SmallModulo(a.y, U32);
    SmallModulo(b.y, U32);
    OrderIsChronological(a, b);
    TimePartOrder(a, n, b, k);
    DayPartOrder(a, TimePart(a, n), b, TimePart(b, k));
    assert JobId(s, n) == DayPart(a, TimePart(a, n)) && JobId(t, k) == DayPart(b, TimePart(b, k));
  }

  lemma JobIdInjective(s: nat, n: nat, t: nat, k: nat)
    requires s < YEAR_10000 && t < YEAR_10000 && n < 1_000_000_000 && k < 1_000_000_000
    requires JobId(s, n) == JobId(t, k)
    ensures s == t && n == k
  {
    hide JobId;
    NotLessThanItself(JobId(s, n));
    JobIdOrder(s, n, t, k);
    JobIdOrder(t, k, s, n);
  }

  /** The last id of year 9999 sorts after the first of year 10000. */
  lemma RolloverMisorders()
    ensures !StrLess(JobId(YEAR_10000 - 1, 0), JobId(YEAR_10000, 0))
  {
    hide WallClock, SecondsOf, Zeros;
    YearTenThousand();
    FirstMomentValid(10_000);
    WallClockUnique(Civil(10_000, 1, 1, 0, 0, 0));
    LastMomentOf9999();
    assert Decimal(10_000)[0] == '1' by {
      assert Decimal(1) == "1";
      assert Decimal(10) == "1" + "0";
      assert Decimal(100) == Decimal(10) + "0";
      assert Decimal(1000) == Decimal(100) + "0";
      assert Decimal(10_000) == Decimal(1000) + "0";
    }
    assert Decimal(9999)[0] == '9' && |Decimal(9999)| == 4 by {
      assert Decimal(9) == "9";
      assert Decimal(99) == "9" + "9";
      assert Decimal(999) == Decimal(99) + "9";
      assert Decimal(9999) == Decimal(999) + "9";
    }
    assert |Decimal(10_000)| >= 4;
    assert JobId(YEAR_10000 - 1, 0)[0] == '9' && JobId(YEAR_10000, 0)[0] == '1';
  }

  lemma LastMomentOf9999()
    ensures WallClock(YEAR_10000 - 1) == Civil(9999, 12, 31, 23, 59, 59)
  {
    hide WallClock, DaysBeforeYear, DaysBeforeMonth;
    var c := Civil(9999, 12, 31, 23, 59, 59);
    YearTenThousand();
    DaysBeforeNextYear(9999);
    MonthStarts(9999);
    MonthStarts(10_000);
    assert YearLength(9999) == 365;
    assert DayNumber(9999, 12, 31) == DayNumber(10_000, 1, 1) - 1;
    assert SecondsOf(c) == YEAR_10000 - 1;
    WallClockUnique(c);
  }

  /** Ids of all moments below a bound sort chronologically exactly when the
      bound is no later than the start of year 10000. */
  lemma SortableIff(bound: nat)
    ensures (forall s: nat, t: nat :: s < t < bound ==> StrLess(JobId(s, 0), JobId(t, 0)))
            <==> bound <= YEAR_10000
  {
    hide JobId, StrLess;
    if bound <= YEAR_10000 {
      forall s: nat, t: nat | s < t < bound ensures StrLess(JobId(s, 0), JobId(t, 0)) {
        JobIdOrder(s, 0, t, 0);
      }
    } else {
      RolloverMisorders();
    }
  }
}
