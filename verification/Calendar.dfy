/** Gregorian dates (RFC 3339, section 5.7), their day numbers, and their order as zero-padded text. */
module Calendar {
  import opened Common
  import opened Text

  datatype Date = Date(y: int, m: int, d: int)

  predicate Leap(y: int) { y % 4 == 0 && (y % 100 != 0 || y % 400 == 0) }

  function DaysIn(y: int, m: int): int {
    if m == 2 then (if Leap(y) then 29 else 28) else if m == 4 || m == 6 || m == 9 || m == 11 then 30 else 31
  }

  /** The dates `datetime` can hold. */
  predicate Valid(a: Date) { 1 <= a.y <= 9999 && 1 <= a.m <= 12 && 1 <= a.d <= DaysIn(a.y, a.m) }

  predicate Before(a: Date, b: Date) { a.y < b.y || (a.y == b.y && (a.m < b.m || (a.m == b.m && a.d < b.d))) }

  /** `date + timedelta(days=1)`; `None` stands for `OverflowError`. */
  function NextDay(a: Date): (next: Option<Date>)
    ensures Valid(a) && next.Some? ==> Valid(next.value)
  {
    if a.d < DaysIn(a.y, a.m) then Some(Date(a.y, a.m, a.d + 1))
    else if a.m < 12 then Some(Date(a.y, a.m + 1, 1))
    else if a.y < 9999 then Some(Date(a.y + 1, 1, 1))
    else None
  }

  // ---------- day numbers ----------

  function DaysBeforeYear(y: int): int { (y - 1) * 365 + (y - 1) / 4 - (y - 1) / 100 + (y - 1) / 400 }

  function DaysBeforeMonth(y: int, m: nat): int {
    if m <= 1 then 0 else DaysBeforeMonth(y, m - 1) + DaysIn(y, m - 1)
  }

  /** `date.toordinal()`. */
  function Ordinal(a: Date): int
    requires a.m >= 0
  {
    DaysBeforeYear(a.y) + DaysBeforeMonth(a.y, a.m) + a.d
  }

  lemma MonthsOfAYear(y: int)
    ensures DaysBeforeMonth(y, 13) == 337 + DaysIn(y, 2)
  {
    assert DaysBeforeMonth(y, 2) == 31;
    assert DaysBeforeMonth(y, 3) == 31 + DaysIn(y, 2);
    assert DaysBeforeMonth(y, 5) == DaysBeforeMonth(y, 3) + 61;
    assert DaysBeforeMonth(y, 7) == DaysBeforeMonth(y, 5) + 61;
    assert DaysBeforeMonth(y, 9) == DaysBeforeMonth(y, 7) + 62;
    assert DaysBeforeMonth(y, 11) == DaysBeforeMonth(y, 9) + 61;
    assert DaysBeforeMonth(y, 13) == DaysBeforeMonth(y, 11) + 61;
  }

  lemma LeapQuotients(y: int)
    ensures y / 4 == (y - 1) / 4 + (if y % 4 == 0 then 1 else 0)
    ensures y / 100 == (y - 1) / 100 + (if y % 100 == 0 then 1 else 0)
    ensures y / 400 == (y - 1) / 400 + (if y % 400 == 0 then 1 else 0)
    ensures (y % 400 == 0 ==> y % 100 == 0) && (y % 100 == 0 ==> y % 4 == 0)
  {
  }

  lemma YearLength(y: int)
    ensures DaysBeforeYear(y + 1) == DaysBeforeYear(y) + DaysBeforeMonth(y, 13)
  {
    MonthsOfAYear(y);
    LeapQuotients(y);
    assert DaysBeforeYear(y + 1) == y * 365 + y / 4 - y / 100 + y / 400;
  }

  /** A month by its number of days: the table of RFC 3339, section 5.7. */
  lemma ValidIs(a: Date)
    ensures Valid(a) <==>
            && 1 <= a.y <= 9999 && 1 <= a.d
            && (|| (a.m in {1, 3, 5, 7, 8, 10, 12} && a.d <= 31)
                || (a.m in {4, 6, 9, 11} && a.d <= 30)
                || (a.m == 2 && a.d <= 28)
                || (a.m == 2 && a.d == 29 && a.y % 4 == 0 && (a.y % 100 != 0 || a.y % 400 == 0)))
  {
  }

  /**
   The day number in closed form: count years from March on, so that the leap day comes last, and months of
   the year so turned have 153 days in each five.
   */
  lemma OrdinalIs(a: Date)
    requires Valid(a)
    ensures var y, m := if a.m <= 2 then a.y - 1 else a.y, (a.m + 9) % 12;
            Ordinal(a) == 365 * y + y / 4 - y / 100 + y / 400 + (153 * m + 2) / 5 + a.d - 306
  {
    if a.m <= 2 {
      assert DaysBeforeMonth(a.y, 1) == 0 && DaysBeforeMonth(a.y, 2) == 31;
      assert (a.m + 9) % 12 == a.m + 9;
    } else {
      MonthStarts(a.y, a.m);
      hide DaysBeforeMonth;
      LeapQuotients(a.y);
      assert (a.m + 9) % 12 == a.m - 3;
    }
  }

  lemma {:induction false} MonthStarts(y: int, m: nat)
    requires 3 <= m <= 12
    ensures DaysBeforeMonth(y, m) == (153 * (m - 3) + 2) / 5 + 59 + (if Leap(y) then 1 else 0)
  {
    if m == 3 {
      assert DaysBeforeMonth(y, 2) == 31;
    } else {
      MonthStarts(y, m - 1);
    }
  }

  lemma {:induction false} MonthsGrow(y: int, m: nat, n: nat)
    requires 1 <= m < n
    ensures DaysBeforeMonth(y, m) + DaysIn(y, m) <= DaysBeforeMonth(y, n)
    decreases n
  {
    if m < n - 1 { MonthsGrow(y, m, n - 1); }
  }

  lemma {:induction false} YearsGrow(y: int, z: int)
    requires 1 <= y < z
    ensures DaysBeforeYear(y) + DaysBeforeMonth(y, 13) <= DaysBeforeYear(z)
    decreases z
  {
    YearLength(z - 1);
    if y < z - 1 {
      YearsGrow(y, z - 1);
      MonthsGrow(z - 1, 1, 13);
    }
  }

  lemma EarlierIsSmaller(a: Date, b: Date)
    requires Valid(a) && Valid(b) && Before(a, b)
    ensures Ordinal(a) < Ordinal(b)
  {
    if a.y < b.y {
      YearsGrow(a.y, b.y);
      MonthsGrow(a.y, a.m, 13);
      if b.m > 1 { MonthsGrow(b.y, 1, b.m); }
    } else if a.m < b.m {
      MonthsGrow(a.y, a.m, b.m);
    }
  }

  /** Day numbers keep the order of dates, and tell dates apart. */
  lemma OrdinalOrder(a: Date, b: Date)
    requires Valid(a) && Valid(b)
    ensures Before(a, b) <==> Ordinal(a) < Ordinal(b)
    ensures a == b <==> Ordinal(a) == Ordinal(b)
  {
    if Before(a, b) { EarlierIsSmaller(a, b); }
    if Before(b, a) { EarlierIsSmaller(b, a); }
  }

  /** The next day's number is one more; only the last day `datetime` knows has none. */
  lemma NextDayCounts(a: Date)
    requires Valid(a)
    ensures NextDay(a).None? <==> a == Date(9999, 12, 31)
    ensures NextDay(a).Some? ==> Valid(NextDay(a).value) && Ordinal(NextDay(a).value) == Ordinal(a) + 1
  {
    if a.d == DaysIn(a.y, a.m) && a.m == 12 { YearLength(a.y); }
  }

  /** Nothing lies between a day and the next: before the next day means on or before this one. */
  lemma NextDayIsSuccessor(a: Date, x: Date)
    requires Valid(a) && Valid(x) && NextDay(a).Some?
    ensures Before(x, NextDay(a).value) <==> !Before(a, x)
  {
  }

  // ---------- text order ----------

  /** `a < b` on strings: Python's, and SQLite's on ASCII text. */
  predicate Less(a: string, b: string) {
    b != [] && (a == [] || a[0] < b[0] || (a[0] == b[0] && Less(a[1..], b[1..])))
  }

  lemma {:induction false} LessIsTotal(a: string, b: string)
    ensures a == b || Less(a, b) || Less(b, a)
    ensures !(Less(a, b) && Less(b, a)) && !Less(a, a)
  {
    if a != [] && b != [] && a[0] == b[0] {
      LessIsTotal(a[1..], b[1..]);
      assert a == [a[0]] + a[1..] && b == [b[0]] + b[1..];
    }
    if a != [] { LessIsTotal(a[1..], a[1..]); }
  }

  lemma {:induction false} LessIsTransitive(a: string, b: string, c: string)
    requires Less(a, b) && Less(b, c)
    ensures Less(a, c)
  {
    if a != [] && a[0] == b[0] == c[0] { LessIsTransitive(a[1..], b[1..], c[1..]); }
  }

  /** `n` in `w` digits, zeros in front. */
  function Pad(w: nat, n: nat): string {
    if w == 0 then [] else Pad(w - 1, n / 10) + [Digit(n % 10)]
  }

  function Pow10(w: nat): nat { if w == 0 then 1 else 10 * Pow10(w - 1) }

  lemma LessHead(c: char, d: char, s: string, t: string)
    ensures Less([c] + s, [d] + t) <==> c < d || (c == d && Less(s, t))
  {
  }

  /** Fixed-width decimals compare as the numbers they print, then as what follows them. */
  lemma {:induction false} PadLess(w: nat, n: nat, m: nat, s: string, t: string)
    requires n < Pow10(w) && m < Pow10(w)
    ensures Less(Pad(w, n) + s, Pad(w, m) + t) <==> n < m || (n == m && Less(s, t))
  {
    if w == 0 {
      assert Pad(w, n) + s == s && Pad(w, m) + t == t;
    } else {
      var s', t' := [Digit(n % 10)] + s, [Digit(m % 10)] + t;
      assert Pad(w, n) + s == Pad(w - 1, n / 10) + s' && Pad(w, m) + t == Pad(w - 1, m / 10) + t';
      PadLess(w - 1, n / 10, m / 10, s', t');
      LessHead(Digit(n % 10), Digit(m % 10), s, t);
    }
  }

  /** `-MM-DD` and what follows it. */
  function MonthDayThen(a: Date, rest: string): string
    requires Valid(a)
  {
    ['-'] + (Pad(2, a.m) + (['-'] + (Pad(2, a.d) + rest)))
  }

  /** `YYYY-MM-DD` and what follows it. */
  function DateThen(a: Date, rest: string): string
    requires Valid(a)
  {
    Pad(4, a.y) + MonthDayThen(a, rest)
  }

  lemma MonthDayOrder(a: Date, b: Date, s: string, t: string)
    requires Valid(a) && Valid(b)
    ensures Less(MonthDayThen(a, s), MonthDayThen(b, t))
            <==> a.m < b.m || (a.m == b.m && (a.d < b.d || (a.d == b.d && Less(s, t))))
  {
    var da, db := Pad(2, a.d) + s, Pad(2, b.d) + t;
    var ma, mb := Pad(2, a.m) + (['-'] + da), Pad(2, b.m) + (['-'] + db);
    assert Pow10(2) == 100;
    LessHead('-', '-', ma, mb);
    PadLess(2, a.m, b.m, ['-'] + da, ['-'] + db);
    LessHead('-', '-', da, db);
    PadLess(2, a.d, b.d, s, t);
  }

  lemma DateThenOrder(a: Date, b: Date, s: string, t: string)
    requires Valid(a) && Valid(b)
    ensures Less(DateThen(a, s), DateThen(b, t)) <==> Before(a, b) || (a == b && Less(s, t))
  {
    assert Pow10(4) == 10000;
    PadLess(4, a.y, b.y, MonthDayThen(a, s), MonthDayThen(b, t));
    MonthDayOrder(a, b, s, t);
  }

  // ---------- time stamps ----------

  datatype Stamp = Stamp(date: Date, h: nat, mi: nat, s: nat)

  predicate ValidStamp(t: Stamp) { Valid(t.date) && t.h < 24 && t.mi < 60 && t.s < 60 }

  predicate Earlier(t: Stamp, u: Stamp) {
    || Before(t.date, u.date)
    || (t.date == u.date && (t.h < u.h || (t.h == u.h && (t.mi < u.mi || (t.mi == u.mi && t.s < u.s)))))
  }

  /** SQLite's `CURRENT_TIMESTAMP` text, `YYYY-MM-DD HH:MM:SS`. */
  function Clock(h: nat, mi: nat, s: nat): string {
    [' '] + (Pad(2, h) + ([':'] + (Pad(2, mi) + ([':'] + (Pad(2, s) + [])))))
  }

  function Show(t: Stamp): string
    requires ValidStamp(t)
  {
    DateThen(t.date, Clock(t.h, t.mi, t.s))
  }

  lemma ClockOrder(t: Stamp, u: Stamp)
    requires ValidStamp(t) && ValidStamp(u)
    ensures Less(Clock(t.h, t.mi, t.s), Clock(u.h, u.mi, u.s))
            <==> t.h < u.h || (t.h == u.h && (t.mi < u.mi || (t.mi == u.mi && t.s < u.s)))
  {
    var st, su := Pad(2, t.s) + [], Pad(2, u.s) + [];
    var mt, mu := Pad(2, t.mi) + ([':'] + st), Pad(2, u.mi) + ([':'] + su);
    var ht, hu := Pad(2, t.h) + ([':'] + mt), Pad(2, u.h) + ([':'] + mu);
    assert Pow10(2) == 100;
    LessHead(' ', ' ', ht, hu);
    PadLess(2, t.h, u.h, [':'] + mt, [':'] + mu);
    LessHead(':', ':', mt, mu);
    PadLess(2, t.mi, u.mi, [':'] + st, [':'] + su);
    LessHead(':', ':', st, su);
    PadLess(2, t.s, u.s, [], []);
  }

  /** Stored time stamps compare as text exactly as they do in time. */
  lemma ShowOrder(t: Stamp, u: Stamp)
    requires ValidStamp(t) && ValidStamp(u)
    ensures Less(Show(t), Show(u)) <==> Earlier(t, u)
  {
    DateThenOrder(t.date, u.date, Clock(t.h, t.mi, t.s), Clock(u.h, u.mi, u.s));
    ClockOrder(t, u);
  }

  /** `%Y-%m-%d %H:%M:%S`. */
  lemma ShowIs(t: Stamp)
    requires ValidStamp(t)
    ensures Show(t) == Pad(4, t.date.y) + "-" + Pad(2, t.date.m) + "-" + Pad(2, t.date.d)
                       + " " + Pad(2, t.h) + ":" + Pad(2, t.mi) + ":" + Pad(2, t.s)
  {
    hide Pad;
  }

  /** Seconds since the start of day 0. */
  function Seconds(t: Stamp): int
    requires ValidStamp(t)
  {
    Ordinal(t.date) * 86400 + t.h * 3600 + t.mi * 60 + t.s
  }

  /** Comparing two stored time stamps as text is comparing the instants in seconds. */
  lemma TextOrderIsTimeOrder(t: Stamp, u: Stamp)
    requires ValidStamp(t) && ValidStamp(u)
    ensures Less(Show(t), Show(u)) <==> Seconds(t) < Seconds(u)
  {
    ShowOrder(t, u);
    OrdinalOrder(t.date, u.date);
    assert t.h * 3600 + t.mi * 60 + t.s < 86400 && u.h * 3600 + u.mi * 60 + u.s < 86400;
  }

  // ---------- dates in another zone ----------

  /** SQLite's `datetime(t, '+9 hours')`. */
  function PlusNineHours(t: Stamp): (u: Stamp)
    requires ValidStamp(t) && NextDay(t.date).Some?
    ensures ValidStamp(u)
  {
    if t.h < 15 then t.(h := t.h + 9) else Stamp(NextDay(t.date).value, t.h - 15, t.mi, t.s)
  }

  lemma PlusNineHoursIs(t: Stamp)
    requires ValidStamp(t) && NextDay(t.date).Some?
    ensures Seconds(PlusNineHours(t)) == Seconds(t) + 32400
  {
    NextDayCounts(t.date);
  }

  /** `DATE(t)` as text. */
  function DateText(a: Date): string
    requires Valid(a)
  {
    DateThen(a, [])
  }

  /** Date texts sort as the days they name, and are equal for the same day only. */
  lemma DateTextOrder(a: Date, b: Date)
    requires Valid(a) && Valid(b)
    ensures Less(DateText(a), DateText(b)) <==> Ordinal(a) < Ordinal(b)
    ensures DateText(a) == DateText(b) <==> Ordinal(a) == Ordinal(b)
  {
    DateThenOrder(a, b, [], []);
    DateThenOrder(b, a, [], []);
    OrdinalOrder(a, b);
    LessIsTotal(DateText(a), DateText(b));
  }
}
