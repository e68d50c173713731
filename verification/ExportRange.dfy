/**
 The raw query export (app/services/raw_query_export_service.py, app/repositories/event_repository.py):
 a range of calendar dates becomes two bounds in text form, which SQLite compares with the stored text.
 */
module ExportRange {
  import opened Common
  import opened Text
  import opened Calendar

  type Time = t: Stamp | ValidStamp(t) witness Stamp(Date(1970, 1, 1), 0, 0, 0)

  datatype Entry = Entry(id: int, at: Time, eventType: string)

  datatype Request =
    Request(eventType: string, dateFrom: Option<string>, dateTo: Option<string>, limit: int, maxRows: int)

  /** `ValidatedRawQueryExport`, without the timeout. */
  datatype Filter = Filter(eventType: Option<string>, limit: nat, from: Option<string>, before: Option<string>)

  datatype Reason = BadEventType | BadDateFrom | BadDateTo | FromAfterTo

  datatype Verdict = Accepted(filter: Filter) | Rejected(reason: Reason) | Overflow

  // ---------- reading a date ----------

  function DigitsOf(s: string): Option<nat> {
    if s == [] then Some(0)
    else if !IsDigit(s[|s| - 1]) then None
    else
      var high := DigitsOf(s[..|s| - 1]);
      if high.None? then None else Some(10 * high.value + (s[|s| - 1] - '0') as nat)
  }

  /** `%m` and `%d`: one or two digits; a day may have a space for the first of them. */
  function Field(s: string, spaced: bool): Option<nat> {
    if |s| == 2 && spaced && s[0] == ' ' then DigitsOf(s[1..])
    else if 1 <= |s| <= 2 then DigitsOf(s)
    else None
  }

  /** `datetime.strptime(raw, "%Y-%m-%d")`; `None` stands for `ValueError`. */
  function ParseDate(raw: string): (r: Option<Date>)
    ensures r.Some? ==> Valid(r.value)
  {
    if |raw| < 5 || raw[4] != '-' then None
    else
      var cut := Find(raw[5..], '-');
      if cut == |raw[5..]| then None
      else
        var y, m, d := DigitsOf(raw[..4]), Field(raw[5..][..cut], false), Field(raw[5..][cut + 1..], true);
        if y.Some? && m.Some? && d.Some? && Valid(Date(y.value, m.value, d.value))
        then Some(Date(y.value, m.value, d.value)) else None
  }

  predicate Blank(raw: Option<string>) { raw.None? || Strip(Spaces, raw.value) == [] }

  // ---------- the bounds ----------

  /** What `strftime` makes of `%Y` below the year 1000: four digits in all, or no zeros in front. */
  datatype Runtime = Padding | Bare {
    function Year(y: nat): string { if Padding? then Pad(4, y) else Print(y) }
  }

  /** `strftime("%Y-%m-%d 00:00:00")`. */
  function Midnight(rt: Runtime, a: Date): string
    requires Valid(a)
  {
    rt.Year(a.y) + MonthDayThen(a, Clock(0, 0, 0))
  }

  datatype Bound = Unbounded | At(text: string) | Unreadable | TooLate

  function DateStart(rt: Runtime, raw: Option<string>): Bound {
    if Blank(raw) then Unbounded
    else match ParseDate(raw.value) case None => Unreadable case Some(a) => At(Midnight(rt, a))
  }

  function DateEndExclusive(rt: Runtime, raw: Option<string>): Bound {
    if Blank(raw) then Unbounded
    else
      match ParseDate(raw.value)
      case None => Unreadable
      case Some(a) =>
        match NextDay(a)
        case None => TooLate
        case Some(next) => At(Midnight(rt, next))
  }

  function BoundText(b: Bound): Option<string> { if b.At? then Some(b.text) else None }

  function Validate(rt: Runtime, r: Request): Verdict {
    if r.eventType !in {"all", "search", "land_click"} then Rejected(BadEventType)
    else
      var from := DateStart(rt, r.dateFrom);
      if from.Unreadable? then Rejected(BadDateFrom)
      else
        var to := DateEndExclusive(rt, r.dateTo);
        if to.Unreadable? then Rejected(BadDateTo)
        else if to.TooLate? then Overflow
        else if from.At? && to.At? && !Less(from.text, to.text) then Rejected(FromAfterTo)
        else
          Accepted(Filter(if r.eventType == "all" then None else Some(r.eventType),
                          Max(1, Min(r.limit, r.maxRows)), BoundText(from), BoundText(to)))
  }

  // ---------- the query ----------

  datatype Condition = EventTypeIs(text: string) | CreatedFrom(text: string) | CreatedBefore(text: string) {
    predicate Holds(e: Entry) {
      match this
      case EventTypeIs(text) => e.eventType == text
      case CreatedFrom(text) => !Less(Show(e.at), text)
      case CreatedBefore(text) => Less(Show(e.at), text)
    }
  }

  predicate Matches(f: Filter, e: Entry) {
    && (f.eventType.Some? ==> e.eventType == f.eventType.value)
    && (f.from.Some? ==> !Less(Show(e.at), f.from.value))
    && (f.before.Some? ==> Less(Show(e.at), f.before.value))
  }

  /** `ORDER BY created_at DESC, id DESC`. */
  predicate Newer(a: Entry, b: Entry) {
    Less(Show(b.at), Show(a.at)) || (Show(b.at) == Show(a.at) && a.id > b.id)
  }

  function Insert(e: Entry, s: seq<Entry>): seq<Entry> {
    if s == [] || Newer(e, s[0]) then [e] + s else [s[0]] + Insert(e, s[1..])
  }

  /** The entries of the log that a filter lets through, newest first. */
  function Select(log: seq<Entry>, f: Filter): seq<Entry> {
    if log == [] then []
    else if Matches(f, log[0]) then Insert(log[0], Select(log[1..], f))
    else Select(log[1..], f)
  }

  predicate AllHold(conditions: seq<Condition>, e: Entry) {
    forall k :: 0 <= k < |conditions| ==> conditions[k].Holds(e)
  }

  /** `WHERE c1 AND c2 ... ORDER BY ... LIMIT n` in SQLite. */
  function Where(log: seq<Entry>, conditions: seq<Condition>): seq<Entry> {
    if log == [] then []
    else if AllHold(conditions, log[0]) then Insert(log[0], Where(log[1..], conditions))
    else Where(log[1..], conditions)
  }

  method FetchRawQueryLogs(log: seq<Entry>, f: Filter) returns (rows: seq<Entry>)
    ensures rows == Take(Select(log, f), f.limit)
  {
    var conditions: seq<Condition> := [];
    if f.eventType.Some? { conditions := conditions + [EventTypeIs(f.eventType.value)]; }
    if f.from.Some? { conditions := conditions + [CreatedFrom(f.from.value)]; }
    if f.before.Some? { conditions := conditions + [CreatedBefore(f.before.value)]; }
    forall e: Entry ensures AllHold(conditions, e) <==> Matches(f, e) {
      if f.eventType.Some? { assert conditions[0].EventTypeIs?; }
      if AllHold(conditions, e) {
        if f.before.Some? { assert conditions[|conditions| - 1].Holds(e); }
        if f.from.Some? { assert conditions[if f.eventType.Some? then 1 else 0].Holds(e); }
        if f.eventType.Some? { assert conditions[0].Holds(e); }
      }
    }
    WhereIsSelect(log, conditions, f);
    rows := Take(Where(log, conditions), f.limit);
  }

  lemma {:induction false} WhereIsSelect(log: seq<Entry>, conditions: seq<Condition>, f: Filter)
    requires forall e: Entry :: AllHold(conditions, e) <==> Matches(f, e)
    ensures Where(log, conditions) == Select(log, f)
  {
    if log != [] { WhereIsSelect(log[1..], conditions, f); }
  }

  // ---------- what counts as a date ----------

  /** The ways to write a month or a day: two digits, one digit, or - a day only - a space and one digit. */
  predicate Spells(s: string, n: nat, spaced: bool) {
    s == Pad(2, n) || (n < 10 && (s == Pad(1, n) || (spaced && s == [' '] + Pad(1, n))))
  }

  lemma {:induction false} PadIsWide(w: nat, n: nat)
    ensures |Pad(w, n)| == w
  {
    if w > 0 { PadIsWide(w - 1, n / 10); }
  }

  lemma PadSnoc(s: string, n: nat)
    requires s != []
    ensures s == Pad(|s|, n) <==> s[..|s| - 1] == Pad(|s| - 1, n / 10) && s[|s| - 1] == Digit(n % 10)
  {
    PadIsWide(|s| - 1, n / 10);
    SplitLast(s, Pad(|s| - 1, n / 10), Digit(n % 10));
  }

  lemma SplitLast(s: string, init: string, last: char)
    requires |s| == |init| + 1
    ensures s == init + [last] <==> s[..|s| - 1] == init && s[|s| - 1] == last
  {
  }

  lemma {:induction false} DigitsPad(s: string, n: nat)
    ensures DigitsOf(s) == Some(n) <==> s == Pad(|s|, n) && n < Pow10(|s|)
  {
    if s != [] {
      hide DigitsOf, Pad, Pow10, Digit;
      DigitsPad(s[..|s| - 1], n / 10);
      PadSnoc(s, n);
      DigitsSnoc(s, n);
      PowSnoc(n, |s|);
    }
  }

  lemma DigitsSnoc(s: string, n: nat)
    requires s != []
    ensures DigitsOf(s) == Some(n) <==> DigitsOf(s[..|s| - 1]) == Some(n / 10) && s[|s| - 1] == Digit(n % 10)
  {
    var c, high := s[|s| - 1], DigitsOf(s[..|s| - 1]);
    DigitIs(c, n % 10);
    if IsDigit(c) && high.Some? {
      var d := (c - '0') as nat;
      assert DigitsOf(s) == Some(10 * high.value + d) && d < 10;
      hide *;
      TensAndUnits(n, high.value, d);
    }
  }

  lemma DigitIs(c: char, d: nat)
    requires d < 10
    ensures c == Digit(d) <==> IsDigit(c) && (c - '0') as nat == d
  {
  }

  lemma TensAndUnits(n: nat, high: nat, d: nat)
    requires d < 10
    ensures n == 10 * high + d <==> high == n / 10 && d == n % 10
  {
  }

  lemma PowSnoc(n: nat, w: nat)
    requires w > 0
    ensures n < Pow10(w) <==> n / 10 < Pow10(w - 1)
  {
  }

  lemma {:induction false} PadLength(w: nat, n: nat)
    ensures |Pad(w, n)| == w && forall k :: 0 <= k < w ==> IsDigit(Pad(w, n)[k])
  {
    if w > 0 { PadLength(w - 1, n / 10); }
  }

  lemma FieldSpells(s: string, n: nat, spaced: bool)
    requires n < 100
    ensures Field(s, spaced) == Some(n) <==> Spells(s, n, spaced)
  {
    assert Pow10(1) == 10 && Pow10(2) == 100;
    PadLength(1, n);
    PadLength(2, n);
    DigitsPad(s, n);
    if s != [] { DigitsPad(s[1..], n); }
  }

  /** Exactly the spellings of a valid date are read, and as that date. */
  lemma ParseDateIff(raw: string, a: Date)
    ensures ParseDate(raw) == Some(a) <==>
            Valid(a) && exists m, d :: Spells(m, a.m, false) && Spells(d, a.d, true) && raw == Spelt(a.y, m, d)
  {
    if ParseDate(raw) == Some(a) {
      var m, d := ReadIsSpelt(raw, a);
    }
    if Valid(a) && exists m, d :: Spells(m, a.m, false) && Spells(d, a.d, true) && raw == Spelt(a.y, m, d) {
      var m, d :| Spells(m, a.m, false) && Spells(d, a.d, true) && raw == Spelt(a.y, m, d);
      SpeltIsRead(a, m, d);
    }
  }

  lemma ReadIsSpelt(raw: string, a: Date) returns (m: string, d: string)
    requires ParseDate(raw) == Some(a)
    ensures Spells(m, a.m, false) && Spells(d, a.d, true) && raw == Spelt(a.y, m, d)
  {
    var cut := Find(raw[5..], '-');
    m, d := raw[5..][..cut], raw[5..][cut + 1..];
    assert raw == raw[..4] + ['-'] + m + ['-'] + d;
    DigitsPad(raw[..4], a.y);
    FieldSpells(m, a.m, false);
    FieldSpells(d, a.d, true);
  }

  function Spelt(y: nat, m: string, d: string): string { Pad(4, y) + ['-'] + m + ['-'] + d }

  lemma SpeltParts(y: nat, m: string, d: string)
    requires '-' !in m
    ensures var raw := Spelt(y, m, d);
            && |raw| >= 6 && raw[..4] == Pad(4, y) && raw[4] == '-'
            && Find(raw[5..], '-') == |m| < |raw[5..]| && raw[5..][..|m|] == m && raw[5..][|m| + 1..] == d
  {
    var raw := Spelt(y, m, d);
    PadLength(4, y);
    assert raw[5..] == m + ['-'] + d;
    FindIsFirst(raw[5..], '-', |m|);
  }

  lemma SpeltIsRead(a: Date, m: string, d: string)
    requires Valid(a) && Spells(m, a.m, false) && Spells(d, a.d, true)
    ensures ParseDate(Spelt(a.y, m, d)) == Some(a)
  {
    assert Pow10(4) == 10000;
    PadLength(4, a.y);
    PadLength(1, a.m);
    PadLength(2, a.m);
    SpeltParts(a.y, m, d);
    DigitsPad(Pad(4, a.y), a.y);
    FieldSpells(m, a.m, false);
    FieldSpells(d, a.d, true);
  }

  // ---------- the bounds select calendar days ----------

  /** The dates a request names; `None` where it leaves one out. */
  function Named(raw: Option<string>): Option<Date> { if Blank(raw) then None else ParseDate(raw.value) }

  predicate Between(a: Date, from: Option<Date>, to: Option<Date>) {
    (from.Some? ==> !Before(a, from.value)) && (to.Some? ==> !Before(to.value, a))
  }

  /** Dates that have bounds: valid ones, the last with a next day. */
  predicate Bounded(from: Option<Date>, to: Option<Date>) {
    (from.Some? ==> Valid(from.value)) && (to.Some? ==> Valid(to.value) && NextDay(to.value).Some?)
  }

  /** What the two bounds let through. */
  predicate Passes(rt: Runtime, t: Time, from: Option<Date>, to: Option<Date>)
    requires Bounded(from, to)
  {
    && (from.Some? ==> !Less(Show(t), Midnight(rt, from.value)))
    && (to.Some? ==> Less(Show(t), Midnight(rt, NextDay(to.value).value)))
  }

  /** Both bounds print with a year of four digits. */
  predicate FourDigitYears(rt: Runtime, from: Option<Date>, to: Option<Date>) {
    rt.Padding? ||
    (&& (from.Some? ==> from.value.y >= 1000)
     && (to.Some? && NextDay(to.value).Some? ==> NextDay(to.value).value.y >= 1000))
  }

  lemma {:induction false} PrintIsPad(w: nat, n: nat)
    requires w >= 1 && n < Pow10(w) && (w == 1 || n >= Pow10(w - 1))
    ensures Print(n) == Pad(w, n)
  {
    if w > 1 { PrintIsPad(w - 1, n / 10); }
  }

  lemma FourDigits(n: nat)
    requires 1000 <= n < 10000
    ensures Print(n) == Pad(4, n)
  {
    assert Pow10(3) == 1000 && Pow10(4) == 10000;
    PrintIsPad(4, n);
  }

  lemma {:induction false} PrintLeads(n: nat)
    requires n >= 1
    ensures Print(n) != [] && Print(n)[0] > '0'
  {
    if n >= 10 { PrintLeads(n / 10); }
  }

  /** A stored time is before the midnight that starts a day iff its own day is earlier. */
  lemma BeforeMidnight(rt: Runtime, t: Time, a: Date)
    requires Valid(a) && (rt.Padding? || a.y >= 1000)
    ensures Less(Show(t), Midnight(rt, a)) <==> Before(t.date, a)
  {
    if rt.Bare? { FourDigits(a.y); }
    var midnight: Time := Stamp(a, 0, 0, 0);
    assert Midnight(rt, a) == Show(midnight);
    ShowOrder(t, midnight);
  }

  /** A year below 1000 may be printed short, and then sorts after its own stored form. */
  lemma ShortYearsSortLate(t: Time, a: Date)
    requires Valid(a) && t.date == a && a.y < 1000
    ensures Less(Show(t), Midnight(Bare, a))
  {
    PrintLeads(a.y);
    LeadingZero(a.y);
  }

  lemma LeadingZero(y: nat)
    requires y < 1000
    ensures Pad(4, y) != [] && Pad(4, y)[0] == '0'
  {
    PadLength(3, y / 10);
    assert Pow10(3) == 1000 && Pow10(4) == 10000;
    PadLess(4, y, 1000, [], []);
    assert y / 10 / 10 / 10 == 0;
    assert Pad(1, 0) == [Digit(0)];
  }

  /** The bounds select exactly the days from `from` to `to` iff both print with four-digit years. */
  lemma BoundsAreExactIff(rt: Runtime, from: Option<Date>, to: Option<Date>)
    requires Bounded(from, to) && (from.Some? && to.Some? ==> !Before(to.value, from.value))
    ensures (forall t: Time :: Passes(rt, t, from, to) <==> Between(t.date, from, to)) <==> FourDigitYears(rt, from, to)
  {
    if FourDigitYears(rt, from, to) {
      forall t: Time ensures Passes(rt, t, from, to) <==> Between(t.date, from, to) { BoundsAreExact(rt, t, from, to); }
    } else {
      var t := Misjudged(from, to);
      assert Passes(rt, t, from, to) != Between(t.date, from, to);
    }
  }

  /** A time that bounds with a short year get wrong. */
  lemma Misjudged(from: Option<Date>, to: Option<Date>) returns (t: Time)
    requires Bounded(from, to) && (from.Some? && to.Some? ==> !Before(to.value, from.value))
    requires !FourDigitYears(Bare, from, to)
    ensures Passes(Bare, t, from, to) != Between(t.date, from, to)
  {
    if from.Some? && from.value.y < 1000 {
      t := Stamp(from.value, 0, 0, 0);
      ShortYearsSortLate(t, from.value);
    } else {
      NextDayCounts(to.value);
      t := Stamp(NextDay(to.value).value, 0, 0, 0);
      ShortYearsSortLate(t, t.date);
      NextDayIsSuccessor(to.value, t.date);
    }
  }

  lemma BoundsAreExact(rt: Runtime, t: Time, from: Option<Date>, to: Option<Date>)
    requires Bounded(from, to) && FourDigitYears(rt, from, to)
    ensures Passes(rt, t, from, to) <==> Between(t.date, from, to)
  {
    if from.Some? { BeforeMidnight(rt, t, from.value); }
    if to.Some? {
      NextDayCounts(to.value);
      BeforeMidnight(rt, t, NextDay(to.value).value);
      NextDayIsSuccessor(to.value, t.date);
    }
  }

  // ---------- whole requests ----------

  predicate Readable(raw: Option<string>) { Blank(raw) || ParseDate(raw.value).Some? }

  /** What is refused before the dates are compared, and what becomes of the limit. */
  lemma RefusalsAre(rt: Runtime, r: Request)
    ensures var known := r.eventType == "all" || r.eventType == "search" || r.eventType == "land_click";
            && (Validate(rt, r) == Rejected(BadEventType) <==> !known)
            && (Validate(rt, r) == Rejected(BadDateFrom) <==> known && !Readable(r.dateFrom))
            && (Validate(rt, r) == Rejected(BadDateTo) <==> known && Readable(r.dateFrom) && !Readable(r.dateTo))
    ensures Validate(rt, r).Accepted? ==>
              var limit := Validate(rt, r).filter.limit;
              && (1 <= r.maxRows < r.limit ==> limit == r.maxRows) && (1 <= r.limit <= r.maxRows ==> limit == r.limit)
              && (r.limit < 1 || r.maxRows < 1 ==> limit == 1)
  {
    hide ParseDate, Blank, Midnight, Less;
  }

  /** The first `w` digits of a number. */
  function Lead(n: nat, w: nat): nat { if |Print(n)| <= w || n < 10 then n else Lead(n / 10, w) }

  /**
   Two years sort as text as they do as numbers: they have equally many digits, or the shorter one is at
   most what the longer one starts with.
   */
  predicate SortAsNumbers(y: nat, z: nat) {
    if |Print(y)| < |Print(z)| then y <= Lead(z, |Print(y)|)
    else if |Print(z)| < |Print(y)| then z <= Lead(y, |Print(z)|)
    else true
  }

  /** The dates are refused iff the first is later than the second; only the last day there is crashes. */
  predicate RightVerdict(rt: Runtime, r: Request) {
    var from, to := Named(r.dateFrom), Named(r.dateTo);
    && (Validate(rt, r) == Overflow <==> to == Some(Date(9999, 12, 31)))
    && (Validate(rt, r) == Rejected(FromAfterTo) <==> from.Some? && to.Some? && Before(to.value, from.value))
  }

  /**
   The verdict on two readable dates is right iff the years of the two bounds sort as text as they do as
   numbers - always, if they are padded.
   */
  lemma VerdictIsExactIff(rt: Runtime, r: Request)
    requires r.eventType in {"all", "search", "land_click"} && Readable(r.dateFrom) && Readable(r.dateTo)
    ensures Validate(rt, r).Accepted? || Validate(rt, r) == Overflow || Validate(rt, r) == Rejected(FromAfterTo)
    ensures var from, to := Named(r.dateFrom), Named(r.dateTo);
            RightVerdict(rt, r) <==>
              rt.Padding? || (from.Some? && to.Some? && NextDay(to.value).Some? ==>
                                SortAsNumbers(from.value.y, NextDay(to.value).value.y))
  {
    hide Midnight, Less, SortAsNumbers, ParseDate, Strip;
    var from, to := Named(r.dateFrom), Named(r.dateTo);
    if to.Some? {
      NextDayCounts(to.value);
      if from.Some? && NextDay(to.value).Some? {
        PaddedMidnightsInOrder(from.value, to.value);
        MidnightsInOrderIff(from.value, to.value);
      }
    }
  }

  lemma PaddedMidnightsInOrder(from: Date, to: Date)
    requires Valid(from) && Valid(to) && NextDay(to).Some?
    ensures Less(Midnight(Padding, from), Midnight(Padding, NextDay(to).value)) <==> !Before(to, from)
  {
    var midnight: Time := Stamp(from, 0, 0, 0);
    assert Midnight(Padding, from) == Show(midnight);
    BeforeMidnight(Padding, midnight, NextDay(to).value);
    NextDayIsSuccessor(to, from);
  }

  /** Without padding it can be wrong: from a day in 999 to a day in 1000 is a proper range, and refused. */
  lemma ShortYearRefused(r: Request, from: Date, to: Date)
    requires r.eventType == "all" && Named(r.dateFrom) == Some(from) && Named(r.dateTo) == Some(to)
    requires from.y == 999 && to.y == 1000 && to.m < 12
    ensures Before(from, to) && Validate(Bare, r) == Rejected(FromAfterTo)
  {
    hide Midnight, Less, SortAsNumbers, ParseDate, Strip;
    NextDayCounts(to);
    YearsOutOfOrder();
    MidnightsInOrderIff(from, to);
  }

  lemma YearsOutOfOrder()
    ensures !SortAsNumbers(999, 1000)
  {
    assert Pow10(3) == 1000 && Pow10(2) == 100 && Pow10(4) == 10000;
    PrintIsPad(3, 999);
    PrintIsPad(4, 1000);
    PrintIsPad(3, 100);
    PadIsWide(3, 999);
    PadIsWide(4, 1000);
    PadIsWide(3, 100);
    assert Lead(1000, 3) == Lead(100, 3) == 100;
  }

  /** Two bounds without padding are in text order as the two days are in calendar order. */
  lemma MidnightsInOrderIff(from: Date, to: Date)
    requires Valid(from) && Valid(to) && NextDay(to).Some?
    ensures (Less(Midnight(Bare, from), Midnight(Bare, NextDay(to).value)) <==> !Before(to, from))
            <==> SortAsNumbers(from.y, NextDay(to).value.y)
  {
    var next := NextDay(to).value;
    var s, t := MonthDayThen(from, Clock(0, 0, 0)), MonthDayThen(next, Clock(0, 0, 0));
    NextDayIsSuccessor(to, from);
    if |Print(from.y)| < |Print(next.y)| {
      ShorterFirst(from.y, next.y, s, t);
      WidthOrder(from.y, next.y);
    } else if |Print(next.y)| < |Print(from.y)| {
      ShorterFirst(next.y, from.y, t, s);
      WidthOrder(next.y, from.y);
    } else {
      SameWidthOrder(from.y, next.y, s, t);
      MonthDayOrder(from, next, Clock(0, 0, 0), Clock(0, 0, 0));
      LessIsTotal(Clock(0, 0, 0), Clock(0, 0, 0));
    }
  }

  lemma {:induction false} WidthIs(n: nat)
    ensures |Print(n)| >= 1 && n < Pow10(|Print(n)|) && (|Print(n)| > 1 ==> n >= Pow10(|Print(n)| - 1))
    ensures Print(n) == Pad(|Print(n)|, n)
  {
    if n < 10 {
      assert Pow10(1) == 10 * Pow10(0) && Pow10(0) == 1;
      assert Pad(1, n) == Pad(0, 0) + [Digit(n)] && Pad(0, 0) == [];
    } else {
      WidthIs(n / 10);
    }
  }

  lemma {:induction false} Pow10Grows(v: nat, w: nat)
    requires v <= w
    ensures 1 <= Pow10(v) <= Pow10(w)
    decreases w
  {
    if v < w { Pow10Grows(v, w - 1); } else if v > 0 { Pow10Grows(v - 1, v - 1); }
  }

  lemma WidthOrder(y: nat, z: nat)
    requires |Print(y)| < |Print(z)|
    ensures y < z
  {
  }

  lemma SameWidthOrder(y: nat, z: nat, s: string, t: string)
    requires |Print(y)| == |Print(z)|
    ensures Less(Print(y) + s, Print(z) + t) <==> y < z || (y == z && Less(s, t))
  {
    WidthIs(y);
    WidthIs(z);
    PadLess(|Print(y)|, y, z, s, t);
  }

  lemma {:induction false} LeadIs(n: nat, w: nat)
    requires 1 <= w <= |Print(n)|
    ensures Print(Lead(n, w)) == Print(n)[..w]
  {
    if w < |Print(n)| { LeadIs(n / 10, w); }
  }

  /** A number is its leading digits and then more digits, which sort after a '-'. */
  lemma LeadSplits(z: nat, w: nat, t: string) returns (rest: string)
    requires 1 <= w < |Print(z)|
    ensures Print(z) + t == Print(Lead(z, w)) + rest && |Print(Lead(z, w))| == w
    ensures rest != [] && rest[0] > '-'
  {
    LeadIs(z, w);
    PrintIsDigits(z);
    assert Print(z)[w] > '-';
    hide *;
    rest := CutAfter(Print(z), w, t);
  }

  lemma CutAfter(s: string, w: nat, t: string) returns (rest: string)
    requires w < |s|
    ensures s + t == s[..w] + rest && rest != [] && rest[0] == s[w]
  {
    rest := s[w..] + t;
    assert s == s[..w] + s[w..];
    ConcatAssociative(s[..w], s[w..], t);
  }

  lemma ShorterFirst(y: nat, z: nat, s: string, t: string)
    requires |Print(y)| < |Print(z)| && s != [] && t != [] && s[0] == t[0] == '-'
    ensures Less(Print(y) + s, Print(z) + t) <==> y <= Lead(z, |Print(y)|)
    ensures Less(Print(z) + t, Print(y) + s) <==> Lead(z, |Print(y)|) < y
  {
    WidthIs(y);
    var u := Lead(z, |Print(y)|);
    var rest := LeadSplits(z, |Print(y)|, t);
    DashFirst(y, u, s, rest);
  }

  lemma DashFirst(y: nat, u: nat, s: string, rest: string)
    requires |Print(y)| == |Print(u)| && s != [] && s[0] == '-' && rest != [] && rest[0] > '-'
    ensures Less(Print(y) + s, Print(u) + rest) <==> y <= u
    ensures Less(Print(u) + rest, Print(y) + s) <==> u < y
  {
    SameWidthOrder(y, u, s, rest);
    SameWidthOrder(u, y, rest, s);
  }

  // ---------- what is exported ----------

  /** Newest first by time, then by id. */
  predicate After(a: Entry, b: Entry) { Earlier(b.at, a.at) || (b.at == a.at && a.id > b.id) }

  predicate Descending(s: seq<Entry>) { forall i, j :: 0 <= i < j < |s| ==> After(s[i], s[j]) }

  predicate DistinctIds(log: seq<Entry>) { forall i, j :: 0 <= i < j < |log| ==> log[i].id != log[j].id }

  lemma NewerIsAfter(a: Entry, b: Entry)
    ensures Newer(a, b) <==> After(a, b)
  {
    ShowOrder(a.at, b.at);
    ShowOrder(b.at, a.at);
    LessIsTotal(Show(a.at), Show(b.at));
  }

  lemma {:induction false} InsertMembers(e: Entry, s: seq<Entry>, x: Entry)
    ensures x in Insert(e, s) <==> x == e || x in s
  {
    if s != [] && !Newer(e, s[0]) { InsertMembers(e, s[1..], x); }
  }

  lemma {:induction false} InsertKeepsOrder(e: Entry, s: seq<Entry>)
    requires Descending(s) && forall k :: 0 <= k < |s| ==> s[k].id != e.id
    ensures Descending(Insert(e, s))
  {
    hide Newer;
    if s != [] {
      NewerIsAfter(e, s[0]);
      if !Newer(e, s[0]) {
        InsertKeepsOrder(e, s[1..]);
        var tail := Insert(e, s[1..]);
        forall k | 0 <= k < |tail| ensures After(s[0], tail[k]) { InsertMembers(e, s[1..], tail[k]); }
      }
    }
  }

  lemma {:induction false} SelectIsExact(log: seq<Entry>, f: Filter)
    requires DistinctIds(log)
    ensures Descending(Select(log, f))
    ensures forall e :: e in Select(log, f) <==> e in log && Matches(f, e)
  {
    if log != [] {
      SelectIsExact(log[1..], f);
      assert log == [log[0]] + log[1..];
      var rest := Select(log[1..], f);
      if Matches(f, log[0]) {
        forall k | 0 <= k < |rest| ensures rest[k].id != log[0].id { assert rest[k] in log[1..]; }
        InsertKeepsOrder(log[0], rest);
        forall e ensures e in Select(log, f) <==> e == log[0] || e in rest { InsertMembers(log[0], rest, e); }
      }
    }
  }

  predicate AskedFor(e: Entry, r: Request) {
    (r.eventType == "all" || e.eventType == r.eventType) && Between(e.at.date, Named(r.dateFrom), Named(r.dateTo))
  }

  /** The entry has the type the request names and lies between the bounds as they print. */
  predicate LetThrough(rt: Runtime, e: Entry, r: Request) {
    && Bounded(Named(r.dateFrom), Named(r.dateTo))
    && (r.eventType == "all" || e.eventType == r.eventType)
    && Passes(rt, e.at, Named(r.dateFrom), Named(r.dateTo))
  }

  /** The first rows of `wanted`, newest first: one is left out only if the limit is used up by later ones. */
  ghost predicate NewestOf(rows: seq<Entry>, wanted: set<Entry>, limit: nat) {
    && Descending(rows) && |rows| <= limit
    && (forall e :: e in rows ==> e in wanted)
    && (forall e :: e in wanted && e !in rows ==> |rows| == limit && forall k :: 0 <= k < |rows| ==> After(rows[k], e))
  }

  /**
   An accepted request exports, newest first and up to its limit, exactly the entries that its type and its
   bounds let through; and these are the entries of the days it names whenever its bounds print with
   four-digit years - so for every request, if the runtime pads.
   */
  lemma ExportIsExact(rt: Runtime, log: seq<Entry>, r: Request)
    requires DistinctIds(log) && Validate(rt, r).Accepted?
    ensures var f := Validate(rt, r).filter;
            && NewestOf(Take(Select(log, f), f.limit), (set e | e in log && LetThrough(rt, e, r)), f.limit)
            && 1 <= f.limit && (1 <= r.maxRows ==> f.limit <= r.maxRows)
            && (1 <= r.limit <= r.maxRows ==> f.limit == r.limit)
    ensures FourDigitYears(rt, Named(r.dateFrom), Named(r.dateTo)) ==>
              forall e :: LetThrough(rt, e, r) <==> AskedFor(e, r)
  {
    var f := Validate(rt, r).filter;
    assert 1 <= f.limit && (1 <= r.maxRows ==> f.limit <= r.maxRows);
    assert 1 <= r.limit <= r.maxRows ==> f.limit == r.limit;
    hide Validate, LetThrough, AskedFor, Matches, Select, FourDigitYears, NewestOf, Descending, DistinctIds, Named;
    SelectIsExact(log, f);
    forall e: Entry ensures Matches(f, e) <==> LetThrough(rt, e, r) { FilterLetsThrough(rt, e, r); }
    FirstAreNewest(Select(log, f), (set e | e in log && LetThrough(rt, e, r)), f.limit);
    if FourDigitYears(rt, Named(r.dateFrom), Named(r.dateTo)) {
      forall e: Entry ensures LetThrough(rt, e, r) <==> AskedFor(e, r) { LetThroughIsAskedFor(rt, e, r); }
    }
  }

  lemma LetThroughIsAskedFor(rt: Runtime, e: Entry, r: Request)
    requires Validate(rt, r).Accepted? && FourDigitYears(rt, Named(r.dateFrom), Named(r.dateTo))
    ensures LetThrough(rt, e, r) <==> AskedFor(e, r)
  {
    FilterLetsThrough(rt, e, r);
    hide Validate, Named, Passes, Between, Bounded, FourDigitYears;
    BoundsAreExact(rt, e.at, Named(r.dateFrom), Named(r.dateTo));
  }

  lemma FirstAreNewest(all: seq<Entry>, wanted: set<Entry>, limit: nat)
    requires Descending(all) && forall e :: e in all <==> e in wanted
    ensures NewestOf(Take(all, limit), wanted, limit)
  {
    var rows := Take(all, limit);
    forall e | e in wanted && e !in rows ensures |rows| == limit && forall k :: 0 <= k < |rows| ==> After(rows[k], e) {
      var i :| 0 <= i < |all| && all[i] == e;
      assert forall k :: 0 <= k < |rows| ==> rows[k] == all[k];
    }
  }

  lemma FilterLetsThrough(rt: Runtime, e: Entry, r: Request)
    requires Validate(rt, r).Accepted?
    ensures Bounded(Named(r.dateFrom), Named(r.dateTo))
    ensures Matches(Validate(rt, r).filter, e) <==> LetThrough(rt, e, r)
  {
    hide Midnight, Less, Show, ParseDate, Strip;
    var to := Named(r.dateTo);
    if to.Some? { NextDayCounts(to.value); }
  }
}
