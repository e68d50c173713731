/**
 The visitor statistics page (app/services/web_stats_queries.py, app/services/web_stats_presenter.py,
 app/repositories/web_visit_query_repository.py): today's figure, the sessions and the daily trend come
 from three queries with two different windows, and have to agree.

 Instants are whole seconds since the epoch (UTC), and a day is the number of days since then in Korean
 time.  `TextIsTime` ties both to the text that is stored and grouped by.
 */
module WebStats {
  import opened Calendar
  import opened Common

  const SECONDS_PER_DAY := 86400
  const SEOUL_OFFSET := 32400
  const DWELL_CAP := 28800

  datatype Event = Event(at: int, anonId: string, sessionId: string, pagePath: string, isBot: bool)

  datatype Day = Day(n: int)

  function KstDay(at: int): Day { Day((at + SEOUL_OFFSET) / SECONDS_PER_DAY) }

  // ---------- instants and days against the stored text ----------

  /** The day number of 1970-01-01. */
  const EPOCH_DAY := 719163

  /** The instant that a stored time stamp names, in seconds since the epoch. */
  function Instant(t: Stamp): int
    requires ValidStamp(t)
  {
    Seconds(t) - EPOCH_DAY * SECONDS_PER_DAY
  }

  /** That number is right: the epoch is instant 0, so `Instant` counts as `strftime('%s', ...)` does. */
  lemma EpochIsDayZero()
    ensures Instant(Stamp(Date(1970, 1, 1), 0, 0, 0)) == 0
  {
    assert DaysBeforeMonth(1970, 1) == 0;
  }

  /** The instant in closed form, as `strftime('%s', ...)` computes it (RFC 3339, section 5.7). */
  lemma InstantIs(t: Stamp)
    requires ValidStamp(t)
    ensures var y, m := if t.date.m <= 2 then t.date.y - 1 else t.date.y, (t.date.m + 9) % 12;
            Instant(t)
            == (365 * y + y / 4 - y / 100 + y / 400 + (153 * m + 2) / 5 + t.date.d - 719469) * 86400
               + t.h * 3600 + t.mi * 60 + t.s
  {
    OrdinalIs(t.date);
    hide Ordinal;
  }

  /** `DATE(datetime(t, '+9 hours'))` names the Korean day of the instant. */
  lemma KstDayIsTheDate(t: Stamp)
    requires ValidStamp(t) && NextDay(t.date).Some?
    ensures Ordinal(PlusNineHours(t).date) == KstDay(Instant(t)).n + EPOCH_DAY
  {
    var u := PlusNineHours(t);
    PlusNineHoursIs(t);
    assert 0 <= u.h * 3600 + u.mi * 60 + u.s < SECONDS_PER_DAY;
  }

  /**
   The queries group and sort by text: two stamps have the same Korean date text iff their instants fall on
   one day, date texts sort as days do, and a stamp is at or after a bound as text iff it is in time.
   */
  lemma TextIsTime(t: Stamp, u: Stamp)
    requires ValidStamp(t) && ValidStamp(u) && NextDay(t.date).Some? && NextDay(u.date).Some?
    ensures var a, b := PlusNineHours(t).date, PlusNineHours(u).date;
            && (DateText(a) == DateText(b) <==> KstDay(Instant(t)) == KstDay(Instant(u)))
            && (Less(DateText(a), DateText(b)) <==> KstDay(Instant(t)).n < KstDay(Instant(u)).n)
    ensures Less(Show(t), Show(u)) <==> Instant(t) < Instant(u)
  {
    KstDayIsTheDate(t);
    KstDayIsTheDate(u);
    DateTextOrder(PlusNineHours(t).date, PlusNineHours(u).date);
    TextOrderIsTimeOrder(t, u);
  }

  // ---------- the window ----------

  datatype Window = Window(since: int, todayStart: int, todayEnd: int)

  function BuildWindow(now: int, days: int): Window {
    var todayKstStart := (now + SEOUL_OFFSET) - (now + SEOUL_OFFSET) % SECONDS_PER_DAY;
    Window(now - Max(1, Min(days, 365)) * SECONDS_PER_DAY,
           todayKstStart - SEOUL_OFFSET, todayKstStart + SECONDS_PER_DAY - SEOUL_OFFSET)
  }

  /** Today's bounds hold exactly the instants of today's date, and the trend reaches back before them. */
  lemma WindowIsToday(now: int, days: int, at: int)
    ensures var w := BuildWindow(now, days);
            && (w.todayStart <= at < w.todayEnd <==> KstDay(at) == KstDay(now))
            && w.since < w.todayStart <= now < w.todayEnd
            && KstDay(w.since).n == KstDay(now).n - Max(1, Min(days, 365))
  {
  }

  // ---------- the queries ----------

  predicate Counted(e: Event, paths: seq<string>, since: int) { e.pagePath in paths && !e.isBot && e.at >= since }

  /** The events the session and the trend queries see. */
  function Seen(log: seq<Event>, paths: seq<string>, since: int): set<Event> {
    set e | e in log && Counted(e, paths, since)
  }

  /** `fetch_web_daily_visitors`. */
  function DailyVisitors(log: seq<Event>, paths: seq<string>, w: Window): nat {
    |set e | e in log && Counted(e, paths, w.todayStart) && e.at < w.todayEnd :: e.anonId|
  }

  datatype TrendRow = TrendRow(date: Day, visitors: nat)

  datatype SessionRow = SessionRow(sessionId: string, seconds: int, date: Day)

  function VisitorIds(seen: set<Event>, day: Day): set<string> { set e | e in seen && KstDay(e.at) == day :: e.anonId }

  function VisitorsOn(seen: set<Event>, day: Day): nat { |VisitorIds(seen, day)| }

  function DaysOf(seen: set<Event>): set<Day> { set e | e in seen :: KstDay(e.at) }

  function SessionsOf(seen: set<Event>): set<string> { set e | e in seen :: e.sessionId }

  /** An answer to `fetch_web_daily_unique_visitors_trend`: one row a day, in order. */
  ghost predicate AnswersTrend(rows: seq<TrendRow>, seen: set<Event>) {
    && (forall i, j :: 0 <= i < j < |rows| ==> rows[i].date.n < rows[j].date.n)
    && (set row | row in rows :: row.date) == DaysOf(seen)
    && (forall k :: 0 <= k < |rows| ==> rows[k].visitors == VisitorsOn(seen, rows[k].date))
  }

  /** First and last event of a session. */
  ghost predicate Spans(seen: set<Event>, id: string, first: Event, last: Event) {
    && first in seen && last in seen && first.sessionId == last.sessionId == id
    && forall e :: e in seen && e.sessionId == id ==> first.at <= e.at <= last.at
  }

  ghost predicate IsSession(row: SessionRow, seen: set<Event>) {
    exists first, last :: Spans(seen, row.sessionId, first, last)
                          && row.seconds == last.at - first.at && row.date == KstDay(last.at)
  }

  /** Its events are no further apart than it is long, and none of them is on a later day than it counts for. */
  lemma SessionRowIs(row: SessionRow, seen: set<Event>)
    requires IsSession(row, seen)
    ensures forall e, f :: e in seen && f in seen && e.sessionId == f.sessionId == row.sessionId ==>
              f.at - e.at <= row.seconds && KstDay(e.at).n <= row.date.n
    ensures exists e, f :: e in seen && f in seen && e.sessionId == f.sessionId == row.sessionId
                           && f.at - e.at == row.seconds && KstDay(f.at) == row.date
  {
  }

  /** An answer to `fetch_web_session_durations_seconds`: one row a session, dated by its last event. */
  ghost predicate AnswersSessions(rows: seq<SessionRow>, seen: set<Event>) {
    && (forall i, j :: 0 <= i < j < |rows| ==> rows[i].sessionId != rows[j].sessionId)
    && (set row | row in rows :: row.sessionId) == SessionsOf(seen)
    && (forall k :: 0 <= k < |rows| ==> IsSession(rows[k], seen))
  }

  /** The events of a log that any figure of the page depends on. */
  function Relevant(log: seq<Event>, paths: seq<string>): set<Event> {
    set e | e in log && !e.isBot && e.pagePath in paths
  }

  /** Nothing on the page changes when events of bots, or of other paths, are added or removed. */
  lemma OnlyRelevantEventsCount(log: seq<Event>, other: seq<Event>, paths: seq<string>, w: Window)
    requires Relevant(log, paths) == Relevant(other, paths)
    ensures DailyVisitors(log, paths, w) == DailyVisitors(other, paths, w)
    ensures Seen(log, paths, w.since) == Seen(other, paths, w.since)
    ensures forall e :: e in Seen(log, paths, w.since) <==>
              e in log && !e.isBot && e.pagePath in paths && e.at >= w.since
  {
    forall e ensures e in log && !e.isBot && e.pagePath in paths <==> e in other && !e.isBot && e.pagePath in paths {
      assert e in Relevant(log, paths) <==> e in Relevant(other, paths);
    }
    assert (set e | e in log && Counted(e, paths, w.todayStart) && e.at < w.todayEnd :: e.anonId)
        == (set e | e in other && Counted(e, paths, w.todayStart) && e.at < w.todayEnd :: e.anonId);
  }

  // ---------- sums over sessions ----------

  datatype Weight = Sessions | Dwell {
    function Of(row: SessionRow): int { if Sessions? then 1 else Min(row.seconds, DWELL_CAP) }
  }

  function Sum(w: Weight, rows: seq<SessionRow>): int {
    if rows == [] then 0 else Sum(w, rows[..|rows| - 1]) + w.Of(rows[|rows| - 1])
  }

  function SumOn(w: Weight, rows: seq<SessionRow>, day: Day): int {
    if rows == [] then 0
    else SumOn(w, rows[..|rows| - 1], day) + (if rows[|rows| - 1].date == day then w.Of(rows[|rows| - 1]) else 0)
  }

  function SumOver(w: Weight, rows: seq<SessionRow>, days: seq<Day>): int {
    if days == [] then 0 else SumOver(w, rows, days[..|days| - 1]) + SumOn(w, rows, days[|days| - 1])
  }

  predicate Ascending(days: seq<Day>) { forall i, j :: 0 <= i < j < |days| ==> days[i].n < days[j].n }

  lemma {:induction false} SumOverSnoc(w: Weight, rows: seq<SessionRow>, row: SessionRow, days: seq<Day>)
    requires Ascending(days)
    ensures SumOver(w, rows + [row], days) == SumOver(w, rows, days) + (if row.date in days then w.Of(row) else 0)
  {
    if days != [] {
      var n := |days| - 1;
      SumOverSnoc(w, rows, row, days[..n]);
      assert (rows + [row])[..|rows|] == rows;
      assert row.date in days <==> row.date in days[..n] || row.date == days[n];
      assert days[n] !in days[..n];
    }
  }

  /** Splitting the sessions by day loses none and counts none twice. */
  lemma {:induction false} SumOverIsSum(w: Weight, rows: seq<SessionRow>, days: seq<Day>)
    requires Ascending(days) && forall k :: 0 <= k < |rows| ==> rows[k].date in days
    ensures SumOver(w, rows, days) == Sum(w, rows)
  {
    if rows == [] {
      SumOverNone(w, days);
    } else {
      var n := |rows| - 1;
      SumOverIsSum(w, rows[..n], days);
      SumOverSnoc(w, rows[..n], rows[n], days);
      assert rows[..n] + [rows[n]] == rows;
    }
  }

  lemma {:induction false} SumOverNone(w: Weight, days: seq<Day>)
    ensures SumOver(w, [], days) == 0
  {
    if days != [] { SumOverNone(w, days[..|days| - 1]); }
  }

  function Total(s: seq<int>): int { if s == [] then 0 else Total(s[..|s| - 1]) + s[|s| - 1] }

  /** A session counts with its own length, or with eight hours if it is longer. */
  lemma DwellIs(rows: seq<SessionRow>, row: SessionRow)
    ensures Sum(Dwell, rows + [row]) == Sum(Dwell, rows) + (if row.seconds > 28800 then 28800 else row.seconds)
    ensures SumOn(Dwell, rows + [row], row.date)
            == SumOn(Dwell, rows, row.date) + (if row.seconds > 28800 then 28800 else row.seconds)
  {
    assert (rows + [row])[..|rows|] == rows;
  }

  // ---------- the presenter ----------

  datatype SessionSummary =
    SessionSummary(count: nat, seconds: int, sessionsByDate: map<Day, nat>, durationsByDate: map<Day, seq<int>>)

  ghost predicate Summarizes(s: SessionSummary, rows: seq<SessionRow>) {
    && s.count == |rows| && s.seconds == Sum(Dwell, rows)
    && s.sessionsByDate.Keys == s.durationsByDate.Keys == (set row | row in rows :: row.date)
    && forall d :: d in s.sessionsByDate ==> DayIs(s, rows, d)
  }

  ghost predicate DayIs(s: SessionSummary, rows: seq<SessionRow>, d: Day)
    requires d in s.sessionsByDate && d in s.durationsByDate
  {
    && s.sessionsByDate[d] == SumOn(Sessions, rows, d) == |s.durationsByDate[d]|
    && Total(s.durationsByDate[d]) == SumOn(Dwell, rows, d)
  }

  lemma NothingSummarized()
    ensures Summarizes(SessionSummary(0, 0, map[], map[]), [])
  {
  }

  lemma SessionsAreDurations(s: SessionSummary, rows: seq<SessionRow>, d: Day)
    requires Summarizes(s, rows)
    ensures d in s.sessionsByDate <==> d in s.durationsByDate
    ensures d in s.sessionsByDate ==> s.sessionsByDate[d] == |s.durationsByDate[d]|
    ensures s.count == |rows|
  {
    if d in s.sessionsByDate { assert DayIs(s, rows, d); }
  }

  method SummarizeSessions(rows: seq<SessionRow>) returns (s: SessionSummary)
    ensures Summarizes(s, rows)
  {
    hide Summarizes, DayIs, Sum, SumOn, Total;
    s := SessionSummary(0, 0, map[], map[]);
    NothingSummarized();
    for i := 0 to |rows|
      invariant Summarizes(s, rows[..i])
    {
      var row := rows[i];
      var capped := Min(row.seconds, DWELL_CAP);
      ghost var was := s;
      var durations := if row.date in s.durationsByDate then s.durationsByDate[row.date] else [];
      var sessions := if row.date in s.sessionsByDate then s.sessionsByDate[row.date] else 0;
      s := SessionSummary(s.count + 1, s.seconds + capped, s.sessionsByDate[row.date := sessions + 1],
                          s.durationsByDate[row.date := durations + [capped]]);
      SessionsAreDurations(was, rows[..i], row.date);
      OneMore(was, s, rows[..i], row);
      assert rows[..i + 1] == rows[..i] + [row];
    }
    assert rows[..|rows|] == rows;
  }

  lemma {:induction false} SumOnNone(w: Weight, rows: seq<SessionRow>, day: Day)
    requires forall k :: 0 <= k < |rows| ==> rows[k].date != day
    ensures SumOn(w, rows, day) == 0
  {
    if rows != [] { SumOnNone(w, rows[..|rows| - 1], day); }
  }

  lemma OneMore(s: SessionSummary, t: SessionSummary, rows: seq<SessionRow>, row: SessionRow)
    requires Summarizes(s, rows)
    requires var durations := if row.date in s.durationsByDate then s.durationsByDate[row.date] else [];
             t == SessionSummary(s.count + 1, s.seconds + Dwell.Of(row),
                                 s.sessionsByDate[row.date := |durations| + 1],
                                 s.durationsByDate[row.date := durations + [Dwell.Of(row)]])
    ensures Summarizes(t, rows + [row])
  {
    SumsSnoc(rows, row);
    assert forall x :: x in rows + [row] <==> x in rows || x == row;
    forall d | d in t.sessionsByDate ensures DayIs(t, rows + [row], d) {
      if d in s.sessionsByDate {
        assert DayIs(s, rows, d);
        SameDayMore(s, t, rows, row, d);
      } else {
        NewDay(s, t, rows, row, d);
      }
    }
  }

  lemma SameDayMore(s: SessionSummary, t: SessionSummary, rows: seq<SessionRow>, row: SessionRow, d: Day)
    requires d in s.sessionsByDate && d in s.durationsByDate && DayIs(s, rows, d)
    requires d in t.sessionsByDate && d in t.durationsByDate
    requires if row.date == d
             then t.durationsByDate[d] == s.durationsByDate[d] + [Dwell.Of(row)]
                  && t.sessionsByDate[d] == s.sessionsByDate[d] + 1
             else t.durationsByDate[d] == s.durationsByDate[d] && t.sessionsByDate[d] == s.sessionsByDate[d]
    ensures DayIs(t, rows + [row], d)
  {
    SumsOnSnoc(rows, row, d);
    assert t.durationsByDate[d][..|s.durationsByDate[d]|] == s.durationsByDate[d];
  }

  lemma NewDay(s: SessionSummary, t: SessionSummary, rows: seq<SessionRow>, row: SessionRow, d: Day)
    requires s.sessionsByDate.Keys == (set r | r in rows :: r.date) && d !in s.sessionsByDate && row.date == d
    requires d in t.sessionsByDate && d in t.durationsByDate
    requires t.durationsByDate[d] == [Dwell.Of(row)] && t.sessionsByDate[d] == 1
    ensures DayIs(t, rows + [row], d)
  {
    forall k | 0 <= k < |rows| ensures rows[k].date != d { assert rows[k] in rows; }
    SumOnNone(Sessions, rows, d);
    SumOnNone(Dwell, rows, d);
    SumsOnSnoc(rows, row, d);
    assert [Dwell.Of(row)][..0] == [];
  }

  lemma SumsSnoc(rows: seq<SessionRow>, row: SessionRow)
    ensures Sum(Dwell, rows + [row]) == Sum(Dwell, rows) + Dwell.Of(row)
  {
    assert (rows + [row])[..|rows|] == rows;
  }

  lemma SumsOnSnoc(rows: seq<SessionRow>, row: SessionRow, d: Day)
    ensures SumOn(Sessions, rows + [row], d) == SumOn(Sessions, rows, d) + (if row.date == d then 1 else 0)
    ensures SumOn(Dwell, rows + [row], d) == SumOn(Dwell, rows, d) + (if row.date == d then Dwell.Of(row) else 0)
  {
    assert (rows + [row])[..|rows|] == rows;
  }

  function Place(d: Day, s: seq<Day>): seq<Day> {
    if s == [] || d.n < s[0].n then [d] + s else [s[0]] + Place(d, s[1..])
  }

  lemma {:induction false} PlaceMembers(d: Day, s: seq<Day>, x: Day)
    ensures x in Place(d, s) <==> x == d || x in s
  {
    if s != [] && d.n >= s[0].n { PlaceMembers(d, s[1..], x); }
  }

  lemma {:induction false} PlaceKeepsOrder(d: Day, s: seq<Day>)
    requires Ascending(s) && d !in s
    ensures Ascending(Place(d, s))
  {
    if s != [] && d.n > s[0].n {
      PlaceKeepsOrder(d, s[1..]);
      var tail := Place(d, s[1..]);
      forall k | 0 <= k < |tail| ensures s[0].n < tail[k].n { PlaceMembers(d, s[1..], tail[k]); }
    }
  }

  /** `sorted` on a set. */
  method Sorted(days: set<Day>) returns (s: seq<Day>)
    ensures Ascending(s) && (forall d :: d in s <==> d in days)
  {
    s := [];
    var todo := days;
    while todo != {}
      invariant todo <= days && Ascending(s) && (forall d :: d in s <==> d in days - todo)
      decreases todo
    {
      var d :| d in todo;
      PlaceKeepsOrder(d, s);
      forall x ensures x in Place(d, s) <==> x == d || x in s { PlaceMembers(d, s, x); }
      s := Place(d, s);
      todo := todo - {d};
    }
  }

  /** One entry of `dailyTrend`; the average is `seconds / measured`, rounded to minutes. */
  datatype TrendDay = TrendDay(date: Day, visitors: nat, sessions: nat, seconds: int, measured: nat)

  function Dates(trend: seq<TrendDay>): seq<Day> { seq(|trend|, i requires 0 <= i < |trend| => trend[i].date) }

  function TrendDayOf(d: Day, visitors: map<Day, nat>, s: SessionSummary): TrendDay {
    TrendDay(d, if d in visitors then visitors[d] else 0, if d in s.sessionsByDate then s.sessionsByDate[d] else 0,
             if d in s.durationsByDate then Total(s.durationsByDate[d]) else 0,
             if d in s.durationsByDate then |s.durationsByDate[d]| else 0)
  }

  function VisitorMap(rows: seq<TrendRow>): map<Day, nat> {
    if rows == [] then map[] else VisitorMap(rows[..|rows| - 1])[rows[|rows| - 1].date := rows[|rows| - 1].visitors]
  }

  lemma {:induction false} VisitorMapIs(rows: seq<TrendRow>)
    requires forall i, j :: 0 <= i < j < |rows| ==> rows[i].date.n < rows[j].date.n
    ensures forall k :: 0 <= k < |rows| ==>
              rows[k].date in VisitorMap(rows) && VisitorMap(rows)[rows[k].date] == rows[k].visitors
    ensures forall d :: d in VisitorMap(rows) ==> exists k :: 0 <= k < |rows| && rows[k].date == d
  {
    if rows != [] { VisitorMapIs(rows[..|rows| - 1]); }
  }

  method BuildDailyTrend(rows: seq<TrendRow>, s: SessionSummary) returns (trend: seq<TrendDay>)
    requires s.sessionsByDate.Keys == s.durationsByDate.Keys
    ensures Ascending(Dates(trend))
    ensures forall d :: d in Dates(trend) <==> d in VisitorMap(rows) || d in s.sessionsByDate
    ensures forall k :: 0 <= k < |trend| ==> trend[k] == TrendDayOf(trend[k].date, VisitorMap(rows), s)
  {
    var visitors: map<Day, nat> := map[];
    for i := 0 to |rows|
      invariant visitors == VisitorMap(rows[..i])
    {
      visitors := visitors[rows[i].date := rows[i].visitors];
      assert rows[..i + 1][..i] == rows[..i];
    }
    assert rows[..|rows|] == rows;
    var all := Sorted(visitors.Keys + s.sessionsByDate.Keys + s.durationsByDate.Keys);
    trend := [];
    for i := 0 to |all|
      invariant |trend| == i && forall k :: 0 <= k < i ==> trend[k] == TrendDayOf(all[k], visitors, s)
    {
      trend := trend + [TrendDayOf(all[i], visitors, s)];
    }
    assert Dates(trend) == all;
  }

  // ---------- the whole page ----------

  function SumTrend(w: Weight, trend: seq<TrendDay>): int {
    if trend == [] then 0
    else
      var last := trend[|trend| - 1];
      SumTrend(w, trend[..|trend| - 1]) + (if w.Sessions? then last.sessions else last.seconds)
  }

  /** The visitors the trend shows for a day; 0 if it has no entry. */
  function Figure(trend: seq<TrendDay>, day: Day): nat {
    if trend == [] then 0
    else if trend[|trend| - 1].date == day then trend[|trend| - 1].visitors
    else Figure(trend[..|trend| - 1], day)
  }

  ghost predicate DayIsDetermined(t: TrendDay, seen: set<Event>, sessions: seq<SessionRow>) {
    && t.visitors == VisitorsOn(seen, t.date)
    && t.sessions == SumOn(Sessions, sessions, t.date) == t.measured
    && t.seconds == SumOn(Dwell, sessions, t.date)
  }

  /** The trend as the log determines it. */
  ghost predicate TrendIs(trend: seq<TrendDay>, seen: set<Event>, sessions: seq<SessionRow>) {
    && Ascending(Dates(trend))
    && (set d | d in Dates(trend)) == DaysOf(seen)
    && (forall k :: 0 <= k < |trend| ==> DayIsDetermined(trend[k], seen, sessions))
  }

  lemma SessionDayIsSeen(row: SessionRow, earlier: set<Event>, seen: set<Event>)
    requires IsSession(row, earlier) && earlier <= seen
    ensures row.date in DaysOf(seen)
  {
  }

  lemma {:induction false} SumTrendIs(w: Weight, trend: seq<TrendDay>, rows: seq<SessionRow>)
    requires forall k :: 0 <= k < |trend| ==>
               && trend[k].sessions == SumOn(Sessions, rows, trend[k].date)
               && trend[k].seconds == SumOn(Dwell, rows, trend[k].date)
    ensures SumTrend(w, trend) == SumOver(w, rows, Dates(trend))
  {
    if trend != [] {
      SumTrendIs(w, trend[..|trend| - 1], rows);
      assert Dates(trend)[..|trend| - 1] == Dates(trend[..|trend| - 1]);
    }
  }

  lemma {:induction false} FigureIs(trend: seq<TrendDay>, day: Day)
    requires Ascending(Dates(trend))
    ensures forall k :: 0 <= k < |trend| && trend[k].date == day ==> Figure(trend, day) == trend[k].visitors
    ensures day !in Dates(trend) ==> Figure(trend, day) == 0
  {
    if trend != [] {
      var n := |trend| - 1;
      assert Dates(trend)[..n] == Dates(trend[..n]);
      assert Dates(trend)[n] == trend[n].date;
      FigureIs(trend[..n], day);
      forall k | 0 <= k < |trend| && trend[k].date == day ensures Figure(trend, day) == trend[k].visitors {
        if k < n { assert Dates(trend)[k] == day; }
      }
    }
  }

  /** Today's visitors, counted by their own query, are those the trend's window holds for today's date. */
  lemma DailyIsTrendDay(log: seq<Event>, paths: seq<string>, now: int, days: int)
    ensures var w := BuildWindow(now, days);
            DailyVisitors(log, paths, w) == VisitorsOn(Seen(log, paths, w.since), KstDay(now))
  {
    var w := BuildWindow(now, days);
    forall e: Event ensures w.todayStart <= e.at < w.todayEnd <==> KstDay(e.at) == KstDay(now) {
      WindowIsToday(now, days, e.at);
    }
    WindowIsToday(now, days, now);
    var seen := Seen(log, paths, w.since);
    assert (set e | e in log && Counted(e, paths, w.todayStart) && e.at < w.todayEnd :: e.anonId)
        == VisitorIds(seen, KstDay(now));
  }

  lemma VisitorMapIsSeen(rows: seq<TrendRow>, seen: set<Event>)
    requires AnswersTrend(rows, seen)
    ensures VisitorMap(rows).Keys == DaysOf(seen)
    ensures forall d :: d in VisitorMap(rows) ==> VisitorMap(rows)[d] == VisitorsOn(seen, d)
  {
    VisitorMapIs(rows);
    forall d ensures d in VisitorMap(rows) <==> d in DaysOf(seen) {
      if d in DaysOf(seen) {
        var k :| 0 <= k < |rows| && rows[k].date == d;
      }
    }
  }

  lemma SessionsOutside(s: SessionSummary, rows: seq<SessionRow>, d: Day)
    requires Summarizes(s, rows) && d !in s.sessionsByDate
    ensures SumOn(Sessions, rows, d) == 0 && SumOn(Dwell, rows, d) == 0
  {
    forall k | 0 <= k < |rows| ensures rows[k].date != d { assert rows[k] in rows; }
    SumOnNone(Sessions, rows, d);
    SumOnNone(Dwell, rows, d);
  }

  lemma OneDay(t: TrendDay, visitors: map<Day, nat>, s: SessionSummary, sessions: seq<SessionRow>, seen: set<Event>)
    requires Summarizes(s, sessions) && t == TrendDayOf(t.date, visitors, s)
    requires t.date in visitors && visitors[t.date] == VisitorsOn(seen, t.date)
    ensures DayIsDetermined(t, seen, sessions)
  {
    if t.date in s.sessionsByDate {
      assert DayIs(s, sessions, t.date);
    } else {
      SessionsOutside(s, sessions, t.date);
    }
  }

  lemma SummaryDaysAreSeen(s: SessionSummary, sessions: seq<SessionRow>, earlier: set<Event>, seen: set<Event>)
    requires AnswersSessions(sessions, earlier) && Summarizes(s, sessions) && earlier <= seen
    ensures s.sessionsByDate.Keys <= DaysOf(seen)
  {
  }

  /**
   The trend built from the two answers is the one the log determines - also when events came in between
   the sessions' query and the trend's.
   */
  lemma TrendIsDetermined(trend: seq<TrendDay>, rows: seq<TrendRow>, s: SessionSummary,
                          sessions: seq<SessionRow>, earlier: set<Event>, seen: set<Event>)
    requires AnswersTrend(rows, seen) && AnswersSessions(sessions, earlier) && Summarizes(s, sessions)
    requires earlier <= seen
    requires Ascending(Dates(trend))
    requires forall d :: d in Dates(trend) <==> d in VisitorMap(rows) || d in s.sessionsByDate
    requires forall k :: 0 <= k < |trend| ==> trend[k] == TrendDayOf(trend[k].date, VisitorMap(rows), s)
    ensures TrendIs(trend, seen, sessions)
  {
    VisitorMapIsSeen(rows, seen);
    SummaryDaysAreSeen(s, sessions, earlier, seen);
    forall k | 0 <= k < |trend| ensures DayIsDetermined(trend[k], seen, sessions) {
      assert Dates(trend)[k] == trend[k].date;
      OneDay(trend[k], VisitorMap(rows), s, sessions, seen);
    }
  }

  /** What a later query sees is what an earlier one saw, and perhaps more. */
  lemma SeenGrows(log: seq<Event>, later: seq<Event>, paths: seq<string>, since: int)
    requires log <= later
    ensures Seen(log, paths, since) <= Seen(later, paths, since)
  {
    assert forall e :: e in log ==> e in later;
  }

  lemma VisitorsGrow(earlier: set<Event>, seen: set<Event>, day: Day)
    requires earlier <= seen
    ensures VisitorsOn(earlier, day) <= VisitorsOn(seen, day)
    ensures VisitorsOn(earlier, day) == VisitorsOn(seen, day) <==> VisitorIds(earlier, day) == VisitorIds(seen, day)
  {
    var a, b := VisitorIds(earlier, day), VisitorIds(seen, day);
    SubsetIsSmaller(a, b);
    if a != b { SubsetIsSmaller(a, b - (b - a)); }
    assert b == a + (b - a);
  }

  /**
   What the page shows, whatever order the queries answer ties in.  The three queries run one after the
   other, and events are only ever added: `log`, `later` and `last` are what is stored at each of them.
   Today's figure is at most the trend's for today, and the same iff nobody new came in between; the trend
   has one entry for each day somebody was seen, oldest first; and its sessions and dwell times add up to
   the totals.
   */
  method GetWebStats(ghost log: seq<Event>, ghost later: seq<Event>, ghost last: seq<Event>,
                     ghost paths: seq<string>, ghost now: int, ghost days: int,
                     daily: nat, trendRows: seq<TrendRow>, sessionRows: seq<SessionRow>)
    returns (dailyVisitors: nat, sessionCount: nat, seconds: int, trend: seq<TrendDay>)
    requires log <= later <= last
    requires daily == DailyVisitors(log, paths, BuildWindow(now, days))
    requires AnswersSessions(sessionRows, Seen(later, paths, BuildWindow(now, days).since))
    requires AnswersTrend(trendRows, Seen(last, paths, BuildWindow(now, days).since))
    ensures dailyVisitors <= Figure(trend, KstDay(now))
    ensures dailyVisitors == Figure(trend, KstDay(now)) <==>
            VisitorIds(Seen(log, paths, BuildWindow(now, days).since), KstDay(now))
            == VisitorIds(Seen(last, paths, BuildWindow(now, days).since), KstDay(now))
    ensures TrendIs(trend, Seen(last, paths, BuildWindow(now, days).since), sessionRows)
    ensures SumTrend(Sessions, trend) == sessionCount == |SessionsOf(Seen(later, paths, BuildWindow(now, days).since))|
    ensures SumTrend(Dwell, trend) == seconds == Sum(Dwell, sessionRows)
  {
    hide Seen, BuildWindow, DailyVisitors, VisitorIds;
    ghost var since := BuildWindow(now, days).since;
    ghost var first, middle, seen := Seen(log, paths, since), Seen(later, paths, since), Seen(last, paths, since);
    SeenGrows(log, last, paths, since);
    SeenGrows(later, last, paths, since);
    var s := SummarizeSessions(sessionRows);
    trend := BuildDailyTrend(trendRows, s);
    TrendIsDetermined(trend, trendRows, s, sessionRows, middle, seen);
    dailyVisitors, sessionCount, seconds := daily, s.count, s.seconds;
    TotalsAgree(trend, middle, seen, sessionRows);
    DailyIsTrendDay(log, paths, now, days);
    VisitorsGrow(first, seen, KstDay(now));
    FigureIsVisitors(trend, seen, sessionRows, KstDay(now));
  }

  lemma TotalsAgree(trend: seq<TrendDay>, earlier: set<Event>, seen: set<Event>, rows: seq<SessionRow>)
    requires TrendIs(trend, seen, rows) && AnswersSessions(rows, earlier) && earlier <= seen
    ensures SumTrend(Sessions, trend) == |rows| == |SessionsOf(earlier)| && SumTrend(Dwell, trend) == Sum(Dwell, rows)
  {
    forall k | 0 <= k < |rows| ensures rows[k].date in Dates(trend) { SessionDayIsSeen(rows[k], earlier, seen); }
    forall w: Weight ensures SumTrend(w, trend) == Sum(w, rows) {
      SumTrendIs(w, trend, rows);
      SumOverIsSum(w, rows, Dates(trend));
    }
    SessionsAreCounted(rows);
    RowsAreDistinct(rows);
  }

  lemma {:induction false} RowsAreDistinct(rows: seq<SessionRow>)
    requires forall i, j :: 0 <= i < j < |rows| ==> rows[i].sessionId != rows[j].sessionId
    ensures |set row | row in rows :: row.sessionId| == |rows|
  {
    if rows != [] {
      var n := |rows| - 1;
      RowsAreDistinct(rows[..n]);
      assert rows == rows[..n] + [rows[n]];
      assert (set row | row in rows :: row.sessionId)
          == (set row | row in rows[..n] :: row.sessionId) + {rows[n].sessionId};
    }
  }

  lemma {:induction false} SessionsAreCounted(rows: seq<SessionRow>)
    ensures Sum(Sessions, rows) == |rows|
  {
    if rows != [] { SessionsAreCounted(rows[..|rows| - 1]); }
  }

  lemma FigureIsVisitors(trend: seq<TrendDay>, seen: set<Event>, rows: seq<SessionRow>, day: Day)
    requires TrendIs(trend, seen, rows)
    ensures Figure(trend, day) == VisitorsOn(seen, day)
  {
    FigureIs(trend, day);
    if day in Dates(trend) {
      var k :| 0 <= k < |trend| && Dates(trend)[k] == day;
    } else {
      forall e | e in seen ensures KstDay(e.at) != day { assert KstDay(e.at) in DaysOf(seen); }
      assert VisitorIds(seen, day) == {};
    }
  }

  lemma {:induction false} AscendingIsShort(days: seq<Day>, low: int, high: int)
    requires Ascending(days) && low <= high + 1 && forall k :: 0 <= k < |days| ==> low <= days[k].n <= high
    ensures |days| <= high - low + 1
    decreases |days|
  {
    if days != [] {
      var n := |days| - 1;
      AscendingIsShort(days[..n], low, days[n].n - 1);
    }
  }

  /** How far ahead of the server's clock a stored event can be (app/services/web_stats_normalizers.py). */
  const MAX_AHEAD := 300

  /**
   `n` days of statistics are at most `n + 1` dates, the first one cut short - and one more while events
   stored ahead of the clock may already belong to tomorrow, in the last five minutes of the day.
   */
  lemma TrendIsShort(log: seq<Event>, paths: seq<string>, now: int, days: int, trend: seq<TrendDay>,
                     rows: seq<SessionRow>)
    requires TrendIs(trend, Seen(log, paths, BuildWindow(now, days).since), rows)
    requires forall e :: e in log ==> e.at <= now + MAX_AHEAD
    ensures |trend| <= Max(1, Min(days, 365)) + 1 + (if KstDay(now + MAX_AHEAD) == KstDay(now) then 0 else 1)
  {
    var w := BuildWindow(now, days);
    var seen := Seen(log, paths, w.since);
    WindowIsToday(now, days, now);
    forall k | 0 <= k < |trend| ensures KstDay(w.since).n <= Dates(trend)[k].n <= KstDay(now + MAX_AHEAD).n {
      assert Dates(trend)[k] in DaysOf(seen);
    }
    AscendingIsShort(Dates(trend), KstDay(w.since).n, KstDay(now + MAX_AHEAD).n);
    assert KstDay(now + MAX_AHEAD).n <= KstDay(now).n + 1;
  }
}
