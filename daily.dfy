/**
 * The daily aggregator: Production and QC point totals per log date, the
 * metrics of one selected date (points, resources, target, achieved
 * percentage, hourly rate) and the "last 5 days" table.
 */
module Daily {
  import opened Tables
  import opened Collections
  import opened Numeric

  const HOURS_PER_DAY: nat := 8
  const RECENT_DAYS: nat := 5

  /** Rows of activity `a` logged on date `d`. */
  function LoggedOn(d: Date, a: string): LogRow -> bool
  {
    (r: LogRow) => r.logDate == d && r.activity == a
  }

  /** Reference definition: the points logged for activity `a` on date `d`. */
  function ActivityPoints(log: seq<LogRow>, d: Date, a: string): int
  {
    Sum(Filter(log, LoggedOn(d, a)), Points)
  }

  /** The distinct users who logged activity `a` on date `d`. */
  function ActivityUsers(log: seq<LogRow>, d: Date, a: string): set<string>
  {
    set r | r in log && r.logDate == d && r.activity == a :: r.user
  }

  function LogDates(rows: seq<LogRow>): set<Date>
  {
    set r | r in rows :: r.logDate
  }

  predicate StrictlyDescending(ds: seq<Date>)
  {
    forall i, j :: 0 <= i < j < |ds| ==> ds[i] > ds[j]
  }

  /** Adds `d` to a strictly descending list of dates, once. */
  function InsertDate(ds: seq<Date>, d: Date): (r: seq<Date>)
    requires StrictlyDescending(ds)
    ensures StrictlyDescending(r)
    ensures forall x :: x in r <==> x in ds || x == d
    decreases |ds|
  {
    if ds == [] then [d]
    else if d > ds[0] then [d] + ds
    else if d == ds[0] then ds
    else
      var rest := InsertDate(ds[1..], d);
      InsertDateBehind(ds, d, rest);
      [ds[0]] + rest
  }

  /** The head of a descending list stays in front when an earlier date goes into its tail. */
  lemma InsertDateBehind(ds: seq<Date>, d: Date, rest: seq<Date>)
    requires StrictlyDescending(ds) && ds != [] && d < ds[0]
    requires StrictlyDescending(rest) && forall x :: x in rest <==> x in ds[1..] || x == d
    ensures StrictlyDescending([ds[0]] + rest)
    ensures forall x :: x in [ds[0]] + rest <==> x in ds || x == d
  {
    assert ds == [ds[0]] + ds[1..];
    forall x | x in rest ensures x < ds[0] {
      if x != d {
        var k :| 0 <= k < |ds[1..]| && ds[1..][k] == x;
        assert ds[k + 1] == x;
      }
    }
    var r := [ds[0]] + rest;
    forall i, j | 0 <= i < j < |r| ensures r[i] > r[j] {
      assert r[j] == rest[j - 1] && rest[j - 1] in rest;
      if i > 0 { assert r[i] == rest[i - 1]; }
    }
  }

  /** The distinct log dates of `rows`, latest first. */
  function DatesDescending(rows: seq<LogRow>): (ds: seq<Date>)
    ensures StrictlyDescending(ds)
    ensures forall d :: d in ds <==> d in LogDates(rows)
    decreases |rows|
  {
    if rows == [] then []
    else
      var init := rows[..|rows| - 1];
      assert rows == init + [rows[|rows| - 1]];
      InsertDate(DatesDescending(init), rows[|rows| - 1].logDate)
  }

  /** One row of the daily summary: the pivoted Production and QC totals of a date. */
  datatype DayTotals = DayTotals(date: Date, production: int, qc: int)

  function SummaryDates(t: seq<DayTotals>): set<Date>
  {
    set i | 0 <= i < |t| :: t[i].date
  }

  /**
   * The daily summary: the log restricted to Production and QC, point sums
   * grouped by date and activity, pivoted with 0 fill, latest date first.
   */
  function DailySummary(log: seq<LogRow>): (t: seq<DayTotals>)
    ensures forall i, j :: 0 <= i < j < |t| ==> t[i].date > t[j].date
    ensures SummaryDates(t) == LogDates(Filter(log, IsProdOrQC))
    ensures |t| == |LogDates(Filter(log, IsProdOrQC))|
  {
    var pq := Filter(log, IsProdOrQC);
    var ds := DatesDescending(pq);
    var t := seq(|ds|, i requires 0 <= i < |ds| =>
      DayTotals(ds[i], Sum(Filter(pq, LoggedOn(ds[i], PRODUCTION)), Points),
                       Sum(Filter(pq, LoggedOn(ds[i], QC)), Points)));
    DateColumn(pq, ds, t);
    t
  }

  /** A table with one row per date of `ds`, in order, has exactly the dates of `pq`, latest first. */
  lemma DateColumn(pq: seq<LogRow>, ds: seq<Date>, t: seq<DayTotals>)
    requires ds == DatesDescending(pq)
    requires |t| == |ds| && forall i :: 0 <= i < |t| ==> t[i].date == ds[i]
    ensures forall i, j :: 0 <= i < j < |t| ==> t[i].date > t[j].date
    ensures SummaryDates(t) == LogDates(pq)
    ensures |t| == |LogDates(pq)|
  {
    forall d | d in LogDates(pq) ensures d in SummaryDates(t) {
      var i :| 0 <= i < |ds| && ds[i] == d;
      assert t[i].date == d;
    }
    assert (set x | x in ds) == LogDates(pq);
    DistinctCount(ds);
  }

  /** Each pivoted cell is the day's total for that activity over the whole log. */
  lemma DailySummaryPoints(log: seq<LogRow>)
    ensures forall i :: 0 <= i < |DailySummary(log)| ==>
      DailySummary(log)[i].production == ActivityPoints(log, DailySummary(log)[i].date, PRODUCTION) &&
      DailySummary(log)[i].qc == ActivityPoints(log, DailySummary(log)[i].date, QC)
  {
    var t := DailySummary(log);
    forall i | 0 <= i < |t|
      ensures t[i].production == ActivityPoints(log, t[i].date, PRODUCTION)
      ensures t[i].qc == ActivityPoints(log, t[i].date, QC)
    {
      FilterFilter(log, IsProdOrQC, LoggedOn(t[i].date, PRODUCTION), LoggedOn(t[i].date, PRODUCTION));
      FilterFilter(log, IsProdOrQC, LoggedOn(t[i].date, QC), LoggedOn(t[i].date, QC));
    }
  }

  /** The summary row of date `d`, when there is one. */
  function RowOn(t: seq<DayTotals>, d: Date): (r: Option<DayTotals>)
    ensures r.Some? ==> r.value in t && r.value.date == d
    ensures r.None? ==> d !in SummaryDates(t)
    decreases |t|
  {
    if t == [] then None
    else if t[0].date == d then Some(t[0])
    else
      assert SummaryDates(t) == {t[0].date} + SummaryDates(t[1..]) by {
        forall x | x in SummaryDates(t) ensures x in {t[0].date} + SummaryDates(t[1..]) {
          var i :| 0 <= i < |t| && t[i].date == x;
          if i > 0 { assert t[1..][i - 1].date == x; }
        }
      }
      RowOn(t[1..], d)
  }

  /** The metrics of one activity on the selected day. */
  datatype ActivityDay = ActivityDay(points: int, users: nat, target: nat, progress: real, ratePerHour: real)

  datatype DayMetrics = DayMetrics(production: ActivityDay, qc: ActivityDay)

  /**
   * Target, achieved percentage and hourly rate of one activity: the target
   * is the per-user target times the resources, and each ratio falls back to
   * 0 when its denominator is 0; otherwise it is rounded to one decimal.
   */
  function Summarize(points: int, users: nat, perUserTarget: nat): (s: ActivityDay)
    ensures s.points == points && s.users == users
    ensures s.target == perUserTarget * users
    ensures s.target == 0 ==> s.progress == 0.0
    ensures s.target > 0 ==> IsTenth(s.progress) && -0.05 <= s.progress - Percent(points, s.target) <= 0.05
    ensures users == 0 ==> s.ratePerHour == 0.0
    ensures users > 0 ==>
      IsTenth(s.ratePerHour) && -0.05 <= s.ratePerHour - points as real / (users * HOURS_PER_DAY) as real <= 0.05
  {
    var target := perUserTarget * users;
    var progress := if target > 0 then RoundTenth(Percent(points, target)) else 0.0;
    var rate := if users > 0 then RoundTenth(points as real / (users * HOURS_PER_DAY) as real) else 0.0;
    ActivityDay(points, users, target, progress, rate)
  }

  /** The day's points of activity `a` as read from the daily summary, 0 without a row. */
  function SummaryPoints(t: seq<DayTotals>, d: Date, a: string): int
  {
    match RowOn(t, d)
    case None => 0
    case Some(row) => if a == PRODUCTION then row.production else row.qc
  }

  /** Reading the pivoted summary gives the day's total of the log itself, 0 included. */
  lemma SummaryPointsAgree(log: seq<LogRow>, d: Date, a: string)
    requires a == PRODUCTION || a == QC
    ensures SummaryPoints(DailySummary(log), d, a) == ActivityPoints(log, d, a)
  {
    var t := DailySummary(log);
    DailySummaryPoints(log);
    match RowOn(t, d)
    case Some(row) =>
      var i :| 0 <= i < |t| && t[i] == row;
    case None =>
      forall r | r in log ensures !LoggedOn(d, a)(r) {
        assert LoggedOn(d, a)(r) ==> r in Filter(log, IsProdOrQC);
      }
      FilterEmpty(log, LoggedOn(d, a));
  }

  /**
   * The selected day's metrics: points read from the daily summary, the
   * distinct users of each activity that day, and their targets and ratios.
   */
  function SelectedDayMetrics(log: seq<LogRow>, d: Date): (m: DayMetrics)
    ensures m.production.points == ActivityPoints(log, d, PRODUCTION)
    ensures m.qc.points == ActivityPoints(log, d, QC)
    ensures m.production.users == |ActivityUsers(log, d, PRODUCTION)|
    ensures m.qc.users == |ActivityUsers(log, d, QC)|
    ensures m.production.target == PROD_TARGET_PER_USER * m.production.users
    ensures m.qc.target == QC_TARGET_PER_USER * m.qc.users
    ensures m.production == Summarize(m.production.points, m.production.users, PROD_TARGET_PER_USER)
    ensures m.qc == Summarize(m.qc.points, m.qc.users, QC_TARGET_PER_USER)
  {
    var t := DailySummary(log);
    SummaryPointsAgree(log, d, PRODUCTION);
    SummaryPointsAgree(log, d, QC);
    DayMetrics(
      Summarize(SummaryPoints(t, d, PRODUCTION), |ActivityUsers(log, d, PRODUCTION)|, PROD_TARGET_PER_USER),
      Summarize(SummaryPoints(t, d, QC), |ActivityUsers(log, d, QC)|, QC_TARGET_PER_USER))
  }

  /** A day on which nobody logged the activity has no points, no target, 0 progress and 0 rate. */
  lemma NoResourcesNoProgress(log: seq<LogRow>, d: Date, a: string)
    requires a == PRODUCTION || a == QC
    requires |ActivityUsers(log, d, a)| == 0
    ensures var m := SelectedDayMetrics(log, d);
      var s := if a == PRODUCTION then m.production else m.qc;
      s.points == 0 && s.target == 0 && s.progress == 0.0 && s.ratePerHour == 0.0
  {
    forall r | r in log ensures !LoggedOn(d, a)(r) {
      assert LoggedOn(d, a)(r) ==> r.user in ActivityUsers(log, d, a);
    }
    FilterEmpty(log, LoggedOn(d, a));
  }

  /** 1000 points by 2 users against the Production target: 2400, 41.7 % achieved, 62.5 per hour. */
  lemma SummarizeScenario()
    ensures Summarize(1000, 2, PROD_TARGET_PER_USER) == ActivityDay(1000, 2, 2400, 41.7, 62.5)
  {
    assert Percent(1000, 2400) * 10.0 == 1250.0 / 3.0;
    RoundTenthNearest(Percent(1000, 2400), 417);
    RoundTenthNearest(1000 as real / 16 as real, 625);
  }

  /** The scenario on a log: 1000 Production points by 2 users on the selected day. */
  lemma ProductionScenario(log: seq<LogRow>, d: Date)
    requires ActivityPoints(log, d, PRODUCTION) == 1000
    requires |ActivityUsers(log, d, PRODUCTION)| == 2
    ensures SelectedDayMetrics(log, d).production == ActivityDay(1000, 2, 2400, 41.7, 62.5)
  {
    SummarizeScenario();
  }

  /** The dates of a prefix of the daily summary are the latest ones. */
  lemma PrefixHoldsLatest(all: seq<DayTotals>, k: nat, d: Date, i: nat)
    requires forall i, j :: 0 <= i < j < |all| ==> all[i].date > all[j].date
    requires k <= |all| && i < k
    requires d in SummaryDates(all) && d !in SummaryDates(all[..k])
    ensures d < all[i].date
  {
    var j :| 0 <= j < |all| && all[j].date == d;
    assert j >= k by {
      assert forall m :: 0 <= m < k ==> all[..k][m] == all[m];
    }
  }

  /**
   * The "last 5 days" table: the first rows of the daily summary, at most
   * five, one per date, latest first, and no left-out date later than any
   * date shown.
   */
  function LastFiveDays(log: seq<LogRow>): (t: seq<DayTotals>)
    ensures |t| == Min(RECENT_DAYS, |LogDates(Filter(log, IsProdOrQC))|)
    ensures forall i, j :: 0 <= i < j < |t| ==> t[i].date > t[j].date
    ensures forall i :: 0 <= i < |t| ==> t[i] in DailySummary(log)
    ensures forall d, i ::
      d in LogDates(Filter(log, IsProdOrQC)) && d !in SummaryDates(t) && 0 <= i < |t| ==> d < t[i].date
  {
    var all := DailySummary(log);
    var t := all[..Min(RECENT_DAYS, |all|)];
    RecentRows(all, t, LogDates(Filter(log, IsProdOrQC)));
    t
  }

  /** The facts of a table cut to its first rows, from those of the table it is cut from. */
  lemma RecentRows(all: seq<DayTotals>, t: seq<DayTotals>, dates: set<Date>)
    requires forall i, j :: 0 <= i < j < |all| ==> all[i].date > all[j].date
    requires SummaryDates(all) == dates && |all| == |dates|
    requires t == all[..Min(RECENT_DAYS, |all|)]
    ensures |t| == Min(RECENT_DAYS, |dates|)
    ensures forall i, j :: 0 <= i < j < |t| ==> t[i].date > t[j].date
    ensures forall i :: 0 <= i < |t| ==> t[i] in all
    ensures forall d, i :: d in dates && d !in SummaryDates(t) && 0 <= i < |t| ==> d < t[i].date
  {
    var k := Min(RECENT_DAYS, |all|);
    forall i | 0 <= i < |t| ensures t[i] in all {
      assert t[i] == all[i];
    }
    forall i, j | 0 <= i < j < |t| ensures t[i].date > t[j].date {
      assert t[i] == all[i] && t[j] == all[j];
    }
    forall d, i | d in dates && d !in SummaryDates(t) && 0 <= i < |t| ensures d < t[i].date {
      PrefixHoldsLatest(all, k, d, i);
    }
  }
}
