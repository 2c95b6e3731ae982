/**
 * The user-wise summary of one day, week or month: Production and QC points
 * per user over the valid rows of the selected bucket, efficiency against
 * the per-user target times the working days of the bucket, quality from
 * the QC feedback the user received, the team group from the roster, and
 * the "All"-sentinel team and user filters.
 */
module UserView {
  import opened Tables
  import opened Collections
  import opened Numeric
  import opened Ordering

  const ALL: string := "All"
  const UNASSIGNED: string := "Unassigned"

  datatype ViewMode = Day | Week | Month

  function ModeName(m: ViewMode): string
  {
    match m
    case Day => "Day"
    case Week => "Week"
    case Month => "Month"
  }

  /** Working days in one bucket of a view: 1 for a day, 5 for a week, 22 for a month, 1 otherwise. */
  function DayMultiplier(viewMode: string): (k: nat)
    ensures k == 1 || k == 5 || k == 22
    ensures k == 5 <==> viewMode == "Week"
    ensures k == 22 <==> viewMode == "Month"
  {
    if viewMode == "Day" then 1
    else if viewMode == "Week" then 5
    else if viewMode == "Month" then 22
    else 1
  }

  /** The selected bucket of the single view: a date, a week label or a month label. */
  datatype Bucket = OnDay(date: Date) | InWeek(week: string) | InMonth(month: string)

  function ModeOf(b: Bucket): ViewMode
  {
    match b
    case OnDay(_) => Day
    case InWeek(_) => Week
    case InMonth(_) => Month
  }

  function InBucket(b: Bucket): LogRow -> bool
  {
    (r: LogRow) =>
      match b
      case OnDay(d) => r.logDate == d
      case InWeek(w) => r.week == w
      case InMonth(m) => r.month == m
  }

  /** A row counts towards points when it is complete or in progress, for Production or QC. */
  predicate IsValidRow(r: LogRow)
  {
    (r.status == COMP || r.status == IP) && IsProdOrQC(r)
  }

  /** Valid rows of user `u` for activity `a`. */
  function ValidFor(u: string, a: string): LogRow -> bool
  {
    (r: LogRow) => IsValidRow(r) && r.user == u && r.activity == a
  }

  /** Valid rows of user `u`. */
  function ValidOf(u: string): LogRow -> bool
  {
    (r: LogRow) => IsValidRow(r) && r.user == u
  }

  /** The pivoted cell of user `u` and activity `a`: its point sum, 0 when it has no rows. */
  function ActivityTotal(valid: seq<LogRow>, u: string, a: string): int
  {
    Sum(Filter(valid, ByUserActivity(u, a)), Points)
  }

  /** Efficiency of the single view: points against the bucket's target, in percent, to one decimal. */
  function DayEfficiency(points: int, perUserTarget: nat, multiplier: nat): (e: real)
    requires perUserTarget > 0 && multiplier > 0
    ensures IsTenth(e)
    ensures -0.05 <= e - Percent(points, perUserTarget * multiplier) <= 0.05
    ensures points == 0 ==> e == 0.0
  {
    if points == 0 then RoundTenthOfTenth(0); RoundTenth(0.0)
    else RoundTenth(Percent(points, perUserTarget * multiplier))
  }

  /**
   * A quality figure: a number, or the infinity that dividing a non-zero
   * error sum by a zero point sum gives.
   */
  datatype Score = Finite(value: real) | PlusInfinity | MinusInfinity

  /**
   * Quality of user `u` in the single view: 100 minus the errors of the
   * feedback `u` received as a percentage of its points, to one decimal;
   * 100 when `u` received no feedback or both sums are 0; an infinity when
   * only the point sum is 0.
   */
  function DayQuality(rows: seq<LogRow>, u: string): (q: Score)
    ensures FeedbackPoints(rows, u) == 0 && FeedbackErrors(rows, u) == 0 ==> q == Finite(100.0)
    ensures FeedbackPoints(rows, u) == 0 && FeedbackErrors(rows, u) > 0 ==> q == MinusInfinity
    ensures FeedbackPoints(rows, u) == 0 && FeedbackErrors(rows, u) < 0 ==> q == PlusInfinity
    ensures FeedbackPoints(rows, u) != 0 ==>
      && q.Finite?
      && IsTenth(q.value)
      && -0.05 <= q.value - (100.0 - Percent(FeedbackErrors(rows, u), FeedbackPoints(rows, u))) <= 0.05
  {
    var fb := Filter(rows, FeedbackTo(u));
    if fb == [] then Finite(100.0)
    else if Sum(fb, Points) == 0 then
      (if Sum(fb, Errors) == 0 then Finite(100.0)
       else if Sum(fb, Errors) > 0 then MinusInfinity
       else PlusInfinity)
    else Finite(RoundTenth(100.0 - Percent(Sum(fb, Errors), Sum(fb, Points))))
  }

  /** A user without feedback rows has quality 100. */
  lemma NoFeedbackFullQuality(rows: seq<LogRow>, u: string)
    requires forall r :: r in rows ==> r.feedbackTo != Some(u)
    ensures DayQuality(rows, u) == Finite(100.0)
  {
    FilterEmpty(rows, FeedbackTo(u));
  }

  /** When the errors do not exceed the points, quality is a percentage between 0 and 100. */
  lemma DayQualityInRange(rows: seq<LogRow>, u: string)
    requires 0 <= FeedbackErrors(rows, u) <= FeedbackPoints(rows, u) && FeedbackPoints(rows, u) > 0
    ensures DayQuality(rows, u).Finite? && 0.0 <= DayQuality(rows, u).value <= 100.0
  {
    var x := 100.0 - Percent(FeedbackErrors(rows, u), FeedbackPoints(rows, u));
    PercentBounds(FeedbackErrors(rows, u), FeedbackPoints(rows, u));
    RoundTenthBetween(x, 0, 1000);
  }

  /** The team group of `u` after the left join with the roster, "Unassigned" when absent. */
  function TeamOf(team: seq<TeamRow>, u: string): (g: string)
    ensures (forall t :: t in team ==> t.user != u) ==> g == UNASSIGNED
    ensures (exists t :: t in team && t.user == u) ==> exists t :: t in team && t.user == u && t.teamGroup == g
    decreases |team|
  {
    if team == [] then UNASSIGNED
    else if team[0].user == u then team[0].teamGroup
    else
      assert forall t :: t in team[1..] ==> t in team;
      TeamOf(team[1..], u)
  }

  predicate UniqueRoster(team: seq<TeamRow>)
  {
    forall i, j :: 0 <= i < j < |team| ==> team[i].user != team[j].user
  }

  /** With one roster row per user, the join gives that row's group. */
  lemma TeamOfRosterRow(team: seq<TeamRow>, t: TeamRow)
    requires UniqueRoster(team) && t in team
    ensures TeamOf(team, t.user) == t.teamGroup
  {
    var g := TeamOf(team, t.user);
    var t' :| t' in team && t'.user == t.user && t'.teamGroup == g;
    var i :| 0 <= i < |team| && team[i] == t;
    var j :| 0 <= j < |team| && team[j] == t';
    assert i == j;
  }

  datatype UserRow = UserRow(
    user: string, production: int, qc: int, total: int,
    prodEff: real, qcEff: real, quality: Score, teamGroup: string)

  /**
   * One user's row: the pivoted points (0 for a missing activity), their
   * total, the efficiencies, the quality over all selected rows and the
   * team group.
   */
  function UserRowFor(selected: seq<LogRow>, u: string, multiplier: nat, team: seq<TeamRow>): (row: UserRow)
    requires multiplier > 0
    ensures row.user == u
    ensures row.total == row.production + row.qc
    ensures row.prodEff == DayEfficiency(row.production, PROD_TARGET_PER_USER, multiplier)
    ensures row.qcEff == DayEfficiency(row.qc, QC_TARGET_PER_USER, multiplier)
    ensures row.quality == DayQuality(selected, u)
    ensures row.teamGroup == TeamOf(team, u)
  {
    var valid := Filter(selected, IsValidRow);
    var production := ActivityTotal(valid, u, PRODUCTION);
    var qc := ActivityTotal(valid, u, QC);
    UserRow(u, production, qc, production + qc,
            DayEfficiency(production, PROD_TARGET_PER_USER, multiplier),
            DayEfficiency(qc, QC_TARGET_PER_USER, multiplier),
            DayQuality(selected, u),
            TeamOf(team, u))
  }

  function ValidUsers(selected: seq<LogRow>): set<string>
  {
    set r | r in selected && IsValidRow(r) :: r.user
  }

  function ReportUsers(report: seq<UserRow>): set<string>
  {
    set i | 0 <= i < |report| :: report[i].user
  }

  /**
   * The report of the selected rows before the filters: one row per user
   * with a valid row, each user once, in a view whose buckets have
   * `viewMode`'s working days.
   */
  function BuildReport(selected: seq<LogRow>, viewMode: string, team: seq<TeamRow>): (report: seq<UserRow>)
    ensures ReportUsers(report) == ValidUsers(selected)
    ensures forall i, j :: 0 <= i < j < |report| ==> report[i].user != report[j].user
    ensures forall i :: 0 <= i < |report| ==>
      report[i] == UserRowFor(selected, report[i].user, DayMultiplier(viewMode), team)
  {
    var valid := Filter(selected, IsValidRow);
    var users := Distinct(Project(valid, UserOf));
    var report := seq(|users|, i requires 0 <= i < |users| =>
      UserRowFor(selected, users[i], DayMultiplier(viewMode), team));
    assert forall i :: 0 <= i < |report| ==> report[i].user == users[i];
    ValidUserColumn(selected, users, report);
    report
  }

  lemma ValidUserColumn(selected: seq<LogRow>, users: seq<string>, report: seq<UserRow>)
    requires users == Distinct(Project(Filter(selected, IsValidRow), UserOf))
    requires |report| == |users| && forall i :: 0 <= i < |report| ==> report[i].user == users[i]
    ensures ReportUsers(report) == ValidUsers(selected)
  {
    var valid := Filter(selected, IsValidRow);
    forall u ensures u in users <==> u in ValidUsers(selected) {
      ProjectMember(valid, UserOf, u);
    }
    forall u | u in ValidUsers(selected) ensures u in ReportUsers(report) {
      var i :| 0 <= i < |users| && users[i] == u;
      assert report[i].user == u;
    }
  }

  /**
   * What a user row states in terms of the selected rows alone: each
   * activity cell sums exactly the user's valid rows of that activity, and
   * the total sums all the user's valid rows.
   */
  lemma UserRowPoints(selected: seq<LogRow>, u: string, multiplier: nat, team: seq<TeamRow>)
    requires multiplier > 0
    ensures var row := UserRowFor(selected, u, multiplier, team);
      && row.production == Sum(Filter(selected, ValidFor(u, PRODUCTION)), Points)
      && row.qc == Sum(Filter(selected, ValidFor(u, QC)), Points)
      && row.total == Sum(Filter(selected, ValidOf(u)), Points)
  {
    FilterFilter(selected, IsValidRow, ByUserActivity(u, PRODUCTION), ValidFor(u, PRODUCTION));
    FilterFilter(selected, IsValidRow, ByUserActivity(u, QC), ValidFor(u, QC));
    SumSplit(selected, Points, ValidOf(u), ValidFor(u, PRODUCTION), ValidFor(u, QC));
  }

  /** Adding a row that is not valid (another status or activity) changes no user's points. */
  lemma InvalidRowAddsNoPoints(selected: seq<LogRow>, r: LogRow, u: string, a: string)
    requires !IsValidRow(r)
    ensures ActivityTotal(Filter(selected + [r], IsValidRow), u, a) == ActivityTotal(Filter(selected, IsValidRow), u, a)
  {
    FilterConcat(selected, [r], IsValidRow);
    assert Filter([r], IsValidRow) == [] by {
      FilterEmpty([r], IsValidRow);
    }
    assert Filter(selected + [r], IsValidRow) == Filter(selected, IsValidRow);
  }

  /** An activity a user has no valid rows for counts as 0 points and 0 % efficiency. */
  lemma MissingActivityCountsZero(selected: seq<LogRow>, u: string, multiplier: nat, team: seq<TeamRow>)
    requires multiplier > 0
    requires forall r :: r in selected && IsValidRow(r) && r.user == u ==> r.activity != QC
    ensures var row := UserRowFor(selected, u, multiplier, team);
      row.qc == 0 && row.qcEff == 0.0 && row.total == row.production
  {
    var valid := Filter(selected, IsValidRow);
    FilterEmpty(valid, ByUserActivity(u, QC));
  }

  /** The team filter, then the user filter, each disabled by "All". */
  predicate KeptBy(row: UserRow, teamFilter: string, userFilter: string)
  {
    (teamFilter == ALL || row.teamGroup == teamFilter) && (userFilter == ALL || row.user == userFilter)
  }

  function UserOfRow(row: UserRow): string { row.user }
  function TeamIs(g: string): UserRow -> bool { (row: UserRow) => row.teamGroup == g }
  function UserIs(u: string): UserRow -> bool { (row: UserRow) => row.user == u }

  /**
   * The single view: the rows of the selected bucket, the per-user report,
   * and the team and user filters applied one after the other.
   */
  method UserSummary(log: seq<LogRow>, team: seq<TeamRow>, bucket: Bucket, teamFilter: string, userFilter: string)
    returns (report: seq<UserRow>)
    ensures forall row :: row in report <==>
      row in BuildReport(Filter(log, InBucket(bucket)), ModeName(ModeOf(bucket)), team) && KeptBy(row, teamFilter, userFilter)
    ensures teamFilter == ALL && userFilter == ALL ==>
      report == BuildReport(Filter(log, InBucket(bucket)), ModeName(ModeOf(bucket)), team)
    ensures multiset(report) <= multiset(BuildReport(Filter(log, InBucket(bucket)), ModeName(ModeOf(bucket)), team))
    ensures DistinctBy(report, UserOfRow)
  {
    var selected := Filter(log, InBucket(bucket));
    report := BuildReport(selected, ModeName(ModeOf(bucket)), team);
    if teamFilter != ALL {
      FilterSub(report, TeamIs(teamFilter));
      FilterDistinctKeys(report, TeamIs(teamFilter), UserOfRow);
      report := Filter(report, TeamIs(teamFilter));
    }
    if userFilter != ALL {
      FilterSub(report, UserIs(userFilter));
      FilterDistinctKeys(report, UserIs(userFilter), UserOfRow);
      report := Filter(report, UserIs(userFilter));
    }
  }

  /** Sort key of the display: Production, then QC efficiency, highest first. */
  function ByEfficiency(row: UserRow): SortKey
  {
    SortKey(row.prodEff, row.qcEff, 0.0)
  }

  /** The report as displayed: the same rows, highest Production efficiency first, ties by QC efficiency. */
  function DisplayOrder(report: seq<UserRow>): (shown: seq<UserRow>)
    ensures multiset(shown) == multiset(report)
    ensures forall i, j :: 0 <= i < j < |shown| ==>
      shown[i].prodEff > shown[j].prodEff || (shown[i].prodEff == shown[j].prodEff && shown[i].qcEff >= shown[j].qcEff)
  {
    var shown := SortDesc(report, ByEfficiency);
    assert forall i, j :: 0 <= i < j < |shown| ==> KeyGeq(ByEfficiency(shown[i]), ByEfficiency(shown[j]));
    shown
  }

  /** How the derivation of the efficiency columns ends in the source. */
  datatype Outcome = Derived(report: seq<UserRow>) | FailsAt(line: nat)

  /** The activity columns of the pivot: the activities that occur among the valid rows. */
  function PivotColumns(selected: seq<LogRow>): set<string>
  {
    set r | r in selected && IsValidRow(r) :: r.activity
  }

  /**
   * The efficiency columns as written: when the pivot lacks an activity
   * column, the lookup with default 0 yields a plain number, and calling
   * the fill-missing step on that number fails, at the Production line or
   * at the QC line.
   */
  function EfficiencyColumnsAsWritten(selected: seq<LogRow>, viewMode: string, team: seq<TeamRow>): (o: Outcome)
    ensures o.FailsAt? <==> PRODUCTION !in PivotColumns(selected) || QC !in PivotColumns(selected)
    ensures o.Derived? ==> o.report == BuildReport(selected, viewMode, team)
  {
    if PRODUCTION !in PivotColumns(selected) then FailsAt(277)
    else if QC !in PivotColumns(selected) then FailsAt(278)
    else Derived(BuildReport(selected, viewMode, team))
  }

  /**
   * A day on which one user completed Production work and nobody did QC:
   * the source fails at the QC efficiency line, while the intended report
   * has that user's row with QC counted as 0.
   */
  lemma ProductionOnlyDayFails()
    ensures var r := LogRow("u1", PRODUCTION, 10, "W", "M", 300, COMP, 0, None, "P1", "G1", 1);
      && EfficiencyColumnsAsWritten([r], "Day", []) == FailsAt(278)
      && BuildReport([r], "Day", []) == [UserRow("u1", 300, 0, 300, 25.0, 0.0, Finite(100.0), UNASSIGNED)]
  {
    var r := LogRow("u1", PRODUCTION, 10, "W", "M", 300, COMP, 0, None, "P1", "G1", 1);
    var selected := [r];
    assert PivotColumns(selected) == {PRODUCTION};
    assert Filter(selected, IsValidRow) == selected by {
      assert selected[1..] == [];
    }
    assert Project(selected, UserOf) == ["u1"];
    assert Distinct(["u1"]) == ["u1"] by {
      assert ["u1"][..0] == [];
    }
    var report := BuildReport(selected, "Day", []);
    assert |report| == 1;
    assert report[0].user == "u1";
    var row := report[0];
    assert row == UserRowFor(selected, "u1", 1, []);
    assert Filter(selected, ByUserActivity("u1", PRODUCTION)) == selected by {
      assert selected[1..] == [];
    }
    assert Filter(selected, ByUserActivity("u1", QC)) == [] by {
      FilterEmpty(selected, ByUserActivity("u1", QC));
    }
    NoFeedbackFullQuality(selected, "u1");
    assert Percent(300, 1200) == 25.0;
    RoundTenthOfTenth(250);
    assert row == UserRow("u1", 300, 0, 300, 25.0, 0.0, Finite(100.0), UNASSIGNED);
  }
}
