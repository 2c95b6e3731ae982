/**
 * The weekly and the monthly user summaries: for a chosen list of week
 * (or month) labels, one column of Production and one of QC points per
 * label for every user, their totals, whole-number efficiencies against
 * the per-user target over all chosen periods, and whole-number quality.
 */
module Periods {
  import opened Tables
  import opened Collections
  import opened Numeric
  import opened Ordering

  datatype PeriodMode = Weekly | Monthly

  /** Working days in one period. */
  function WorkingDays(m: PeriodMode): nat
  {
    match m
    case Weekly => 5
    case Monthly => 22
  }

  /** The period label of a row: its week or its month. */
  function Label(m: PeriodMode, r: LogRow): string
  {
    match m
    case Weekly => r.week
    case Monthly => r.month
  }

  function InPeriods(m: PeriodMode, labels: seq<string>): LogRow -> bool
  {
    (r: LogRow) => Label(m, r) in labels
  }

  /** The rows of the chosen periods. */
  function Window(log: seq<LogRow>, m: PeriodMode, labels: seq<string>): seq<LogRow>
  {
    Filter(log, InPeriods(m, labels))
  }

  /** Rows of user `u` and activity `a` in period `l`. */
  function InCell(u: string, a: string, m: PeriodMode, l: string): LogRow -> bool
  {
    (r: LogRow) => r.user == u && r.activity == a && Label(m, r) == l
  }

  /** Rows of user `u` and activity `a` in any of the periods `labels`. */
  function InCells(u: string, a: string, m: PeriodMode, labels: seq<string>): LogRow -> bool
  {
    (r: LogRow) => r.user == u && r.activity == a && Label(m, r) in labels
  }

  function CellOf(rows: seq<LogRow>, u: string, a: string, m: PeriodMode, l: string): int
  {
    Sum(Filter(rows, InCell(u, a, m, l)), Points)
  }

  /** The per-period columns of one user and activity, in the order the periods were chosen, 0 where empty. */
  function CellsOf(rows: seq<LogRow>, u: string, a: string, m: PeriodMode, labels: seq<string>): (cells: seq<int>)
    ensures |cells| == |labels|
    ensures forall i :: 0 <= i < |labels| ==> cells[i] == CellOf(rows, u, a, m, labels[i])
  {
    seq(|labels|, i requires 0 <= i < |labels| => CellOf(rows, u, a, m, labels[i]))
  }

  /** With each period chosen once, the columns add up to all the user's points of that activity in the periods. */
  lemma {:induction false} CellsTotal(rows: seq<LogRow>, u: string, a: string, m: PeriodMode, labels: seq<string>)
    requires NoDuplicates(labels)
    ensures Total(CellsOf(rows, u, a, m, labels)) == Sum(Filter(rows, InCells(u, a, m, labels)), Points)
    decreases |labels|
  {
    if labels == [] {
      FilterEmpty(rows, InCells(u, a, m, labels));
    } else {
      var init := labels[..|labels| - 1];
      var l := labels[|labels| - 1];
      assert labels == init + [l];
      assert NoDuplicates(init);
      assert l !in init;
      CellsTotal(rows, u, a, m, init);
      assert CellsOf(rows, u, a, m, labels) == CellsOf(rows, u, a, m, init) + [CellOf(rows, u, a, m, l)];
      TotalSnoc(CellsOf(rows, u, a, m, init), CellOf(rows, u, a, m, l));
      SumSplit(rows, Points, InCells(u, a, m, labels), InCells(u, a, m, init), InCell(u, a, m, l));
    }
  }

  /**
   * Quality of `u` over the periods, cut to a whole number: 100 minus the
   * errors of the feedback `u` received as a percentage of its points;
   * 100 when both sums are 0; None when only the point sum is 0, an
   * infinity that cannot be made a whole number.
   */
  function PeriodQuality(rows: seq<LogRow>, u: string): (q: Option<int>)
    ensures q.None? <==> FeedbackPoints(rows, u) == 0 && FeedbackErrors(rows, u) != 0
    ensures FeedbackPoints(rows, u) == 0 && FeedbackErrors(rows, u) == 0 ==> q == Some(100)
    ensures FeedbackPoints(rows, u) != 0 ==>
      var x := 100.0 - Percent(FeedbackErrors(rows, u), FeedbackPoints(rows, u));
      q.Some? && (0.0 <= x ==> q.value as real <= x < q.value as real + 1.0)
      && (x < 0.0 ==> q.value as real - 1.0 < x <= q.value as real)
  {
    var fb := Filter(rows, FeedbackTo(u));
    if fb == [] then Some(100)
    else if Sum(fb, Points) == 0 then (if Sum(fb, Errors) == 0 then Some(100) else None)
    else Some(Trunc(100.0 - Percent(Sum(fb, Errors), Sum(fb, Points))))
  }

  /** When the errors do not exceed the points, quality is between 0 and 100. */
  lemma PeriodQualityInRange(rows: seq<LogRow>, u: string)
    requires 0 <= FeedbackErrors(rows, u) <= FeedbackPoints(rows, u) && FeedbackPoints(rows, u) > 0
    ensures PeriodQuality(rows, u).Some? && 0 <= PeriodQuality(rows, u).value <= 100
  {
    PercentBounds(FeedbackErrors(rows, u), FeedbackPoints(rows, u));
  }

  /** A user who received no feedback has quality 100. */
  lemma NoFeedbackFullQuality(rows: seq<LogRow>, u: string)
    requires forall r :: r in rows ==> r.feedbackTo != Some(u)
    ensures PeriodQuality(rows, u) == Some(100)
  {
    FilterEmpty(rows, FeedbackTo(u));
  }

  function Receiver(r: LogRow): string
  {
    if r.feedbackTo.Some? then r.feedbackTo.value else ""
  }

  predicate HasFeedback(r: LogRow) { r.feedbackTo.Some? }

  /** Users who received feedback in `rows`. */
  function Receivers(rows: seq<LogRow>): set<string>
  {
    set r | r in rows && r.feedbackTo.Some? :: r.feedbackTo.value
  }

  function QualityFails(rows: seq<LogRow>): string -> bool
  {
    (u: string) => PeriodQuality(rows, u).None?
  }

  /** The receivers whose quality is an infinity, each once. */
  function FailingReceivers(rows: seq<LogRow>): (us: seq<string>)
    ensures forall u :: u in us <==> u in Receivers(rows) && PeriodQuality(rows, u).None?
  {
    var receivers := Distinct(Project(Filter(rows, HasFeedback), Receiver));
    forall u ensures u in receivers <==> u in Receivers(rows) {
      ProjectMember(Filter(rows, HasFeedback), Receiver, u);
    }
    Filter(receivers, QualityFails(rows))
  }

  /** Efficiency over the chosen periods, cut to a whole percentage. */
  function PeriodEfficiency(total: int, perUserTarget: nat, m: PeriodMode, periods: nat): (e: int)
    requires perUserTarget > 0 && periods > 0
    ensures var p := Percent(total, perUserTarget * WorkingDays(m) * periods);
      && (0 <= total ==> 0 <= e && e as real <= p < e as real + 1.0)
      && (total < 0 ==> e <= 0 && e as real - 1.0 < p <= e as real)
  {
    var p := Percent(total, perUserTarget * WorkingDays(m) * periods);
    assert 0 <= total ==> 0.0 <= p;
    assert total < 0 ==> p < 0.0;
    Trunc(p)
  }

  datatype PeriodRow = PeriodRow(
    user: string,
    prodByPeriod: seq<int>, totalProd: int,
    qcByPeriod: seq<int>, totalQc: int,
    total: int, prodEff: int, qcEff: int, quality: int)

  /** One user's row over the rows of the chosen periods. */
  function PeriodRowFor(window: seq<LogRow>, u: string, m: PeriodMode, labels: seq<string>): (row: PeriodRow)
    requires |labels| > 0 && PeriodQuality(window, u).Some?
    ensures row.user == u
    ensures |row.prodByPeriod| == |row.qcByPeriod| == |labels|
    ensures row.totalProd == Total(row.prodByPeriod) && row.totalQc == Total(row.qcByPeriod)
    ensures row.total == row.totalProd + row.totalQc
    ensures row.prodEff == PeriodEfficiency(row.totalProd, PROD_TARGET_PER_USER, m, |labels|)
    ensures row.qcEff == PeriodEfficiency(row.totalQc, QC_TARGET_PER_USER, m, |labels|)
    ensures row.quality == PeriodQuality(window, u).value
  {
    var prod := CellsOf(window, u, PRODUCTION, m, labels);
    var qc := CellsOf(window, u, QC, m, labels);
    var totalProd := Total(prod);
    var totalQc := Total(qc);
    PeriodRow(u, prod, totalProd, qc, totalQc, totalProd + totalQc,
              PeriodEfficiency(totalProd, PROD_TARGET_PER_USER, m, |labels|),
              PeriodEfficiency(totalQc, QC_TARGET_PER_USER, m, |labels|),
              PeriodQuality(window, u).value)
  }

  /** Users with a Production or a QC row in the chosen periods, whatever its status. */
  function PeriodUsers(window: seq<LogRow>): set<string>
  {
    set r | r in window && IsProdOrQC(r) :: r.user
  }

  function RowUsers(rows: seq<PeriodRow>): set<string>
  {
    set i | 0 <= i < |rows| :: rows[i].user
  }

  datatype PeriodOutcome = Report(rows: seq<PeriodRow>) | NothingChosen | QualityNotFinite

  /**
   * The weekly or monthly summary of `log` over the periods `labels`: a
   * warning when none is chosen, a failure when some feedback receiver's
   * quality is an infinity, and otherwise one row per user with a
   * Production or QC row in those periods.
   */
  function PeriodSummary(log: seq<LogRow>, m: PeriodMode, labels: seq<string>): (o: PeriodOutcome)
    ensures o == NothingChosen <==> labels == []
    ensures o == QualityNotFinite <==>
      labels != [] && exists u :: u in Receivers(Window(log, m, labels)) && PeriodQuality(Window(log, m, labels), u).None?
    ensures o.Report? ==>
      && (forall u :: PeriodQuality(Window(log, m, labels), u).Some?)
      && RowUsers(o.rows) == PeriodUsers(Window(log, m, labels))
      && (forall i, j :: 0 <= i < j < |o.rows| ==> o.rows[i].user != o.rows[j].user)
      && (forall i :: 0 <= i < |o.rows| ==> o.rows[i] == PeriodRowFor(Window(log, m, labels), o.rows[i].user, m, labels))
  {
    if labels == [] then NothingChosen
    else
      var window := Window(log, m, labels);
      var failing := FailingReceivers(window);
      if failing != [] then
        assert failing[0] in failing;
        QualityNotFinite
      else
        var users := Distinct(Project(Filter(window, IsProdOrQC), UserOf));
        forall u ensures PeriodQuality(window, u).Some? {
          QualityFinite(window, u);
        }
        var rows := seq(|users|, i requires 0 <= i < |users| => PeriodRowFor(window, users[i], m, labels));
        UserColumn(window, users, rows, m, labels);
        Report(rows)
  }

  /** Without a failing receiver every user's quality is a whole number. */
  lemma QualityFinite(window: seq<LogRow>, u: string)
    requires FailingReceivers(window) == []
    ensures PeriodQuality(window, u).Some?
  {
    if u !in Receivers(window) {
      assert forall r :: r in window ==> r.feedbackTo != Some(u);
      NoFeedbackFullQuality(window, u);
    } else {
      assert u !in FailingReceivers(window);
    }
  }

  /** One row per distinct user, in order, gives each period user exactly one row, built for that user. */
  lemma UserColumn(window: seq<LogRow>, users: seq<string>, rows: seq<PeriodRow>, m: PeriodMode, labels: seq<string>)
    requires users == Distinct(Project(Filter(window, IsProdOrQC), UserOf))
    requires |labels| > 0 && forall u :: PeriodQuality(window, u).Some?
    requires |rows| == |users| && forall i :: 0 <= i < |rows| ==> rows[i] == PeriodRowFor(window, users[i], m, labels)
    ensures RowUsers(rows) == PeriodUsers(window)
    ensures forall i, j :: 0 <= i < j < |rows| ==> rows[i].user != rows[j].user
    ensures forall i :: 0 <= i < |rows| ==> rows[i] == PeriodRowFor(window, rows[i].user, m, labels)
  {
    assert forall i :: 0 <= i < |rows| ==> rows[i].user == users[i];
    forall u ensures u in users <==> u in PeriodUsers(window) {
      ProjectMember(Filter(window, IsProdOrQC), UserOf, u);
    }
    forall u | u in PeriodUsers(window) ensures u in RowUsers(rows) {
      var i :| 0 <= i < |users| && users[i] == u;
      assert rows[i].user == u;
    }
  }

  /**
   * What a row's totals mean in terms of the whole log: with each period
   * chosen once, Total_Prod is the sum of all the user's Production points
   * in the chosen periods, Total_QC likewise for QC, and Total is both.
   */
  lemma PeriodTotals(log: seq<LogRow>, u: string, m: PeriodMode, labels: seq<string>)
    requires |labels| > 0 && NoDuplicates(labels)
    requires PeriodQuality(Window(log, m, labels), u).Some?
    ensures var row := PeriodRowFor(Window(log, m, labels), u, m, labels);
      && row.totalProd == Sum(Filter(log, InCells(u, PRODUCTION, m, labels)), Points)
      && row.totalQc == Sum(Filter(log, InCells(u, QC, m, labels)), Points)
  {
    var window := Window(log, m, labels);
    CellsTotal(window, u, PRODUCTION, m, labels);
    CellsTotal(window, u, QC, m, labels);
    FilterFilter(log, InPeriods(m, labels), InCells(u, PRODUCTION, m, labels), InCells(u, PRODUCTION, m, labels));
    FilterFilter(log, InPeriods(m, labels), InCells(u, QC, m, labels), InCells(u, QC, m, labels));
  }

  /** Each period column is the user's points of that activity logged in that period. */
  lemma PeriodColumn(log: seq<LogRow>, u: string, m: PeriodMode, labels: seq<string>, i: nat)
    requires i < |labels| && PeriodQuality(Window(log, m, labels), u).Some?
    ensures var row := PeriodRowFor(Window(log, m, labels), u, m, labels);
      && row.prodByPeriod[i] == Sum(Filter(log, InCell(u, PRODUCTION, m, labels[i])), Points)
      && row.qcByPeriod[i] == Sum(Filter(log, InCell(u, QC, m, labels[i])), Points)
  {
    var l := labels[i];
    FilterFilter(log, InPeriods(m, labels), InCell(u, PRODUCTION, m, l), InCell(u, PRODUCTION, m, l));
    FilterFilter(log, InPeriods(m, labels), InCell(u, QC, m, l), InCell(u, QC, m, l));
  }

  /** Sort key of the display: Production efficiency, then QC efficiency, then quality, highest first. */
  function ByEfficiency(row: PeriodRow): SortKey
  {
    SortKey(row.prodEff as real, row.qcEff as real, row.quality as real)
  }

  /** The summary as displayed: the same rows, ordered by efficiency and quality, highest first. */
  function DisplayOrder(rows: seq<PeriodRow>): (shown: seq<PeriodRow>)
    ensures multiset(shown) == multiset(rows)
    ensures forall i, j :: 0 <= i < j < |shown| ==>
      || shown[i].prodEff > shown[j].prodEff
      || (shown[i].prodEff == shown[j].prodEff && shown[i].qcEff > shown[j].qcEff)
      || (shown[i].prodEff == shown[j].prodEff && shown[i].qcEff == shown[j].qcEff && shown[i].quality >= shown[j].quality)
  {
    var shown := SortDesc(rows, ByEfficiency);
    assert forall i, j :: 0 <= i < j < |shown| ==> KeyGeq(ByEfficiency(shown[i]), ByEfficiency(shown[j]));
    shown
  }
}
