/**
 * The publication aggregator: per publication, the grid count, point and
 * output sums and completion counts of its configuration rows, the
 * remaining in-progress counts, the latest log date, the completion
 * percentage; and the "top 5 by latest date" selection with backfill.
 */
module Publications {
  import opened Tables
  import opened Collections
  import opened Numeric
  import opened Ordering

  const TOP_ROWS: nat := 5

  /** A grid counts as past production when it is complete, or in progress at QC. */
  predicate ProdComplete(c: ConfigRow)
  {
    c.latestStatus == COMP || (c.latestStatus == IP && c.latestActivity == QC)
  }

  predicate QcComplete(c: ConfigRow)
  {
    c.qcAcceptance == ACCEPTED
  }

  predicate ProdOpen(c: ConfigRow) { !ProdComplete(c) }
  predicate QcOpen(c: ConfigRow) { !QcComplete(c) }

  function ConfigPoints(c: ConfigRow): int { c.points }
  function ConfigOutput(c: ConfigRow): int { c.gridPoint }
  function PublicationOf(c: ConfigRow): string { c.publication }

  function OfPublication(p: string): ConfigRow -> bool
  {
    (c: ConfigRow) => c.publication == p
  }

  /** The distinct non-blank grid ids of some configuration rows (`nunique` skips blanks). */
  function GridIds(group: seq<ConfigRow>): set<string>
  {
    set c | c in group && c.grid.Some? :: c.grid.value
  }

  lemma GridIdsCons(group: seq<ConfigRow>)
    requires group != []
    ensures GridIds(group) == GridIds(group[1..]) + (if group[0].grid.Some? then {group[0].grid.value} else {})
  {
    assert group == [group[0]] + group[1..];
    assert forall c :: c in group <==> c == group[0] || c in group[1..];
  }

  /** There are never more distinct grid ids than rows. */
  lemma {:induction false} GridIdsBound(group: seq<ConfigRow>)
    ensures |GridIds(group)| <= |group|
    decreases |group|
  {
    if group != [] {
      var rest := group[1..];
      GridIdsBound(rest);
      GridIdsCons(group);
    }
  }

  /** Every row of the group has a grid id and no two rows share one. */
  predicate UniqueGrids(group: seq<ConfigRow>)
  {
    (forall i :: 0 <= i < |group| ==> group[i].grid.Some?)
    && (forall i, j :: 0 <= i < j < |group| ==> group[i].grid != group[j].grid)
  }

  lemma {:induction false} UniqueGridsCount(group: seq<ConfigRow>)
    requires UniqueGrids(group)
    ensures |GridIds(group)| == |group|
    decreases |group|
  {
    if group != [] {
      UniqueGridsTail(group);
      UniqueGridsCount(group[1..]);
      GridIdsCons(group);
    }
  }

  /** The rows after the first still have unique grids, none of them the first row's. */
  lemma UniqueGridsTail(group: seq<ConfigRow>)
    requires UniqueGrids(group) && group != []
    ensures UniqueGrids(group[1..])
    ensures group[0].grid.value !in GridIds(group[1..])
  {
    var rest := group[1..];
    assert forall i :: 0 <= i < |rest| ==> rest[i] == group[i + 1];
    forall c | c in rest && c.grid.Some? ensures c.grid.value != group[0].grid.value {
      var k :| 0 <= k < |rest| && rest[k] == c;
      assert group[k + 1] == c;
    }
  }

  /** The per-publication aggregate of the group-by. */
  datatype Aggregate = Aggregate(
    publication: string, totalGrids: nat, points: int, output: int, prodComp: nat, qcComp: nat)

  /**
   * Aggregates the configuration rows of one publication: distinct grids,
   * point and output sums, and the numbers of ROWS past production and
   * accepted by QC.
   */
  function Aggregated(p: string, group: seq<ConfigRow>): (a: Aggregate)
    ensures a.publication == p
    ensures a.totalGrids == |GridIds(group)| <= |group|
    ensures a.points == Sum(group, ConfigPoints) && a.output == Sum(group, ConfigOutput)
    ensures a.prodComp == |Filter(group, ProdComplete)| <= |group|
    ensures a.qcComp == |Filter(group, QcComplete)| <= |group|
  {
    GridIdsBound(group);
    Aggregate(p, |GridIds(group)|, Sum(group, ConfigPoints), Sum(group, ConfigOutput),
              |Filter(group, ProdComplete)|, |Filter(group, QcComplete)|)
  }

  function ConfigPublications(config: seq<ConfigRow>): set<string>
  {
    set c | c in config :: c.publication
  }

  /** The distinct publications of the configuration are its publication column's values. */
  lemma DistinctPublications(config: seq<ConfigRow>)
    ensures (set x | x in Distinct(Project(config, PublicationOf))) == ConfigPublications(config)
  {
    var pubs := Distinct(Project(config, PublicationOf));
    forall p ensures p in pubs <==> p in ConfigPublications(config) {
      ProjectMember(config, PublicationOf, p);
    }
  }

  lemma KeyColumn(pubs: seq<string>, s: seq<Aggregate>)
    requires |s| == |pubs|
    requires forall i :: 0 <= i < |s| ==> s[i].publication == pubs[i]
    ensures (set i | 0 <= i < |s| :: s[i].publication) == (set x | x in pubs)
  {
    forall p | p in pubs ensures p in (set i | 0 <= i < |s| :: s[i].publication) {
      var i :| 0 <= i < |pubs| && pubs[i] == p;
      assert s[i].publication == p;
    }
  }

  /** The group-by over Publication: one aggregate per distinct publication of the configuration. */
  function ComputeSummary(config: seq<ConfigRow>): (s: seq<Aggregate>)
    ensures (set i | 0 <= i < |s| :: s[i].publication) == ConfigPublications(config)
    ensures forall i, j :: 0 <= i < j < |s| ==> s[i].publication != s[j].publication
    ensures forall i :: 0 <= i < |s| ==> s[i] == Aggregated(s[i].publication, Filter(config, OfPublication(s[i].publication)))
  {
    var pubs := Distinct(Project(config, PublicationOf));
    var s := seq(|pubs|, i requires 0 <= i < |pubs| => Aggregated(pubs[i], Filter(config, OfPublication(pubs[i]))));
    assert forall i :: 0 <= i < |s| ==> s[i].publication == pubs[i];
    DistinctPublications(config);
    KeyColumn(pubs, s);
    s
  }

  /** The latest date among some log rows. */
  function MaxDate(rows: seq<LogRow>): (d: Date)
    requires rows != []
    ensures exists r :: r in rows && r.logDate == d
    ensures forall r :: r in rows ==> r.logDate <= d
    decreases |rows|
  {
    if |rows| == 1 then rows[0].logDate
    else
      var m := MaxDate(rows[1..]);
      assert rows == [rows[0]] + rows[1..];
      if rows[0].logDate >= m then rows[0].logDate else m
  }

  function LoggedFor(p: string): LogRow -> bool
  {
    (r: LogRow) => r.publication == p
  }

  /**
   * The latest log date of publication `p` after the left join: absent when
   * no log row names the publication, otherwise the largest date logged for it.
   */
  function LatestDate(log: seq<LogRow>, p: string): (d: Option<Date>)
    ensures d.None? <==> forall r :: r in log ==> r.publication != p
    ensures d.Some? ==> exists r :: r in log && r.publication == p && r.logDate == d.value
    ensures d.Some? ==> forall r :: r in log && r.publication == p ==> r.logDate <= d.value
  {
    var rows := Filter(log, LoggedFor(p));
    if rows == [] then
      assert forall r :: r in log ==> r.publication != p by {
        forall r | r in log ensures r.publication != p {
          assert LoggedFor(p)(r) ==> r in rows;
        }
      }
      None
    else
      var d := MaxDate(rows);
      assert forall r :: r in log && r.publication == p ==> r in rows;
      Some(d)
  }

  /** One row of the publication summary. */
  datatype PubRow = PubRow(
    publication: string, totalGrids: nat, points: int, output: int,
    prodComp: nat, qcComp: nat, prodIP: int, qcIP: int,
    latestDate: Option<Date>, completion: real)

  /**
   * The derived columns of one aggregate: what remains in progress, the
   * joined latest date, and the completion percentage rounded to one
   * decimal, 0.0 for a publication without grids.
   */
  function Derive(a: Aggregate, latest: Option<Date>): (r: PubRow)
    ensures r.publication == a.publication && r.totalGrids == a.totalGrids
    ensures r.points == a.points && r.output == a.output
    ensures r.prodComp == a.prodComp && r.qcComp == a.qcComp && r.latestDate == latest
    ensures r.prodIP + r.prodComp == r.totalGrids && r.qcIP + r.qcComp == r.totalGrids
    ensures r.totalGrids == 0 ==> r.completion == 0.0
    ensures r.totalGrids > 0 ==> IsTenth(r.completion) && -0.05 <= r.completion - Percent(r.prodComp, r.totalGrids) <= 0.05
  {
    var completion := if a.totalGrids > 0 then RoundTenth(Percent(a.prodComp, a.totalGrids)) else 0.0;
    PubRow(a.publication, a.totalGrids, a.points, a.output, a.prodComp, a.qcComp,
           a.totalGrids - a.prodComp, a.totalGrids - a.qcComp, latest, completion)
  }

  /** The summary row of publication `p`: its aggregate, derived columns and joined latest date. */
  function SummaryRow(config: seq<ConfigRow>, log: seq<LogRow>, p: string): PubRow
  {
    Derive(Aggregated(p, Filter(config, OfPublication(p))), LatestDate(log, p))
  }

  /** The publication summary: one row per publication of the configuration, each its summary row. */
  function PublicationSummary(config: seq<ConfigRow>, log: seq<LogRow>): (s: seq<PubRow>)
    ensures (set i | 0 <= i < |s| :: s[i].publication) == ConfigPublications(config)
    ensures forall i, j :: 0 <= i < j < |s| ==> s[i].publication != s[j].publication
    ensures forall i :: 0 <= i < |s| ==> s[i] == SummaryRow(config, log, s[i].publication)
  {
    var agg := ComputeSummary(config);
    var s := seq(|agg|, i requires 0 <= i < |agg| => Derive(agg[i], LatestDate(log, agg[i].publication)));
    SummaryColumns(config, log, agg, s);
    s
  }

  /** Deriving every aggregate keeps the publication column and makes each row its summary row. */
  lemma SummaryColumns(config: seq<ConfigRow>, log: seq<LogRow>, agg: seq<Aggregate>, s: seq<PubRow>)
    requires agg == ComputeSummary(config)
    requires |s| == |agg| && forall i :: 0 <= i < |s| ==> s[i] == Derive(agg[i], LatestDate(log, agg[i].publication))
    ensures (set i | 0 <= i < |s| :: s[i].publication) == ConfigPublications(config)
    ensures forall i, j :: 0 <= i < j < |s| ==> s[i].publication != s[j].publication
    ensures forall i :: 0 <= i < |s| ==> s[i] == SummaryRow(config, log, s[i].publication)
  {
    forall i | 0 <= i < |s|
      ensures s[i].publication == agg[i].publication
      ensures s[i] == SummaryRow(config, log, s[i].publication)
    {
    }
    forall p | p in ConfigPublications(config) ensures p in (set i | 0 <= i < |s| :: s[i].publication) {
      var i :| 0 <= i < |agg| && agg[i].publication == p;
      assert s[i].publication == p;
    }
  }

  /**
   * When every grid of a publication appears in exactly one row, the
   * in-progress counts are the rows not yet complete, never negative, and
   * the completion percentage lies between 0 and 100.
   */
  lemma UniqueGridsInProgress(p: string, group: seq<ConfigRow>, latest: Option<Date>)
    requires UniqueGrids(group)
    ensures var r := Derive(Aggregated(p, group), latest);
      && r.prodIP == |Filter(group, ProdOpen)| >= 0
      && r.qcIP == |Filter(group, QcOpen)| >= 0
      && 0.0 <= r.completion <= 100.0
  {
    UniqueGridsCount(group);
    CountSplit(group, ProdComplete, ProdOpen);
    CountSplit(group, QcComplete, QcOpen);
    var a := Aggregated(p, group);
    if a.totalGrids > 0 {
      PercentBounds(a.prodComp, a.totalGrids);
      RoundTenthBetween(Percent(a.prodComp, a.totalGrids), 0, 1000);
    }
  }

  /**
   * Prod_Comp counts rows while Total_Grids counts distinct grids: two rows
   * of one complete grid give a negative in-progress count.
   */
  lemma RepeatedGridOvercounts()
    ensures var row := ConfigRow("P1", Some("G1"), 10, 1, COMP, QC, ACCEPTED);
      var r := Derive(Aggregated("P1", [row, row]), None);
      r.totalGrids == 1 && r.prodComp == 2 && r.prodIP == -1
  {
    var row := ConfigRow("P1", Some("G1"), 10, 1, COMP, QC, ACCEPTED);
    assert GridIds([row, row]) == {"G1"};
    assert Filter([row, row], ProdComplete) == [row, row] by {
      assert [row, row][1..] == [row];
      assert [row][1..] == [];
    }
  }

  /** A publication with no grid ids reports 0.0 % completion. */
  lemma NoGridsNoCompletion(p: string, group: seq<ConfigRow>, latest: Option<Date>)
    requires forall i :: 0 <= i < |group| ==> group[i].grid.None?
    ensures Derive(Aggregated(p, group), latest).completion == 0.0
  {
    assert GridIds(group) == {} by {
      forall c | c in group ensures c.grid.None? {
        var i :| 0 <= i < |group| && group[i] == c;
      }
    }
  }

  /** Sort key of the latest date, descending, rows without a date last. */
  function ByLatestDate(r: PubRow): SortKey
  {
    match r.latestDate
    case None => SortKey(0.0, 0.0, 0.0)
    case Some(d) => SortKey(1.0, d as real, 0.0)
  }

  lemma ByLatestDateOrder(x: PubRow, y: PubRow)
    requires x.latestDate.Some? && y.latestDate.Some?
    ensures KeyGeq(ByLatestDate(x), ByLatestDate(y)) <==> x.latestDate.value >= y.latestDate.value
  {
  }

  /** "Show All": every row of the summary, latest date first, undated rows last. */
  function ShowAll(summary: seq<PubRow>): (r: seq<PubRow>)
    ensures multiset(r) == multiset(summary)
    ensures forall i, j :: 0 <= i < j < |r| && r[i].latestDate.Some? && r[j].latestDate.Some? ==>
      r[i].latestDate.value >= r[j].latestDate.value
    ensures forall i, j :: 0 <= i < j < |r| && r[i].latestDate.None? ==> r[j].latestDate.None?
  {
    var r := SortDesc(summary, ByLatestDate);
    assert forall i, j :: 0 <= i < j < |r| ==> KeyGeq(ByLatestDate(r[i]), ByLatestDate(r[j]));
    r
  }

  function DatedOn(d: Date): PubRow -> bool
  {
    (r: PubRow) => r.latestDate == Some(d)
  }

  function DatedBefore(d: Date): PubRow -> bool
  {
    (r: PubRow) => r.latestDate.Some? && r.latestDate.value < d
  }

  /** Every row has a latest date and the dates never increase. */
  predicate DescendingDates(s: seq<PubRow>)
  {
    && (forall i :: 0 <= i < |s| ==> s[i].latestDate.Some?)
    && (forall i, j :: 0 <= i < j < |s| ==> s[i].latestDate.value >= s[j].latestDate.value)
  }

  /** Rows ordered by descending key, all of them dated, are ordered by descending date. */
  lemma DatedSortedByDate(s: seq<PubRow>)
    requires SortedDesc(s, ByLatestDate)
    requires forall i :: 0 <= i < |s| ==> s[i].latestDate.Some?
    ensures forall i, j :: 0 <= i < j < |s| ==> s[i].latestDate.value >= s[j].latestDate.value
  {
    forall i, j | 0 <= i < j < |s| ensures s[i].latestDate.value >= s[j].latestDate.value {
      ByLatestDateOrder(s[i], s[j]);
    }
  }

  /** The older rows taken to backfill: the latest `k` rows dated before `d`. */
  function Backfill(summary: seq<PubRow>, d: Date, k: nat): (extra: seq<PubRow>)
    ensures |extra| == Min(k, |Filter(summary, DatedBefore(d))|)
    ensures forall x :: x in extra ==> x in summary && DatedBefore(d)(x)
    ensures DescendingDates(extra)
    ensures forall x, y :: x in summary && DatedBefore(d)(x) && x !in extra && y in extra ==>
      x.latestDate.value <= y.latestDate.value
    ensures multiset(extra) <= multiset(Filter(summary, DatedBefore(d)))
  {
    var older := Filter(summary, DatedBefore(d));
    var sorted := SortDesc(older, ByLatestDate);
    var n := Min(k, |sorted|);
    BackfillPrefix(summary, d, sorted, n);
    BackfillLeavesOlder(summary, d, sorted, n);
    PrefixSub(sorted, n);
    sorted[..n]
  }

  /** A prefix takes each element at most as often as it occurs. */
  lemma PrefixSub(s: seq<PubRow>, n: nat)
    requires n <= |s|
    ensures multiset(s[..n]) <= multiset(s)
  {
    assert s == s[..n] + s[n..];
  }

  /** The first `n` rows of the sorted older rows are older rows, latest first. */
  lemma BackfillPrefix(summary: seq<PubRow>, d: Date, sorted: seq<PubRow>, n: nat)
    requires sorted == SortDesc(Filter(summary, DatedBefore(d)), ByLatestDate) && n <= |sorted|
    ensures forall x :: x in sorted <==> x in summary && DatedBefore(d)(x)
    ensures forall x :: x in sorted[..n] ==> x in summary && DatedBefore(d)(x)
    ensures DescendingDates(sorted[..n])
  {
    var older := Filter(summary, DatedBefore(d));
    SortDescMembers(older, ByLatestDate);
    var extra := sorted[..n];
    assert forall x :: x in extra ==> x in sorted;
    assert forall i :: 0 <= i < |sorted| ==> sorted[i].latestDate.Some? by {
      forall i | 0 <= i < |sorted| ensures sorted[i].latestDate.Some? {
        assert sorted[i] in sorted;
      }
    }
    DatedSortedByDate(sorted);
    assert forall i :: 0 <= i < n ==> extra[i] == sorted[i];
  }

  lemma BackfillLeavesOlder(summary: seq<PubRow>, d: Date, sorted: seq<PubRow>, n: nat)
    requires SortedDesc(sorted, ByLatestDate) && n <= |sorted|
    requires forall x :: x in sorted <==> x in summary && DatedBefore(d)(x)
    ensures forall x, y :: x in summary && DatedBefore(d)(x) && x !in sorted[..n] && y in sorted[..n] ==>
      x.latestDate.value <= y.latestDate.value
  {
    forall x, y | x in summary && DatedBefore(d)(x) && x !in sorted[..n] && y in sorted[..n]
      ensures x.latestDate.value <= y.latestDate.value
    {
      assert y in sorted;
      SortedPrefix(sorted, ByLatestDate, n, x, y);
      ByLatestDateOrder(y, x);
    }
  }

  /**
   * The rows shown for a chosen publication date: every publication last
   * updated that day and, when there are fewer than five, the most recent
   * older publications up to five rows in all, latest first.
   */
  function SelectForDate(summary: seq<PubRow>, d: Date): (r: seq<PubRow>)
    ensures forall x :: x in summary && DatedOn(d)(x) ==> x in r
    ensures forall x :: x in r ==> x in summary && (DatedOn(d)(x) || DatedBefore(d)(x))
    ensures var n := |Filter(summary, DatedOn(d))|;
      |r| == if n >= TOP_ROWS then n else Min(TOP_ROWS, n + |Filter(summary, DatedBefore(d))|)
    ensures DescendingDates(r)
    ensures multiset(r) <= multiset(summary)
  {
    var filtered := Filter(summary, DatedOn(d));
    if |filtered| < TOP_ROWS then
      var extra := Backfill(summary, d, TOP_ROWS - |filtered|);
      BackfilledSelection(summary, d, extra);
      SelectionSub(summary, d, extra);
      filtered + extra
    else
      assert forall i :: 0 <= i < |filtered| ==> filtered[i] in filtered;
      FilterSub(summary, DatedOn(d));
      filtered
  }

  /** The rows of the day followed by a backfill of older rows meet the selection's promises. */
  lemma BackfilledSelection(summary: seq<PubRow>, d: Date, extra: seq<PubRow>)
    requires |Filter(summary, DatedOn(d))| < TOP_ROWS
    requires |extra| == Min(TOP_ROWS - |Filter(summary, DatedOn(d))|, |Filter(summary, DatedBefore(d))|)
    requires forall x :: x in extra ==> x in summary && DatedBefore(d)(x)
    requires DescendingDates(extra)
    ensures var r := Filter(summary, DatedOn(d)) + extra;
      && (forall x :: x in summary && DatedOn(d)(x) ==> x in r)
      && (forall x :: x in r ==> x in summary && (DatedOn(d)(x) || DatedBefore(d)(x)))
      && |r| == Min(TOP_ROWS, |Filter(summary, DatedOn(d))| + |Filter(summary, DatedBefore(d))|)
      && DescendingDates(r)
  {
    ConcatDescending(Filter(summary, DatedOn(d)), extra, d);
  }

  /** Rows of the day followed by older rows taken at most once each repeat no summary row. */
  lemma SelectionSub(summary: seq<PubRow>, d: Date, extra: seq<PubRow>)
    requires multiset(extra) <= multiset(Filter(summary, DatedBefore(d)))
    ensures multiset(Filter(summary, DatedOn(d)) + extra) <= multiset(summary)
  {
    FilterDisjoint(summary, DatedOn(d), DatedBefore(d));
  }

  /**
   * The backfill takes the latest of the older publications: an older
   * publication left out is no newer than any older publication shown.
   */
  lemma SelectionKeepsLatestOlder(summary: seq<PubRow>, d: Date)
    ensures var r := SelectForDate(summary, d);
      forall x, y :: x in summary && DatedBefore(d)(x) && x !in r && y in r && y.latestDate.value < d ==>
        x.latestDate.value <= y.latestDate.value
  {
    var r := SelectForDate(summary, d);
    var filtered := Filter(summary, DatedOn(d));
    if |filtered| < TOP_ROWS {
      var extra := Backfill(summary, d, TOP_ROWS - |filtered|);
      assert r == filtered + extra;
      forall x, y | x in summary && DatedBefore(d)(x) && x !in r && y in r && y.latestDate.value < d
        ensures x.latestDate.value <= y.latestDate.value
      {
        assert y !in filtered;
        assert y in extra;
      }
    }
  }

  /** Rows dated `d` followed by older rows in descending order are in descending order. */
  lemma ConcatDescending(filtered: seq<PubRow>, extra: seq<PubRow>, d: Date)
    requires forall x :: x in filtered ==> x.latestDate == Some(d)
    requires forall x :: x in extra ==> x.latestDate.Some? && x.latestDate.value < d
    requires DescendingDates(extra)
    ensures forall x :: x in filtered + extra <==> x in filtered || x in extra
    ensures DescendingDates(filtered + extra)
  {
    var r := filtered + extra;
    assert forall i :: 0 <= i < |filtered| ==> r[i] == filtered[i] && filtered[i] in filtered;
    assert forall i :: |filtered| <= i < |r| ==> r[i] == extra[i - |filtered|] && extra[i - |filtered|] in extra;
  }

  /** The publication table as displayed: everything ("Show All") or the selection for a date. */
  function DisplayedPublications(summary: seq<PubRow>, option: Option<Date>): (r: seq<PubRow>)
    ensures option.None? ==> r == ShowAll(summary)
    ensures option.Some? ==> r == SelectForDate(summary, option.value)
    ensures option.None? ==> multiset(r) == multiset(summary)
    ensures option.Some? ==> forall x :: x in r ==> x in summary
    ensures option.Some? ==> multiset(r) <= multiset(summary)
  {
    match option
    case None => ShowAll(summary)
    case Some(d) => SelectForDate(summary, d)
  }
}
