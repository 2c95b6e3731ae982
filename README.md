# Annotation-services dashboard: the aggregation pipeline

This project models the aggregation pipeline of the annotation-services dashboard (`app.py`).
The dashboard reads three tables and turns them into the figures it displays.
The tables are a work log (one row per logged activity), a publication configuration (one row per grid) and a team roster.
Each table is a sequence of records (`Tables`).
Each stage of the pipeline is a Dafny function, or a method where the source rebinds a table step by step.

- `Daily` has three parts:
  - the daily summary: Production and QC point totals per log date, pivoted with 0 fill, latest date first;
  - the metrics of the selected day: points, distinct resources, target, achieved percentage, rate per hour;
  - the "last 5 days" table.
- `Publications` also has three parts:
  - the per-publication aggregate: distinct grids, point and output sums, and production and QC completion counts;
  - the derived in-progress counts, latest log date and completion percentage;
  - the display choice: either "Show All", or one date topped up to five rows with the most recent older publications.
- `UserView` is the single Day, Week or Month user summary:
  - the working-day multiplier;
  - the valid-row filter and the pivot with its total;
  - efficiency rounded to one decimal, and quality from the QC feedback a user received;
  - the roster join with its "Unassigned" default, and the "All"-sentinel team and user filters.
- `Periods` is the weekly and the monthly multi-period summaries:
  - one column per chosen period, in the order chosen;
  - totals, and efficiency and quality truncated to whole numbers.
- `Collections`, `Numeric` and `Ordering` are shared helpers:
  - filters, sums and distinct values;
  - rounding to one decimal place, half to even, and truncation toward zero;
  - a descending sort by up to three keys.

Percentages are exact rational numbers (`real`). `round(x, 1)` is modelled as rounding to the nearest tenth, ties to even (`Numeric.RoundTenth`). `astype(int)` is truncation toward zero (`Numeric.Trunc`).

Dates are day numbers. Week and month labels are opaque strings carried on each log row.

Where the code behaves in a way one might not expect, the model follows the code:
- The weekly and monthly views filter on activity but not on status. They count every status.
- The weekly and monthly views do not join the roster, so they have no team group.
- Quality is 100 for a user who is nobody's feedback target, and when errors and points both sum to 0. Errors over zero points give an infinity: the single view shows it, and the multi-period views fail converting it to a whole number.
- A grid may appear on several configuration rows. Prod_Comp counts rows, while Total_Grids counts distinct grids (`Publications.RepeatedGridOvercounts`).
- A missing activity in the single view counts as 0 only in the corrected model. The code as written fails there (see "## Findings").

## Model

| member | source | states |
|---|---|---|
| Daily.DailySummary | app.py:65-72 | one row per date that has a Production or QC row: no date twice, none left out, strictly latest first |
| Daily.DailySummaryPoints | app.py:65-72 | each pivoted cell is that date's point total for the activity over the whole log (0 when there are none) |
| Daily.SummaryPointsAgree | app.py:79-82 | reading the selected day from the pivot gives the log's own total for the activity, including 0 when the date has no row |
| Daily.RowOn | app.py:79 | the row of a date is one of the summary's rows with that date; no row exactly when the date is absent |
| Daily.Summarize | app.py:88-95 | target = per-user target × resources; progress is 0 when the target is 0, else within half a tenth of points/target×100; rate is 0 without resources, else within half a tenth of points/(resources×8) |
| Daily.SelectedDayMetrics | app.py:79-95 | the day's points are the log totals; resources are the number of distinct users of each activity that day; targets are 1200 and 2000 per resource |
| Daily.NoResourcesNoProgress | app.py:84-95 | an activity nobody logged that day has 0 points, 0 target, 0 progress and 0 rate |
| Daily.ProductionScenario | app.py:84-95 | 1000 Production points by 2 users give target 2400, 41.7 % achieved and 62.5 points per hour |
| Daily.LastFiveDays | app.py:124-132 | min(5, number of dates) rows, strictly descending dates, each a row of the daily summary, and no date left out is later than any date shown |
| Publications.GridIdsBound | app.py:157 | a publication never has more distinct grids than config rows |
| Publications.UniqueGridsCount | app.py:157 | when every row has its own grid id, the distinct-grid count is the row count |
| Publications.Aggregated | app.py:155-173 | Total_Grids is the number of distinct present grid ids; Points and Output are sums; Prod_Comp counts Comp rows and IP rows whose latest activity is QC; QC_Comp counts Accepted rows; both counts are at most the row count |
| Publications.ComputeSummary | app.py:175-178 | exactly one aggregate per publication in the configuration, each over that publication's rows |
| Publications.LatestDate | app.py:151-152 | no date exactly when no log row names the publication; otherwise the largest log date among its rows |
| Publications.Derive | app.py:181-193 | a partition identity for each of Production and QC: IP + Comp = Total_Grids; completion is 0.0 when Total_Grids is 0, else within half a tenth of Prod_Comp/Total_Grids×100 |
| Publications.PublicationSummary | app.py:178-193 | one row per configured publication, each derived from its aggregate and its latest log date |
| Publications.UniqueGridsInProgress | app.py:157-182 | with one row per grid, the in-progress counts are the rows not yet complete (never negative) and completion lies in 0..100 |
| Publications.RepeatedGridOvercounts | app.py:157-182 | two rows of one completed grid give Total_Grids 1, Prod_Comp 2 and Prod_IP −1: rows are counted against distinct grids |
| Publications.NoGridsNoCompletion | app.py:190-193 | a publication without grid ids shows 0.0 % completion |
| Publications.ByLatestDateOrder | app.py:202 | on dated rows the sort key orders exactly by latest date |
| Publications.ShowAll | app.py:201-202 | "Show All" is a permutation of the summary with dated rows newest first and undated rows last |
| Publications.Backfill | app.py:207-209 | min(k, number of older rows) rows, all older summary rows, newest first; an older row left out is no newer than any row taken; no older row is taken more often than it occurs |
| Publications.SelectForDate | app.py:203-212 | every publication of the chosen date is shown; every other row shown is older; the size is n if n ≥ 5, else min(5, n + number of older rows); dates descend; no summary row is shown more often than it occurs |
| Publications.SelectionKeepsLatestOlder | app.py:206-210 | an older publication left out is no newer than any older publication shown |
| Publications.DisplayedPublications | app.py:201-212 | "Show All" is the full sorted summary (ShowAll: a permutation, dated rows newest first, undated last); a chosen date gives the backfilled selection (SelectForDate: every row of that date, older rows after it, the size rule, descending dates, no row shown twice over) |
| Ordering.SortDesc | app.py:202 | the descending sort is ordered by its key and is a permutation of its input |
| UserView.DayMultiplier | app.py:245-249 | 5 exactly for "Week", 22 exactly for "Month", 1 for everything else |
| UserView.DayEfficiency | app.py:276-278 | within half a tenth of points/(target×multiplier)×100, a whole number of tenths, 0 for no points |
| UserView.DayQuality | app.py:281-290 | 100 when the feedback points and errors are both 0; −∞ or +∞ when only the points are 0; otherwise within half a tenth of 100 − errors/points×100 |
| UserView.NoFeedbackFullQuality | app.py:289-290 | a user who is nobody's feedback target gets quality 100 |
| UserView.DayQualityInRange | app.py:286 | errors between 0 and the (positive) points give a quality between 0 and 100 |
| UserView.TeamOf | app.py:293-294 | "Unassigned" for a user missing from the roster, otherwise a group the roster gives that user |
| UserView.TeamOfRosterRow | app.py:293-294 | with one roster row per user, the group of that row |
| UserView.UserRowFor | app.py:271-294 | Total = Production + QC; Prod_Eff and QC_Eff are DayEfficiency of the user's points against 1200 × m and 2000 × m; Quality is DayQuality over all selected rows; Team_Group is TeamOf the roster |
| UserView.BuildReport | app.py:265-294 | exactly one row per user with a valid row (Comp or IP, Production or QC), each row being UserRowFor of that user over the selected rows (so its efficiencies, quality and team are pinned) |
| UserView.UserRowPoints | app.py:265-273 | Production, QC and Total are sums over the user's valid rows only, and Total covers both activities |
| UserView.InvalidRowAddsNoPoints | app.py:265-268 | adding a row of another status or activity changes nobody's points |
| UserView.MissingActivityCountsZero | app.py:271-278 | a user without valid QC rows has QC 0, QC efficiency 0 and Total equal to Production |
| UserView.UserSummary | app.py:251-306 | the rows shown are exactly the report rows of the selected bucket that pass both filters; with both filters "All" the report is unchanged; no report row is repeated and no user appears twice |
| UserView.DisplayOrder | app.py:309-310 | the same rows, ordered by Production efficiency, then QC efficiency, highest first |
| UserView.EfficiencyColumnsAsWritten | app.py:271-278 | the code fails exactly when the pivot lacks a Production or a QC column; otherwise it yields the corrected report |
| UserView.ProductionOnlyDayFails | app.py:277-278 | one user and one completed Production row: the code fails at line 278, the intended report is that user with 300, 0, 300, 25.0 %, 0.0 %, 100, "Unassigned" |
| Periods.CellsOf | app.py:337-340 | one cell per chosen period, in the order chosen: that period's points of the user and activity, 0 when there are none |
| Periods.CellsTotal | app.py:341 | with each period chosen once, the cells add up to the user's points of the activity in all chosen periods |
| Periods.PeriodQuality | app.py:361-372 | 100 with no feedback or when both sums are 0; no whole number when only the points are 0; otherwise 100 − errors/points×100 truncated toward zero |
| Periods.PeriodQualityInRange | app.py:366-367 | errors between 0 and the (positive) points give a quality between 0 and 100 |
| Periods.NoFeedbackFullQuality | app.py:371-372 | a user who is nobody's feedback target gets quality 100 |
| Periods.FailingReceivers | app.py:366-367 | exactly the feedback targets whose quality is an infinity |
| Periods.PeriodEfficiency | app.py:356-358 | total/(target × working days × number of periods)×100 truncated toward zero |
| Periods.PeriodRowFor | app.py:337-372 | period columns of both activities; Total_Prod and Total_QC are their sums; Total is both; Prod_Eff and QC_Eff are PeriodEfficiency of those totals against 1200 and 2000 × the view's working days (5 or 22) × the number of chosen periods; quality is the user's |
| Periods.PeriodSummary | app.py:329-372 | a warning when no period is chosen; a failure exactly when some feedback target's quality is infinite; otherwise exactly one row per user with a Production or QC row (any status) in the chosen periods, each being PeriodRowFor of that user (period columns, totals, efficiencies and quality pinned) (the monthly view at app.py:400-447 is the same with 22 working days) |
| Periods.PeriodTotals | app.py:337-353 | with each period chosen once, Total_Prod and Total_QC are the user's Production and QC points over all chosen periods of the log |
| Periods.PeriodColumn | app.py:336-340 | each period column is the user's points of that activity logged in that period |
| Periods.DisplayOrder | app.py:375-378 | the same rows, ordered by Production efficiency, QC efficiency, then quality, highest first |
| Numeric.RoundTenth | app.py:91-92 | a whole number of tenths within half a tenth of its argument, even on a tie |
| Numeric.Trunc | app.py:357-358 | truncation toward zero: within one of its argument, on the side of zero |

## Left out

- The user interface is not modelled: page layout, headings, selectors, the multiselect defaults, warnings, images and HTML. Each selector's choice is a parameter instead.
- File existence checks, reading the CSV and Excel files, and CSV export are I/O and are left out.
- Date parsing (day and month only, with the year taken from the clock) and the dropping of unparsed rows are left out. Log rows arrive with a valid day number.
- Week and month labels (`%Y-W%U`, `%Y-%m`) are given on each row, not computed from the date.
- Roster normalisation (stripping, conversion to text, which turns a blank group into "nan") is left out. Roster values arrive normalised.
- Numeric.RoundTenth: rounds the exact value, not the nearest binary double. Near a tie the source can round the other way.
- Periods.PeriodEfficiency: truncates the exact quotient. On doubles a quotient can fall just below a whole number and truncate one lower in the source: 3420/(1200×5)×100 is 56.99… there, not 57.
- Periods.PeriodQuality: truncates the exact value of 100 − errors/points×100. On doubles it can fall just below a whole number and truncate one lower in the source: 11 errors on 20 points gives 44.99… there, so the source shows 44 where the model gives 45.
- UserView.TeamOf: a user listed twice in the roster gets the first group. In the source the join duplicates that user's row. TeamOfRosterRow states the unique-roster case.
- The row order that grouping gives (group keys sorted) is not modelled. Report rows come in an order of first appearance, and each ordering claim is about the final display sort.
- The single-column sorts by latest date (app.py:202, 209-212) are not stable in the source. The multi-column sorts of the user views (app.py:310, 376) keep tied rows in their order. The model promises only order and permutation for every display sort, and says nothing about the order among equal keys.
- Publications.SelectForDate: returns the chosen date's rows followed by the older rows. That is one of the orders the source's final sort may produce.
- Daily.LastFiveDays: when the log has no Production row at all, or no QC row at all, the source fails selecting that column. The model shows 0 there.
- Daily.SelectedDayMetrics: the selected date is any day number. The source offers only dates of the daily summary, and the model covers that case.
- Points, Error and Grid point are whole numbers without blanks in the model (`int` fields). So the `int(...)` conversions of the daily totals (app.py:81-82) and the blank fill and whole-number conversion of Points and Output (app.py:189) change nothing here. Blank or fractional cells in those columns are not modelled.
- Publications.PublicationSummary: with no configured publication (an empty configuration, or every Publication cell blank), the grouping has no groups. The frame it then returns has no `Total_Grids` column, so the source fails at app.py:175 or app.py:181; this depends on the pandas version. The model returns the empty summary.
- Single-view quality infinities are modelled as `Score` values, with no precondition. The source displays them.
- In the multi-period views, an infinite quality makes the conversion to whole numbers fail (app.py:367, app.py:442). The model reports that as the `QualityNotFinite` outcome.

## Findings

| source | as written | input that shows it | evidently intended | confidence | as-written member | corrected member |
|---|---|---|---|---|---|---|
| app.py:277-278 | when the pivot has no `QC` (or no `Production`) column, `user_report.get('QC', 0)` yields the number 0, and `.fillna` on that number fails, so the single user view stops | a selected day whose only valid row is one completed Production row of one user | a missing activity counts as 0, as the Total line (app.py:273) already does | high, not executed | UserView.EfficiencyColumnsAsWritten (with UserView.ProductionOnlyDayFails) | UserView.BuildReport (with UserView.MissingActivityCountsZero) |
