/**
 * The three input tables of the dashboard, one record per row, after
 * loading and normalisation: the work log, the publication configuration
 * and the team roster.
 */
module Tables {
  import opened Collections

  datatype Option<T> = None | Some(value: T)

  /** A calendar date as an ordinal day number; later dates are larger. */
  type Date = int

  /**
   * One logged activity event. `week` and `month` are the bucket labels
   * derived from `logDate`; `feedbackTo` is the user a QC reviewer gave
   * feedback to, absent on most rows.
   */
  datatype LogRow = LogRow(
    user: string,
    activity: string,
    logDate: Date,
    week: string,
    month: string,
    points: int,
    status: string,
    error: int,
    feedbackTo: Option<string>,
    publication: string,
    grid: string,
    gridPoint: int)

  /** One grid of a publication with its latest workflow state; the grid id may be blank. */
  datatype ConfigRow = ConfigRow(
    publication: string,
    grid: Option<string>,
    points: int,
    gridPoint: int,
    latestStatus: string,
    latestActivity: string,
    qcAcceptance: string)

  /** One roster entry: the team group a user belongs to. */
  datatype TeamRow = TeamRow(user: string, teamGroup: string)

  const PRODUCTION: string := "Production"
  const QC: string := "QC"
  const COMP: string := "Comp"
  const IP: string := "IP"
  const ACCEPTED: string := "Accepted"

  /** Daily point targets of one user. */
  const PROD_TARGET_PER_USER: nat := 1200
  const QC_TARGET_PER_USER: nat := 2000

  function Points(r: LogRow): int { r.points }
  function Errors(r: LogRow): int { r.error }
  function UserOf(r: LogRow): string { r.user }

  predicate IsProdOrQC(r: LogRow)
  {
    r.activity == PRODUCTION || r.activity == QC
  }

  /** Rows logged by user `u` for activity `a`. */
  function ByUserActivity(u: string, a: string): LogRow -> bool
  {
    (r: LogRow) => r.user == u && r.activity == a
  }

  /** Rows carrying QC feedback to user `u`. */
  function FeedbackTo(u: string): LogRow -> bool
  {
    (r: LogRow) => r.feedbackTo == Some(u)
  }

  /** Error and point sums of the feedback `u` received in `rows`. */
  function FeedbackErrors(rows: seq<LogRow>, u: string): int
  {
    Sum(Filter(rows, FeedbackTo(u)), Errors)
  }

  function FeedbackPoints(rows: seq<LogRow>, u: string): int
  {
    Sum(Filter(rows, FeedbackTo(u)), Points)
  }
}
