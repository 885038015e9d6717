/**
 * The per-table VDiff report that the reconciliation steps of a workflow
 * differ adjust in place: row counters and the sample rows found on only one
 * side of the diff.
 */
module VDiffReport {

  /**
   * One sample row of a diff: the row's column values and the query that
   * retrieves it. Two samples are the same row when both parts are equal.
   */
  datatype RowDiff = RowDiff(row: map<string, string>, query: string)

  /** The value of a DiffReport: its table, counters and extra-row samples. */
  datatype Report = Report(
    tableName: string,
    processedRows: int,
    matchingRows: int,
    mismatchedRows: int,
    extraRowsSource: int,
    extraRowsSourceDiffs: seq<RowDiff>,
    extraRowsTarget: int,
    extraRowsTargetDiffs: seq<RowDiff>)

  /** DiffReport: the report object the reconciliation steps update field by field. */
  class DiffReport {
    var tableName: string
    var processedRows: int
    var matchingRows: int
    var mismatchedRows: int
    var extraRowsSource: int
    var extraRowsSourceDiffs: seq<RowDiff>
    var extraRowsTarget: int
    var extraRowsTargetDiffs: seq<RowDiff>

    function Value(): Report
      reads this
    {
      Report(tableName, processedRows, matchingRows, mismatchedRows,
             extraRowsSource, extraRowsSourceDiffs, extraRowsTarget, extraRowsTargetDiffs)
    }

    constructor (r: Report)
      ensures Value() == r
    {
      tableName, processedRows, matchingRows, mismatchedRows := r.tableName, r.processedRows, r.matchingRows, r.mismatchedRows;
      extraRowsSource, extraRowsSourceDiffs := r.extraRowsSource, r.extraRowsSourceDiffs;
      extraRowsTarget, extraRowsTargetDiffs := r.extraRowsTarget, r.extraRowsTargetDiffs;
    }
  }
}
