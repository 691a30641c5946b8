/**
 * The six-column export format the utility scripts read and write: a header
 * line `id,name,labels,timeStart,timeEnd,metrics`, then one line per log.
 * Every cell is text; CSV quoting is not part of this model.
 */
module ExportCsv {
  /** A log as it stands in an export file. */
  datatype LogRow = LogRow(id: string, name: string, labels: string, timeStart: string, timeEnd: string, metrics: string)

  const ExportHeader: seq<string> := ["id", "name", "labels", "timeStart", "timeEnd", "metrics"]

  /** The cells written for one log, in header order. */
  function ExportRow(row: LogRow): (cells: seq<string>)
    ensures |cells| == |ExportHeader|
    ensures cells[0] == row.id && cells[1] == row.name && cells[3] == row.timeStart && cells[4] == row.timeEnd
  {
    [row.id, row.name, row.labels, row.timeStart, row.timeEnd, row.metrics]
  }

  /** Reading the cells back under the header's column names gives the log again. */
  function ParseRow(cells: seq<string>): (row: LogRow)
    requires |cells| == |ExportHeader|
  {
    LogRow(cells[0], cells[1], cells[2], cells[3], cells[4], cells[5])
  }

  lemma ExportRowRoundTrip(row: LogRow)
    ensures ParseRow(ExportRow(row)) == row
  {
  }

  /** The file body: one line per log, in the logs' order. */
  function ExportRows(rows: seq<LogRow>): (lines: seq<seq<string>>)
    ensures |lines| == |rows|
    ensures forall k :: 0 <= k < |rows| ==> lines[k] == ExportRow(rows[k])
  {
    if rows == [] then [] else [ExportRow(rows[0])] + ExportRows(rows[1..])
  }
}
