/**
 * The sqlite food-log adapter over table `user_foodlogentry`. A row keeps the
 * interval as two `DATETIME` columns holding the epoch-second number
 * `getTime() / 1000`, modelled as exact `real`s, and labels and metrics as
 * JSON text. The table is a sequence of rows in storage order. A
 * datastore exception is the `fault` argument: when present the call fails
 * with a system error carrying that message and the table is left as it was.
 */
module SqliteFoodLog {
  import opened Wrappers
  import opened Json
  import opened FoodLogTypes
  import opened FoodLogValidation
  import opened StorageErrors
  import ExportCsv
  import opened FilterOrder

  datatype SqliteRow = SqliteRow(
    user_id: string,
    id: string,
    name: string,
    labels: Json,
    metrics: Json,
    time_start: real,
    time_end: real)

  /** `getTime() / 1000` */
  function Seconds(ms: int): real {
    ms as real / 1000.0
  }

  /** `new Date(s * 1000).getTime()`: the time value is truncated toward zero. */
  function Millis(s: real): int {
    var x := s * 1000.0;
    if x >= 0.0 then x.Floor else -((-x).Floor)
  }

  lemma MillisOfSeconds(ms: int)
    ensures Millis(Seconds(ms)) == ms
  {
    var x := Seconds(ms) * 1000.0;
    assert x == ms as real;
    if ms < 0 {
      assert -x == (-ms) as real;
    }
  }

  /** Comparing in seconds is comparing in milliseconds. */
  lemma SecondsMonotonic(a: int, b: int)
    ensures Seconds(a) <= Seconds(b) <==> a <= b
  {
  }

  function EncodeLabels(labels: seq<string>): Json {
    JArray(EncodeStrings(labels))
  }

  function DecodeLabels(j: Json): Option<seq<string>> {
    match j
    case JArray(items) => DecodeStrings(items)
    case _ => None
  }

  /** `JSON.stringify` writes a NaN as `null`. */
  function EncodeMetricValue(v: MetricValue): Json {
    match v
    case Number(n) => JNumber(n)
    case NotANumber => JNull
  }

  function EncodeMetricFields(m: Metrics): (fs: seq<(string, Json)>)
    ensures |fs| == |m|
  {
    if m == [] then [] else [(m[0].0, EncodeMetricValue(m[0].1))] + EncodeMetricFields(m[1..])
  }

  function DecodeMetricFields(fs: seq<(string, Json)>): (r: Option<Metrics>)
    ensures r.Some? ==> |r.value| == |fs|
  {
    if fs == [] then Some([])
    else match (fs[0].1, DecodeMetricFields(fs[1..]))
      case (JNumber(n), Some(rest)) => Some([(fs[0].0, Number(n))] + rest)
      case _ => None
  }

  function EncodeMetrics(m: Metrics): Json {
    JObject(EncodeMetricFields(m))
  }

  function DecodeMetrics(j: Json): Option<Metrics> {
    match j
    case JObject(fs) => DecodeMetricFields(fs)
    case _ => None
  }

  lemma {:induction false} MetricFieldsRoundTrip(m: Metrics)
    requires !SomeNaN(m)
    ensures DecodeMetricFields(EncodeMetricFields(m)) == Some(m)
  {
    if m != [] {
      assert !SomeNaN(m[1..]) by {
        forall i | 0 <= i < |m[1..]| ensures !m[1..][i].1.NotANumber? {
          assert m[1..][i] == m[i + 1];
        }
      }
      MetricFieldsRoundTrip(m[1..]);
      assert m[0].1.Number? by { assert !m[0].1.NotANumber?; }
      assert EncodeMetricFields(m)[1..] == EncodeMetricFields(m[1..]);
      assert [(m[0].0, Number(m[0].1.n))] + m[1..] == m;
    }
  }

  /** `sqlFromGeneral` completed with `user_id` and `id`, as the insert builds it. */
  function SqlFromGeneral(userId: string, gen: FoodLogEntry): SqliteRow {
    SqliteRow(userId, gen.id, gen.name, EncodeLabels(gen.labels), EncodeMetrics(gen.metrics),
              Seconds(gen.time.start), Seconds(gen.time.end))
  }

  /** `generalFromSql`; `None` when a JSON column does not hold the expected shape. */
  function GeneralFromSql(row: SqliteRow): Option<FoodLogEntry> {
    match (DecodeLabels(row.labels), DecodeMetrics(row.metrics))
    case (Some(labels), Some(metrics)) =>
      Some(FoodLogEntry(row.id, row.name, labels, TimeRange(Millis(row.time_start), Millis(row.time_end)), metrics))
    case _ => None
  }

  /** Converting an entry to a row and back restores it: name, labels, metrics, and times through seconds. */
  lemma RowRoundTrip(userId: string, e: FoodLogEntry)
    requires !SomeNaN(e.metrics)
    ensures GeneralFromSql(SqlFromGeneral(userId, e)) == Some(e)
  {
    StringsRoundTrip(e.labels);
    MetricFieldsRoundTrip(e.metrics);
    MillisOfSeconds(e.time.start);
    MillisOfSeconds(e.time.end);
  }

  /** A row as this adapter writes it: JSON columns decode, times are whole milliseconds. */
  predicate RowWellFormed(row: SqliteRow) {
    && GeneralFromSql(row).Some?
    && Seconds(Millis(row.time_start)) == row.time_start
    && Seconds(Millis(row.time_end)) == row.time_end
  }

  predicate AllRowsWellFormed(rows: seq<SqliteRow>) {
    forall k :: 0 <= k < |rows| ==> RowWellFormed(rows[k])
  }

  lemma InsertedRowWellFormed(userId: string, e: FoodLogEntry)
    requires !SomeNaN(e.metrics)
    ensures RowWellFormed(SqlFromGeneral(userId, e))
  {
    RowRoundTrip(userId, e);
    MillisOfSeconds(e.time.start);
    MillisOfSeconds(e.time.end);
  }

  predicate HasKey(row: SqliteRow, userId: string, id: string) {
    row.user_id == userId && row.id == id
  }

  /** `.where(user_id).andWhere(id).first()`: the first row with that key, or -1. */
  function FirstWithKey(rows: seq<SqliteRow>, userId: string, id: string): (r: int)
    ensures -1 <= r < |rows|
    ensures r >= 0 ==> HasKey(rows[r], userId, id) && forall k :: 0 <= k < r ==> !HasKey(rows[k], userId, id)
    ensures r == -1 <==> forall k :: 0 <= k < |rows| ==> !HasKey(rows[k], userId, id)
  {
    if rows == [] then -1
    else if HasKey(rows[0], userId, id) then 0
    else var r := FirstWithKey(rows[1..], userId, id); if r == -1 then -1 else r + 1
  }

  /** What `retrieveFoodLog` answers over `rows`. */
  function RetrieveResult(rows: seq<SqliteRow>, userId: string, id: string, fault: Option<string>): Result<FoodLogEntry>
    requires AllRowsWellFormed(rows)
  {
    if fault.Some? then Err(SystemError(fault.value))
    else
      var k := FirstWithKey(rows, userId, id);
      if k == -1 then Err(NotFoundError("Log not found")) else Ok(GeneralFromSql(rows[k]).value)
  }

  /** The rows the range query selects: the user's, with `time_start <= end` and `time_end >= start` in seconds. */
  predicate RowSelected(row: SqliteRow, userId: string, startDate: int, endDate: int) {
    row.user_id == userId && row.time_start <= Seconds(endDate) && row.time_end >= Seconds(startDate)
  }

  /** The selected rows, converted, in storage order. */
  function SelectedEntries(rows: seq<SqliteRow>, userId: string, startDate: int, endDate: int): (r: seq<FoodLogEntry>)
    requires AllRowsWellFormed(rows)
    ensures |r| <= |rows|
  {
    if rows == [] then []
    else
      (if RowSelected(rows[0], userId, startDate, endDate) then [GeneralFromSql(rows[0]).value] else [])
      + SelectedEntries(rows[1..], userId, startDate, endDate)
  }

  /** What `queryFoodLogs` answers: the order check comes before any table access. */
  function QueryResult(rows: seq<SqliteRow>, userId: string, startDate: int, endDate: int, fault: Option<string>): Result<seq<FoodLogEntry>>
    requires AllRowsWellFormed(rows)
  {
    if endDate < startDate then Err(ValidationError("startDate is after endDate"))
    else if fault.Some? then Err(SystemError(fault.value))
    else Ok(SelectedEntries(rows, userId, startDate, endDate))
  }

  /** The `updates` object: only truthy supplied fields; `time` sets both time columns. */
  datatype SqlUpdates = SqlUpdates(
    name: Option<string>,
    times: Option<(real, real)>,
    metrics: Option<Json>,
    labels: Option<Json>)

  function UpdatesFor(edit: EditFoodLogEntry): SqlUpdates
    requires IsValidEditLogEntry(edit)
  {
    SqlUpdates(
      if edit.name.Some? && edit.name.value != "" then edit.name else None,
      if edit.time.Some? then Some((Seconds(edit.time.value.start.value), Seconds(edit.time.value.end.value))) else None,
      if edit.metrics.Some? then Some(EncodeMetrics(edit.metrics.value)) else None,
      if edit.labels.Some? then Some(EncodeLabels(edit.labels.value)) else None)
  }

  /** No field was truthy: `updates` is the empty object. */
  predicate NoUpdates(u: SqlUpdates) {
    u.name.None? && u.times.None? && u.metrics.None? && u.labels.None?
  }

  /** The update is empty exactly when the edit supplies nothing beyond its id but, at most, an empty name. */
  lemma NoUpdatesIffNothingTruthy(edit: EditFoodLogEntry)
    requires IsValidEditLogEntry(edit)
    ensures NoUpdates(UpdatesFor(edit)) <==>
              (edit.name.None? || edit.name == Some("")) && edit.time.None? && edit.metrics.None? && edit.labels.None?
  {
  }

  function UpdateRow(row: SqliteRow, u: SqlUpdates): SqliteRow {
    SqliteRow(
      row.user_id,
      row.id,
      u.name.GetOr(row.name),
      u.labels.GetOr(row.labels),
      u.metrics.GetOr(row.metrics),
      if u.times.Some? then u.times.value.0 else row.time_start,
      if u.times.Some? then u.times.value.1 else row.time_end)
  }

  /** `.update(updates).where(user_id).andWhere(id)`: every row with the key is updated. */
  function UpdateWhere(rows: seq<SqliteRow>, userId: string, id: string, u: SqlUpdates): (r: seq<SqliteRow>)
    ensures |r| == |rows|
    ensures forall k :: 0 <= k < |rows| ==>
              r[k] == if HasKey(rows[k], userId, id) then UpdateRow(rows[k], u) else rows[k]
  {
    if rows == [] then []
    else [if HasKey(rows[0], userId, id) then UpdateRow(rows[0], u) else rows[0]] + UpdateWhere(rows[1..], userId, id, u)
  }

  /** `.delete().where(user_id).andWhere(id)`: every row with the key goes, every other row stays. */
  function DeleteWhere(rows: seq<SqliteRow>, userId: string, id: string): (r: seq<SqliteRow>)
    ensures |r| <= |rows|
    ensures forall k :: 0 <= k < |r| ==> !HasKey(r[k], userId, id) && r[k] in rows
    ensures forall k :: 0 <= k < |rows| && !HasKey(rows[k], userId, id) ==> rows[k] in r
  {
    if rows == [] then []
    else (if HasKey(rows[0], userId, id) then [] else [rows[0]]) + DeleteWhere(rows[1..], userId, id)
  }

  /** A cell of the exported CSV: text, an ISO timestamp, or a re-serialised JSON value. */
  datatype CsvCell = Text(text: string) | IsoTime(ms: int) | LabelList(items: seq<string>) | MetricMap(metrics: Metrics)

  /** Each string as a text cell. */
  function TextCells(xs: seq<string>): (cells: seq<CsvCell>)
    ensures |cells| == |xs|
    ensures forall k :: 0 <= k < |xs| ==> cells[k] == Text(xs[k])
  {
    if xs == [] then [] else [Text(xs[0])] + TextCells(xs[1..])
  }

  /** The export header as a row of text cells. */
  const HeaderCells: seq<CsvCell> := TextCells(ExportCsv.ExportHeader)

  /** `bulkFromSql` followed by the six-cell row the export writes, in header order. */
  function ExportRow(row: SqliteRow): (cells: seq<CsvCell>)
    requires RowWellFormed(row)
    ensures |cells| == |HeaderCells|
  {
    var e := GeneralFromSql(row).value;
    [Text(row.id), Text(row.name), LabelList(e.labels), IsoTime(e.time.start), IsoTime(e.time.end), MetricMap(e.metrics)]
  }

  /**
   * The cells of an exported row, under the header's column names: the row's
   * id and name, its parsed labels, its two time columns read back as
   * milliseconds, and its parsed metrics.
   */
  lemma ExportRowCells(row: SqliteRow)
    requires RowWellFormed(row)
    ensures var cells := ExportRow(row);
            && |cells| == |ExportCsv.ExportHeader|
            && cells[0] == Text(row.id) && cells[1] == Text(row.name)
            && cells[2] == LabelList(DecodeLabels(row.labels).value)
            && cells[3] == IsoTime(Millis(row.time_start)) && cells[4] == IsoTime(Millis(row.time_end))
            && cells[5] == MetricMap(DecodeMetrics(row.metrics).value)
  {
  }

  /** The user's rows in fetch order. */
  function UserRows(rows: seq<SqliteRow>, userId: string): (r: seq<SqliteRow>)
    ensures |r| <= |rows|
    ensures forall k :: 0 <= k < |r| ==> r[k].user_id == userId && r[k] in rows
    ensures forall k :: 0 <= k < |rows| && rows[k].user_id == userId ==> rows[k] in r
    ensures AllRowsWellFormed(rows) ==> AllRowsWellFormed(r)
  {
    if rows == [] then []
    else (if rows[0].user_id == userId then [rows[0]] else []) + UserRows(rows[1..], userId)
  }

  /** The export lines for `logs`, one per log, in order. */
  function ExportLines(logs: seq<SqliteRow>): (lines: seq<seq<CsvCell>>)
    requires AllRowsWellFormed(logs)
    ensures |lines| == |logs|
    ensures forall k :: 0 <= k < |logs| ==> lines[k] == ExportRow(logs[k])
  {
    if logs == [] then [] else ExportLines(logs[..|logs| - 1]) + [ExportRow(logs[|logs| - 1])]
  }

  /** One more log adds its export line at the end. */
  lemma ExportLinesSnoc(logs: seq<SqliteRow>, i: nat)
    requires AllRowsWellFormed(logs) && i < |logs|
    ensures AllRowsWellFormed(logs[..i]) && AllRowsWellFormed(logs[..i + 1])
    ensures ExportLines(logs[..i + 1]) == ExportLines(logs[..i]) + [ExportRow(logs[i])]
  {
    assert logs[..i + 1][..i] == logs[..i];
    assert logs[..i + 1][i] == logs[i];
  }

  class SqliteFoodLogTable {
    var rows: seq<SqliteRow>

    ghost predicate Valid()
      reads this
    {
      AllRowsWellFormed(rows)
    }

    constructor ()
      ensures Valid() && rows == []
    {
      rows := [];
    }

    /** `storeFoodLog`; `freshId` stands for `crypto.randomUUID()`. */
    method StoreFoodLog(userId: string, logEntry: CreateFoodLogEntry, freshId: string, fault: Option<string>)
      returns (r: Result<string>)
      requires Valid()
      modifies this
      ensures Valid()
      ensures !IsValidCreateLogEntry(logEntry) ==>
                r == Err(ValidationError("Invalid Log Entry")) && rows == old(rows)
      ensures IsValidCreateLogEntry(logEntry) && fault.Some? ==>
                r == Err(SystemError(fault.value)) && rows == old(rows)
      ensures IsValidCreateLogEntry(logEntry) && fault.None? ==>
                r == Ok(freshId) && rows == old(rows) + [SqlFromGeneral(userId, EntryOf(logEntry, freshId))]
    {
      if !IsValidCreateLogEntry(logEntry) {
        return Err(ValidationError("Invalid Log Entry"));
      }
      var insertEntry := SqlFromGeneral(userId, EntryOf(logEntry, freshId));
      if fault.Some? {
        return Err(SystemError(fault.value));
      }
      InsertedRowWellFormed(userId, EntryOf(logEntry, freshId));
      rows := rows + [insertEntry];
      r := Ok(insertEntry.id);
    }

    method RetrieveFoodLog(userId: string, logId: string, fault: Option<string>) returns (r: Result<FoodLogEntry>)
      requires Valid()
      ensures r == RetrieveResult(rows, userId, logId, fault)
      ensures fault.None? && r.Ok? ==> r.value.id == logId
    {
      if fault.Some? {
        return Err(SystemError(fault.value));
      }
      var k := FirstWithKey(rows, userId, logId);
      if k == -1 {
        return Err(NotFoundError("Log not found"));
      }
      r := Ok(GeneralFromSql(rows[k]).value);
    }

    method QueryFoodLogs(userId: string, startDate: int, endDate: int, fault: Option<string>)
      returns (r: Result<seq<FoodLogEntry>>)
      requires Valid()
      ensures r == QueryResult(rows, userId, startDate, endDate, fault)
      ensures endDate < startDate ==> r == Err(ValidationError("startDate is after endDate"))
    {
      if endDate < startDate {
        return Err(ValidationError("startDate is after endDate"));
      }
      if fault.Some? {
        return Err(SystemError(fault.value));
      }
      r := Ok(SelectedEntries(rows, userId, startDate, endDate));
    }

    /**
     * `editFoodLog`: update the truthy supplied fields of every row with the
     * key, then answer whatever a fresh `retrieveFoodLog` answers (`readFault`
     * is the fault, if any, of that second call). The query builder refuses an
     * `update` with an empty object; `emptyUpdate` is the message it throws,
     * which the catch turns into a system error.
     */
    method EditFoodLog(userId: string, logEntry: EditFoodLogEntry, fault: Option<string>, emptyUpdate: string, readFault: Option<string>)
      returns (r: Result<FoodLogEntry>)
      requires Valid()
      modifies this
      ensures Valid()
      ensures !IsValidEditLogEntry(logEntry) ==>
                r == Err(ValidationError("Invalid Log Entry")) && rows == old(rows)
      ensures IsValidEditLogEntry(logEntry) && NoUpdates(UpdatesFor(logEntry)) ==>
                r == Err(SystemError(emptyUpdate)) && rows == old(rows)
      ensures IsValidEditLogEntry(logEntry) && !NoUpdates(UpdatesFor(logEntry)) && fault.Some? ==>
                r == Err(SystemError(fault.value)) && rows == old(rows)
      ensures IsValidEditLogEntry(logEntry) && !NoUpdates(UpdatesFor(logEntry)) && fault.None? ==>
                && rows == UpdateWhere(old(rows), userId, logEntry.id.value, UpdatesFor(logEntry))
                && r == RetrieveResult(rows, userId, logEntry.id.value, readFault)
    {
      if !IsValidEditLogEntry(logEntry) {
        return Err(ValidationError("Invalid Log Entry"));
      }
      var updates := UpdatesFor(logEntry);
      if NoUpdates(updates) {
        return Err(SystemError(emptyUpdate));
      }
      if fault.Some? {
        return Err(SystemError(fault.value));
      }
      UpdatePreservesWellFormed(rows, userId, logEntry.id.value, logEntry);
      rows := UpdateWhere(rows, userId, logEntry.id.value, updates);
      r := RetrieveFoodLog(userId, logEntry.id.value, readFault);
    }

    method DeleteFoodLog(userId: string, logId: string, fault: Option<string>) returns (r: Result<bool>)
      requires Valid()
      modifies this
      ensures Valid()
      ensures fault.Some? ==> r == Err(SystemError(fault.value)) && rows == old(rows)
      ensures fault.None? ==> r == Ok(true) && rows == DeleteWhere(old(rows), userId, logId)
    {
      if fault.Some? {
        return Err(SystemError(fault.value));
      }
      DeletePreservesWellFormed(rows, userId, logId);
      rows := DeleteWhere(rows, userId, logId);
      r := Ok(true);
    }

    /**
     * `bulkExportFoodLogs`, with the file modelled as its sequence of CSV
     * rows: the header, then one row per row of the user in fetch order.
     */
    method BulkExportFoodLogs(userId: string, fault: Option<string>) returns (r: Result<seq<seq<CsvCell>>>)
      requires Valid()
      ensures fault.Some? ==> r == Err(SystemError(fault.value))
      ensures fault.None? ==> r == Ok([HeaderCells] + ExportLines(UserRows(rows, userId)))
    {
      if fault.Some? {
        return Err(SystemError(fault.value));
      }
      var logs := UserRows(rows, userId);
      // the lines appended after the header line
      var appended := [];
      assert logs[..0] == [];
      for i := 0 to |logs|
        invariant AllRowsWellFormed(logs[..i])
        invariant appended == ExportLines(logs[..i])
      {
        ExportLinesSnoc(logs, i);
        appended := appended + [ExportRow(logs[i])];
      }
      assert logs[..|logs|] == logs;
      r := Ok([HeaderCells] + appended);
    }
  }

  lemma UpdatePreservesWellFormed(rows: seq<SqliteRow>, userId: string, id: string, edit: EditFoodLogEntry)
    requires AllRowsWellFormed(rows) && IsValidEditLogEntry(edit)
    ensures AllRowsWellFormed(UpdateWhere(rows, userId, id, UpdatesFor(edit)))
  {
    var u := UpdatesFor(edit);
    if edit.labels.Some? { StringsRoundTrip(edit.labels.value); }
    if edit.metrics.Some? { MetricFieldsRoundTrip(edit.metrics.value); }
    if edit.time.Some? {
      MillisOfSeconds(edit.time.value.start.value);
      MillisOfSeconds(edit.time.value.end.value);
    }
    forall k | 0 <= k < |rows| ensures RowWellFormed(UpdateWhere(rows, userId, id, u)[k]) {
      assert RowWellFormed(rows[k]);
    }
  }

  lemma DeletePreservesWellFormed(rows: seq<SqliteRow>, userId: string, id: string)
    requires AllRowsWellFormed(rows)
    ensures AllRowsWellFormed(DeleteWhere(rows, userId, id))
  {
    if rows != [] {
      DeletePreservesWellFormed(rows[1..], userId, id);
    }
  }

  /** After a store under an unused key, retrieving the returned id gives `{id, ...input}`. */
  lemma StoreThenRetrieve(rows: seq<SqliteRow>, userId: string, e: CreateFoodLogEntry, id: string)
    requires AllRowsWellFormed(rows) && IsValidCreateLogEntry(e)
    requires FirstWithKey(rows, userId, id) == -1
    ensures var after := rows + [SqlFromGeneral(userId, EntryOf(e, id))];
            AllRowsWellFormed(after) && RetrieveResult(after, userId, id, None) == Ok(EntryOf(e, id))
  {
    var row := SqlFromGeneral(userId, EntryOf(e, id));
    var after := rows + [row];
    InsertedRowWellFormed(userId, EntryOf(e, id));
    RowRoundTrip(userId, EntryOf(e, id));
    assert HasKey(after[|rows|], userId, id);
  }

  /** A selected row is exactly a row of the user whose converted entry overlaps the window. */
  lemma RowSelectedIffOverlaps(row: SqliteRow, userId: string, startDate: int, endDate: int)
    requires RowWellFormed(row)
    ensures RowSelected(row, userId, startDate, endDate) <==>
              row.user_id == userId && Overlaps(GeneralFromSql(row).value, startDate, endDate)
  {
    var e := GeneralFromSql(row).value;
    SecondsMonotonic(e.time.start, endDate);
    SecondsMonotonic(startDate, e.time.end);
  }

  /** The query answers exactly the user's entries overlapping [start, end], never one only partly outside. */
  lemma {:induction false} QueryIsOverlap(rows: seq<SqliteRow>, userId: string, startDate: int, endDate: int, x: FoodLogEntry)
    requires AllRowsWellFormed(rows)
    ensures x in SelectedEntries(rows, userId, startDate, endDate) <==>
              exists k :: 0 <= k < |rows| && rows[k].user_id == userId
                          && GeneralFromSql(rows[k]) == Some(x) && Overlaps(x, startDate, endDate)
  {
    if rows != [] {
      QueryIsOverlap(rows[1..], userId, startDate, endDate, x);
      RowSelectedIffOverlaps(rows[0], userId, startDate, endDate);
      var here := rows[0].user_id == userId && GeneralFromSql(rows[0]) == Some(x) && Overlaps(x, startDate, endDate);
      if exists k :: 0 <= k < |rows| && rows[k].user_id == userId
                     && GeneralFromSql(rows[k]) == Some(x) && Overlaps(x, startDate, endDate) {
        var k :| 0 <= k < |rows| && rows[k].user_id == userId
                 && GeneralFromSql(rows[k]) == Some(x) && Overlaps(x, startDate, endDate);
        if k > 0 { assert rows[1..][k - 1] == rows[k]; }
      }
      forall k | 1 <= k < |rows| ensures rows[k] == rows[1..][k - 1] { }
    }
  }

  /** The rows left by a delete are the rows without the key, in their old order: `idx` says where each comes from. */
  lemma {:induction false} DeleteKeepsOrder(rows: seq<SqliteRow>, userId: string, id: string) returns (idx: seq<nat>)
    ensures |idx| == |DeleteWhere(rows, userId, id)|
    ensures forall k :: 0 <= k < |idx| ==> idx[k] < |rows| && DeleteWhere(rows, userId, id)[k] == rows[idx[k]]
    ensures forall k, l :: 0 <= k < l < |idx| ==> idx[k] < idx[l]
    ensures forall i :: 0 <= i < |rows| ==> (i in idx <==> !HasKey(rows[i], userId, id))
  {
    if rows == [] {
      return [];
    }
    var rest := DeleteKeepsOrder(rows[1..], userId, id);
    var keep := !HasKey(rows[0], userId, id);
    assert DeleteWhere(rows, userId, id) == (if keep then [rows[0]] else []) + DeleteWhere(rows[1..], userId, id);
    PrependPlaces(rows, keep, DeleteWhere(rows[1..], userId, id), rest);
    idx := PrependIndex(keep, rest);
    DeleteStepMembership(rows, userId, id, rest);
  }

  /** One step of `DeleteKeepsOrder`: a position is kept iff its row lacks the key. */
  lemma DeleteStepMembership(rows: seq<SqliteRow>, userId: string, id: string, rest: seq<nat>)
    requires rows != []
    requires forall i :: 0 <= i < |rows| - 1 ==> (i in rest <==> !HasKey(rows[1..][i], userId, id))
    ensures forall i :: 0 <= i < |rows| ==>
              (i in PrependIndex(!HasKey(rows[0], userId, id), rest) <==> !HasKey(rows[i], userId, id))
  {
    var keep := !HasKey(rows[0], userId, id);
    forall i | 1 <= i < |rows| ensures (i in PrependIndex(keep, rest) <==> !HasKey(rows[i], userId, id)) {
      assert rows[1..][i - 1] == rows[i];
      PrependMembership(keep, rest, i);
    }
  }

  /** The exported rows are the user's rows, in storage order: `idx` says where each comes from. */
  lemma {:induction false} UserRowsInOrder(rows: seq<SqliteRow>, userId: string) returns (idx: seq<nat>)
    ensures |idx| == |UserRows(rows, userId)|
    ensures forall k :: 0 <= k < |idx| ==> idx[k] < |rows| && UserRows(rows, userId)[k] == rows[idx[k]]
    ensures forall k, l :: 0 <= k < l < |idx| ==> idx[k] < idx[l]
    ensures forall i :: 0 <= i < |rows| ==> (i in idx <==> rows[i].user_id == userId)
  {
    if rows == [] {
      return [];
    }
    var rest := UserRowsInOrder(rows[1..], userId);
    var keep := rows[0].user_id == userId;
    assert UserRows(rows, userId) == (if keep then [rows[0]] else []) + UserRows(rows[1..], userId);
    PrependPlaces(rows, keep, UserRows(rows[1..], userId), rest);
    idx := PrependIndex(keep, rest);
    forall i | 1 <= i < |rows| ensures (i in idx <==> rows[i].user_id == userId) {
      assert rows[1..][i - 1] == rows[i];
      PrependMembership(keep, rest, i);
    }
  }

  /** Exporting a stored entry writes its id, name, labels, both bounds and metrics. */
  lemma ExportOfStoredEntry(userId: string, e: FoodLogEntry)
    requires !SomeNaN(e.metrics)
    ensures RowWellFormed(SqlFromGeneral(userId, e))
    ensures ExportRow(SqlFromGeneral(userId, e))
              == [Text(e.id), Text(e.name), LabelList(e.labels), IsoTime(e.time.start), IsoTime(e.time.end), MetricMap(e.metrics)]
  {
    InsertedRowWellFormed(userId, e);
    RowRoundTrip(userId, e);
  }

  /** After a delete, nothing with that key is left, so retrieve answers not-found. */
  lemma DeleteThenNotFound(rows: seq<SqliteRow>, userId: string, id: string)
    requires AllRowsWellFormed(rows)
    ensures AllRowsWellFormed(DeleteWhere(rows, userId, id))
    ensures RetrieveResult(DeleteWhere(rows, userId, id), userId, id, None) == Err(NotFoundError("Log not found"))
  {
    DeletePreservesWellFormed(rows, userId, id);
  }

  /** The entry an sqlite edit leaves behind: like the spread merge, except that an empty name is not written. */
  function SqliteMerge(prior: FoodLogEntry, edit: EditFoodLogEntry): FoodLogEntry
    requires IsValidEditLogEntry(edit)
  {
    FoodLogEntry(
      prior.id,
      if edit.name.Some? && edit.name.value != "" then edit.name.value else prior.name,
      edit.labels.GetOr(prior.labels),
      if edit.time.Some? then ToRange(edit.time.value) else prior.time,
      edit.metrics.GetOr(prior.metrics))
  }

  /**
   * Edit then retrieve: the first row with the key now converts to the old
   * entry with the truthy supplied fields applied, both time bounds together.
   */
  lemma EditThenRetrieve(rows: seq<SqliteRow>, userId: string, edit: EditFoodLogEntry)
    requires AllRowsWellFormed(rows) && IsValidEditLogEntry(edit) && !NoUpdates(UpdatesFor(edit))
    requires FirstWithKey(rows, userId, edit.id.value) != -1
    ensures var after := UpdateWhere(rows, userId, edit.id.value, UpdatesFor(edit));
            var k := FirstWithKey(rows, userId, edit.id.value);
            AllRowsWellFormed(after) &&
            RetrieveResult(after, userId, edit.id.value, None) == Ok(SqliteMerge(GeneralFromSql(rows[k]).value, edit))
  {
    var id := edit.id.value;
    var u := UpdatesFor(edit);
    var after := UpdateWhere(rows, userId, id, u);
    UpdatePreservesWellFormed(rows, userId, id, edit);
    var k := FirstWithKey(rows, userId, id);
    assert FirstWithKey(after, userId, id) == k by {
      forall j | 0 <= j < |rows| ensures HasKey(after[j], userId, id) == HasKey(rows[j], userId, id) { }
    }
    UpdatedRowConverts(rows[k], edit);
  }

  /** An updated row converts to the old entry with the truthy supplied fields applied. */
  lemma UpdatedRowConverts(row: SqliteRow, edit: EditFoodLogEntry)
    requires RowWellFormed(row) && IsValidEditLogEntry(edit)
    ensures GeneralFromSql(UpdateRow(row, UpdatesFor(edit))) == Some(SqliteMerge(GeneralFromSql(row).value, edit))
  {
    if edit.labels.Some? { StringsRoundTrip(edit.labels.value); }
    if edit.metrics.Some? { MetricFieldsRoundTrip(edit.metrics.value); }
    if edit.time.Some? {
      MillisOfSeconds(edit.time.value.start.value);
      MillisOfSeconds(edit.time.value.end.value);
    }
  }

  /** An empty name is falsy, so it is not written, while the in-memory merge would write it. */
  lemma EmptyNameIsNotWritten(prior: FoodLogEntry, edit: EditFoodLogEntry)
    requires IsValidEditLogEntry(edit) && edit.name == Some("") && prior.name != ""
    ensures UpdatesFor(edit).name.None?
    ensures SqliteMerge(prior, edit).name == prior.name != Merge(prior, edit).name
  {
  }

  /** Supplying `time` writes both time columns, from its two bounds. */
  lemma TimeWritesBothColumns(edit: EditFoodLogEntry)
    requires IsValidEditLogEntry(edit) && edit.time.Some?
    ensures UpdatesFor(edit).times == Some((Seconds(edit.time.value.start.value), Seconds(edit.time.value.end.value)))
  {
  }

  /** The three 1999 entries of the integration test, stored in order, and the four query windows. */
  const Nov9 := 942105600000
  const Nov10 := 942192000000
  const Nov11 := 942278400000
  const Nov15 := 942624000000
  const Nov16 := 942710400000
  const Nov20 := 943056000000
  const Nov21 := 943142400000
  const Nov30 := 943920000000
  const Jan1st2012 := 1325376000000
  const Dec31st2012 := 1356912000000

  function TestEntry(id: string, start: int, end: int): FoodLogEntry {
    FoodLogEntry(id, "My Food Log", [], TimeRange(start, end), [("calories", Number(500))])
  }

  /** The rows `storeFoodLog` writes for `es`, in order. */
  function RowsOf(userId: string, es: seq<FoodLogEntry>): (rows: seq<SqliteRow>)
    ensures |rows| == |es|
    ensures forall k :: 0 <= k < |es| ==> rows[k] == SqlFromGeneral(userId, es[k])
  {
    if es == [] then [] else [SqlFromGeneral(userId, es[0])] + RowsOf(userId, es[1..])
  }

  /** The entries of `es` whose interval meets [start, end], in order. */
  function OverlappingEntries(es: seq<FoodLogEntry>, startDate: int, endDate: int): seq<FoodLogEntry> {
    if es == [] then []
    else (if Overlaps(es[0], startDate, endDate) then [es[0]] else []) + OverlappingEntries(es[1..], startDate, endDate)
  }

  /** Querying one user's stored entries answers exactly those overlapping the window, in storage order. */
  lemma {:induction false} QueryOfStoredEntries(userId: string, es: seq<FoodLogEntry>, startDate: int, endDate: int)
    requires forall k :: 0 <= k < |es| ==> !SomeNaN(es[k].metrics)
    ensures AllRowsWellFormed(RowsOf(userId, es))
    ensures SelectedEntries(RowsOf(userId, es), userId, startDate, endDate) == OverlappingEntries(es, startDate, endDate)
  {
    var rows := RowsOf(userId, es);
    forall k | 0 <= k < |es| ensures RowWellFormed(rows[k]) {
      InsertedRowWellFormed(userId, es[k]);
    }
    if es != [] {
      assert rows[1..] == RowsOf(userId, es[1..]);
      QueryOfStoredEntries(userId, es[1..], startDate, endDate);
      RowRoundTrip(userId, es[0]);
      RowSelectedIffOverlaps(rows[0], userId, startDate, endDate);
    }
  }

  function TestEntries(): seq<FoodLogEntry> {
    [TestEntry("past", Nov10, Nov11), TestEntry("center", Nov15, Nov16), TestEntry("future", Nov20, Nov21)]
  }

  /** Unfolds the filter over the three test entries. */
  lemma OverlappingTestEntries(startDate: int, endDate: int)
    ensures var es := TestEntries();
            OverlappingEntries(es, startDate, endDate)
              == (if Overlaps(es[0], startDate, endDate) then [es[0]] else [])
                 + (if Overlaps(es[1], startDate, endDate) then [es[1]] else [])
                 + (if Overlaps(es[2], startDate, endDate) then [es[2]] else [])
  {
    var es := TestEntries();
    assert es[1..][1..][1..] == [];
    assert OverlappingEntries(es[1..][1..], startDate, endDate)
        == (if Overlaps(es[2], startDate, endDate) then [es[2]] else []);
  }

  /** The three 1999 entries of the integration test and its four query windows. */
  lemma OverlapQueryExamples(user: string)
    ensures var rows := RowsOf(user, TestEntries());
            var es := TestEntries();
            && AllRowsWellFormed(rows)
            && SelectedEntries(rows, user, Nov15, Nov16) == [es[1]]
            && SelectedEntries(rows, user, Nov9, Nov16) == [es[0], es[1]]
            && SelectedEntries(rows, user, Nov15, Nov30) == [es[1], es[2]]
            && SelectedEntries(rows, user, Jan1st2012, Dec31st2012) == []
  {
    var es := TestEntries();
    QueryOfStoredEntries(user, es, Nov15, Nov16);
    OverlappingTestEntries(Nov15, Nov16);
    QueryOfStoredEntries(user, es, Nov9, Nov16);
    OverlappingTestEntries(Nov9, Nov16);
    QueryOfStoredEntries(user, es, Nov15, Nov30);
    OverlappingTestEntries(Nov15, Nov30);
    QueryOfStoredEntries(user, es, Jan1st2012, Dec31st2012);
    OverlappingTestEntries(Jan1st2012, Dec31st2012);
  }
}
