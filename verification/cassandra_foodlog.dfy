/**
 * The cassandra food-log adapter over table `openfooddiary.user_foodlogentry`,
 * keyed by `(userId, id)`. Besides the frozen `time` pair a row keeps the two
 * bounds again as `timeStart`/`timeEnd`, which the range query filters on.
 * Every non-key column may be null; cassandra stores an empty set or map as
 * null. An `UPDATE` is an upsert: it writes the row even when the key was
 * absent. A driver exception is the `fault` argument: the call then fails
 * with a system error carrying that message and the table is unchanged.
 */
module CassandraFoodLog {
  import opened Wrappers
  import opened FoodLogTypes
  import opened FoodLogValidation
  import opened StorageErrors

  type Key = (string, string)

  /** A row; `None` is a null column. */
  datatype CassandraRow = CassandraRow(
    name: Option<string>,
    labels: Option<set<string>>,
    time: Option<TimeRange>,
    metrics: Option<map<string, int>>,
    timeStart: Option<int>,
    timeEnd: Option<int>)

  /** What `SELECT CAST(id as text) as id, name, labels, time, metrics` answers for one row. */
  datatype CassandraLog = CassandraLog(
    id: string,
    name: Option<string>,
    labels: Option<set<string>>,
    time: Option<TimeRange>,
    metrics: Option<map<string, int>>)

  /** A value bound to a `?` placeholder, as the JavaScript side passes it. */
  datatype CqlValue = Text(text: string) | LabelList(items: seq<string>) | Times(range: TimeRange) | MetricObject(m: Metrics) | Instant(ms: int)

  const EmptyRow := CassandraRow(None, None, None, None, None, None)

  /** A `set<text>` column written from an array: its elements, null when there are none. */
  function SetColumn(items: seq<string>): (c: Option<set<string>>)
    ensures c.Some? <==> |items| > 0
    ensures c.Some? ==> forall x :: x in c.value <==> x in items
  {
    if |items| == 0 then None else Some(set x | x in items)
  }

  /** A metrics object as a `map<text,int>`: a later property wins over an earlier one with the same key. */
  function MetricMap(m: Metrics): (r: map<string, int>)
    requires !SomeNaN(m)
    ensures forall k :: k in r <==> exists i :: 0 <= i < |m| && m[i].0 == k
  {
    if m == [] then map[]
    else
      var rest := MetricMap(m[..|m| - 1]);
      assert forall i :: 0 <= i < |m| - 1 ==> m[..|m| - 1][i] == m[i];
      assert !m[|m| - 1].1.NotANumber?;
      rest[m[|m| - 1].0 := m[|m| - 1].1.n]
  }

  /** Each key of the map holds the value of its last property in the object. */
  lemma {:induction false} MetricMapValues(m: Metrics, i: int)
    requires !SomeNaN(m) && 0 <= i < |m|
    requires forall j :: i < j < |m| ==> m[j].0 != m[i].0
    ensures m[i].0 in MetricMap(m) && MetricMap(m)[m[i].0] == m[i].1.n
  {
    var init := m[..|m| - 1];
    assert forall j :: 0 <= j < |init| ==> init[j] == m[j];
    if i < |m| - 1 {
      assert init[i] == m[i];
      MetricMapValues(init, i);
      assert m[|m| - 1].0 != m[i].0;
    }
  }

  /** A `map<text,int>` column: null when the object has no property. */
  function MapColumn(m: Metrics): (c: Option<map<string, int>>)
    requires !SomeNaN(m)
    ensures c.Some? <==> |m| > 0
  {
    if |m| == 0 then None
    else
      assert m[0].0 in MetricMap(m);
      Some(MetricMap(m))
  }

  /** The row the `INSERT` writes for a valid create entry. */
  function InsertedRow(e: FoodLogEntry): (row: CassandraRow)
    requires !SomeNaN(e.metrics)
    ensures row.timeStart == Some(e.time.start) && row.timeEnd == Some(e.time.end)
  {
    CassandraRow(Some(e.name), SetColumn(e.labels), Some(e.time), MapColumn(e.metrics), Some(e.time.start), Some(e.time.end))
  }

  /** The selected columns of a row, with the key's id cast to text. */
  function LogOf(id: string, row: CassandraRow): CassandraLog {
    CassandraLog(id, row.name, row.labels, row.time, row.metrics)
  }

  /**
   * The row invariant the adapter keeps: `timeStart`/`timeEnd` duplicate the
   * bounds of `time` (all three null together), and the bounds are ordered.
   */
  predicate RowConsistent(row: CassandraRow) {
    && row.timeStart == (if row.time.Some? then Some(row.time.value.start) else None)
    && row.timeEnd == (if row.time.Some? then Some(row.time.value.end) else None)
    && (row.time.Some? ==> row.time.value.start <= row.time.value.end)
  }

  predicate TableConsistent(rows: map<Key, CassandraRow>) {
    forall k :: k in rows ==> RowConsistent(rows[k])
  }

  /** What `retrieveFoodLog` answers. */
  function RetrieveResult(rows: map<Key, CassandraRow>, userId: string, id: string, fault: Option<string>): Result<CassandraLog> {
    if fault.Some? then Err(SystemError(fault.value))
    else if (userId, id) !in rows then Err(NotFoundError("No Log with Id"))
    else Ok(LogOf(id, rows[(userId, id)]))
  }

  /** `timeStart <= endDate AND timeEnd >= startDate`; a null column never compares true. */
  predicate RowSelected(row: CassandraRow, startDate: int, endDate: int) {
    row.timeStart.Some? && row.timeStart.value <= endDate && row.timeEnd.Some? && row.timeEnd.value >= startDate
  }

  /** The logs the range query answers, as a set: the partition's order is not modelled. */
  function SelectedLogs(rows: map<Key, CassandraRow>, userId: string, startDate: int, endDate: int): set<CassandraLog> {
    set k | k in rows && k.0 == userId && RowSelected(rows[k], startDate, endDate) :: LogOf(k.1, rows[k])
  }

  function QueryResult(rows: map<Key, CassandraRow>, userId: string, startDate: int, endDate: int, fault: Option<string>): Result<set<CassandraLog>> {
    if endDate < startDate then Err(ValidationError("startDate is after endDate"))
    else if fault.Some? then Err(SystemError(fault.value))
    else Ok(SelectedLogs(rows, userId, startDate, endDate))
  }

  /** `UPDATEABLE_FIELDS`, in the order the SET list is built. */
  const UpdateableFields: seq<string> := ["name", "labels", "time", "metrics"]

  /** The assignments and bound values one field contributes: none when it is undefined. */
  function FieldClause(edit: EditFoodLogEntry, field: string): (seq<string>, seq<CqlValue>)
    requires IsValidEditLogEntry(edit)
  {
    if field == "name" && edit.name.Some? then (["name = ?"], [Text(edit.name.value)])
    else if field == "labels" && edit.labels.Some? then (["labels = ?"], [LabelList(edit.labels.value)])
    else if field == "time" && edit.time.Some? then
      var r := ToRange(edit.time.value);
      (["time = ?", "timeStart = ?", "timeEnd = ?"], [Times(r), Instant(r.start), Instant(r.end)])
    else if field == "metrics" && edit.metrics.Some? then (["metrics = ?"], [MetricObject(edit.metrics.value)])
    else ([], [])
  }

  /** The SET list the `forEach` has produced after the first `n` fields. */
  function SetListUpTo(edit: EditFoodLogEntry, n: nat): (seq<string>, seq<CqlValue>)
    requires IsValidEditLogEntry(edit) && n <= |UpdateableFields|
  {
    if n == 0 then ([], [])
    else
      var prior := SetListUpTo(edit, n - 1);
      var here := FieldClause(edit, UpdateableFields[n - 1]);
      (prior.0 + here.0, prior.1 + here.1)
  }

  /** The SET assignments, stated field by field: only supplied fields, in the order name, labels, time, metrics. */
  function ExpectedAssignments(edit: EditFoodLogEntry): seq<string> {
    (if edit.name.Some? then ["name = ?"] else [])
    + (if edit.labels.Some? then ["labels = ?"] else [])
    + (if edit.time.Some? then ["time = ?", "timeStart = ?", "timeEnd = ?"] else [])
    + (if edit.metrics.Some? then ["metrics = ?"] else [])
  }

  /** The values bound to those assignments, in the same order. */
  function ExpectedValues(edit: EditFoodLogEntry): seq<CqlValue>
    requires IsValidEditLogEntry(edit)
  {
    (if edit.name.Some? then [Text(edit.name.value)] else [])
    + (if edit.labels.Some? then [LabelList(edit.labels.value)] else [])
    + (if edit.time.Some? then
         [Times(ToRange(edit.time.value)), Instant(edit.time.value.start.value), Instant(edit.time.value.end.value)]
       else [])
    + (if edit.metrics.Some? then [MetricObject(edit.metrics.value)] else [])
  }

  /**
   * The `forEach` over `UPDATEABLE_FIELDS` that pushes onto `updatedFields`
   * and `updateValues`; the source runs it only after the edit validated.
   */
  method BuildSetList(edit: EditFoodLogEntry) returns (fields: seq<string>, values: seq<CqlValue>)
    requires IsValidEditLogEntry(edit)
    ensures fields == ExpectedAssignments(edit)
    ensures values == ExpectedValues(edit)
    ensures |fields| == |values|
  {
    fields := [];
    values := [];
    for i := 0 to |UpdateableFields|
      invariant fields == SetListUpTo(edit, i).0 && values == SetListUpTo(edit, i).1
    {
      var field := UpdateableFields[i];
      ghost var clause := FieldClause(edit, field);
      ghost var before := (fields, values);
      if field == "name" && edit.name.Some? {
        fields := fields + ["name = ?"];
        values := values + [Text(edit.name.value)];
      } else if field == "labels" && edit.labels.Some? {
        fields := fields + ["labels = ?"];
        values := values + [LabelList(edit.labels.value)];
      } else if field == "time" && edit.time.Some? {
        var r := ToRange(edit.time.value);
        fields := fields + ["time = ?"];
        values := values + [Times(r)];
        fields := fields + ["timeStart = ?", "timeEnd = ?"];
        values := values + [Instant(r.start), Instant(r.end)];
        assert fields == before.0 + ["time = ?", "timeStart = ?", "timeEnd = ?"];
        assert values == before.1 + [Times(r), Instant(r.start), Instant(r.end)];
      } else if field == "metrics" && edit.metrics.Some? {
        fields := fields + ["metrics = ?"];
        values := values + [MetricObject(edit.metrics.value)];
      }
      assert fields == before.0 + clause.0 && values == before.1 + clause.1;
    }
    SetListClosedForm(edit);
  }

  /** The recursive description of the `forEach` agrees with the field-by-field one. */
  lemma SetListClosedForm(edit: EditFoodLogEntry)
    requires IsValidEditLogEntry(edit)
    ensures SetListUpTo(edit, 4) == (ExpectedAssignments(edit), ExpectedValues(edit))
  {
    var f := ExpectedAssignments(edit);
    var n := if edit.name.Some? then ["name = ?"] else [];
    var l := if edit.labels.Some? then ["labels = ?"] else [];
    var t := if edit.time.Some? then ["time = ?", "timeStart = ?", "timeEnd = ?"] else [];
    var m := if edit.metrics.Some? then ["metrics = ?"] else [];
    assert SetListUpTo(edit, 1).0 == n;
    assert SetListUpTo(edit, 2).0 == n + l;
    assert SetListUpTo(edit, 3).0 == n + l + t;
    assert SetListUpTo(edit, 4).0 == n + l + t + m;
    var nv := if edit.name.Some? then [Text(edit.name.value)] else [];
    var lv := if edit.labels.Some? then [LabelList(edit.labels.value)] else [];
    var tv := if edit.time.Some? then
                [Times(ToRange(edit.time.value)), Instant(edit.time.value.start.value), Instant(edit.time.value.end.value)]
              else [];
    var mv := if edit.metrics.Some? then [MetricObject(edit.metrics.value)] else [];
    assert SetListUpTo(edit, 1).1 == nv;
    assert SetListUpTo(edit, 2).1 == nv + lv;
    assert SetListUpTo(edit, 3).1 == nv + lv + tv;
    assert SetListUpTo(edit, 4).1 == nv + lv + tv + mv;
  }

  /** The arguments bound to the whole statement: the SET values, then the key. */
  function BoundArguments(values: seq<CqlValue>, userId: string, id: string): seq<CqlValue> {
    values + [Text(userId), Text(id)]
  }

  /** Writing one bound value into the column its assignment names. */
  function AssignOne(row: CassandraRow, assignment: string, v: CqlValue): CassandraRow {
    match v
    case Text(s) => if assignment == "name = ?" then row.(name := Some(s)) else row
    case LabelList(items) => if assignment == "labels = ?" then row.(labels := SetColumn(items)) else row
    case Times(r) => if assignment == "time = ?" then row.(time := Some(r)) else row
    case MetricObject(m) =>
      if assignment == "metrics = ?" && !SomeNaN(m) then row.(metrics := MapColumn(m)) else row
    case Instant(ms) =>
      if assignment == "timeStart = ?" then row.(timeStart := Some(ms))
      else if assignment == "timeEnd = ?" then row.(timeEnd := Some(ms))
      else row
  }

  /** The SET list applied in order to a row. */
  function ApplyAssignments(row: CassandraRow, fields: seq<string>, values: seq<CqlValue>): CassandraRow
    requires |fields| == |values|
    decreases |fields|
  {
    if fields == [] then row
    else ApplyAssignments(AssignOne(row, fields[0], values[0]), fields[1..], values[1..])
  }

  lemma {:induction false} ApplyAppend(row: CassandraRow, f1: seq<string>, v1: seq<CqlValue>, f2: seq<string>, v2: seq<CqlValue>)
    requires |f1| == |v1| && |f2| == |v2|
    ensures ApplyAssignments(row, f1 + f2, v1 + v2) == ApplyAssignments(ApplyAssignments(row, f1, v1), f2, v2)
    decreases |f1|
  {
    if f1 == [] {
      assert f1 + f2 == f2 && v1 + v2 == v2;
    } else {
      assert (f1 + f2)[0] == f1[0] && (v1 + v2)[0] == v1[0];
      assert (f1 + f2)[1..] == f1[1..] + f2;
      assert (v1 + v2)[1..] == v1[1..] + v2;
      ApplyAppend(AssignOne(row, f1[0], v1[0]), f1[1..], v1[1..], f2, v2);
    }
  }

  /** The row an edit is meant to leave: each supplied field replaced, `time` with both duplicate columns. */
  function EditedRow(row: CassandraRow, edit: EditFoodLogEntry): (r: CassandraRow)
    requires IsValidEditLogEntry(edit)
    ensures RowConsistent(row) ==> RowConsistent(r)
  {
    var t := if edit.time.Some? then Some(ToRange(edit.time.value)) else row.time;
    CassandraRow(
      if edit.name.Some? then edit.name else row.name,
      if edit.labels.Some? then SetColumn(edit.labels.value) else row.labels,
      t,
      if edit.metrics.Some? then MapColumn(edit.metrics.value) else row.metrics,
      if edit.time.Some? then Some(t.value.start) else row.timeStart,
      if edit.time.Some? then Some(t.value.end) else row.timeEnd)
  }

  /** Executing the built SET list writes exactly the edited row. */
  lemma BuiltSetListWritesEditedRow(row: CassandraRow, edit: EditFoodLogEntry)
    requires IsValidEditLogEntry(edit)
    ensures |ExpectedAssignments(edit)| == |ExpectedValues(edit)|
    ensures ApplyAssignments(row, ExpectedAssignments(edit), ExpectedValues(edit)) == EditedRow(row, edit)
  {
    var n := if edit.name.Some? then ["name = ?"] else [];
    var nv := if edit.name.Some? then [Text(edit.name.value)] else [];
    var l := if edit.labels.Some? then ["labels = ?"] else [];
    var lv := if edit.labels.Some? then [LabelList(edit.labels.value)] else [];
    var t := if edit.time.Some? then ["time = ?", "timeStart = ?", "timeEnd = ?"] else [];
    var tv := if edit.time.Some? then
                [Times(ToRange(edit.time.value)), Instant(edit.time.value.start.value), Instant(edit.time.value.end.value)]
              else [];
    var m := if edit.metrics.Some? then ["metrics = ?"] else [];
    var mv := if edit.metrics.Some? then [MetricObject(edit.metrics.value)] else [];
    ApplyAppend(row, n, nv, l, lv);
    ApplyAppend(row, n + l, nv + lv, t, tv);
    ApplyAppend(row, n + l + t, nv + lv + tv, m, mv);
    var r1 := ApplyAssignments(row, n, nv);
    var r2 := ApplyAssignments(r1, l, lv);
    var r3 := ApplyAssignments(r2, t, tv);
    if edit.time.Some? {
      assert t[1..] == ["timeStart = ?", "timeEnd = ?"] && t[1..][1..] == ["timeEnd = ?"] && t[1..][1..][1..] == [];
      assert tv[1..][1..][1..] == [];
      var a := AssignOne(r2, t[0], tv[0]);
      var b := AssignOne(a, t[1], tv[1]);
      var c := AssignOne(b, t[2], tv[2]);
      assert r3 == ApplyAssignments(a, t[1..], tv[1..]);
      assert ApplyAssignments(a, t[1..], tv[1..]) == ApplyAssignments(b, t[1..][1..], tv[1..][1..]);
      assert ApplyAssignments(b, t[1..][1..], tv[1..][1..]) == ApplyAssignments(c, [], []);
    }
  }

  /**
   * The upsert: the row with the key, or an all-null row, takes the SET list.
   * A key that had no row gains one only when some column ends up non-null.
   */
  function Upsert(rows: map<Key, CassandraRow>, key: Key, fields: seq<string>, values: seq<CqlValue>): map<Key, CassandraRow>
    requires |fields| == |values|
  {
    var base := if key in rows then rows[key] else EmptyRow;
    var updated := ApplyAssignments(base, fields, values);
    if key in rows || updated != EmptyRow then rows[key := updated] else rows
  }

  class CassandraFoodLogTable {
    var rows: map<Key, CassandraRow>

    ghost predicate Valid()
      reads this
    {
      TableConsistent(rows)
    }

    constructor ()
      ensures Valid() && rows == map[]
    {
      rows := map[];
    }

    /** `storeFoodLog`; `freshId` stands for `crypto.randomUUID()`. */
    method StoreFoodLog(userId: string, logEntry: CreateFoodLogEntry, freshId: string, fault: Option<string>)
      returns (r: Result<string>)
      requires Valid()
      modifies this
      ensures Valid()
      ensures !IsValidCreateLogEntry(logEntry) ==>
                r == Err(ValidationError("Invalid Log Entry")) && rows == old(rows)
      ensures IsValidCreateLogEntry(logEntry) && fault.Some? ==>
                r == Err(SystemError(fault.value)) && rows == old(rows)
      ensures IsValidCreateLogEntry(logEntry) && fault.None? ==>
                r == Ok(freshId) && rows == old(rows)[(userId, freshId) := InsertedRow(EntryOf(logEntry, freshId))]
    {
      if !IsValidCreateLogEntry(logEntry) {
        return Err(ValidationError("Invalid Log Entry"));
      }
      var insertEntry := EntryOf(logEntry, freshId);
      if fault.Some? {
        return Err(SystemError(fault.value));
      }
      rows := rows[(userId, insertEntry.id) := InsertedRow(insertEntry)];
      r := Ok(insertEntry.id);
    }

    method RetrieveFoodLog(userId: string, logId: string, fault: Option<string>) returns (r: Result<CassandraLog>)
      ensures r == RetrieveResult(rows, userId, logId, fault)
      ensures r.Ok? ==> r.value.id == logId
      ensures fault.None? && r.Err? ==> (userId, logId) !in rows
    {
      if fault.Some? {
        return Err(SystemError(fault.value));
      }
      if (userId, logId) !in rows {
        return Err(NotFoundError("No Log with Id"));
      }
      r := Ok(LogOf(logId, rows[(userId, logId)]));
    }

    method QueryFoodLogs(userId: string, startDate: int, endDate: int, fault: Option<string>)
      returns (r: Result<set<CassandraLog>>)
      ensures r == QueryResult(rows, userId, startDate, endDate, fault)
      ensures endDate < startDate ==> r == Err(ValidationError("startDate is after endDate"))
    {
      if endDate < startDate {
        return Err(ValidationError("startDate is after endDate"));
      }
      if fault.Some? {
        return Err(SystemError(fault.value));
      }
      r := Ok(SelectedLogs(rows, userId, startDate, endDate));
    }

    /**
     * `editFoodLog`: build the SET list, run the `UPDATE` (an upsert), then
     * answer what `retrieveFoodLog` answers (`readFault` is that call's fault).
     * An empty SET list is a statement cassandra rejects; `rejection` is the
     * message it answers with.
     */
    method EditFoodLog(userId: string, logEntry: EditFoodLogEntry, fault: Option<string>, rejection: string, readFault: Option<string>)
      returns (r: Result<CassandraLog>)
      requires Valid()
      modifies this
      ensures Valid()
      ensures !IsValidEditLogEntry(logEntry) ==>
                r == Err(ValidationError("Invalid Log Entry")) && rows == old(rows)
      ensures IsValidEditLogEntry(logEntry) && ExpectedAssignments(logEntry) == [] ==>
                r == Err(SystemError(rejection)) && rows == old(rows)
      ensures IsValidEditLogEntry(logEntry) && ExpectedAssignments(logEntry) != [] && fault.Some? ==>
                r == Err(SystemError(fault.value)) && rows == old(rows)
      ensures IsValidEditLogEntry(logEntry) && ExpectedAssignments(logEntry) != [] && fault.None? ==>
                && rows == Upsert(old(rows), (userId, logEntry.id.value), ExpectedAssignments(logEntry), ExpectedValues(logEntry))
                && r == RetrieveResult(rows, userId, logEntry.id.value, readFault)
    {
      if !IsValidEditLogEntry(logEntry) {
        return Err(ValidationError("Invalid Log Entry"));
      }
      var updatedFields, updateValues := BuildSetList(logEntry);
      var arguments := BoundArguments(updateValues, userId, logEntry.id.value);
      if updatedFields == [] {
        return Err(SystemError(rejection));
      }
      if fault.Some? {
        return Err(SystemError(fault.value));
      }
      UpsertKeepsConsistency(rows, (userId, logEntry.id.value), logEntry);
      rows := Upsert(rows, (userId, logEntry.id.value), updatedFields, updateValues);
      r := RetrieveFoodLog(userId, logEntry.id.value, readFault);
    }

    method DeleteFoodLog(userId: string, logId: string, fault: Option<string>) returns (r: Result<bool>)
      requires Valid()
      modifies this
      ensures Valid()
      ensures fault.Some? ==> r == Err(SystemError(fault.value)) && rows == old(rows)
      ensures fault.None? ==> r == Ok(true) && rows == old(rows) - {(userId, logId)}
    {
      if fault.Some? {
        return Err(SystemError(fault.value));
      }
      rows := rows - {(userId, logId)};
      r := Ok(true);
    }
  }

  /** The edit's upsert keeps every row consistent: `time` never goes without its duplicate columns. */
  lemma UpsertKeepsConsistency(rows: map<Key, CassandraRow>, key: Key, edit: EditFoodLogEntry)
    requires TableConsistent(rows) && IsValidEditLogEntry(edit)
    ensures |ExpectedAssignments(edit)| == |ExpectedValues(edit)|
    ensures TableConsistent(Upsert(rows, key, ExpectedAssignments(edit), ExpectedValues(edit)))
  {
    var base := if key in rows then rows[key] else EmptyRow;
    BuiltSetListWritesEditedRow(base, edit);
  }

  /** After a valid store the new id retrieves the entry's columns; `timeStart`/`timeEnd` repeat `time`. */
  lemma StoreThenRetrieve(rows: map<Key, CassandraRow>, userId: string, logEntry: CreateFoodLogEntry, freshId: string)
    requires IsValidCreateLogEntry(logEntry)
    ensures var e := EntryOf(logEntry, freshId);
            var after := rows[(userId, freshId) := InsertedRow(e)];
            && RetrieveResult(after, userId, freshId, None)
                 == Ok(CassandraLog(freshId, Some(e.name), SetColumn(e.labels), Some(e.time), MapColumn(e.metrics)))
            && after[(userId, freshId)].timeStart == Some(logEntry.time.value.start.value)
            && after[(userId, freshId)].timeEnd == Some(logEntry.time.value.end.value)
            && forall k :: k in rows && k != (userId, freshId) ==> after[k] == rows[k]
  {
  }

  /** A stored entry comes back with the same labels and metric keys, as long as it has some of each. */
  lemma StoredCollectionsRoundTrip(e: FoodLogEntry)
    requires !SomeNaN(e.metrics) && |e.labels| > 0 && |e.metrics| > 0
    ensures var row := InsertedRow(e);
            && row.labels.Some? && (forall x :: x in row.labels.value <==> x in e.labels)
            && row.metrics.Some? && (forall k :: k in row.metrics.value <==> exists i :: 0 <= i < |e.metrics| && e.metrics[i].0 == k)
            && forall i :: 0 <= i < |e.metrics| && (forall j :: i < j < |e.metrics| ==> e.metrics[j].0 != e.metrics[i].0) ==>
                 row.metrics.value[e.metrics[i].0] == e.metrics[i].1.n
  {
    forall i | 0 <= i < |e.metrics| && (forall j :: i < j < |e.metrics| ==> e.metrics[j].0 != e.metrics[i].0)
      ensures e.metrics[i].0 in MetricMap(e.metrics) && MetricMap(e.metrics)[e.metrics[i].0] == e.metrics[i].1.n
    {
      MetricMapValues(e.metrics, i);
    }
  }

  /** The range query answers exactly the user's rows whose duplicated bounds overlap the window. */
  lemma QueryIsOverlap(rows: map<Key, CassandraRow>, userId: string, startDate: int, endDate: int, x: CassandraLog)
    requires TableConsistent(rows) && startDate <= endDate
    ensures QueryResult(rows, userId, startDate, endDate, None).Ok?
    ensures x in QueryResult(rows, userId, startDate, endDate, None).value <==>
              (userId, x.id) in rows && x == LogOf(x.id, rows[(userId, x.id)])
              && x.time.Some? && x.time.value.start <= endDate && x.time.value.end >= startDate
  {
    if x in SelectedLogs(rows, userId, startDate, endDate) {
      var k :| k in rows && k.0 == userId && RowSelected(rows[k], startDate, endDate) && x == LogOf(k.1, rows[k]);
      assert RowConsistent(rows[k]);
    }
    if (userId, x.id) in rows && x == LogOf(x.id, rows[(userId, x.id)])
       && x.time.Some? && x.time.value.start <= endDate && x.time.value.end >= startDate {
      assert RowConsistent(rows[(userId, x.id)]);
      assert RowSelected(rows[(userId, x.id)], startDate, endDate);
    }
  }

  /** Editing a stored entry and retrieving it answers the old columns with the supplied fields replaced. */
  lemma EditThenRetrieve(rows: map<Key, CassandraRow>, userId: string, edit: EditFoodLogEntry)
    requires IsValidEditLogEntry(edit) && (userId, edit.id.value) in rows
    ensures |ExpectedAssignments(edit)| == |ExpectedValues(edit)|
    ensures var key := (userId, edit.id.value);
            var after := Upsert(rows, key, ExpectedAssignments(edit), ExpectedValues(edit));
            && RetrieveResult(after, userId, edit.id.value, None) == Ok(LogOf(edit.id.value, EditedRow(rows[key], edit)))
            && forall k :: k in rows && k != key ==> k in after && after[k] == rows[k]
  {
    BuiltSetListWritesEditedRow(rows[(userId, edit.id.value)], edit);
  }

  /**
   * Unlike the in-memory store, editing an id that was never stored is not a
   * not-found error: the upsert creates a row holding only the supplied name.
   */
  lemma EditOfMissingIdCreatesRow(rows: map<Key, CassandraRow>, userId: string, id: string, name: string)
    requires (userId, id) !in rows
    ensures var edit := EditFoodLogEntry(Some(id), Some(name), None, None, None);
            && IsValidEditLogEntry(edit)
            && |ExpectedAssignments(edit)| == |ExpectedValues(edit)|
            && RetrieveResult(Upsert(rows, (userId, id), ExpectedAssignments(edit), ExpectedValues(edit)), userId, id, None)
                 == Ok(CassandraLog(id, Some(name), None, None, None))
  {
    var edit := EditFoodLogEntry(Some(id), Some(name), None, None, None);
    BuiltSetListWritesEditedRow(EmptyRow, edit);
  }

  /** An edit carrying only its id builds an empty SET list, so the statement cannot be well-formed. */
  lemma EditWithOnlyIdHasEmptySetList(id: string)
    ensures var edit := EditFoodLogEntry(Some(id), None, None, None, None);
            IsValidEditLogEntry(edit) && ExpectedAssignments(edit) == [] && ExpectedValues(edit) == []
  {
  }

  /** The statement has as many placeholders as bound arguments: one per SET entry, then the two key columns. */
  lemma PlaceholdersMatchArguments(edit: EditFoodLogEntry, userId: string)
    requires IsValidEditLogEntry(edit)
    ensures |BoundArguments(ExpectedValues(edit), userId, edit.id.value)| == |ExpectedAssignments(edit)| + 2
    ensures BoundArguments(ExpectedValues(edit), userId, edit.id.value)[|ExpectedValues(edit)|..]
              == [Text(userId), Text(edit.id.value)]
  {
  }

  /** `time = ?` is always followed at once by `timeStart = ?` and `timeEnd = ?`, bound to its two bounds. */
  lemma TimeAssignmentsAdjacent(edit: EditFoodLogEntry, i: nat)
    requires IsValidEditLogEntry(edit)
    requires i < |ExpectedAssignments(edit)| && ExpectedAssignments(edit)[i] == "time = ?"
    ensures i + 2 < |ExpectedAssignments(edit)|
    ensures ExpectedAssignments(edit)[i + 1] == "timeStart = ?" && ExpectedAssignments(edit)[i + 2] == "timeEnd = ?"
    ensures ExpectedValues(edit)[i + 1] == Instant(edit.time.value.start.value)
    ensures ExpectedValues(edit)[i + 2] == Instant(edit.time.value.end.value)
  {
    var n := if edit.name.Some? then ["name = ?"] else [];
    var l := if edit.labels.Some? then ["labels = ?"] else [];
    var t := if edit.time.Some? then ["time = ?", "timeStart = ?", "timeEnd = ?"] else [];
    var m := if edit.metrics.Some? then ["metrics = ?"] else [];
    assert ExpectedAssignments(edit) == n + l + t + m;
    assert i == |n + l| && edit.time.Some?;
  }

  /** After a delete the key retrieves as not found, and every other row is kept. */
  lemma DeleteThenNotFound(rows: map<Key, CassandraRow>, userId: string, id: string)
    ensures RetrieveResult(rows - {(userId, id)}, userId, id, None) == Err(NotFoundError("No Log with Id"))
    ensures forall k :: k in rows && k != (userId, id) ==> k in rows - {(userId, id)}
  {
  }
}
