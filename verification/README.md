# Open Food Diary storage core, in Dafny

This project models the storage layer of the Open Food Diary server and proves properties of it. It also models four small pieces that live elsewhere in the repository: the webapp's `apiFetch` wrapper and three offline CSV scripts.

What is modelled:

- **Validators.**
  - `isValidCreateLogEntry` and `isValidEditLogEntry` are predicates over create and edit requests, in which every field may be missing.
  - `isValidConfigurationItem` dispatches on the configuration id. Its `findIndex` walk with two `Set`s, `isValidMetrics`, is a method with a loop. That method is proved equal to "labels pairwise distinct and priorities pairwise distinct".
  - The unanchored key pattern `([a-z]|-)*` matches every key, and the model proves this rather than checking keys.
- **Storage errors.**
  - The three kinds of storage error (validation, not found, system) are one datatype, each constructor carrying its message.
  - A result is `Ok(value)` or `Err(error)`.
  - The `validationError` flag, the `errorType` tag and the handlers' error-to-status map are functions over it.
- **Food-log stores**, one class each, with a field that holds the table and one method per operation:
  - **memory**: a map from user to that user's entries in insertion order.
  - **sqlite3**: a sequence of rows with JSON columns and two `DATETIME` time columns. Each time column holds the epoch-second number `getTime() / 1000`, modelled as an exact `real`.
  - **cassandra**: a map keyed by `(userId, id)` whose columns may be null, with `timeStart`/`timeEnd` duplicating `time`. The `UPDATE` is an upsert built from a SET list; a method builds that list with a loop.
- **Configuration stores**:
  - **sqlite3**: delete then insert over a sequence of rows.
  - **cassandra**: an `INSERT` into a map keyed by `(user_id, id)`, which replaces any row already there.
- **Backend selection** (`STORAGE`): cassandra when the provider is `"cassandra"`, otherwise sqlite3.
- **`apiFetch`**: the `/api` prefixing of a URL or request object, and the `Content-Type` defaulting of `init`. The result is the call handed to `fetchFn`.
- **Scripts**:
  - the daily-count aggregation (`reduce`, `knownmetrics`, `getDatesBetween`, row building);
  - the dedupe-and-de-emoji loop;
  - the MyFitnessPal meal converter.

  Each is modelled on its parsed rows; the output rows use the shared export-row shape.

How the environment is modelled:

- **Faults.** A datastore exception is a `fault: Option<string>` argument. When present, the operation answers `SystemError(message)` and changes nothing it had not already changed.
- **Fresh ids.** `crypto.randomUUID()` is a `freshId` argument.
- **Times.** Food-log times are integer milliseconds. sqlite stores them as `ms / 1000` and reads them back as `s * 1000`, truncated. The model does this arithmetic on exact reals, where reading back restores the milliseconds. The source uses doubles, where it can lose a millisecond (see "## Left out").
- **Metric values.** A metric value is an integer `Number(n)` or `NotANumber`. Fractional values and numeric strings are not modelled (see "## Left out").
- **JSON.** `JSON.stringify`/`JSON.parse` are an encoding into an abstract JSON tree and a partial decoding back. The round trips are proved, not assumed.

Where the stores differ, the model keeps them apart. Lemmas state each difference:

- **Query window.** The memory query keeps entries *contained* in the window. The sqlite and cassandra queries keep entries that *overlap* it.
- **Delete of an absent id.** The memory delete answers `false`; the others answer `true`.
- **Edit of an absent id.**
  - The memory edit reports not-found itself.
  - sqlite answers whatever the follow-up retrieve answers.
  - Cassandra's `UPDATE` creates a row for an id that was never stored.
- **Empty name.** sqlite writes only truthy fields, so an empty name is not written. The spread merge of the other stores would write it.
- **Edit with nothing to write.** An edit with only an id gives sqlite an empty `update` object, which the query builder refuses, and cassandra an empty SET list. sqlite also gets an empty `update` object when the only other field is an empty name; cassandra tests for `undefined`, so it still writes `name = ?`. Both answer a system error for an empty update; the memory store applies the edit.

## Model

| member | source | states |
|---|---|---|
| StorageErrors.ValidationFlag | server/src/storage/types/StorageErrors.ts:6-12 | the `validationError` flag is set exactly on validation errors |
| StorageErrors.ErrorType | server/src/handlers/ConfigHandlers.ts:18-30 | every error carries one of the three tags the handler switches on |
| StorageErrors.StatusCode | server/src/handlers/FoodLogHandlers.ts:52-56 | status 400 iff validation error, 404 iff not-found, 500 iff system error |
| StorageErrors.ValidationErrorRecognised | server/src/storage/types/StorageErrors.ts:2-11 | every constructed validation error is recognised by `isValidationError` and keeps its message |
| StorageErrors.OtherErrorsNotValidation | server/src/storage/types/StorageErrors.ts:2-4 | an error without the flag is not a validation error |
| StorageErrors.ClassificationIsExclusive | server/src/storage/types/StorageErrors.ts:14 | every storage error is exactly one of validation, not-found, system |
| FoodLogTypes.ContainedImpliesOverlaps | server/src/storage/memory/FoodLogStorageFunctions.ts:78 | an ordered entry contained in a window overlaps it, so the memory query answers a subset of what the database queries would |
| FoodLogValidation.EntryOf | server/src/storage/memory/FoodLogStorageFunctions.ts:48-51 | `{...entry, id}` of a valid create request has the given id, the request's fields, an ordered interval and no NaN metric |
| FoodLogValidation.CreateRejectsId | server/src/storage/validation/FoodLogStorageValidation.ts:5 | a create request carrying any id is invalid |
| FoodLogValidation.CreateRequiresAllFields | server/src/storage/validation/FoodLogStorageValidation.ts:6-12 | a create request missing name, labels, metrics, time or a time bound is invalid |
| FoodLogValidation.CreateRejectsNaN | server/src/storage/validation/FoodLogStorageValidation.ts:9 | one NaN-like metric value makes a create request invalid |
| FoodLogValidation.CreateTimeOrder | server/src/storage/validation/FoodLogStorageValidation.ts:13 | a complete create request is valid iff end >= start, so equal bounds are accepted |
| FoodLogValidation.ValidCreateIsWellFormed | server/src/storage/validation/FoodLogStorageValidation.ts:3-15 | a valid create request yields a stored entry with ordered bounds and numeric metrics |
| FoodLogValidation.EditNeedsOnlyId | server/src/storage/validation/FoodLogStorageValidation.ts:19 | an edit without id is invalid; with an id and no metrics or time it is valid |
| FoodLogValidation.EditRejectsNaN | server/src/storage/validation/FoodLogStorageValidation.ts:20-21 | supplied metrics with a NaN-like value make an edit invalid |
| FoodLogValidation.EditTimeRule | server/src/storage/validation/FoodLogStorageValidation.ts:22-25 | a valid edit's supplied time has both bounds and end >= start |
| FoodLogValidation.Merge | server/src/storage/memory/FoodLogStorageFunctions.ts:90-93 | in `{...prior, ...edit}` each supplied field overrides and every other field keeps its prior value |
| FoodLogValidation.MergePreservesWellFormed | server/src/storage/memory/FoodLogStorageFunctions.ts:90-93 | merging a valid edit into a well-formed entry keeps it well-formed |
| Json.StringsRoundTrip | server/src/storage/sqlite3/FoodLogStorageFunctions.ts:68-79 | parsing the JSON of a string array gives the array back |
| ConfigTypes.DecodeSetting | server/src/storage/sqlite3/ConfigurationStorageFunctions.ts:27-32 | parsing an encoded metric setting gives that setting |
| ConfigTypes.EntriesRoundTrip | server/src/storage/sqlite3/ConfigurationStorageFunctions.ts:19-32 | parsing the JSON of a metrics map gives the same entries in the same order |
| ConfigTypes.ConfigurationRoundTrip | server/src/storage/cassandra/ConfigurationStorageFunctions.ts:19-32 | `generalFromSql(sqlFromGeneral(c)) == c` for every configuration whose id selects its own variant |
| ConfigValidation.EveryKeyMatches | server/src/storage/validation/ConfigurationStorageValidation.ts:27 | the unanchored key pattern matches every key |
| ConfigValidation.IsValidMetrics | server/src/storage/validation/ConfigurationStorageValidation.ts:20-38 | the `findIndex` walk with its two sets answers true iff labels and priorities are each pairwise distinct |
| ConfigValidation.ClashBreaksDistinctness | server/src/storage/validation/ConfigurationStorageValidation.ts:28 | a label already seen earlier breaks distinctness |
| ConfigValidation.MetricsValidIffDistinct | server/src/storage/validation/ConfigurationStorageValidation.ts:20-38 | the metrics check is equivalent to pairwise-distinct labels and priorities |
| ConfigValidation.CheckConfigurationItem | server/src/storage/validation/ConfigurationStorageValidation.ts:7-18 | the dispatcher answers the metrics, summaries or default verdict by id |
| ConfigValidation.UnknownIdInvalid | server/src/storage/validation/ConfigurationStorageValidation.ts:10-17 | any id other than "metrics" or "summaries" is invalid |
| ConfigValidation.SharedLabelOrPriorityInvalid | server/src/storage/validation/ConfigurationStorageValidation.ts:28-29 | two entries sharing a label or a priority make a metrics configuration invalid |
| ConfigValidation.EmptyMetricsValid | server/src/storage/validation/ConfigurationStorageValidation.ts:25-37 | the empty metrics map is valid |
| ConfigValidation.ReorderingKeepsValidity | server/src/storage/validation/ConfigurationStorageValidation.ts:20-38 | any permutation of a valid metrics configuration's entries is valid |
| ConfigValidation.ElementsBound | server/src/storage/validation/ConfigurationStorageValidation.ts:42-43 | a set built from a list is no larger than the list |
| ConfigValidation.CardinalityIffNoDuplicates | server/src/storage/validation/ConfigurationStorageValidation.ts:42-43 | `length === new Set(list).size` iff the list has no duplicates |
| ConfigValidation.SummaryValidIffNoDuplicates | server/src/storage/validation/ConfigurationStorageValidation.ts:40-47 | a summaries configuration is valid iff `showMetricSummary` has no duplicates |
| ConfigValidation.StoreRejection | server/src/storage/sqlite3/ConfigurationStorageFunctions.ts:39-44 | a falsy user id gives "Invalid user id"; otherwise an invalid configuration gives "Error with Configuration"; nothing else is rejected |
| ConfigValidation.AcceptedHasKnownId | server/src/storage/validation/ConfigurationStorageValidation.ts:10-17 | an accepted configuration is a metrics or summaries one |
| MemoryFoodLog.IndexOf | server/src/storage/memory/FoodLogStorageFunctions.ts:86 | `findIndex` answers the first position with the id, or -1 iff none has it |
| MemoryFoodLog.ContainedEntries | server/src/storage/memory/FoodLogStorageFunctions.ts:78 | the filter answers no more entries than it is given |
| MemoryFoodLog.MemoryFoodLogStore.constructor | server/src/storage/memory/FoodLogStorageFunctions.ts:17 | the store starts empty |
| MemoryFoodLog.MemoryFoodLogStore.StoreFoodLog | server/src/storage/memory/FoodLogStorageFunctions.ts:43-58 | invalid input: validation error, storage unchanged; valid: `{...entry, id}` appended to the user's list (created if absent), id returned, invariants kept |
| MemoryFoodLog.MemoryFoodLogStore.RetrieveFoodLog | server/src/storage/memory/FoodLogStorageFunctions.ts:60-67 | answers the user's first entry with the id; not-found iff the id is absent |
| MemoryFoodLog.MemoryFoodLogStore.QueryFoodLogs | server/src/storage/memory/FoodLogStorageFunctions.ts:70-79 | error iff end < start; else the user's contained entries in list order |
| MemoryFoodLog.MemoryFoodLogStore.EditFoodLog | server/src/storage/memory/FoodLogStorageFunctions.ts:81-95 | invalid: validation error; absent id: not-found; else the slot is replaced by the merge, which is returned; storage otherwise unchanged |
| MemoryFoodLog.MemoryFoodLogStore.DeleteFoodLog | server/src/storage/memory/FoodLogStorageFunctions.ts:97-105 | absent id: `false`, storage unchanged; else the first match is spliced out and `true` returned |
| MemoryFoodLog.StoreTouchesOnlyItsUser | server/src/storage/memory/FoodLogStorageFunctions.ts:52-56 | a store appends exactly one entry to its user's list and leaves other users' lists untouched |
| MemoryFoodLog.StoreThenRetrieve | server/src/storage/memory/FoodLogStorageFunctions.integration.test.ts:35-39 | after storing under an unused id, retrieve answers `{id, ...input}` |
| MemoryFoodLog.UnknownIdNotFound | server/src/storage/memory/FoodLogStorageFunctions.ts:62-65 | an id absent from the user's list is not found |
| MemoryFoodLog.StorePreservesInvariants | server/src/storage/memory/FoodLogStorageFunctions.ts:48-56 | a store with an unused id keeps ids unique per user and every entry well-formed |
| MemoryFoodLog.ContainedEntriesExact | server/src/storage/memory/FoodLogStorageFunctions.ts:78 | the query keeps exactly the user's entries with start >= startDate and end <= endDate |
| MemoryFoodLog.ContainedEntriesInOrder | server/src/storage/memory/FoodLogStorageFunctions.ts:78 | the query answers the contained entries in list order: a strictly increasing index map picks each answer from the list, and a position is picked iff its entry lies inside the window |
| MemoryFoodLog.QueryEdgeCases | server/src/storage/memory/FoodLogStorageFunctions.ts:72-77 | end < start is a validation error; an unknown user gets `[]` |
| MemoryFoodLog.QueryIgnoresPartialOverlap | server/src/storage/memory/FoodLogStorageFunctions.ts:78 | an entry only partly inside the window is not returned |
| MemoryFoodLog.EditTouchesOnlyItsSlot | server/src/storage/memory/FoodLogStorageFunctions.ts:90-93 | an edit keeps the list length, every other slot and every other user |
| MemoryFoodLog.DeleteThenNotFound | server/src/storage/memory/FoodLogStorageFunctions.integration.test.ts:57-70 | with unique ids, a deleted id is no longer found, so a second delete answers `false` |
| MemoryFoodLog.DeleteRemovesOne | server/src/storage/memory/FoodLogStorageFunctions.ts:103 | `splice(i, 1)` removes exactly position i and keeps the order of the rest |
| SqliteFoodLog.MillisOfSeconds | server/src/storage/sqlite3/FoodLogStorageFunctions.ts:70-82 | in exact arithmetic, milliseconds stored as seconds and read back are unchanged (doubles: see Left out) |
| SqliteFoodLog.SecondsMonotonic | server/src/storage/sqlite3/FoodLogStorageFunctions.ts:144-145 | comparing in seconds is comparing in milliseconds |
| SqliteFoodLog.MetricFieldsRoundTrip | server/src/storage/sqlite3/FoodLogStorageFunctions.ts:69-84 | parsing the JSON of NaN-free metrics gives them back |
| SqliteFoodLog.RowRoundTrip | server/src/storage/sqlite3/FoodLogStorageFunctions.ts:60-86 | `generalFromSql(sqlFromGeneral(e))` restores id, name, labels, metrics and, in exact arithmetic, time |
| SqliteFoodLog.InsertedRowWellFormed | server/src/storage/sqlite3/FoodLogStorageFunctions.ts:96-100 | the inserted row decodes to an entry with ordered bounds |
| SqliteFoodLog.FirstWithKey | server/src/storage/sqlite3/FoodLogStorageFunctions.ts:115-119 | `.first()` answers the first row with the key, or -1 iff none has it |
| SqliteFoodLog.SelectedEntries | server/src/storage/sqlite3/FoodLogStorageFunctions.ts:141-146 | the query answers no more entries than there are rows |
| SqliteFoodLog.UpdateWhere | server/src/storage/sqlite3/FoodLogStorageFunctions.ts:176-179 | the update keeps the row count, updates every row with the key and leaves every other row as it was |
| SqliteFoodLog.DeleteWhere | server/src/storage/sqlite3/FoodLogStorageFunctions.ts:192-195 | after the delete no row has the key, every row without the key is still there, and nothing else is |
| SqliteFoodLog.ExportRow | server/src/storage/sqlite3/FoodLogStorageFunctions.ts:204-213 | `bulkFromSql` gives one cell per header column |
| SqliteFoodLog.ExportRowCells | server/src/storage/sqlite3/FoodLogStorageFunctions.ts:204-213 | the cells, in header order, are the row's id and name, its parsed labels, its start and end as ISO times of the read-back milliseconds, and its parsed metrics |
| SqliteFoodLog.ExportLines | server/src/storage/sqlite3/FoodLogStorageFunctions.ts:232-245 | one export line per log, that log's cells, in order |
| SqliteFoodLog.UserRows | server/src/storage/sqlite3/FoodLogStorageFunctions.ts:221-223 | the fetched rows are all of the user's rows and only those |
| SqliteFoodLog.SqliteFoodLogTable.constructor | server/src/storage/sqlite3/FoodLogStorageFunctions.ts:50-58 | the table starts empty |
| SqliteFoodLog.SqliteFoodLogTable.StoreFoodLog | server/src/storage/sqlite3/FoodLogStorageFunctions.ts:88-107 | invalid: validation error, no insert; fault: system error, no insert; else exactly one row with user and fresh id appended, id returned |
| SqliteFoodLog.SqliteFoodLogTable.RetrieveFoodLog | server/src/storage/sqlite3/FoodLogStorageFunctions.ts:109-127 | converts the first row with the key; "Log not found" when none; the answered id is the one asked for |
| SqliteFoodLog.SqliteFoodLogTable.QueryFoodLogs | server/src/storage/sqlite3/FoodLogStorageFunctions.ts:129-150 | end < start is a validation error decided before any fault; else the user's overlapping rows, converted |
| SqliteFoodLog.SqliteFoodLogTable.EditFoodLog | server/src/storage/sqlite3/FoodLogStorageFunctions.ts:152-184 | invalid: validation error; nothing truthy to write: the query builder's empty-update error as a system error, no change; fault: system error, no change; else the truthy fields are written to every row with the key and the answer is the follow-up retrieve |
| SqliteFoodLog.SqliteFoodLogTable.DeleteFoodLog | server/src/storage/sqlite3/FoodLogStorageFunctions.ts:186-200 | every row with the key is removed, every other row kept, and `true` answered, even when nothing matched |
| SqliteFoodLog.SqliteFoodLogTable.BulkExportFoodLogs | server/src/storage/sqlite3/FoodLogStorageFunctions.ts:215-252 | fault: system error; else the header, then exactly one line per row of the user, in fetch order (with `UserRows` and `UserRowsInOrder`) |
| SqliteFoodLog.UpdatePreservesWellFormed | server/src/storage/sqlite3/FoodLogStorageFunctions.ts:161-174 | a valid edit's updates keep every row decodable with ordered bounds |
| SqliteFoodLog.DeletePreservesWellFormed | server/src/storage/sqlite3/FoodLogStorageFunctions.ts:192-195 | deleting keeps every remaining row well-formed |
| SqliteFoodLog.StoreThenRetrieve | server/src/storage/sqlite3/FoodLogStorageFunctions.ts:96-123 | after a store under an unused key, retrieve answers `{id, ...input}`, times in exact arithmetic |
| SqliteFoodLog.RowSelectedIffOverlaps | server/src/storage/sqlite3/FoodLogStorageFunctions.ts:141-145 | the where-clause on second columns holds iff the row is the user's and its entry overlaps the window |
| SqliteFoodLog.QueryIsOverlap | server/src/storage/sqlite3/FoodLogStorageFunctions.ts:141-146 | the query answers exactly the user's entries overlapping the window |
| SqliteFoodLog.DeleteThenNotFound | server/src/storage/sqlite3/FoodLogStorageFunctions.ts:192-196 | after a delete the key retrieves as "Log not found" |
| SqliteFoodLog.DeleteKeepsOrder | server/src/storage/sqlite3/FoodLogStorageFunctions.ts:192-195 | the rows left by a delete are exactly the rows without the key, in their old order |
| SqliteFoodLog.UserRowsInOrder | server/src/storage/sqlite3/FoodLogStorageFunctions.ts:221-223 | the exported rows are exactly the user's rows, in storage order |
| SqliteFoodLog.ExportOfStoredEntry | server/src/storage/sqlite3/FoodLogStorageFunctions.ts:204-213 | exporting a stored entry writes its id, name, labels, both bounds (in exact arithmetic) and metrics |
| SqliteFoodLog.EditThenRetrieve | server/src/storage/sqlite3/FoodLogStorageFunctions.ts:161-180 | an edit with something truthy to write, of a stored key, then a retrieve answers the stored entry with the truthy supplied fields replaced |
| SqliteFoodLog.UpdatedRowConverts | server/src/storage/sqlite3/FoodLogStorageFunctions.ts:161-174 | an updated row converts to the old entry with the truthy supplied fields applied, both time bounds together |
| SqliteFoodLog.NoUpdatesIffNothingTruthy | server/src/storage/sqlite3/FoodLogStorageFunctions.ts:161-174 | `updates` is empty iff the edit supplies no time, metrics or labels and no non-empty name |
| SqliteFoodLog.EmptyNameIsNotWritten | server/src/storage/sqlite3/FoodLogStorageFunctions.ts:162-164 | an empty name is not written, where the spread merge would write it |
| SqliteFoodLog.TimeWritesBothColumns | server/src/storage/sqlite3/FoodLogStorageFunctions.ts:165-168 | a supplied time writes both time columns from its two bounds |
| SqliteFoodLog.RowsOf | server/src/storage/sqlite3/FoodLogStorageFunctions.ts:96-102 | storing entries in turn writes one converted row each, in order |
| SqliteFoodLog.QueryOfStoredEntries | server/src/storage/sqlite3/FoodLogStorageFunctions.ts:141-146 | querying one user's stored entries answers exactly those overlapping the window, in storage order |
| SqliteFoodLog.OverlappingTestEntries | server/src/storage/sqlite3/FoodLogStorageFunctions.integration.test.ts:115-151 | the overlap filter over the three test entries, entry by entry |
| SqliteFoodLog.OverlapQueryExamples | server/src/storage/sqlite3/FoodLogStorageFunctions.integration.test.ts:163-211 | the four test windows answer center; past and center; center and future; nothing |
| CassandraFoodLog.SetColumn | server/src/storage/cassandra/FoodLogStorageFunctions.ts:65 | a `set<text>` column holds exactly the array's elements and is null iff the array is empty |
| CassandraFoodLog.MetricMap | server/src/storage/cassandra/FoodLogStorageFunctions.ts:67 | the `map<text,int>` has exactly the object's keys |
| CassandraFoodLog.MapColumn | server/src/storage/cassandra/FoodLogStorageFunctions.ts:67 | the map column is null iff the object has no property |
| CassandraFoodLog.InsertedRow | server/src/storage/cassandra/FoodLogStorageFunctions.ts:59-70 | the inserted row's `timeStart`/`timeEnd` equal `time.start`/`time.end` |
| CassandraFoodLog.BuildSetList | server/src/storage/cassandra/FoodLogStorageFunctions.ts:129-143 | the `forEach` builds exactly the supplied fields' assignments in the order name, labels, time, metrics, with their values, as many values as assignments |
| CassandraFoodLog.SetListClosedForm | server/src/storage/cassandra/FoodLogStorageFunctions.ts:132-143 | the step-by-step SET list equals the field-by-field description |
| CassandraFoodLog.EditedRow | server/src/storage/cassandra/FoodLogStorageFunctions.ts:145-147 | the row an edit should leave keeps `timeStart`/`timeEnd` in step with `time` |
| CassandraFoodLog.BuiltSetListWritesEditedRow | server/src/storage/cassandra/FoodLogStorageFunctions.ts:132-152 | executing the built SET list writes exactly the supplied fields |
| CassandraFoodLog.CassandraFoodLogTable.constructor | server/src/storage/cassandra/index.ts:29 | the table starts empty and consistent |
| CassandraFoodLog.CassandraFoodLogTable.StoreFoodLog | server/src/storage/cassandra/FoodLogStorageFunctions.ts:48-75 | invalid: "Invalid Log Entry" before any execute; fault: system error; else the key's row becomes the inserted row and the fresh id is returned |
| CassandraFoodLog.CassandraFoodLogTable.RetrieveFoodLog | server/src/storage/cassandra/FoodLogStorageFunctions.ts:77-93 | answers the key's columns; "No Log with Id" iff no row has the key |
| CassandraFoodLog.CassandraFoodLogTable.QueryFoodLogs | server/src/storage/cassandra/FoodLogStorageFunctions.ts:96-116 | end < start is a validation error; else the user's rows with `timeStart <= end` and `timeEnd >= start` |
| CassandraFoodLog.CassandraFoodLogTable.EditFoodLog | server/src/storage/cassandra/FoodLogStorageFunctions.ts:119-157 | invalid: validation error; empty SET list: the statement is rejected; else the upsert runs and the answer is the follow-up retrieve |
| CassandraFoodLog.CassandraFoodLogTable.DeleteFoodLog | server/src/storage/cassandra/FoodLogStorageFunctions.ts:159-172 | the key's row is removed and `true` answered whether or not it existed |
| CassandraFoodLog.UpsertKeepsConsistency | server/src/storage/cassandra/FoodLogStorageFunctions.ts:136-141 | an edit's upsert never writes `time` without its duplicate columns |
| CassandraFoodLog.StoreThenRetrieve | server/src/storage/cassandra/FoodLogStorageFunctions.ts:53-89 | after a valid store the fresh id retrieves the entry's columns (labels as a set, metrics as a map, each null when empty), the duplicate columns repeat the bounds, and other rows are unchanged |
| CassandraFoodLog.StoredCollectionsRoundTrip | server/src/storage/cassandra/FoodLogStorageFunctions.ts:59-70 | non-empty labels and metrics come back with the same elements and keys, and each metric with its value (the last one given for its key) |
| CassandraFoodLog.MetricMapValues | server/src/storage/cassandra/FoodLogStorageFunctions.ts:67 | each key of the `map<text,int>` holds the value of the object's last property with that key |
| CassandraFoodLog.QueryIsOverlap | server/src/storage/cassandra/FoodLogStorageFunctions.ts:102-106 | the query answers exactly the user's rows whose time overlaps the window |
| CassandraFoodLog.EditThenRetrieve | server/src/storage/cassandra/FoodLogStorageFunctions.ts:145-153 | editing a stored key and retrieving it answers the old columns with the supplied fields replaced |
| CassandraFoodLog.EditOfMissingIdCreatesRow | server/src/storage/cassandra/FoodLogStorageFunctions.ts:145-153 | editing an id that was never stored creates a row with only the supplied name |
| CassandraFoodLog.EditWithOnlyIdHasEmptySetList | server/src/storage/cassandra/FoodLogStorageFunctions.ts:129-146 | an edit with only its id builds an empty SET list |
| CassandraFoodLog.PlaceholdersMatchArguments | server/src/storage/cassandra/FoodLogStorageFunctions.ts:145-152 | bound arguments are the SET values then userId and id, one per placeholder |
| CassandraFoodLog.TimeAssignmentsAdjacent | server/src/storage/cassandra/FoodLogStorageFunctions.ts:134-141 | `time = ?` is followed at once by `timeStart = ?` and `timeEnd = ?`, bound to its two bounds |
| CassandraFoodLog.DeleteThenNotFound | server/src/storage/cassandra/FoodLogStorageFunctions.ts:162-168 | after a delete the key is not found and every other row is kept |
| SqliteConfig.RowOf | server/src/storage/sqlite3/ConfigurationStorageFunctions.ts:19-25 | the row carries the user id and the configuration id |
| SqliteConfig.FirstWithKey | server/src/storage/sqlite3/ConfigurationStorageFunctions.ts:81-85 | `.first()` answers the first row with the key, or -1 iff none has it |
| SqliteConfig.DeleteWhere | server/src/storage/sqlite3/ConfigurationStorageFunctions.ts:48-51 | after the delete no row has the key and every row of another key remains |
| SqliteConfig.UserConfigs | server/src/storage/sqlite3/ConfigurationStorageFunctions.ts:65-68 | the query answers at most one configuration per row |
| SqliteConfig.SqliteConfigTable.constructor | server/src/storage/sqlite3/index.ts:29-34 | the table starts empty |
| SqliteConfig.SqliteConfigTable.StoreConfiguration | server/src/storage/sqlite3/ConfigurationStorageFunctions.ts:34-58 | user-id check, then configuration check; a delete fault changes nothing; an insert fault leaves the delete done; else the key's rows are replaced by one row and the id returned |
| SqliteConfig.SqliteConfigTable.QueryUserConfiguration | server/src/storage/sqlite3/ConfigurationStorageFunctions.ts:60-73 | the user's rows decoded, in storage order |
| SqliteConfig.SqliteConfigTable.RetrieveUserConfiguration | server/src/storage/sqlite3/ConfigurationStorageFunctions.ts:75-94 | decodes the first row with the key; not-found when none; the answer has the asked id |
| SqliteConfig.SqliteConfigTable.DeleteUserConfiguration | server/src/storage/sqlite3/ConfigurationStorageFunctions.ts:96-111 | the key's rows are removed and `true` answered |
| SqliteConfig.DecodedIdMatches | server/src/storage/sqlite3/ConfigurationStorageFunctions.ts:27-32 | a decoded configuration carries its row's id |
| SqliteConfig.StoreThenRetrieve | server/src/storage/sqlite3/ConfigurationStorageFunctions.ts:45-89 | storing then retrieving a configuration gives it back unchanged |
| SqliteConfig.StoreIsUpsert | server/src/storage/sqlite3/ConfigurationStorageFunctions.ts:48-53 | after a store exactly one row has the key and every row of another key is kept |
| SqliteConfig.DeleteThenNotFound | server/src/storage/sqlite3/ConfigurationStorageFunctions.ts:102-105 | after a delete the key retrieves as not found |
| SqliteConfig.FreshUserHasNoConfigs | server/src/storage/sqlite3/ConfigurationStorageFunctions.ts:65-68 | a user with no rows gets `[]` |
| SqliteConfig.QueryIsUserRows | server/src/storage/sqlite3/ConfigurationStorageFunctions.ts:65-68 | the query answers a configuration iff some row of the user decodes to it |
| SqliteConfig.UserIdCheckedFirst | server/src/storage/sqlite3/ConfigurationStorageFunctions.ts:39-44 | a falsy user id is reported even when the configuration is invalid too |
| CassandraConfig.CassandraConfigTable.constructor | server/src/storage/cassandra/index.ts:32 | the table starts empty |
| CassandraConfig.CassandraConfigTable.StoreConfiguration | server/src/storage/cassandra/ConfigurationStorageFunctions.ts:34-57 | the two checks in order; fault: system error, no change; else the key's row is written or replaced and the id returned |
| CassandraConfig.CassandraConfigTable.QueryUserConfiguration | server/src/storage/cassandra/ConfigurationStorageFunctions.ts:59-79 | every row of the user's partition, decoded |
| CassandraConfig.CassandraConfigTable.RetrieveUserConfiguration | server/src/storage/cassandra/ConfigurationStorageFunctions.ts:81-103 | decodes the key's row; "No Config Found" when absent; the answer has the asked id |
| CassandraConfig.CassandraConfigTable.DeleteUserConfiguration | server/src/storage/cassandra/ConfigurationStorageFunctions.ts:105-121 | the key's row is removed and `true` answered whether or not it existed |
| CassandraConfig.StoreThenRetrieve | server/src/storage/cassandra/ConfigurationStorageFunctions.ts:19-32 | storing then retrieving gives the configuration back; other keys keep their rows |
| CassandraConfig.SecondStoreReplacesFirst | server/src/storage/cassandra/ConfigurationStorageFunctions.ts:45-53 | a second store under the same key replaces the first, adding no key |
| CassandraConfig.DeleteThenNotFound | server/src/storage/cassandra/ConfigurationStorageFunctions.ts:93-95 | after a delete the key retrieves as "No Config Found" |
| CassandraConfig.QueryIsPartition | server/src/storage/cassandra/ConfigurationStorageFunctions.ts:64-75 | the query answers a configuration iff some row of the user's partition decodes to it |
| StorageSelection.SetupStorage | server/src/storage/index.ts:11-24 | the selected backend is an available one, and it is cassandra iff the provider is "cassandra" |
| StorageSelection.DefaultIsSqlite | server/src/storage/index.ts:16 | no provider selects sqlite3 |
| StorageSelection.OtherProvidersFallBack | server/src/storage/index.ts:18-22 | any provider other than "cassandra", including "neo4j" and "memory", selects sqlite3 |
| StorageSelection.SelectionCoversAvailable | server/src/storage/index.ts:11-14 | every selection is among `AVAILABLE_STORAGES`, and both entries can be selected |
| ApiFetch.RewriteUrl | webapp/src/lib/utilities/index.ts:8 | the sent URL starts with "/api" and is the input or "/api" + input |
| ApiFetch.ContentTypeFor | webapp/src/lib/utilities/index.ts:14-17 | the sent Content-Type is never empty |
| ApiFetch.RewriteInit | webapp/src/lib/utilities/index.ts:9-20 | an init is sent iff one was given |
| ApiFetch.ApiFetch | webapp/src/lib/utilities/index.ts:1-41 | the call's URL is the rewritten URL and its init the rewritten init, for both input shapes |
| ApiFetch.RewriteRule | webapp/src/lib/utilities/index.ts:8 | the URL comes back unchanged iff it starts with "/api" |
| ApiFetch.RewriteIdempotent | webapp/src/lib/utilities/index.ts:26 | rewriting twice is rewriting once |
| ApiFetch.RewriteKeepsRoute | webapp/src/lib/utilities/index.ts:8 | the original URL is the tail of the rewritten one |
| ApiFetch.PrefixTestIsTextual | webapp/src/lib/utilities/index.ts:8 | "/apiary" is left as it is |
| ApiFetch.ObjectInputKeepsProperties | webapp/src/lib/utilities/index.ts:23-27 | a request object keeps every other property; only its url is rewritten, like a string |
| ApiFetch.UndefinedInitPassesThrough | webapp/src/lib/utilities/index.ts:20 | an undefined init is sent as undefined |
| ApiFetch.InitGetsContentType | webapp/src/lib/utilities/index.ts:29-38 | a given init keeps its properties and headers; Content-Type keeps a truthy value, else becomes "application/json" |
| ApiFetch.RewriteExamples | webapp/src/lib/utilities/index.test.ts:7-20 | the routes of the unit test are rewritten as it expects |
| DailyCounts.AddKeys | server/utilities/dailycountsfromdump.js:15-19 | unseen keys are appended: the old list stays in front and the result holds exactly the old and new keys |
| DailyCounts.PushNewKeys | server/utilities/dailycountsfromdump.js:15-19 | the `includes`/`push` loop computes `AddKeys` |
| DailyCounts.AddToDay | server/utilities/dailycountsfromdump.js:20-27 | each metric's running total is increased by the record's value; new keys appear, none vanish |
| DailyCounts.Aggregate | server/utilities/dailycountsfromdump.js:12-32 | `knownmetrics` as specified, one total map per recorded day, each total the day's sum over its records |
| DailyCounts.TotalsStep | server/utilities/dailycountsfromdump.js:20-30 | one record's step of the `reduce` keeps every seen day's totals equal to its sums |
| DailyCounts.KeySumWithoutKey | server/utilities/dailycountsfromdump.js:75 | a key an object lacks contributes 0 |
| DailyCounts.DaySumWithoutDay | server/utilities/dailycountsfromdump.js:75 | a day with no record totals 0 for every metric |
| DailyCounts.MinDay | server/utilities/dailycountsfromdump.js:49 | the first day is a recorded day and no record is earlier |
| DailyCounts.MaxDay | server/utilities/dailycountsfromdump.js:51 | the last day is a recorded day and no record is later |
| DailyCounts.DatesBetween | server/utilities/dailycountsfromdump.js:53-69 | every day from first to last inclusive, consecutive, empty when first > last |
| DailyCounts.DayRowFor | server/utilities/dailycountsfromdump.js:73-75 | a row is the day followed by one count per known metric |
| DailyCounts.DailySummary | server/utilities/dailycountsfromdump.js:12-76 | no records: no output; else header `day, ...knownmetrics`, one row per day from first to last in strictly ascending order (so the final sort keeps them), each count the day's sum (0 when missing) |
| DailyCounts.KnownMetricsDistinct | server/utilities/dailycountsfromdump.js:16-18 | `knownmetrics` never repeats a name |
| DailyCounts.AddKeysKeepsDistinct | server/utilities/dailycountsfromdump.js:15-19 | appending unseen keys keeps the list duplicate-free |
| DailyCounts.KnownMetricsComplete | server/utilities/dailycountsfromdump.js:15-19 | a name is known iff some record has it |
| DailyCounts.KnownMetricsSnoc | server/utilities/dailycountsfromdump.js:12-19 | one more record extends `knownmetrics` by its unseen keys |
| DailyCounts.KnownMetricsPrefixStable | server/utilities/dailycountsfromdump.js:15-19 | first-seen order: names known earlier stay, in place, at the front |
| DailyCounts.EveryRecordDayCovered | server/utilities/dailycountsfromdump.js:49-51 | every record's day lies within the output range |
| ExportCsv.ExportRow | server/utilities/dedupeanddeemoji.js:37-44 | six cells in header order: id, name, labels, timeStart, timeEnd, metrics |
| ExportCsv.ExportRowRoundTrip | server/utilities/dedupeanddeemoji.js:29-44 | reading the cells back under the header gives the log again |
| ExportCsv.ExportRows | server/utilities/mfp_converter.js:44-51 | one line per log, in order |
| Dedupe.FindSame | server/utilities/dedupeanddeemoji.js:18-20 | the first kept row with the same name, start and end, or -1 iff none |
| Dedupe.DedupeRows | server/utilities/dedupeanddeemoji.js:15-23 | the loop computes the kept rows, no more rows than the input |
| Dedupe.EntryCovered | server/utilities/dedupeanddeemoji.js:18-21 | every emoji-free input row has its entry among the kept rows |
| Dedupe.KeptCharacterised | server/utilities/dedupeanddeemoji.js:15-23 | the kept rows are, in input order and with their own ids, exactly the first emoji-free row of each entry |
| Dedupe.KeptEntriesDistinct | server/utilities/dedupeanddeemoji.js:18-20 | no two kept rows share name, start and end |
| Dedupe.KeptHaveNoEmoji | server/utilities/dedupeanddeemoji.js:20 | no kept row's name contains an emoji |
| Dedupe.DedupedFile | server/utilities/dedupeanddeemoji.js:28-46 | header, then one six-cell line per kept row that reads back as that row |
| Dedupe.LaterDuplicateDropped | server/utilities/dedupeanddeemoji.js:16-21 | of two rows of one entry, the first is kept with its own id and the second dropped |
| MfpConverter.KnownMealsExact | server/utilities/mfp_converter.js:17-24 | the table has an entry for exactly the six known meals |
| MfpConverter.Convert | server/utilities/mfp_converter.js:14-33 | id is the drawn one, name the meal, labels empty, both times start with the record's date |
| MfpConverter.CaloriesRoundTrip | server/utilities/mfp_converter.js:31 | metrics is `{"calories":` + Calories + `}`, and the calories read back verbatim |
| MfpConverter.KnownMealUsesTable | server/utilities/mfp_converter.js:29-30 | a known meal's times are the date plus the table's suffixes |
| MfpConverter.UnknownMealUsesDefault | server/utilities/mfp_converter.js:15-16 | any other meal gets the date plus T12:15 and T12:30 |
| MfpConverter.ClockOrderIsTimeOrder | server/utilities/mfp_converter.js:15-24 | on clock suffixes, string order is time order |
| MfpConverter.BreakfastQuarterHour | server/utilities/mfp_converter.js:18 | Breakfast ends 15 minutes after it starts |
| MfpConverter.MidMorningSnacksQuarterHour | server/utilities/mfp_converter.js:19 | Mid-morning Snacks end 15 minutes after they start |
| MfpConverter.LunchQuarterHour | server/utilities/mfp_converter.js:20 | Lunch ends 15 minutes after it starts |
| MfpConverter.MidAfternoonSnacksQuarterHour | server/utilities/mfp_converter.js:21 | Mid Afternoon Snacks end 15 minutes after they start |
| MfpConverter.DinnerQuarterHour | server/utilities/mfp_converter.js:22 | Dinner ends 15 minutes after it starts |
| MfpConverter.EveningSnacksQuarterHour | server/utilities/mfp_converter.js:23 | Evening Snacks end 15 minutes after they start |
| MfpConverter.DefaultQuarterHour | server/utilities/mfp_converter.js:15-16 | the default times are 15 minutes apart |
| MfpConverter.MealTimesQuarterHour | server/utilities/mfp_converter.js:15-24 | every suffix pair used is two clock times 15 minutes apart |
| MfpConverter.ConvertedTimesOrdered | server/utilities/mfp_converter.js:29-30 | every log ends 15 minutes after it starts on the same date, so end sorts after start |
| MfpConverter.ConvertAll | server/utilities/mfp_converter.js:44 | one log per record, in order |
| MfpConverter.ConvertedFile | server/utilities/mfp_converter.js:36-51 | header, then one six-cell line per record with its id, meal, empty labels and date |
| MfpConverter.ConvertedFileCells | server/utilities/mfp_converter.js:36-51 | each line after the header is the export line of its record's conversion: id, meal, empty labels, the meal's start and end times on the record's date, and the calories metric |

## Left out

- File reads and writes, CSV quoting and parsing (csv-parse, csv-stringify), `TEMP_DIR` and the export file name: the scripts and the export are modelled on parsed rows and output cells.
- JSON text: `JSON.stringify`/`JSON.parse` work on an abstract JSON tree, so string escaping and number formatting are not modelled.
- `crypto.randomUUID()` is a fresh-id argument; nothing guarantees it differs from the ids already stored, so lemmas that need an unused id say so.
- JavaScript `Date`: parsing, time zones, `toISOString` and the local-time `setDate` step of `getDatesBetween`, including daylight-saving days. Food-log times are milliseconds and script days are day numbers.
- The emoji test is an argument of the dedupe model; the Unicode property regex itself is not modelled.
- Cassandra typing: 32-bit `int` metric values, UUID typing of `id`, and the `logTimes` user type are not modelled.
- Cassandra row liveness: an `UPDATE` of a key with no row creates one only when some column ends up non-null; a row that an `UPDATE` created and whose columns all become null again is kept, and tombstones and write timestamps are not modelled.
- Cassandra and configuration query order: results are sets, because the clustering order of a partition is not modelled.
- Driver and knex lifecycle, DDL, migrations and connection handling (`setupDatabase`, `shutdownDatabase`, `migrations.ts`).
- The neo4j adapters, which are not part of this model.
- Express handlers and middleware, apart from the error-to-status map.
- Console logging in the scripts and adapters.
- `apiFetch`'s response: the promise `fetchFn` returns is not modelled, only the arguments it is called with.
- Meal names that are properties of `Object.prototype` (such as "constructor"): the table lookup in the converter would find them; the model treats them as unknown meals.
- Missing CSV columns: every parsed row is assumed to have the columns the scripts read.
- A daily-counts input with no records: the script fails on the first exported row; the model answers `None` instead.
- The in-memory and Cassandra adapters carry private copies of the two food-log validators with the same conjuncts; the model uses the one shared pair of predicates.
- `NotFoundError`, `SystemError` and the `errorType` tag are defined in `server/src/storage/types/index.ts`, which is not part of this model; their shape is taken from how the handlers use them.
- The `apiFetch` unit test (webapp/src/lib/utilities/index.test.ts:22-30) expects a given `init` to be passed on unchanged, but the code adds a `Content-Type` header; the model follows the code.
- CassandraFoodLog.CassandraFoodLogTable.EditFoodLog: an edit whose SET list is empty is a statement cassandra rejects; the model answers a system error with the rejection message as an argument, without modelling CQL parsing.
- SqliteFoodLog.MillisOfSeconds: proved over exact reals. The source computes `getTime() / 1000` and `time_start * 1000` in IEEE doubles, and `new Date(x)` truncates. So a stored time can read back one millisecond early: 1073741824001 ms is stored as 1073741824.001 s, which times 1000 is 1073741824000.9999 in doubles, read back as 1073741824000 ms.
- SqliteFoodLog.RowRoundTrip: exact on time only over reals, for the reason given for `MillisOfSeconds`.
- SqliteFoodLog.StoreThenRetrieve: the retrieved times equal the stored ones only over reals, for the reason given for `MillisOfSeconds`.
- SqliteFoodLog.EditThenRetrieve: the retrieved times equal the edited ones only over reals, for the reason given for `MillisOfSeconds`.
- SqliteFoodLog.ExportRow: the ISO cells hold the read-back milliseconds (`ExportRowCells`). So they inherit the double rounding described for `MillisOfSeconds`, and so does `ExportOfStoredEntry`.
- SqliteFoodLog.SqliteFoodLogTable.EditFoodLog: the empty-update refusal comes from the query builder (knex), which is not part of this model; its message is the `emptyUpdate` argument.
- FoodLogTypes.MetricValue: metric values are integers. JavaScript numbers are doubles, so fractional values such as 12.5 are not modelled. `isNaN` also accepts numeric strings such as "5", which the model does not represent.
- DailyCounts.DumpRecord: metric values are integers and `DaySum` adds them exactly. The script's `+=` adds doubles, which round, and it concatenates when a value is a numeric string.
- MemoryFoodLog.MemoryFoodLogStore: entries are values. The source stores and returns the objects themselves, and `{...logEntry, id}` shares the caller's labels, metrics and time objects. So a caller that mutates a retrieved entry or its input changes the store without validation, as the integration test does before it edits. Aliasing is not modelled.
