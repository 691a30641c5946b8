/**
 * The in-memory food-log adapter. `MEMORY_STORAGE` maps a user id to that
 * user's entries in insertion order and is changed in place: `push` on store,
 * slot assignment on edit, `splice` on delete. This adapter differs from the
 * database ones: its query keeps entries CONTAINED in the window, deleting an
 * absent id answers `false`, and edit reports a missing id itself.
 */
module MemoryFoodLog {
  import opened Wrappers
  import opened FoodLogTypes
  import opened FoodLogValidation
  import opened StorageErrors
  import opened FilterOrder

  type Storage = map<string, seq<FoodLogEntry>>

  /** `MEMORY_STORAGE[userId] ?? []` */
  function UserLogs(st: Storage, user: string): seq<FoodLogEntry> {
    if user in st then st[user] else []
  }

  /** `findIndex(x => x.id === id)`: the first position holding `id`, or -1. */
  function IndexOf(s: seq<FoodLogEntry>, id: string): (r: int)
    ensures -1 <= r < |s|
    ensures r >= 0 ==> s[r].id == id && forall k :: 0 <= k < r ==> s[k].id != id
    ensures r == -1 <==> forall k :: 0 <= k < |s| ==> s[k].id != id
  {
    if s == [] then -1
    else if s[0].id == id then 0
    else var r := IndexOf(s[1..], id); if r == -1 then -1 else r + 1
  }

  /** Entries of `s` contained in [start, end], in list order (`filter`). */
  function ContainedEntries(s: seq<FoodLogEntry>, start: int, end: int): (r: seq<FoodLogEntry>)
    ensures |r| <= |s|
  {
    if s == [] then []
    else (if ContainedIn(s[0], start, end) then [s[0]] else []) + ContainedEntries(s[1..], start, end)
  }

  /** The state after a successful store: the new entry appended to the user's list. */
  function StoredState(st: Storage, user: string, e: CreateFoodLogEntry, id: string): Storage
    requires IsValidCreateLogEntry(e)
  {
    st[user := UserLogs(st, user) + [EntryOf(e, id)]]
  }

  /** What `retrieveFoodLog` answers in state `st`. */
  function RetrieveResult(st: Storage, user: string, id: string): Result<FoodLogEntry> {
    var i := IndexOf(UserLogs(st, user), id);
    if i == -1 then Err(NotFoundError("No Log Found")) else Ok(UserLogs(st, user)[i])
  }

  /** What `queryFoodLogs` answers in state `st`. */
  function QueryResult(st: Storage, user: string, start: int, end: int): Result<seq<FoodLogEntry>> {
    if end < start then Err(ValidationError("startDate is after endDate"))
    else if user !in st then Ok([])
    else Ok(ContainedEntries(st[user], start, end))
  }

  /** The state after a successful edit of the entry at position `i`. */
  function EditedState(st: Storage, user: string, i: nat, edit: EditFoodLogEntry): Storage
    requires user in st && i < |st[user]| && IsValidEditLogEntry(edit)
  {
    st[user := st[user][i := Merge(st[user][i], edit)]]
  }

  /** The state after removing position `i` (`splice(i, 1)`). */
  function DeletedState(st: Storage, user: string, i: nat): Storage
    requires user in st && i < |st[user]|
  {
    st[user := st[user][..i] + st[user][i + 1..]]
  }

  /** Every stored entry has end >= start and numeric metrics. */
  predicate AllWellFormed(st: Storage) {
    forall u, k :: u in st && 0 <= k < |st[u]| ==> WellFormed(st[u][k])
  }

  /** No user's list holds the same id twice. */
  predicate UniqueIds(st: Storage) {
    forall u, i, j :: u in st && 0 <= i < j < |st[u]| ==> st[u][i].id != st[u][j].id
  }

  class MemoryFoodLogStore {
    var storage: Storage

    /**
     * Every stored entry has its start at or before its end and no NaN metric. Each method keeps
     * this invariant; the results the methods promise do not depend on it.
     */
    ghost predicate Valid()
      reads this
    {
      AllWellFormed(storage)
    }

    constructor ()
      ensures Valid() && storage == map[]
    {
      storage := map[];
    }

    /** `storeFoodLog`; `freshId` stands for `crypto.randomUUID()`. */
    method StoreFoodLog(userId: string, logEntry: CreateFoodLogEntry, freshId: string) returns (r: Result<string>)
      requires Valid()
      modifies this
      ensures Valid()
      ensures !IsValidCreateLogEntry(logEntry) ==>
                r == Err(ValidationError("Invalid Log Entry")) && storage == old(storage)
      ensures IsValidCreateLogEntry(logEntry) ==>
                r == Ok(freshId) && storage == StoredState(old(storage), userId, logEntry, freshId)
    {
      if !IsValidCreateLogEntry(logEntry) {
        return Err(ValidationError("Invalid Log Entry"));
      }
      var newItem := EntryOf(logEntry, freshId);
      if userId in storage {
        storage := storage[userId := storage[userId] + [newItem]];
      } else {
        assert UserLogs(storage, userId) + [newItem] == [newItem];
        storage := storage[userId := [newItem]];
      }
      r := Ok(freshId);
    }

    method RetrieveFoodLog(userId: string, logId: string) returns (r: Result<FoodLogEntry>)
      ensures r == RetrieveResult(storage, userId, logId)
      ensures r.Ok? ==> r.value.id == logId && r.value in UserLogs(storage, userId)
      ensures r.Err? <==> logId !in Ids(UserLogs(storage, userId))
    {
      var logs := if userId in storage then storage[userId] else [];
      var i := IndexOf(logs, logId);
      if i == -1 {
        r := Err(NotFoundError("No Log Found"));
      } else {
        r := Ok(logs[i]);
      }
    }

    method QueryFoodLogs(userId: string, startDate: int, endDate: int) returns (r: Result<seq<FoodLogEntry>>)
      ensures r == QueryResult(storage, userId, startDate, endDate)
      ensures r.Err? <==> endDate < startDate
    {
      if endDate < startDate {
        return Err(ValidationError("startDate is after endDate"));
      }
      if userId !in storage {
        return Ok([]);
      }
      r := Ok(ContainedEntries(storage[userId], startDate, endDate));
    }

    method EditFoodLog(userId: string, logEntry: EditFoodLogEntry) returns (r: Result<FoodLogEntry>)
      requires Valid()
      modifies this
      ensures Valid()
      ensures !IsValidEditLogEntry(logEntry) ==>
                r == Err(ValidationError("Invalid Log Entry")) && storage == old(storage)
      ensures IsValidEditLogEntry(logEntry) && IndexOf(UserLogs(old(storage), userId), logEntry.id.value) == -1 ==>
                r == Err(NotFoundError("No Log Found")) && storage == old(storage)
      ensures IsValidEditLogEntry(logEntry) && IndexOf(UserLogs(old(storage), userId), logEntry.id.value) != -1 ==>
                var i := IndexOf(old(storage)[userId], logEntry.id.value);
                && storage == EditedState(old(storage), userId, i, logEntry)
                && r == Ok(Merge(old(storage)[userId][i], logEntry))
    {
      if !IsValidEditLogEntry(logEntry) {
        return Err(ValidationError("Invalid Log Entry"));
      }
      var logs := if userId in storage then storage[userId] else [];
      var i := IndexOf(logs, logEntry.id.value);
      if i == -1 {
        return Err(NotFoundError("No Log Found"));
      }
      var merged := Merge(logs[i], logEntry);
      MergePreservesWellFormed(logs[i], logEntry);
      storage := storage[userId := logs[i := merged]];
      r := Ok(merged);
    }

    method DeleteFoodLog(userId: string, logId: string) returns (r: Result<bool>)
      requires Valid()
      modifies this
      ensures Valid()
      ensures IndexOf(UserLogs(old(storage), userId), logId) == -1 ==> r == Ok(false) && storage == old(storage)
      ensures IndexOf(UserLogs(old(storage), userId), logId) != -1 ==>
                r == Ok(true) &&
                storage == DeletedState(old(storage), userId, IndexOf(old(storage)[userId], logId))
    {
      var logs := if userId in storage then storage[userId] else [];
      var i := IndexOf(logs, logId);
      if i == -1 {
        return Ok(false);
      }
      storage := storage[userId := logs[..i] + logs[i + 1..]];
      r := Ok(true);
    }
  }

  /** Storing leaves every other user's list untouched and appends exactly one entry. */
  lemma StoreTouchesOnlyItsUser(st: Storage, user: string, e: CreateFoodLogEntry, id: string, other: string)
    requires IsValidCreateLogEntry(e) && other != user
    ensures UserLogs(StoredState(st, user, e, id), other) == UserLogs(st, other)
    ensures UserLogs(StoredState(st, user, e, id), user) == UserLogs(st, user) + [EntryOf(e, id)]
  {
  }

  /** After a store with an unused id, retrieving that id gives `{id, ...input}`. */
  lemma StoreThenRetrieve(st: Storage, user: string, e: CreateFoodLogEntry, id: string)
    requires IsValidCreateLogEntry(e)
    requires id !in Ids(UserLogs(st, user))
    ensures RetrieveResult(StoredState(st, user, e, id), user, id) == Ok(EntryOf(e, id))
  {
    var before := UserLogs(st, user);
    var after := before + [EntryOf(e, id)];
    assert UserLogs(StoredState(st, user, e, id), user) == after;
    assert forall k :: 0 <= k < |before| ==> before[k].id == Ids(before)[k];
    assert after[|before|].id == id;
  }

  /** An id absent from the user's list is not found. */
  lemma UnknownIdNotFound(st: Storage, user: string, id: string)
    requires id !in Ids(UserLogs(st, user))
    ensures RetrieveResult(st, user, id) == Err(NotFoundError("No Log Found"))
  {
    var s := UserLogs(st, user);
    assert forall k :: 0 <= k < |s| ==> s[k].id == Ids(s)[k];
  }

  /** A store with an unused id keeps the ids unique and every entry well-formed. */
  lemma StorePreservesInvariants(st: Storage, user: string, e: CreateFoodLogEntry, id: string)
    requires IsValidCreateLogEntry(e) && UniqueIds(st) && AllWellFormed(st)
    requires id !in Ids(UserLogs(st, user))
    ensures UniqueIds(StoredState(st, user, e, id)) && AllWellFormed(StoredState(st, user, e, id))
  {
    var before := UserLogs(st, user);
    assert forall k :: 0 <= k < |before| ==> before[k].id == Ids(before)[k];
  }

  /** The query keeps exactly the user's entries contained in the window. */
  lemma {:induction false} ContainedEntriesExact(s: seq<FoodLogEntry>, start: int, end: int, x: FoodLogEntry)
    ensures x in ContainedEntries(s, start, end) <==> x in s && ContainedIn(x, start, end)
  {
    if s != [] {
      ContainedEntriesExact(s[1..], start, end, x);
      assert s == [s[0]] + s[1..];
    }
  }

  /** The query answers the contained entries in list order: `idx` says where each comes from. */
  lemma {:induction false} ContainedEntriesInOrder(s: seq<FoodLogEntry>, start: int, end: int) returns (idx: seq<nat>)
    ensures |idx| == |ContainedEntries(s, start, end)|
    ensures forall k :: 0 <= k < |idx| ==> idx[k] < |s| && ContainedEntries(s, start, end)[k] == s[idx[k]]
    ensures forall k, l :: 0 <= k < l < |idx| ==> idx[k] < idx[l]
    ensures forall i :: 0 <= i < |s| ==> (i in idx <==> ContainedIn(s[i], start, end))
  {
    if s == [] {
      return [];
    }
    var rest := ContainedEntriesInOrder(s[1..], start, end);
    var keep := ContainedIn(s[0], start, end);
    PrependPlaces(s, keep, ContainedEntries(s[1..], start, end), rest);
    idx := PrependIndex(keep, rest);
    forall i | 1 <= i < |s| ensures (i in idx <==> ContainedIn(s[i], start, end)) {
      assert s[1..][i - 1] == s[i];
      PrependMembership(keep, rest, i);
    }
  }

  /** An unknown user gets an empty answer; disordered bounds are a validation error. */
  lemma QueryEdgeCases(st: Storage, user: string, start: int, end: int)
    ensures end < start ==> QueryResult(st, user, start, end) == Err(ValidationError("startDate is after endDate"))
    ensures start <= end && user !in st ==> QueryResult(st, user, start, end) == Ok([])
  {
  }

  /** An entry that only overlaps the window is not returned by this adapter. */
  lemma QueryIgnoresPartialOverlap(st: Storage, user: string, start: int, end: int, x: FoodLogEntry)
    requires start <= end && user in st && x in st[user]
    requires x.time.start < start <= x.time.end
    ensures QueryResult(st, user, start, end).Ok?
    ensures x !in QueryResult(st, user, start, end).value
  {
    ContainedEntriesExact(st[user], start, end, x);
  }

  /** An edit changes only the addressed slot: length, positions and other users stay. */
  lemma EditTouchesOnlyItsSlot(st: Storage, user: string, i: nat, edit: EditFoodLogEntry, other: string, k: nat)
    requires user in st && i < |st[user]| && IsValidEditLogEntry(edit)
    ensures |EditedState(st, user, i, edit)[user]| == |st[user]|
    ensures k < |st[user]| && k != i ==> EditedState(st, user, i, edit)[user][k] == st[user][k]
    ensures other != user ==> UserLogs(EditedState(st, user, i, edit), other) == UserLogs(st, other)
  {
  }

  /**
   * With unique ids, deleting an entry makes it unfindable, so a second delete
   * of the same id answers `false`.
   */
  lemma DeleteThenNotFound(st: Storage, user: string, id: string)
    requires UniqueIds(st)
    requires IndexOf(UserLogs(st, user), id) != -1
    ensures var after := DeletedState(st, user, IndexOf(st[user], id));
            && RetrieveResult(after, user, id) == Err(NotFoundError("No Log Found"))
            && IndexOf(UserLogs(after, user), id) == -1
  {
    var s := st[user];
    var i := IndexOf(s, id);
    var t := s[..i] + s[i + 1..];
    forall k | 0 <= k < |t| ensures t[k].id != id {
      if k < i { assert t[k] == s[k]; } else { assert t[k] == s[k + 1]; }
    }
  }

  /** A successful delete removes exactly one entry, keeping the order of the rest. */
  lemma DeleteRemovesOne(st: Storage, user: string, i: nat)
    requires user in st && i < |st[user]|
    ensures |DeletedState(st, user, i)[user]| == |st[user]| - 1
    ensures forall k :: 0 <= k < i ==> DeletedState(st, user, i)[user][k] == st[user][k]
    ensures forall k :: i <= k < |st[user]| - 1 ==> DeletedState(st, user, i)[user][k] == st[user][k + 1]
  {
  }
}
