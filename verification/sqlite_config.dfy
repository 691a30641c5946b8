/**
 * The sqlite configuration adapter over table `user_config`: one row per
 * stored configuration, holding the user, the configuration id and the value
 * serialised to JSON. The table is a sequence of rows in storage order. A
 * datastore exception is a `fault` argument: the statement it interrupts has
 * no effect and the call fails with a system error carrying the message.
 */
module SqliteConfig {
  import opened Wrappers
  import opened Json
  import opened StorageErrors
  import opened ConfigTypes
  import opened ConfigValidation

  datatype ConfigRow = ConfigRow(user_id: string, id: string, serialised_value: Json)

  /** `sqlFromGeneral` */
  function RowOf(userId: string, c: Configuration): (row: ConfigRow)
    ensures row.user_id == userId && row.id == Id(c)
  {
    ConfigRow(userId, Id(c), EncodeValue(c))
  }

  /** `generalFromSql`: the value parsed back under the stored id; `None` when it has the wrong shape. */
  function ConfigOf(row: ConfigRow): Option<Configuration> {
    DecodeConfiguration(row.id, row.serialised_value)
  }

  predicate RowDecodes(row: ConfigRow) {
    ConfigOf(row).Some?
  }

  predicate AllRowsDecode(rows: seq<ConfigRow>) {
    forall k :: 0 <= k < |rows| ==> RowDecodes(rows[k])
  }

  predicate HasKey(row: ConfigRow, userId: string, id: string) {
    row.user_id == userId && row.id == id
  }

  /** `.where("user_id").andWhere("id").first()`: the first row with the key, or -1. */
  function FirstWithKey(rows: seq<ConfigRow>, userId: string, id: string): (r: int)
    ensures -1 <= r < |rows|
    ensures r >= 0 ==> HasKey(rows[r], userId, id) && forall k :: 0 <= k < r ==> !HasKey(rows[k], userId, id)
    ensures r == -1 <==> forall k :: 0 <= k < |rows| ==> !HasKey(rows[k], userId, id)
  {
    if rows == [] then -1
    else if HasKey(rows[0], userId, id) then 0
    else var r := FirstWithKey(rows[1..], userId, id); if r == -1 then -1 else r + 1
  }

  /** `.delete().where("user_id").andWhere("id")`: every row with the key goes, the rest keep their order. */
  function DeleteWhere(rows: seq<ConfigRow>, userId: string, id: string): (r: seq<ConfigRow>)
    ensures |r| <= |rows|
    ensures forall k :: 0 <= k < |r| ==> !HasKey(r[k], userId, id) && r[k] in rows
    ensures forall k :: 0 <= k < |rows| && !HasKey(rows[k], userId, id) ==> rows[k] in r
  {
    if rows == [] then []
    else (if HasKey(rows[0], userId, id) then [] else [rows[0]]) + DeleteWhere(rows[1..], userId, id)
  }

  /** The user's rows decoded, in storage order. */
  function UserConfigs(rows: seq<ConfigRow>, userId: string): (r: seq<Configuration>)
    requires AllRowsDecode(rows)
    ensures |r| <= |rows|
  {
    if rows == [] then []
    else (if rows[0].user_id == userId then [ConfigOf(rows[0]).value] else []) + UserConfigs(rows[1..], userId)
  }

  function RetrieveResult(rows: seq<ConfigRow>, userId: string, id: string, fault: Option<string>): Result<Configuration>
    requires AllRowsDecode(rows)
  {
    if fault.Some? then Err(SystemError(fault.value))
    else
      var k := FirstWithKey(rows, userId, id);
      if k == -1 then Err(NotFoundError("Log not found")) else Ok(ConfigOf(rows[k]).value)
  }

  class SqliteConfigTable {
    var rows: seq<ConfigRow>

    ghost predicate Valid()
      reads this
    {
      AllRowsDecode(rows)
    }

    constructor ()
      ensures Valid() && rows == []
    {
      rows := [];
    }

    /**
     * `storeConfiguration`: the two checks, then delete-then-insert. A fault
     * in the delete leaves the table as it was; a fault in the insert comes
     * after the delete has already removed the key's rows.
     */
    method StoreConfiguration(userId: Option<string>, configuration: Configuration, deleteFault: Option<string>, insertFault: Option<string>)
      returns (r: Result<string>)
      requires Valid()
      modifies this
      ensures Valid()
      ensures StoreRejection(userId, configuration).Some? ==>
                r == Err(StoreRejection(userId, configuration).value) && rows == old(rows)
      ensures StoreRejection(userId, configuration).None? && deleteFault.Some? ==>
                r == Err(SystemError(deleteFault.value)) && rows == old(rows)
      ensures StoreRejection(userId, configuration).None? && deleteFault.None? && insertFault.Some? ==>
                r == Err(SystemError(insertFault.value))
                && rows == DeleteWhere(old(rows), userId.value, Id(configuration))
      ensures StoreRejection(userId, configuration).None? && deleteFault.None? && insertFault.None? ==>
                r == Ok(Id(configuration))
                && rows == DeleteWhere(old(rows), userId.value, Id(configuration)) + [RowOf(userId.value, configuration)]
    {
      var rejection := StoreRejection(userId, configuration);
      if rejection.Some? {
        return Err(rejection.value);
      }
      var insertEntry := RowOf(userId.value, configuration);
      if deleteFault.Some? {
        return Err(SystemError(deleteFault.value));
      }
      rows := DeleteWhere(rows, userId.value, Id(configuration));
      if insertFault.Some? {
        return Err(SystemError(insertFault.value));
      }
      AcceptedHasKnownId(userId, configuration);
      ConfigurationRoundTrip(configuration);
      rows := rows + [insertEntry];
      r := Ok(insertEntry.id);
    }

    method QueryUserConfiguration(userId: string, fault: Option<string>) returns (r: Result<seq<Configuration>>)
      requires Valid()
      ensures fault.Some? ==> r == Err(SystemError(fault.value))
      ensures fault.None? ==> r == Ok(UserConfigs(rows, userId))
    {
      if fault.Some? {
        return Err(SystemError(fault.value));
      }
      r := Ok(UserConfigs(rows, userId));
    }

    method RetrieveUserConfiguration(userId: string, configurationId: string, fault: Option<string>)
      returns (r: Result<Configuration>)
      requires Valid()
      ensures r == RetrieveResult(rows, userId, configurationId, fault)
      ensures r.Ok? ==> Id(r.value) == configurationId
    {
      if fault.Some? {
        return Err(SystemError(fault.value));
      }
      var k := FirstWithKey(rows, userId, configurationId);
      if k == -1 {
        return Err(NotFoundError("Log not found"));
      }
      r := Ok(ConfigOf(rows[k]).value);
    }

    method DeleteUserConfiguration(userId: string, configurationId: string, fault: Option<string>) returns (r: Result<bool>)
      requires Valid()
      modifies this
      ensures Valid()
      ensures fault.Some? ==> r == Err(SystemError(fault.value)) && rows == old(rows)
      ensures fault.None? ==> r == Ok(true) && rows == DeleteWhere(old(rows), userId, configurationId)
    {
      if fault.Some? {
        return Err(SystemError(fault.value));
      }
      rows := DeleteWhere(rows, userId, configurationId);
      r := Ok(true);
    }
  }

  /** A decoded row's configuration carries the row's id (an unknown id decodes to the catch-all variant). */
  lemma DecodedIdMatches(row: ConfigRow)
    requires RowDecodes(row)
    ensures Id(ConfigOf(row).value) == row.id
  {
  }

  /** Storing and then retrieving a configuration gives it back unchanged. */
  lemma StoreThenRetrieve(rows: seq<ConfigRow>, userId: string, c: Configuration)
    requires AllRowsDecode(rows) && StoreRejection(Some(userId), c).None?
    ensures var after := DeleteWhere(rows, userId, Id(c)) + [RowOf(userId, c)];
            AllRowsDecode(after) && RetrieveResult(after, userId, Id(c), None) == Ok(c)
  {
    var cleared := DeleteWhere(rows, userId, Id(c));
    var after := cleared + [RowOf(userId, c)];
    AcceptedHasKnownId(Some(userId), c);
    ConfigurationRoundTrip(c);
    assert after[|cleared|] == RowOf(userId, c);
    assert forall k :: 0 <= k < |cleared| ==> after[k] == cleared[k];
  }

  /** After a store exactly one row has the key, and the rows of every other key are kept in order. */
  lemma StoreIsUpsert(rows: seq<ConfigRow>, userId: string, c: Configuration)
    ensures var after := DeleteWhere(rows, userId, Id(c)) + [RowOf(userId, c)];
            && (forall k :: 0 <= k < |after| && HasKey(after[k], userId, Id(c)) ==> k == |after| - 1)
            && HasKey(after[|after| - 1], userId, Id(c))
            && (forall row :: row in rows && !HasKey(row, userId, Id(c)) ==> row in after)
  {
  }

  /** After a delete the key retrieves as not found. */
  lemma DeleteThenNotFound(rows: seq<ConfigRow>, userId: string, id: string)
    requires AllRowsDecode(rows)
    ensures AllRowsDecode(DeleteWhere(rows, userId, id))
    ensures RetrieveResult(DeleteWhere(rows, userId, id), userId, id, None) == Err(NotFoundError("Log not found"))
  {
  }

  /** A user with no rows gets the empty list. */
  lemma {:induction false} FreshUserHasNoConfigs(rows: seq<ConfigRow>, userId: string)
    requires AllRowsDecode(rows)
    requires forall k :: 0 <= k < |rows| ==> rows[k].user_id != userId
    ensures UserConfigs(rows, userId) == []
  {
    if rows != [] {
      FreshUserHasNoConfigs(rows[1..], userId);
    }
  }

  /** The query answers a configuration exactly when some row of the user decodes to it. */
  lemma {:induction false} QueryIsUserRows(rows: seq<ConfigRow>, userId: string, c: Configuration)
    requires AllRowsDecode(rows)
    ensures c in UserConfigs(rows, userId) <==>
              exists k :: 0 <= k < |rows| && rows[k].user_id == userId && ConfigOf(rows[k]) == Some(c)
  {
    if rows != [] {
      QueryIsUserRows(rows[1..], userId, c);
      if exists k :: 0 <= k < |rows| && rows[k].user_id == userId && ConfigOf(rows[k]) == Some(c) {
        var k :| 0 <= k < |rows| && rows[k].user_id == userId && ConfigOf(rows[k]) == Some(c);
        if k > 0 { assert rows[1..][k - 1] == rows[k]; }
      }
      forall k | 1 <= k < |rows| ensures rows[k] == rows[1..][k - 1] { }
    }
  }

  /** The user id is checked before the configuration: a falsy id wins even over an invalid configuration. */
  lemma UserIdCheckedFirst(c: Configuration)
    requires !IsValidConfigurationItem(c)
    ensures StoreRejection(None, c) == Some(ValidationError("Invalid user id"))
    ensures StoreRejection(Some(""), c) == Some(ValidationError("Invalid user id"))
    ensures StoreRejection(Some("user"), c) == Some(ValidationError("Error with Configuration"))
  {
  }
}
