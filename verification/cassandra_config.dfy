/**
 * The cassandra configuration adapter over `openfooddiary.user_config`,
 * whose primary key is `((user_id), id)`: at most one row per pair, so an
 * `INSERT` of an existing pair replaces it. The table maps each key to the
 * serialised value. A driver exception is the `fault` argument: the call
 * fails with a system error carrying that message and the table is unchanged.
 */
module CassandraConfig {
  import opened Wrappers
  import opened Json
  import opened StorageErrors
  import opened ConfigTypes
  import opened ConfigValidation

  type Key = (string, string)

  /** `generalFromSql` of the row stored under `key`. */
  function ConfigAt(rows: map<Key, Json>, key: Key): Option<Configuration>
    requires key in rows
  {
    DecodeConfiguration(key.1, rows[key])
  }

  predicate AllRowsDecode(rows: map<Key, Json>) {
    forall key :: key in rows ==> ConfigAt(rows, key).Some?
  }

  function RetrieveResult(rows: map<Key, Json>, userId: string, id: string, fault: Option<string>): Result<Configuration>
    requires AllRowsDecode(rows)
  {
    if fault.Some? then Err(SystemError(fault.value))
    else if (userId, id) !in rows then Err(NotFoundError("No Config Found"))
    else Ok(ConfigAt(rows, (userId, id)).value)
  }

  /** Every row of the user's partition, decoded; the partition's order is not modelled. */
  function UserConfigs(rows: map<Key, Json>, userId: string): set<Configuration>
    requires AllRowsDecode(rows)
  {
    set key | key in rows && key.0 == userId :: ConfigAt(rows, key).value
  }

  class CassandraConfigTable {
    var rows: map<Key, Json>

    ghost predicate Valid()
      reads this
    {
      AllRowsDecode(rows)
    }

    constructor ()
      ensures Valid() && rows == map[]
    {
      rows := map[];
    }

    /** `storeConfiguration`: the two checks, then one `INSERT` that writes or replaces the key's row. */
    method StoreConfiguration(userId: Option<string>, configuration: Configuration, fault: Option<string>)
      returns (r: Result<string>)
      requires Valid()
      modifies this
      ensures Valid()
      ensures StoreRejection(userId, configuration).Some? ==>
                r == Err(StoreRejection(userId, configuration).value) && rows == old(rows)
      ensures StoreRejection(userId, configuration).None? && fault.Some? ==>
                r == Err(SystemError(fault.value)) && rows == old(rows)
      ensures StoreRejection(userId, configuration).None? && fault.None? ==>
                r == Ok(Id(configuration))
                && rows == old(rows)[(userId.value, Id(configuration)) := EncodeValue(configuration)]
    {
      var rejection := StoreRejection(userId, configuration);
      if rejection.Some? {
        return Err(rejection.value);
      }
      var key := (userId.value, Id(configuration));
      if fault.Some? {
        return Err(SystemError(fault.value));
      }
      AcceptedHasKnownId(userId, configuration);
      ConfigurationRoundTrip(configuration);
      rows := rows[key := EncodeValue(configuration)];
      r := Ok(key.1);
    }

    method QueryUserConfiguration(userId: string, fault: Option<string>) returns (r: Result<set<Configuration>>)
      requires Valid()
      ensures fault.Some? ==> r == Err(SystemError(fault.value))
      ensures fault.None? ==> r == Ok(UserConfigs(rows, userId))
    {
      if fault.Some? {
        return Err(SystemError(fault.value));
      }
      r := Ok(UserConfigs(rows, userId));
    }

    method RetrieveUserConfiguration(userId: string, configurationId: string, fault: Option<string>)
      returns (r: Result<Configuration>)
      requires Valid()
      ensures r == RetrieveResult(rows, userId, configurationId, fault)
      ensures r.Ok? ==> Id(r.value) == configurationId
    {
      if fault.Some? {
        return Err(SystemError(fault.value));
      }
      if (userId, configurationId) !in rows {
        return Err(NotFoundError("No Config Found"));
      }
      r := Ok(ConfigAt(rows, (userId, configurationId)).value);
    }

    method DeleteUserConfiguration(userId: string, configurationId: string, fault: Option<string>) returns (r: Result<bool>)
      requires Valid()
      modifies this
      ensures Valid()
      ensures fault.Some? ==> r == Err(SystemError(fault.value)) && rows == old(rows)
      ensures fault.None? ==> r == Ok(true) && rows == old(rows) - {(userId, configurationId)}
    {
      if fault.Some? {
        return Err(SystemError(fault.value));
      }
      rows := rows - {(userId, configurationId)};
      r := Ok(true);
    }
  }

  /** Storing and then retrieving gives the configuration back; other keys keep their rows. */
  lemma StoreThenRetrieve(rows: map<Key, Json>, userId: string, c: Configuration)
    requires AllRowsDecode(rows) && StoreRejection(Some(userId), c).None?
    ensures var after := rows[(userId, Id(c)) := EncodeValue(c)];
            && AllRowsDecode(after)
            && RetrieveResult(after, userId, Id(c), None) == Ok(c)
            && forall key :: key in rows && key != (userId, Id(c)) ==> key in after && after[key] == rows[key]
  {
    AcceptedHasKnownId(Some(userId), c);
    ConfigurationRoundTrip(c);
  }

  /** A second store under the same key replaces the first: only the later configuration is retrieved. */
  lemma SecondStoreReplacesFirst(rows: map<Key, Json>, userId: string, c1: Configuration, c2: Configuration)
    requires AllRowsDecode(rows) && StoreRejection(Some(userId), c1).None? && StoreRejection(Some(userId), c2).None?
    requires Id(c1) == Id(c2)
    ensures var once := rows[(userId, Id(c1)) := EncodeValue(c1)];
            var twice := once[(userId, Id(c2)) := EncodeValue(c2)];
            && AllRowsDecode(twice)
            && RetrieveResult(twice, userId, Id(c1), None) == Ok(c2)
            && twice.Keys == once.Keys
  {
    StoreThenRetrieve(rows, userId, c1);
    StoreThenRetrieve(rows[(userId, Id(c1)) := EncodeValue(c1)], userId, c2);
  }

  /** After a delete the key retrieves as not found. */
  lemma DeleteThenNotFound(rows: map<Key, Json>, userId: string, id: string)
    requires AllRowsDecode(rows)
    ensures AllRowsDecode(rows - {(userId, id)})
    ensures RetrieveResult(rows - {(userId, id)}, userId, id, None) == Err(NotFoundError("No Config Found"))
  {
  }

  /** The query answers a configuration exactly when some row in the user's partition decodes to it. */
  lemma QueryIsPartition(rows: map<Key, Json>, userId: string, c: Configuration)
    requires AllRowsDecode(rows)
    ensures c in UserConfigs(rows, userId) <==>
              exists id :: (userId, id) in rows && DecodeConfiguration(id, rows[(userId, id)]) == Some(c)
  {
    if c in UserConfigs(rows, userId) {
      var key :| key in rows && key.0 == userId && ConfigAt(rows, key).value == c;
      assert (userId, key.1) == key;
    }
  }
}
