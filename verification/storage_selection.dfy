/**
 * Backend selection at server start: `AVAILABLE_STORAGES` names the two
 * backends, sqlite3 is the default, and only the provider "cassandra"
 * replaces it. The `STORAGE_PROVIDER` environment variable is the
 * `provider` argument (`None` when it is unset).
 */
module StorageSelection {
  import opened Wrappers

  datatype Backend = Cassandra | Sqlite3

  /** `AVAILABLE_STORAGES`, keyed by name. */
  const AvailableStorages: map<string, Backend> := map["cassandra" := Cassandra, "sqlite3" := Sqlite3]

  /**
   * `setupStorage`: first the sqlite3 entry, then overwritten by the single
   * `case "cassandra"` of the switch; every other provider falls through.
   */
  function SetupStorage(provider: Option<string>): (b: Backend)
    ensures b in AvailableStorages.Values
    ensures b == Cassandra <==> provider == Some("cassandra")
  {
    var setupStorage := AvailableStorages["sqlite3"];
    match provider
    case Some("cassandra") => AvailableStorages["cassandra"]
    case _ => setupStorage
  }

  /** With no provider set, sqlite3 is selected. */
  lemma DefaultIsSqlite()
    ensures SetupStorage(None) == Sqlite3
  {
  }

  /** Any provider other than "cassandra", such as "neo4j" or "memory", falls back to sqlite3. */
  lemma OtherProvidersFallBack(provider: string)
    requires provider != "cassandra"
    ensures SetupStorage(Some(provider)) == Sqlite3
    ensures SetupStorage(Some("neo4j")) == Sqlite3 && SetupStorage(Some("memory")) == Sqlite3
  {
  }

  /** Every backend that can be selected is one of the available ones, and both can be. */
  lemma SelectionCoversAvailable()
    ensures forall p :: SetupStorage(p) in AvailableStorages.Values
    ensures AvailableStorages.Values == {SetupStorage(None), SetupStorage(Some("cassandra"))}
  {
  }
}
