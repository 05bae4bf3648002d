/** internal/logger/logger/db.go: the audit logger. `Log` appends one
    `(name, entity_id)` row to `auth_user_log` through the store handle of the
    enclosing transaction. */
module DbLogger {
  import opened Wrappers
  import opened Errors
  import opened Model
  import opened Database

  /** `buildErr` is a failure of the query builder, `execErr` one of the
      insert statement. */
  method Log(store: Store, data: LogData, buildErr: Option<Error>, execErr: Option<Error>) returns (err: Option<Error>)
    requires store.Valid()
    modifies store
    ensures store.Valid()
    ensures buildErr.Some? ==> err == buildErr && store.issued == old(store.issued)
    ensures buildErr.None? ==> err == execErr && store.issued == old(store.issued) + [InsertLogRow(data)]
    ensures store.users == old(store.users) && store.nextId == old(store.nextId)
    ensures store.auditLog == if err.None? then old(store.auditLog) + [data] else old(store.auditLog)
  {
    if buildErr.Some? {
      return buildErr;
    }
    err := store.AppendLog(data, execErr);
  }
}
