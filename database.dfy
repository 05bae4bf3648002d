/** The PostgreSQL store the user service writes to: the `auth_user` table,
    the `auth_user_log` audit table, and the transaction manager's
    ReadCommitted scope, modelled as all-or-nothing: Begin takes a snapshot of
    the tables and Rollback puts it back. `issued` records every write
    statement sent to the store, in order, whether or not it was later rolled
    back. */
module Database {
  import opened Wrappers
  import opened Errors
  import opened Model

  /** An `auth_user` row as the repository inserts it. */
  datatype UserRow = UserRow(email: string, name: string, password: string, role: int)

  /** A write statement sent to the store. */
  datatype Statement = InsertUserRow(row: UserRow) | InsertLogRow(data: LogData)

  /** The contents of the tables; `nextId` is the id the next insert gets. */
  datatype Snapshot = Snapshot(users: map<int, UserRow>, nextId: int, auditLog: seq<LogData>)

  ghost predicate ValidSnapshot(s: Snapshot) {
    1 <= s.nextId && forall id :: id in s.users ==> 1 <= id < s.nextId
  }

  class Store {
    var users: map<int, UserRow>
    var nextId: int
    var auditLog: seq<LogData>
    ghost var issued: seq<Statement>

    function State(): Snapshot
      reads this
    {
      Snapshot(users, nextId, auditLog)
    }

    ghost predicate Valid()
      reads this
    {
      ValidSnapshot(State())
    }

    constructor ()
      ensures Valid()
      ensures users == map[] && nextId == 1 && auditLog == [] && issued == []
    {
      users, nextId, auditLog := map[], 1, [];
      issued := [];
    }

    /** Opens the scope: the state a rollback returns to. */
    method Begin() returns (snapshot: Snapshot)
      requires Valid()
      ensures snapshot == State() && ValidSnapshot(snapshot)
    {
      snapshot := State();
    }

    /** Undoes every write since `snapshot` was taken. */
    method Rollback(snapshot: Snapshot)
      requires ValidSnapshot(snapshot)
      modifies this
      ensures Valid() && State() == snapshot && issued == old(issued)
    {
      users, nextId, auditLog := snapshot.users, snapshot.nextId, snapshot.auditLog;
    }

    /** The insert of UserRepository.Create, inside the scope: `INSERT ...
        RETURNING id`. A failing statement (`fault`) changes no row. */
    method InsertUser(row: UserRow, fault: Option<Error>) returns (id: int, err: Option<Error>)
      requires Valid()
      modifies this
      ensures Valid() && err == fault
      ensures issued == old(issued) + [InsertUserRow(row)]
      ensures fault.None? ==> && id == old(nextId) && old(nextId) !in old(users)
                              && users == old(users)[id := row] && nextId == old(nextId) + 1
                              && auditLog == old(auditLog)
      ensures fault.Some? ==> id == 0 && State() == old(State())
    {
      issued := issued + [InsertUserRow(row)];
      if fault.Some? {
        return 0, fault;
      }
      id := nextId;
      users := users[id := row];
      nextId := nextId + 1;
      err := None;
    }

    /** `ExecContext` of an `auth_user_log` insert, inside the scope. */
    method AppendLog(data: LogData, fault: Option<Error>) returns (err: Option<Error>)
      requires Valid()
      modifies this
      ensures Valid() && err == fault
      ensures issued == old(issued) + [InsertLogRow(data)]
      ensures users == old(users) && nextId == old(nextId)
      ensures auditLog == if fault.None? then old(auditLog) + [data] else old(auditLog)
    {
      issued := issued + [InsertLogRow(data)];
      if fault.None? {
        auditLog := auditLog + [data];
      }
      err := fault;
    }
  }
}
