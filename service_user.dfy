/** internal/service/user/service.go: the user service. Create hashes the
    password, inserts the user and writes the "create user" audit record, all
    inside one ReadCommitted scope; everything else is handed to the
    repository unchanged. */
module ServiceUser {
  import opened Wrappers
  import opened Errors
  import opened Model
  import opened Repository
  import opened Database
  import DbLogger

  const CreateUserEvent: string := "create user"

  /** The row the repository stores for `info` once its password is hashed. */
  function RowOf(info: UserInfo): UserRow
    reads info
  {
    UserRow(info.email, info.name, info.password, info.role)
  }

  /** `hash` is bcrypt at its default cost; `insertFault`, `logBuildErr` and
      `logExecErr` say which store statement, if any, fails. The caller's
      `userInfo` gets the hashed password as soon as hashing succeeds, and keeps
      it even when the transaction is rolled back. */
  method Create(store: Store, userInfo: UserInfo, hash: string -> Result<string, Error>,
                insertFault: Option<Error>, logBuildErr: Option<Error>, logExecErr: Option<Error>)
    returns (id: int, err: Option<Error>)
    requires store.Valid()
    modifies store, userInfo
    ensures store.Valid()
    ensures userInfo.name == old(userInfo.name) && userInfo.email == old(userInfo.email)
    ensures userInfo.role == old(userInfo.role)
    // the outcome
    ensures err.None? <==> hash(old(userInfo.password)).Success? && insertFault.None?
                           && logBuildErr.None? && logExecErr.None?
    ensures err.Some? ==> id == 0 && store.State() == old(store.State())
    ensures err.None? ==> && id == old(store.nextId) && id !in old(store.users)
                          && store.users == old(store.users)[id := RowOf(userInfo)]
                          && store.nextId == old(store.nextId) + 1
                          && store.auditLog == old(store.auditLog) + [LogData(CreateUserEvent, id)]
    // hashing
    ensures hash(old(userInfo.password)).Failure? ==>
              && err == Some(hash(old(userInfo.password)).error)
              && userInfo.password == old(userInfo.password)
              && store.issued == old(store.issued)
    ensures hash(old(userInfo.password)).Success? ==> userInfo.password == hash(old(userInfo.password)).value
    // the statements sent, in order
    ensures hash(old(userInfo.password)).Success? && insertFault.Some? ==>
              && err == insertFault
              && store.issued == old(store.issued) + [InsertUserRow(RowOf(userInfo))]
    ensures hash(old(userInfo.password)).Success? && insertFault.None? ==>
              && err == (if logBuildErr.Some? then logBuildErr else logExecErr)
              && store.issued == old(store.issued) + [InsertUserRow(RowOf(userInfo))]
                 + (if logBuildErr.Some? then [] else [InsertLogRow(LogData(CreateUserEvent, old(store.nextId)))])
  {
    var snapshot := store.Begin();
    // the transaction's callback
    var pw := hash(userInfo.password);
    if pw.Failure? {
      err := Some(pw.error);
    } else {
      userInfo.password := pw.value;
      var errTx;
      id, errTx := store.InsertUser(RowOf(userInfo), insertFault);
      if errTx.Some? {
        err := errTx;
      } else {
        errTx := DbLogger.Log(store, LogData(CreateUserEvent, id), logBuildErr, logExecErr);
        err := errTx;
      }
    }
    // end of the scope: commit, or roll back on an error
    if err.Some? {
      store.Rollback(snapshot);
      id := 0;
    }
  }

  function Get(repo: UserRepository, id: int): (r: Result<User, Error>)
    ensures r == repo.get(id)
  {
    repo.get(id)
  }

  function GetByEmail(repo: UserRepository, email: string): (r: Result<User, Error>)
    ensures r == repo.getByEmail(email)
  {
    repo.getByEmail(email)
  }

  function Delete(repo: UserRepository, id: int): (r: Option<Error>)
    ensures r == repo.delete(id)
  {
    repo.delete(id)
  }

  function Update(repo: UserRepository, info: User): (r: Option<Error>)
    ensures r == repo.update(info)
  {
    repo.update(info)
  }

  function FindByName(repo: UserRepository, name: string): (r: Result<seq<UserName>, Error>)
    ensures r == repo.findByName(name)
  {
    repo.findByName(name)
  }

  /** A failed audit write leaves no trace of the user: the id the insert had
      assigned is absent afterwards and no audit record was added. */
  method AuditFailureScenario(info: UserInfo, hash: string -> Result<string, Error>)
    requires hash(info.password).Success?
    modifies info
  {
    var store := new Store();
    var id, err := Create(store, info, hash, None, None, Some(External("insert failed")));
    assert err.Some? && id == 0;
    assert 1 !in store.users && store.auditLog == [];
    assert store.issued == [InsertUserRow(RowOf(info)), InsertLogRow(LogData(CreateUserEvent, 1))];
  }
}
