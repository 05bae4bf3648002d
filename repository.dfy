/** The repository interfaces of internal/repository/repository.go, as records
    of functions: a lookup that may fail. The write `UserRepository.Create` is
    `Database.Store.InsertUser`, because it changes the store. */
module Repository {
  import opened Wrappers
  import opened Errors
  import opened Model

  datatype AccessRepository = AccessRepository(
    getEndpointPermission: string -> Result<Permission, Error>,
    getRole: string -> Result<Role, Error>)

  datatype UserRepository = UserRepository(
    get: int -> Result<User, Error>,
    getByEmail: string -> Result<User, Error>,
    delete: int -> Option<Error>,
    update: User -> Option<Error>,
    findByName: string -> Result<seq<UserName>, Error>)
}
