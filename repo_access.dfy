/** internal/repository/access/repository.go: the PostgreSQL access repository,
    with each table as a map from its lookup column to its row. Every failure of
    the query (no row, a build or scan error) is only logged: the caller gets
    the zero-valued row and no error. */
module RepoAccess {
  import opened Wrappers
  import opened Errors
  import opened Model
  import opened Repository

  /** `permission`, keyed by `resource_name`. */
  type PermissionTable = map<string, Permission>
  /** `user_role`, keyed by `role_name`. */
  type RoleTable = map<string, Role>

  const ZeroPermission := Permission(0, "", 0)
  const ZeroRole := Role(0, "", 0)

  /** Each row is stored under its own lookup column. */
  ghost predicate WellFormed(permissions: PermissionTable, roles: RoleTable) {
    && (forall e :: e in permissions ==> permissions[e].endpoint == e)
    && (forall n :: n in roles ==> roles[n].name == n)
  }

  function GetEndpointPermission(permissions: PermissionTable, endpoint: string): (r: Result<Permission, Error>)
    ensures r.Success?
    ensures endpoint in permissions ==> r.value == permissions[endpoint]
    ensures endpoint !in permissions ==> r.value == ZeroPermission && r.value.minPriority == 0
  {
    Success(if endpoint in permissions then permissions[endpoint] else ZeroPermission)
  }

  function GetRole(roles: RoleTable, role: string): (r: Result<Role, Error>)
    ensures r.Success?
    ensures role in roles ==> r.value == roles[role]
    ensures role !in roles ==> r.value == ZeroRole && r.value.priority == 0
  {
    Success(if role in roles then roles[role] else ZeroRole)
  }

  /** The repository `NewRepository` builds over the two tables. */
  function NewRepository(permissions: PermissionTable, roles: RoleTable): (repo: AccessRepository)
    ensures forall e :: repo.getEndpointPermission(e) == GetEndpointPermission(permissions, e)
    ensures forall n :: repo.getRole(n) == GetRole(roles, n)
  {
    AccessRepository(e => GetEndpointPermission(permissions, e), n => GetRole(roles, n))
  }

  /** The repository never reports an error, whatever is asked. */
  lemma NeverFails(permissions: PermissionTable, roles: RoleTable, endpoint: string, role: string)
    ensures NewRepository(permissions, roles).getEndpointPermission(endpoint).Success?
    ensures NewRepository(permissions, roles).getRole(role).Success?
  {
  }

  /** A row that is found describes what was asked for. */
  lemma FoundRowMatches(permissions: PermissionTable, roles: RoleTable, endpoint: string, role: string)
    requires WellFormed(permissions, roles)
    ensures endpoint in permissions ==> GetEndpointPermission(permissions, endpoint).value.endpoint == endpoint
    ensures role in roles ==> GetRole(roles, role).value.name == role
  {
  }
}
