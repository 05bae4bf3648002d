/** internal/service/access/service.go: the access decision. An endpoint is
    open to a role when the role's priority reaches the endpoint's minimum;
    a lookup error denies, with that error. Nothing is written. */
module ServiceAccess {
  import opened Wrappers
  import opened Errors
  import opened Model
  import opened Repository
  import RepoAccess

  function HasAccessRight(repo: AccessRepository, endpoint: string, role: string): (r: Ret<bool>)
    ensures !r.Ok() ==> !r.value
    ensures repo.getEndpointPermission(endpoint).Failure? ==>
              r.err == Some(repo.getEndpointPermission(endpoint).error)
    ensures repo.getEndpointPermission(endpoint).Success? && repo.getRole(role).Failure? ==>
              r.err == Some(repo.getRole(role).error)
    ensures r.Ok() <==> repo.getEndpointPermission(endpoint).Success? && repo.getRole(role).Success?
    ensures r.Ok() ==>
              r.value == (repo.getEndpointPermission(endpoint).value.minPriority <= repo.getRole(role).value.priority)
  {
    match repo.getEndpointPermission(endpoint)
    case Failure(e) => Ret(false, Some(e))
    case Success(permission) =>
      match repo.getRole(role)
      case Failure(e) => Ret(false, Some(e))
      case Success(mrole) => Ret(permission.minPriority <= mrole.priority, None)
  }

  /** The result is fixed by the two lookup results: two repositories that
      answer these two lookups alike give the same decision. */
  lemma DependsOnlyOnLookups(repo1: AccessRepository, repo2: AccessRepository, endpoint: string, role: string)
    requires repo1.getEndpointPermission(endpoint) == repo2.getEndpointPermission(endpoint)
    requires repo1.getRole(role) == repo2.getRole(role)
    ensures HasAccessRight(repo1, endpoint, role) == HasAccessRight(repo2, endpoint, role)
  {
  }

  /** When the permission lookup fails the role table is never consulted:
      any role table gives the same answer. */
  lemma RoleLookupSkippedOnPermissionError(repo: AccessRepository, getRole: string -> Result<Role, Error>, endpoint: string, role: string)
    requires repo.getEndpointPermission(endpoint).Failure?
    ensures HasAccessRight(repo, endpoint, role)
         == HasAccessRight(AccessRepository(repo.getEndpointPermission, getRole), endpoint, role)
    ensures HasAccessRight(repo, endpoint, role) == Ret(false, Some(repo.getEndpointPermission(endpoint).error))
  {
  }

  /** The minimum priority is inclusive. */
  lemma BoundaryIsInclusive(repo: AccessRepository, endpoint: string, role: string)
    requires repo.getEndpointPermission(endpoint).Success? && repo.getRole(role).Success?
    requires repo.getEndpointPermission(endpoint).value.minPriority == repo.getRole(role).value.priority
    ensures HasAccessRight(repo, endpoint, role) == Ret(true, None)
  {
  }

  /** Access is monotone in the role's priority. */
  lemma MonotoneInPriority(repo: AccessRepository, endpoint: string, role1: string, role2: string)
    requires HasAccessRight(repo, endpoint, role1) == Ret(true, None)
    requires repo.getRole(role2).Success?
    requires repo.getRole(role1).value.priority <= repo.getRole(role2).value.priority
    ensures HasAccessRight(repo, endpoint, role2) == Ret(true, None)
  {
  }

  /** Over the PostgreSQL repository, the decision never fails, and an
      unregistered endpoint or role counts as priority 0. In particular an
      unregistered role is admitted to an unregistered endpoint. */
  lemma UnknownEntitiesHavePriorityZero(permissions: RepoAccess.PermissionTable, roles: RepoAccess.RoleTable, endpoint: string, role: string)
    ensures HasAccessRight(RepoAccess.NewRepository(permissions, roles), endpoint, role).Ok()
    ensures endpoint !in permissions && role in roles ==>
              HasAccessRight(RepoAccess.NewRepository(permissions, roles), endpoint, role).value == (0 <= roles[role].priority)
    ensures endpoint in permissions && role !in roles ==>
              HasAccessRight(RepoAccess.NewRepository(permissions, roles), endpoint, role).value == (permissions[endpoint].minPriority <= 0)
    ensures endpoint !in permissions && role !in roles ==>
              HasAccessRight(RepoAccess.NewRepository(permissions, roles), endpoint, role) == Ret(true, None)
  {
    RepoAccess.NeverFails(permissions, roles, endpoint, role);
  }

  /** `threshold` decides `endpoint` over the SQL repository: every role is
      admitted exactly when its priority reaches it (an unregistered role
      having priority 0). */
  ghost predicate IsThreshold(permissions: RepoAccess.PermissionTable, roles: RepoAccess.RoleTable, endpoint: string, threshold: int)
  {
    forall role: string ::
      HasAccessRight(RepoAccess.NewRepository(permissions, roles), endpoint, role)
      == Ret(threshold <= RepoAccess.GetRole(roles, role).value.priority, None)
  }

  /** Every endpoint, registered or not, has such a threshold; for one the
      table does not list it is 0, so exactly the roles of priority at least
      0 are admitted. */
  lemma DecisionIsThreshold(permissions: RepoAccess.PermissionTable, roles: RepoAccess.RoleTable, endpoint: string)
    ensures exists threshold: int :: IsThreshold(permissions, roles, endpoint, threshold)
    ensures endpoint !in permissions ==> IsThreshold(permissions, roles, endpoint, 0)
  {
    var threshold := RepoAccess.GetEndpointPermission(permissions, endpoint).value.minPriority;
    assert IsThreshold(permissions, roles, endpoint, threshold);
  }
}
