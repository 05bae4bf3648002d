/** The entities of internal/model. Integers of the source (int64, int) are
    unbounded here. */
module Model {

  /** A row of the `permission` table: the least role priority an endpoint demands. */
  datatype Permission = Permission(id: int, endpoint: string, minPriority: int)

  /** A row of the `user_role` table. */
  datatype Role = Role(id: int, name: string, priority: int)

  /** What GenerateToken is asked to put into a token. */
  datatype UserJwt = UserJwt(userId: int, userLogin: string, role: string)

  /** The registered claims jwt-go validates; 0 stands for "absent", as in jwt-go. */
  datatype StandardClaims = StandardClaims(expiresAt: int, issuedAt: int, notBefore: int)

  /** The payload of a token: the standard claims and the principal. */
  datatype UserClaims = UserClaims(standard: StandardClaims, userId: int, userLogin: string, role: string)

  /** The Go zero value `model.UserClaims{}`. */
  const ZeroClaims := UserClaims(StandardClaims(0, 0, 0), 0, "", "")

  /** A stored user as the repository returns it. */
  datatype User = User(id: int, name: string, email: string, role: string, password: string)

  datatype UserName = UserName(id: int, name: string)

  /** One row of `auth_user_log`. */
  datatype LogData = LogData(name: string, entityId: int)

  /** The account data of a create request. Create receives it by pointer and
      overwrites its password, so it is an object. */
  class UserInfo {
    var name: string
    var email: string
    var role: int
    var password: string

    constructor (name: string, email: string, role: int, password: string)
      ensures this.name == name && this.email == email
      ensures this.role == role && this.password == password
    {
      this.name := name;
      this.email := email;
      this.role := role;
      this.password := password;
    }
  }
}
