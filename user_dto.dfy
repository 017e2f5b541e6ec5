/** src/application/dtos/user.DTO.ts: the credential-free view of a user row. */
module UserDto {
  import opened Wrappers
  import opened Passwords
  import opened UserRepo

  /** The ten fields of `fromEntity()`, in its order. */
  datatype UserView = UserView(
    firstName: Option<string>,
    lastName: Option<string>,
    id: string,
    username: Option<string>,
    email: string,
    phone: Option<string>,
    avatar: string,
    isVerified: bool,
    onBanned: bool,
    role: string)

  function FromEntity(u: User): UserView
  {
    UserView(u.firstName, u.lastName, u.id, u.username, u.email, u.phone, u.avatar, u.isVerified, u.onBanned, u.role)
  }

  /**
   * Two users have the same view exactly when they differ at most in the
   * password hash and the legacy `name` column: every other column is copied,
   * and those two never are.
   */
  lemma FromEntitySameView(a: User, b: User)
    ensures FromEntity(a) == FromEntity(b) <==> a == b.(password := a.password, name := a.name)
  {
  }

  /** In particular the view does not depend on the password hash. */
  lemma FromEntityHidesPassword(u: User, hash: Option<PasswordHash>)
    ensures FromEntity(u.(password := hash)) == FromEntity(u)
  {
  }

  /** Each field of the view is the column of the same name. */
  lemma FromEntityCopiesFields(u: User)
    ensures var v := FromEntity(u);
      && v.firstName == u.firstName && v.lastName == u.lastName && v.id == u.id
      && v.username == u.username && v.email == u.email && v.phone == u.phone
      && v.avatar == u.avatar && v.isVerified == u.isVerified && v.onBanned == u.onBanned
      && v.role == u.role
  {
  }
}
