/** Values shared by every screen: optional values, the signed-in user and the roles the
    screens test. */
module Base {

  datatype Option<+T> = None | Some(value: T)

  /** The signed-in user as the authentication context hands it to the screens. */
  datatype User = User(username: string, role: string)

  /** Roles that may see profits and export tables. */
  predicate IsPrivileged(role: string)
  {
    role == "admin" || role == "owner"
  }

  /** `user?.role || ''`: the role of the signed-in user, or the empty text when nobody is. */
  function RoleOf(user: Option<User>): (r: string)
    ensures user.None? ==> r == ""
  {
    if user.Some? then user.value.role else ""
  }
}
