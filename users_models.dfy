/** The user model (backend/users/models.py): the role field with its default,
    the two role properties and the string form. */
module UserModels {

  type UserId = int

  const USER: string := "user"
  const ADMIN: string := "admin"

  /** The declared choices of the status field. */
  const ROLE_CHOICES: seq<string> := [USER, ADMIN]

  /** A FoodgramUser row. Only the fields the core reads are kept; the
      password and the Django bookkeeping fields are left out. */
  datatype User = User(
    id: UserId,
    email: string,
    username: string,
    firstName: string,
    lastName: string,
    status: string)

  /** A user created without an explicit status gets the default role. */
  function NewUser(id: UserId, email: string, username: string, firstName: string, lastName: string): (u: User)
    ensures u.id == id && u.username == username
    ensures u.status in ROLE_CHOICES
    ensures IsUserRole(u) && !IsAdminRole(u)
  {
    User(id, email, username, firstName, lastName, USER)
  }

  predicate IsUserRole(u: User) {
    u.status == USER
  }

  predicate IsAdminRole(u: User) {
    u.status == ADMIN
  }

  /** The two roles exclude each other, and a status taken from the declared
      choices has exactly one of them. */
  lemma RolesExclusive(u: User)
    ensures !(IsUserRole(u) && IsAdminRole(u))
    ensures u.status in ROLE_CHOICES ==> IsUserRole(u) != IsAdminRole(u)
    ensures u.status !in ROLE_CHOICES ==> !IsUserRole(u) && !IsAdminRole(u)
  {
  }

  /** str(user): the username. */
  function UserStr(u: User): string {
    u.username
  }
}
