/** The user account of the `accounts` application: a user carries a `user_type` that is
    `"admin"` or `"employee"` (the column only suggests these two values), plus the framework's
    staff and superuser flags. A request is made either anonymously or by a signed-in user. */
module Accounts {

  datatype User = User(username: string, userType: string, isStaff: bool, isSuperuser: bool)

  /** The acting principal of a request. */
  datatype Principal = Anonymous | SignedIn(user: User)

  const AdminType := "admin"
  const EmployeeType := "employee"

  /** `user_type` of a new account when none is given. */
  const DefaultUserType := EmployeeType

  /** `User.is_admin_user`. */
  predicate IsAdminUser(u: User) {
    u.userType == AdminType
  }

  /** `User.is_employee_user`. */
  predicate IsEmployeeUser(u: User) {
    u.userType == EmployeeType
  }

  /** A freshly created account: no explicit `user_type`, and the framework's flags off. */
  function NewUser(username: string): (u: User)
    ensures u.username == username
    ensures IsEmployeeUser(u) && !IsAdminUser(u)
    ensures !u.isStaff && !u.isSuperuser
  {
    User(username, DefaultUserType, false, false)
  }

  /** No user is both an admin and an employee; a `user_type` outside the two choices is
      neither. */
  lemma RolesExclusive(u: User)
    ensures !(IsAdminUser(u) && IsEmployeeUser(u))
    ensures u.userType != AdminType && u.userType != EmployeeType ==> !IsAdminUser(u) && !IsEmployeeUser(u)
  {
  }
}
