/** The user record and the filter values the roster is queried with. */
module UserModel {
  import opened JsNumber

  /**
   * One user. `role` is the numeric code of the UserType enumeration
   * (SuperAdmin, Admin, Moderator, Editor, Author, Contributor, User).
   */
  datatype User = User(
    id: int,
    name: string,
    age: int,
    email: string,
    phone: string,
    address: string,
    registeredDate: string,
    isActive: bool,
    role: int)

  /** The service's status argument: 'all', 'active' or 'inactive'. */
  datatype StatusFilter = All | Active | Inactive

  /**
   * The role argument: 'all', or the number a role code was converted to, which
   * may be NaN when the URL held something that is not a number.
   */
  datatype RoleFilter = AllRoles | OnlyRole(code: Number)
}
