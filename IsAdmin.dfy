/** The middleware in front of the user-management routes. */
module IsAdmin {
  import opened Nullable
  import opened Schema

  datatype Decision = Forward | Abort(status: nat)

  /**
   * A request goes on to its handler only when there is an authenticated
   * user whose type is exactly "ADM"; every other request is aborted with 403.
   */
  function Handle(user: Option<User>): (d: Decision)
    ensures d == Forward <==> user.Some? && user.value.userType == Some(AdminUser)
    ensures d != Forward ==> d == Abort(403)
  {
    if user.Some? && user.value.userType == Some(AdminUser) then Forward else Abort(403)
  }

  /** The comparison is exact: other types, a missing type and other spellings of "ADM" are refused. */
  lemma OnlyExactAdminPasses(u: User)
    requires u.userType in {None, Some(StandardUser), Some(PlusUser), Some("adm"), Some("Admin"), Some("ADM ")}
    ensures Handle(Some(u)) == Abort(403)
  {
  }
}
