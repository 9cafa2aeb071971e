/** The access gate placed in front of every role-restricted handler. */
module RoleGuard {
  import opened Wrappers
  import opened UserModel
  import opened Replies

  datatype Decision = Pass | Deny(failure: Failure)

  /**
   * The gate: an unauthenticated request is refused, then a role outside the
   * allowed list, then an organisation account still awaiting approval.
   */
  function AllowRoles(user: Option<Account>, roles: seq<Role>): (d: Decision)
    ensures user.None? ==> d == Deny(Unauthenticated)
    ensures user.Some? && user.value.role !in roles ==> d == Deny(Forbidden(RoleNotAllowed))
    ensures user.Some? && user.value.role in roles && IsOrgRole(user.value.role) && !user.value.isApproved ==>
              d == Deny(Forbidden(AwaitingApproval))
    ensures d == Pass <==> user.Some? && user.value.role in roles && (!IsOrgRole(user.value.role) || user.value.isApproved)
  {
    if user.None? then Deny(Unauthenticated)
    else if user.value.role !in roles then Deny(Forbidden(RoleNotAllowed))
    else if IsOrgRole(user.value.role) && !user.value.isApproved then Deny(Forbidden(AwaitingApproval))
    else Pass
  }

  /** Citizens and administrators are never held back by the approval flag. */
  lemma ApprovalIgnoredForCitizensAndAdmins(a: Account, roles: seq<Role>, approved: bool)
    requires !IsOrgRole(a.role)
    ensures AllowRoles(Some(a), roles) == AllowRoles(Some(a.(isApproved := approved)), roles)
  {
  }

  /** A fresh organisation account is refused everywhere until approved; a fresh citizen account passes where allowed. */
  lemma FreshAccountsAtTheGate(role: Role, now: nat, roles: seq<Role>)
    requires role in roles
    ensures IsOrgRole(role) ==> AllowRoles(Some(NewAccount(Some(role), now)), roles) == Deny(Forbidden(AwaitingApproval))
    ensures !IsOrgRole(role) ==> AllowRoles(Some(NewAccount(Some(role), now)), roles) == Pass
  {
  }
}
