/**
  The role filter put in front of protected actions: a visitor with no
  Role, AdminUser or StudentUser in the session is sent to the login page;
  otherwise the Role key, or the role implied by which user key is set,
  must equal the role the action requires.
*/
module AuthorizeRole {
  import opened Web

  datatype Decision = LoginRedirect | AccessDenied | Proceed

  /** The session names a role or a signed-in user. */
  predicate Authenticated(s: Session)
  {
    !Unset(s, "Role") || !Unset(s, "AdminUser") || !Unset(s, "StudentUser")
  }

  /**
    OnActionExecuting: the role starts as the Role key; when that is
    empty, a signed-in admin makes it "Admin", and when it is still empty
    a signed-in student makes it "User". So an explicit Role is used as
    is, AdminUser wins over StudentUser, and access proceeds iff the
    resulting role is exactly the required one.
  */
  function Decide(s: Session, requiredRole: string): (d: Decision)
    ensures d == LoginRedirect <==> !Authenticated(s)
    ensures !Unset(s, "Role") ==> (d == Proceed <==> s["Role"] == requiredRole)
    ensures Unset(s, "Role") && !Unset(s, "AdminUser") ==> (d == Proceed <==> requiredRole == "Admin")
    ensures Unset(s, "Role") && Unset(s, "AdminUser") && !Unset(s, "StudentUser") ==>
      (d == Proceed <==> requiredRole == "User")
  {
    if !Authenticated(s) then LoginRedirect
    else
      var userRole := GetOr(s, "Role", "");
      var userRole := if userRole == "" && !Unset(s, "AdminUser") then "Admin" else userRole;
      var userRole := if userRole == "" && !Unset(s, "StudentUser") then "User" else userRole;
      if userRole != requiredRole then AccessDenied else Proceed
  }
}
