/** The `authorizeStaff` middleware that guards the staff dashboard
    routes: it looks only at the role the authenticated user carries. */
module Authorize {
  import opened Js

  /** What the middleware does with a request: hand it on with `next()`,
      or answer it itself. */
  datatype Decision = Next | Denied(status: int, error: string)

  const AccessDenied: string := "Access denied. Staff only."

  /** `staff` and `manager` pass, and nothing else does: any other role,
      a missing one included, is answered with 403. Exactly one of the
      two outcomes happens. */
  function AuthorizeStaff(role: Json): (d: Decision)
    ensures d == Next <==> role == Str("staff") || role == Str("manager")
    ensures d.Denied? <==> !(role == Str("staff") || role == Str("manager"))
    ensures d.Denied? ==> d.status == 403 && d.error == AccessDenied
  {
    if role != Str("staff") && role != Str("manager") then Denied(403, AccessDenied)
    else Next
  }

  /** Customers, and users whose token carries no role, are turned away. */
  lemma CustomerDenied()
    ensures AuthorizeStaff(Str("customer")) == Denied(403, AccessDenied)
    ensures AuthorizeStaff(Undefined) == Denied(403, AccessDenied)
    ensures AuthorizeStaff(Str("Staff")) == Denied(403, AccessDenied)
  {
  }
}
