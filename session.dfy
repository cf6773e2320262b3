/**
  The ASP.NET session as the controllers use it: a string-to-string store
  read with GetString (null for a missing key), written with SetString and
  emptied key by key with Remove. Also the action results the controllers
  hand back.
*/
module Web {
  import opened Util

  type Session = map<string, string>

  /** `session.GetString(key) ?? fallback`. */
  function GetOr(s: Session, key: string, fallback: string): (v: string)
    ensures key in s ==> v == s[key]
    ensures key !in s ==> v == fallback
  {
    if key in s then s[key] else fallback
  }

  /** `string.IsNullOrEmpty(session.GetString(key))`. */
  predicate Unset(s: Session, key: string)
  {
    key !in s || s[key] == ""
  }

  /**
    BaseController.OnActionExecuting: a session with neither AdminUser nor
    StudentUser set is sent to Account/Login before any action of a
    controller derived from BaseController runs.
  */
  predicate SignedOut(s: Session)
  {
    Unset(s, "AdminUser") && Unset(s, "StudentUser")
  }

  /** Session.Remove for several keys at once. */
  function RemoveKeys(s: Session, keys: set<string>): (r: Session)
    ensures forall k :: k in r <==> k in s && k !in keys
    ensures forall k :: k in r ==> r[k] == s[k]
  {
    s - keys
  }

  /** The result of a controller action. */
  datatype ActionResult =
    | Redirect(action: string, controller: string)  // RedirectToAction
    | Page(error: string)                           // the view again; "" when no message is shown
    | NotFoundPage                                  // NotFound()
    | Exception                                     // an exception from the store escapes the action
}
