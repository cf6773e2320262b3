/**
  Account pages: sign-up by one-time code, the code check that finishes a
  registration, an admin-made student account or a sign-in, password
  sign-in, and sign-out. All state between requests lives in the session;
  the expiry is kept there as decimal text of the time in seconds.
*/
module AccountPages {
  import opened Util
  import opened StoreFile
  import opened StudentStore
  import opened Otp
  import opened Auth
  import opened Web

  const OtpLifetime := 120  // AddMinutes(2)

  const OtpKeys: set<string> :=
    {"OtpCode", "OtpExpiry", "PendingUserEmail", "PendingUserPassword", "OtpPurpose", "PendingUserType"}
  const CreationKeys: set<string> := {"PendingUserName", "PendingUserAge", "PendingUserCourse"}

  const UserExistsMessage := "User with this email already exists"
  const SessionInvalidMessage := "Session expired or invalid"
  const OtpExpiredMessage := "OTP has expired"
  const InvalidOtpMessage := "Invalid OTP"
  const NotRegisteredMessage := "Email not registered"
  const WrongPasswordMessage := "Incorrect password"
  const ResetSentMessage := "Password reset link sent to your email"
  const EmailNotFoundMessage := "Email not found"
  const InvalidTokenMessage := "Invalid or expired reset token"

  function Dashboard(): ActionResult
  {
    Redirect("Dashboard", "Home")
  }

  /** The keys SignUp writes for a new email. */
  function SignUpSession(s: Session, email: string, password: string, code: string, now: nat): (r: Session)
    ensures r.Keys == s.Keys + {"PendingUserEmail", "PendingUserPassword", "OtpPurpose", "OtpCode", "OtpExpiry"}
    ensures r["OtpPurpose"] == "Registration" && r["OtpCode"] == code
    ensures ParseNat(r["OtpExpiry"]) == Some(now + OtpLifetime)
  {
    ParseNatToString(now + OtpLifetime);
    s["PendingUserEmail" := email]["PendingUserPassword" := password]["OtpPurpose" := "Registration"]
     ["OtpCode" := code]["OtpExpiry" := NatToString(now + OtpLifetime)]
  }

  /** What a code check leads to, decided from the session before it. */
  datatype OtpStep =
    | Rejected(message: string)
    | Register(email: string, password: string, name: string, age: int, course: string, after: Session)
    | SignIn(after: Session)

  /**
    VerifyOtp (POST) as a decision on the session: a missing or unreadable
    expiry, a wrong code or a late one is rejected with its message and
    the session is left as it is. An accepted code removes the code and
    pending keys, then registers (for "Registration" and "StudentCreation")
    or signs in as a student or, by default, an admin.
  */
  function OtpDispatch(s: Session, otp: string, now: nat): (r: OtpStep)
    ensures r.Rejected? <==>
      ParseNat(GetOr(s, "OtpExpiry", "")).None? ||
      !IsValid(otp, GetOr(s, "OtpCode", ""), ParseNat(GetOr(s, "OtpExpiry", "")).value, now)
    ensures r.Rejected? && ParseNat(GetOr(s, "OtpExpiry", "")).Some? ==>
      r.message == (if now > ParseNat(GetOr(s, "OtpExpiry", "")).value then OtpExpiredMessage else InvalidOtpMessage)
    ensures r.Register? ==> r.email == GetOr(s, "PendingUserEmail", "") && r.password == GetOr(s, "PendingUserPassword", "")
    ensures !r.Rejected? ==> forall k :: k in OtpKeys ==> k !in r.after
    ensures r.Register? ==> "StudentUser" in r.after && r.after["StudentUser"] == r.email
    ensures r.SignIn? ==>
      var key := if GetOr(s, "PendingUserType", "Admin") == "Student" then "StudentUser" else "AdminUser";
      r.after == RemoveKeys(s, OtpKeys)[key := GetOr(s, "PendingUserEmail", "")]
  {
    var storedOtp := GetOr(s, "OtpCode", "");
    var email := GetOr(s, "PendingUserEmail", "");
    var password := GetOr(s, "PendingUserPassword", "");
    var purpose := GetOr(s, "OtpPurpose", "");
    var userType := GetOr(s, "PendingUserType", "Admin");
    match ParseNat(GetOr(s, "OtpExpiry", ""))
    case None => Rejected(SessionInvalidMessage)
    case Some(expiry) =>
      if !IsValid(otp, storedOtp, expiry, now) then
        Rejected(if now > expiry then OtpExpiredMessage else InvalidOtpMessage)
      else
        var cleared := RemoveKeys(s, OtpKeys);
        if purpose == "Registration" then
          Register(email, password, DefaultName, DefaultAge, DefaultCourse, cleared["StudentUser" := email])
        else if purpose == "StudentCreation" then
          var name := GetOr(s, "PendingUserName", DefaultName);
          var age := match ParseInt(GetOr(s, "PendingUserAge", "18")) case Some(a) => a case None => DefaultAge;
          var course := GetOr(s, "PendingUserCourse", DefaultCourse);
          Register(email, password, name, age, course, RemoveKeys(cleared, CreationKeys)["StudentUser" := email])
        else if userType == "Student" then SignIn(cleared["StudentUser" := email])
        else SignIn(cleared["AdminUser" := email])
  }

  /**
    Sign-up round trip: after SignUp stored a code for an email, entering
    that code in time registers exactly that email and password with the
    default profile and signs the new student in; entering it late is
    rejected as expired.
  */
  lemma SignUpThenVerify(s: Session, email: string, password: string, draw: int, now: nat, later: nat)
    requires InDrawRange(draw)
    ensures var code := GenerateOtp(draw);
      var after := SignUpSession(s, email, password, code, now);
      (later <= now + OtpLifetime ==>
        OtpDispatch(after, code, later) ==
          Register(email, password, DefaultName, DefaultAge, DefaultCourse,
                   RemoveKeys(s, OtpKeys)["StudentUser" := email])) &&
      (later > now + OtpLifetime ==> OtpDispatch(after, code, later) == Rejected(OtpExpiredMessage))
  {
    var code := GenerateOtp(draw);
    var after := SignUpSession(s, email, password, code, now);
    assert RemoveKeys(after, OtpKeys) == RemoveKeys(s, OtpKeys);
  }

  /** The error Login shows when neither the admin nor the student check accepts. */
  function LoginError(v: Validation): string
  {
    if v == Refused(AccountNotFound) then NotRegisteredMessage else WrongPasswordMessage
  }

  class AccountController {
    var session: Session
    const auth: AuthService

    constructor (service: AuthService, initial: Session)
      ensures auth == service && session == initial
    {
      auth := service;
      session := initial;
    }

    /**
      SignUp (POST): an unregistered email gets a fresh code valid for two
      minutes, kept in the session with the pending credentials; a
      registered one gets the error and the session is unchanged.
    */
    method SignUp(email: string, password: string, modelValid: bool, draw: int, now: nat) returns (r: ActionResult)
      requires InDrawRange(draw)
      modifies this
      ensures !modelValid ==> r == Page("") && session == old(session)
      ensures modelValid && auth.UserExists(email).Threw? ==> r == Exception && session == old(session)
      ensures modelValid && auth.UserExists(email) == Done(true) ==> r == Page(UserExistsMessage) && session == old(session)
      ensures modelValid && auth.UserExists(email) == Done(false) ==>
        r == Redirect("VerifyOtp", "Account") &&
        session == SignUpSession(old(session), email, password, GenerateOtp(draw), now)
    {
      if !modelValid {
        return Page("");
      }
      var found := auth.UserExists(email);
      if found.Threw? {
        return Exception;
      }
      if found.value {
        return Page(UserExistsMessage);
      }
      var otp := GenerateOtp(draw);
      var expiry := now + OtpLifetime;
      session := session["PendingUserEmail" := email];
      session := session["PendingUserPassword" := password];
      session := session["OtpPurpose" := "Registration"];
      session := session["OtpCode" := otp];
      session := session["OtpExpiry" := NatToString(expiry)];
      r := Redirect("VerifyOtp", "Account");
    }

    /** VerifyOtp (GET): back to the login page when no email is pending. */
    function VerifyOtpPage(): (r: ActionResult)
      reads this
      ensures r == Redirect("Login", "Account") <==> Unset(session, "PendingUserEmail")
      ensures r != Redirect("Login", "Account") ==> r == Page("")
    {
      if Unset(session, "PendingUserEmail") then Redirect("Login", "Account") else Page("")
    }

    /**
      VerifyOtp (POST), proved against OtpDispatch. A registration that
      throws leaves the code keys removed and nobody signed in; a
      registration refused for a taken email still signs the email in.
    */
    method VerifyOtp(otp: string, now: nat, hash: string -> string) returns (r: ActionResult)
      modifies this, auth.students
      ensures match OtpDispatch(old(session), otp, now)
        case Rejected(message) =>
          r == Page(message) && session == old(session) && auth.students.file == old(auth.students.file)
        case SignIn(after) =>
          r == Dashboard() && session == after && auth.students.file == old(auth.students.file)
        case Register(email, password, name, age, course, after) =>
          var reg := RegisterFile(old(auth.students.file), email, password, name, age, course, DefaultRole, hash);
          auth.students.file == reg.1 &&
          (reg.0.Threw? ==> r == Exception && session == RemoveKeys(old(session), OtpKeys)) &&
          (reg.0.Done? ==> r == Dashboard() && session == after)
    {
      var step := OtpDispatch(session, otp, now);
      if step.Rejected? {
        return Page(step.message);
      }
      session := RemoveKeys(session, OtpKeys);
      if step.SignIn? {
        session := step.after;
        return Dashboard();
      }
      var done := auth.RegisterStudent(step.email, step.password, step.name, step.age, step.course, DefaultRole, hash);
      if done.Threw? {
        return Exception;
      }
      session := step.after;
      r := Dashboard();
    }

    /** Login (GET): a signed-in admin or student goes straight to the dashboard. */
    function LoginPage(): (r: ActionResult)
      reads this
      ensures r == Dashboard() <==> !Unset(session, "AdminUser") || !Unset(session, "StudentUser")
      ensures r != Dashboard() ==> r == Page("")
    {
      if !Unset(session, "AdminUser") || !Unset(session, "StudentUser") then Dashboard() else Page("")
    }

    /**
      Login (POST), with the outcome of the admin check as a parameter: an
      accepted admin, then an accepted student, is signed in; otherwise the
      page says whether the email is unknown or the password wrong.
    */
    method Login(email: string, password: string, modelValid: bool, adminValid: bool, hash: string -> string)
      returns (r: ActionResult)
      modifies this
      ensures !modelValid ==> r == Page("") && session == old(session)
      ensures modelValid && adminValid ==> r == Dashboard() && session == old(session)["AdminUser" := email]
      ensures modelValid && !adminValid ==>
        match auth.ValidateStudent(email, password, hash)
        case Threw => r == Exception && session == old(session)
        case Done(Accepted(_)) => r == Dashboard() && session == old(session)["StudentUser" := email]
        case Done(v) => r == Page(LoginError(v)) && session == old(session)
    {
      if !modelValid {
        return Page("");
      }
      if adminValid {
        session := session["AdminUser" := email];
        return Dashboard();
      }
      var v := auth.ValidateStudent(email, password, hash);
      if v.Threw? {
        return Exception;
      }
      if v.value.Accepted? {
        session := session["StudentUser" := email];
        return Dashboard();
      }
      var found := auth.UserExists(email);
      r := Page(if !found.value then NotRegisteredMessage else WrongPasswordMessage);
    }

    /** StudentLogin (GET): a signed-in student goes straight to the dashboard. */
    function StudentLoginPage(): (r: ActionResult)
      reads this
      ensures r == Dashboard() <==> !Unset(session, "StudentUser")
      ensures r != Dashboard() ==> r == Page("")
    {
      if !Unset(session, "StudentUser") then Dashboard() else Page("")
    }

    /** StudentLogin (POST): as Login without the admin check. */
    method StudentLogin(email: string, password: string, modelValid: bool, hash: string -> string)
      returns (r: ActionResult)
      modifies this
      ensures !modelValid ==> r == Page("") && session == old(session)
      ensures modelValid ==>
        match auth.ValidateStudent(email, password, hash)
        case Threw => r == Exception && session == old(session)
        case Done(Accepted(_)) => r == Dashboard() && session == old(session)["StudentUser" := email]
        case Done(v) => r == Page(LoginError(v)) && session == old(session)
    {
      if !modelValid {
        return Page("");
      }
      var v := auth.ValidateStudent(email, password, hash);
      if v.Threw? {
        return Exception;
      }
      if v.value.Accepted? {
        session := session["StudentUser" := email];
        return Dashboard();
      }
      var found := auth.UserExists(email);
      r := Page(if !found.value then NotRegisteredMessage else WrongPasswordMessage);
    }

    /** Logout: the whole session is cleared. */
    method Logout() returns (r: ActionResult)
      modifies this
      ensures session == map[] && r == Redirect("Login", "Account")
    {
      session := map[];
      r := Redirect("Login", "Account");
    }

    /**
      ForgotPassword (POST): a registered email is told a link was sent (the
      link carries the empty stub token); an unknown one gets an error.
    */
    function ForgotPassword(email: string, modelValid: bool): (r: ActionResult)
      reads auth.students
      ensures !modelValid ==> r == Page("")
      ensures modelValid ==>
        match auth.UserExists(email)
        case Threw => r == Exception
        case Done(true) => r == Page(ResetSentMessage)
        case Done(false) => r == Page(EmailNotFoundMessage)
    {
      if !modelValid then Page("")
      else
        match auth.UserExists(email)
        case Threw => Exception
        case Done(found) => Page(if found then ResetSentMessage else EmailNotFoundMessage)
    }

    /** ResetPassword (GET): with the token check a stub, every request goes back to the login page. */
    function ResetPasswordPage(email: string, token: string): (r: ActionResult)
      ensures r == Redirect("Login", "Account")
    {
      if email == "" || token == "" then Redirect("Login", "Account")
      else if !ValidateResetToken(email, token) then Redirect("Login", "Account")
      else Page("")
    }

    /** ResetPassword (POST): a valid form always gets the invalid-token error. */
    function ResetPasswordPost(email: string, newPassword: string, token: string, modelValid: bool): (r: ActionResult)
      ensures modelValid ==> r == Page(InvalidTokenMessage)
      ensures !modelValid ==> r == Page("")
    {
      if modelValid && ResetPassword(email, newPassword, token) then Redirect("Login", "Account")
      else if modelValid then Page(InvalidTokenMessage)
      else Page("")
    }
  }

  /** The two sign-in error messages tell apart an unknown email from a wrong password. */
  lemma LoginErrorMeaning(ss: seq<Student>, email: string, password: string, hash: string -> string)
    requires ValidateIn(ss, email, password, hash).Refused?
    ensures LoginError(ValidateIn(ss, email, password, hash)) == NotRegisteredMessage <==> !UserExistsIn(ss, email)
    ensures LoginError(ValidateIn(ss, email, password, hash)) == WrongPasswordMessage <==> UserExistsIn(ss, email)
  {
  }
}
