/**
  The account administration pages. Every action except the activity
  report needs the session's Role to be "Admin". New admins and new
  students are confirmed by a one-time code: the form is parked in the
  session, and the code check finishes the creation.
*/
module StudentPages {
  import opened Util
  import opened StoreFile
  import opened StudentStore
  import opened Otp
  import opened Auth
  import opened Web
  import opened AccountPages
  import opened Clock
  import opened Activity

  const PinMismatchMessage := "Security PINs do not match"
  const PinLengthMessage := "Security PIN must be 4-6 digits"
  const CredentialsRequiredMessage := "Email and Password are required"
  const AdminExistsMessage := "User already exists"
  const InvalidSessionMessage := "Invalid Session"
  /** The start of the page error Edit (POST) shows when the save throws; the exception's message is not modelled. */
  const UpdateFailedMessage := "Error updating user: "

  const AdminKeys: set<string> :=
    {"OtpCode", "OtpExpiry", "PendingAdminEmail", "PendingAdminPassword", "PendingAdminName", "PendingAdminPin", "OtpPurpose"}

  function AccessDenied(): ActionResult
  {
    Redirect("AccessDenied", "Account")
  }

  /** The admin check every management action starts with. */
  predicate IsAdmin(s: Session)
  {
    "Role" in s && s["Role"] == "Admin"
  }

  /** Past BaseController's login gate and in the Admin role: the action's own work runs. */
  predicate Admitted(s: Session)
  {
    !SignedOut(s) && IsAdmin(s)
  }

  /** Past the login gate but not an admin: the action answers AccessDenied. */
  predicate Denied(s: Session)
  {
    !SignedOut(s) && !IsAdmin(s)
  }

  /**
    The security-PIN rule of the create and edit forms: an empty PIN is
    allowed; any other must equal its confirmation and be 4 to 6
    characters long. Digits are not checked.
  */
  function PinError(pin: string, confirm: string): (r: Option<string>)
    ensures r.None? <==> pin == "" || (pin == confirm && 4 <= |pin| <= 6)
    ensures r == Some(PinMismatchMessage) <==> pin != "" && pin != confirm
    ensures r.Some? ==> r.value in {PinMismatchMessage, PinLengthMessage}
  {
    if pin == "" then None
    else if pin != confirm then Some(PinMismatchMessage)
    else if |pin| < 4 || |pin| > 6 then Some(PinLengthMessage)
    else None
  }

  /** The course a form stores: admins are always in "Administration", and an empty course becomes "General". */
  function CourseFor(role: string, course: string): (c: string)
    ensures c != ""
    ensures role == "Admin" ==> c == "Administration"
    ensures role != "Admin" ==> c == course || (course == "" && c == "General")
  {
    if role == "Admin" then "Administration"
    else if course == "" then "General"
    else course
  }

  /** What an action shows: a redirect, error page and so on, or the account list or one account. */
  datatype StudentsView =
    | Act(result: ActionResult)
    | ListPage(students: seq<Student>)
    | StudentPage(student: Student)
    | ReportPage(report: DailyActivityReport)

  // -------------------------------------------------------------------
  // Creating an admin
  // -------------------------------------------------------------------

  /** Sets the PIN key to a non-empty PIN, and removes it otherwise. */
  function WithPin(s: Session, key: string, pin: string): (r: Session)
    ensures key in r <==> pin != ""
    ensures pin != "" ==> r[key] == pin
    ensures forall k :: k != key ==> (k in r <==> k in s)
    ensures forall k :: k in r && k != key ==> r[k] == s[k]
  {
    if pin != "" then s[key := pin] else RemoveKeys(s, {key})
  }

  /** Parks a fresh code for the given purpose, valid for two minutes. */
  function WithCode(s: Session, purpose: string, code: string, now: nat): (r: Session)
    ensures r.Keys == s.Keys + {"OtpPurpose", "OtpCode", "OtpExpiry"}
    ensures r["OtpPurpose"] == purpose && r["OtpCode"] == code
    ensures ParseNat(r["OtpExpiry"]) == Some(now + OtpLifetime)
    ensures forall k :: k in s && k !in {"OtpPurpose", "OtpCode", "OtpExpiry"} ==> r[k] == s[k]
  {
    ParseNatToString(now + OtpLifetime);
    s["OtpPurpose" := purpose]["OtpCode" := code]["OtpExpiry" := NatToString(now + OtpLifetime)]
  }

  /** The keys CreateAdmin (POST) parks for the code check. */
  function AdminPendingSession(s: Session, email: string, password: string, name: string, pin: string,
                               code: string, now: nat): (r: Session)
    ensures {"PendingAdminEmail", "PendingAdminPassword", "PendingAdminName", "OtpPurpose", "OtpCode", "OtpExpiry"} <= r.Keys
    ensures r["PendingAdminEmail"] == email && r["PendingAdminPassword"] == password && r["PendingAdminName"] == name
    ensures r["OtpPurpose"] == "AdminCreation" && r["OtpCode"] == code
    ensures ParseNat(r["OtpExpiry"]) == Some(now + OtpLifetime)
    ensures ("PendingAdminPin" in r <==> pin != "") && (pin != "" ==> r["PendingAdminPin"] == pin)
    ensures forall k :: k in r && k !in AdminKeys ==> k in s && r[k] == s[k]
  {
    var s1 := WithPin(s, "PendingAdminPin", pin);
    var s2 := s1["PendingAdminEmail" := email]["PendingAdminPassword" := password]["PendingAdminName" := name];
    WithCode(WithPin(s2, "PendingAdminPin", pin), "AdminCreation", code, now)
  }

  /** What the admin code check leads to. */
  datatype AdminStep = AdminRejected(message: string) | AdminCreated(admin: Student, after: Session)

  /** The record VerifyAdminOtp hands to the store, with the PIN hashed when one is pending. */
  function NewAdmin(email: string, password: string, name: string, pin: string, hash: string -> string): (a: Student)
    ensures a.email == email && a.password == password && a.name == name
    ensures a.age == Some(25) && a.course == "Administration" && a.role == "Admin"
    ensures a.isSecurityEnabled <==> pin != ""
    ensures a.securityPinHash == (if pin != "" then hash(pin) else "")
  {
    var a := Student(0, email, password, name, Some(25), "Administration", "Admin", "", "", false);
    if pin != "" then a.(securityPinHash := hash(pin), isSecurityEnabled := true) else a
  }

  /**
    VerifyAdminOtp (POST) as a decision on the session: it needs a
    readable expiry and the purpose "AdminCreation"; a valid code creates
    the admin and clears every pending key.
  */
  function AdminOtpDispatch(s: Session, otp: string, now: nat, hash: string -> string): (r: AdminStep)
    ensures r.AdminCreated? <==>
      ParseNat(GetOr(s, "OtpExpiry", "")).Some? && GetOr(s, "OtpPurpose", "") == "AdminCreation" &&
      IsValid(otp, GetOr(s, "OtpCode", ""), ParseNat(GetOr(s, "OtpExpiry", "")).value, now)
    ensures r.AdminCreated? ==> r.after == RemoveKeys(s, AdminKeys)
    ensures r.AdminCreated? ==>
      r.admin == NewAdmin(GetOr(s, "PendingAdminEmail", ""), GetOr(s, "PendingAdminPassword", ""),
                          GetOr(s, "PendingAdminName", "Admin"), GetOr(s, "PendingAdminPin", ""), hash)
    ensures r == AdminRejected(InvalidSessionMessage) <==>
      ParseNat(GetOr(s, "OtpExpiry", "")).None? || GetOr(s, "OtpPurpose", "") != "AdminCreation"
  {
    var storedOtp := GetOr(s, "OtpCode", "");
    var email := GetOr(s, "PendingAdminEmail", "");
    var password := GetOr(s, "PendingAdminPassword", "");
    var name := GetOr(s, "PendingAdminName", "Admin");
    var purpose := GetOr(s, "OtpPurpose", "");
    match ParseNat(GetOr(s, "OtpExpiry", ""))
    case None => AdminRejected(InvalidSessionMessage)
    case Some(expiry) =>
      if purpose != "AdminCreation" then AdminRejected(InvalidSessionMessage)
      else if IsValid(otp, storedOtp, expiry, now) then
        var pin := GetOr(s, "PendingAdminPin", "");
        AdminCreated(NewAdmin(email, password, name, pin, hash), RemoveKeys(s, AdminKeys))
      else AdminRejected(if now > expiry then OtpExpiredMessage else InvalidOtpMessage)
  }

  /**
    Admin creation round trip: the code parked by CreateAdmin, entered in
    time, creates an admin with the form's email, password and name, a
    PIN hash exactly when a PIN was given, and leaves no pending key.
  */
  lemma CreateAdminThenVerify(s: Session, email: string, password: string, name: string, pin: string,
                              draw: int, now: nat, later: nat, hash: string -> string)
    requires InDrawRange(draw)
    requires later <= now + OtpLifetime
    ensures var code := GenerateOtp(draw);
      var step := AdminOtpDispatch(AdminPendingSession(s, email, password, name, pin, code, now), code, later, hash);
      step.AdminCreated? && step.admin == NewAdmin(email, password, name, pin, hash) &&
      forall k :: k in AdminKeys ==> k !in step.after
  {
  }

  // -------------------------------------------------------------------
  // Creating a student
  // -------------------------------------------------------------------

  const FormKeys: set<string> := {"PendingUserEmail", "PendingUserPassword", "PendingUserName", "PendingUserAge",
                                  "PendingUserCourse", "PendingUserRole", "PendingUserWidgets"}

  /** The form fields Create (POST) parks before it looks at the PIN. */
  function StudentFormSession(s: Session, email: string, password: string, name: string, age: int,
                              course: string, role: string, widgetsCsv: string): (r: Session)
    ensures FormKeys <= r.Keys
    ensures r["PendingUserEmail"] == email && r["PendingUserPassword"] == password && r["PendingUserName"] == name
    ensures r["PendingUserAge"] == IntToString(age)
    ensures r["PendingUserCourse"] == course && r["PendingUserRole"] == role && r["PendingUserWidgets"] == widgetsCsv
    ensures forall k :: k !in FormKeys ==> (k in r <==> k in s)
    ensures forall k :: k in s && k !in FormKeys ==> r[k] == s[k]
  {
    s["PendingUserEmail" := email]["PendingUserPassword" := password]["PendingUserName" := name]
     ["PendingUserAge" := IntToString(age)]["PendingUserCourse" := course]["PendingUserRole" := role]
     ["PendingUserWidgets" := widgetsCsv]
  }

  /** The session Create (POST) leaves when the form is accepted: the form, the PIN if any, and the code. */
  function StudentPendingSession(s: Session, email: string, password: string, name: string, age: int,
                                 course: string, role: string, widgetsCsv: string, pin: string,
                                 code: string, now: nat): Session
  {
    var s1 := StudentFormSession(s, email, password, name, age, course, role, widgetsCsv);
    var s2 := StudentFormSession(WithPin(s1, "PendingUserPin", pin), email, password, name, age, course, role, widgetsCsv);
    WithCode(s2, "StudentCreation", code, now)
  }

  /** The accepted form leaves the code for "StudentCreation", the form fields and the PIN exactly when one was given. */
  lemma StudentPendingSessionKeys(s: Session, email: string, password: string, name: string, age: int,
                                  course: string, role: string, widgetsCsv: string, pin: string, code: string, now: nat)
    ensures var r := StudentPendingSession(s, email, password, name, age, course, role, widgetsCsv, pin, code, now);
      {"OtpPurpose", "OtpCode", "OtpExpiry"} <= r.Keys && FormKeys <= r.Keys &&
      r["OtpPurpose"] == "StudentCreation" && r["OtpCode"] == code && ParseNat(r["OtpExpiry"]) == Some(now + OtpLifetime) &&
      r["PendingUserEmail"] == email && r["PendingUserPassword"] == password && r["PendingUserName"] == name &&
      ParseInt(r["PendingUserAge"]) == Some(age) && r["PendingUserCourse"] == course &&
      ("PendingUserPin" in r <==> pin != "") && (pin != "" ==> r["PendingUserPin"] == pin)
  {
    var s1 := StudentFormSession(s, email, password, name, age, course, role, widgetsCsv);
    var p := WithPin(s1, "PendingUserPin", pin);
    var s2 := StudentFormSession(p, email, password, name, age, course, role, widgetsCsv);
    FormKeepsPin(p, email, password, name, age, course, role, widgetsCsv, pin);
    CodeKeepsForm(s2, "StudentCreation", code, now);
    ParseIntToString(age);
  }

  lemma FormKeepsPin(p: Session, email: string, password: string, name: string, age: int,
                     course: string, role: string, widgetsCsv: string, pin: string)
    requires ("PendingUserPin" in p <==> pin != "") && (pin != "" ==> p["PendingUserPin"] == pin)
    ensures var s2 := StudentFormSession(p, email, password, name, age, course, role, widgetsCsv);
      ("PendingUserPin" in s2 <==> pin != "") && (pin != "" ==> s2["PendingUserPin"] == pin)
  {
    assert "PendingUserPin" !in FormKeys;
  }

  /** Parking the code leaves the form fields and the PIN as they were. */
  lemma CodeKeepsForm(s2: Session, purpose: string, code: string, now: nat)
    ensures var r := WithCode(s2, purpose, code, now);
      ("PendingUserPin" in r <==> "PendingUserPin" in s2) &&
      ("PendingUserPin" in s2 ==> r["PendingUserPin"] == s2["PendingUserPin"]) &&
      forall k :: k in FormKeys && k in s2 ==> r[k] == s2[k]
  {
    assert forall k :: k in FormKeys ==> k !in {"OtpPurpose", "OtpCode", "OtpExpiry"};
  }

  /**
    Student creation round trip, across the two controllers: the code that
    Create parked, entered in time on the account page, registers the
    form's email, password, name, age and course and signs the new student
    in. The role, widgets and PIN chosen on the form are not carried over:
    the account gets the default role.
  */
  lemma CreateThenVerifyOtp(s: Session, email: string, password: string, name: string, age: int, course: string,
                            role: string, widgetsCsv: string, pin: string, draw: int, now: nat, later: nat)
    requires InDrawRange(draw)
    requires later <= now + OtpLifetime
    ensures var code := GenerateOtp(draw);
      var step := OtpDispatch(StudentPendingSession(s, email, password, name, age, course, role, widgetsCsv, pin, code, now),
                              code, later);
      step.Register? && step.email == email && step.password == password && step.name == name &&
      step.age == age && step.course == course
  {
    StudentPendingSessionKeys(s, email, password, name, age, course, role, widgetsCsv, pin, GenerateOtp(draw), now);
  }

  // -------------------------------------------------------------------
  // Editing a student
  // -------------------------------------------------------------------

  /**
    The record Edit (POST) builds from the stored one: the form's name,
    email, password, age, role and widgets; a new PIN is hashed and turns
    security on; the course follows the role.
  */
  function EditRecord(original: Student, form: Student, widgetsCsv: string, pin: string, hash: string -> string)
    : (r: Student)
    ensures r.id == original.id
    ensures r.name == form.name && r.email == form.email && r.password == form.password
    ensures r.age == form.age && r.role == form.role && r.widgetPermissions == widgetsCsv
    ensures pin != "" ==> r.securityPinHash == hash(pin) && r.isSecurityEnabled
    ensures pin == "" ==> r.securityPinHash == original.securityPinHash && r.isSecurityEnabled == original.isSecurityEnabled
    ensures form.role == "Admin" ==> r.course == "Administration"
    ensures form.role != "Admin" ==> r.course == (if original.course == "" then "General" else original.course)
  {
    var r := original.(name := form.name, email := form.email, password := form.password, age := form.age,
                       role := form.role, widgetPermissions := widgetsCsv);
    var r := if pin != "" then r.(securityPinHash := hash(pin), isSecurityEnabled := true) else r;
    if form.role == "Admin" then r.(course := "Administration")
    else if r.course == "" then r.(course := "General")
    else r
  }

  /**
    As written, Edit stores its record through UpdateStudent, which copies
    only seven fields: the new PIN hash and the security flag never reach
    the file. Whenever the account found by the form's id is edited with a
    PIN whose hash differs from the stored one, the record saved under that
    id keeps the old hash and the old security flag.
  */
  lemma {:induction false} EditAsWrittenDropsPin(ss: seq<Student>, original: Student, form: Student, widgetsCsv: string,
                                                 pin: string, hash: string -> string)
    requires FindStudent(ss, form.id) == Some(original)
    requires pin != "" && hash(pin) != original.securityPinHash
    ensures var edited := EditRecord(original, form, widgetsCsv, pin, hash);
      edited.securityPinHash == hash(pin) && edited.isSecurityEnabled &&
      UpdateIn(ss, edited).Some? &&
      FindStudent(UpdateIn(ss, edited).value, form.id) == Some(CopyEditable(original, edited)) &&
      var saved := FindStudent(UpdateIn(ss, edited).value, form.id).value;
      saved.securityPinHash == original.securityPinHash != hash(pin) &&
      saved.isSecurityEnabled == original.isSecurityEnabled
  {
    var edited := EditRecord(original, form, widgetsCsv, pin, hash);
    var k := IndexWhere(ss, HasId(form.id)).value;
    var r := ss[k := CopyEditable(ss[k], edited)];
    assert UpdateIn(ss, edited) == Some(r);
    assert HasId(form.id)(r[k]);
    var m := IndexWhere(r, HasId(form.id));
    assert m.Some?;
    assert m.value == k;
  }

  /**
    Corrected: storing the edited record with its security fields keeps
    the new PIN. After an edit with a PIN of an account found by id, the
    stored account has that PIN's hash and security on.
  */
  lemma EditStoresPin(ss: seq<Student>, original: Student, form: Student, widgetsCsv: string, pin: string,
                      hash: string -> string)
    requires Distinct(Ids(ss)) && original in ss
    requires pin != ""
    ensures var edited := EditRecord(original, form, widgetsCsv, pin, hash);
      UpdateWithSecurityIn(ss, edited).Some? &&
      FindStudent(UpdateWithSecurityIn(ss, edited).value, original.id).Some? &&
      var saved := FindStudent(UpdateWithSecurityIn(ss, edited).value, original.id).value;
      saved.securityPinHash == hash(pin) && saved.isSecurityEnabled && saved.name == form.name
  {
    var edited := EditRecord(original, form, widgetsCsv, pin, hash);
    var i :| 0 <= i < |ss| && ss[i] == original;
    assert Ids(ss)[i] == original.id;
    var r := UpdateWithSecurityIn(ss, edited).value;
    var k :| 0 <= k < |ss| && ss[k].id == edited.id && r == ss[k := CopyWithSecurity(ss[k], edited)];
    assert Ids(r) == Ids(ss);
    FindStudentUnique(r, original.id, k);
  }

  class StudentsController {
    var session: Session
    const students: StudentService
    const auth: AuthService
    const activity: ActivityService

    constructor (store: StudentService, service: AuthService, visits: ActivityService, initial: Session)
      ensures students == store && auth == service && activity == visits && session == initial
    {
      students := store;
      auth := service;
      activity := visits;
      session := initial;
    }

    /**
      DailyActivity: the login page for a signed-out caller; otherwise the
      activity report, whatever the role; "Custom" without a date reports
      the current UTC day.
    */
    function DailyActivity(filter: string, customDate: Option<nat>, now: nat, utcNow: nat): (r: StudentsView)
      reads this, activity
      ensures SignedOut(session) ==> r == Act(Redirect("Login", "Account"))
      ensures !SignedOut(session) ==> r.ReportPage?
      ensures !SignedOut(session) && filter == "Custom" && customDate.None? ==>
        r.report.displayDate == ShortDate(DayOf(utcNow))
      ensures !SignedOut(session) && (filter != "Custom" || customDate.Some?) ==>
        r == ReportPage(activity.GetReport(filter, customDate, now))
    {
      if SignedOut(session) then Act(Redirect("Login", "Account"))
      else
        var date := if filter == "Custom" && customDate.None? then Some(Midnight(utcNow)) else customDate;
        ReportPage(activity.GetReport(filter, date, now))
    }

    /** Index: the whole account list, for admins only. */
    function Index(): (r: StudentsView)
      reads this, students
      ensures SignedOut(session) ==> r == Act(Redirect("Login", "Account"))
      ensures Denied(session) ==> r == Act(AccessDenied())
      ensures Admitted(session) ==>
        match LoadStudents(students.file)
        case Threw => r == Act(Exception)
        case Done(ss) => r == ListPage(ss)
    {
      if SignedOut(session) then Act(Redirect("Login", "Account"))
      else if !IsAdmin(session) then Act(AccessDenied())
      else
        match LoadStudents(students.file)
        case Threw => Act(Exception)
        case Done(ss) => ListPage(ss)
    }

    /** Edit, Details and Delete (GET): the account with that id, or NotFound. */
    function ShowStudent(id: int): (r: StudentsView)
      reads this, students
      ensures SignedOut(session) ==> r == Act(Redirect("Login", "Account"))
      ensures Denied(session) ==> r == Act(AccessDenied())
      ensures Admitted(session) ==>
        match students.GetStudentById(id)
        case Threw => r == Act(Exception)
        case Done(None) => r == Act(NotFoundPage)
        case Done(Some(s)) => r == StudentPage(s) && s in LoadStudents(students.file).value && s.id == id
    {
      if SignedOut(session) then Act(Redirect("Login", "Account"))
      else if !IsAdmin(session) then Act(AccessDenied())
      else
        match students.GetStudentById(id)
        case Threw => Act(Exception)
        case Done(None) => Act(NotFoundPage)
        case Done(Some(s)) => StudentPage(s)
    }

    /** CreateAdmin (GET): clears a pending admin email and PIN left from an earlier form. */
    method CreateAdminPage() returns (r: ActionResult)
      modifies this
      ensures SignedOut(old(session)) ==> r == Redirect("Login", "Account") && session == old(session)
      ensures Denied(old(session)) ==> r == AccessDenied() && session == old(session)
      ensures Admitted(old(session)) ==>
        r == Page("") && session == RemoveKeys(old(session), {"PendingAdminEmail", "PendingAdminPin"})
    {
      if SignedOut(session) {
        return Redirect("Login", "Account");
      }
      if !IsAdmin(session) {
        return AccessDenied();
      }
      session := RemoveKeys(session, {"PendingAdminEmail"});
      session := RemoveKeys(session, {"PendingAdminPin"});
      r := Page("");
    }

    /**
      CreateAdmin (POST): with an email and a password not yet on file and
      an acceptable PIN, the form and a fresh code are parked in the
      session; any refusal leaves the session as it was.
    */
    method CreateAdmin(email: string, password: string, name: Option<string>, pin: string, confirmPin: string,
                       draw: int, now: nat) returns (r: ActionResult)
      requires InDrawRange(draw)
      modifies this
      ensures SignedOut(old(session)) ==> r == Redirect("Login", "Account") && session == old(session)
      ensures Denied(old(session)) ==> r == AccessDenied() && session == old(session)
      ensures Admitted(old(session)) && (email == "" || password == "") ==>
        r == Page(CredentialsRequiredMessage) && session == old(session)
      ensures Admitted(old(session)) && email != "" && password != "" ==>
        match auth.UserExists(email)
        case Threw => r == Exception && session == old(session)
        case Done(true) => r == Page(AdminExistsMessage) && session == old(session)
        case Done(false) =>
          match PinError(pin, confirmPin)
          case Some(message) => r == Page(message) && session == old(session)
          case None =>
            r == Redirect("VerifyAdminOtp", "Students") &&
            session == AdminPendingSession(old(session), email, password,
                                           match name case Some(n) => n case None => "Admin User",
                                           pin, GenerateOtp(draw), now)
    {
      if SignedOut(session) {
        return Redirect("Login", "Account");
      }
      if !IsAdmin(session) {
        return AccessDenied();
      }
      if email == "" || password == "" {
        return Page(CredentialsRequiredMessage);
      }
      var found := auth.UserExists(email);
      if found.Threw? {
        return Exception;
      }
      if found.value {
        return Page(AdminExistsMessage);
      }
      var otp := GenerateOtp(draw);
      var error := PinError(pin, confirmPin);
      if error.Some? {
        return Page(error.value);
      }
      ghost var start := session;
      var adminName := match name case Some(n) => n case None => "Admin User";
      var s1 := WithPin(session, "PendingAdminPin", pin);
      var s2 := s1["PendingAdminEmail" := email]["PendingAdminPassword" := password]["PendingAdminName" := adminName];
      session := WithCode(WithPin(s2, "PendingAdminPin", pin), "AdminCreation", otp, now);
      assert session == AdminPendingSession(start, email, password, adminName, pin, otp, now);
      r := Redirect("VerifyAdminOtp", "Students");
    }

    /** VerifyAdminOtp (GET): back to the list when no admin is pending. */
    function VerifyAdminOtpPage(): (r: ActionResult)
      reads this
      ensures SignedOut(session) ==> r == Redirect("Login", "Account")
      ensures Denied(session) ==> r == AccessDenied()
      ensures Admitted(session) ==> (r == Redirect("Index", "Students") <==> Unset(session, "PendingAdminEmail"))
    {
      if SignedOut(session) then Redirect("Login", "Account")
      else if !IsAdmin(session) then AccessDenied()
      else if Unset(session, "PendingAdminEmail") then Redirect("Index", "Students")
      else Page("")
    }

    /**
      VerifyAdminOtp (POST), proved against AdminOtpDispatch. `created` is
      the record handed to RegisterStudent(Student), an overload that is
      not part of this model, so the store itself is not changed here.
    */
    method VerifyAdminOtp(otp: string, now: nat, hash: string -> string) returns (r: ActionResult, created: Option<Student>)
      modifies this
      ensures SignedOut(old(session)) ==> r == Redirect("Login", "Account") && created.None? && session == old(session)
      ensures Denied(old(session)) ==> r == AccessDenied() && created.None? && session == old(session)
      ensures Admitted(old(session)) ==>
        match AdminOtpDispatch(old(session), otp, now, hash)
        case AdminRejected(message) => r == Page(message) && created.None? && session == old(session)
        case AdminCreated(admin, after) =>
          r == Redirect("Index", "Students") && created == Some(admin) && session == after
    {
      if SignedOut(session) {
        return Redirect("Login", "Account"), None;
      }
      if !IsAdmin(session) {
        return AccessDenied(), None;
      }
      var step := AdminOtpDispatch(session, otp, now, hash);
      if step.AdminRejected? {
        return Page(step.message), None;
      }
      created := Some(step.admin);
      session := RemoveKeys(session, AdminKeys);
      r := Redirect("Index", "Students");
    }

    /** Create (GET): clears a pending student email, name and PIN left from an earlier form. */
    method CreatePage() returns (r: ActionResult)
      modifies this
      ensures SignedOut(old(session)) ==> r == Redirect("Login", "Account") && session == old(session)
      ensures Denied(old(session)) ==> r == AccessDenied() && session == old(session)
      ensures Admitted(old(session)) ==>
        r == Page("") && session == RemoveKeys(old(session), {"PendingUserEmail", "PendingUserName", "PendingUserPin"})
    {
      if SignedOut(session) {
        return Redirect("Login", "Account");
      }
      if !IsAdmin(session) {
        return AccessDenied();
      }
      session := RemoveKeys(session, {"PendingUserEmail"});
      session := RemoveKeys(session, {"PendingUserName"});
      session := RemoveKeys(session, {"PendingUserPin"});
      r := Page("");
    }

    /**
      Create (POST): a missing age becomes 18 and the course follows the
      role. For a new email the form is parked in the session before the
      PIN is looked at, so a refused PIN leaves the form keys written; an
      accepted one parks the PIN and a fresh code for the account page.
    */
    method Create(email: string, password: string, name: string, age: Option<int>, course: string, role: string,
                  widgets: seq<string>, pin: string, confirmPin: string, modelValid: bool, draw: int, now: nat)
      returns (r: ActionResult)
      requires InDrawRange(draw)
      modifies this
      ensures SignedOut(old(session)) ==> r == Redirect("Login", "Account") && session == old(session)
      ensures Denied(old(session)) ==> r == AccessDenied() && session == old(session)
      ensures Admitted(old(session)) && !modelValid ==> r == Page("") && session == old(session)
      ensures Admitted(old(session)) && modelValid ==>
        var age' := match age case Some(a) => a case None => DefaultAge;
        var course' := CourseFor(role, course);
        var csv := Join(widgets, ",");
        match auth.UserExists(email)
        case Threw => r == Exception && session == old(session)
        case Done(true) => r == Page(UserExistsMessage) && session == old(session)
        case Done(false) =>
          match PinError(pin, confirmPin)
          case Some(message) =>
            r == Page(message) &&
            session == StudentFormSession(old(session), email, password, name, age', course', role, csv)
          case None =>
            r == Redirect("VerifyOtp", "Account") &&
            session == StudentPendingSession(old(session), email, password, name, age', course', role, csv, pin,
                                             GenerateOtp(draw), now)
    {
      if SignedOut(session) {
        return Redirect("Login", "Account");
      }
      if !IsAdmin(session) {
        return AccessDenied();
      }
      var age' := match age case Some(a) => a case None => DefaultAge;
      var course' := CourseFor(role, course);
      if !modelValid {
        return Page("");
      }
      var found := auth.UserExists(email);
      if found.Threw? {
        return Exception;
      }
      if found.value {
        return Page(UserExistsMessage);
      }
      r := ParkStudentForm(email, password, name, age', course', role, Join(widgets, ","), pin, confirmPin,
                           GenerateOtp(draw), now);
    }

    /** The part of Create (POST) after the email check: the form, then the PIN rule, then the PIN and the code. */
    method ParkStudentForm(email: string, password: string, name: string, age: int, course: string, role: string,
                           csv: string, pin: string, confirmPin: string, otp: string, now: nat)
      returns (r: ActionResult)
      modifies this
      ensures match PinError(pin, confirmPin)
        case Some(message) =>
          r == Page(message) && session == StudentFormSession(old(session), email, password, name, age, course, role, csv)
        case None =>
          r == Redirect("VerifyOtp", "Account") &&
          session == StudentPendingSession(old(session), email, password, name, age, course, role, csv, pin, otp, now)
    {
      ghost var start := session;
      var form := StudentFormSession(session, email, password, name, age, course, role, csv);
      session := form;
      var error := PinError(pin, confirmPin);
      if error.Some? {
        return Page(error.value);
      }
      var withPin := StudentFormSession(WithPin(form, "PendingUserPin", pin), email, password, name, age, course, role, csv);
      session := WithCode(withPin, "StudentCreation", otp, now);
      assert session == StudentPendingSession(start, email, password, name, age, course, role, csv, pin, otp, now);
      r := Redirect("VerifyOtp", "Account");
    }

    /**
      Edit (POST): after the PIN rule, the account found by the form's id
      is rebuilt by EditRecord and saved through UpdateStudent, which keeps
      the stored PIN hash and security flag (see EditAsWrittenDropsPin).
      A save that throws shows UpdateFailedMessage; it cannot throw here,
      since the file was just read. The session is not touched.
    */
    method Edit(form: Student, widgets: seq<string>, pin: string, confirmPin: string, modelValid: bool,
                hash: string -> string) returns (r: ActionResult)
      modifies students
      ensures !Admitted(session) || PinError(pin, confirmPin).Some? || !modelValid ==>
        students.file == old(students.file)
      ensures SignedOut(session) ==> r == Redirect("Login", "Account")
      ensures Denied(session) ==> r == AccessDenied()
      ensures Admitted(session) && PinError(pin, confirmPin).Some? ==> r == Page(PinError(pin, confirmPin).value)
      ensures Admitted(session) && PinError(pin, confirmPin).None? && !modelValid ==> r == Page("")
      ensures Admitted(session) && PinError(pin, confirmPin).None? && modelValid ==>
        match old(LoadStudents(students.file))
        case Threw => r == Exception && students.file == old(students.file)
        case Done(ss) =>
          match FindStudent(ss, form.id)
          case None => r == Redirect("Index", "Students") && students.file == old(students.file)
          case Some(original) =>
            var edited := EditRecord(original, form, Join(widgets, ","), pin, hash);
            r == Redirect("Index", "Students") && UpdateIn(ss, edited).Some? &&
            students.file == Records(UpdateIn(ss, edited).value)
    {
      if SignedOut(session) {
        return Redirect("Login", "Account");
      }
      if !IsAdmin(session) {
        return AccessDenied();
      }
      var csv := Join(widgets, ",");
      var error := PinError(pin, confirmPin);
      if error.Some? {
        return Page(error.value);
      }
      if !modelValid {
        return Page("");
      }
      var original := students.GetStudentById(form.id);
      if original.Threw? {
        return Exception;
      }
      if original.value.None? {
        return Redirect("Index", "Students");
      }
      var edited := EditRecord(original.value.value, form, csv, pin, hash);
      var saved := students.UpdateStudent(edited);
      r := if saved.Threw? then Page(UpdateFailedMessage) else Redirect("Index", "Students");
    }

    /**
      Edit (POST) corrected: as Edit, but the rebuilt account is saved with
      its security fields, so a new PIN is kept (see EditStoresPin).
    */
    method EditCorrected(form: Student, widgets: seq<string>, pin: string, confirmPin: string, modelValid: bool,
                hash: string -> string) returns (r: ActionResult)
      modifies students
      ensures !Admitted(session) || PinError(pin, confirmPin).Some? || !modelValid ==>
        students.file == old(students.file)
      ensures SignedOut(session) ==> r == Redirect("Login", "Account")
      ensures Denied(session) ==> r == AccessDenied()
      ensures Admitted(session) && PinError(pin, confirmPin).Some? ==> r == Page(PinError(pin, confirmPin).value)
      ensures Admitted(session) && PinError(pin, confirmPin).None? && !modelValid ==> r == Page("")
      ensures Admitted(session) && PinError(pin, confirmPin).None? && modelValid ==>
        match old(LoadStudents(students.file))
        case Threw => r == Exception && students.file == old(students.file)
        case Done(ss) =>
          match FindStudent(ss, form.id)
          case None => r == Redirect("Index", "Students") && students.file == old(students.file)
          case Some(original) =>
            var edited := EditRecord(original, form, Join(widgets, ","), pin, hash);
            r == Redirect("Index", "Students") && UpdateWithSecurityIn(ss, edited).Some? &&
            students.file == Records(UpdateWithSecurityIn(ss, edited).value)
    {
      if SignedOut(session) {
        return Redirect("Login", "Account");
      }
      if !IsAdmin(session) {
        return AccessDenied();
      }
      var csv := Join(widgets, ",");
      var error := PinError(pin, confirmPin);
      if error.Some? {
        return Page(error.value);
      }
      if !modelValid {
        return Page("");
      }
      var original := students.GetStudentById(form.id);
      if original.Threw? {
        return Exception;
      }
      if original.value.None? {
        return Redirect("Index", "Students");
      }
      var edited := EditRecord(original.value.value, form, csv, pin, hash);
      var saved := students.UpdateStudentWithSecurity(edited);
      r := if saved.Threw? then Page(UpdateFailedMessage) else Redirect("Index", "Students");
    }

    /** Delete (POST): removes the account with that id. */
    method DeleteConfirmed(id: int) returns (r: ActionResult)
      modifies students
      ensures SignedOut(session) ==> r == Redirect("Login", "Account") && students.file == old(students.file)
      ensures Denied(session) ==> r == AccessDenied() && students.file == old(students.file)
      ensures Admitted(session) ==>
        match old(LoadStudents(students.file))
        case Threw => r == Exception && students.file == old(students.file)
        case Done(ss) =>
          r == Redirect("Index", "Students") &&
          match DeleteIn(ss, id)
          case None => students.file == old(students.file)
          case Some(rest) => students.file == Records(rest)
    {
      if SignedOut(session) {
        return Redirect("Login", "Account");
      }
      if !IsAdmin(session) {
        return AccessDenied();
      }
      var done := students.DeleteStudent(id);
      r := if done.Threw? then Exception else Redirect("Index", "Students");
    }
  }
}
