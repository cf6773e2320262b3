/**
  One-time codes: a six-digit code drawn at random, accepted while it
  matches exactly and has not expired.
*/
module Otp {
  import opened Util

  /** Random.Next(100000, 999999): the upper bound is exclusive. */
  predicate InDrawRange(draw: int)
  {
    100000 <= draw < 999999
  }

  /** Every number of the draw range has six decimal digits. */
  lemma SixDigits(draw: int)
    requires InDrawRange(draw)
    ensures |NatToString(draw)| == 6
  {
    var code := NatToString(draw);
    NatToStringValue(draw);
    assert Pow10(5) == 100000 && Pow10(6) == 1000000;
    if |code| < 6 {
      Pow10Monotone(|code|, 5);
    }
    if |code| > 6 {
      Pow10Monotone(6, |code| - 1);
    }
  }

  /**
    GenerateOtp, with the random draw as a parameter: the decimal text of
    the draw, always six digits with no leading zero, and it reads back as
    the draw.
  */
  function GenerateOtp(draw: int): (code: string)
    requires InDrawRange(draw)
    ensures |code| == 6 && code[0] != '0'
    ensures forall i :: 0 <= i < |code| ==> IsDigit(code[i])
    ensures ParseNat(code) == Some(draw)
  {
    SixDigits(draw);
    ParseNatToString(draw);
    NatToString(draw)
  }

  /** IsValid: the entered code equals the stored one and the expiry has not passed. */
  predicate IsValid(input: string, stored: string, expiry: nat, now: nat)
  {
    input == stored && now <= expiry
  }

  /**
    The code is accepted up to and including its expiry time and never
    after it, and a different code is never accepted.
  */
  lemma OtpAcceptance(code: string, other: string, expiry: nat, now: nat)
    requires other != code
    ensures IsValid(code, code, expiry, expiry)
    ensures !IsValid(code, code, expiry, expiry + 1)
    ensures !IsValid(other, code, expiry, now)
    ensures IsValid(code, code, expiry, now) <==> now <= expiry
  {
  }
}

/**
  Sign-up and sign-in against the student store: registration refuses an
  email already on file, and credentials are checked against the first
  account with that email.
*/
module Auth {
  import opened Util
  import opened StoreFile
  import opened StudentStore

  const DefaultName := "New Student"
  const DefaultAge := 18
  const DefaultCourse := "General"
  const DefaultRole := "User"

  const AccountNotFound := "Account not found."
  const IncorrectPassword := "Incorrect password."

  function HasEmail(email: string): Student -> bool
  {
    (s: Student) => s.email == email
  }

  /** UserExists on a loaded list: exact, case-sensitive email equality. */
  function UserExistsIn(ss: seq<Student>, email: string): (b: bool)
    ensures b <==> exists i :: 0 <= i < |ss| && ss[i].email == email
  {
    IndexWhere(ss, HasEmail(email)).Some?
  }

  /** AnyAdminExists on a loaded list. */
  function AnyAdminIn(ss: seq<Student>): (b: bool)
    ensures b <==> exists i :: 0 <= i < |ss| && ss[i].role == "Admin"
  {
    IndexWhere(ss, (s: Student) => s.role == "Admin").Some?
  }

  /**
    VerifyPassword, with the SHA-256/Base64 hash as a parameter: an empty
    stored password never matches; otherwise the stored text may be the
    hash of the entered password or the entered password itself.
  */
  predicate VerifyPassword(entered: string, stored: string, hash: string -> string)
  {
    if stored == "" then false
    else if hash(entered) == stored then true
    else entered == stored
  }

  /** The result of ValidateStudent: the account, or the error message. */
  datatype Validation = Accepted(student: Student) | Refused(message: string)

  /** ValidateStudent on a loaded list. */
  function ValidateIn(ss: seq<Student>, email: string, password: string, hash: string -> string): (r: Validation)
    ensures r == Refused(AccountNotFound) <==> !UserExistsIn(ss, email)
    ensures r.Refused? ==> r.message in {AccountNotFound, IncorrectPassword}
    ensures r.Accepted? ==>
      r.student in ss && r.student.email == email && VerifyPassword(password, r.student.password, hash) &&
      exists k :: 0 <= k < |ss| && ss[k] == r.student && forall j :: 0 <= j < k ==> ss[j].email != email
    ensures r == Refused(IncorrectPassword) ==>
      exists k :: 0 <= k < |ss| && ss[k].email == email && !VerifyPassword(password, ss[k].password, hash) &&
        forall j :: 0 <= j < k ==> ss[j].email != email
  {
    match IndexWhere(ss, HasEmail(email))
    case None => Refused(AccountNotFound)
    case Some(k) =>
      assert forall j :: 0 <= j < k ==> !HasEmail(email)(ss[j]);
      if VerifyPassword(password, ss[k].password, hash) then Accepted(ss[k]) else Refused(IncorrectPassword)
  }

  /** The record RegisterStudent builds (its id is assigned by the store). */
  function NewAccount(email: string, password: string, name: string, age: int, course: string, role: string,
                      hash: string -> string): Student
  {
    Student(0, email, hash(password), name, Some(age), course, role, "", "", false)
  }

  /** RegisterStudent on a loaded list; `None` (the call returns false) when the email is taken. */
  function RegisterIn(ss: seq<Student>, email: string, password: string, name: string, age: int, course: string,
                      role: string, hash: string -> string): (r: Option<seq<Student>>)
    ensures r.None? <==> UserExistsIn(ss, email)
    ensures r.Some? ==> |r.value| == |ss| + 1 && r.value[..|ss|] == ss
    ensures r.Some? ==>
      var s := r.value[|ss|];
      s.email == email && s.password == hash(password) && s.name == name && s.age == Some(age) &&
      s.course == course && s.role == role && s.id !in Ids(ss)
  {
    if UserExistsIn(ss, email) then None
    else Some(AppendStudent(ss, NewAccount(email, password, name, age, course, role, hash)))
  }

  /** No two accounts share an email. */
  ghost predicate UniqueEmails(ss: seq<Student>)
  {
    forall i, j :: 0 <= i < j < |ss| ==> ss[i].email != ss[j].email
  }

  /**
    Registration never duplicates an email: afterwards the email exists,
    and a store with unique emails keeps them unique.
  */
  lemma RegisterKeepsEmailsUnique(ss: seq<Student>, email: string, password: string, name: string, age: int,
                                  course: string, role: string, hash: string -> string)
    requires UniqueEmails(ss)
    ensures RegisterIn(ss, email, password, name, age, course, role, hash).Some? ==>
      var r := RegisterIn(ss, email, password, name, age, course, role, hash).value;
      UniqueEmails(r) && UserExistsIn(r, email)
  {
    var reg := RegisterIn(ss, email, password, name, age, course, role, hash);
    if reg.Some? {
      var r := reg.value;
      forall i, j | 0 <= i < j < |r| ensures r[i].email != r[j].email {
        assert r[i] == ss[i];
        if j < |ss| {
          assert r[j] == ss[j];
        }
      }
      assert r[|ss|].email == email;
    }
  }

  /**
    Round trip: right after a successful registration, signing in with the
    same email and password is accepted with the new account (the stored
    hash of a password is never empty).
  */
  lemma {:induction false} RegisterThenValidate(ss: seq<Student>, email: string, password: string, name: string,
                                                age: int, course: string, role: string, hash: string -> string)
    requires hash(password) != ""
    requires !UserExistsIn(ss, email)
    ensures RegisterIn(ss, email, password, name, age, course, role, hash).Some?
    ensures var r := RegisterIn(ss, email, password, name, age, course, role, hash).value;
      ValidateIn(r, email, password, hash) == Accepted(r[|ss|])
  {
    var r := RegisterIn(ss, email, password, name, age, course, role, hash).value;
    assert HasEmail(email)(r[|ss|]);
    forall j | 0 <= j < |ss| ensures !HasEmail(email)(r[j]) {
      assert r[j] == ss[j];
    }
  }

  /** The reset-token members are stubs: no token, and validation and reset always fail. */
  function GenerateResetToken(email: string): string
  {
    ""
  }

  predicate ValidateResetToken(email: string, token: string)
  {
    false
  }

  predicate ResetPassword(email: string, newPassword: string, token: string)
  {
    false
  }

  lemma ResetIsDisabled(email: string, token: string, newPassword: string)
    ensures GenerateResetToken(email) == ""
    ensures !ValidateResetToken(email, token) && !ResetPassword(email, newPassword, token)
  {
  }

  /**
    RegisterStudent as a step on the store file: what the call returns and
    the file it leaves behind.
  */
  function RegisterFile(f: FileContent<Student>, email: string, password: string, name: string, age: int,
                        course: string, role: string, hash: string -> string): (r: (Outcome<bool>, FileContent<Student>))
    ensures r.0.Threw? <==> LoadStudents(f).Threw?
    ensures r.0 != Done(true) ==> r.1 == f
    ensures r.0 == Done(true) <==> LoadStudents(f).Done? && !UserExistsIn(LoadStudents(f).value, email)
    ensures r.0 == Done(true) ==> r.1.Records? && UserExistsIn(r.1.items, email)
  {
    match LoadStudents(f)
    case Threw => (Threw, f)
    case Done(ss) =>
      match RegisterIn(ss, email, password, name, age, course, role, hash)
      case None => (Done(false), f)
      case Some(ss') =>
        assert ss'[|ss|].email == email;
        (Done(true), Records(ss'))
  }

  /** AuthService over the student store it shares with the student pages. */
  class AuthService {
    const students: StudentService

    constructor (store: StudentService)
      ensures students == store
    {
      students := store;
    }

    function UserExists(email: string): (r: Outcome<bool>)
      reads students
      ensures r.Threw? <==> LoadStudents(students.file).Threw?
      ensures r.Done? ==> (r.value <==> exists s :: s in LoadStudents(students.file).value && s.email == email)
    {
      match LoadStudents(students.file)
      case Threw => Threw
      case Done(ss) => Done(UserExistsIn(ss, email))
    }

    function AnyAdminExists(): (r: Outcome<bool>)
      reads students
      ensures r.Threw? <==> LoadStudents(students.file).Threw?
      ensures r.Done? ==> (r.value <==> exists s :: s in LoadStudents(students.file).value && s.role == "Admin")
    {
      match LoadStudents(students.file)
      case Threw => Threw
      case Done(ss) => Done(AnyAdminIn(ss))
    }

    function ValidateStudent(email: string, password: string, hash: string -> string): (r: Outcome<Validation>)
      reads students
      ensures r.Threw? <==> LoadStudents(students.file).Threw?
      ensures r.Done? ==> r.value == ValidateIn(LoadStudents(students.file).value, email, password, hash)
    {
      match LoadStudents(students.file)
      case Threw => Threw
      case Done(ss) => Done(ValidateIn(ss, email, password, hash))
    }

    /**
      RegisterStudent: false and no write when the email is on file;
      otherwise one new account is appended and the call returns true.
    */
    method RegisterStudent(email: string, password: string, name: string, age: int, course: string, role: string,
                           hash: string -> string) returns (r: Outcome<bool>)
      modifies students
      ensures r.Threw? <==> old(LoadStudents(students.file)).Threw?
      ensures r.Threw? ==> students.file == old(students.file)
      ensures r.Done? ==>
        match RegisterIn(old(LoadStudents(students.file)).value, email, password, name, age, course, role, hash)
        case None => r == Done(false) && students.file == old(students.file)
        case Some(ss) => r == Done(true) && students.file == Records(ss)
      ensures (r, students.file) == RegisterFile(old(students.file), email, password, name, age, course, role, hash)
    {
      var found := UserExists(email);
      if found.Threw? {
        return Threw;
      }
      if found.value {
        return Done(false);
      }
      var added := students.AddStudent(NewAccount(email, password, name, age, course, role, hash));
      r := Done(true);
    }
  }
}
