/**
  The student/account store: one JSON file holding every account, admins
  and ordinary users alike. Every operation re-reads the whole file, changes
  the list and writes it back.
*/
module StudentStore {
  import opened Util
  import opened StoreFile

  datatype Student = Student(
    id: int,
    email: string,
    password: string,
    name: string,
    age: Option<int>,
    course: string,
    role: string,
    widgetPermissions: string,
    securityPinHash: string,
    isSecurityEnabled: bool)

  function Ids(ss: seq<Student>): (ids: seq<int>)
    ensures |ids| == |ss|
    ensures forall i :: 0 <= i < |ss| ==> ids[i] == ss[i].id
  {
    if |ss| == 0 then [] else [ss[0].id] + Ids(ss[1..])
  }

  function HasId(id: int): Student -> bool
  {
    (x: Student) => x.id == id
  }

  /** GetStudents: no file or the literal `null` reads as no students; blank or malformed text throws. */
  function LoadStudents(f: FileContent<Student>): (r: Outcome<seq<Student>>)
    ensures r.Threw? <==> f.Blank? || f.Malformed?
    ensures f.Records? ==> r == Done(f.items)
    ensures r.Done? && !f.Records? ==> r.value == []
  {
    match f
    case Missing => Done([])
    case NullLiteral => Done([])
    case Blank => Threw
    case Malformed => Threw
    case Records(items) => Done(items)
  }

  /** GetStudentById on a loaded list: the first record carrying that id. */
  function FindStudent(ss: seq<Student>, id: int): (r: Option<Student>)
    ensures r.Some? ==> r.value in ss && r.value.id == id
    ensures r.Some? ==> exists k :: 0 <= k < |ss| && ss[k] == r.value && forall j :: 0 <= j < k ==> ss[j].id != id
    ensures r.None? <==> id !in Ids(ss)
  {
    match IndexWhere(ss, HasId(id))
    case None => None
    case Some(k) => Some(ss[k])
  }

  /** With duplicate-free ids the record found is the only one with that id. */
  lemma {:induction false} FindStudentUnique(ss: seq<Student>, id: int, k: nat)
    requires Distinct(Ids(ss))
    requires k < |ss| && ss[k].id == id
    ensures FindStudent(ss, id) == Some(ss[k])
  {
    var m := IndexWhere(ss, HasId(id));
    assert HasId(id)(ss[k]);
    var j := m.value;
    var ids := Ids(ss);
    assert ids[j] == ids[k];
  }

  /** AddStudent on a loaded list: the record gets id max + 1 (1 for an empty list) and goes last. */
  function AppendStudent(ss: seq<Student>, s: Student): (r: seq<Student>)
    ensures |r| == |ss| + 1 && r[..|ss|] == ss
    ensures r[|ss|] == s.(id := r[|ss|].id)
    ensures r[|ss|].id !in Ids(ss)
    ensures |ss| == 0 ==> r[0].id == 1
    ensures |ss| > 0 ==> r[|ss|].id - 1 in Ids(ss)
    ensures forall i :: 0 <= i < |ss| ==> ss[i].id < r[|ss|].id
  {
    ss + [s.(id := NextId(Ids(ss)))]
  }

  /** Adding keeps the ids of the store duplicate-free. */
  lemma {:induction false} AppendStudentKeepsIdsDistinct(ss: seq<Student>, s: Student)
    requires Distinct(Ids(ss))
    ensures Distinct(Ids(AppendStudent(ss, s)))
  {
    var r := AppendStudent(ss, s);
    forall i, j | 0 <= i < j < |r| ensures Ids(r)[i] != Ids(r)[j] {
      if j < |ss| {
        assert r[i] == ss[i] && r[j] == ss[j];
        assert Ids(ss)[i] != Ids(ss)[j];
      } else {
        assert r[i] == ss[i];
        assert Ids(ss)[i] in Ids(ss);
      }
    }
  }

  /**
    The fields UpdateStudent copies from the edited record onto the stored
    one: name, email, password, age, course, role and widget permissions.
    The id, the PIN hash and the security flag stay as stored.
  */
  function CopyEditable(stored: Student, edited: Student): (r: Student)
    ensures r.id == stored.id
    ensures r.securityPinHash == stored.securityPinHash && r.isSecurityEnabled == stored.isSecurityEnabled
    ensures r.name == edited.name && r.email == edited.email && r.password == edited.password
    ensures r.age == edited.age && r.course == edited.course && r.role == edited.role
    ensures r.widgetPermissions == edited.widgetPermissions
  {
    stored.(name := edited.name, email := edited.email, password := edited.password, age := edited.age,
            course := edited.course, role := edited.role, widgetPermissions := edited.widgetPermissions)
  }

  /** UpdateStudent on a loaded list; `None` when no record has the id (nothing is saved then). */
  function UpdateIn(ss: seq<Student>, s: Student): (r: Option<seq<Student>>)
    ensures r.None? <==> s.id !in Ids(ss)
    ensures r.Some? ==> |r.value| == |ss| && Ids(r.value) == Ids(ss)
    ensures r.Some? ==>
      exists k :: 0 <= k < |ss| && ss[k].id == s.id && (forall j :: 0 <= j < k ==> ss[j].id != s.id) &&
        r.value == ss[k := CopyEditable(ss[k], s)]
  {
    match IndexWhere(ss, HasId(s.id))
    case None => None
    case Some(k) =>
      var r := ss[k := CopyEditable(ss[k], s)];
      assert Ids(r) == Ids(ss);
      Some(r)
  }

  /** After an update, looking the id up gives the stored record with the edited fields. */
  lemma {:induction false} UpdateThenFind(ss: seq<Student>, s: Student)
    requires Distinct(Ids(ss)) && s.id in Ids(ss)
    ensures UpdateIn(ss, s).Some?
    ensures FindStudent(ss, s.id).Some?
    ensures FindStudent(UpdateIn(ss, s).value, s.id) == Some(CopyEditable(FindStudent(ss, s.id).value, s))
  {
    var r := UpdateIn(ss, s).value;
    var k :| 0 <= k < |ss| && ss[k].id == s.id && r == ss[k := CopyEditable(ss[k], s)];
    FindStudentUnique(ss, s.id, k);
    FindStudentUnique(r, s.id, k);
  }

  /**
    An update that also carries the security PIN: the seven fields of
    CopyEditable plus the PIN hash and the security flag. The student
    edit page needs this to store a new PIN (see StudentPages).
  */
  function CopyWithSecurity(stored: Student, edited: Student): (r: Student)
    ensures r.id == stored.id
    ensures r.securityPinHash == edited.securityPinHash && r.isSecurityEnabled == edited.isSecurityEnabled
  {
    CopyEditable(stored, edited).(securityPinHash := edited.securityPinHash, isSecurityEnabled := edited.isSecurityEnabled)
  }

  function UpdateWithSecurityIn(ss: seq<Student>, s: Student): (r: Option<seq<Student>>)
    ensures r.None? <==> s.id !in Ids(ss)
    ensures r.Some? ==> |r.value| == |ss| && Ids(r.value) == Ids(ss)
    ensures r.Some? ==>
      exists k :: 0 <= k < |ss| && ss[k].id == s.id && (forall j :: 0 <= j < k ==> ss[j].id != s.id) &&
        r.value == ss[k := CopyWithSecurity(ss[k], s)]
  {
    match IndexWhere(ss, HasId(s.id))
    case None => None
    case Some(k) =>
      var r := ss[k := CopyWithSecurity(ss[k], s)];
      assert Ids(r) == Ids(ss);
      Some(r)
  }

  /** DeleteStudent on a loaded list: drops the first record with the id; `None` when there is none. */
  function DeleteIn(ss: seq<Student>, id: int): (r: Option<seq<Student>>)
    ensures r.None? <==> id !in Ids(ss)
    ensures r.Some? ==> |r.value| == |ss| - 1
    ensures r.Some? ==> exists k :: 0 <= k < |ss| && ss[k].id == id && multiset(r.value) + multiset{ss[k]} == multiset(ss)
    ensures r.Some? ==>
      exists k :: 0 <= k < |ss| && ss[k].id == id && (forall j :: 0 <= j < k ==> ss[j].id != id) &&
        r.value == ss[..k] + ss[k + 1..]
  {
    match IndexWhere(ss, HasId(id))
    case None => None
    case Some(k) =>
      assert ss == ss[..k] + [ss[k]] + ss[k + 1..];
      Some(RemoveAt(ss, k))
  }

  /** With duplicate-free ids a delete leaves no record with that id and keeps every other one, in order. */
  lemma DeleteRemovesId(ss: seq<Student>, id: int)
    requires Distinct(Ids(ss)) && id in Ids(ss)
    ensures DeleteIn(ss, id).Some?
    ensures id !in Ids(DeleteIn(ss, id).value)
    ensures Distinct(Ids(DeleteIn(ss, id).value))
  {
    var k := IndexWhere(ss, HasId(id)).value;
    assert DeleteIn(ss, id).value == RemoveAt(ss, k);
    IdsRemoveAt(ss, k);
    RemoveAtDistinct(Ids(ss), k);
  }

  /** The ids after dropping record k are the ids with entry k dropped. */
  lemma IdsRemoveAt(ss: seq<Student>, k: nat)
    requires k < |ss|
    ensures Ids(RemoveAt(ss, k)) == RemoveAt(Ids(ss), k)
  {
    var a, b := Ids(RemoveAt(ss, k)), RemoveAt(Ids(ss), k);
    assert forall j :: 0 <= j < |a| ==> a[j] == b[j];
  }

  /** The service: its only state is the store file. */
  class StudentService {
    var file: FileContent<Student>

    constructor (initial: FileContent<Student>)
      ensures file == initial
    {
      file := initial;
    }

    function GetStudentById(id: int): (r: Outcome<Option<Student>>)
      reads this
      ensures r.Threw? <==> LoadStudents(file).Threw?
      ensures r.Done? ==> r.value == FindStudent(LoadStudents(file).value, id)
    {
      match LoadStudents(file)
      case Threw => Threw
      case Done(ss) => Done(FindStudent(ss, id))
    }

    /** Returns the id written back into the caller's record. */
    method AddStudent(s: Student) returns (r: Outcome<int>)
      modifies this
      ensures old(LoadStudents(file)).Threw? ==> r.Threw? && file == old(file)
      ensures old(LoadStudents(file)).Done? ==>
        var ss := old(LoadStudents(file)).value;
        file == Records(AppendStudent(ss, s)) && r == Done(AppendStudent(ss, s)[|ss|].id)
    {
      var loaded := LoadStudents(file);
      if loaded.Threw? {
        r := Threw;
        return;
      }
      var ss := loaded.value;
      var id := NextId(Ids(ss));
      file := Records(ss + [s.(id := id)]);
      r := Done(id);
    }

    /** Returns Threw when the load throws; otherwise the file is rewritten only when the id exists. */
    method UpdateStudent(s: Student) returns (r: Outcome<()>)
      modifies this
      ensures r.Threw? <==> old(LoadStudents(file)).Threw?
      ensures r.Threw? ==> file == old(file)
      ensures r.Done? ==>
        match UpdateIn(old(LoadStudents(file)).value, s)
        case None => file == old(file)
        case Some(ss) => file == Records(ss)
    {
      var loaded := LoadStudents(file);
      if loaded.Threw? {
        r := Threw;
        return;
      }
      var updated := UpdateIn(loaded.value, s);
      if updated.Some? {
        file := Records(updated.value);
      }
      r := Done(());
    }

    /** UpdateStudent extended to the PIN hash and the security flag. */
    method UpdateStudentWithSecurity(s: Student) returns (r: Outcome<()>)
      modifies this
      ensures r.Threw? <==> old(LoadStudents(file)).Threw?
      ensures r.Threw? ==> file == old(file)
      ensures r.Done? ==>
        match UpdateWithSecurityIn(old(LoadStudents(file)).value, s)
        case None => file == old(file)
        case Some(ss) => file == Records(ss)
    {
      var loaded := LoadStudents(file);
      if loaded.Threw? {
        r := Threw;
        return;
      }
      var updated := UpdateWithSecurityIn(loaded.value, s);
      if updated.Some? {
        file := Records(updated.value);
      }
      r := Done(());
    }

    method DeleteStudent(id: int) returns (r: Outcome<()>)
      modifies this
      ensures r.Threw? <==> old(LoadStudents(file)).Threw?
      ensures r.Threw? ==> file == old(file)
      ensures r.Done? ==>
        match DeleteIn(old(LoadStudents(file)).value, id)
        case None => file == old(file)
        case Some(ss) => file == Records(ss)
    {
      var loaded := LoadStudents(file);
      if loaded.Threw? {
        r := Threw;
        return;
      }
      var remaining := DeleteIn(loaded.value, id);
      if remaining.Some? {
        file := Records(remaining.value);
      }
      r := Done(());
    }
  }
}
