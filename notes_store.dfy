/**
  Per-user notes kept in one JSON file. Reads are filtered by the owner's
  e-mail, and edits and deletes only touch a note whose id AND owner match,
  so one user can never change another user's notes.
*/
module NotesStore {
  import opened Util
  import opened StoreFile

  /** `createdDate` is a clock reading in seconds. */
  datatype Note = Note(id: int, userEmail: string, title: string, description: string, createdDate: nat)

  function NoteIds(ns: seq<Note>): (ids: seq<int>)
    ensures |ids| == |ns|
    ensures forall i :: 0 <= i < |ns| ==> ids[i] == ns[i].id
  {
    if |ns| == 0 then [] else [ns[0].id] + NoteIds(ns[1..])
  }

  function OwnedBy(email: string): Note -> bool
  {
    (n: Note) => n.userEmail == email
  }

  function IsNote(id: int, email: string): Note -> bool
  {
    (n: Note) => n.id == id && n.userEmail == email
  }

  /** GetAllNotes: no file, blank text or the literal `null` read as no notes; malformed text throws. */
  function LoadNotes(f: FileContent<Note>): (r: Outcome<seq<Note>>)
    ensures r.Threw? <==> f.Malformed?
    ensures f.Records? ==> r == Done(f.items)
    ensures r.Done? && !f.Records? ==> r.value == []
  {
    match f
    case Missing => Done([])
    case Blank => Done([])
    case NullLiteral => Done([])
    case Malformed => Threw
    case Records(items) => Done(items)
  }

  /** GetNotesByUser: exactly the user's notes, in stored order. */
  function NotesByUser(ns: seq<Note>, email: string): (r: seq<Note>)
    ensures forall i :: 0 <= i < |r| ==> r[i] in ns && r[i].userEmail == email
    ensures forall i :: 0 <= i < |ns| && ns[i].userEmail == email ==> ns[i] in r
  {
    Filter(ns, OwnedBy(email))
  }

  /** Each of the user's notes is listed as often as it is stored, and nobody else's note is listed. */
  lemma {:induction false} NotesByUserCounts(ns: seq<Note>, email: string, x: Note)
    ensures multiset(NotesByUser(ns, email))[x] == if x.userEmail == email then multiset(ns)[x] else 0
  {
    FilterMultiset(ns, OwnedBy(email), x);
  }

  /** The listing keeps stored order: it grows at the end exactly when a note of the user is stored last. */
  lemma {:induction false} NotesByUserSnoc(ns: seq<Note>, n: Note, email: string)
    ensures NotesByUser([], email) == []
    ensures NotesByUser(ns + [n], email) == NotesByUser(ns, email) + (if n.userEmail == email then [n] else [])
  {
    FilterAppend(ns, [n], OwnedBy(email));
    assert Filter([n], OwnedBy(email)) == if n.userEmail == email then [n] else [];
  }

  /** AddNote on a loaded list: id max + 1 (1 when empty), stamped with the current time, appended last. */
  function AppendNote(ns: seq<Note>, n: Note, now: nat): (r: seq<Note>)
    ensures |r| == |ns| + 1 && r[..|ns|] == ns
    ensures r[|ns|] == n.(id := r[|ns|].id, createdDate := now)
    ensures r[|ns|].id !in NoteIds(ns)
    ensures |ns| == 0 ==> r[0].id == 1
    ensures |ns| > 0 ==> r[|ns|].id - 1 in NoteIds(ns)
    ensures forall i :: 0 <= i < |ns| ==> ns[i].id < r[|ns|].id
  {
    ns + [n.(id := NextId(NoteIds(ns)), createdDate := now)]
  }

  /** The new note is the last of its owner's notes; nobody else's notes change. */
  lemma {:induction false} AppendNoteByUser(ns: seq<Note>, n: Note, now: nat, email: string)
    ensures NotesByUser(AppendNote(ns, n, now), email) ==
      NotesByUser(ns, email) + (if n.userEmail == email then [AppendNote(ns, n, now)[|ns|]] else [])
  {
    var r := AppendNote(ns, n, now);
    assert r == ns + [r[|ns|]];
    FilterAppend(ns, [r[|ns|]], OwnedBy(email));
  }

  /** UpdateNote on a loaded list: the first note with this id and owner takes the new title and description. */
  function UpdateNoteIn(ns: seq<Note>, n: Note): (r: Option<seq<Note>>)
    ensures r.None? <==> forall i :: 0 <= i < |ns| ==> !(ns[i].id == n.id && ns[i].userEmail == n.userEmail)
    ensures r.Some? ==>
      exists k :: 0 <= k < |ns| && ns[k].id == n.id && ns[k].userEmail == n.userEmail &&
        (forall j :: 0 <= j < k ==> !(ns[j].id == n.id && ns[j].userEmail == n.userEmail)) &&
        r.value == ns[k := ns[k].(title := n.title, description := n.description)]
  {
    match IndexWhere(ns, IsNote(n.id, n.userEmail))
    case None => None
    case Some(k) => Some(ns[k := ns[k].(title := n.title, description := n.description)])
  }

  /** DeleteNote on a loaded list: drops the first note with this id and owner. */
  function DeleteNoteIn(ns: seq<Note>, id: int, email: string): (r: Option<seq<Note>>)
    ensures r.None? <==> forall i :: 0 <= i < |ns| ==> !(ns[i].id == id && ns[i].userEmail == email)
    ensures r.Some? ==>
      exists k :: 0 <= k < |ns| && ns[k].id == id && ns[k].userEmail == email &&
        (forall j :: 0 <= j < k ==> !(ns[j].id == id && ns[j].userEmail == email)) &&
        r.value == ns[..k] + ns[k + 1..]
  {
    match IndexWhere(ns, IsNote(id, email))
    case None => None
    case Some(k) => Some(ns[..k] + ns[k + 1..])
  }

  /** An update by one user leaves every other user's notes exactly as they were. */
  lemma {:induction false} UpdateKeepsOthersNotes(ns: seq<Note>, n: Note, other: string)
    requires other != n.userEmail
    requires UpdateNoteIn(ns, n).Some?
    ensures NotesByUser(UpdateNoteIn(ns, n).value, other) == NotesByUser(ns, other)
  {
    var k :| 0 <= k < |ns| && ns[k].id == n.id && ns[k].userEmail == n.userEmail &&
      UpdateNoteIn(ns, n).value == ns[k := ns[k].(title := n.title, description := n.description)];
    FilterUpdateOther(ns, k, ns[k].(title := n.title, description := n.description), OwnedBy(other));
  }

  /** A delete by one user leaves every other user's notes exactly as they were. */
  lemma {:induction false} DeleteKeepsOthersNotes(ns: seq<Note>, id: int, email: string, other: string)
    requires other != email
    requires DeleteNoteIn(ns, id, email).Some?
    ensures NotesByUser(DeleteNoteIn(ns, id, email).value, other) == NotesByUser(ns, other)
  {
    var k :| 0 <= k < |ns| && ns[k].id == id && ns[k].userEmail == email &&
      DeleteNoteIn(ns, id, email).value == ns[..k] + ns[k + 1..];
    FilterRemoveOther(ns, k, OwnedBy(other));
  }

  class NotesService {
    var file: FileContent<Note>

    constructor (initial: FileContent<Note>)
      ensures file == initial
    {
      file := initial;
    }

    function GetNotesByUser(email: string): (r: Outcome<seq<Note>>)
      reads this
      ensures r.Threw? <==> LoadNotes(file).Threw?
      ensures r.Done? ==> r.value == NotesByUser(LoadNotes(file).value, email)
    {
      match LoadNotes(file)
      case Threw => Threw
      case Done(ns) => Done(NotesByUser(ns, email))
    }

    /** `now` is the clock reading DateTime.Now gives. */
    method AddNote(n: Note, now: nat) returns (r: Outcome<int>)
      modifies this
      ensures old(LoadNotes(file)).Threw? ==> r.Threw? && file == old(file)
      ensures old(LoadNotes(file)).Done? ==>
        var ns := old(LoadNotes(file)).value;
        file == Records(AppendNote(ns, n, now)) && r == Done(AppendNote(ns, n, now)[|ns|].id)
    {
      var loaded := LoadNotes(file);
      if loaded.Threw? {
        r := Threw;
        return;
      }
      var ns := loaded.value;
      var id := NextId(NoteIds(ns));
      file := Records(ns + [n.(id := id, createdDate := now)]);
      r := Done(id);
    }

    method UpdateNote(n: Note) returns (r: Outcome<()>)
      modifies this
      ensures r.Threw? <==> old(LoadNotes(file)).Threw?
      ensures r.Threw? ==> file == old(file)
      ensures r.Done? ==>
        match UpdateNoteIn(old(LoadNotes(file)).value, n)
        case None => file == old(file)
        case Some(ns) => file == Records(ns)
    {
      var loaded := LoadNotes(file);
      if loaded.Threw? {
        r := Threw;
        return;
      }
      var updated := UpdateNoteIn(loaded.value, n);
      if updated.Some? {
        file := Records(updated.value);
      }
      r := Done(());
    }

    method DeleteNote(id: int, email: string) returns (r: Outcome<()>)
      modifies this
      ensures r.Threw? <==> old(LoadNotes(file)).Threw?
      ensures r.Threw? ==> file == old(file)
      ensures r.Done? ==>
        match DeleteNoteIn(old(LoadNotes(file)).value, id, email)
        case None => file == old(file)
        case Some(ns) => file == Records(ns)
    {
      var loaded := LoadNotes(file);
      if loaded.Threw? {
        r := Threw;
        return;
      }
      var remaining := DeleteNoteIn(loaded.value, id, email);
      if remaining.Some? {
        file := Records(remaining.value);
      }
      r := Done(());
    }
  }
}
