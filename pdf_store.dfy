/**
  The index of the PDFs users have generated and saved, one JSON file for all
  users. Records are keyed by the account id of their owner; a user lists,
  renames and deletes only their own records, newest first.
*/
module PdfStore {
  import opened Util
  import opened StoreFile
  import opened Ordering

  /** `filePath` is the web path of the saved PDF ("" for null); `createdAt` a clock reading in seconds. */
  datatype UserPdf = UserPdf(id: int, userId: int, fileName: string, filePath: string, createdAt: nat)

  function PdfIds(ps: seq<UserPdf>): (ids: seq<int>)
    ensures |ids| == |ps|
    ensures forall i :: 0 <= i < |ps| ==> ids[i] == ps[i].id
  {
    if |ps| == 0 then [] else [ps[0].id] + PdfIds(ps[1..])
  }

  function OwnedBy(userId: int): UserPdf -> bool
  {
    (p: UserPdf) => p.userId == userId
  }

  function IsPdf(id: int, userId: int): UserPdf -> bool
  {
    (p: UserPdf) => p.id == id && p.userId == userId
  }

  function CreatedOf(p: UserPdf): int
  {
    p.createdAt
  }

  /**
    Every reader: no file or the literal `null` reads as no records; blank or
    malformed text throws. (Rename and delete return early when there is no
    file, which has the same effect as finding no record.)
  */
  function LoadPdfs(f: FileContent<UserPdf>): (r: Outcome<seq<UserPdf>>)
    ensures r.Threw? <==> f.Blank? || f.Malformed?
    ensures f.Records? ==> r == Done(f.items)
    ensures r.Done? && !f.Records? ==> r.value == []
  {
    match f
    case Missing => Done([])
    case NullLiteral => Done([])
    case Blank => Threw
    case Malformed => Threw
    case Records(items) => Done(items)
  }

  /** GetUserPdfs: exactly the user's records, newest first. */
  function PdfsOf(ps: seq<UserPdf>, userId: int): (r: seq<UserPdf>)
    ensures forall i :: 0 <= i < |r| ==> r[i].userId == userId
    ensures multiset(r) == multiset(Filter(ps, OwnedBy(userId)))
    ensures forall i, j :: 0 <= i < j < |r| ==> r[i].createdAt >= r[j].createdAt
  {
    var owned := Filter(ps, OwnedBy(userId));
    var r := SortDesc(owned, CreatedOf);
    forall i | 0 <= i < |r| ensures r[i].userId == userId {
      assert r[i] in multiset(owned);
    }
    assert forall i, j :: 0 <= i < j < |r| ==> CreatedOf(r[i]) >= CreatedOf(r[j]);
    r
  }

  /** AddPdf on a loaded list: id max + 1 (1 when empty), appended last. */
  function AppendPdf(ps: seq<UserPdf>, p: UserPdf): (r: seq<UserPdf>)
    ensures |r| == |ps| + 1 && r[..|ps|] == ps
    ensures r[|ps|] == p.(id := r[|ps|].id)
    ensures r[|ps|].id !in PdfIds(ps)
    ensures |ps| == 0 ==> r[0].id == 1
    ensures |ps| > 0 ==> r[|ps|].id - 1 in PdfIds(ps)
    ensures forall i :: 0 <= i < |ps| ==> ps[i].id < r[|ps|].id
  {
    ps + [p.(id := NextId(PdfIds(ps)))]
  }

  /** An added record joins its owner's listing, which otherwise stays as it was. */
  lemma {:induction false} AppendPdfListed(ps: seq<UserPdf>, p: UserPdf)
    ensures var r := AppendPdf(ps, p);
      multiset(PdfsOf(r, p.userId)) == multiset(PdfsOf(ps, p.userId)) + multiset{r[|ps|]}
  {
    var r := AppendPdf(ps, p);
    assert r == ps + [r[|ps|]];
    FilterAppend(ps, [r[|ps|]], OwnedBy(p.userId));
  }

  /**
    The web path made relative and turned into a Windows path: leading '/'
    characters removed, every remaining '/' replaced by '\'.
  */
  function PhysicalPath(webPath: string): (r: string)
    ensures |r| <= |webPath|
    ensures forall i :: 0 <= i < |r| ==> r[i] != '/'
    ensures forall i :: 0 <= i < |webPath| - |r| ==> webPath[i] == '/'
    ensures forall i :: 0 <= i < |r| ==>
      r[i] == (if webPath[|webPath| - |r| + i] == '/' then '\\' else webPath[|webPath| - |r| + i])
    ensures |r| > 0 ==> webPath[|webPath| - |r|] != '/'
  {
    if |webPath| > 0 && webPath[0] == '/' then PhysicalPath(webPath[1..]) else SlashesToBackslashes(webPath)
  }

  function SlashesToBackslashes(s: string): (r: string)
    ensures |r| == |s|
    ensures forall i :: 0 <= i < |s| ==> r[i] == if s[i] == '/' then '\\' else s[i]
  {
    if |s| == 0 then "" else [if s[0] == '/' then '\\' else s[0]] + SlashesToBackslashes(s[1..])
  }

  /**
    DeletePdf on a loaded list: the first record with this id and owner is
    removed only when it has a file path; the result also carries the path
    of the file deleted from disk.
  */
  function DeletePdfIn(ps: seq<UserPdf>, id: int, userId: int): (r: Option<(seq<UserPdf>, string)>)
    ensures r.Some? ==>
      exists k :: 0 <= k < |ps| && ps[k].id == id && ps[k].userId == userId && ps[k].filePath != "" &&
        (forall j :: 0 <= j < k ==> !(ps[j].id == id && ps[j].userId == userId)) &&
        r.value.0 == ps[..k] + ps[k + 1..] && r.value.1 == PhysicalPath(ps[k].filePath)
    ensures r.None? <==>
      (forall i :: 0 <= i < |ps| ==> !(ps[i].id == id && ps[i].userId == userId)) ||
      (exists k :: 0 <= k < |ps| && ps[k].id == id && ps[k].userId == userId && ps[k].filePath == "" &&
        forall j :: 0 <= j < k ==> !(ps[j].id == id && ps[j].userId == userId))
  {
    match IndexWhere(ps, IsPdf(id, userId))
    case None => None
    case Some(k) =>
      if ps[k].filePath == "" then None
      else Some((ps[..k] + ps[k + 1..], PhysicalPath(ps[k].filePath)))
  }

  /** UpdatePdfName on a loaded list: the first record with this id and owner takes the new name. */
  function RenamePdfIn(ps: seq<UserPdf>, id: int, userId: int, newName: string): (r: Option<seq<UserPdf>>)
    ensures r.None? <==> forall i :: 0 <= i < |ps| ==> !(ps[i].id == id && ps[i].userId == userId)
    ensures r.Some? ==>
      exists k :: 0 <= k < |ps| && ps[k].id == id && ps[k].userId == userId &&
        (forall j :: 0 <= j < k ==> !(ps[j].id == id && ps[j].userId == userId)) &&
        r.value == ps[k := ps[k].(fileName := newName)]
  {
    match IndexWhere(ps, IsPdf(id, userId))
    case None => None
    case Some(k) => Some(ps[k := ps[k].(fileName := newName)])
  }

  /** Deleting or renaming one user's record leaves every other user's records as they were. */
  lemma {:induction false} ChangesKeepOthersPdfs(ps: seq<UserPdf>, id: int, userId: int, newName: string, other: int)
    requires other != userId
    ensures DeletePdfIn(ps, id, userId).Some? ==>
      Filter(DeletePdfIn(ps, id, userId).value.0, OwnedBy(other)) == Filter(ps, OwnedBy(other))
    ensures RenamePdfIn(ps, id, userId, newName).Some? ==>
      Filter(RenamePdfIn(ps, id, userId, newName).value, OwnedBy(other)) == Filter(ps, OwnedBy(other))
  {
    var m := IndexWhere(ps, IsPdf(id, userId));
    if m.Some? {
      var k := m.value;
      FilterRemoveOther(ps, k, OwnedBy(other));
      FilterUpdateOther(ps, k, ps[k].(fileName := newName), OwnedBy(other));
    }
  }

  class UserPdfService {
    var file: FileContent<UserPdf>

    constructor (initial: FileContent<UserPdf>)
      ensures file == initial
    {
      file := initial;
    }

    function GetUserPdfs(userId: int): (r: Outcome<seq<UserPdf>>)
      reads this
      ensures r.Threw? <==> LoadPdfs(file).Threw?
      ensures r.Done? ==> r.value == PdfsOf(LoadPdfs(file).value, userId)
    {
      match LoadPdfs(file)
      case Threw => Threw
      case Done(ps) => Done(PdfsOf(ps, userId))
    }

    /** Returns the id written back into the caller's record. */
    method AddPdf(p: UserPdf) returns (r: Outcome<int>)
      modifies this
      ensures old(LoadPdfs(file)).Threw? ==> r.Threw? && file == old(file)
      ensures old(LoadPdfs(file)).Done? ==>
        var ps := old(LoadPdfs(file)).value;
        file == Records(AppendPdf(ps, p)) && r == Done(AppendPdf(ps, p)[|ps|].id)
    {
      var loaded := LoadPdfs(file);
      if loaded.Threw? {
        r := Threw;
        return;
      }
      var ps := loaded.value;
      var id := NextId(PdfIds(ps));
      file := Records(ps + [p.(id := id)]);
      r := Done(id);
    }

    /** Returns the path of the file removed from disk, if any. */
    method DeletePdf(id: int, userId: int) returns (r: Outcome<Option<string>>)
      modifies this
      ensures r.Threw? <==> old(LoadPdfs(file)).Threw?
      ensures r.Threw? ==> file == old(file)
      ensures r.Done? ==>
        match DeletePdfIn(old(LoadPdfs(file)).value, id, userId)
        case None => file == old(file) && r.value == None
        case Some(res) => file == Records(res.0) && r.value == Some(res.1)
    {
      if file.Missing? {
        r := Done(None);
        return;
      }
      var loaded := LoadPdfs(file);
      if loaded.Threw? {
        r := Threw;
        return;
      }
      var res := DeletePdfIn(loaded.value, id, userId);
      if res.Some? {
        file := Records(res.value.0);
        r := Done(Some(res.value.1));
      } else {
        r := Done(None);
      }
    }

    method UpdatePdfName(id: int, userId: int, newName: string) returns (r: Outcome<()>)
      modifies this
      ensures r.Threw? <==> old(LoadPdfs(file)).Threw?
      ensures r.Threw? ==> file == old(file)
      ensures r.Done? ==>
        match RenamePdfIn(old(LoadPdfs(file)).value, id, userId, newName)
        case None => file == old(file)
        case Some(ps) => file == Records(ps)
    {
      if file.Missing? {
        r := Done(());
        return;
      }
      var loaded := LoadPdfs(file);
      if loaded.Threw? {
        r := Threw;
        return;
      }
      var renamed := RenamePdfIn(loaded.value, id, userId, newName);
      if renamed.Some? {
        file := Records(renamed.value);
      }
      r := Done(());
    }
  }
}
