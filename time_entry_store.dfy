/**
  Time-tracking entries kept in one JSON file. Unlike the other stores an
  unreadable file never throws here: every failure to read reads as "no
  entries". A user's entries come back newest first.
*/
module TimeEntryStore {
  import opened Util
  import opened StoreFile
  import opened Ordering

  /** Times are clock readings in seconds; `endTime` is None while the entry is open. */
  datatype TimeEntry = TimeEntry(
    id: int,
    userEmail: string,
    taskName: Option<string>,
    startTime: nat,
    endTime: Option<nat>,
    durationSeconds: int)

  function EntryIds(es: seq<TimeEntry>): (ids: seq<int>)
    ensures |ids| == |es|
    ensures forall i :: 0 <= i < |es| ==> ids[i] == es[i].id
  {
    if |es| == 0 then [] else [es[0].id] + EntryIds(es[1..])
  }

  function OwnedBy(email: string): TimeEntry -> bool
  {
    (e: TimeEntry) => e.userEmail == email
  }

  function IsEntry(id: int, email: string): TimeEntry -> bool
  {
    (e: TimeEntry) => e.id == id && e.userEmail == email
  }

  function StartOf(e: TimeEntry): int
  {
    e.startTime
  }

  /** GetAllEntries: anything but a well-formed array (no file, blank, null, malformed) reads as no entries. */
  function LoadEntries(f: FileContent<TimeEntry>): (r: seq<TimeEntry>)
    ensures f.Records? ==> r == f.items
    ensures !f.Records? ==> r == []
  {
    if f.Records? then f.items else []
  }

  /** GetEntriesByUser: exactly the user's entries, latest start first, ties in stored order. */
  function EntriesByUser(es: seq<TimeEntry>, email: string): (r: seq<TimeEntry>)
    ensures forall i :: 0 <= i < |r| ==> r[i].userEmail == email
    ensures multiset(r) == multiset(Filter(es, OwnedBy(email)))
    ensures forall i, j :: 0 <= i < j < |r| ==> r[i].startTime >= r[j].startTime
  {
    var owned := Filter(es, OwnedBy(email));
    var r := SortDesc(owned, StartOf);
    forall i | 0 <= i < |r| ensures r[i].userEmail == email {
      assert r[i] in multiset(owned);
    }
    assert forall i, j :: 0 <= i < j < |r| ==> StartOf(r[i]) >= StartOf(r[j]);
    r
  }

  /** Entries of the user with the same start time are listed in stored order (OrderByDescending is stable). */
  lemma EntriesByUserTies(es: seq<TimeEntry>, email: string, t: int)
    ensures Filter(EntriesByUser(es, email), KeyIs(StartOf, t)) == Filter(Filter(es, OwnedBy(email)), KeyIs(StartOf, t))
  {
    SortDescStable(Filter(es, OwnedBy(email)), StartOf, t);
  }

  /** Every entry of the user, and no other, appears in the listing exactly as often as it is stored. */
  lemma {:induction false} EntriesByUserExact(es: seq<TimeEntry>, email: string, e: TimeEntry)
    ensures multiset(EntriesByUser(es, email))[e] == if e.userEmail == email then multiset(es)[e] else 0
  {
    FilterMultiset(es, OwnedBy(email), e);
  }

  /** AddEntry on a loaded list: id max + 1 (1 when empty), appended last. */
  function AppendEntry(es: seq<TimeEntry>, e: TimeEntry): (r: seq<TimeEntry>)
    ensures |r| == |es| + 1 && r[..|es|] == es
    ensures r[|es|] == e.(id := r[|es|].id)
    ensures r[|es|].id !in EntryIds(es)
    ensures |es| == 0 ==> r[0].id == 1
    ensures |es| > 0 ==> r[|es|].id - 1 in EntryIds(es)
    ensures forall i :: 0 <= i < |es| ==> es[i].id < r[|es|].id
  {
    es + [e.(id := NextId(EntryIds(es)))]
  }

  /** The fields UpdateEntry copies: task name, start, end and duration. Id and owner stay. */
  function CopyTimes(stored: TimeEntry, edited: TimeEntry): (r: TimeEntry)
    ensures r.id == stored.id && r.userEmail == stored.userEmail
    ensures r.taskName == edited.taskName && r.startTime == edited.startTime
    ensures r.endTime == edited.endTime && r.durationSeconds == edited.durationSeconds
  {
    stored.(taskName := edited.taskName, startTime := edited.startTime,
            endTime := edited.endTime, durationSeconds := edited.durationSeconds)
  }

  /** UpdateEntry on a loaded list: the first entry with this id and owner; `None` (no save) when there is none. */
  function UpdateEntryIn(es: seq<TimeEntry>, e: TimeEntry): (r: Option<seq<TimeEntry>>)
    ensures r.None? <==> forall i :: 0 <= i < |es| ==> !(es[i].id == e.id && es[i].userEmail == e.userEmail)
    ensures r.Some? ==>
      exists k :: 0 <= k < |es| && es[k].id == e.id && es[k].userEmail == e.userEmail &&
        (forall j :: 0 <= j < k ==> !(es[j].id == e.id && es[j].userEmail == e.userEmail)) &&
        r.value == es[k := CopyTimes(es[k], e)]
  {
    match IndexWhere(es, IsEntry(e.id, e.userEmail))
    case None => None
    case Some(k) => Some(es[k := CopyTimes(es[k], e)])
  }

  /** DeleteEntry on a loaded list: drops the first entry with this id and owner. */
  function DeleteEntryIn(es: seq<TimeEntry>, id: int, email: string): (r: Option<seq<TimeEntry>>)
    ensures r.None? <==> forall i :: 0 <= i < |es| ==> !(es[i].id == id && es[i].userEmail == email)
    ensures r.Some? ==>
      exists k :: 0 <= k < |es| && es[k].id == id && es[k].userEmail == email &&
        (forall j :: 0 <= j < k ==> !(es[j].id == id && es[j].userEmail == email)) &&
        r.value == es[..k] + es[k + 1..]
  {
    match IndexWhere(es, IsEntry(id, email))
    case None => None
    case Some(k) => Some(es[..k] + es[k + 1..])
  }

  /** Editing one user's entry leaves every other user's listing unchanged. */
  lemma {:induction false} UpdateKeepsOthersEntries(es: seq<TimeEntry>, e: TimeEntry, other: string)
    requires other != e.userEmail
    requires UpdateEntryIn(es, e).Some?
    ensures EntriesByUser(UpdateEntryIn(es, e).value, other) == EntriesByUser(es, other)
  {
    var k :| 0 <= k < |es| && es[k].id == e.id && es[k].userEmail == e.userEmail &&
      UpdateEntryIn(es, e).value == es[k := CopyTimes(es[k], e)];
    FilterUpdateOther(es, k, CopyTimes(es[k], e), OwnedBy(other));
  }

  /** Deleting one user's entry leaves every other user's listing unchanged. */
  lemma {:induction false} DeleteKeepsOthersEntries(es: seq<TimeEntry>, id: int, email: string, other: string)
    requires other != email
    requires DeleteEntryIn(es, id, email).Some?
    ensures EntriesByUser(DeleteEntryIn(es, id, email).value, other) == EntriesByUser(es, other)
  {
    var k :| 0 <= k < |es| && es[k].id == id && es[k].userEmail == email &&
      DeleteEntryIn(es, id, email).value == es[..k] + es[k + 1..];
    FilterRemoveOther(es, k, OwnedBy(other));
  }

  class TimeTrackerService {
    var file: FileContent<TimeEntry>

    constructor (initial: FileContent<TimeEntry>)
      ensures file == initial
    {
      file := initial;
    }

    /** Returns the id written back into the caller's entry. */
    method AddEntry(e: TimeEntry) returns (id: int)
      modifies this
      ensures file == Records(AppendEntry(old(LoadEntries(file)), e))
      ensures id == AppendEntry(old(LoadEntries(file)), e)[|old(LoadEntries(file))|].id
    {
      var es := LoadEntries(file);
      id := NextId(EntryIds(es));
      file := Records(es + [e.(id := id)]);
    }

    method UpdateEntry(e: TimeEntry)
      modifies this
      ensures match UpdateEntryIn(old(LoadEntries(file)), e)
        case None => file == old(file)
        case Some(es) => file == Records(es)
    {
      var updated := UpdateEntryIn(LoadEntries(file), e);
      if updated.Some? {
        file := Records(updated.value);
      }
    }

    method DeleteEntry(id: int, email: string)
      modifies this
      ensures match DeleteEntryIn(old(LoadEntries(file)), id, email)
        case None => file == old(file)
        case Some(es) => file == Records(es)
    {
      var remaining := DeleteEntryIn(LoadEntries(file), id, email);
      if remaining.Some? {
        file := Records(remaining.value);
      }
    }
  }
}
