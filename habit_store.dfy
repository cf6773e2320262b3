/**
  Habits and their completion days, kept in one JSON file for all users.
  Completions are toggled a calendar day at a time: marking a day that is
  already marked unmarks it.
*/
module HabitStore {
  import opened Util
  import opened StoreFile
  import opened Clock

  datatype Habit = Habit(
    id: string,
    userEmail: string,
    name: string,
    description: string,
    frequencyType: string,
    customDays: seq<string>,
    startDate: nat,
    completedDates: seq<nat>,
    createdDate: nat,
    goal: string)

  function OwnedBy(email: string): Habit -> bool
  {
    (h: Habit) => h.userEmail == email
  }

  function IsHabit(id: string, email: string): Habit -> bool
  {
    (h: Habit) => h.id == id && h.userEmail == email
  }

  function OnDay(date: nat): nat -> bool
  {
    (d: nat) => DayOf(d) == DayOf(date)
  }

  /** GetAllHabits: no file, blank text or `null` read as no habits; malformed text throws. */
  function LoadHabits(f: FileContent<Habit>): (r: Outcome<seq<Habit>>)
    ensures r.Threw? <==> f.Malformed?
    ensures f.Records? ==> r == Done(f.items)
    ensures r.Done? && !f.Records? ==> r.value == []
  {
    match f
    case Missing => Done([])
    case Blank => Done([])
    case NullLiteral => Done([])
    case Malformed => Threw
    case Records(items) => Done(items)
  }

  /** GetHabitsByUser: exactly the user's habits, in stored order. */
  function HabitsByUser(hs: seq<Habit>, email: string): (r: seq<Habit>)
    ensures forall i :: 0 <= i < |r| ==> r[i] in hs && r[i].userEmail == email
    ensures forall i :: 0 <= i < |hs| && hs[i].userEmail == email ==> hs[i] in r
  {
    Filter(hs, OwnedBy(email))
  }

  /** Each of the user's habits is listed as often as it is stored, and nobody else's habit is listed. */
  lemma {:induction false} HabitsByUserCounts(hs: seq<Habit>, email: string, x: Habit)
    ensures multiset(HabitsByUser(hs, email))[x] == if x.userEmail == email then multiset(hs)[x] else 0
  {
    FilterMultiset(hs, OwnedBy(email), x);
  }

  /** The listing keeps stored order: it grows at the end exactly when a habit of the user is stored last. */
  lemma {:induction false} HabitsByUserSnoc(hs: seq<Habit>, h: Habit, email: string)
    ensures HabitsByUser([], email) == []
    ensures HabitsByUser(hs + [h], email) == HabitsByUser(hs, email) + (if h.userEmail == email then [h] else [])
  {
    FilterAppend(hs, [h], OwnedBy(email));
    assert Filter([h], OwnedBy(email)) == if h.userEmail == email then [h] else [];
  }

  /**
    AddHabit's defaults: an empty id is replaced by a fresh GUID string and a
    default creation time by the current time; anything already set is kept.
  */
  function WithDefaults(h: Habit, freshId: string, now: nat): (r: Habit)
    ensures r.id == (if h.id == "" then freshId else h.id)
    ensures r.createdDate == (if h.createdDate == 0 then now else h.createdDate)
    ensures r.(id := h.id, createdDate := h.createdDate) == h
  {
    h.(id := if h.id == "" then freshId else h.id,
       createdDate := if h.createdDate == 0 then now else h.createdDate)
  }

  /**
    The completion toggle on one habit's dates: if some date falls on the
    same day as `date`, the first such is removed and the answer is false;
    otherwise the day's midnight is appended and the answer is true.
  */
  function ToggleDates(ds: seq<nat>, date: nat): (r: (seq<nat>, bool))
    ensures r.1 <==> forall i :: 0 <= i < |ds| ==> DayOf(ds[i]) != DayOf(date)
    ensures r.1 ==> r.0 == ds + [Midnight(date)]
    ensures !r.1 ==>
      exists k :: 0 <= k < |ds| && DayOf(ds[k]) == DayOf(date) && r.0 == ds[..k] + ds[k + 1..] &&
        forall j :: 0 <= j < k ==> DayOf(ds[j]) != DayOf(date)
  {
    match IndexWhere(ds, OnDay(date))
    case Some(k) => (ds[..k] + ds[k + 1..], false)
    case None => (ds + [Midnight(date)], true)
  }

  /** Toggling an unmarked day twice gives back the original dates, and the second toggle answers false. */
  lemma {:induction false} ToggleTwiceRestores(ds: seq<nat>, date: nat)
    requires forall i :: 0 <= i < |ds| ==> DayOf(ds[i]) != DayOf(date)
    ensures ToggleDates(ToggleDates(ds, date).0, date) == (ds, false)
  {
    var once := ds + [Midnight(date)];
    assert ToggleDates(ds, date).0 == once;
    assert OnDay(date)(once[|ds|]);
    var m := IndexWhere(once, OnDay(date));
    assert m.Some?;
    var k := m.value;
    assert forall i :: 0 <= i < |ds| ==> once[i] == ds[i];
    assert k == |ds|;
    assert once[..k] == ds && once[k + 1..] == [];
    assert once[..k] + once[k + 1..] == ds;
    assert ToggleDates(once, date) == (ds, false);
  }

  /** At most one completion per calendar day. */
  ghost predicate OnePerDay(ds: seq<nat>)
  {
    forall i, j :: 0 <= i < j < |ds| ==> DayOf(ds[i]) != DayOf(ds[j])
  }

  /**
    With at most one completion per day the toggle keeps it that way, and
    its answer says whether the day is marked afterwards.
  */
  lemma ToggleKeepsOnePerDay(ds: seq<nat>, date: nat)
    requires OnePerDay(ds)
    ensures OnePerDay(ToggleDates(ds, date).0)
    ensures ToggleDates(ds, date).1 <==>
      exists i :: 0 <= i < |ToggleDates(ds, date).0| && DayOf(ToggleDates(ds, date).0[i]) == DayOf(date)
  {
    var m := IndexWhere(ds, OnDay(date));
    if m.None? {
      MarkKeepsOnePerDay(ds, date);
    } else {
      UnmarkKeepsOnePerDay(ds, m.value, date);
    }
  }

  /** Adding a day that is not marked yet keeps one completion per day, and marks it. */
  lemma MarkKeepsOnePerDay(ds: seq<nat>, date: nat)
    requires OnePerDay(ds)
    requires forall i :: 0 <= i < |ds| ==> DayOf(ds[i]) != DayOf(date)
    ensures var r := ds + [Midnight(date)];
      OnePerDay(r) && DayOf(r[|ds|]) == DayOf(date)
  {
    var r := ds + [Midnight(date)];
    forall i, j | 0 <= i < j < |r| ensures DayOf(r[i]) != DayOf(r[j]) {
      assert r[i] == ds[i];
      if j < |ds| {
        assert r[j] == ds[j];
      }
    }
  }

  /** Dropping the completion of a marked day keeps one completion per day, and leaves the day unmarked. */
  lemma UnmarkKeepsOnePerDay(ds: seq<nat>, k: nat, date: nat)
    requires OnePerDay(ds)
    requires k < |ds| && DayOf(ds[k]) == DayOf(date)
    ensures var r := ds[..k] + ds[k + 1..];
      OnePerDay(r) && forall i :: 0 <= i < |r| ==> DayOf(r[i]) != DayOf(date)
  {
    var r := ds[..k] + ds[k + 1..];
    assert r == RemoveAt(ds, k);
    forall i | 0 <= i < |r| ensures DayOf(r[i]) != DayOf(date) {
      var i' := if i < k then i else i + 1;
      assert r[i] == ds[i'] && i' != k;
    }
    forall i, j | 0 <= i < j < |r| ensures DayOf(r[i]) != DayOf(r[j]) {
      var i' := if i < k then i else i + 1;
      var j' := if j < k then j else j + 1;
      assert r[i] == ds[i'] && r[j] == ds[j'] && i' < j';
    }
  }

  /** ToggleCompletion on a loaded list; `None` (no save, answer false) when the user has no such habit. */
  function ToggleIn(hs: seq<Habit>, habitId: string, email: string, date: nat): (r: Option<(seq<Habit>, bool)>)
    ensures r.None? <==> forall i :: 0 <= i < |hs| ==> !(hs[i].id == habitId && hs[i].userEmail == email)
    ensures r.Some? ==>
      exists k :: 0 <= k < |hs| && hs[k].id == habitId && hs[k].userEmail == email &&
        (forall j :: 0 <= j < k ==> !(hs[j].id == habitId && hs[j].userEmail == email)) &&
        var t := ToggleDates(hs[k].completedDates, date);
        r.value == (hs[k := hs[k].(completedDates := t.0)], t.1)
  {
    match IndexWhere(hs, IsHabit(habitId, email))
    case None => None
    case Some(k) =>
      var t := ToggleDates(hs[k].completedDates, date);
      Some((hs[k := hs[k].(completedDates := t.0)], t.1))
  }

  /** The fields UpdateHabit copies; id, owner, completions and creation time stay as stored. */
  function CopyHabitDetails(stored: Habit, edited: Habit): (r: Habit)
    ensures r.id == stored.id && r.userEmail == stored.userEmail
    ensures r.completedDates == stored.completedDates && r.createdDate == stored.createdDate
    ensures r.name == edited.name && r.description == edited.description
    ensures r.frequencyType == edited.frequencyType && r.customDays == edited.customDays
    ensures r.startDate == edited.startDate && r.goal == edited.goal
  {
    stored.(name := edited.name, description := edited.description, frequencyType := edited.frequencyType,
            customDays := edited.customDays, startDate := edited.startDate, goal := edited.goal)
  }

  /** UpdateHabit on a loaded list: the new list and the stored habit as updated; `None` for no match. */
  function UpdateHabitIn(hs: seq<Habit>, h: Habit): (r: Option<(seq<Habit>, Habit)>)
    ensures r.None? <==> forall i :: 0 <= i < |hs| ==> !(hs[i].id == h.id && hs[i].userEmail == h.userEmail)
    ensures r.Some? ==>
      exists k :: 0 <= k < |hs| && hs[k].id == h.id && hs[k].userEmail == h.userEmail &&
        (forall j :: 0 <= j < k ==> !(hs[j].id == h.id && hs[j].userEmail == h.userEmail)) &&
        r.value == (hs[k := CopyHabitDetails(hs[k], h)], CopyHabitDetails(hs[k], h))
  {
    match IndexWhere(hs, IsHabit(h.id, h.userEmail))
    case None => None
    case Some(k) => Some((hs[k := CopyHabitDetails(hs[k], h)], CopyHabitDetails(hs[k], h)))
  }

  /** DeleteHabit on a loaded list: drops the first habit with this id and owner. */
  function DeleteHabitIn(hs: seq<Habit>, id: string, email: string): (r: Option<seq<Habit>>)
    ensures r.None? <==> forall i :: 0 <= i < |hs| ==> !(hs[i].id == id && hs[i].userEmail == email)
    ensures r.Some? ==>
      exists k :: 0 <= k < |hs| && hs[k].id == id && hs[k].userEmail == email &&
        (forall j :: 0 <= j < k ==> !(hs[j].id == id && hs[j].userEmail == email)) &&
        r.value == hs[..k] + hs[k + 1..]
  {
    match IndexWhere(hs, IsHabit(id, email))
    case None => None
    case Some(k) => Some(hs[..k] + hs[k + 1..])
  }

  /** Toggling, editing or deleting one user's habit leaves every other user's habits as they were. */
  lemma {:induction false} ChangesKeepOthersHabits(hs: seq<Habit>, h: Habit, date: nat, other: string)
    requires other != h.userEmail
    ensures ToggleIn(hs, h.id, h.userEmail, date).Some? ==>
      HabitsByUser(ToggleIn(hs, h.id, h.userEmail, date).value.0, other) == HabitsByUser(hs, other)
    ensures UpdateHabitIn(hs, h).Some? ==>
      HabitsByUser(UpdateHabitIn(hs, h).value.0, other) == HabitsByUser(hs, other)
    ensures DeleteHabitIn(hs, h.id, h.userEmail).Some? ==>
      HabitsByUser(DeleteHabitIn(hs, h.id, h.userEmail).value, other) == HabitsByUser(hs, other)
  {
    var m := IndexWhere(hs, IsHabit(h.id, h.userEmail));
    if m.Some? {
      var k := m.value;
      var t := ToggleDates(hs[k].completedDates, date);
      FilterUpdateOther(hs, k, hs[k].(completedDates := t.0), OwnedBy(other));
      FilterUpdateOther(hs, k, CopyHabitDetails(hs[k], h), OwnedBy(other));
      FilterRemoveOther(hs, k, OwnedBy(other));
    }
  }

  class HabitService {
    var file: FileContent<Habit>

    constructor (initial: FileContent<Habit>)
      ensures file == initial
    {
      file := initial;
    }

    function GetHabitsByUser(email: string): (r: Outcome<seq<Habit>>)
      reads this
      ensures r.Threw? <==> LoadHabits(file).Threw?
      ensures r.Done? ==> r.value == HabitsByUser(LoadHabits(file).value, email)
    {
      match LoadHabits(file)
      case Threw => Threw
      case Done(hs) => Done(HabitsByUser(hs, email))
    }

    /** `freshId` stands for Guid.NewGuid().ToString() and `now` for DateTime.Now. */
    method AddHabit(h: Habit, freshId: string, now: nat) returns (r: Outcome<Habit>)
      modifies this
      ensures old(LoadHabits(file)).Threw? ==> r.Threw? && file == old(file)
      ensures old(LoadHabits(file)).Done? ==>
        r == Done(WithDefaults(h, freshId, now)) &&
        file == Records(old(LoadHabits(file)).value + [WithDefaults(h, freshId, now)])
    {
      var loaded := LoadHabits(file);
      if loaded.Threw? {
        r := Threw;
        return;
      }
      var added := WithDefaults(h, freshId, now);
      file := Records(loaded.value + [added]);
      r := Done(added);
    }

    /** Returns the updated habit, or None (the C# null) when the user has no habit with that id. */
    method UpdateHabit(h: Habit) returns (r: Outcome<Option<Habit>>)
      modifies this
      ensures r.Threw? <==> old(LoadHabits(file)).Threw?
      ensures r.Threw? ==> file == old(file)
      ensures r.Done? ==>
        match UpdateHabitIn(old(LoadHabits(file)).value, h)
        case None => file == old(file) && r.value == None
        case Some(res) => file == Records(res.0) && r.value == Some(res.1)
    {
      var loaded := LoadHabits(file);
      if loaded.Threw? {
        r := Threw;
        return;
      }
      var res := UpdateHabitIn(loaded.value, h);
      if res.Some? {
        file := Records(res.value.0);
        r := Done(Some(res.value.1));
      } else {
        r := Done(None);
      }
    }

    method ToggleCompletion(habitId: string, email: string, date: nat) returns (r: Outcome<bool>)
      modifies this
      ensures r.Threw? <==> old(LoadHabits(file)).Threw?
      ensures r.Threw? ==> file == old(file)
      ensures r.Done? ==>
        match ToggleIn(old(LoadHabits(file)).value, habitId, email, date)
        case None => file == old(file) && r.value == false
        case Some(res) => file == Records(res.0) && r.value == res.1
    {
      var loaded := LoadHabits(file);
      if loaded.Threw? {
        r := Threw;
        return;
      }
      var res := ToggleIn(loaded.value, habitId, email, date);
      if res.Some? {
        file := Records(res.value.0);
        r := Done(res.value.1);
      } else {
        r := Done(false);
      }
    }

    method DeleteHabit(id: string, email: string) returns (r: Outcome<()>)
      modifies this
      ensures r.Threw? <==> old(LoadHabits(file)).Threw?
      ensures r.Threw? ==> file == old(file)
      ensures r.Done? ==>
        match DeleteHabitIn(old(LoadHabits(file)).value, id, email)
        case None => file == old(file)
        case Some(hs) => file == Records(hs)
    {
      var loaded := LoadHabits(file);
      if loaded.Threw? {
        r := Threw;
        return;
      }
      var remaining := DeleteHabitIn(loaded.value, id, email);
      if remaining.Some? {
        file := Records(remaining.value);
      }
      r := Done(());
    }
  }
}
