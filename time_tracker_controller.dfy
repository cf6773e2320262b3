/**
  The time-tracker pages. Every action needs a signed-in user, whose email
  comes from the session. The index lists that user's entries through a
  date filter; its summary cards always describe today, whatever the
  filter. Manual entries and edits derive the missing half of
  (end time, duration) before they reach the entry store.
*/
module TimeTrackerPages {
  import opened Util
  import opened StoreFile
  import opened Web
  import opened Clock
  import opened TimeEntryStore
  import opened Ordering

  /** GetCurrentUserEmail: the admin's email when set, else the student's, else nobody. */
  function CurrentUserEmail(s: Session): (r: Option<string>)
    ensures r.None? <==> SignedOut(s)
    ensures r.Some? ==> r.value != ""
    ensures !Unset(s, "AdminUser") ==> r == Some(s["AdminUser"])
    ensures Unset(s, "AdminUser") && !Unset(s, "StudentUser") ==> r == Some(s["StudentUser"])
  {
    var adminUser := GetOr(s, "AdminUser", "");
    var studentUser := GetOr(s, "StudentUser", "");
    if adminUser != "" then Some(adminUser)
    else if studentUser != "" then Some(studentUser)
    else None
  }

  // ---------------------------------------------------------------------
  // The index filter
  // ---------------------------------------------------------------------

  /** The windows the filter names; custom bounds are clock readings of which only the day counts. */
  datatype Window =
    | TodayOnly
    | YesterdayOnly
    | LastWeek
    | Between(from: Option<nat>, to: Option<nat>)
    | Everything

  /** The switch on `filter.ToLower()`: "all" and every unknown name mean no filter. */
  function WindowOf(filter: string, startDate: Option<nat>, endDate: Option<nat>): (w: Window)
    ensures w.Between? ==> w == Between(startDate, endDate)
  {
    var f := ToLower(filter);
    if f == "today" then TodayOnly
    else if f == "yesterday" then YesterdayOnly
    else if f == "week" then LastWeek
    else if f == "custom" then Between(startDate, endDate)
    else Everything
  }

  /** Whether an entry's start day lies in the window, `today` being the current day number. */
  predicate InWindow(w: Window, today: int, e: TimeEntry)
  {
    var d := DayOf(e.startTime) as int;
    match w
    case TodayOnly => d == today
    case YesterdayOnly => d == today - 1
    case LastWeek => d >= today - 7
    case Between(from, to) =>
      (from.None? || d >= DayOf(from.value) as int) && (to.None? || d <= DayOf(to.value) as int)
    case Everything => true
  }

  function Selects(w: Window, today: int): TimeEntry -> bool
  {
    (e: TimeEntry) => InWindow(w, today, e)
  }

  /** The listed entries: the user's entries in the window, in their listing order. */
  function Windowed(es: seq<TimeEntry>, w: Window, today: int): (r: seq<TimeEntry>)
    ensures forall i :: 0 <= i < |r| ==> r[i] in es && InWindow(w, today, r[i])
    ensures forall i :: 0 <= i < |es| && InWindow(w, today, es[i]) ==> es[i] in r
  {
    Filter(es, Selects(w, today))
  }

  /** Each entry in the window is listed exactly as often as it is stored, and no other entry is listed. */
  lemma WindowedCounts(es: seq<TimeEntry>, w: Window, today: int)
    ensures forall x :: multiset(Windowed(es, w, today))[x] == if InWindow(w, today, x) then multiset(es)[x] else 0
  {
    forall x ensures multiset(Windowed(es, w, today))[x] == if InWindow(w, today, x) then multiset(es)[x] else 0 {
      FilterMultiset(es, Selects(w, today), x);
    }
  }

  /** The listing keeps listing order: empty for no entries, and an entry listed last stays last exactly when it is in the window. */
  lemma {:induction false} WindowedSnoc(es: seq<TimeEntry>, e: TimeEntry, w: Window, today: int)
    ensures Windowed([], w, today) == []
    ensures Windowed(es + [e], w, today) == Windowed(es, w, today) + (if InWindow(w, today, e) then [e] else [])
  {
    FilterAppend(es, [e], Selects(w, today));
    assert Filter([e], Selects(w, today)) == if InWindow(w, today, e) then [e] else [];
  }

  /** A latest-first listing stays latest first after the window filter. */
  lemma WindowedLatestFirst(es: seq<TimeEntry>, w: Window, today: int)
    requires forall i, j :: 0 <= i < j < |es| ==> es[i].startTime >= es[j].startTime
    ensures var r := Windowed(es, w, today);
      forall i, j :: 0 <= i < j < |r| ==> r[i].startTime >= r[j].startTime
  {
    assert SortedDesc(es, StartOf);
    FilterKeepsSortedDesc(es, Selects(w, today), StartOf);
    var r := Windowed(es, w, today);
    assert forall i, j :: 0 <= i < j < |r| ==> StartOf(r[i]) >= StartOf(r[j]);
  }

  /** The filter names are case-insensitive: "Today", "WEEK" and "week" pick the same windows as in lower case. */
  lemma FilterIgnoresCase(filter: string, startDate: Option<nat>, endDate: Option<nat>)
    ensures WindowOf(filter, startDate, endDate) == WindowOf(ToLower(filter), startDate, endDate)
  {
    LowerTwice(filter);
  }

  lemma LowerTwice(s: string)
    ensures ToLower(ToLower(s)) == ToLower(s)
  {
    var t := ToLower(s);
    assert forall i :: 0 <= i < |t| ==> ToLower(t)[i] == LowerChar(t[i]) == t[i];
  }

  /** Today's and yesterday's entries are all within the week window. */
  lemma WeekCoversRecentDays(today: int, e: TimeEntry)
    requires InWindow(TodayOnly, today, e) || InWindow(YesterdayOnly, today, e)
    ensures InWindow(LastWeek, today, e)
  {
  }

  /** A custom filter without bounds lists every entry, like "all". */
  lemma UnboundedCustomKeepsAll(es: seq<TimeEntry>, today: int)
    ensures Windowed(es, Between(None, None), today) == es
  {
    FilterKeepsAll(es, Selects(Between(None, None), today));
  }

  /** A custom filter from today to today lists exactly what the "today" filter lists. */
  lemma CustomOfOneDayIsToday(es: seq<TimeEntry>, now: nat)
    ensures Windowed(es, Between(Some(now), Some(now)), DayOf(now)) == Windowed(es, TodayOnly, DayOf(now))
  {
    FilterSameTest(es, Selects(Between(Some(now), Some(now)), DayOf(now)), Selects(TodayOnly, DayOf(now)));
  }

  // ---------------------------------------------------------------------
  // Today's summaries
  // ---------------------------------------------------------------------

  function SumDurations(es: seq<TimeEntry>): int
  {
    if |es| == 0 then 0 else es[0].durationSeconds + SumDurations(es[1..])
  }

  /** The tracked seconds of one task name: the sum over the entries carrying that name. */
  function NameTotal(es: seq<TimeEntry>, name: Option<string>): int
  {
    if |es| == 0 then 0
    else (if es[0].taskName == name then es[0].durationSeconds else 0) + NameTotal(es[1..], name)
  }

  /** A missing task name is shown as "Unknown". */
  function Label(name: Option<string>): string
  {
    if name.None? then UnknownTask else name.value
  }

  function Names(es: seq<TimeEntry>): (r: seq<Option<string>>)
    ensures |r| == |es|
    ensures forall i :: 0 <= i < |es| ==> r[i] == es[i].taskName
  {
    if |es| == 0 then [] else [es[0].taskName] + Names(es[1..])
  }

  /** One (label, seconds) pair per name, in the order of the names. */
  function Totals(es: seq<TimeEntry>, names: seq<Option<string>>): (r: seq<(string, int)>)
    ensures |r| == |names|
    ensures forall i :: 0 <= i < |names| ==> r[i] == (Label(names[i]), NameTotal(es, names[i]))
  {
    if |names| == 0 then [] else [(Label(names[0]), NameTotal(es, names[0]))] + Totals(es, names[1..])
  }

  function Seconds(b: seq<(string, int)>): int
  {
    if |b| == 0 then 0 else b[0].1 + Seconds(b[1..])
  }

  /** A nameless entry and an entry named "Unknown" would both be shown as "Unknown". */
  predicate Clash(names: seq<Option<string>>)
  {
    None in names && Some(UnknownTask) in names
  }

  const UnknownTask := "Unknown"

  /**
    The task breakdown: the entries grouped by task name in order of first
    appearance, each group's durations summed and its key shown through
    Label. ToDictionary throws on a repeated key, which happens exactly when
    a nameless entry and one named "Unknown" are both present: `None`.
  */
  function Breakdown(es: seq<TimeEntry>): (r: Option<seq<(string, int)>>)
    ensures r.None? <==> Clash(Names(es))
    ensures r.Some? ==> forall i, j :: 0 <= i < j < |r.value| ==> r.value[i].0 != r.value[j].0
  {
    var names := Dedupe(Names(es));
    if None in names && Some(UnknownTask) in names then None
    else
      var b := Totals(es, names);
      DedupeDistinct(Names(es));
      forall i, j | 0 <= i < j < |b| ensures b[i].0 != b[j].0 {
        assert names[i] != names[j];
      }
      Some(b)
  }

  /** Every task of the day has its line in the breakdown, and every line is the total of a task of the day. */
  lemma BreakdownLines(es: seq<TimeEntry>)
    requires Breakdown(es).Some?
    ensures forall i :: 0 <= i < |es| ==> Line(es, es[i].taskName) in Breakdown(es).value
    ensures forall k :: 0 <= k < |Breakdown(es).value| ==>
      exists i :: 0 <= i < |es| && Breakdown(es).value[k] == Line(es, es[i].taskName)
  {
    forall i | 0 <= i < |es| ensures Line(es, es[i].taskName) in Breakdown(es).value {
      TaskHasLine(es, i);
    }
    forall k | 0 <= k < |Breakdown(es).value|
      ensures exists i :: 0 <= i < |es| && Breakdown(es).value[k] == Line(es, es[i].taskName)
    {
      LineHasTask(es, k);
    }
  }

  /** The breakdown line of a task name: its label and its total. */
  function Line(es: seq<TimeEntry>, name: Option<string>): (string, int)
  {
    (Label(name), NameTotal(es, name))
  }

  lemma TaskHasLine(es: seq<TimeEntry>, i: nat)
    requires Breakdown(es).Some? && i < |es|
    ensures Line(es, es[i].taskName) in Breakdown(es).value
  {
    var names := Dedupe(Names(es));
    var b := Totals(es, names);
    assert Breakdown(es).value == b;
    assert Names(es)[i] in names;
    var k :| 0 <= k < |names| && names[k] == es[i].taskName;
    assert b[k] == Line(es, names[k]);
  }

  lemma LineHasTask(es: seq<TimeEntry>, k: nat)
    requires Breakdown(es).Some? && k < |Breakdown(es).value|
    ensures exists i :: 0 <= i < |es| && Breakdown(es).value[k] == Line(es, es[i].taskName)
  {
    var names := Dedupe(Names(es));
    var b := Totals(es, names);
    assert Breakdown(es).value == b;
    assert names[k] in Names(es);
    var i :| 0 <= i < |es| && Names(es)[i] == names[k];
    assert b[k] == Line(es, es[i].taskName);
  }

  /** The entries counted by the summary cards: those started today. */
  function TodayEntries(es: seq<TimeEntry>, today: int): seq<TimeEntry>
  {
    Windowed(es, TodayOnly, today)
  }

  /** The breakdown accounts for every tracked second of today, once. */
  lemma BreakdownAddsUp(es: seq<TimeEntry>)
    requires Breakdown(es).Some?
    ensures Seconds(Breakdown(es).value) == SumDurations(es)
  {
    var names := Dedupe(Names(es));
    forall i | 0 <= i < |es| ensures es[i].taskName in names {
      assert Names(es)[i] == es[i].taskName;
    }
    TotalsAddUp(es, names);
  }

  lemma {:induction false} TotalsAddUp(es: seq<TimeEntry>, names: seq<Option<string>>)
    requires forall i, j :: 0 <= i < j < |names| ==> names[i] != names[j]
    requires forall i :: 0 <= i < |es| ==> es[i].taskName in names
    ensures Seconds(Totals(es, names)) == SumDurations(es)
  {
    if |es| == 0 {
      TotalsOfNothing(es, names);
    } else {
      var e, rest := es[0], es[1..];
      assert es == [e] + rest;
      TotalsCons(e, rest, names);
      assert forall i :: 0 <= i < |rest| ==> rest[i] == es[i + 1];
      TotalsAddUp(rest, names);
    }
  }

  lemma {:induction false} TotalsOfNothing(es: seq<TimeEntry>, names: seq<Option<string>>)
    requires |es| == 0
    ensures Seconds(Totals(es, names)) == 0
  {
    if |names| > 0 {
      TotalsOfNothing(es, names[1..]);
    }
  }

  /** One more entry adds its duration to the total of its own name, and to no other. */
  lemma {:induction false} TotalsCons(e: TimeEntry, rest: seq<TimeEntry>, names: seq<Option<string>>)
    requires forall i, j :: 0 <= i < j < |names| ==> names[i] != names[j]
    ensures Seconds(Totals([e] + rest, names)) ==
      (if e.taskName in names then e.durationSeconds else 0) + Seconds(Totals(rest, names))
  {
    if |names| > 0 {
      var tail := names[1..];
      assert forall i :: 0 <= i < |tail| ==> tail[i] == names[i + 1];
      TotalsCons(e, rest, tail);
      assert ([e] + rest)[1..] == rest;
      assert NameTotal([e] + rest, names[0]) ==
        (if e.taskName == names[0] then e.durationSeconds else 0) + NameTotal(rest, names[0]);
      assert e.taskName in names <==> e.taskName == names[0] || e.taskName in tail;
    }
  }

  /** TotalTimeTracked: the seconds tracked today, whatever the filter. */
  function TotalToday(es: seq<TimeEntry>, today: int): int
  {
    SumDurations(TodayEntries(es, today))
  }

  // ---------------------------------------------------------------------
  // Recent task names
  // ---------------------------------------------------------------------

  /** GetRecentTasks over the user's listing: the distinct task names in listing order, at most five. */
  function RecentTasks(es: seq<TimeEntry>): (r: seq<Option<string>>)
    ensures |r| <= 5
    ensures forall i, j :: 0 <= i < j < |r| ==> r[i] != r[j]
    ensures forall n :: n in r ==> exists i :: 0 <= i < |es| && es[i].taskName == n
    ensures |r| < 5 ==> forall i :: 0 <= i < |es| ==> es[i].taskName in r
    ensures r <= Dedupe(Names(es))
  {
    var names := Dedupe(Names(es));
    var r := Take(names, 5);
    DedupeDistinct(Names(es));
    forall n | n in r ensures exists i :: 0 <= i < |es| && es[i].taskName == n {
      assert n in Names(es);
    }
    forall i | 0 <= i < |es| && |r| < 5 ensures es[i].taskName in r {
      assert Names(es)[i] in names;
    }
    r
  }

  /**
    The first recent task is the name of the latest entry: the user's
    listing starts with the entry started last.
  */
  lemma LatestTaskFirst(stored: seq<TimeEntry>, email: string)
    requires |EntriesByUser(stored, email)| > 0
    ensures var es := EntriesByUser(stored, email);
      RecentTasks(es)[0] == es[0].taskName &&
      forall j :: 0 <= j < |es| ==> es[0].startTime >= es[j].startTime
  {
    var es := EntriesByUser(stored, email);
    DedupePrefix(Names(es), 1);
    assert Names(es)[..1] == [es[0].taskName];
    assert Dedupe([es[0].taskName]) == [es[0].taskName] by {
      assert [es[0].taskName][..0] == [];
    }
  }

  // ---------------------------------------------------------------------
  // Duration rules
  // ---------------------------------------------------------------------

  function Clamp(x: int): (r: nat)
    ensures r == x || (x < 0 && r == 0)
  {
    if x < 0 then 0 else x
  }

  /**
    AddManualEntry's completion of the posted entry: the session's email;
    with an end time and no duration, the duration is the span from start
    to end; with a positive duration and no end time, the end time is the
    start plus the duration; a negative duration then becomes 0.
  */
  function ManualEntry(entry: TimeEntry, email: string): (e: TimeEntry)
    ensures e.id == entry.id && e.taskName == entry.taskName && e.startTime == entry.startTime
    ensures e.userEmail == email && e.durationSeconds >= 0
    ensures entry.endTime.Some? && entry.durationSeconds == 0 ==>
      e.endTime == entry.endTime && e.durationSeconds == Clamp(entry.endTime.value - entry.startTime)
    ensures entry.endTime.None? && entry.durationSeconds > 0 ==>
      e.endTime == Some(entry.startTime + entry.durationSeconds) && e.durationSeconds == entry.durationSeconds
    ensures !(entry.endTime.Some? && entry.durationSeconds == 0) && !(entry.endTime.None? && entry.durationSeconds > 0) ==>
      e.endTime == entry.endTime && e.durationSeconds == Clamp(entry.durationSeconds)
  {
    var e := entry.(userEmail := email);
    var e := if e.endTime.Some? && e.durationSeconds == 0 then e.(durationSeconds := e.endTime.value - e.startTime)
             else if e.endTime.None? && e.durationSeconds > 0 then e.(endTime := Some(e.startTime + e.durationSeconds))
             else e;
    if e.durationSeconds < 0 then e.(durationSeconds := 0) else e
  }

  /** An entry whose recorded duration is exactly the span from its start to its end. */
  predicate Spans(e: TimeEntry)
  {
    e.endTime.Some? && e.endTime.value == e.startTime + e.durationSeconds
  }

  /**
    A manual entry given only one of end time and duration comes out with
    both, in agreement, as long as the end is not before the start.
  */
  lemma ManualEntryCompletes(entry: TimeEntry, email: string)
    requires (entry.endTime.Some? && entry.durationSeconds == 0 && entry.endTime.value >= entry.startTime)
          || (entry.endTime.None? && entry.durationSeconds > 0)
    ensures Spans(ManualEntry(entry, email))
  {
  }

  /** UpdateEntry's rule: the duration is recomputed from the end time when there is one, then clamped at 0. */
  function EditedEntry(entry: TimeEntry, email: string): (e: TimeEntry)
    ensures e.durationSeconds >= 0
    ensures entry.endTime.Some? ==> e.durationSeconds == Clamp(entry.endTime.value - entry.startTime)
    ensures entry.endTime.None? ==> e.durationSeconds == Clamp(entry.durationSeconds)
    ensures e == entry.(userEmail := email, durationSeconds := e.durationSeconds)
  {
    var d := if entry.endTime.Some? then entry.endTime.value - entry.startTime else entry.durationSeconds;
    entry.(userEmail := email, durationSeconds := Clamp(d))
  }

  /** Saving an edited entry again changes nothing more, and an end at or after the start is spanned exactly. */
  lemma EditIsStable(entry: TimeEntry, email: string)
    ensures EditedEntry(EditedEntry(entry, email), email) == EditedEntry(entry, email)
    ensures entry.endTime.Some? && entry.endTime.value >= entry.startTime ==> Spans(EditedEntry(entry, email))
  {
  }

  // ---------------------------------------------------------------------
  // The controller
  // ---------------------------------------------------------------------

  /** What the index shows: the listed entries, the filter echoed back, and today's summaries. */
  datatype TrackerView = TrackerView(
    entries: seq<TimeEntry>,
    filter: string,
    customStart: Option<nat>,
    customEnd: Option<nat>,
    totalSeconds: int,
    breakdown: seq<(string, int)>)

  datatype TrackerResult =
    | LoginRedirect            // RedirectToAction("Login", "Account")
    | Success                  // Ok(new { success = true })
    | IndexRedirect            // RedirectToAction(nameof(Index))
    | Failed                   // the breakdown's dictionary throws
    | View(view: TrackerView)
    | Tasks(names: seq<Option<string>>)

  class TimeTrackerController {
    const session: Session
    const svc: TimeTrackerService

    constructor (service: TimeTrackerService, initial: Session)
      ensures svc == service && session == initial
    {
      svc := service;
      session := initial;
    }

    /** The signed-in user's listing, newest first. */
    function UserEntries(email: string): seq<TimeEntry>
      reads svc
    {
      EntriesByUser(LoadEntries(svc.file), email)
    }

    // Every action starts with BaseController's gate: a signed-out session
    // is sent to the login page before the action runs. Past the gate
    // GetCurrentUserEmail is never empty, so the actions' own checks (the
    // Unauthorized() of SaveEntry, UpdateEntry, DeleteEntry and
    // GetRecentTasks) never fire.

    /**
      Index: the login page for nobody; otherwise the user's entries in the
      chosen window, with today's total and per-task breakdown, which do not
      depend on the window. `now` is the clock.
    */
    function Index(filter: string, startDate: Option<nat>, endDate: Option<nat>, now: nat): (r: TrackerResult)
      reads svc
      ensures r == LoginRedirect <==> SignedOut(session)
      ensures r.View? ==>
        var es := UserEntries(CurrentUserEmail(session).value);
        var today := DayOf(now);
        (forall e :: e in r.view.entries <==> e in es && InWindow(WindowOf(filter, startDate, endDate), today, e)) &&
        (forall x :: multiset(r.view.entries)[x] ==
          if InWindow(WindowOf(filter, startDate, endDate), today, x) then multiset(es)[x] else 0) &&
        (forall i, j :: 0 <= i < j < |r.view.entries| ==> r.view.entries[i].startTime >= r.view.entries[j].startTime) &&
        r.view.totalSeconds == TotalToday(es, today) &&
        Seconds(r.view.breakdown) == r.view.totalSeconds
      ensures r.Failed? ==> Breakdown(TodayEntries(UserEntries(CurrentUserEmail(session).value), DayOf(now))).None?
      ensures r.LoginRedirect? || r.Failed? || r.View?
    {
      if SignedOut(session) then LoginRedirect
      else
        var email := CurrentUserEmail(session).value;
        var all := UserEntries(email);
        var today := DayOf(now);
        var listed := Windowed(all, WindowOf(filter, startDate, endDate), today);
        WindowedCounts(all, WindowOf(filter, startDate, endDate), today);
        WindowedLatestFirst(all, WindowOf(filter, startDate, endDate), today);
        var todays := TodayEntries(all, today);
        match Breakdown(todays)
        case None => Failed
        case Some(b) =>
          BreakdownAddsUp(todays);
          View(TrackerView(listed, filter, startDate, endDate, SumDurations(todays), b))
    }

    /** SaveEntry: the posted entry, stamped with the session's email, is added. */
    method SaveEntry(entry: TimeEntry) returns (r: TrackerResult)
      modifies svc
      ensures SignedOut(session) ==> r == LoginRedirect && svc.file == old(svc.file)
      ensures !SignedOut(session) ==> (r == Success &&
        svc.file == Records(AppendEntry(old(LoadEntries(svc.file)), entry.(userEmail := CurrentUserEmail(session).value))))
    {
      if SignedOut(session) {
        return LoginRedirect;
      }
      var email := CurrentUserEmail(session);
      var e := entry.(userEmail := email.value);
      var _ := svc.AddEntry(e);
      r := Success;
    }

    /** AddManualEntry: the entry is completed by ManualEntry, then added. */
    method AddManualEntry(entry: TimeEntry) returns (r: TrackerResult)
      modifies svc
      ensures SignedOut(session) ==> r == LoginRedirect && svc.file == old(svc.file)
      ensures !SignedOut(session) ==> (r == IndexRedirect &&
        svc.file == Records(AppendEntry(old(LoadEntries(svc.file)), ManualEntry(entry, CurrentUserEmail(session).value))))
    {
      if SignedOut(session) {
        return LoginRedirect;
      }
      var email := CurrentUserEmail(session);
      var e := entry.(userEmail := email.value);
      if e.endTime.Some? && e.durationSeconds == 0 {
        e := e.(durationSeconds := e.endTime.value - e.startTime);
      } else if e.endTime.None? && e.durationSeconds > 0 {
        e := e.(endTime := Some(e.startTime + e.durationSeconds));
      }
      if e.durationSeconds < 0 {
        e := e.(durationSeconds := 0);
      }
      assert e == ManualEntry(entry, email.value);
      var _ := svc.AddEntry(e);
      r := IndexRedirect;
    }

    /** UpdateEntry: the edit, under the session's email and with EditedEntry's duration, goes to the store. */
    method UpdateEntry(entry: TimeEntry) returns (r: TrackerResult)
      modifies svc
      ensures SignedOut(session) ==> r == LoginRedirect && svc.file == old(svc.file)
      ensures !SignedOut(session) ==> (r == IndexRedirect &&
        match UpdateEntryIn(old(LoadEntries(svc.file)), EditedEntry(entry, CurrentUserEmail(session).value))
        case None => svc.file == old(svc.file)
        case Some(es) => svc.file == Records(es))
    {
      if SignedOut(session) {
        return LoginRedirect;
      }
      var email := CurrentUserEmail(session);
      var e := entry.(userEmail := email.value);
      if e.endTime.Some? {
        e := e.(durationSeconds := e.endTime.value - e.startTime);
      }
      if e.durationSeconds < 0 {
        e := e.(durationSeconds := 0);
      }
      svc.UpdateEntry(e);
      r := IndexRedirect;
    }

    /** DeleteEntry: only the signed-in user's own entry with that id can go. */
    method DeleteEntry(id: int) returns (r: TrackerResult)
      modifies svc
      ensures SignedOut(session) ==> r == LoginRedirect && svc.file == old(svc.file)
      ensures !SignedOut(session) ==> (r == IndexRedirect &&
        match DeleteEntryIn(old(LoadEntries(svc.file)), id, CurrentUserEmail(session).value)
        case None => svc.file == old(svc.file)
        case Some(es) => svc.file == Records(es))
    {
      if SignedOut(session) {
        return LoginRedirect;
      }
      var email := CurrentUserEmail(session);
      svc.DeleteEntry(id, email.value);
      r := IndexRedirect;
    }

    /** GetRecentTasks: up to five distinct task names of the user, latest first. */
    function GetRecentTasks(): (r: TrackerResult)
      reads svc
      ensures r == LoginRedirect <==> SignedOut(session)
      ensures r.Tasks? ==>
        var es := UserEntries(CurrentUserEmail(session).value);
        r.names == RecentTasks(es) &&
        |r.names| <= 5 &&
        (forall i, j :: 0 <= i < j < |r.names| ==> r.names[i] != r.names[j]) &&
        r.names <= Dedupe(Names(es)) &&
        (forall n :: n in r.names ==> exists i :: 0 <= i < |es| && es[i].taskName == n)
      ensures r.LoginRedirect? || r.Tasks?
    {
      if SignedOut(session) then LoginRedirect
      else Tasks(RecentTasks(UserEntries(CurrentUserEmail(session).value)))
    }
  }
}
