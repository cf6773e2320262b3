/**
  The rules of the goal planner: the progress/status rule, the streak and
  schedule status, overdue marking, the one-task-per-day task actions, the
  round-robin redistribution of missed tasks, and the generated milestones
  and monthly task lists.

  Calendar dates (start, end, task and due dates) are day numbers (see
  Calendar); time stamps (creation and completion times) are clock readings
  in seconds.
*/
module GoalRules {
  import opened Util
  import opened Ordering
  import opened Calendar

  datatype Milestone = Milestone(id: string, title: string, dueDate: nat, isCompleted: bool, completedAt: Option<nat>)

  datatype DailyTask = DailyTask(
    id: string,
    userId: int,
    goalId: string,
    title: string,
    description: string,
    date: nat,
    isCompleted: bool,
    completedAt: Option<nat>,
    createdDate: nat)

  datatype Goal = Goal(
    id: string,
    userId: int,
    title: string,
    description: string,
    category: string,
    priority: string,
    startDate: nat,
    endDate: nat,
    milestones: seq<Milestone>,
    dailyTasks: seq<DailyTask>,
    status: string,
    scheduleStatus: string,
    createdDate: nat,
    streak: int)

  const Completed := "Completed"
  const InProgress := "In Progress"
  const NotStarted := "Not Started"
  const Overdue := "Overdue"
  const OnTrack := "On Track"

  function IsDone(t: DailyTask): bool
  {
    t.isCompleted
  }

  function DoneCount(ts: seq<DailyTask>): (n: nat)
    ensures n <= |ts|
  {
    CountWhere(ts, IsDone)
  }

  // ---------------------------------------------------------------------
  // The progress/status rule
  // ---------------------------------------------------------------------

  /**
    Progress is done/total (100% with no tasks): 100% gives Completed, any
    progress In Progress, none Not Started.
  */
  function ProgressStatus(done: nat, total: nat): (s: string)
    requires done <= total
    ensures s == Completed <==> done == total
    ensures s == InProgress <==> 0 < done < total
    ensures s == NotStarted <==> 0 == done < total
  {
    if done == total then Completed else if done > 0 then InProgress else NotStarted
  }

  /** ScheduleStatus as CalculateCurrentState sets it. */
  function ScheduleFor(status: string): (s: string)
    ensures s == Completed <==> status == Completed
    ensures s == Completed || s == OnTrack
  {
    if status == Completed then Completed else OnTrack
  }

  // ---------------------------------------------------------------------
  // Streak
  // ---------------------------------------------------------------------

  /** Day d has at least one task and every task on it is done. */
  predicate DayComplete(ts: seq<DailyTask>, d: int)
  {
    (exists i :: 0 <= i < |ts| && ts[i].date == d) &&
    forall i :: 0 <= i < |ts| && ts[i].date == d ==> ts[i].isCompleted
  }

  /** The number of consecutive complete days ending at day d, walking backwards. */
  function StreakBack(ts: seq<DailyTask>, d: int): nat
    decreases if d < 0 then 0 else d + 1
  {
    if d >= 0 && DayComplete(ts, d) then 1 + StreakBack(ts, d - 1) else 0
  }

  /** The streak: complete days back from yesterday, plus one if today is complete. */
  function Streak(ts: seq<DailyTask>, today: nat): nat
  {
    StreakBack(ts, today - 1) + (if DayComplete(ts, today) then 1 else 0)
  }

  /**
    The streak counted back from day d covers exactly the run of complete
    days ending at d: every day in the run is complete and the day before
    it is not.
  */
  lemma {:induction false} StreakBackIsRun(ts: seq<DailyTask>, d: int)
    ensures forall day :: d - StreakBack(ts, d) < day <= d ==> DayComplete(ts, day)
    ensures !DayComplete(ts, d - StreakBack(ts, d))
    decreases if d < 0 then 0 else d + 1
  {
    if d >= 0 && DayComplete(ts, d) {
      StreakBackIsRun(ts, d - 1);
    } else if d < 0 {
      assert forall i :: 0 <= i < |ts| ==> ts[i].date != d;
    }
  }

  /**
    CalculateCurrentState's effect on a goal: a goal without tasks is left
    alone; otherwise the streak is recomputed and the schedule status
    follows the status.
  */
  function CurrentState(g: Goal, today: nat): (r: Goal)
    ensures |g.dailyTasks| == 0 ==> r == g
    ensures |g.dailyTasks| > 0 ==> r.streak == Streak(g.dailyTasks, today) && r.scheduleStatus == ScheduleFor(g.status)
    ensures r.(streak := g.streak, scheduleStatus := g.scheduleStatus) == g
  {
    if |g.dailyTasks| == 0 then g
    else g.(streak := Streak(g.dailyTasks, today), scheduleStatus := ScheduleFor(g.status))
  }

  /**
    CalculateCurrentState: walks back from yesterday while the day is
    complete, adds today when complete, and reports whether the goal changed.
  */
  method CalculateCurrentState(g: Goal, today: nat) returns (r: Goal, modified: bool)
    ensures r == CurrentState(g, today)
    ensures modified <==> r != g
  {
    var ts := g.dailyTasks;
    if |ts| == 0 {
      return g, false;
    }
    var streak: nat := 0;
    var check: int := today - 1;
    while check >= 0 && DayComplete(ts, check)
      invariant check <= today - 1
      invariant streak + StreakBack(ts, check) == StreakBack(ts, today - 1)
      decreases check + 1
    {
      streak := streak + 1;
      check := check - 1;
    }
    if DayComplete(ts, today) {
      streak := streak + 1;
    }
    modified := false;
    r := g;
    if r.streak != streak {
      r := r.(streak := streak);
      modified := true;
    }
    var oldSchedule := r.scheduleStatus;
    r := r.(scheduleStatus := ScheduleFor(r.status));
    if oldSchedule != r.scheduleStatus {
      modified := true;
    }
  }

  /**
    The full rule as UpdateGoal, UpdateDailyTaskDetail and TaskAction apply
    it: status from the task counts (a completed goal is also scheduled
    Completed), then CalculateCurrentState, then Overdue for an unfinished
    goal whose end date has passed.
  */
  function ApplyProgressRule(g: Goal, today: nat): (r: Goal)
  {
    var s := ProgressStatus(DoneCount(g.dailyTasks), |g.dailyTasks|);
    var g1 := g.(status := s, scheduleStatus := if s == Completed then Completed else g.scheduleStatus);
    var g2 := CurrentState(g1, today);
    if g2.status != Completed && g2.endDate < today then g2.(status := Overdue) else g2
  }

  /**
    The rule as the services run it: the counts decide the status, the
    CalculateCurrentState loop refreshes streak and schedule, then the
    overdue check.
  */
  method RecalculateProgress(g: Goal, today: nat) returns (r: Goal)
    ensures r == ApplyProgressRule(g, today)
  {
    var done := DoneCount(g.dailyTasks);
    r := g.(status := ProgressStatus(done, |g.dailyTasks|));
    if r.status == Completed {
      r := r.(scheduleStatus := Completed);
    }
    var modified;
    r, modified := CalculateCurrentState(r, today);
    if r.status != Completed && r.endDate < today {
      r := r.(status := Overdue);
    }
  }

  /** What the progress rule decides, case by case, and the fields it leaves alone. */
  lemma ProgressRuleOutcome(g: Goal, today: nat)
    ensures var r := ApplyProgressRule(g, today);
      var done, total := DoneCount(g.dailyTasks), |g.dailyTasks|;
      && (r.status == Completed <==> done == total)
      && (r.status == Overdue <==> done < total && g.endDate < today)
      && (r.status == InProgress <==> 0 < done < total && g.endDate >= today)
      && (r.status == NotStarted <==> 0 == done < total && g.endDate >= today)
      && (r.scheduleStatus == Completed <==> r.status == Completed)
      && (total > 0 ==> r.streak == Streak(g.dailyTasks, today))
      && r.(status := g.status, scheduleStatus := g.scheduleStatus, streak := g.streak) == g
  {
  }

  // ---------------------------------------------------------------------
  // Overdue marking on read
  // ---------------------------------------------------------------------

  /**
    GetUserGoals' per-goal refresh: an unfinished goal past its end date
    becomes Overdue, then CalculateCurrentState runs; the flag says whether
    anything changed (and the store must be saved).
  */
  function RefreshGoal(g: Goal, today: nat): (r: (Goal, bool))
    ensures r.1 <==> r.0 != g
    ensures r.0.status == (if g.status != Completed && g.endDate < today then Overdue else g.status)
    ensures r.0 == CurrentState(g.(status := r.0.status), today)
  {
    var g1 := if g.status != Completed && g.endDate < today && g.status != Overdue then g.(status := Overdue) else g;
    var g2 := CurrentState(g1, today);
    (g2, g2 != g)
  }

  // ---------------------------------------------------------------------
  // Task actions
  // ---------------------------------------------------------------------

  /** String.Equals(a, b, StringComparison.OrdinalIgnoreCase), on ASCII letters. */
  predicate EqualsIgnoreCase(a: string, b: string)
  {
    ToLower(a) == ToLower(b)
  }

  function TaskMatch(taskId: string, userId: int): DailyTask -> bool
  {
    (t: DailyTask) => EqualsIgnoreCase(t.id, taskId) && t.userId == userId
  }

  function HasTaskOn(ts: seq<DailyTask>, date: nat): bool
  {
    exists i :: 0 <= i < |ts| && ts[i].date == date
  }

  /** No two tasks share a day. */
  ghost predicate OneTaskPerDay(ts: seq<DailyTask>)
  {
    forall i, j :: 0 <= i < j < |ts| ==> ts[i].date != ts[j].date
  }

  /** The outcome of TaskAction's edit step: an early return of the goal as it is, or its new task list. */
  datatype TaskEdit = ReturnedEarly | Edited(tasks: seq<DailyTask>)

  /**
    TaskAction's edit step. "add_to_date" with content "date|title[|description]"
    adds a task on a day that has none (a day that has one makes the action
    return early); "edit" with content "title[|description]" and "delete"
    act on the first task with that id (ignoring case) and the caller as
    owner. `parseDate` stands for DateTime.TryParse, `newId` for the new
    task's GUID and `now` for its creation time.
  */
  function EditTasks(g: Goal, taskId: string, action: string, content: Option<string>, userId: int,
                     parseDate: string -> Option<nat>, newId: string, now: nat): (r: TaskEdit)
  {
    var ts := g.dailyTasks;
    if action == "add_to_date" && content.Some? then
      var parts := Split(content.value, '|');
      if |parts| >= 2 && parseDate(parts[0]).Some? then
        var date := parseDate(parts[0]).value;
        if HasTaskOn(ts, date) then ReturnedEarly
        else
          var desc := if |parts| > 2 then parts[2] else "";
          Edited(ts + [DailyTask(newId, g.userId, g.id, parts[1], desc, date, false, None, now)])
      else Edited(ts)
    else
      match IndexWhere(ts, TaskMatch(taskId, userId))
      case None => Edited(ts)
      case Some(k) =>
        if action == "edit" && content.Some? then
          var parts := Split(content.value, '|');
          var t := ts[k].(title := parts[0], description := if |parts| > 1 then parts[1] else ts[k].description);
          Edited(ts[k := t])
        else if action == "delete" then Edited(ts[..k] + ts[k + 1..])
        else Edited(ts)
  }

  /** Every task action keeps "at most one task per day". */
  lemma {:induction false} EditTasksKeepsOneTaskPerDay(g: Goal, taskId: string, action: string, content: Option<string>,
                                                       userId: int, parseDate: string -> Option<nat>, newId: string, now: nat)
    requires OneTaskPerDay(g.dailyTasks)
    ensures match EditTasks(g, taskId, action, content, userId, parseDate, newId, now)
      case ReturnedEarly => true
      case Edited(ts) => OneTaskPerDay(ts)
  {
    var ts := g.dailyTasks;
    var r := EditTasks(g, taskId, action, content, userId, parseDate, newId, now);
    if r.Edited? {
      var out := r.tasks;
      if action == "add_to_date" && content.Some? {
        var parts := Split(content.value, '|');
        if |parts| >= 2 && parseDate(parts[0]).Some? {
          var date := parseDate(parts[0]).value;
          assert !HasTaskOn(ts, date);
          assert |out| == |ts| + 1 && out[..|ts|] == ts && out[|ts|].date == date;
          forall i, j | 0 <= i < j < |out| ensures out[i].date != out[j].date {
            assert out[i] == ts[i];
            if j < |ts| {
              assert out[j] == ts[j];
            }
          }
        }
      } else {
        var m := IndexWhere(ts, TaskMatch(taskId, userId));
        if m.Some? {
          var k := m.value;
          if action == "delete" && !(action == "edit" && content.Some?) {
            assert out == ts[..k] + ts[k + 1..];
            forall i, j | 0 <= i < j < |out| ensures out[i].date != out[j].date {
              var i' := if i < k then i else i + 1;
              var j' := if j < k then j else j + 1;
              assert out[i] == ts[i'] && out[j] == ts[j'] && i' < j';
            }
          } else if action == "edit" && content.Some? {
            forall i, j | 0 <= i < j < |out| ensures out[i].date != out[j].date {
              assert out[i].date == ts[i].date && out[j].date == ts[j].date;
            }
          }
        }
      }
    }
  }

  /** An "add_to_date" on a day that already has a task never adds a second one. */
  lemma AddOnTakenDayReturnsEarly(g: Goal, day: string, title: string, parseDate: string -> Option<nat>,
                                  taskId: string, userId: int, newId: string, now: nat)
    requires '|' !in day && '|' !in title
    requires parseDate(day).Some? && HasTaskOn(g.dailyTasks, parseDate(day).value)
    ensures EditTasks(g, taskId, "add_to_date", Some(day + "|" + title), userId, parseDate, newId, now) == ReturnedEarly
  {
    SplitTwo(day, title, '|');
  }

  /** Splitting "a|b" where neither part holds the separator gives the two parts. */
  lemma SplitTwo(a: string, b: string, sep: char)
    requires sep !in a && sep !in b
    ensures Split(a + [sep] + b, sep) == [a, b]
  {
    var s := a + [sep] + b;
    BeforeFirst(s, sep, |a|);
    assert s[..|a|] == a;
    assert s[|a| + 1..] == b;
    BeforeFirst(b, sep, |b|);
    assert b[..|b|] == b;
  }

  /** Before returns the text up to the first separator. */
  lemma {:induction false} BeforeFirst(s: string, sep: char, n: nat)
    requires n <= |s| && sep !in s[..n] && (n == |s| || s[n] == sep)
    ensures Before(s, sep) == s[..n]
  {
    if n > 0 {
      assert s[..n][0] == s[0];
      assert s[1..][..n - 1] == s[..n][1..];
      BeforeFirst(s[1..], sep, n - 1);
      assert s[..n] == [s[0]] + s[1..][..n - 1];
    }
  }

  // ---------------------------------------------------------------------
  // Redistribution of missed tasks
  // ---------------------------------------------------------------------

  /** A task to move: dated before today and not done. */
  predicate IsMissed(t: DailyTask, today: nat)
  {
    t.date < today && !t.isCompleted
  }

  /** The number of missed tasks in a list. */
  function MissedCount(ts: seq<DailyTask>, today: nat): (n: nat)
    ensures n <= |ts|
    ensures n == 0 <==> forall i :: 0 <= i < |ts| ==> !IsMissed(ts[i], today)
  {
    if |ts| == 0 then 0
    else
      var init := ts[..|ts| - 1];
      assert forall i :: 0 <= i < |init| ==> init[i] == ts[i];
      MissedCount(init, today) + if IsMissed(ts[|ts| - 1], today) then 1 else 0
  }

  function DateOf(t: DailyTask): int
  {
    t.date
  }

  ghost predicate Increasing(s: seq<nat>)
  {
    forall i, j :: 0 <= i < j < |s| ==> s[i] < s[j]
  }

  /** Inserts a day into a strictly increasing list of days, once. */
  function InsertDay(x: nat, s: seq<nat>): (r: seq<nat>)
    requires Increasing(s)
    ensures Increasing(r)
    ensures forall y :: y in r <==> y == x || y in s
  {
    if |s| == 0 then [x]
    else if x < s[0] then
      ConsIncreasing(x, s);
      [x] + s
    else if x == s[0] then s
    else
      var rest := InsertDay(x, s[1..]);
      TailAbove(s);
      ConsIncreasing(s[0], rest);
      [s[0]] + rest
  }

  /** In an increasing list every later day is above the first, and the days are the first and the rest. */
  lemma TailAbove(s: seq<nat>)
    requires Increasing(s) && |s| > 0
    ensures forall y :: y in s[1..] ==> s[0] < y
    ensures forall y :: y in s <==> y == s[0] || y in s[1..]
  {
    assert s == [s[0]] + s[1..];
  }

  /** A day below every day of an increasing list can go in front of it. */
  lemma ConsIncreasing(h: nat, s: seq<nat>)
    requires Increasing(s)
    requires forall y :: y in s ==> h < y
    ensures Increasing([h] + s)
  {
    var r := [h] + s;
    forall i, j | 0 <= i < j < |r|
      ensures r[i] < r[j]
    {
      assert r[j] == s[j - 1];
      if i > 0 {
        assert r[i] == s[i - 1];
      } else {
        assert s[j - 1] in s;
      }
    }
  }

  /** The distinct task dates on or after today, ascending (the keys of the grouped future days). */
  function FutureDays(ts: seq<DailyTask>, today: nat): (days: seq<nat>)
    ensures Increasing(days)
    ensures forall d :: d in days ==> d >= today && exists i :: 0 <= i < |ts| && ts[i].date == d
    ensures forall i :: 0 <= i < |ts| && ts[i].date >= today ==> ts[i].date in days
  {
    if |ts| == 0 then []
    else
      var rest := FutureDays(ts[1..], today);
      var days := if ts[0].date >= today then InsertDay(ts[0].date, rest) else rest;
      assert forall d :: d in rest ==> exists i :: 0 <= i < |ts| && ts[i].date == d by {
        forall d | d in rest ensures exists i :: 0 <= i < |ts| && ts[i].date == d {
          var i :| 0 <= i < |ts[1..]| && ts[1..][i].date == d;
          assert ts[i + 1].date == d;
        }
      }
      assert forall i :: 1 <= i < |ts| ==> ts[i] == ts[1..][i - 1];
      days
  }

  /** The day the n-th missed task moves to: the future days in turn, or today when there are none. */
  function Slot(days: seq<nat>, today: nat, n: nat): (d: nat)
    requires forall d :: d in days ==> d >= today
    ensures d >= today
    ensures |days| > 0 ==> d in days
  {
    if |days| == 0 then today else assert days[n % |days|] in days; days[n % |days|]
  }

  /** Where task i ends up: a missed task takes the slot of its rank among the missed tasks. */
  function MovedTask(ts: seq<DailyTask>, i: nat, today: nat): (t: DailyTask)
    requires i < |ts|
    ensures !IsMissed(t, today)
  {
    if IsMissed(ts[i], today) then ts[i].(date := Slot(FutureDays(ts, today), today, MissedCount(ts[..i], today)))
    else ts[i]
  }

  /**
    RedistributeRemainingTasks' loop: each missed task, in list order, takes
    the next future day round-robin (today when no future day exists); every
    other task is left as it is.
  */
  method RedistributeDates(ts: seq<DailyTask>, today: nat) returns (r: seq<DailyTask>)
    ensures r == Redistribution(ts, today)
    ensures forall i :: 0 <= i < |r| ==> !IsMissed(r[i], today)
  {
    var days := FutureDays(ts, today);
    var dayIndex: nat := 0;
    r := [];
    var i := 0;
    while i < |ts|
      invariant 0 <= i <= |ts| && |r| == i
      invariant dayIndex == MissedCount(ts[..i], today)
      invariant forall j :: 0 <= j < i ==> r[j] == MovedTask(ts, j, today)
    {
      assert ts[..i + 1][..i] == ts[..i];
      if IsMissed(ts[i], today) {
        assert MovedTask(ts, i, today) == ts[i].(date := Slot(days, today, dayIndex));
        r := r + [ts[i].(date := Slot(days, today, dayIndex))];
        dayIndex := dayIndex + 1;
      } else {
        r := r + [ts[i]];
      }
      i := i + 1;
    }
    assert ts[..|ts|] == ts;
  }

  /** Every task where RedistributeRemainingTasks' loop leaves it. */
  function Redistribution(ts: seq<DailyTask>, today: nat): (r: seq<DailyTask>)
    ensures |r| == |ts|
    ensures forall i :: 0 <= i < |ts| ==> r[i] == MovedTask(ts, i, today)
  {
    seq(|ts|, i requires 0 <= i < |ts| => MovedTask(ts, i, today))
  }

  /**
    RedistributeRemainingTasks' new task list: the redistributed tasks
    ordered by date. `None` when nothing was missed (the goal is returned
    untouched and nothing is saved).
  */
  function RedistributedTasks(ts: seq<DailyTask>, today: nat): (r: Option<seq<DailyTask>>)
    ensures r.None? <==> forall i :: 0 <= i < |ts| ==> !IsMissed(ts[i], today)
    ensures r.Some? ==> multiset(r.value) == multiset(Redistribution(ts, today))
    ensures r.Some? ==> forall i, j :: 0 <= i < j < |r.value| ==> r.value[i].date <= r.value[j].date
  {
    if MissedCount(ts, today) == 0 then None
    else
      var r := SortAsc(Redistribution(ts, today), DateOf);
      assert forall i, j :: 0 <= i < j < |r| ==> DateOf(r[i]) <= DateOf(r[j]);
      Some(r)
  }

  /**
    After redistribution no unfinished task is dated before today, the task
    count is unchanged, and the tasks that were not missed are all still
    there as they were.
  */
  lemma NoMissedAfterRedistribution(ts: seq<DailyTask>, today: nat)
    requires RedistributedTasks(ts, today).Some?
    ensures var r := RedistributedTasks(ts, today).value;
      && |r| == |ts|
      && (forall i :: 0 <= i < |r| ==> !IsMissed(r[i], today))
      && (forall t :: t in ts && !IsMissed(t, today) ==> t in r)
  {
    var moved := Redistribution(ts, today);
    var r := RedistributedTasks(ts, today).value;
    assert |r| == |multiset(r)| == |multiset(moved)| == |ts|;
    forall i | 0 <= i < |r| ensures !IsMissed(r[i], today) {
      assert r[i] in multiset(moved);
      var j :| 0 <= j < |moved| && moved[j] == r[i];
    }
    forall t | t in ts && !IsMissed(t, today) ensures t in r {
      var j :| 0 <= j < |ts| && ts[j] == t;
      assert moved[j] == t;
      assert t in multiset(moved);
    }
  }

  // ---------------------------------------------------------------------
  // Generated milestones and the monthly task list
  // ---------------------------------------------------------------------

  /** (EndDate - StartDate).Days, raised to at least one day. */
  function Duration(g: Goal): (d: nat)
    ensures d >= 1
    ensures g.endDate > g.startDate ==> d == g.endDate - g.startDate
  {
    if g.endDate - g.startDate < 1 then 1 else g.endDate - g.startDate
  }

  /** The duration itself up to 3 days, then 4 (up to a week), 6 (up to 30 days) or 8. */
  function MilestoneCount(duration: nat): (n: nat)
    requires duration >= 1
    ensures 1 <= n <= 8 && n <= duration
  {
    if duration <= 3 then duration else if duration <= 7 then 4 else if duration <= 30 then 6 else 8
  }

  function Interval(duration: nat): (k: nat)
    requires duration >= 1
    ensures k >= 1 && k * MilestoneCount(duration) <= duration
  {
    var q := duration / MilestoneCount(duration);
    if q < 1 then 1 else q
  }

  /** The offset from the start date of milestone i (1-based), capped at the duration. */
  function MilestoneOffset(duration: nat, i: nat): (o: nat)
    requires duration >= 1
    ensures o <= duration
  {
    if i * Interval(duration) > duration then duration else i * Interval(duration)
  }

  function MilestoneTitle(i: nat, goalTitle: string): string
  {
    "Phase " + NatToString(i) + ": Achieve key target for " + goalTitle
  }

  /**
    What GenerateSmartMilestones produces: one open milestone per phase,
    phase i due i intervals after the start (capped at the duration), the
    last one moved to the end date if it would fall before it. `guid(i)`
    stands for the id of phase i.
  */
  ghost predicate IsSmartMilestones(ms: seq<Milestone>, g: Goal, guid: nat -> string)
  {
    && |ms| == MilestoneCount(Duration(g))
    && (forall i :: 0 <= i < |ms| ==>
         ms[i].id == guid(i + 1) && ms[i].title == MilestoneTitle(i + 1, g.title) &&
         !ms[i].isCompleted && ms[i].completedAt == None)
    && (forall i :: 0 <= i < |ms| - 1 ==> ms[i].dueDate == g.startDate + MilestoneOffset(Duration(g), i + 1))
    && ms[|ms| - 1].dueDate ==
         var last := g.startDate + MilestoneOffset(Duration(g), |ms|);
         if last < g.endDate then g.endDate else last
  }

  method GenerateSmartMilestones(g: Goal, guid: nat -> string) returns (ms: seq<Milestone>)
    ensures IsSmartMilestones(ms, g, guid)
  {
    var duration := Duration(g);
    var count := MilestoneCount(duration);
    ms := [];
    var i := 1;
    while i <= count
      invariant 1 <= i <= count + 1 && |ms| == i - 1
      invariant forall j :: 0 <= j < |ms| ==>
        ms[j] == Milestone(guid(j + 1), MilestoneTitle(j + 1, g.title),
                           g.startDate + MilestoneOffset(duration, j + 1), false, None)
    {
      ms := ms + [Milestone(guid(i), MilestoneTitle(i, g.title), g.startDate + MilestoneOffset(duration, i), false, None)];
      i := i + 1;
    }
    var last := ms[|ms| - 1];
    if last.dueDate < g.endDate {
      ms := ms[|ms| - 1 := last.(dueDate := g.endDate)];
    }
  }

  /** The due dates never go backwards and the last one is never before the end date. */
  lemma {:induction false} MilestoneDatesOrdered(g: Goal, ms: seq<Milestone>, guid: nat -> string)
    requires IsSmartMilestones(ms, g, guid)
    ensures forall i, j :: 0 <= i < j < |ms| ==> ms[i].dueDate <= ms[j].dueDate
    ensures ms[|ms| - 1].dueDate >= g.endDate
    ensures forall i :: 0 <= i < |ms| ==> g.startDate < ms[i].dueDate
  {
    var d := Duration(g);
    var k := Interval(d);
    forall i, j | 0 <= i < j < |ms| ensures ms[i].dueDate <= ms[j].dueDate {
      OffsetMonotone(d, i + 1, j + 1);
    }
    forall i | 0 <= i < |ms| ensures g.startDate < ms[i].dueDate {
      OffsetPositive(d, i + 1);
    }
  }

  lemma OffsetMonotone(d: nat, a: nat, b: nat)
    requires d >= 1 && a <= b
    ensures MilestoneOffset(d, a) <= MilestoneOffset(d, b)
  {
    var k := Interval(d);
    assert a * k <= b * k by {
      assert (b - a) * k >= 0;
    }
  }

  lemma OffsetPositive(d: nat, a: nat)
    requires d >= 1 && a >= 1
    ensures MilestoneOffset(d, a) >= 1
  {
    var k := Interval(d);
    assert a * k >= k;
  }

  /**
    What GenerateMonthlyTaskStructure produces: one open task per day of the
    start date's month, on days 1 to DaysInMonth in order. `guid(i)` stands
    for the id of the task on day i, `now` for the creation time.
  */
  ghost predicate IsMonthlyStructure(ts: seq<DailyTask>, startDate: nat, goalTitle: string, goalId: string,
                                     userId: int, guid: nat -> string, now: nat)
  {
    var y, m := YearOf(startDate), MonthOf(startDate);
    && |ts| == DaysInMonth(y, m)
    && forall i :: 0 <= i < |ts| ==>
         ts[i] == DailyTask(guid(i + 1), userId, goalId, "Focus Session: " + goalTitle, "", DayNumber(y, m, i + 1), false, None, now)
  }

  method GenerateMonthlyTaskStructure(startDate: nat, goalTitle: string, goalId: string, userId: int,
                                      guid: nat -> string, now: nat) returns (ts: seq<DailyTask>)
    ensures IsMonthlyStructure(ts, startDate, goalTitle, goalId, userId, guid, now)
  {
    var y, m := YearOf(startDate), MonthOf(startDate);
    var daysInMonth := DaysInMonth(y, m);
    ts := [];
    var i := 1;
    while i <= daysInMonth
      invariant 1 <= i <= daysInMonth + 1 && |ts| == i - 1
      invariant forall j :: 0 <= j < |ts| ==>
        ts[j] == DailyTask(guid(j + 1), userId, goalId, "Focus Session: " + goalTitle, "", DayNumber(y, m, j + 1), false, None, now)
    {
      ts := ts + [DailyTask(guid(i), userId, goalId, "Focus Session: " + goalTitle, "", DayNumber(y, m, i), false, None, now)];
      i := i + 1;
    }
  }

  /**
    The monthly tasks fall on consecutive days, the first of the month
    first, one per day, all open, and the start date is among them.
  */
  lemma MonthlyStructureDays(ts: seq<DailyTask>, startDate: nat, goalTitle: string, goalId: string,
                             userId: int, guid: nat -> string, now: nat)
    requires IsMonthlyStructure(ts, startDate, goalTitle, goalId, userId, guid, now)
    ensures 28 <= |ts| <= 31
    ensures forall i :: 0 <= i < |ts| ==> ts[i].date == ts[0].date + i && !ts[i].isCompleted
    ensures OneTaskPerDay(ts)
    ensures ts[0].date <= startDate < ts[0].date + |ts|
  {
  }
}
