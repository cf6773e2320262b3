/**
  The goal store: one JSON file of goals for all users. Goals are looked up
  by their string id together with the owner's account id; every change goes
  through the progress rule before the list is written back.
*/
module GoalStore {
  import opened Util
  import opened StoreFile
  import opened Ordering
  import opened GoalRules

  /**
    Every reader: the file is created as "[]" on start-up, so a missing file
    (deleted since), blank or malformed text throw; the literal `null` reads
    as no goals.
  */
  function LoadGoals(f: FileContent<Goal>): (r: Outcome<seq<Goal>>)
    ensures r.Threw? <==> f.Missing? || f.Blank? || f.Malformed?
    ensures f.Records? ==> r == Done(f.items)
    ensures f.NullLiteral? ==> r == Done([])
  {
    match f
    case Missing => Threw
    case Blank => Threw
    case Malformed => Threw
    case NullLiteral => Done([])
    case Records(items) => Done(items)
  }

  function OwnedBy(userId: int): Goal -> bool
  {
    (g: Goal) => g.userId == userId
  }

  /** Exact id and owner (UpdateGoal, RedistributeRemainingTasks, DeleteGoal, GetDailyTasks). */
  function IsGoal(id: string, userId: int): Goal -> bool
  {
    (g: Goal) => g.id == id && g.userId == userId
  }

  /** Id ignoring case, and owner (UpdateDailyTaskDetail, TaskAction). */
  function IsGoalIgnoreCase(id: string, userId: int): Goal -> bool
  {
    (g: Goal) => EqualsIgnoreCase(g.id, id) && g.userId == userId
  }

  function NotGoal(id: string, userId: int): Goal -> bool
  {
    (g: Goal) => !(g.id == id && g.userId == userId)
  }

  function CreatedOf(g: Goal): int
  {
    g.createdDate
  }

  // ---------------------------------------------------------------------
  // Reading: overdue marking and state refresh
  // ---------------------------------------------------------------------

  /** The stored list after GetUserGoals: the user's goals refreshed, everyone else's as they were. */
  function RefreshOwned(gs: seq<Goal>, userId: int, today: nat): (r: seq<Goal>)
    ensures |r| == |gs|
    ensures forall j :: 0 <= j < |gs| && gs[j].userId != userId ==> r[j] == gs[j]
    ensures forall j :: 0 <= j < |gs| && gs[j].userId == userId ==> r[j] == RefreshGoal(gs[j], today).0
    ensures forall j :: 0 <= j < |gs| ==> r[j].userId == gs[j].userId
  {
    if |gs| == 0 then []
    else
      var rest := RefreshOwned(gs[1..], userId, today);
      [if gs[0].userId == userId then RefreshGoal(gs[0], today).0 else gs[0]] + rest
  }

  /** What GetUserGoals returns: the user's goals, newest first. */
  function UserGoalsView(gs: seq<Goal>, userId: int): (r: seq<Goal>)
    ensures forall i :: 0 <= i < |r| ==> r[i].userId == userId
    ensures multiset(r) == multiset(Filter(gs, OwnedBy(userId)))
    ensures forall i, j :: 0 <= i < j < |r| ==> r[i].createdDate >= r[j].createdDate
  {
    var owned := Filter(gs, OwnedBy(userId));
    var r := SortDesc(owned, CreatedOf);
    forall i | 0 <= i < |r| ensures r[i].userId == userId {
      assert r[i] in multiset(owned);
    }
    assert forall i, j :: 0 <= i < j < |r| ==> CreatedOf(r[i]) >= CreatedOf(r[j]);
    r
  }

  /** No goal GetUserGoals returns is unfinished and past its end date without being marked Overdue. */
  lemma ViewMarksOverdue(gs: seq<Goal>, userId: int, today: nat)
    ensures var view := UserGoalsView(RefreshOwned(gs, userId, today), userId);
      forall i :: 0 <= i < |view| ==> MarkedIfLate(view[i], today)
  {
    var rs := RefreshOwned(gs, userId, today);
    var f := Filter(rs, OwnedBy(userId));
    var view := UserGoalsView(rs, userId);
    OwnedRefreshedMarked(gs, userId, today);
    forall i | 0 <= i < |view| ensures MarkedIfLate(view[i], today) {
      assert view[i] in multiset(f);
      assert view[i] in f;
    }
  }

  /** An unfinished goal past its end date carries Overdue. */
  predicate MarkedIfLate(g: Goal, today: nat)
  {
    g.status != Completed && g.endDate < today ==> g.status == Overdue
  }

  lemma OwnedRefreshedMarked(gs: seq<Goal>, userId: int, today: nat)
    ensures forall g :: g in Filter(RefreshOwned(gs, userId, today), OwnedBy(userId)) ==> MarkedIfLate(g, today)
  {
    var rs := RefreshOwned(gs, userId, today);
    forall j | 0 <= j < |rs| && rs[j].userId == userId ensures MarkedIfLate(rs[j], today) {
      assert rs[j] == RefreshGoal(gs[j], today).0;
    }
  }

  /** A second read on the same day changes nothing, so it saves nothing. */
  lemma {:induction false} RefreshIdempotent(gs: seq<Goal>, userId: int, today: nat)
    ensures RefreshOwned(RefreshOwned(gs, userId, today), userId, today) == RefreshOwned(gs, userId, today)
  {
    var once := RefreshOwned(gs, userId, today);
    var twice := RefreshOwned(once, userId, today);
    forall j | 0 <= j < |gs| ensures twice[j] == once[j] {
      if gs[j].userId == userId {
        RefreshGoalIdempotent(gs[j], today);
      }
    }
  }

  lemma RefreshGoalIdempotent(g: Goal, today: nat)
    ensures RefreshGoal(RefreshGoal(g, today).0, today) == (RefreshGoal(g, today).0, false)
  {
  }

  // ---------------------------------------------------------------------
  // Changing goals on a loaded list
  // ---------------------------------------------------------------------

  /** UpdateGoal: the rule is applied to the caller's goal, which replaces the first goal with its id and owner. */
  function UpdateGoalIn(gs: seq<Goal>, updated: Goal, today: nat): (r: Option<seq<Goal>>)
    ensures r.None? <==> forall i :: 0 <= i < |gs| ==> !(gs[i].id == updated.id && gs[i].userId == updated.userId)
    ensures r.Some? ==>
      exists k :: 0 <= k < |gs| && gs[k].id == updated.id && gs[k].userId == updated.userId &&
        (forall j :: 0 <= j < k ==> !(gs[j].id == updated.id && gs[j].userId == updated.userId)) &&
        r.value == gs[k := ApplyProgressRule(updated, today)]
  {
    match IndexWhere(gs, IsGoal(updated.id, updated.userId))
    case None => None
    case Some(k) => Some(gs[k := ApplyProgressRule(updated, today)])
  }

  /** The outcome of an action on one goal: no such goal, the goal returned unsaved, or the new list and the goal. */
  datatype GoalChange = NoGoal | Unsaved(goal: Goal) | Saved(goals: seq<Goal>, goal: Goal)

  /**
    UpdateDailyTaskDetail: the goal (id ignoring case, owner) and its first
    task with that id (ignoring case) and owner; the task takes the new title
    and description and the goal goes through the rule.
  */
  function TaskDetailIn(gs: seq<Goal>, goalId: string, taskId: string, title: string, description: string,
                        userId: int, today: nat): (r: GoalChange)
    ensures !r.Unsaved?
    ensures IndexWhere(gs, IsGoalIgnoreCase(goalId, userId)).None? ==> r.NoGoal?
    ensures IndexWhere(gs, IsGoalIgnoreCase(goalId, userId)).Some? ==>
      var ts := gs[IndexWhere(gs, IsGoalIgnoreCase(goalId, userId)).value].dailyTasks;
      (r.NoGoal? <==> forall t :: 0 <= t < |ts| ==> !TaskMatch(taskId, userId)(ts[t]))
    ensures r.Saved? ==>
      exists k, t :: 0 <= k < |gs| && IsGoalIgnoreCase(goalId, userId)(gs[k]) &&
        (forall j :: 0 <= j < k ==> !IsGoalIgnoreCase(goalId, userId)(gs[j])) &&
        0 <= t < |gs[k].dailyTasks| && TaskMatch(taskId, userId)(gs[k].dailyTasks[t]) &&
        (forall j :: 0 <= j < t ==> !TaskMatch(taskId, userId)(gs[k].dailyTasks[j])) &&
        var ts := gs[k].dailyTasks;
        r.goal == ApplyProgressRule(gs[k].(dailyTasks := ts[t := ts[t].(title := title, description := description)]), today) &&
        r.goals == gs[k := r.goal]
  {
    match IndexWhere(gs, IsGoalIgnoreCase(goalId, userId))
    case None => NoGoal
    case Some(k) =>
      var ts := gs[k].dailyTasks;
      match IndexWhere(ts, TaskMatch(taskId, userId))
      case None => NoGoal
      case Some(t) =>
        var g := ApplyProgressRule(gs[k].(dailyTasks := ts[t := ts[t].(title := title, description := description)]), today);
        Saved(gs[k := g], g)
  }

  /**
    TaskAction: the goal (id ignoring case, owner); an early return leaves
    the store as it was, any other outcome of the edit goes through the rule
    and is saved.
  */
  function TaskActionIn(gs: seq<Goal>, goalId: string, taskId: string, action: string, content: Option<string>,
                        userId: int, parseDate: string -> Option<nat>, newId: string, now: nat, today: nat): (r: GoalChange)
    ensures r.NoGoal? <==> forall i :: 0 <= i < |gs| ==> !IsGoalIgnoreCase(goalId, userId)(gs[i])
    ensures !r.NoGoal? ==>
      exists k :: 0 <= k < |gs| && IsGoalIgnoreCase(goalId, userId)(gs[k]) &&
        (forall j :: 0 <= j < k ==> !IsGoalIgnoreCase(goalId, userId)(gs[j])) &&
        match EditTasks(gs[k], taskId, action, content, userId, parseDate, newId, now)
        case ReturnedEarly => r == Unsaved(gs[k])
        case Edited(ts) => r.Saved? && r.goal == ApplyProgressRule(gs[k].(dailyTasks := ts), today) && r.goals == gs[k := r.goal]
  {
    match IndexWhere(gs, IsGoalIgnoreCase(goalId, userId))
    case None => NoGoal
    case Some(k) =>
      match EditTasks(gs[k], taskId, action, content, userId, parseDate, newId, now)
      case ReturnedEarly => Unsaved(gs[k])
      case Edited(ts) =>
        var g := ApplyProgressRule(gs[k].(dailyTasks := ts), today);
        Saved(gs[k := g], g)
  }

  /** A task action keeps "one task per day" for the goal it changes. */
  lemma TaskActionKeepsOneTaskPerDay(gs: seq<Goal>, goalId: string, taskId: string, action: string, content: Option<string>,
                                     userId: int, parseDate: string -> Option<nat>, newId: string, now: nat, today: nat)
    requires forall i :: 0 <= i < |gs| ==> OneTaskPerDay(gs[i].dailyTasks)
    ensures match TaskActionIn(gs, goalId, taskId, action, content, userId, parseDate, newId, now, today)
      case Saved(goals, goal) => OneTaskPerDay(goal.dailyTasks) && forall i :: 0 <= i < |goals| ==> OneTaskPerDay(goals[i].dailyTasks)
      case _ => true
  {
    var m := IndexWhere(gs, IsGoalIgnoreCase(goalId, userId));
    if m.Some? {
      EditTasksKeepsOneTaskPerDay(gs[m.value], taskId, action, content, userId, parseDate, newId, now);
    }
  }

  /**
    RedistributeRemainingTasks: the goal with this exact id and owner; one
    without missed tasks comes back unsaved, otherwise its redistributed,
    date-ordered tasks go through UpdateGoal's rule and are saved.
  */
  function RedistributeIn(gs: seq<Goal>, goalId: string, userId: int, today: nat): (r: GoalChange)
    ensures r.NoGoal? <==> forall i :: 0 <= i < |gs| ==> !(gs[i].id == goalId && gs[i].userId == userId)
    ensures !r.NoGoal? ==>
      exists k :: 0 <= k < |gs| && gs[k].id == goalId && gs[k].userId == userId &&
        (forall j :: 0 <= j < k ==> !(gs[j].id == goalId && gs[j].userId == userId)) &&
        match RedistributedTasks(gs[k].dailyTasks, today)
        case None => r == Unsaved(gs[k])
        case Some(ts) => r.Saved? && r.goal == ApplyProgressRule(gs[k].(dailyTasks := ts), today) && r.goals == gs[k := r.goal]
  {
    match IndexWhere(gs, IsGoal(goalId, userId))
    case None => NoGoal
    case Some(k) =>
      match RedistributedTasks(gs[k].dailyTasks, today)
      case None => Unsaved(gs[k])
      case Some(ts) =>
        var g := ApplyProgressRule(gs[k].(dailyTasks := ts), today);
        Saved(gs[k := g], g)
  }

  /**
    A saved redistribution leaves the goal with the same number of tasks,
    none of them missed, in date order, and every task that was not missed
    still there.
  */
  lemma RedistributeOutcome(gs: seq<Goal>, goalId: string, userId: int, today: nat)
    ensures match RedistributeIn(gs, goalId, userId, today)
      case Saved(goals, g) =>
        exists k :: 0 <= k < |gs| && gs[k].id == goalId && gs[k].userId == userId && goals == gs[k := g] &&
          |g.dailyTasks| == |gs[k].dailyTasks| &&
          (forall i :: 0 <= i < |g.dailyTasks| ==> !IsMissed(g.dailyTasks[i], today)) &&
          (forall i, j :: 0 <= i < j < |g.dailyTasks| ==> g.dailyTasks[i].date <= g.dailyTasks[j].date) &&
          (forall t :: t in gs[k].dailyTasks && !IsMissed(t, today) ==> t in g.dailyTasks)
      case _ => true
  {
    var m := IndexWhere(gs, IsGoal(goalId, userId));
    if m.Some? {
      var k := m.value;
      var o := RedistributedTasks(gs[k].dailyTasks, today);
      if o.Some? {
        NoMissedAfterRedistribution(gs[k].dailyTasks, today);
        ProgressRuleOutcome(gs[k].(dailyTasks := o.value), today);
      }
    }
  }

  /** DeleteGoal: every goal with this id and owner goes (RemoveAll). */
  function DeleteGoalIn(gs: seq<Goal>, id: string, userId: int): (r: seq<Goal>)
    ensures forall i :: 0 <= i < |r| ==> !(r[i].id == id && r[i].userId == userId)
    ensures forall g :: g in gs && !(g.id == id && g.userId == userId) ==> g in r
    ensures forall g :: g in r ==> g in gs
  {
    Filter(gs, NotGoal(id, userId))
  }

  /**
    RemoveAll keeps the other goals in stored order, once per stored copy:
    nothing from nothing, and a goal stored last stays last exactly when it
    is not one of the deleted.
  */
  lemma {:induction false} DeleteGoalSnoc(gs: seq<Goal>, g: Goal, id: string, userId: int)
    ensures DeleteGoalIn([], id, userId) == []
    ensures DeleteGoalIn(gs + [g], id, userId) ==
      DeleteGoalIn(gs, id, userId) + (if g.id == id && g.userId == userId then [] else [g])
  {
    FilterAppend(gs, [g], NotGoal(id, userId));
    assert Filter([g], NotGoal(id, userId)) == if g.id == id && g.userId == userId then [] else [g];
  }

  /** Deleting never touches another user's goals. */
  lemma {:induction false} DeleteKeepsOthersGoals(gs: seq<Goal>, id: string, userId: int, other: int)
    requires other != userId
    ensures Filter(DeleteGoalIn(gs, id, userId), OwnedBy(other)) == Filter(gs, OwnedBy(other))
  {
    if |gs| > 0 {
      DeleteKeepsOthersGoals(gs[1..], id, userId, other);
      var rest := Filter(gs[1..], NotGoal(id, userId));
      if NotGoal(id, userId)(gs[0]) {
        assert DeleteGoalIn(gs, id, userId) == [gs[0]] + rest;
        assert ([gs[0]] + rest)[1..] == rest;
      } else {
        assert DeleteGoalIn(gs, id, userId) == rest;
      }
    }
  }

  /** Updating, editing a task or acting on a task changes one goal of the caller and nobody else's. */
  lemma ChangesKeepOthersGoals(gs: seq<Goal>, updated: Goal, goalId: string, taskId: string,
                               title: string, description: string, action: string, content: Option<string>,
                               userId: int, parseDate: string -> Option<nat>, newId: string, now: nat,
                               today: nat, other: int)
    requires other != userId && other != updated.userId
    ensures UpdateGoalIn(gs, updated, today).Some? ==>
      Filter(UpdateGoalIn(gs, updated, today).value, OwnedBy(other)) == Filter(gs, OwnedBy(other))
    ensures TaskDetailIn(gs, goalId, taskId, title, description, userId, today).Saved? ==>
      Filter(TaskDetailIn(gs, goalId, taskId, title, description, userId, today).goals, OwnedBy(other)) == Filter(gs, OwnedBy(other))
    ensures TaskActionIn(gs, goalId, taskId, action, content, userId, parseDate, newId, now, today).Saved? ==>
      Filter(TaskActionIn(gs, goalId, taskId, action, content, userId, parseDate, newId, now, today).goals, OwnedBy(other)) ==
      Filter(gs, OwnedBy(other))
  {
    UpdateKeepsOthers(gs, updated, today, other);
    TaskDetailKeepsOthers(gs, goalId, taskId, title, description, userId, today, other);
    TaskActionKeepsOthers(gs, goalId, taskId, action, content, userId, parseDate, newId, now, today, other);
  }

  lemma UpdateKeepsOthers(gs: seq<Goal>, updated: Goal, today: nat, other: int)
    requires other != updated.userId
    ensures UpdateGoalIn(gs, updated, today).Some? ==>
      Filter(UpdateGoalIn(gs, updated, today).value, OwnedBy(other)) == Filter(gs, OwnedBy(other))
  {
    var m := IndexWhere(gs, IsGoal(updated.id, updated.userId));
    if m.Some? {
      ProgressRuleOutcome(updated, today);
      FilterUpdateOther(gs, m.value, ApplyProgressRule(updated, today), OwnedBy(other));
    }
  }

  lemma TaskDetailKeepsOthers(gs: seq<Goal>, goalId: string, taskId: string, title: string, description: string,
                              userId: int, today: nat, other: int)
    requires other != userId
    ensures TaskDetailIn(gs, goalId, taskId, title, description, userId, today).Saved? ==>
      Filter(TaskDetailIn(gs, goalId, taskId, title, description, userId, today).goals, OwnedBy(other)) == Filter(gs, OwnedBy(other))
  {
    var d := TaskDetailIn(gs, goalId, taskId, title, description, userId, today);
    if d.Saved? {
      var k := IndexWhere(gs, IsGoalIgnoreCase(goalId, userId)).value;
      var ts := gs[k].dailyTasks;
      var t := IndexWhere(ts, TaskMatch(taskId, userId)).value;
      ProgressRuleOutcome(gs[k].(dailyTasks := ts[t := ts[t].(title := title, description := description)]), today);
      FilterUpdateOther(gs, k, d.goal, OwnedBy(other));
    }
  }

  lemma TaskActionKeepsOthers(gs: seq<Goal>, goalId: string, taskId: string, action: string, content: Option<string>,
                              userId: int, parseDate: string -> Option<nat>, newId: string, now: nat, today: nat, other: int)
    requires other != userId
    ensures TaskActionIn(gs, goalId, taskId, action, content, userId, parseDate, newId, now, today).Saved? ==>
      Filter(TaskActionIn(gs, goalId, taskId, action, content, userId, parseDate, newId, now, today).goals, OwnedBy(other)) ==
      Filter(gs, OwnedBy(other))
  {
    var a := TaskActionIn(gs, goalId, taskId, action, content, userId, parseDate, newId, now, today);
    if a.Saved? {
      var k := IndexWhere(gs, IsGoalIgnoreCase(goalId, userId)).value;
      var ts := EditTasks(gs[k], taskId, action, content, userId, parseDate, newId, now).tasks;
      ProgressRuleOutcome(gs[k].(dailyTasks := ts), today);
      FilterUpdateOther(gs, k, a.goal, OwnedBy(other));
    }
  }

  /** GetDailyTasks: the tasks of the first goal with this exact id and owner, or none. */
  function DailyTasksOf(gs: seq<Goal>, goalId: string, userId: int): (r: seq<DailyTask>)
    ensures (forall i :: 0 <= i < |gs| ==> !(gs[i].id == goalId && gs[i].userId == userId)) ==> r == []
    ensures (exists i :: 0 <= i < |gs| && gs[i].id == goalId && gs[i].userId == userId) ==>
      exists k :: 0 <= k < |gs| && gs[k].id == goalId && gs[k].userId == userId &&
        (forall j :: 0 <= j < k ==> !(gs[j].id == goalId && gs[j].userId == userId)) &&
        r == gs[k].dailyTasks
  {
    match IndexWhere(gs, IsGoal(goalId, userId))
    case None => []
    case Some(k) => gs[k].dailyTasks
  }

  /**
    AddGoal's effect on a readable store: the goal is appended with a fresh
    month of daily tasks, and with smart milestones when it came without
    any; everything else about it and the stored goals stays as it was.
  */
  ghost predicate GoalAdded(before: FileContent<Goal>, after: FileContent<Goal>, g: Goal,
                            taskGuid: nat -> string, milestoneGuid: nat -> string, now: nat)
    requires LoadGoals(before).Done?
  {
    var gs := LoadGoals(before).value;
    && after.Records? && |after.items| == |gs| + 1 && after.items[..|gs|] == gs
    && var added := after.items[|gs|];
    && added.(dailyTasks := g.dailyTasks, milestones := g.milestones) == g
    && IsMonthlyStructure(added.dailyTasks, g.startDate, g.title, g.id, g.userId, taskGuid, now)
    && (if |g.milestones| == 0 then IsSmartMilestones(added.milestones, g, milestoneGuid) else added.milestones == g.milestones)
  }

  /** GetUserGoals' loop body for one of the caller's goals: overdue marking, then CalculateCurrentState. */
  method RefreshOne(g: Goal, today: nat) returns (r: Goal, changed: bool)
    ensures (r, changed) == RefreshGoal(g, today)
  {
    r := g;
    var marked := false;
    if r.status != Completed && r.endDate < today && r.status != Overdue {
      r := r.(status := Overdue);
      marked := true;
    }
    var modified;
    r, modified := CalculateCurrentState(r, today);
    changed := marked || modified;
  }

  /** GetUserGoals' loop over the whole list: the caller's goals refreshed, and whether any changed. */
  method RefreshAll(gs: seq<Goal>, userId: int, today: nat) returns (out: seq<Goal>, modified: bool)
    ensures out == RefreshOwned(gs, userId, today)
    ensures modified <==> out != gs
  {
    ghost var target := RefreshOwned(gs, userId, today);
    out := gs;
    modified := false;
    var i := 0;
    while i < |gs|
      invariant 0 <= i <= |gs| && |out| == |gs|
      invariant forall j :: 0 <= j < i ==> out[j] == target[j]
      invariant forall j :: i <= j < |gs| ==> out[j] == gs[j]
      invariant modified <==> exists j :: 0 <= j < i && out[j] != gs[j]
    {
      if gs[i].userId == userId {
        var g, changed := RefreshOne(gs[i], today);
        if changed {
          modified := true;
        }
        out := out[i := g];
      }
      i := i + 1;
    }
    if !modified {
      assert out == gs;
    }
  }

  class GoalService {
    var file: FileContent<Goal>

    /** Start-up creates the store as an empty array when it does not exist. */
    constructor (initial: FileContent<Goal>)
      ensures file == if initial.Missing? then Records([]) else initial
    {
      file := if initial.Missing? then Records([]) else initial;
    }

    /**
      GetUserGoals: marks the caller's unfinished goals past their end date
      Overdue and refreshes streak and schedule, saving only when a goal
      changed; returns the caller's goals newest first.
    */
    method GetUserGoals(userId: int, today: nat) returns (r: Outcome<seq<Goal>>)
      modifies this
      ensures old(LoadGoals(file)).Threw? ==> r.Threw? && file == old(file)
      ensures old(LoadGoals(file)).Done? ==>
        var gs := old(LoadGoals(file)).value;
        var refreshed := RefreshOwned(gs, userId, today);
        (file == if refreshed == gs then old(file) else Records(refreshed)) &&
        r == Done(UserGoalsView(refreshed, userId))
    {
      var loaded := LoadGoals(file);
      if loaded.Threw? {
        return Threw;
      }
      var gs := loaded.value;
      var out, modified := RefreshAll(gs, userId, today);
      if modified {
        file := Records(out);
      }
      r := Done(UserGoalsView(out, userId));
    }

    /**
      AddGoal: the goal always gets a fresh month of daily tasks, and smart
      milestones when it has none, and is appended. `taskGuid`,
      `milestoneGuid` stand for the generated ids, `now` for the tasks'
      creation time.
    */
    method AddGoal(g: Goal, taskGuid: nat -> string, milestoneGuid: nat -> string, now: nat) returns (r: Outcome<()>)
      modifies this
      ensures old(LoadGoals(file)).Threw? ==> r.Threw? && file == old(file)
      ensures old(LoadGoals(file)).Done? ==> r.Done? && GoalAdded(old(file), file, g, taskGuid, milestoneGuid, now)
    {
      var tasks := GenerateMonthlyTaskStructure(g.startDate, g.title, g.id, g.userId, taskGuid, now);
      var goal := g.(dailyTasks := tasks);
      if |g.milestones| == 0 {
        var ms := GenerateSmartMilestones(g, milestoneGuid);
        goal := goal.(milestones := ms);
      }
      var loaded := LoadGoals(file);
      if loaded.Threw? {
        return Threw;
      }
      var gs := loaded.value;
      file := Records(gs + [goal]);
      assert file.items[..|gs|] == gs;
      r := Done(());
    }

    /** UpdateGoal: applies the rule to the caller's goal and stores it in place of its match; no match, no save. */
    method UpdateGoal(updated: Goal, today: nat) returns (r: Outcome<Goal>)
      modifies this
      ensures old(LoadGoals(file)).Threw? ==> r.Threw? && file == old(file)
      ensures old(LoadGoals(file)).Done? ==>
        match UpdateGoalIn(old(LoadGoals(file)).value, updated, today)
        case None => file == old(file) && r == Done(updated)
        case Some(gs) => file == Records(gs) && r == Done(ApplyProgressRule(updated, today))
    {
      var loaded := LoadGoals(file);
      if loaded.Threw? {
        return Threw;
      }
      var gs := loaded.value;
      var m := IndexWhere(gs, IsGoal(updated.id, updated.userId));
      if m.None? {
        return Done(updated);
      }
      var g := RecalculateProgress(updated, today);
      file := Records(gs[m.value := g]);
      r := Done(g);
    }

    /** UpdateDailyTaskDetail: `None` when the goal or the task is not found, and then nothing is saved. */
    method UpdateDailyTaskDetail(goalId: string, taskId: string, title: string, description: string,
                                 userId: int, today: nat) returns (r: Outcome<Option<Goal>>)
      modifies this
      ensures old(LoadGoals(file)).Threw? ==> r.Threw? && file == old(file)
      ensures old(LoadGoals(file)).Done? ==>
        match TaskDetailIn(old(LoadGoals(file)).value, goalId, taskId, title, description, userId, today)
        case NoGoal => file == old(file) && r == Done(None)
        case Unsaved(g) => false
        case Saved(gs, g) => file == Records(gs) && r == Done(Some(g))
    {
      var loaded := LoadGoals(file);
      if loaded.Threw? {
        return Threw;
      }
      var gs := loaded.value;
      var gi := IndexWhere(gs, IsGoalIgnoreCase(goalId, userId));
      if gi.None? {
        return Done(None);
      }
      var ts := gs[gi.value].dailyTasks;
      var ti := IndexWhere(ts, TaskMatch(taskId, userId));
      if ti.None? {
        return Done(None);
      }
      var t := ti.value;
      var g := gs[gi.value].(dailyTasks := ts[t := ts[t].(title := title, description := description)]);
      g := RecalculateProgress(g, today);
      file := Records(gs[gi.value := g]);
      r := Done(Some(g));
    }

    /** TaskAction: `None` for an unknown goal; an early return gives the goal back without saving. */
    method TaskAction(goalId: string, taskId: string, action: string, content: Option<string>, userId: int,
                      parseDate: string -> Option<nat>, newId: string, now: nat, today: nat) returns (r: Outcome<Option<Goal>>)
      modifies this
      ensures old(LoadGoals(file)).Threw? ==> r.Threw? && file == old(file)
      ensures old(LoadGoals(file)).Done? ==>
        match TaskActionIn(old(LoadGoals(file)).value, goalId, taskId, action, content, userId, parseDate, newId, now, today)
        case NoGoal => file == old(file) && r == Done(None)
        case Unsaved(g) => file == old(file) && r == Done(Some(g))
        case Saved(gs, g) => file == Records(gs) && r == Done(Some(g))
    {
      var loaded := LoadGoals(file);
      if loaded.Threw? {
        return Threw;
      }
      var gs := loaded.value;
      var gi := IndexWhere(gs, IsGoalIgnoreCase(goalId, userId));
      if gi.None? {
        return Done(None);
      }
      var k := gi.value;
      var edit := EditTasks(gs[k], taskId, action, content, userId, parseDate, newId, now);
      if edit.ReturnedEarly? {
        return Done(Some(gs[k]));
      }
      var g := RecalculateProgress(gs[k].(dailyTasks := edit.tasks), today);
      file := Records(gs[k := g]);
      r := Done(Some(g));
    }

    /**
      RedistributeRemainingTasks: `None` for an unknown goal (exact id); a
      goal without missed tasks comes back untouched; otherwise the missed
      tasks are spread over the future days, the list is ordered by date and
      the goal is stored through UpdateGoal.
    */
    method RedistributeRemainingTasks(goalId: string, userId: int, today: nat) returns (r: Outcome<Option<Goal>>)
      modifies this
      ensures old(LoadGoals(file)).Threw? ==> r.Threw? && file == old(file)
      ensures old(LoadGoals(file)).Done? ==>
        match RedistributeIn(old(LoadGoals(file)).value, goalId, userId, today)
        case NoGoal => file == old(file) && r == Done(None)
        case Unsaved(g) => file == old(file) && r == Done(Some(g))
        case Saved(gs, g) => file == Records(gs) && r == Done(Some(g))
    {
      var loaded := LoadGoals(file);
      if loaded.Threw? {
        return Threw;
      }
      var gs := loaded.value;
      var gi := IndexWhere(gs, IsGoal(goalId, userId));
      if gi.None? {
        return Done(None);
      }
      var k := gi.value;
      var ts := gs[k].dailyTasks;
      if MissedCount(ts, today) == 0 {
        return Done(Some(gs[k]));
      }
      var moved := RedistributeDates(ts, today);
      var g := gs[k].(dailyTasks := SortAsc(moved, DateOf));
      assert IndexWhere(gs, IsGoal(g.id, g.userId)) == Some(k);
      var saved := UpdateGoal(g, today);
      r := Done(Some(saved.value));
    }

    /** DeleteGoal: removes every goal with this id and owner and always saves. */
    method DeleteGoal(id: string, userId: int) returns (r: Outcome<()>)
      modifies this
      ensures old(LoadGoals(file)).Threw? ==> r.Threw? && file == old(file)
      ensures old(LoadGoals(file)).Done? ==> r.Done? && file == Records(DeleteGoalIn(old(LoadGoals(file)).value, id, userId))
    {
      var loaded := LoadGoals(file);
      if loaded.Threw? {
        return Threw;
      }
      file := Records(DeleteGoalIn(loaded.value, id, userId));
      r := Done(());
    }

    function GetDailyTasks(goalId: string, userId: int): (r: Outcome<seq<DailyTask>>)
      reads this
      ensures r.Threw? <==> LoadGoals(file).Threw?
      ensures r.Done? ==> r.value == DailyTasksOf(LoadGoals(file).value, goalId, userId)
    {
      match LoadGoals(file)
      case Threw => Threw
      case Done(gs) => Done(DailyTasksOf(gs, goalId, userId))
    }
  }
}
