/**
  The goal endpoints: every action first needs the session's account id
  (absent: Unauthorized), then works through the goal store. Marking a
  milestone or a daily task done reads the caller's goals (which refreshes
  them), changes the found item and stores the goal through UpdateGoal.
*/
module GoalEndpoints {
  import opened Util
  import opened StoreFile
  import opened Calendar
  import opened GoalRules
  import opened GoalStore

  datatype GoalResponse =
    | Unauthorized
    | NotFound
    | NotFoundMessage(message: string)
    | ServerError
    | Rejected(message: string)
    | Accepted
    | GoalList(goals: seq<Goal>)
    | GoalResult(goal: Option<Goal>)
    | TaskGroups(groups: map<string, seq<DailyTask>>)

  const UnrealisticMessage := "This goal may not be realistic within the selected time."
  const TaskNotFoundMessage := "Task not found."

  /** CreateGoal's heuristic: fewer than two days for a title longer than 20 characters. */
  predicate LooksUnrealistic(g: Goal)
  {
    g.endDate - g.startDate < 2 && |g.title| > 20
  }

  /** Id comparison ignoring case, on a goal of the caller's list. */
  function GoalIdIs(goalId: string): Goal -> bool
  {
    (g: Goal) => EqualsIgnoreCase(g.id, goalId)
  }

  function MilestoneIdIs(milestoneId: string): Milestone -> bool
  {
    (m: Milestone) => EqualsIgnoreCase(m.id, milestoneId)
  }

  /**
    UpdateMilestone's change: the first milestone with that id (ignoring
    case) takes the flag, and CompletedAt is `now` when completed and empty
    otherwise; `None` when there is no such milestone.
  */
  function SetMilestone(ms: seq<Milestone>, milestoneId: string, isCompleted: bool, now: nat): (r: Option<seq<Milestone>>)
    ensures r.None? <==> forall i :: 0 <= i < |ms| ==> !EqualsIgnoreCase(ms[i].id, milestoneId)
    ensures r.Some? ==>
      exists k :: 0 <= k < |ms| && EqualsIgnoreCase(ms[k].id, milestoneId) &&
        (forall j :: 0 <= j < k ==> !EqualsIgnoreCase(ms[j].id, milestoneId)) &&
        |r.value| == |ms| &&
        (forall j :: 0 <= j < |ms| && j != k ==> r.value[j] == ms[j]) &&
        r.value[k].isCompleted == isCompleted &&
        (r.value[k].completedAt == Some(now) <==> isCompleted) &&
        (r.value[k].completedAt == None <==> !isCompleted) &&
        r.value[k].(isCompleted := ms[k].isCompleted, completedAt := ms[k].completedAt) == ms[k]
  {
    match IndexWhere(ms, MilestoneIdIs(milestoneId))
    case None => None
    case Some(k) => Some(ms[k := ms[k].(isCompleted := isCompleted, completedAt := if isCompleted then Some(now) else None)])
  }

  /**
    UpdateDailyTask's change: the first task with that id (ignoring case)
    owned by the caller takes the flag, with CompletedAt `now` exactly when
    completed; `None` when there is no such task.
  */
  function SetTaskDone(ts: seq<DailyTask>, taskId: string, userId: int, isCompleted: bool, now: nat): (r: Option<seq<DailyTask>>)
    ensures r.None? <==> forall i :: 0 <= i < |ts| ==> !(EqualsIgnoreCase(ts[i].id, taskId) && ts[i].userId == userId)
    ensures r.Some? ==>
      exists k :: 0 <= k < |ts| && EqualsIgnoreCase(ts[k].id, taskId) && ts[k].userId == userId &&
        (forall j :: 0 <= j < k ==> !(EqualsIgnoreCase(ts[j].id, taskId) && ts[j].userId == userId)) &&
        |r.value| == |ts| &&
        (forall j :: 0 <= j < |ts| && j != k ==> r.value[j] == ts[j]) &&
        r.value[k].isCompleted == isCompleted &&
        (r.value[k].completedAt == Some(now) <==> isCompleted) &&
        (r.value[k].completedAt == None <==> !isCompleted) &&
        r.value[k].(isCompleted := ts[k].isCompleted, completedAt := ts[k].completedAt) == ts[k]
  {
    match IndexWhere(ts, TaskMatch(taskId, userId))
    case None => None
    case Some(k) => Some(ts[k := ts[k].(isCompleted := isCompleted, completedAt := if isCompleted then Some(now) else None)])
  }

  /** The UpdateMilestone and UpdateDailyTask change of the found goal, or `None` when the item is not there. */
  function MarkItem(g: Goal, itemId: string, isMilestone: bool, userId: int, isCompleted: bool, now: nat): (r: Option<Goal>)
    ensures r.Some? ==> r.value.id == g.id && r.value.userId == g.userId
  {
    if isMilestone then
      match SetMilestone(g.milestones, itemId, isCompleted, now)
      case None => None
      case Some(ms) => Some(g.(milestones := ms))
    else
      match SetTaskDone(g.dailyTasks, itemId, userId, isCompleted, now)
      case None => None
      case Some(ts) => Some(g.(dailyTasks := ts))
  }

  /**
    UpdateMilestone and UpdateDailyTask on the refreshed store: the caller's
    goal with that id (ignoring case) in the listing; an unmarked goal comes
    back unsaved, a marked one goes through UpdateGoal.
  */
  function MarkIn(refreshed: seq<Goal>, userId: int, goalId: string, itemId: string, isMilestone: bool,
                  isCompleted: bool, now: nat, today: nat): (r: GoalChange)
  {
    var view := UserGoalsView(refreshed, userId);
    match IndexWhere(view, GoalIdIs(goalId))
    case None => NoGoal
    case Some(k) =>
      match MarkItem(view[k], itemId, isMilestone, userId, isCompleted, now)
      case None => Unsaved(view[k])
      case Some(g) =>
        match UpdateGoalIn(refreshed, g, today)
        case None => Unsaved(g)
        case Some(gs) => Saved(gs, ApplyProgressRule(g, today))
  }

  /** A goal of the listing is a stored goal of the caller, and every stored goal of the caller is listed. */
  lemma ViewIsOwnedGoals(gs: seq<Goal>, userId: int)
    ensures forall g :: g in UserGoalsView(gs, userId) <==> g in gs && g.userId == userId
  {
    var view := UserGoalsView(gs, userId);
    forall g ensures g in view <==> g in gs && g.userId == userId {
      if g in view {
        var i :| 0 <= i < |view| && view[i] == g;
        ListedIsStored(gs, userId, i);
      }
      if g in gs && g.userId == userId {
        StoredIsListed(gs, userId, g);
      }
    }
  }

  /**
    Marking reaches only the caller's goals and always saves once the item
    is found: the goal is stored under the caller, and the saved goal is
    the stored goal with the item marked, put through the progress rule.
  */
  lemma MarkedGoalIsSaved(refreshed: seq<Goal>, userId: int, goalId: string, itemId: string,
                          isMilestone: bool, isCompleted: bool, now: nat, today: nat)
    ensures MarkIn(refreshed, userId, goalId, itemId, isMilestone, isCompleted, now, today).NoGoal? <==>
      forall g :: g in refreshed && g.userId == userId ==> !EqualsIgnoreCase(g.id, goalId)
    ensures MarkIn(refreshed, userId, goalId, itemId, isMilestone, isCompleted, now, today).Unsaved? ==>
      var g := MarkIn(refreshed, userId, goalId, itemId, isMilestone, isCompleted, now, today).goal;
      g in refreshed && g.userId == userId && EqualsIgnoreCase(g.id, goalId) &&
      MarkItem(g, itemId, isMilestone, userId, isCompleted, now).None?
    ensures MarkIn(refreshed, userId, goalId, itemId, isMilestone, isCompleted, now, today).Saved? ==>
      exists h :: h in refreshed && h.userId == userId && EqualsIgnoreCase(h.id, goalId) &&
        MarkItem(h, itemId, isMilestone, userId, isCompleted, now).Some? &&
        MarkIn(refreshed, userId, goalId, itemId, isMilestone, isCompleted, now, today).goal ==
          ApplyProgressRule(MarkItem(h, itemId, isMilestone, userId, isCompleted, now).value, today)
  {
    MarkFindsOwnedGoal(refreshed, userId, goalId, itemId, isMilestone, isCompleted, now, today);
    MarkSavesFoundGoal(refreshed, userId, goalId, itemId, isMilestone, isCompleted, now, today);
    MarkUnsavedOnlyWhenUnmarked(refreshed, userId, goalId, itemId, isMilestone, isCompleted, now, today);
  }

  lemma MarkFindsOwnedGoal(refreshed: seq<Goal>, userId: int, goalId: string, itemId: string,
                           isMilestone: bool, isCompleted: bool, now: nat, today: nat)
    ensures MarkIn(refreshed, userId, goalId, itemId, isMilestone, isCompleted, now, today).NoGoal? <==>
      forall g :: g in refreshed && g.userId == userId ==> !EqualsIgnoreCase(g.id, goalId)
  {
    var view := UserGoalsView(refreshed, userId);
    var found := IndexWhere(view, GoalIdIs(goalId));
    assert MarkIn(refreshed, userId, goalId, itemId, isMilestone, isCompleted, now, today).NoGoal? <==> found.None?;
    if found.None? {
      NoneListedNoneStored(refreshed, userId, goalId);
    } else {
      ListedIsStored(refreshed, userId, found.value);
      assert GoalIdIs(goalId)(view[found.value]);
    }
  }

  lemma NoneListedNoneStored(refreshed: seq<Goal>, userId: int, goalId: string)
    requires IndexWhere(UserGoalsView(refreshed, userId), GoalIdIs(goalId)).None?
    ensures forall g :: g in refreshed && g.userId == userId ==> !EqualsIgnoreCase(g.id, goalId)
  {
    var view := UserGoalsView(refreshed, userId);
    forall g | g in refreshed && g.userId == userId ensures !EqualsIgnoreCase(g.id, goalId) {
      StoredIsListed(refreshed, userId, g);
      var j :| 0 <= j < |view| && view[j] == g;
      assert !GoalIdIs(goalId)(view[j]);
    }
  }

  lemma MarkSavesFoundGoal(refreshed: seq<Goal>, userId: int, goalId: string, itemId: string,
                           isMilestone: bool, isCompleted: bool, now: nat, today: nat)
    ensures MarkIn(refreshed, userId, goalId, itemId, isMilestone, isCompleted, now, today).Saved? ==>
      exists h :: h in refreshed && h.userId == userId && EqualsIgnoreCase(h.id, goalId) &&
        MarkItem(h, itemId, isMilestone, userId, isCompleted, now).Some? &&
        MarkIn(refreshed, userId, goalId, itemId, isMilestone, isCompleted, now, today).goal ==
          ApplyProgressRule(MarkItem(h, itemId, isMilestone, userId, isCompleted, now).value, today)
  {
    var view := UserGoalsView(refreshed, userId);
    var found := IndexWhere(view, GoalIdIs(goalId));
    if found.Some? {
      ListedIsStored(refreshed, userId, found.value);
      assert GoalIdIs(goalId)(view[found.value]);
    }
  }

  lemma ListedIsStored(gs: seq<Goal>, userId: int, i: nat)
    requires i < |UserGoalsView(gs, userId)|
    ensures UserGoalsView(gs, userId)[i] in gs && UserGoalsView(gs, userId)[i].userId == userId
  {
    var view := UserGoalsView(gs, userId);
    assert view[i] in multiset(Filter(gs, OwnedBy(userId)));
  }

  lemma StoredIsListed(gs: seq<Goal>, userId: int, g: Goal)
    requires g in gs && g.userId == userId
    ensures g in UserGoalsView(gs, userId)
  {
    var i :| 0 <= i < |gs| && gs[i] == g;
    assert OwnedBy(userId)(gs[i]);
    assert g in multiset(Filter(gs, OwnedBy(userId)));
  }

  lemma MarkUnsavedOnlyWhenUnmarked(refreshed: seq<Goal>, userId: int, goalId: string, itemId: string,
                                    isMilestone: bool, isCompleted: bool, now: nat, today: nat)
    ensures MarkIn(refreshed, userId, goalId, itemId, isMilestone, isCompleted, now, today).Unsaved? ==>
      var g := MarkIn(refreshed, userId, goalId, itemId, isMilestone, isCompleted, now, today).goal;
      g in refreshed && g.userId == userId && EqualsIgnoreCase(g.id, goalId) &&
      MarkItem(g, itemId, isMilestone, userId, isCompleted, now).None?
  {
    var view := UserGoalsView(refreshed, userId);
    var found := IndexWhere(view, GoalIdIs(goalId));
    if found.Some? {
      ListedIsStored(refreshed, userId, found.value);
      var h := view[found.value];
      assert GoalIdIs(goalId)(h);
      var marked := MarkItem(h, itemId, isMilestone, userId, isCompleted, now);
      if marked.Some? {
        var j :| 0 <= j < |refreshed| && refreshed[j] == h;
        assert IsGoal(marked.value.id, marked.value.userId)(refreshed[j]);
      }
    }
  }

  /**
    GoalController's endpoints over one goal store. `now` is the clock,
    `today` its day number.
  */
  class GoalController {
    const svc: GoalService

    constructor (service: GoalService)
      ensures svc == service
    {
      svc := service;
    }

    method GetGoals(userId: Option<int>, today: nat) returns (r: GoalResponse)
      modifies svc
      ensures userId.None? ==> r == Unauthorized && svc.file == old(svc.file)
      ensures userId.Some? && old(LoadGoals(svc.file)).Threw? ==> r == ServerError && svc.file == old(svc.file)
      ensures userId.Some? && old(LoadGoals(svc.file)).Done? ==>
        r == GoalList(UserGoalsView(RefreshOwned(old(LoadGoals(svc.file)).value, userId.value, today), userId.value))
    {
      if userId.None? {
        return Unauthorized;
      }
      var goals := svc.GetUserGoals(userId.value, today);
      r := if goals.Threw? then ServerError else GoalList(goals.value);
    }

    /**
      CreateGoal: the goal is stamped with the session's account and the
      creation time; a goal that looks unrealistic is refused and nothing is
      stored, any other is added.
    */
    method CreateGoal(userId: Option<int>, goal: Goal, now: nat, taskGuid: nat -> string, milestoneGuid: nat -> string)
      returns (r: GoalResponse)
      modifies svc
      ensures userId.None? ==> r == Unauthorized && svc.file == old(svc.file)
      ensures userId.Some? && LooksUnrealistic(goal) ==> r == Rejected(UnrealisticMessage) && svc.file == old(svc.file)
      ensures userId.Some? && !LooksUnrealistic(goal) && old(LoadGoals(svc.file)).Threw? ==>
        r == ServerError && svc.file == old(svc.file)
      ensures userId.Some? && !LooksUnrealistic(goal) && old(LoadGoals(svc.file)).Done? ==>
        r == Accepted &&
        GoalAdded(old(svc.file), svc.file, goal.(userId := userId.value, createdDate := now), taskGuid, milestoneGuid, now)
    {
      if userId.None? {
        return Unauthorized;
      }
      var g := goal.(userId := userId.value, createdDate := now);
      if LooksUnrealistic(g) {
        return Rejected(UnrealisticMessage);
      }
      var added := svc.AddGoal(g, taskGuid, milestoneGuid, now);
      r := if added.Threw? then ServerError else Accepted;
    }

    /**
      UpdateMilestone (`isMilestone`) and UpdateDailyTask: the caller's goal
      with that id (ignoring case) among the refreshed listing, NotFound when
      there is none; when the item exists it is marked and the goal stored
      through UpdateGoal, and the response carries the goal as stored.
    */
    method MarkDone(userId: Option<int>, goalId: string, itemId: string, isMilestone: bool, isCompleted: bool,
                    now: nat, today: nat) returns (r: GoalResponse)
      modifies svc
      ensures userId.None? ==> r == Unauthorized && svc.file == old(svc.file)
      ensures userId.Some? && old(LoadGoals(svc.file)).Threw? ==> r == ServerError && svc.file == old(svc.file)
      ensures userId.Some? && old(LoadGoals(svc.file)).Done? ==>
        var gs := old(LoadGoals(svc.file)).value;
        var refreshed := RefreshOwned(gs, userId.value, today);
        var afterRead := if refreshed == gs then old(svc.file) else Records(refreshed);
        match MarkIn(refreshed, userId.value, goalId, itemId, isMilestone, isCompleted, now, today)
        case NoGoal => r == NotFound && svc.file == afterRead
        case Unsaved(g) => r == GoalResult(Some(g)) && svc.file == afterRead
        case Saved(goals, g) => r == GoalResult(Some(g)) && svc.file == Records(goals)
    {
      if userId.None? {
        return Unauthorized;
      }
      var u := userId.value;
      var goals := svc.GetUserGoals(u, today);
      if goals.Threw? {
        return ServerError;
      }
      var view := goals.value;
      var found := IndexWhere(view, GoalIdIs(goalId));
      if found.None? {
        return NotFound;
      }
      var goal := view[found.value];
      var marked := MarkItem(goal, itemId, isMilestone, u, isCompleted, now);
      if marked.None? {
        return GoalResult(Some(goal));
      }
      var saved := svc.UpdateGoal(marked.value, today);
      r := GoalResult(Some(saved.value));
    }

    method DeleteGoal(userId: Option<int>, id: string) returns (r: GoalResponse)
      modifies svc
      ensures userId.None? ==> r == Unauthorized && svc.file == old(svc.file)
      ensures userId.Some? && old(LoadGoals(svc.file)).Threw? ==> r == ServerError && svc.file == old(svc.file)
      ensures userId.Some? && old(LoadGoals(svc.file)).Done? ==>
        r == Accepted && svc.file == Records(DeleteGoalIn(old(LoadGoals(svc.file)).value, id, userId.value))
    {
      if userId.None? {
        return Unauthorized;
      }
      var done := svc.DeleteGoal(id, userId.value);
      r := if done.Threw? then ServerError else Accepted;
    }

    method TaskAction(userId: Option<int>, goalId: string, taskId: string, action: string, content: Option<string>,
                      parseDate: string -> Option<nat>, newId: string, now: nat, today: nat) returns (r: GoalResponse)
      modifies svc
      ensures userId.None? ==> r == Unauthorized && svc.file == old(svc.file)
      ensures userId.Some? && old(LoadGoals(svc.file)).Threw? ==> r == ServerError && svc.file == old(svc.file)
      ensures userId.Some? && old(LoadGoals(svc.file)).Done? ==>
        match TaskActionIn(old(LoadGoals(svc.file)).value, goalId, taskId, action, content, userId.value, parseDate, newId, now, today)
        case NoGoal => r == GoalResult(None) && svc.file == old(svc.file)
        case Unsaved(g) => r == GoalResult(Some(g)) && svc.file == old(svc.file)
        case Saved(gs, g) => r == GoalResult(Some(g)) && svc.file == Records(gs)
    {
      if userId.None? {
        return Unauthorized;
      }
      var res := svc.TaskAction(goalId, taskId, action, content, userId.value, parseDate, newId, now, today);
      r := if res.Threw? then ServerError else GoalResult(res.value);
    }

    method RedistributeTasks(userId: Option<int>, goalId: string, today: nat) returns (r: GoalResponse)
      modifies svc
      ensures userId.None? ==> r == Unauthorized && svc.file == old(svc.file)
      ensures userId.Some? && old(LoadGoals(svc.file)).Threw? ==> r == ServerError && svc.file == old(svc.file)
      ensures userId.Some? && old(LoadGoals(svc.file)).Done? ==>
        match RedistributeIn(old(LoadGoals(svc.file)).value, goalId, userId.value, today)
        case NoGoal => r == GoalResult(None) && svc.file == old(svc.file)
        case Unsaved(g) => r == GoalResult(Some(g)) && svc.file == old(svc.file)
        case Saved(gs, g) => r == GoalResult(Some(g)) && svc.file == Records(gs)
    {
      if userId.None? {
        return Unauthorized;
      }
      var res := svc.RedistributeRemainingTasks(goalId, userId.value, today);
      r := if res.Threw? then ServerError else GoalResult(res.value);
    }

    /** UpdateDailyTaskDetail: an unknown goal or task is NotFound with "Task not found.". */
    method UpdateDailyTaskDetail(userId: Option<int>, goalId: string, taskId: string, title: string, description: string,
                                 today: nat) returns (r: GoalResponse)
      modifies svc
      ensures userId.None? ==> r == Unauthorized && svc.file == old(svc.file)
      ensures userId.Some? && old(LoadGoals(svc.file)).Threw? ==> r == ServerError && svc.file == old(svc.file)
      ensures userId.Some? && old(LoadGoals(svc.file)).Done? ==>
        match TaskDetailIn(old(LoadGoals(svc.file)).value, goalId, taskId, title, description, userId.value, today)
        case NoGoal => r == NotFoundMessage(TaskNotFoundMessage) && svc.file == old(svc.file)
        case Unsaved(g) => false
        case Saved(gs, g) => r == GoalResult(Some(g)) && svc.file == Records(gs)
    {
      if userId.None? {
        return Unauthorized;
      }
      var res := svc.UpdateDailyTaskDetail(goalId, taskId, title, description, userId.value, today);
      if res.Threw? {
        return ServerError;
      }
      r := if res.value.None? then NotFoundMessage(TaskNotFoundMessage) else GoalResult(res.value);
    }

    /** GetDailyTasks: the goal's tasks grouped under their "yyyy-MM-dd" day. */
    function GetDailyTasks(userId: Option<int>, goalId: string): (r: GoalResponse)
      reads svc, svc`file
      ensures userId.None? ==> r == Unauthorized
      ensures userId.Some? && LoadGoals(svc.file).Threw? ==> r == ServerError
      ensures userId.Some? && LoadGoals(svc.file).Done? ==>
        r == TaskGroups(GroupBy(DailyTasksOf(LoadGoals(svc.file).value, goalId, userId.value), TaskDay))
    {
      if userId.None? then Unauthorized
      else match svc.GetDailyTasks(goalId, userId.value)
        case Threw => ServerError
        case Done(ts) => TaskGroups(GroupBy(ts, TaskDay))
    }
  }

  // ---------------------------------------------------------------------
  // Grouping by day
  // ---------------------------------------------------------------------

  /** A day number as "yyyy-MM-dd". */
  function DateKey(d: nat): string
  {
    var y, m := YearOf(d), MonthOf(d);
    var first := DayNumber(y, m, 1);
    var day := d - first + 1;
    PadZero(NatToString(y), 4) + "-" + PadZero(NatToString(m), 2) + "-" + PadZero(NatToString(day), 2)
  }

  function TaskDay(t: DailyTask): string
  {
    DateKey(t.date)
  }

  /** The tasks grouped by their "yyyy-MM-dd" day; each task sits under its own day's key and under no other. */
  lemma GroupByDayExact(ts: seq<DailyTask>, i: nat, k: string)
    requires i < |ts| && k in GroupBy(ts, TaskDay)
    ensures TaskDay(ts[i]) in GroupBy(ts, TaskDay)
    ensures ts[i] in GroupBy(ts, TaskDay)[k] <==> k == DateKey(ts[i].date)
  {
    GroupByOneKey(ts, TaskDay, i, k);
  }
}
