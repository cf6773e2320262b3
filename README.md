# JsonCrudApp, modelled in Dafny

JsonCrudApp is an ASP.NET MVC student dashboard. Its data lives in flat JSON
files: students, notes, time entries, PDFs, habits, goals and visits. The
browser side adds a stopwatch, a news widget and two page translators. This
project models the deterministic logic under the web glue and proves what
that logic promises.

- **Record stores** (`StudentStore`, `NotesStore`, `TimeEntryStore`,
  `PdfStore`, `HabitStore`, `GoalStore`, `Activity`). Each store is a pair:
  - pure functions over the list read from its file;
  - a service class whose `file` field is reassigned by every add, update
    and delete.
  The proofs cover id allocation (`max + 1`), owner scoping, "nothing else
  changes" and how a missing, blank or malformed file reads back
  (`StoreFile`).
- **Goal and habit rules** (`GoalRules`, `GoalStore`, `HabitStore`). These
  cover:
  - the progress and status rule and the streak walk;
  - milestone and monthly-task generation;
  - round-robin redistribution of missed tasks and the one-task-per-day rule;
  - the habit completion toggle.
  Days are integer day numbers, each DateTime taken at midnight (see
  "Left out"); `Calendar` supplies `DaysInMonth`.
- **Sign-in and one-time codes** (`Auth`, `Otp`, `AccountPages`,
  `StudentPages`, `AuthorizeRole`, `Web`). The session is a
  `map<string, string>`. The models cover:
  - the OTP dispatch on the pending purpose;
  - the login error choice;
  - the admin and student creation flows with their security PIN;
  - the role filter, and BaseController's login gate (`Web.SignedOut`),
    which sends a signed-out caller to Login before any action of
    `StudentPages` or `TimeTrackerPages` runs.
  The password hash is a function parameter.
- **Byte formats** (`PdfWriter`, `PdfText`, `Jpeg`). `PdfWriter` models
  `SimplePdfGenerator`: object numbering, the object bodies written in
  order, and the cross-reference table whose offsets are where each object
  starts (sections 7.5.4 and 7.5.5 of ISO 32000-1). `PdfText` covers text
  pages and literal-string escaping (section 7.3.4.2 of ISO 32000-1). `Jpeg`
  covers the marker scan for the SOF0/SOF2 frame size (section B.2.2 of
  ITU-T T.81).
- **Time and aggregation**:
  - `TimeTrackerPages`: the date-window filter, today's per-task breakdown
    and the manual-entry duration rules;
  - `Stopwatch`: the client stopwatch and its `formatTime`/`parseDuration`;
  - `Activity`: the visit report;
  - `BrowserLanguage`: Accept-Language primary-subtag choice (section
    12.5.4 of RFC 9110).
- **Client helpers**:
  - `SiteScripts`: Google News parameters, the language search and `i18n.t`;
  - `ApiTranslation`: the API translation service's cache, chunking, retry
    and back-off;
  - `TranslatorRules` and `PageTranslator`: the page translator's collection,
    batching and whitespace-keeping replacement.

Every clock reading, random draw, GUID, file content, hash and server reply
is an explicit parameter. Time on the server is whole seconds since
0001-01-01; in the browser it is milliseconds. `Util` and `Ordering` hold
shared sequence and string helpers and LINQ's stable `OrderBy`.

## Model

| member | source | states |
|---|---|---|
| StudentStore.LoadStudents | Services/JsonFileStudentService.cs:24-39 | reading throws exactly for blank or malformed text; a missing file or "null" read as no students, and a list reads as itself |
| StudentStore.FindStudent | Services/JsonFileStudentService.cs:77-80 | the record found is the first stored record with that id, and nothing is found exactly when no record has the id |
| StudentStore.FindStudentUnique | Services/JsonFileStudentService.cs:77-80 | with duplicate-free ids the record found is the only one with that id |
| StudentStore.AppendStudent | Services/JsonFileStudentService.cs:41-47 | the list grows by one record at the end whose id is one more than the largest stored id (1 for an empty store), so no stored record has it, and nothing else changes |
| StudentStore.AppendStudentKeepsIdsDistinct | Services/JsonFileStudentService.cs:44 | adding keeps the ids of the store duplicate-free |
| StudentStore.CopyEditable | Services/JsonFileStudentService.cs:55-61 | the seven edited fields come from the edit; the id, the PIN hash and the security flag stay as stored |
| StudentStore.UpdateIn | Services/JsonFileStudentService.cs:49-64 | no save exactly when no record has the id; otherwise the first record with the id, and no other, takes the edited fields, and the ids stay as they were |
| StudentStore.UpdateThenFind | Services/JsonFileStudentService.cs:49-80 | after an update, looking the id up gives the stored record with the edited fields |
| StudentStore.CopyWithSecurity | Services/JsonFileStudentService.cs:55-61 | the corrected copy: the edited fields plus the PIN hash and security flag come from the edit, the id stays |
| StudentStore.UpdateWithSecurityIn | Services/JsonFileStudentService.cs:49-64 | the corrected update: as UpdateStudent, the first record with the id and no other changes, but the PIN hash and security flag are copied too |
| StudentStore.DeleteIn | Services/JsonFileStudentService.cs:66-75 | no save exactly when no record has the id; otherwise the first record with the id is removed and the others keep their order |
| StudentStore.DeleteRemovesId | Services/JsonFileStudentService.cs:66-75 | with duplicate-free ids a delete leaves no record with that id and the ids duplicate-free |
| StudentStore.StudentService.constructor | Services/JsonFileStudentService.cs:12-15 | the service starts on the given store |
| StudentStore.StudentService.GetStudentById | Services/JsonFileStudentService.cs:77-80 | throws exactly when the file is blank or malformed; otherwise the first record with the id, if any |
| StudentStore.StudentService.AddStudent | Services/JsonFileStudentService.cs:41-47 | an unreadable file throws and changes nothing; otherwise the record is appended with a fresh id and saved, and its id is given back |
| StudentStore.StudentService.UpdateStudent | Services/JsonFileStudentService.cs:49-64 | an unreadable file throws; an unknown id saves nothing; otherwise the updated list is saved |
| StudentStore.StudentService.UpdateStudentWithSecurity | Services/JsonFileStudentService.cs:49-64 | the corrected update, also storing the PIN hash and security flag |
| StudentStore.StudentService.DeleteStudent | Services/JsonFileStudentService.cs:66-75 | an unreadable file throws; an unknown id saves nothing; otherwise the list without the record is saved |
| NotesStore.LoadNotes | Services/NotesService.cs:24-42 | reading throws only for malformed text; a missing file, blank text or "null" read as no notes, and a list reads as itself |
| NotesStore.NotesByUser | Services/NotesService.cs:44-47 | only notes of that email, and every stored note of that email is listed |
| NotesStore.NotesByUserCounts | Services/NotesService.cs:44-47 | each note of that email is listed exactly as often as it is stored, any other note not at all |
| NotesStore.NotesByUserSnoc | Services/NotesService.cs:44-47 | the listing keeps stored order: empty for no notes, and a note stored last is listed last exactly when it is the user's |
| NotesStore.AppendNote | Services/NotesService.cs:49-56 | the list grows by one note at the end, stamped with now, whose id is one more than the largest stored id (1 when empty), and nothing else changes |
| NotesStore.AppendNoteByUser | Services/NotesService.cs:49-56 | after an add the owner's notes end with the new note and every other user's notes are as they were |
| NotesStore.UpdateNoteIn | Services/NotesService.cs:58-69 | no save exactly when the user has no note with that id; otherwise the first such note takes the new title and description and nothing else changes |
| NotesStore.DeleteNoteIn | Services/NotesService.cs:71-80 | no save exactly when the user has no note with that id; otherwise exactly the first such note is removed and the rest keep their order |
| NotesStore.UpdateKeepsOthersNotes | Services/NotesService.cs:58-69 | an update by one user leaves every other user's notes as they were |
| NotesStore.DeleteKeepsOthersNotes | Services/NotesService.cs:71-80 | a delete by one user leaves every other user's notes as they were |
| NotesStore.NotesService.constructor | Services/NotesService.cs:12-15 | the service starts on the given store |
| NotesStore.NotesService.GetNotesByUser | Services/NotesService.cs:44-47 | throws exactly when the file is malformed; otherwise the user's notes |
| NotesStore.NotesService.AddNote | Services/NotesService.cs:49-56 | a malformed file throws and changes nothing; otherwise the note is appended with a fresh id and saved, and its id is given back |
| NotesStore.NotesService.UpdateNote | Services/NotesService.cs:58-69 | a malformed file throws; no matching note saves nothing; otherwise the updated list is saved |
| NotesStore.NotesService.DeleteNote | Services/NotesService.cs:71-80 | a malformed file throws; no matching note saves nothing; otherwise the list without it is saved |
| TimeEntryStore.LoadEntries | Services/TimeTrackerService.cs:24-49 | a well-formed list reads as itself; a missing file, blank text, "null" or malformed text all read as no entries |
| TimeEntryStore.EntriesByUser | Services/TimeTrackerService.cs:51-55 | exactly the user's entries, as a multiset, latest start first |
| TimeEntryStore.EntriesByUserTies | Services/TimeTrackerService.cs:51-55 | the user's entries with the same start time are listed in stored order |
| TimeEntryStore.EntriesByUserExact | Services/TimeTrackerService.cs:51-55 | each of the user's entries appears as often as it is stored, and no other entry appears |
| TimeEntryStore.AppendEntry | Services/TimeTrackerService.cs:57-65 | the list grows by one entry at the end whose id is one more than the largest stored id (1 when empty), and nothing else changes |
| TimeEntryStore.CopyTimes | Services/TimeTrackerService.cs:73-76 | task name, start, end and duration come from the edit; id and owner stay |
| TimeEntryStore.UpdateEntryIn | Services/TimeTrackerService.cs:67-79 | no save exactly when the user has no entry with that id; otherwise the first such entry takes the edited times and nothing else changes |
| TimeEntryStore.DeleteEntryIn | Services/TimeTrackerService.cs:81-90 | no save exactly when the user has no entry with that id; otherwise exactly the first such entry is removed and the rest keep their order |
| TimeEntryStore.UpdateKeepsOthersEntries | Services/TimeTrackerService.cs:67-79 | editing one user's entry leaves every other user's listing unchanged |
| TimeEntryStore.DeleteKeepsOthersEntries | Services/TimeTrackerService.cs:81-90 | deleting one user's entry leaves every other user's listing unchanged |
| TimeEntryStore.TimeTrackerService.constructor | Services/TimeTrackerService.cs:12-15 | the service starts on the given store |
| TimeEntryStore.TimeTrackerService.AddEntry | Services/TimeTrackerService.cs:57-65 | the entry is appended with a fresh id and saved, and its id is given back |
| TimeEntryStore.TimeTrackerService.UpdateEntry | Services/TimeTrackerService.cs:67-79 | no matching entry saves nothing; otherwise the updated list is saved |
| TimeEntryStore.TimeTrackerService.DeleteEntry | Services/TimeTrackerService.cs:81-90 | no matching entry saves nothing; otherwise the list without it is saved |
| Ordering.SortDesc | Services/UserPdfService.cs:41 | OrderByDescending: the same elements, as a multiset, largest key first |
| Ordering.SortDescStable | Services/UserPdfService.cs:41 | OrderByDescending is stable: elements with equal keys keep their original order |
| Ordering.SortAsc | Services/GoalService.cs:282 | OrderBy: the same elements, as a multiset, smallest key first |
| PdfStore.LoadPdfs | Services/UserPdfService.cs:28-39 | reading throws exactly for blank or malformed text; a missing file or "null" read as no records, and a list reads as itself |
| PdfStore.PdfsOf | Services/UserPdfService.cs:41 | exactly the user's records, as a multiset, newest first |
| PdfStore.AppendPdf | Services/UserPdfService.cs:64-65 | the list grows by one record at the end whose id is one more than the largest stored id (1 when empty), and nothing else changes |
| PdfStore.AppendPdfListed | Services/UserPdfService.cs:45-67 | an added record joins its owner's listing, which otherwise stays as it was |
| PdfStore.PhysicalPath | Services/UserPdfService.cs:84 | the path on disk is the web path without its leading slashes, each other slash turned into a backslash |
| PdfStore.SlashesToBackslashes | Services/UserPdfService.cs:84 | every slash becomes a backslash and every other character stays |
| PdfStore.DeletePdfIn | Services/UserPdfService.cs:80-92 | nothing happens exactly when the user has no record with that id or the first such record has no file path; otherwise that first record is removed, the rest keep their order, and its file's path on disk is given |
| PdfStore.RenamePdfIn | Services/UserPdfService.cs:106-111 | no save exactly when the user has no record with that id; otherwise the first such record takes the new name and nothing else changes |
| PdfStore.ChangesKeepOthersPdfs | Services/UserPdfService.cs:69-112 | deleting or renaming one user's record leaves every other user's records as they were |
| PdfStore.UserPdfService.constructor | Services/UserPdfService.cs:16-19 | the service starts on the given store |
| PdfStore.UserPdfService.GetUserPdfs | Services/UserPdfService.cs:26-43 | throws exactly when the file is blank or malformed; otherwise the user's records newest first |
| PdfStore.UserPdfService.AddPdf | Services/UserPdfService.cs:45-67 | an unreadable file throws and changes nothing; otherwise the record is appended with a fresh id and saved, and its id is given back |
| PdfStore.UserPdfService.DeletePdf | Services/UserPdfService.cs:69-93 | an unreadable file throws; with no match or no file path nothing is saved; otherwise the list without the record is saved and the file to remove is named |
| PdfStore.UserPdfService.UpdatePdfName | Services/UserPdfService.cs:95-112 | an unreadable file throws; no match saves nothing; otherwise the renamed list is saved |
| HabitStore.LoadHabits | Services/HabitService.cs:20-38 | reading throws only for malformed text; a missing file, blank text or "null" read as no habits, and a list reads as itself |
| HabitStore.HabitsByUser | Services/HabitService.cs:40-43 | only habits of that email, and every stored habit of that email is listed |
| HabitStore.HabitsByUserCounts | Services/HabitService.cs:40-43 | each habit of that email is listed exactly as often as it is stored, any other habit not at all |
| HabitStore.HabitsByUserSnoc | Services/HabitService.cs:40-43 | the listing keeps stored order: empty for no habits, and a habit stored last is listed last exactly when it is the user's |
| HabitStore.WithDefaults | Services/HabitService.cs:48-55 | an empty id is replaced by a fresh one and an unset creation time by now; nothing else changes |
| HabitStore.ToggleDates | Services/HabitService.cs:89-110 | the answer is true exactly when no completion falls on that calendar day; then the day's midnight is appended, otherwise the first completion on that day is removed and the rest stay in order |
| HabitStore.ToggleTwiceRestores | Services/HabitService.cs:89-110 | toggling an unmarked day twice gives back the original completions, and the second toggle answers false |
| HabitStore.ToggleKeepsOnePerDay | Services/HabitService.cs:89-110 | toggling keeps at most one completion per day, and answers true exactly when the day is marked afterwards |
| HabitStore.MarkKeepsOnePerDay | Services/HabitService.cs:107 | appending an unmarked day keeps one completion per day and marks that day |
| HabitStore.UnmarkKeepsOnePerDay | Services/HabitService.cs:101 | removing the completion of a marked day keeps one completion per day and leaves that day unmarked |
| HabitStore.ToggleIn | Services/HabitService.cs:83-112 | no save exactly when the user has no habit with that id; otherwise the first such habit's completions are toggled and the answer is the toggle's |
| HabitStore.CopyHabitDetails | Services/HabitService.cs:68-73 | the six edited fields come from the edit; id, owner, completions and creation time stay as stored |
| HabitStore.UpdateHabitIn | Services/HabitService.cs:64-78 | no save exactly when the user has no habit with that id; otherwise the first such habit takes the edited details and is returned |
| HabitStore.DeleteHabitIn | Services/HabitService.cs:117-123 | no save exactly when the user has no habit with that id; otherwise exactly the first such habit is removed and the rest keep their order |
| HabitStore.ChangesKeepOthersHabits | Services/HabitService.cs:62-124 | toggling, editing or deleting one user's habit leaves every other user's habits as they were, in order |
| HabitStore.HabitService.constructor | Services/HabitService.cs:8-11 | the service starts on the given store |
| HabitStore.HabitService.GetHabitsByUser | Services/HabitService.cs:40-43 | throws exactly when the file is malformed; otherwise the user's habits |
| HabitStore.HabitService.AddHabit | Services/HabitService.cs:45-60 | a malformed file throws and changes nothing; otherwise the habit with its defaults filled is appended, saved and returned |
| HabitStore.HabitService.UpdateHabit | Services/HabitService.cs:62-79 | a malformed file throws; no matching habit gives null and saves nothing; otherwise the updated list is saved and the updated habit returned |
| HabitStore.HabitService.ToggleCompletion | Services/HabitService.cs:81-113 | a malformed file throws; no matching habit answers false and saves nothing; otherwise the toggled list is saved and the toggle's answer returned |
| HabitStore.HabitService.DeleteHabit | Services/HabitService.cs:115-124 | a malformed file throws; no matching habit saves nothing; otherwise the list without it is saved |
| GoalStore.LoadGoals | Services/GoalService.cs:27-28 | reading throws exactly for a missing, blank or malformed file; a "null" file reads as no goals and a list reads as itself |
| GoalStore.RefreshOwned | Services/GoalService.cs:29-48 | the stored list after a read: the same length, the caller's goals refreshed in place, everyone else's goals as they were, and no goal changes owner |
| GoalStore.UserGoalsView | Services/GoalService.cs:29-50 | the listing holds exactly the caller's goals (as a multiset), newest creation date first |
| GoalStore.ViewMarksOverdue | Services/GoalService.cs:35-39 | no listed goal is unfinished and past its end date without being "Overdue" |
| GoalStore.OwnedRefreshedMarked | Services/GoalService.cs:32-39 | after the refresh every goal of the caller that is unfinished and past its end date is "Overdue" |
| GoalStore.RefreshIdempotent | Services/GoalService.cs:31-48 | a second read on the same day changes nothing, so it saves nothing |
| GoalStore.RefreshGoalIdempotent | Services/GoalService.cs:32-43 | refreshing a refreshed goal gives it back unchanged and reports no change |
| GoalStore.UpdateGoalIn | Services/GoalService.cs:129-160 | no save exactly when no goal has the same id and owner; otherwise the first such goal is replaced by the updated goal after the progress rule, and the rest stay |
| GoalStore.TaskDetailIn | Services/GoalService.cs:162-190 | not found when the caller owns no goal with that id (ignoring case) or the first such goal holds no caller task with that id; otherwise the first such task of that goal gets the new title and description, the progress rule is applied, and that goal alone is replaced |
| GoalStore.TaskActionIn | Services/GoalService.cs:192-250 | not found exactly when the caller owns no goal with that id (ignoring case); an early return gives the first such goal back unsaved; otherwise the edited tasks are stored in that goal after the progress rule |
| GoalStore.TaskActionKeepsOneTaskPerDay | Services/GoalService.cs:199-235 | a saved task action leaves every goal with at most one task per day |
| GoalStore.RedistributeIn | Services/GoalService.cs:252-285 | not found exactly when no goal has that exact id and owner; no save when the first such goal has no missed task; otherwise the redistributed tasks go into that goal after the progress rule |
| GoalStore.RedistributeOutcome | Services/GoalService.cs:252-285 | a saved redistribution replaces only the caller's goal, keeps its number of tasks, leaves none missed and keeps every task that was not missed |
| GoalStore.DeleteGoalIn | Services/GoalService.cs:287-296 | no goal with that id and owner is left, every other goal stays, and nothing is added |
| GoalStore.DeleteGoalSnoc | Services/GoalService.cs:292-293 | deleting keeps the stored order: an empty list stays empty, and one more goal at the end is kept at the end exactly when it is not the deleted goal |
| GoalStore.DeleteKeepsOthersGoals | Services/GoalService.cs:292-293 | deleting never touches another user's goals, in order |
| GoalStore.ChangesKeepOthersGoals | Services/GoalService.cs:129-250 | updating a goal, editing a task's detail and acting on a task leave every other user's goals as they were |
| GoalStore.UpdateKeepsOthers | Services/GoalService.cs:133-157 | updating a goal leaves every other user's goals as they were |
| GoalStore.TaskDetailKeepsOthers | Services/GoalService.cs:162-190 | editing a task's detail leaves every other user's goals as they were |
| GoalStore.TaskActionKeepsOthers | Services/GoalService.cs:192-250 | a task action leaves every other user's goals as they were |
| GoalStore.DailyTasksOf | Services/GoalService.cs:298-304 | the tasks of the first goal with that exact id and owner, or none when there is no such goal |
| GoalStore.RefreshOne | Services/GoalService.cs:32-43 | one pass of the read loop computes the refresh of that goal and whether it changed |
| GoalStore.RefreshAll | Services/GoalService.cs:31-44 | the read loop computes the refreshed list and reports a change exactly when the list changed |
| GoalStore.GoalService.constructor | Services/GoalService.cs:12-23 | a missing store starts as an empty list; an existing one is kept as it is |
| GoalStore.GoalService.GetUserGoals | Services/GoalService.cs:25-51 | an unreadable file throws and changes nothing; otherwise the refreshed list is saved only when it changed, and the answer is the caller's listing |
| GoalStore.GoalService.AddGoal | Services/GoalService.cs:113-127 | an unreadable file throws and changes nothing; otherwise the goal is appended with its monthly tasks, and generated milestones when it had none |
| GoalStore.GoalService.UpdateGoal | Services/GoalService.cs:129-160 | an unreadable file throws; with no matching goal nothing is saved; otherwise the list with the goal replaced is saved |
| GoalStore.GoalService.UpdateDailyTaskDetail | Services/GoalService.cs:162-190 | an unreadable file throws; an unknown goal or task gives nothing and saves nothing; otherwise the edited goal is saved and returned |
| GoalStore.GoalService.TaskAction | Services/GoalService.cs:192-250 | an unreadable file throws; an unknown goal gives nothing; an early return gives the goal unsaved; otherwise the edited goal is saved and returned |
| GoalStore.GoalService.RedistributeRemainingTasks | Services/GoalService.cs:252-285 | an unreadable file throws; an unknown goal gives nothing; a goal with no missed task is returned unsaved; otherwise the redistributed goal is saved and returned |
| GoalStore.GoalService.DeleteGoal | Services/GoalService.cs:287-296 | an unreadable file throws; otherwise the list without the caller's goals of that id is always saved |
| GoalStore.GoalService.GetDailyTasks | Services/GoalService.cs:298-304 | throws exactly when the file is unreadable; otherwise the tasks of the goal with that exact id and owner, or none |
| GoalEndpoints.SetMilestone | Controllers/GoalController.cs:59-65 | no change exactly when no milestone's id matches (ignoring case); otherwise only the first matching milestone changes, its completed flag is the requested one and its completion time is now exactly when it is completed |
| GoalEndpoints.SetTaskDone | Controllers/GoalController.cs:80-86 | no change exactly when no task both matches the id (ignoring case) and belongs to the caller; otherwise the first such task takes the requested completion flag, with a completion time exactly when completed, and every other task is unchanged |
| GoalEndpoints.MarkItem | Controllers/GoalController.cs:59-86 | marking a milestone or task of a goal never changes which goal it is or whom it belongs to |
| GoalEndpoints.ViewIsOwnedGoals | Services/GoalService.cs:29-50 | the goal listing holds exactly the stored goals of the caller |
| GoalEndpoints.ListedIsStored | Services/GoalService.cs:29 | every listed goal is a stored goal of the caller |
| GoalEndpoints.StoredIsListed | Services/GoalService.cs:29-50 | every stored goal of the caller is listed |
| GoalEndpoints.NoneListedNoneStored | Controllers/GoalController.cs:55-57 | when the lookup in the listing finds nothing, no stored goal of the caller has that id (ignoring case) |
| GoalEndpoints.MarkFindsOwnedGoal | Controllers/GoalController.cs:55-57 | the mark endpoints answer "not found" exactly when the caller owns no goal with that id (ignoring case) |
| GoalEndpoints.MarkSavesFoundGoal | Controllers/GoalController.cs:59-86 | when the mark endpoints save, they save a goal of the caller with the requested id in which the item was found and marked |
| GoalEndpoints.MarkUnsavedOnlyWhenUnmarked | Controllers/GoalController.cs:59-86 | when nothing is saved, the goal was found but holds no such milestone or caller-owned task |
| GoalEndpoints.MarkedGoalIsSaved | Controllers/GoalController.cs:50-89 | the three outcomes of marking together: not found exactly when the caller owns no such goal, unsaved only when the item is missing, saved only for the found goal with the item marked |
| GoalEndpoints.GroupByDayExact | Controllers/GoalController.cs:128-130 | every task's day is a key of the grouping, and a task sits under a key exactly when the key is its own "yyyy-MM-dd" day |
| GoalEndpoints.GoalController.constructor | Controllers/GoalController.cs:13-16 | the controller works on the given goal store |
| GoalEndpoints.GoalController.GetGoals | Controllers/GoalController.cs:19-26 | no session user is Unauthorized and writes nothing; an unreadable file is a server error; otherwise the answer is the caller's goals after the overdue and streak refresh |
| GoalEndpoints.GoalController.CreateGoal | Controllers/GoalController.cs:29-47 | no session user is Unauthorized; a goal shorter than 2 days with a title over 20 characters is rejected with the "not realistic" message and nothing is written; otherwise the goal, stamped with the caller and the creation time, is added with its generated tasks and milestones |
| GoalEndpoints.GoalController.MarkDone | Controllers/GoalController.cs:50-89 | UpdateMilestone and UpdateDailyTask: Unauthorized without a session user, not found without a caller's goal of that id, and otherwise the goal is saved with the item marked and the progress rule applied only when the item was found |
| GoalEndpoints.GoalController.DeleteGoal | Controllers/GoalController.cs:92-99 | Unauthorized without a session user; otherwise the store loses exactly the caller's goals with that id and nothing else |
| GoalEndpoints.GoalController.TaskAction | Controllers/GoalController.cs:102-109 | Unauthorized without a session user; otherwise the answer and the saved file are those of the service's task action (no goal: nothing saved) |
| GoalEndpoints.GoalController.RedistributeTasks | Controllers/GoalController.cs:112-119 | Unauthorized without a session user; otherwise the answer and the saved file are those of the service's redistribution (no goal or nothing missed: nothing saved) |
| GoalEndpoints.GoalController.UpdateDailyTaskDetail | Controllers/GoalController.cs:136-145 | Unauthorized without a session user; an unknown goal or task answers NotFound with "Task not found." and saves nothing; otherwise the edited goal is saved and returned |
| GoalEndpoints.GoalController.GetDailyTasks | Controllers/GoalController.cs:122-133 | Unauthorized without a session user; otherwise the caller's goal's tasks grouped by their "yyyy-MM-dd" day |
| GoalRules.DoneCount | Services/GoalService.cs:137 | the number of completed tasks is at most the number of tasks |
| GoalRules.ProgressStatus | Services/GoalService.cs:137-148 | "Completed" exactly when every task is done (also when there are none), "In Progress" exactly when some but not all are, "Not Started" exactly when none of several are |
| GoalRules.ScheduleFor | Services/GoalService.cs:105-106 | the schedule status is "Completed" exactly when the goal's status is, and "On Track" otherwise |
| GoalRules.StreakBackIsRun | Services/GoalService.cs:68-85 | the streak counted back from a day covers only fully completed days, and the day it stops at is not fully completed (no tasks or an unfinished one) |
| GoalRules.CurrentState | Services/GoalService.cs:53-111 | a goal without tasks is untouched; otherwise its streak is the run back from yesterday plus today when today is done, its schedule status follows its status, and no other field changes |
| GoalRules.CalculateCurrentState | Services/GoalService.cs:53-111 | the loop computes the current state, and reports a change exactly when the goal changed |
| GoalRules.RecalculateProgress | Services/GoalService.cs:137-155 | the goal after the progress rule: status from the done count, then overdue when unfinished past the end date, then the current state |
| GoalRules.ProgressRuleOutcome | Services/GoalService.cs:137-155 | the progress rule gives "Completed" exactly when all tasks are done, "Overdue" exactly when unfinished past the end date, "In Progress" or "Not Started" otherwise, and leaves the goal's other fields alone |
| GoalRules.RefreshGoal | Services/GoalService.cs:32-43 | the listing's refresh marks an unfinished goal past its end date as "Overdue", then recomputes the current state, and reports a change exactly when the goal changed |
| GoalRules.EditTasksKeepsOneTaskPerDay | Services/GoalService.cs:199-235 | every task action (add, edit, delete) keeps at most one task per day |
| GoalRules.AddOnTakenDayReturnsEarly | Services/GoalService.cs:201-208 | "add_to_date" on a day that already has a task returns early and adds nothing |
| GoalRules.MissedCount | Services/GoalService.cs:259-260 | no missed tasks exactly when no task is unfinished before today |
| GoalRules.InsertDay | Services/GoalService.cs:262-266 | inserting a day into an increasing list of days keeps it increasing and adds exactly that day |
| GoalRules.FutureDays | Services/GoalService.cs:262-266 | the future days are increasing, are all task dates on or after today, and include every such task date |
| GoalRules.Slot | Services/GoalService.cs:268-280 | a moved task's day is on or after today, and is one of the future days when there are any |
| GoalRules.MovedTask | Services/GoalService.cs:268-280 | a task after the move is never missed |
| GoalRules.Redistribution | Services/GoalService.cs:268-280 | every task keeps its place, and each missed task takes the future day of its rank among the missed tasks, round robin |
| GoalRules.RedistributeDates | Services/GoalService.cs:268-280 | the loop with the day index computes the redistribution, after which no task is missed |
| GoalRules.RedistributedTasks | Services/GoalService.cs:259-282 | nothing is done exactly when no task is missed; otherwise the result holds the redistributed tasks, reordered by date |
| GoalRules.NoMissedAfterRedistribution | Services/GoalService.cs:259-282 | redistribution keeps the number of tasks, leaves no task missed and keeps every task that was not missed |
| GoalRules.Duration | Services/GoalService.cs:314-315 | the duration is at least one day and is the day difference when the end is after the start |
| GoalRules.MilestoneCount | Services/GoalService.cs:317-321 | between 1 and 8 milestones, never more than the duration |
| GoalRules.Interval | Services/GoalService.cs:323-324 | the interval is at least one day, and that many milestones at that interval fit in the duration |
| GoalRules.MilestoneOffset | Services/GoalService.cs:332 | a milestone's offset from the start never passes the duration |
| GoalRules.GenerateSmartMilestones | Services/GoalService.cs:311-338 | the loop yields the milestone list the generation rule describes, with the last due date raised to the end date |
| GoalRules.MilestoneDatesOrdered | Services/GoalService.cs:326-336 | milestone due dates never go backwards, all fall after the start, and the last is never before the end date |
| GoalRules.GenerateMonthlyTaskStructure | Services/GoalService.cs:340-359 | the loop yields one unfinished task per day of the start date's month, for the goal and user given |
| GoalRules.MonthlyStructureDays | Services/GoalService.cs:343-357 | the structure has 28 to 31 tasks on consecutive days, none done, one per day, and its month holds the start date |
| Activity.LoadVisits | Services/UserActivityService.cs:28-43 | a file that parses gives its visits; a missing, blank, `null` or unreadable file gives no visits |
| Activity.DisplayFor | Services/UserActivityService.cs:53-70 | the caption "Last 7 Days" is shown exactly for that range; the other ranges show a date |
| Activity.Emails | Services/UserActivityService.cs:74-75 | the groups' keys: every visiting email once, and no other |
| Activity.Latest | Services/UserActivityService.cs:80 | the latest visit time of the user: one of their visit times, and no earlier than any other |
| Activity.StatFor | Services/UserActivityService.cs:76-81 | a group's statistic: the user's email, the positive number of their visits, and their latest visit time |
| Activity.StatsFor | Services/UserActivityService.cs:76-81 | one statistic per listed email, in the same order |
| Activity.UserStats | Services/UserActivityService.cs:74-83 | the statistics are ordered by last-seen time, latest first |
| Activity.UserStatsTies | Services/UserActivityService.cs:74-83 | statistics with the same last-seen time keep the order of the groups |
| Activity.StatMeaning | Services/UserActivityService.cs:76-81 | each statistic gives its user's visit count and a last-seen time that is one of their visits and no earlier than any |
| Activity.StatIsGroup | Services/UserActivityService.cs:74-81 | each statistic is the group of a user who visited |
| Activity.EveryUserListed | Services/UserActivityService.cs:74-75 | every user of the kept visits has a statistic |
| Activity.UsersAreDistinctEmails | Services/UserActivityService.cs:74-88 | TotalUniqueUsers is the number of distinct emails among the kept visits |
| Activity.CountsAddUp | Services/UserActivityService.cs:79-89 | the visit counts of the statistics add up to the number of kept visits |
| Activity.Report | Services/UserActivityService.cs:45-92 | the report counts the visits in the chosen range, shows the range's caption, and has as many unique users as statistics |
| Activity.ReportIsConsistent | Services/UserActivityService.cs:72-91 | the report's statistics are those of the kept visits, its unique users their distinct emails, and its visit counts add up to its total |
| Activity.Last7DaysCoversTodayAndYesterday | Services/UserActivityService.cs:53-68 | the last-seven-days report counts at least today's and yesterday's visits together |
| Activity.LogVisitOn | Services/UserActivityService.cs:20-26 | the earlier visits are kept in order and the new visit is appended with the user, the page and the clock reading |
| Activity.LoggedVisitIsReported | Services/UserActivityService.cs:20-92 | a visit just logged adds one to today's total and its user appears in today's statistics |
| Activity.ActivityService.constructor | Services/UserActivityService.cs:10-13 | the service starts on the given file |
| Activity.ActivityService.LogVisit | Services/UserActivityService.cs:20-26 | the file is rewritten with the loaded visits plus the new one |
| Activity.ActivityService.GetReport | Services/UserActivityService.cs:45-92 | the report never counts more visits than the file holds, and shows the seven-day caption exactly for that range |
| Otp.SixDigits | Services/OtpService.cs:7-11 | every number the draw can give prints as six digits |
| Otp.GenerateOtp | Services/OtpService.cs:7-11 | the code is six decimal digits without a leading zero and reads back as the drawn number |
| Otp.OtpAcceptance | Services/OtpService.cs:13-16 | the stored code is accepted up to and including the expiry instant and not a moment after, and any other code is refused |
| Auth.UserExistsIn | Services/AuthService.cs:59-63 | true exactly when some student has the email, compared exactly |
| Auth.AnyAdminIn | Services/AuthService.cs:65-69 | true exactly when some student has the role "Admin" |
| Auth.ValidateIn | Services/AuthService.cs:73-94 | "Account not found." exactly when no student has the email; otherwise the first student with the email is accepted when the password verifies against theirs and refused with "Incorrect password." when it does not |
| Auth.RegisterIn | Services/AuthService.cs:42-57 | a taken email registers nothing; otherwise one student is appended with the email, the hashed password, the given profile and role, and an id no student had |
| Auth.RegisterKeepsEmailsUnique | Services/AuthService.cs:42-57 | registering keeps every email on at most one student, and the new email then exists |
| Auth.RegisterThenValidate | Services/AuthService.cs:42-94 | a student just registered signs in with the same password and is the new record |
| Auth.ResetIsDisabled | Services/AuthService.cs:108-110 | the reset token is empty, and no token validates and no reset succeeds |
| Auth.RegisterFile | Services/AuthService.cs:42-57 | registration fails with the load when the file cannot be read, leaves the file alone unless it succeeds, and succeeds exactly when the email is new, which it then is not |
| Auth.AuthService.constructor | Services/AuthService.cs:16-20 | the service uses the given student store |
| Auth.AuthService.UserExists | Services/AuthService.cs:59-63 | a load failure propagates; otherwise true exactly when a loaded student has the email |
| Auth.AuthService.AnyAdminExists | Services/AuthService.cs:65-69 | a load failure propagates; otherwise true exactly when a loaded student is an admin |
| Auth.AuthService.ValidateStudent | Services/AuthService.cs:73-94 | a load failure propagates; otherwise the verdict of ValidateIn on the loaded students |
| Auth.AuthService.RegisterStudent | Services/AuthService.cs:42-57 | a load failure propagates and changes nothing; a taken email returns false and changes nothing; a new one returns true and stores the list with the new student |
| AccountPages.SignUpSession | Controllers/AccountController.cs:38-49 | sign-up adds exactly the five pending keys: purpose "Registration", the generated code, and an expiry that parses back to two minutes after now |
| AccountPages.OtpDispatch | Controllers/AccountController.cs:76-153 | a code is rejected exactly when the expiry does not parse or the code is wrong or late, with "OTP has expired" when late and "Invalid OTP" otherwise; an accepted code removes every OTP key, registers and signs in the pending email, or signs in as student or admin according to the pending user type |
| AccountPages.SignUpThenVerify | Controllers/AccountController.cs:31-103 | verifying the code that sign-up stored registers the pending email and password when it arrives within two minutes, and is rejected as expired after that |
| AccountPages.AccountController.constructor | Controllers/AccountController.cs:16-21 | the controller starts on the given auth service and session |
| AccountPages.AccountController.SignUp | Controllers/AccountController.cs:31-57 | an invalid form or a known email leaves the session alone and shows the page (with "User already exists" for a known email); a new email stores the sign-up keys and redirects to VerifyOtp; a failing store surfaces as an exception |
| AccountPages.AccountController.VerifyOtpPage | Controllers/AccountController.cs:62-70 | the page redirects to Login exactly when no email is pending |
| AccountPages.AccountController.VerifyOtp | Controllers/AccountController.cs:74-153 | the outcome of OtpDispatch is carried out: a rejection shows its message and changes nothing, a sign-in sets the session, a registration adds the student to the store and signs them in |
| AccountPages.AccountController.LoginPage | Controllers/AccountController.cs:158-166 | the dashboard is shown exactly when an admin or a student is signed in |
| AccountPages.AccountController.Login | Controllers/AccountController.cs:170-202 | an accepted admin or student is signed in under the matching key; otherwise the page shows the error for an unknown email or a wrong password and the session is unchanged |
| AccountPages.AccountController.StudentLoginPage | Controllers/AccountController.cs:207-214 | the dashboard is shown exactly when a student is signed in |
| AccountPages.AccountController.StudentLogin | Controllers/AccountController.cs:218-241 | an accepted student is signed in; otherwise the page shows the error for an unknown email or a wrong password and the session is unchanged |
| AccountPages.AccountController.Logout | Controllers/AccountController.cs:244-247 | the session is emptied and the user is sent to Login |
| AccountPages.AccountController.ForgotPassword | Controllers/AccountController.cs:257-275 | a valid form shows the reset-sent message for a known email and the not-found message otherwise |
| AccountPages.AccountController.ResetPasswordPage | Controllers/AccountController.cs:279-292 | every request is sent back to Login, since the token check always fails |
| AccountPages.AccountController.ResetPasswordPost | Controllers/AccountController.cs:296-307 | a valid form always gets the invalid-token error |
| AccountPages.LoginErrorMeaning | Controllers/AccountController.cs:189-199 | after a refused sign-in, "Email not registered" is shown exactly when no account has the email, and "Incorrect password" exactly when one has |
| StudentPages.PinError | Controllers/StudentsController.cs:87-98 | no error exactly when no PIN was given or it matches its confirmation and has 4 to 6 characters; the mismatch message exactly when a PIN differs from its confirmation |
| StudentPages.CourseFor | Controllers/StudentsController.cs:229-230 | admins are always in "Administration", an empty course becomes "General", and any other course is kept |
| StudentPages.WithPin | Controllers/StudentsController.cs:99-110 | the PIN key is set to a non-empty PIN and removed otherwise, and no other key changes |
| StudentPages.WithCode | Controllers/StudentsController.cs:112-114 | the code, its purpose and an expiry two minutes from now are parked, and no other key changes |
| StudentPages.AdminPendingSession | Controllers/StudentsController.cs:99-114 | the accepted admin form parks email, password, name, the "AdminCreation" code with its expiry, and the PIN exactly when one was given; nothing else changes |
| StudentPages.NewAdmin | Controllers/StudentsController.cs:155-169 | the new admin has the pending credentials, age 25, course "Administration", role "Admin", and security on with the PIN's hash exactly when a PIN was pending |
| StudentPages.AdminOtpDispatch | Controllers/StudentsController.cs:142-198 | an admin is created exactly when the expiry reads back, the purpose is "AdminCreation" and the code is valid, and then every pending key is cleared; "Invalid Session" exactly when the expiry does not read or the purpose is another |
| StudentPages.CreateAdminThenVerify | Controllers/StudentsController.cs:66-199 | the code parked by the admin form, entered before it expires, creates exactly that admin and clears every pending key |
| StudentPages.StudentFormSession | Controllers/StudentsController.cs:243-255 | the form fields are parked under their keys and no other key changes |
| StudentPages.StudentPendingSessionKeys | Controllers/StudentsController.cs:243-294 | the accepted form leaves the "StudentCreation" code, the form fields, and the PIN exactly when one was given |
| StudentPages.FormKeepsPin | Controllers/StudentsController.cs:284-290 | parking the form again does not touch the PIN key |
| StudentPages.CodeKeepsForm | Controllers/StudentsController.cs:292-294 | parking the code leaves the form fields and the PIN as they were |
| StudentPages.CreateThenVerifyOtp | Controllers/StudentsController.cs:217-296 | the code parked by the student form, entered before it expires, registers an account with exactly the parked email, password, name, age and course |
| StudentPages.EditRecord | Controllers/StudentsController.cs:351-367 | the edited account keeps its id, takes the form's fields and widgets, gets the new PIN's hash and security on when a PIN was given and keeps its own otherwise, and its course follows the role rule |
| StudentPages.EditAsWrittenDropsPin | Controllers/StudentsController.cs:359-371 | as written, whenever the account found by the form's id is edited with a PIN whose hash differs from the stored one, UpdateStudent saves it under that id with the old PIN hash and the old security flag, not the new PIN's hash |
| StudentPages.EditStoresPin | Controllers/StudentsController.cs:359-371 | corrected, an account edited with a PIN is stored with that PIN's hash and security on |
| StudentPages.StudentsController.constructor | Controllers/StudentsController.cs:16-23 | the controller works on the given store, auth service, visit log and session |
| StudentPages.StudentsController.DailyActivity | Controllers/StudentsController.cs:25-33 | a signed-out caller goes to Login (BaseController's gate); otherwise, whatever the role, "Custom" without a date reports on today's UTC date, and any other request gets the visit log's report for the filter and date given |
| StudentPages.StudentsController.Index | Controllers/StudentsController.cs:45-50 | a signed-out caller goes to Login (BaseController's gate); any other non-admin is sent to AccessDenied; an admin sees the whole account list |
| StudentPages.StudentsController.ShowStudent | Controllers/StudentsController.cs:303-313 | a signed-out caller goes to Login (BaseController's gate); any other non-admin is sent to AccessDenied; an unknown id is NotFound; otherwise the stored account with that id is shown |
| StudentPages.StudentsController.CreateAdminPage | Controllers/StudentsController.cs:53-63 | a signed-out caller goes to Login (BaseController's gate) and any other non-admin to AccessDenied, the session unchanged; otherwise a pending admin email and PIN are cleared |
| StudentPages.StudentsController.CreateAdmin | Controllers/StudentsController.cs:66-125 | a signed-out caller goes to Login (BaseController's gate) and any other non-admin to AccessDenied; a missing email or password, an existing user or a bad PIN re-shows the form with its message and parks nothing; otherwise the admin form and code are parked and the code page follows |
| StudentPages.StudentsController.VerifyAdminOtpPage | Controllers/StudentsController.cs:128-136 | a signed-out caller goes to Login (BaseController's gate) and any other non-admin to AccessDenied; back to the list exactly when no admin email is pending |
| StudentPages.StudentsController.VerifyAdminOtp | Controllers/StudentsController.cs:139-199 | a signed-out caller goes to Login (BaseController's gate) and any other non-admin to AccessDenied, with nothing handed over; otherwise a valid code hands the pending admin record to RegisterStudent(Student), which leaves the store unchanged in the model, clears the pending keys and goes to the list, and any other code re-shows the page with its message and changes nothing |
| StudentPages.StudentsController.CreatePage | Controllers/StudentsController.cs:202-214 | a signed-out caller goes to Login (BaseController's gate) and any other non-admin to AccessDenied; otherwise a pending email, name and PIN are cleared |
| StudentPages.StudentsController.Create | Controllers/StudentsController.cs:217-301 | a signed-out caller goes to Login (BaseController's gate) and any other non-admin to AccessDenied; an invalid form or an existing email re-shows the form; otherwise the form is parked, and the code with it unless the PIN is bad |
| StudentPages.StudentsController.ParkStudentForm | Controllers/StudentsController.cs:242-296 | the form is parked first; a bad PIN then stops with its message, and otherwise the PIN and the "StudentCreation" code are parked and the code page follows |
| StudentPages.StudentsController.Edit | Controllers/StudentsController.cs:316-383 | a signed-out caller goes to Login (BaseController's gate) and any other non-admin to AccessDenied, with nothing saved; a bad PIN or an invalid form changes nothing and shows the form; an unknown id goes back to the list; otherwise the rebuilt account is saved through UpdateStudent, so the file is UpdateIn's list (the stored PIN hash and security flag kept), and the list follows |
| StudentPages.StudentsController.EditCorrected | Controllers/StudentsController.cs:316-383 | the corrected Edit: the same outcomes (a signed-out caller goes to Login (BaseController's gate), any other non-admin to AccessDenied), but the rebuilt account is saved with its security fields, so the file is UpdateWithSecurityIn's list and a new PIN is kept |
| StudentPages.StudentsController.DeleteConfirmed | Controllers/StudentsController.cs:410-416 | a signed-out caller goes to Login (BaseController's gate) and any other non-admin to AccessDenied, with nothing removed; otherwise the account with that id is removed, when there is one, and the list follows |
| AuthorizeRole.Decide | Attributes/AuthorizeRoleAttribute.cs:19-57 | a session with no role, admin or student set goes to Login; otherwise the action proceeds exactly when the role (or "Admin" for a signed-in admin, "User" for a signed-in student, in that order of fallback) is the required one, and is denied access otherwise |
| BrowserLanguage.Item | Services/BrowserLanguageProvider.cs:27 | an item is cut at its first ';', so no parameter such as q=0.8 remains |
| BrowserLanguage.Items | Services/BrowserLanguageProvider.cs:26-27 | one cut item per comma-separated part, in header order |
| BrowserLanguage.CutItems | Services/BrowserLanguageProvider.cs:27-28 | every kept item is a non-empty language range |
| BrowserLanguage.Ranges | Services/BrowserLanguageProvider.cs:26-29 | the header's language ranges, each non-empty, in header order |
| BrowserLanguage.PrimaryTag | Services/BrowserLanguageProvider.cs:34 | the primary subtag holds no '-' and no upper-case letter |
| BrowserLanguage.Choose | Services/BrowserLanguageProvider.cs:31-42 | the result is one of "en", "hi", "gu": the primary tag of the first supported range, or "en" when no range is supported |
| BrowserLanguage.DetermineCulture | Services/BrowserLanguageProvider.cs:19-43 | no culture exactly for an empty header; otherwise the choice among the header's ranges |
| BrowserLanguage.LeadingItemDecides | Services/BrowserLanguageProvider.cs:26-38 | a supported first item decides the culture whatever follows it |
| BrowserLanguage.FallbackWhenNoneSupported | Services/BrowserLanguageProvider.cs:41-42 | a header naming no supported language gives "en" |
| BrowserLanguage.UnsupportedFallsBackToEnglish | Services/BrowserLanguageProvider.cs:25-42 | the header "fr-FR,de;q=0.5" gives "en" |
| PdfWriter.Ascii | Controllers/ToolsController.cs:217-247 | the ASCII encoding gives one byte per character |
| PdfWriter.PageSize | Controllers/ToolsController.cs:181-185 | the page is 612 by 792 for "Letter" and 595 by 842 otherwise, and is wider than tall exactly for "Landscape" |
| PdfWriter.Kids | Controllers/ToolsController.cs:352 | the page tree lists one "id 0 R" reference per page, in page order |
| PdfWriter.FileObjects | Controllers/ToolsController.cs:252-328 | a file contributes as many objects as it takes numbers: page and content stream, plus the image of a JPEG |
| PdfWriter.ObjectCountValue | Controllers/ToolsController.cs:252-265 | the files take two object numbers each, plus one more per JPEG |
| PdfWriter.Range | Controllers/ToolsController.cs:368 | the numbers from the lower bound up to, and not including, the upper one |
| PdfWriter.LayoutShape | Controllers/ToolsController.cs:230-329 | after the build loop the numbers from the font up are used without a gap, /Size is 4 plus the files' objects, and page k is numbered after the objects of the earlier files and shows file k |
| PdfWriter.StepShape | Controllers/ToolsController.cs:249-329 | one more file keeps that numbering shape |
| PdfWriter.AddImageExtends | Controllers/ToolsController.cs:257-308 | a JPEG's page, content stream and image take the next numbers and nothing earlier changes |
| PdfWriter.AddTextExtends | Controllers/ToolsController.cs:310-328 | a text file's page and content stream take the next numbers and nothing earlier changes |
| PdfWriter.ExtendsShape | Controllers/ToolsController.cs:249-329 | a file's objects placed at the next numbers keep the numbering shape |
| PdfWriter.LastPageAdded | Controllers/ToolsController.cs:252-253 | the page of the file just added is numbered after all earlier objects and holds its objects |
| PdfWriter.EarlierPageKept | Controllers/ToolsController.cs:249-329 | the pages of earlier files keep their numbers and their objects |
| PdfWriter.ExtendsCovers | Controllers/ToolsController.cs:249-329 | placing objects at the next numbers keeps every used number from the font up filled |
| PdfWriter.Bodies | Controllers/ToolsController.cs:347-360 | the objects in number order: catalog, page tree, then each stored body under its own number |
| PdfWriter.BodiesInOrder | Controllers/ToolsController.cs:356-360 | ordering the stored bodies by key lists object k + 1 at position k |
| PdfWriter.Offsets | Controllers/ToolsController.cs:337-345 | each object's offset is the header length plus the bytes of all objects written before it |
| PdfWriter.OutputStream.constructor | Controllers/ToolsController.cs:216 | a new stream is empty |
| PdfWriter.OutputStream.Write | Controllers/ToolsController.cs:342 | writing appends the data to the stream |
| PdfWriter.WriteObj | Controllers/ToolsController.cs:337-345 | the object's offset is the stream position before it, and the stream grows by "id 0 obj", the body and "endobj" |
| PdfWriter.WriteStep | Controllers/ToolsController.cs:337-360 | writing object id after objects 1 to id - 1 gives objects 1 to id, starting at its offset |
| PdfWriter.BuildObjects | Controllers/ToolsController.cs:230-329 | the build loop numbers the objects and fills their bodies as the layout of the files describes |
| PdfWriter.WriteObjects | Controllers/ToolsController.cs:347-360 | the stream gets every object in number order, and the offset of each is noted where it starts |
| PdfWriter.WriteBodies | Controllers/ToolsController.cs:357-360 | the loop over the bodies writes objects 3 onwards in key order and notes each offset |
| PdfWriter.WriteXref | Controllers/ToolsController.cs:363-374 | the table has the keyword, the subsection 0 to /Size - 1, the free entry 0, and one in-use entry per object giving its noted offset; with every offset below 10^10 the entries take exactly twenty bytes each |
| PdfWriter.XrefEntryLength | Controllers/ToolsController.cs:363-374 | an in-use entry for an offset below 10^10 is exactly twenty bytes, as the cross-reference format requires |
| PdfWriter.XrefEntriesLength | Controllers/ToolsController.cs:363-374 | with every offset below 10^10, the in-use entries take twenty bytes per object |
| PdfWriter.WriteDocument | Controllers/ToolsController.cs:347-379 | after the header the stream holds the objects, the cross-reference table and the trailer, exactly the file the layout describes |
| PdfWriter.GeneratePdf | Controllers/ToolsController.cs:178-383 | the bytes returned are the header, the numbered objects, a cross-reference table whose entries are those objects' offsets, and the trailer pointing at the table |
| PdfText.NormalizeNewlines | Controllers/ToolsController.cs:431 | replacing CR LF by LF never lengthens the text, keeps the number of line feeds and leaves a text without CR as it is |
| PdfText.SplitCount | Controllers/ToolsController.cs:434 | splitting on a separator gives one part more than the separators |
| PdfText.LinesCount | Controllers/ToolsController.cs:431-434 | the text has one line more than it has line feeds |
| PdfText.Chunks | Controllers/ToolsController.cs:437-443 | a line is cut into pieces of 90 characters, all full but the last, that join back to the line |
| PdfText.AllChunks | Controllers/ToolsController.cs:434-443 | the pieces of all lines, in order, join back to the lines |
| PdfText.Escape | Controllers/ToolsController.cs:445 | escaping never shortens a piece |
| PdfText.EscapeRoundTrip | Controllers/ToolsController.cs:445 | a PDF reader gets back exactly the piece, and the escaped piece cannot end its literal string early |
| PdfText.ReplaceOrderIsEscape | Controllers/ToolsController.cs:445 | the three replacements in their order (backslash first) escape each character once |
| PdfText.Shown | Controllers/ToolsController.cs:433-458 | the page shows the first pieces of the text, at most 54, and all of them when there are no more than 54 |
| PdfText.ShortTextShownWhole | Controllers/ToolsController.cs:433-458 | a text of at most 54 pieces is shown whole |
| PdfText.LongTextClipped | Controllers/ToolsController.cs:448-457 | a longer text shows exactly 54 pieces of at most 90 characters and the rest is clipped |
| PdfText.ShownWhenStopped | Controllers/ToolsController.cs:449-457 | when the loops stop, what was shown is exactly the clipped text |
| PdfText.WrapLine | Controllers/ToolsController.cs:437-456 | the wrapping loop for one line appends each piece as a "Tj T*" line and lowers y by 14 each time, and stops early only when 54 lines are out |
| PdfText.FormatTextToPdfStream | Controllers/ToolsController.cs:424-461 | the content stream is the text header, the shown pieces escaped, one per line, and "ET" |
| Jpeg.NextFF | Controllers/ToolsController.cs:396 | the first index from the start holding 0xFF, or the end |
| Jpeg.Word | Controllers/ToolsController.cs:405-413 | a big-endian 16-bit field is below 65536 |
| Jpeg.PassFrom | Controllers/ToolsController.cs:393-418 | one pass either answers (the fallback or a 16-bit size) or moves on by at least two bytes |
| Jpeg.ScanFrom | Controllers/ToolsController.cs:393-421 | the scan answers the fallback or a 16-bit size |
| Jpeg.JpegDimensions | Controllers/ToolsController.cs:385-422 | bytes that do not start with SOI give the 500 by 500 fallback; any answer is the fallback or a 16-bit size |
| Jpeg.FrameHeaderFirst | Controllers/ToolsController.cs:408-414 | a frame header (SOF0 or SOF2) right after SOI gives its width and height as they stand |
| Jpeg.LeadingSegmentSkipped | Controllers/ToolsController.cs:404-417 | any other marker segment right after SOI is skipped by its length |
| Jpeg.BaselineHeaderRead | Controllers/ToolsController.cs:408-414 | a baseline header right after SOI giving 480 by 640 reads as width 640, height 480 |
| Jpeg.SegmentSkipped | Controllers/ToolsController.cs:401-417 | an APP0 segment ahead of a progressive header is skipped and the header read |
| Jpeg.SkipToMarker | Controllers/ToolsController.cs:396 | the inner loop stops at the next 0xFF byte or the end |
| Jpeg.OnePass | Controllers/ToolsController.cs:393-418 | the outer loop's body does one pass as described |
| Jpeg.GetJpegDimensions | Controllers/ToolsController.cs:385-422 | the probe answers the frame size the scan describes |
| TimeTrackerPages.CurrentUserEmail | Controllers/TimeTrackerController.cs:161-169 | nobody exactly when both session keys are unset or empty; otherwise a non-empty email, the admin's taking precedence |
| TimeTrackerPages.WindowOf | Controllers/TimeTrackerController.cs:36-57 | a custom filter keeps both of its optional bounds |
| TimeTrackerPages.Windowed | Controllers/TimeTrackerController.cs:36-59 | the listed entries are exactly those of the user that fall in the window |
| TimeTrackerPages.WindowedCounts | Controllers/TimeTrackerController.cs:36-59 | each entry in the window is listed as often as it appears in the user's listing, and no other entry is listed |
| TimeTrackerPages.WindowedSnoc | Controllers/TimeTrackerController.cs:36-59 | the window keeps the listing's order: an empty listing gives nothing, and one more entry at the end is listed at the end exactly when it falls in the window |
| TimeTrackerPages.WindowedLatestFirst | Controllers/TimeTrackerController.cs:36-59 | a listing that is latest start first stays so after the window filter |
| TimeTrackerPages.FilterIgnoresCase | Controllers/TimeTrackerController.cs:36 | filter names are matched case-insensitively |
| TimeTrackerPages.LowerTwice | Controllers/TimeTrackerController.cs:36 | lower-casing is idempotent |
| TimeTrackerPages.WeekCoversRecentDays | Controllers/TimeTrackerController.cs:38-46 | whatever the today or yesterday filter lists, the week filter lists too |
| TimeTrackerPages.UnboundedCustomKeepsAll | Controllers/TimeTrackerController.cs:47-52 | a custom filter with neither bound lists everything |
| TimeTrackerPages.CustomOfOneDayIsToday | Controllers/TimeTrackerController.cs:38-52 | a custom filter from today to today lists the same as the today filter |
| TimeTrackerPages.Names | Controllers/TimeTrackerController.cs:66 | one task name per entry, in order |
| TimeTrackerPages.Totals | Controllers/TimeTrackerController.cs:65-70 | one labelled total per task name, each the sum of that task's durations |
| TimeTrackerPages.Breakdown | Controllers/TimeTrackerController.cs:65-70 | fails exactly when two groups would get the same dictionary key; otherwise the keys are distinct |
| TimeTrackerPages.BreakdownLines | Controllers/TimeTrackerController.cs:62-70 | every task of today has its line and every line is the total of a task of today |
| TimeTrackerPages.TaskHasLine | Controllers/TimeTrackerController.cs:65-70 | each of today's tasks has its line in the breakdown |
| TimeTrackerPages.LineHasTask | Controllers/TimeTrackerController.cs:65-70 | each breakdown line belongs to one of today's tasks |
| TimeTrackerPages.BreakdownAddsUp | Controllers/TimeTrackerController.cs:62-70 | the breakdown's seconds add up to the day's total |
| TimeTrackerPages.TotalsAddUp | Controllers/TimeTrackerController.cs:63-70 | with distinct names covering every entry, the per-name totals add up to the sum of all durations |
| TimeTrackerPages.TotalsOfNothing | Controllers/TimeTrackerController.cs:69 | no entries give zero seconds in every group |
| TimeTrackerPages.TotalsCons | Controllers/TimeTrackerController.cs:69 | one more entry adds its duration to its own group's total and to no other |
| TimeTrackerPages.RecentTasks | Controllers/TimeTrackerController.cs:156-157 | at most five distinct names, each the name of one of the entries, a prefix of the distinct names in order, and all of them when fewer than five |
| TimeTrackerPages.LatestTaskFirst | Controllers/TimeTrackerController.cs:156-157 | the first recent task is the task of the latest-started entry |
| TimeTrackerPages.Clamp | Controllers/TimeTrackerController.cs:115 | a negative duration becomes 0; any other stays |
| TimeTrackerPages.ManualEntry | Controllers/TimeTrackerController.cs:102-115 | an end without a duration gives the clamped span; a duration without an end gives the end; otherwise only the clamp applies; id, task and start stay and the owner is the session's |
| TimeTrackerPages.ManualEntryCompletes | Controllers/TimeTrackerController.cs:104-113 | whichever of end or duration is given, the stored entry's duration spans exactly from its start to its end |
| TimeTrackerPages.EditedEntry | Controllers/TimeTrackerController.cs:127-134 | the duration is the clamped span when there is an end, else the clamped posted duration; nothing else but the owner changes |
| TimeTrackerPages.EditIsStable | Controllers/TimeTrackerController.cs:127-134 | editing an edited entry again changes nothing, and an end not before the start is spanned exactly |
| TimeTrackerPages.TimeTrackerController.constructor | Controllers/TimeTrackerController.cs:12-15 | the controller starts on the given service and session |
| TimeTrackerPages.TimeTrackerController.Index | Controllers/TimeTrackerController.cs:19-83 | a signed-out caller goes to Login (BaseController's gate); otherwise the listed entries are exactly the user's entries in the filter's window, each as often as it is stored, latest start first, the total is today's and the breakdown adds up to it, or the page fails on a key clash |
| TimeTrackerPages.TimeTrackerController.SaveEntry | Controllers/TimeTrackerController.cs:85-94 | a signed-out caller goes to Login (BaseController's gate) with nothing stored; otherwise the entry under the session's email is appended |
| TimeTrackerPages.TimeTrackerController.AddManualEntry | Controllers/TimeTrackerController.cs:96-119 | a signed-out caller goes to Login (BaseController's gate) with nothing stored; otherwise the completed entry is appended |
| TimeTrackerPages.TimeTrackerController.UpdateEntry | Controllers/TimeTrackerController.cs:121-138 | a signed-out caller goes to Login (BaseController's gate) with nothing stored; otherwise the store applies the edited entry |
| TimeTrackerPages.TimeTrackerController.DeleteEntry | Controllers/TimeTrackerController.cs:140-148 | a signed-out caller goes to Login (BaseController's gate) with nothing stored; otherwise only that user's entry with the id can be removed |
| TimeTrackerPages.TimeTrackerController.GetRecentTasks | Controllers/TimeTrackerController.cs:150-159 | a signed-out caller goes to Login (BaseController's gate); otherwise the user's distinct task names in listing order, cut at five: no repeats, a prefix of the deduplicated names, each a task of the user's entries |
| Stopwatch.JsRem | wwwroot/js/timetracker.js:142-143 | JavaScript's remainder by a positive divisor: below the divisor in size, equal to the mathematical remainder for a non-negative dividend and never positive for a negative one |
| Stopwatch.FormatTimeReadsBack | wwwroot/js/timetracker.js:139-145 | the display "HH:MM:SS" of a non-negative time reads back as hours, minutes below 60 and seconds below 60 that add up to the whole seconds of the time |
| Stopwatch.ClockReads | wwwroot/js/timetracker.js:144 | three padded fields joined by colons read back as themselves when the last two are below 100 |
| Stopwatch.ClockSplit | wwwroot/js/timetracker.js:140-143 | hours, minutes of the remaining hour and seconds of the remaining minute make up the whole, with minutes and seconds below 60 |
| Stopwatch.Pad2Reads | wwwroot/js/timetracker.js:144 | a number padded to two digits reads back as itself, and is exactly two characters below 100 |
| Stopwatch.RunEnd | wwwroot/js/timetracker.js:177-184 | the end of the run of matching characters from a position: all before it match and the one at it does not |
| Stopwatch.Amount | wwwroot/js/timetracker.js:179-186 | parseFloat of a matched number: at least its whole part, and exactly that without a fraction |
| Stopwatch.TokenAt | wwwroot/js/timetracker.js:177-184 | a match at a position is digits, with optional digits after a point |
| Stopwatch.FirstMatch | wwwroot/js/timetracker.js:177-184 | what is found is a match at some position in the range |
| Stopwatch.FirstMatchNone | wwwroot/js/timetracker.js:177-184 | nothing is found exactly when nothing matches in the range |
| Stopwatch.FirstMatchLeftmost | wwwroot/js/timetracker.js:177-184 | what is found is the leftmost match |
| Stopwatch.FirstToken | wwwroot/js/timetracker.js:177-184 | the leftmost match of the hours or minutes pattern, digits with an optional fraction |
| Stopwatch.MinutesOf | wwwroot/js/timetracker.js:173-191 | no duration exactly when neither token was found; otherwise a non-negative number of whole minutes |
| Stopwatch.ParseDuration | wwwroot/js/timetracker.js:171-192 | no duration exactly when the text has neither an hours nor a minutes token; otherwise a non-negative number of minutes |
| Stopwatch.SingleTokenRead | wwwroot/js/timetracker.js:171-192 | a number followed by an hours unit reads as 60 times that many minutes, and by a minutes unit as that many minutes |
| Stopwatch.HoursOnly | wwwroot/js/timetracker.js:177-191 | a whole-number hours token and no minutes token gives 60 times the hours |
| Stopwatch.MinutesOnly | wwwroot/js/timetracker.js:184-191 | a whole-number minutes token and no hours token gives the minutes |
| Stopwatch.OneToken | wwwroot/js/timetracker.js:177-184 | in a number followed by a unit, that unit's pattern reads the number and the other pattern finds nothing |
| Stopwatch.UnitWord | wwwroot/js/timetracker.js:177-184 | the units are lower-case letters, and no unit is both an hours and a minutes unit |
| Stopwatch.NoTokenAnywhere | wwwroot/js/timetracker.js:177-184 | digits followed by a word that is not a unit match nowhere, since the unit must end at a word boundary |
| Stopwatch.TokenInDigits | wwwroot/js/timetracker.js:177-184 | from any digit of a number followed by a word, the pattern matches exactly when the word is a unit, reading the digits from there |
| Stopwatch.TokenPastDigits | wwwroot/js/timetracker.js:177-184 | the pattern cannot match at a position that does not hold a digit |
| Stopwatch.TargetOf | wwwroot/js/timetracker.js:208-209 | a target is set only when the parsed duration is positive |
| Stopwatch.Timer.constructor | wwwroot/js/timetracker.js:8-14 | the timer starts idle: not running, no start time, nothing accumulated, no name and no target |
| Stopwatch.Timer.Elapsed | wwwroot/js/timetracker.js:134-137 | a stopped timer shows the accumulated time; a running one adds the time since its start |
| Stopwatch.Timer.SetTaskName | wwwroot/js/timetracker.js:94-97 | the name is stored as typed and nothing else changes |
| Stopwatch.Timer.Start | wwwroot/js/timetracker.js:194-217 | nothing changes when already running or when the name is blank; otherwise the timer runs from now with the target the name announces, and the time shown does not jump |
| Stopwatch.Timer.Pause | wwwroot/js/timetracker.js:219-230 | a stopped timer is unchanged; a running one folds the running interval into the accumulated time and stops, and the time shown does not jump |
| Stopwatch.Timer.Stop | wwwroot/js/timetracker.js:232-258 | the posted entry holds the name, the whole seconds elapsed, a start that far before now and now as the end, and the timer is idle again |
| Stopwatch.Timer.Tick | wwwroot/js/timetracker.js:156-162 | a running timer that has reached its target stops and posts its entry; otherwise nothing changes and nothing is posted |
| Stopwatch.Timer.HandleUnload | wwwroot/js/timetracker.js:120-128 | leaving the site while running pauses the timer, keeping the time shown; internal navigation or a stopped timer changes nothing |
| SiteScripts.NewsParamsFor | wwwroot/js/site.js:216-242 | a language with a fixed edition gets it; any other gets itself as interface language, its mapped country (the US when unmapped) and the edition "country:language" |
| SiteScripts.CeidNamesRegion | wwwroot/js/site.js:216-242 | every edition id begins with its country, up to the first colon |
| SiteScripts.OverrideCeids | wwwroot/js/site.js:218-228 | each fixed edition id is its country, a colon and a suffix |
| SiteScripts.RegionShape | wwwroot/js/site.js:232-237 | every mapped country code is two letters without a colon |
| SiteScripts.OfferedLanguagesHaveEditions | wwwroot/js/site.js:34-65 | every language the picker offers has a fixed edition or a mapped country |
| SiteScripts.Search | wwwroot/js/site.js:186-193 | an entry is listed exactly when its lower-cased name or its code contains the lower-cased text typed, in registry order |
| SiteScripts.EmptySearchListsAll | wwwroot/js/site.js:186-193 | an empty box lists every language |
| SiteScripts.LongerSearchNarrows | wwwroot/js/site.js:186-193 | typing more (a text containing the earlier one) lists the earlier results that still match, in order |
| SiteScripts.SpaceCapitals | wwwroot/js/site.js:111 | every capital gets a space in front, so no capital starts the text or follows anything but a space |
| SiteScripts.SpacedKeyKeepsText | wwwroot/js/site.js:111 | the shim's label only adds or removes whitespace: the other characters are the key's, in order |
| SiteScripts.SpacedKeySeparatesWords | wwwroot/js/site.js:111 | in the label every capital after the first character follows a space |
| SiteScripts.SpaceCapitalsKeepsText | wwwroot/js/site.js:111 | spacing the capitals only adds whitespace |
| SiteScripts.TrimKeepsText | wwwroot/js/site.js:111 | trimming only removes whitespace |
| SiteScripts.SpaceCapitalsAppend | wwwroot/js/site.js:111 | the replacement works character by character, so it distributes over concatenation |
| SiteScripts.SpacedGlue | wwwroot/js/site.js:111 | before trimming, each capitalized word of a camel-case key gets a space in front |
| SiteScripts.CamelCaseReadsAsWords | wwwroot/js/site.js:111 | a key glued from capitalized words reads as those words joined by single spaces |
| SiteScripts.NewNoteExample | wwwroot/js/site.js:111 | "NewNote" reads "New Note" |
| ApiTranslation.Direction | wwwroot/js/translation-service.js:60-63 | "rtl" exactly for the six right-to-left languages, "ltr" for every other |
| ApiTranslation.FirstVisitLanguage | wwwroot/js/translation-service.js:35-37 | the detected language has no '-' and is no longer than the browser tag |
| ApiTranslation.FirstVisitDropsRegion | wwwroot/js/translation-service.js:35-37 | a tag with a region reads as its primary subtag in lower case |
| ApiTranslation.WithEntry | wwwroot/js/translation-service.js:288-291 | after a set the language has a table |
| ApiTranslation.CachedAfterSet | wwwroot/js/translation-service.js:284-291 | a get after a set returns what was set for that language and text, and what was there before for every other pair |
| ApiTranslation.StoreFromOtherLanguage | wwwroot/js/translation-service.js:265-268 | storing a reply leaves the other languages' tables unchanged |
| ApiTranslation.StoredChunkReadsBack | wwwroot/js/translation-service.js:265-268 | after a full reply for distinct texts, each text reads back as the translation at its index |
| ApiTranslation.StoreFromKeeps | wwwroot/js/translation-service.js:265-268 | storing later texts of a distinct chunk leaves an earlier text's entry alone |
| ApiTranslation.Pow2 | wwwroot/js/translation-service.js:275 | a power of two is at least one |
| ApiTranslation.RunFrom | wwwroot/js/translation-service.js:237-279 | each chunk gets at most three attempts, and one more is made whenever fewer than three were |
| ApiTranslation.BackoffValues | wwwroot/js/translation-service.js:275 | the back-off after attempts 1 and 2 is 2 s and 4 s |
| ApiTranslation.ScheduleFromEarlier | wwwroot/js/translation-service.js:273-276 | waits admissible after a later attempt are admissible after an earlier one |
| ApiTranslation.ScheduleAfterWait | wwwroot/js/translation-service.js:273-276 | the next attempt's back-off followed by later waits still grows |
| ApiTranslation.BackoffSchedule | wwwroot/js/translation-service.js:240-279 | every wait is followed by another attempt, none follows the last, and the waits are 2 s then 4 s, growing |
| ApiTranslation.RetryOnlyAfterRetryableFailure | wwwroot/js/translation-service.js:253-270 | an attempt is repeated only after a throw, a 5xx or 429 status, or a reply without translations, and a run with translations ends on the attempt that supplied them |
| ApiTranslation.FetchChunksCons | wwwroot/js/translation-service.js:235-280 | chunks are handled in order: the first chunk's run comes before the rest, and its waits come first |
| ApiTranslation.FetchStepKeeps | wwwroot/js/translation-service.js:235-280 | after one chunk's run the rest of the batch finishes the same way |
| ApiTranslation.FetchLeavesOtherLanguages | wwwroot/js/translation-service.js:231-282 | a batch leaves the other languages' tables unchanged |
| ApiTranslation.SingleTextFetched | wwwroot/js/translation-service.js:309-320 | one text answered on the first attempt is cached under the current language |
| ApiTranslation.RunStep | wwwroot/js/translation-service.js:240-279 | one attempt unfolded: translations end the run, a non-retryable status ends it, a retryable failure waits and retries |
| ApiTranslation.TranslationService.constructor | wwwroot/js/translation-service.js:7-40 | the stored language is kept; on a first visit the browser's primary language is taken and stored; the direction is set from the language before detection |
| ApiTranslation.TranslationService.ApplyDirection | wwwroot/js/translation-service.js:60-63 | the document direction and language follow the current language, nothing else changes |
| ApiTranslation.TranslationService.SetLanguage | wwwroot/js/translation-service.js:118-133 | the same language changes nothing; another is made current, stored, and sets direction and document language |
| ApiTranslation.TranslationService.SetCache | wwwroot/js/translation-service.js:288-291 | the cache gains the entry under the current language, nothing else changes |
| ApiTranslation.TranslationService.StoreTranslations | wwwroot/js/translation-service.js:265-268 | each translation of a reply is cached under the text at its index |
| ApiTranslation.TranslationService.TryChunk | wwwroot/js/translation-service.js:236-279 | the loop's waits and cache are those of the chunk's run |
| ApiTranslation.TranslationService.SaveCache | wwwroot/js/translation-service.js:293-307 | a refused save empties the in-memory cache; a successful one keeps it |
| ApiTranslation.TranslationService.FetchTranslations | wwwroot/js/translation-service.js:231-282 | the cache and waits are those of the chunks of 50 handled in order, then saved |
| ApiTranslation.TranslationService.TranslateText | wwwroot/js/translation-service.js:309-325 | blank text or English returns the text; a cached translation is returned; otherwise the text is fetched and its translation, or the text itself, returned |
| ApiTranslation.ShimT | wwwroot/js/translation-service.js:362-366 | a missing key gives "" |
| ApiTranslation.ShimAgreesWithPageScript | wwwroot/js/translation-service.js:365 | the shim spaces out capitals exactly as the page script's own `i18n.t` |
| TranslatorRules.StartLanguage | wwwroot/js/translator.js:25-29 | a saved language wins; otherwise the browser's first two letters when supported, else "en" |
| TranslatorRules.CollectibleMeans | wwwroot/js/translator.js:258-260 | a trimmed value is collected exactly when it holds a character that is neither digit nor listed symbol, or mixes digits with symbols |
| TranslatorRules.Collected | wwwroot/js/translator.js:249-267 | exactly the reached text nodes whose value is collectible are collected |
| TranslatorRules.RecordedStep | wwwroot/js/translator.js:262-264 | one more collected node records its value unless it already has an original |
| TranslatorRules.RecordedKeepsFirst | wwwroot/js/translator.js:262-264 | a recorded original never changes; a newly collected node records its value at that time |
| TranslatorRules.CacheKeyDiffers | wwwroot/js/translator.js:338 | keys of two languages without underscores never collide |
| TranslatorRules.CacheKeySameLanguage | wwwroot/js/translator.js:338 | within one language the key determines the text |
| TranslatorRules.CacheKeyClash | wwwroot/js/translator.js:338 | with an underscore in a language code two different entries share one key |
| TranslatorRules.LeadingSpace | wwwroot/js/translator.js:419 | the leading whitespace is a whitespace prefix of the value |
| TranslatorRules.TrailingSpace | wwwroot/js/translator.js:420 | the trailing whitespace is a whitespace suffix of the value |
| TranslatorRules.WrapKeepsSpacing | wwwroot/js/translator.js:419-422 | every wrapped translation keeps the original's leading and trailing whitespace |
| TranslatorRules.TrimEndAfterSpaces | wwwroot/js/translator.js:420 | spaces in front of a value with text do not move where its trailing space starts |
| TranslatorRules.SplitAtText | wwwroot/js/translator.js:419 | a value is its leading whitespace followed by the rest |
| TranslatorRules.TrailingAfterSpaces | wwwroot/js/translator.js:420 | spaces in front of a value with text leave its trailing whitespace unchanged |
| TranslatorRules.TrailingOfText | wwwroot/js/translator.js:419-420 | the trailing whitespace is what follows the trimmed text |
| TranslatorRules.Reassemble | wwwroot/js/translator.js:422 | leading part, text and trailing part put back together give the value |
| TranslatorRules.WrapRestoresOriginal | wwwroot/js/translator.js:419-422 | wrapping an original around its own trimmed text gives the original back |
| TranslatorRules.Restored | wwwroot/js/translator.js:205-229 | restoring changes no set of nodes |
| TranslatorRules.RestoredStep | wwwroot/js/translator.js:210-216 | one more node of the walk shows its original again when it has one |
| TranslatorRules.RestoreUndoesApply | wwwroot/js/translator.js:205-229 | restoring forgets any translation applied to a node of the page |
| TranslatorRules.UncachedStep | wwwroot/js/translator.js:321-347 | one more node adds its original text when it has one and the cache misses it |
| TranslatorRules.ToFetchStep | wwwroot/js/translator.js:321-347 | one more node queues its text when pending and not already queued |
| TranslatorRules.ToFetchMeans | wwwroot/js/translator.js:318-351 | the texts to fetch are exactly the texts of pending nodes, each once |
| TranslatorRules.UncachedMeans | wwwroot/js/translator.js:321-347 | a text is missed by the cache exactly when it is the text of a pending node |
| TranslatorRules.Applied | wwwroot/js/translator.js:400-425 | applying changes at most the one node |
| TranslatorRules.AppliedKeepsTexts | wwwroot/js/translator.js:328-332 | applying a translation never changes the text any node is looked up by |
| TranslatorRules.ApplyHits | wwwroot/js/translator.js:337-341 | cache hits change no node without a recorded original |
| TranslatorRules.ApplyHitsStep | wwwroot/js/translator.js:337-341 | one more node shows its cached translation when it has one |
| TranslatorRules.HitShowsCachedTranslation | wwwroot/js/translator.js:337-341 | a node whose text is cached ends showing that translation inside its original's whitespace |
| TranslatorRules.ApplyHitsSkipsPending | wwwroot/js/translator.js:337-346 | a pending node keeps its value while cached translations are applied |
| TranslatorRules.ValueOf | wwwroot/js/translator.js:378 | a reply has a value for a text exactly when one of its entries names it |
| TranslatorRules.StoreEntriesReadsBack | wwwroot/js/translator.js:378-380 | after a reply each of its texts reads back its value and every other key is unchanged |
| TranslatorRules.RepliesCons | wwwroot/js/translator.js:355-397 | chunks are handled in order; a failed chunk leaves the cache for the next |
| TranslatorRules.RepliesKeepOtherLanguages | wwwroot/js/translator.js:355-397 | a batch never adds, changes or removes another language's entry |
| PageTranslator.Translator.constructor | wwwroot/js/translator.js:23-64 | the start language and the stored cache are taken; for English nothing is recorded, and for any other language the initial page translation records the originals and caches the replies |
| PageTranslator.Translator.ApplyTranslation | wwwroot/js/translator.js:400-425 | the node shows the translation inside its original's whitespace when both exist; nothing else changes |
| PageTranslator.Translator.CollectNode | wwwroot/js/translator.js:254-267 | a collectible node is added and its original recorded if new; any other is skipped |
| PageTranslator.Translator.CollectNodes | wwwroot/js/translator.js:249-312 | the collected nodes are exactly the collectible reached ones, each with a recorded original |
| PageTranslator.Translator.RestoreOriginals | wwwroot/js/translator.js:205-229 | every node of the page with an original shows it again; nothing else changes |
| PageTranslator.Translator.SortNode | wwwroot/js/translator.js:321-347 | a cached node is translated at once; a pending one queues its text and waits |
| PageTranslator.Translator.SortNodes | wwwroot/js/translator.js:314-351 | the texts queued are the pending texts, cache hits are applied, and only pending nodes wait |
| PageTranslator.Translator.ApplyAll | wwwroot/js/translator.js:383-387 | every waiting node gets the translation; no other node changes |
| PageTranslator.Translator.TakeReply | wwwroot/js/translator.js:375-391 | the reply is cached under the batch language; only waiting nodes change, each to a wrapped translation |
| PageTranslator.Translator.TranslateBatch | wwwroot/js/translator.js:314-398 | the cache is that of the chunks of five handled in order; non-pending nodes show their cached translation; pending nodes stay or show a wrapped translation |
| PageTranslator.Translator.TranslatePage | wwwroot/js/translator.js:195-203 | the reached nodes are collected, their originals recorded, and translated as one batch |
| PageTranslator.Translator.SetLanguage | wwwroot/js/translator.js:103-137 | the same language changes nothing; English restores the originals; another language restores, then collects and translates the page |
| PageTranslator.Translator.TranslateText | wwwroot/js/translator.js:426-462 | empty gives "", English gives the text, a cache hit its entry, a failed request the text; otherwise the reply or the text itself is returned and cached |
| PageTranslator.TwoShimsDisagree | wwwroot/js/translator.js:469-471 | the page translator's `t` keeps "NewNote" while the other shim gives "New Note" |

## Left out

- File I/O and JSON (de)serialisation in every store: a file's content is the value `StoreFile.FileContent` (missing, blank, `null`, malformed or a list of records), and a save is the new content.
- Lost updates between concurrent requests: no service locks its file, and the model is sequential.
- SMTP and log files (EmailService): the model records only that a code was issued into the session.
- SHA-256 and Base64 password hashing: the hash is a function parameter `hash`.
- `Random`, `Guid.NewGuid`, `DateTime.Now`/`Today` and `Date.now()`: each is a parameter (`draw`, a supplied id, `now`).
- Members the application calls but does not define (AuthService.ValidateAdmin, AuthService.RegisterStudent(Student) called by StudentsController.VerifyAdminOtp, the three-argument AuthService.ValidateStudent(email, password, out error) called by AccountController.Login and StudentLogin, UserActivityService.GetUserVisits, GetUserActivityDetails): the admin check is the parameter `adminValid`; the admin record handed to RegisterStudent(Student) is returned and no store changes, since no such overload exists; the three-argument ValidateStudent is taken as the four-argument one (Services/AuthService.cs:73) with its student discarded, which is `Auth.ValidateIn`; the last two are not part of this model.
- DateTime range limits: times are unbounded naturals and day numbers unbounded integers, so the exceptions DateTime raises outside 0001-01-01 to 9999-12-31 and the `long` range of a duration are not modelled.
- Floating point: GoalService.GetAnalytics and GoalController.GetAnalytics (scores and ratios), `Goal.Progress` as a double (integer done/total counts stand in for it), and the PDF image scaling, which is the parameter `fit`.
- PdfWriter.GeneratePdf: the text of a .docx upload (ZipArchive and Regex) and the decoding of other files are given as `Upload.text`; ConvertToPdf, ZIP creation and temporary files are I/O and are not part of this model.
- `Path.GetExtension` is not computed: an upload carries its extension.
- Case folding and whitespace are ASCII only: `ToLower`, `Trim`, and JavaScript's `\s`, `\d` and `trim()` are modelled on ASCII letters, digits and whitespace, not on the full Unicode tables.
- TimeTrackerPages.Breakdown: when a nameless entry and an entry named "Unknown" both fall on today, `ToDictionary` throws; the model returns `None` and the page is `Failed`.
- Stopwatch.ParseDuration computes with exact rationals where JavaScript uses doubles, so results that differ only by binary rounding are not modelled.
- Stopwatch.Timer.Stop reads the clock once, where stopTimer reads it three times (in pauseTimer, for the start and for the end); the three readings are taken as the same instant.
- DOM, `localStorage`, `fetch`, timers and the MutationObserver in the browser scripts: page text is a map from node ids to strings, a tree walk is the list of ids it reaches, and a server reply is the parameter `respond`. An aborted request after its timeout is a failed reply.
- translation-service.js: translatePage, collectTextNodes, getSupportedLanguages and startObserver walk and watch the DOM and are not part of this model. translatePage, which init and setLanguage start, is therefore left out of `ApiTranslation.TranslationService.constructor` and `ApiTranslation.TranslationService.SetLanguage`.
- translator.js: shouldTranslate, observe, debouncedProcess, processPending, createLoader and setLoader are DOM glue. Attribute nodes (placeholder, button value, title) are not collected; only text nodes are. A saveCache that fails is swallowed, so it has no effect on the model.
- ApiTranslation.ShimT takes a string, so a `null` or `undefined` key is the empty string.
- `retryDelays` in translator.js is declared but never read.
- PageTranslator.Translator.TranslateBatch: a chunk's reply may also answer texts of other chunks, and a later chunk's reply then overwrites the translation an earlier one applied and cached; which reply a waiting node ends with is not stated, only that the node keeps its value or shows a translation wrapped in its original's whitespace.
- GoalController's UpdateMilestone and UpdateDailyTask stamp `CompletedAt` with `DateTime.Now`, which is a parameter `now`.
- PdfText: the page content stream ends its lines with "\n", where StringBuilder.AppendLine writes Environment.NewLine ("\r\n" on Windows); the line ending is fixed to one byte.
- StudentPages.StudentsController.Edit: a save that throws shows UpdateFailedMessage without the exception's own message; with the file just read and no concurrent writer, that save cannot throw in the model.
- StudentPages.PinError: C# `Length` counts UTF-16 code units and the model counts characters, so a PIN with a character outside the Basic Multilingual Plane has a different length for the 4-to-6 check in the source (Controllers/StudentsController.cs:94, 269, 335).
- PdfText.Chunks: `Substring` cuts 90 UTF-16 code units, which may split a surrogate pair; the model cuts 90 characters.
- PdfWriter.Ascii: the stream's `/Length` is `contentStr.Length` or `formattedContent.Length` in UTF-16 code units (Controllers/ToolsController.cs:302, 323), and the model takes one byte per character; the two differ only for text outside the Basic Multilingual Plane.
- StudentStore.AppendStudent: `Max(x => x.Id) + 1` wraps to int.MinValue in C# when the largest id is int.MaxValue; the model's ids are unbounded integers, so that wrap-around is not modelled.
- NotesStore.AppendNote: the same int.MaxValue wrap-around of `Max(x => x.Id) + 1` is not modelled; ids are unbounded.
- TimeEntryStore.AppendEntry: the same int.MaxValue wrap-around of `Max(x => x.Id) + 1` is not modelled; ids are unbounded.
- PdfStore.AppendPdf: the same int.MaxValue wrap-around of `Max(x => x.Id) + 1` is not modelled; ids are unbounded.
- GoalRules.Duration, GoalRules.GenerateSmartMilestones, GoalRules.RedistributedTasks, GoalEndpoints.GoalController.CreateGoal: every DateTime of a goal (StartDate, EndDate, CreatedAt, a task's Date, a parsed `add_to_date`) is taken at midnight, as a day number, so a time of day is not modelled. With a start at 18:00 and an end at 06:00 four days later, `(EndDate - StartDate).Days` is 3 where Duration gives 4, and the milestone count, the interval, the "shorter than 2 days" test and the tie order of the OrderBy can then differ.
- AccountPages, StudentPages: the OTP expiry is written to the session with `ToString("O")` and read back with `DateTime.TryParse`; the model keeps it as decimal text of whole seconds and parses only that, so sub-second expiry times and the date formats TryParse also accepts are not modelled.
- Web.SignedOut: BaseController's login gate is modelled on the actions of StudentsController and TimeTrackerController; the other controllers derived from BaseController (HomeController, NotesController, HabitController, ToolsController) have no modelled actions.
- PageTranslator.Translator.constructor: the DOM walk of init's initial translatePage is the parameter `reached` and its server is `respond`; the constructor states the originals and the cache after that translation, and the page text only by its node ids.

## Findings

| source | as written | input that shows it | evidently intended | confidence | as-written member | corrected member |
|---|---|---|---|---|---|---|
| Controllers/StudentsController.cs:359-371 | Edit writes the new PIN hash and security flag on the loaded record, then calls UpdateStudent, which copies only seven fields (Services/JsonFileStudentService.cs:55-61), so the PIN is never saved | an account without a PIN, edited with the PIN "1234" (in general any PIN whose hash differs from the stored one) | the PIN hash and the security flag are stored | not executed | `StudentPages.EditAsWrittenDropsPin` (with `StudentPages.StudentsController.Edit`) | `StudentPages.EditStoresPin` (with `StudentPages.StudentsController.EditCorrected`) |
