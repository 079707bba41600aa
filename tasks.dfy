/**
 * The task records of the to-do list and everything the store computes from
 * them without changing anything: the overdue test, the filtered and searched
 * view, the counters, and the value each mutation leaves behind.
 *
 * Dates and times are abstract integers: a date is a day number, a time a
 * minute of the day, and an instant (`createdAt`, the current time `now`) a
 * number of milliseconds. An empty date or time field of the form is `None`.
 */
module Tasks {
  import opened Wrappers
  import opened Seqs
  import opened Text

  const MsPerMinute := 60 * 1000
  const MinutesPerDay := 24 * 60
  /** The time of day an undated-time task falls due at: 23:59. */
  const EndOfDay := 23 * 60 + 59

  datatype Task = Task(
    id: string,
    title: string,
    description: string,
    date: Option<int>,
    time: Option<int>,
    priority: string,
    completed: bool,
    createdAt: int)

  /** The raw values of the add form or the edit form. */
  datatype TaskForm = TaskForm(
    title: string,
    description: string,
    date: Option<int>,
    time: Option<int>,
    priority: string)

  /** `currentFilter`; any value other than the three named ones behaves as `All`. */
  datatype StatusFilter = All | Pending | Completed | Overdue

  /** The counters shown above the list. */
  datatype Stats = Stats(total: nat, completed: nat, pending: int)

  /** The instant a task with this date and time falls due, in milliseconds. */
  function DueInstant(date: int, time: Option<int>): int {
    (date * MinutesPerDay + time.GetOr(EndOfDay)) * MsPerMinute
  }

  /** `isTaskOverdue`: a dated task that is still pending and whose due instant has passed. */
  function IsOverdue(t: Task, now: int): (r: bool)
    ensures t.date.None? || t.completed ==> !r
    ensures t.date.Some? && !t.completed ==> (r <==> DueInstant(t.date.value, t.time) < now)
  {
    if t.date.None? || t.completed then false
    else DueInstant(t.date.value, t.time) < now
  }

  /** Once overdue, a task stays overdue as time goes on, until it is completed. */
  lemma OverdueStaysOverdue(t: Task, now: int, later: int)
    requires IsOverdue(t, now) && now <= later
    ensures IsOverdue(t, later)
  {
  }

  /** A task with a date but no time is due at the last minute of that day. */
  lemma UntimedDueLast(t: Task, minute: int, now: int)
    requires t.time.None? && 0 <= minute < MinutesPerDay
    ensures IsOverdue(t, now) ==> IsOverdue(t.(time := Some(minute)), now)
  {
  }

  predicate IsCompleted(t: Task) { t.completed }

  predicate IsPending(t: Task) { !t.completed }

  /** The search clause: the (lower-case) query occurs in the lower-cased title or description. */
  predicate SearchHit(t: Task, query: string) {
    Includes(ToLower(t.title), query) || Includes(ToLower(t.description), query)
  }

  /** A task passes the search when the query is empty or it is a search hit. */
  predicate MatchesSearch(t: Task, query: string) {
    query == [] || SearchHit(t, query)
  }

  predicate MatchesStatus(t: Task, f: StatusFilter, now: int) {
    match f
    case All => true
    case Pending => IsPending(t)
    case Completed => IsCompleted(t)
    case Overdue => IsOverdue(t, now)
  }

  /** The search step of `getFilteredTasks`, skipped when the query is empty. */
  function SearchStage(tasks: seq<Task>, query: string): seq<Task> {
    if query == [] then tasks else Filter(tasks, t => SearchHit(t, query))
  }

  /** The status step of `getFilteredTasks`: the `switch` on the current filter. */
  function StatusStage(tasks: seq<Task>, f: StatusFilter, now: int): seq<Task> {
    match f
    case All => tasks
    case Pending => Filter(tasks, IsPending)
    case Completed => Filter(tasks, IsCompleted)
    case Overdue => Filter(tasks, t => IsOverdue(t, now))
  }

  /** `getFilteredTasks`: the search step, then the status step. */
  function FilteredTasks(tasks: seq<Task>, f: StatusFilter, query: string, now: int): seq<Task> {
    StatusStage(SearchStage(tasks, query), f, now)
  }

  lemma SearchStageIsFilter(tasks: seq<Task>, query: string)
    ensures SearchStage(tasks, query) == Filter(tasks, t => MatchesSearch(t, query))
  {
    if query == [] {
      FilterKeepsAll(tasks, t => MatchesSearch(t, query));
    } else {
      FilterCongruent(tasks, t => SearchHit(t, query), t => MatchesSearch(t, query));
    }
  }

  lemma StatusStageIsFilter(tasks: seq<Task>, f: StatusFilter, now: int)
    ensures StatusStage(tasks, f, now) == Filter(tasks, t => MatchesStatus(t, f, now))
  {
    var status := t => MatchesStatus(t, f, now);
    match f
    case All => FilterKeepsAll(tasks, status);
    case Pending => FilterCongruent(tasks, IsPending, status);
    case Completed => FilterCongruent(tasks, IsCompleted, status);
    case Overdue => FilterCongruent(tasks, t => IsOverdue(t, now), status);
  }

  /** The two-stage query is one filter by the conjunction of the search and the status clause. */
  lemma QuerySinglePass(tasks: seq<Task>, f: StatusFilter, query: string, now: int)
    ensures FilteredTasks(tasks, f, query, now)
         == Filter(tasks, t => MatchesSearch(t, query) && MatchesStatus(t, f, now))
  {
    var search := t => MatchesSearch(t, query);
    var status := t => MatchesStatus(t, f, now);
    SearchStageIsFilter(tasks, query);
    StatusStageIsFilter(Filter(tasks, search), f, now);
    FilterFusion(tasks, search, status, t => MatchesSearch(t, query) && MatchesStatus(t, f, now));
  }

  /**
   * The query returns, in their original order, exactly the tasks that pass
   * both the search and the status clause, each as often as it is stored.
   */
  lemma QueryResult(tasks: seq<Task>, f: StatusFilter, query: string, now: int)
    ensures IsSubsequence(FilteredTasks(tasks, f, query, now), tasks)
    ensures forall t :: t in FilteredTasks(tasks, f, query, now) <==>
                        t in tasks && MatchesSearch(t, query) && MatchesStatus(t, f, now)
    ensures forall t :: multiset(FilteredTasks(tasks, f, query, now))[t] ==
                        if MatchesSearch(t, query) && MatchesStatus(t, f, now) then multiset(tasks)[t] else 0
  {
    QuerySinglePass(tasks, f, query, now);
    FilterIsSubsequence(tasks, t => MatchesSearch(t, query) && MatchesStatus(t, f, now));
    FilterCounts(tasks, t => MatchesSearch(t, query) && MatchesStatus(t, f, now));
  }

  /** With the `all` filter and no search text every task is listed, in stored order. */
  lemma QueryAllIsIdentity(tasks: seq<Task>, now: int)
    ensures FilteredTasks(tasks, All, [], now) == tasks
  {
  }

  /** `searchTasks`: the typed query is lower-cased before it is matched. */
  function SearchTasks(tasks: seq<Task>, f: StatusFilter, typed: string, now: int): seq<Task> {
    FilteredTasks(tasks, f, ToLower(typed), now)
  }

  /** Searching is insensitive to the case of the query's ASCII letters. */
  lemma SearchIgnoresQueryCase(tasks: seq<Task>, f: StatusFilter, typed: string, now: int)
    ensures SearchTasks(tasks, f, typed, now) == SearchTasks(tasks, f, ToLower(typed), now)
  {
    ToLowerIdempotent(typed);
  }

  /** The sizes of the two halves of a partition by `p` add up. */
  lemma {:induction false} PartitionSizes(s: seq<Task>)
    ensures |Filter(s, IsCompleted)| + |Filter(s, IsPending)| == |s|
  {
    if s != [] {
      PartitionSizes(s[1..]);
    }
  }

  /** `updateStats`: pending is the number of tasks not completed, so the two counts add up to the total. */
  function StatsOf(tasks: seq<Task>): (s: Stats)
    ensures s.total == |tasks| && s.completed <= s.total
    ensures s.completed == |Filter(tasks, IsCompleted)|
    ensures s.pending == |Filter(tasks, IsPending)|
    ensures 0 <= s.pending <= s.total && s.completed + s.pending == s.total
  {
    var total := |tasks|;
    var completed := |Filter(tasks, IsCompleted)|;
    PartitionSizes(tasks);
    Stats(total, completed, total - completed)
  }

  /** The task `addTask` creates: trimmed title and description, not completed. */
  function NewTask(form: TaskForm, id: string, createdAt: int): Task {
    Task(id, Trim(form.title), Trim(form.description), form.date, form.time, form.priority, false, createdAt)
  }

  /** Adding a task counts one more task and one more pending task. */
  lemma StatsAfterAdd(tasks: seq<Task>, t: Task)
    requires !t.completed
    ensures StatsOf([t] + tasks).total == StatsOf(tasks).total + 1
    ensures StatsOf([t] + tasks).completed == StatsOf(tasks).completed
    ensures StatsOf([t] + tasks).pending == StatsOf(tasks).pending + 1
  {
    assert ([t] + tasks)[1..] == tasks;
  }

  /** After an import the counters are the sums of the old ones and the imported ones. */
  lemma StatsAfterImport(tasks: seq<Task>, imported: seq<Task>)
    ensures StatsOf(tasks + imported).total == StatsOf(tasks).total + StatsOf(imported).total
    ensures StatsOf(tasks + imported).completed == StatsOf(tasks).completed + StatsOf(imported).completed
    ensures StatsOf(tasks + imported).pending == StatsOf(tasks).pending + StatsOf(imported).pending
  {
    FilterConcat(tasks, imported, IsCompleted);
    FilterConcat(tasks, imported, IsPending);
  }

  /** The position `tasks.find(t => t.id === id)` stops at. */
  function IndexOfId(tasks: seq<Task>, id: string): Option<nat> {
    FindIndex(tasks, (t: Task) => t.id == id)
  }

  /** `tasks.filter(task => task.id !== id)`. */
  function WithoutId(tasks: seq<Task>, id: string): seq<Task> {
    Filter(tasks, (t: Task) => t.id != id)
  }

  /**
   * Deleting keeps exactly the tasks with another id, each as often as it
   * occurs, in their original order; deleting an id no task has changes nothing.
   */
  lemma DeleteKeepsOthers(tasks: seq<Task>, id: string)
    ensures IsSubsequence(WithoutId(tasks, id), tasks)
    ensures forall t :: t in WithoutId(tasks, id) <==> t in tasks && t.id != id
    ensures forall t :: multiset(WithoutId(tasks, id))[t] == if t.id != id then multiset(tasks)[t] else 0
    ensures IndexOfId(tasks, id).None? ==> WithoutId(tasks, id) == tasks
  {
    FilterIsSubsequence(tasks, (t: Task) => t.id != id);
    FilterCounts(tasks, (t: Task) => t.id != id);
    if IndexOfId(tasks, id).None? {
      FilterKeepsAll(tasks, (t: Task) => t.id != id);
    }
  }

  /** `toggleTask` on values: flip `completed` of the first task with this id, if there is one. */
  function Toggled(tasks: seq<Task>, id: string): seq<Task> {
    match IndexOfId(tasks, id)
    case None => tasks
    case Some(i) => tasks[i := tasks[i].(completed := !tasks[i].completed)]
  }

  /**
   * Toggling changes one `completed` flag, that of the first task with the
   * id, and nothing else; an unknown id changes nothing.
   */
  lemma ToggleFlipsFirstMatch(tasks: seq<Task>, id: string)
    ensures |Toggled(tasks, id)| == |tasks|
    ensures forall j :: 0 <= j < |tasks| ==>
              Toggled(tasks, id)[j].(completed := tasks[j].completed) == tasks[j]
    ensures forall j :: 0 <= j < |tasks| ==>
              (Toggled(tasks, id)[j].completed != tasks[j].completed <==> IndexOfId(tasks, id) == Some(j))
  {
  }

  /** Toggling the same id twice restores the original tasks. */
  lemma ToggleTwice(tasks: seq<Task>, id: string)
    ensures Toggled(Toggled(tasks, id), id) == tasks
  {
    var once := Toggled(tasks, id);
    FindIndexSameMatches(tasks, once, (t: Task) => t.id == id);
  }

  /** Toggling a task found by id moves it between the completed and the pending count. */
  lemma StatsAfterToggle(tasks: seq<Task>, id: string)
    requires IndexOfId(tasks, id).Some?
    ensures StatsOf(Toggled(tasks, id)).total == StatsOf(tasks).total
    ensures var i := IndexOfId(tasks, id).value;
            StatsOf(Toggled(tasks, id)).completed
              == if tasks[i].completed then StatsOf(tasks).completed - 1 else StatsOf(tasks).completed + 1
  {
    var i := IndexOfId(tasks, id).value;
    FilterUpdateLength(tasks, i, tasks[i].(completed := !tasks[i].completed), IsCompleted);
  }

  /** `saveEditedTask` on one task: replaces the five editable fields, trimming title and description. */
  function ApplyEdit(t: Task, form: TaskForm): Task {
    t.(title := Trim(form.title), date := form.date, time := form.time,
       priority := form.priority, description := Trim(form.description))
  }

  /** The task `saveEditedTask` works on: the first one whose id is `editingTaskId`. */
  function EditTarget(tasks: seq<Task>, editing: Option<string>): Option<nat> {
    match editing
    case None => None
    case Some(id) => IndexOfId(tasks, id)
  }

  /**
   * An edit keeps every other task, and of the edited one keeps its id,
   * completion flag and creation time.
   */
  lemma EditKeepsIdentity(tasks: seq<Task>, i: nat, form: TaskForm)
    requires i < |tasks|
    ensures var edited := tasks[i := ApplyEdit(tasks[i], form)];
            |edited| == |tasks| &&
            edited[i].id == tasks[i].id && edited[i].completed == tasks[i].completed &&
            edited[i].createdAt == tasks[i].createdAt &&
            forall j :: 0 <= j < |tasks| && j != i ==> edited[j] == tasks[j]
  {
  }

  /** An edit leaves the counters unchanged. */
  lemma StatsAfterEdit(tasks: seq<Task>, i: nat, form: TaskForm)
    requires i < |tasks|
    ensures StatsOf(tasks[i := ApplyEdit(tasks[i], form)]) == StatsOf(tasks)
  {
    FilterUpdateLength(tasks, i, ApplyEdit(tasks[i], form), IsCompleted);
  }

  /**
   * The title is not all white space, so (by the contract of `Trim`) it is
   * non-empty after trimming: what the add and edit forms enforce.
   */
  predicate TitleValid(t: Task) {
    !AllSpace(t.title)
  }

  predicate TitlesValid(tasks: seq<Task>) {
    forall j :: 0 <= j < |tasks| ==> TitleValid(tasks[j])
  }

  lemma ConsTitlesValid(t: Task, tasks: seq<Task>)
    requires TitleValid(t) && TitlesValid(tasks)
    ensures TitlesValid([t] + tasks)
  {
    var r := [t] + tasks;
    forall j | 0 <= j < |r| ensures TitleValid(r[j]) {
      if j > 0 {
        assert r[j] == tasks[j - 1];
      }
    }
  }

  /** An accepted add (a title that is not all white space) keeps every title non-empty. */
  lemma AddKeepsTitlesValid(tasks: seq<Task>, form: TaskForm, id: string, createdAt: int)
    requires TitlesValid(tasks) && !AllSpace(form.title)
    ensures TitlesValid([NewTask(form, id, createdAt)] + tasks)
  {
    var t := NewTask(form, id, createdAt);
    assert TitleValid(t) by {
      TrimIdempotent(form.title);
    }
    ConsTitlesValid(t, tasks);
  }

  /** An accepted edit (a title that is not all white space) keeps every title non-empty. */
  lemma EditKeepsTitlesValid(tasks: seq<Task>, i: nat, form: TaskForm)
    requires TitlesValid(tasks) && i < |tasks| && !AllSpace(form.title)
    ensures TitlesValid(tasks[i := ApplyEdit(tasks[i], form)])
  {
    TrimIdempotent(form.title);
  }

  /** Deleting keeps every title non-empty. */
  lemma DeleteKeepsTitlesValid(tasks: seq<Task>, id: string)
    requires TitlesValid(tasks)
    ensures TitlesValid(WithoutId(tasks, id))
  {
    var r := WithoutId(tasks, id);
    forall j | 0 <= j < |r| ensures TitleValid(r[j]) {
      assert r[j] in tasks;
    }
  }

  /** Toggling keeps every title non-empty. */
  lemma ToggleKeepsTitlesValid(tasks: seq<Task>, id: string)
    requires TitlesValid(tasks)
    ensures TitlesValid(Toggled(tasks, id))
  {
    var r := Toggled(tasks, id);
    forall j | 0 <= j < |r| ensures TitleValid(r[j]) {
      assert r[j].title == tasks[j].title;
    }
  }

  /** Import does no validation: the titles stay valid only if the imported ones are. */
  lemma ImportTitlesValid(tasks: seq<Task>, imported: seq<Task>)
    requires TitlesValid(tasks)
    ensures TitlesValid(tasks + imported) <==> TitlesValid(imported)
  {
    if TitlesValid(imported) {
      assert forall j :: |tasks| <= j < |tasks + imported| ==> (tasks + imported)[j] == imported[j - |tasks|];
    } else {
      var k :| 0 <= k < |imported| && !TitleValid(imported[k]);
      assert (tasks + imported)[|tasks| + k] == imported[k];
    }
  }
}
