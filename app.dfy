/**
 * The `TodoApp` object: the task list, the local-storage entry it is saved
 * to, the status filter and the id of the task open in the edit dialog.
 * Form values, the delete confirmation, the clock and new ids are parameters;
 * rendering and notifications are not modelled, and each method reports
 * instead which notification the page would show.
 */
module App {
  import opened Wrappers
  import opened Text
  import opened Tasks

  /** What a user action ended in; each value stands for one notification (or none). */
  datatype Outcome = Done | EmptyTitle | NoSuchTask | NotAnArray | Unreadable

  /** What `JSON.parse` made of an imported file. */
  datatype ImportPayload = ParseError | NotArray | TaskArray(items: seq<Task>)

  class TodoApp {
    var tasks: seq<Task>
    /** The `todoTasks` entry of local storage, as the tasks it serialises; `None` when it is absent. */
    var stored: Option<seq<Task>>
    var currentFilter: StatusFilter
    var editingTaskId: Option<string>

    /** Local storage holds exactly the in-memory tasks. */
    predicate Persisted()
      reads this
    {
      stored == Some(tasks)
    }

    /** Loads the saved tasks, or starts empty when nothing is saved. */
    constructor (saved: Option<seq<Task>>)
      ensures tasks == saved.GetOr([]) && stored == saved
      ensures currentFilter == All && editingTaskId == None
      ensures saved.Some? ==> Persisted()
    {
      tasks := saved.GetOr([]);
      stored := saved;
      currentFilter := All;
      editingTaskId := None;
    }

    /** `saveTasks`: overwrite the storage entry with the whole task list. */
    method SaveTasks()
      modifies this`stored
      ensures Persisted()
    {
      stored := Some(tasks);
    }

    /** `addTask`: reject an empty trimmed title, otherwise put the new task first and save. */
    method AddTask(form: TaskForm, id: string, createdAt: int) returns (outcome: Outcome)
      modifies this`tasks, this`stored
      ensures Trim(form.title) == [] ==>
                outcome == EmptyTitle && tasks == old(tasks) && stored == old(stored)
      ensures Trim(form.title) != [] ==>
                outcome == Done && tasks == [NewTask(form, id, createdAt)] + old(tasks) && Persisted()
      ensures Trim(form.title) != [] ==> !tasks[0].completed && tasks[1..] == old(tasks)
    {
      var title := Trim(form.title);
      if title == [] {
        return EmptyTitle;
      }
      var task := Task(id, title, Trim(form.description), form.date, form.time, form.priority, false, createdAt);
      assert task == NewTask(form, id, createdAt);
      tasks := [task] + tasks;
      assert tasks[1..] == old(tasks);
      SaveTasks();
      outcome := Done;
    }

    /** `deleteTask` after the user confirmed: drop every task with this id and save. */
    method DeleteTask(taskId: string)
      modifies this`tasks, this`stored
      ensures tasks == WithoutId(old(tasks), taskId) && Persisted()
    {
      tasks := WithoutId(tasks, taskId);
      SaveTasks();
    }

    /** `toggleTask`: flip the first task with this id and save; do nothing when there is none. */
    method ToggleTask(taskId: string) returns (outcome: Outcome)
      modifies this`tasks, this`stored
      ensures tasks == Toggled(old(tasks), taskId)
      ensures IndexOfId(old(tasks), taskId).Some? ==> outcome == Done && Persisted()
      ensures IndexOfId(old(tasks), taskId).None? ==> outcome == NoSuchTask && stored == old(stored)
    {
      match IndexOfId(tasks, taskId)
      case None =>
        return NoSuchTask;
      case Some(i) =>
        tasks := tasks[i := tasks[i].(completed := !tasks[i].completed)];
        SaveTasks();
        outcome := Done;
    }

    /** `editTask`: open the edit dialog on the task with this id, if there is one. */
    method EditTask(taskId: string)
      modifies this`editingTaskId
      ensures IndexOfId(tasks, taskId).Some? ==> editingTaskId == Some(taskId)
      ensures IndexOfId(tasks, taskId).None? ==> editingTaskId == old(editingTaskId)
    {
      if IndexOfId(tasks, taskId).Some? {
        editingTaskId := Some(taskId);
      }
    }

    /** `closeModal`: forget which task was being edited. */
    method CloseModal()
      modifies this`editingTaskId
      ensures editingTaskId == None
    {
      editingTaskId := None;
    }

    /**
     * `saveEditedTask`: when the task being edited still exists and the new
     * trimmed title is non-empty, overwrite its editable fields, save and
     * close the dialog; otherwise change nothing.
     */
    method SaveEditedTask(form: TaskForm) returns (outcome: Outcome)
      modifies this`tasks, this`stored, this`editingTaskId
      ensures EditTarget(old(tasks), old(editingTaskId)).None? ==>
                outcome == NoSuchTask && tasks == old(tasks) && stored == old(stored) &&
                editingTaskId == old(editingTaskId)
      ensures EditTarget(old(tasks), old(editingTaskId)).Some? && Trim(form.title) == [] ==>
                outcome == EmptyTitle && tasks == old(tasks) && stored == old(stored) &&
                editingTaskId == old(editingTaskId)
      ensures EditTarget(old(tasks), old(editingTaskId)).Some? && Trim(form.title) != [] ==>
                var i := EditTarget(old(tasks), old(editingTaskId)).value;
                outcome == Done && tasks == old(tasks)[i := ApplyEdit(old(tasks)[i], form)] &&
                Persisted() && editingTaskId == None
    {
      var target := EditTarget(tasks, editingTaskId);
      if target.None? {
        return NoSuchTask;
      }
      var title := Trim(form.title);
      if title == [] {
        return EmptyTitle;
      }
      var i := target.value;
      tasks := tasks[i := tasks[i].(title := title, date := form.date, time := form.time,
                                    priority := form.priority, description := Trim(form.description))];
      SaveTasks();
      CloseModal();
      outcome := Done;
    }

    /** `setFilter`: choose the status filter of the list. */
    method SetFilter(f: StatusFilter)
      modifies this`currentFilter
      ensures currentFilter == f
    {
      currentFilter := f;
    }

    /** `importTasks` once the file is read: append an array of tasks and save; reject anything else. */
    method ImportTasks(payload: ImportPayload) returns (outcome: Outcome)
      modifies this`tasks, this`stored
      ensures payload.TaskArray? ==> outcome == Done && tasks == old(tasks) + payload.items && Persisted()
      ensures payload.NotArray? ==> outcome == NotAnArray && tasks == old(tasks) && stored == old(stored)
      ensures payload.ParseError? ==> outcome == Unreadable && tasks == old(tasks) && stored == old(stored)
    {
      match payload
      case ParseError =>
        return Unreadable;
      case NotArray =>
        return NotAnArray;
      case TaskArray(items) =>
        tasks := tasks + items;
        SaveTasks();
        outcome := Done;
    }
  }
}
