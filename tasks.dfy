/** The task-manager screen of the app: a list of tasks, the input fields
    of the form that creates them, and the button that marks a task
    complete or not. */
module Tasks {
  import opened Text

  datatype Category = Work | Personal | Shopping
  datatype Priority = Low | Medium | High

  /** One entry of the task list. */
  datatype Task = Task(
    id: int,
    title: string,
    description: string,
    category: Category,
    priority: Priority,
    dueDate: string,
    progress: int,
    isCompleted: bool)

  /** The list's ids are its positions counted from one, as `addTask`
      assigns them. */
  ghost predicate SequentialIds(tasks: seq<Task>) {
    forall k :: 0 <= k < |tasks| ==> tasks[k].id == k + 1
  }

  /** Sequential ids are distinct: one id names at most one task. */
  lemma SequentialIdsDistinct(tasks: seq<Task>, j: nat, k: nat)
    requires SequentialIds(tasks) && j < |tasks| && k < |tasks|
    requires tasks[j].id == tasks[k].id
    ensures j == k
  {
  }

  /** The `map` of `toggleCompletion`: every task whose id is `taskId` has
      its completion flag negated and keeps all its other fields; every
      other task is left as it was; the length does not change. */
  function Toggled(tasks: seq<Task>, taskId: int): (r: seq<Task>)
    ensures |r| == |tasks|
    ensures forall k :: 0 <= k < |r| ==> r[k].id == tasks[k].id
    ensures forall k :: 0 <= k < |r| && tasks[k].id == taskId ==>
              r[k] == tasks[k].(isCompleted := !tasks[k].isCompleted)
    ensures forall k :: 0 <= k < |r| && tasks[k].id != taskId ==> r[k] == tasks[k]
  {
    if tasks == [] then []
    else
      var t := tasks[0];
      var rest := Toggled(tasks[1..], taskId);
      [if t.id == taskId then t.(isCompleted := !t.isCompleted) else t] + rest
  }

  /** Toggling the same id twice gives back the original list. */
  lemma ToggledTwice(tasks: seq<Task>, taskId: int)
    ensures Toggled(Toggled(tasks, taskId), taskId) == tasks
  {
    var once := Toggled(tasks, taskId);
    var twice := Toggled(once, taskId);
    assert forall k :: 0 <= k < |tasks| ==> twice[k] == tasks[k] by {
      forall k | 0 <= k < |tasks|
        ensures twice[k] == tasks[k]
      {
        assert once[k].id == tasks[k].id;
      }
    }
  }

  /** An id that no task has changes nothing. */
  lemma ToggledMissing(tasks: seq<Task>, taskId: int)
    requires forall k :: 0 <= k < |tasks| ==> tasks[k].id != taskId
    ensures Toggled(tasks, taskId) == tasks
  {
    var r := Toggled(tasks, taskId);
    assert forall k :: 0 <= k < |tasks| ==> r[k] == tasks[k];
  }

  /** With sequential ids, toggling an id in range changes exactly the task
      at position `taskId - 1`, and no other. */
  lemma ToggledSequential(tasks: seq<Task>, taskId: int)
    requires SequentialIds(tasks) && 1 <= taskId <= |tasks|
    ensures Toggled(tasks, taskId)
              == tasks[taskId - 1 := tasks[taskId - 1].(isCompleted := !tasks[taskId - 1].isCompleted)]
  {
    var r := Toggled(tasks, taskId);
    var u := tasks[taskId - 1 := tasks[taskId - 1].(isCompleted := !tasks[taskId - 1].isCompleted)];
    assert forall k :: 0 <= k < |tasks| ==> r[k] == u[k];
  }

  /** The screen's state: the task list and the form's input fields. */
  class TaskManager {
    var tasks: seq<Task>
    var taskTitle: string
    var taskDescription: string
    var selectedCategory: Category
    var selectedPriority: Priority
    var dueDate: string
    var taskProgress: int

    ghost predicate Valid()
      reads this
    {
      SequentialIds(tasks)
    }

    constructor()
      ensures Valid()
      ensures tasks == [] && taskTitle == "" && taskDescription == ""
      ensures selectedCategory == Work && selectedPriority == Medium
      ensures dueDate == "" && taskProgress == 0
    {
      tasks := [];
      taskTitle := "";
      taskDescription := "";
      selectedCategory := Work;
      selectedPriority := Medium;
      dueDate := "";
      taskProgress := 0;
    }

    /** `addTask`: a title that JavaScript's `trim` reduces to nothing
        changes nothing at all. Otherwise a new, incomplete task is appended
        behind the unchanged old tasks; it has the next id and the form's
        title (untrimmed), description, category, priority, due date and
        progress; and title, description and due date are cleared. */
    method AddTask()
      requires Valid()
      modifies this
      ensures Valid()
      ensures AllSpace(old(taskTitle), IsJsSpace) ==>
                && tasks == old(tasks) && taskTitle == old(taskTitle)
                && taskDescription == old(taskDescription) && dueDate == old(dueDate)
      ensures !AllSpace(old(taskTitle), IsJsSpace) ==>
                && tasks == old(tasks) + [Task(|old(tasks)| + 1, old(taskTitle), old(taskDescription),
                                               old(selectedCategory), old(selectedPriority),
                                               old(dueDate), old(taskProgress), false)]
                && taskTitle == "" && taskDescription == "" && dueDate == ""
      ensures selectedCategory == old(selectedCategory) && selectedPriority == old(selectedPriority)
      ensures taskProgress == old(taskProgress)
    {
      if Trim(taskTitle, IsJsSpace) != [] {
        var newTask := Task(
          |tasks| + 1, taskTitle, taskDescription, selectedCategory,
          selectedPriority, dueDate, taskProgress, false);
        tasks := tasks + [newTask];
        taskTitle := "";
        taskDescription := "";
        dueDate := "";
      }
    }

    /** `toggleCompletion(taskId)`: the list becomes `Toggled(tasks,
        taskId)`; the form is untouched. */
    method ToggleCompletion(taskId: int)
      requires Valid()
      modifies this`tasks
      ensures Valid()
      ensures tasks == Toggled(old(tasks), taskId)
    {
      tasks := Toggled(tasks, taskId);
    }

    /** The `onChangeText` handler of the title field. */
    method SetTaskTitle(text: string)
      requires Valid()
      modifies this`taskTitle
      ensures Valid()
      ensures taskTitle == text
    {
      taskTitle := text;
    }

    /** The `onChangeText` handler of the description field. */
    method SetTaskDescription(text: string)
      requires Valid()
      modifies this`taskDescription
      ensures Valid()
      ensures taskDescription == text
    {
      taskDescription := text;
    }

    /** The `onChangeText` handler of the due-date field. */
    method SetDueDate(text: string)
      requires Valid()
      modifies this`dueDate
      ensures Valid()
      ensures dueDate == text
    {
      dueDate := text;
    }

    /** A press on one of the category buttons. */
    method SelectCategory(category: Category)
      requires Valid()
      modifies this`selectedCategory
      ensures Valid()
      ensures selectedCategory == category
    {
      selectedCategory := category;
    }

    /** A press on one of the priority buttons. */
    method SelectPriority(priority: Priority)
      requires Valid()
      modifies this`selectedPriority
      ensures Valid()
      ensures selectedPriority == priority
    {
      selectedPriority := priority;
    }
  }
}
