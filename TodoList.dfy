/** The employee to-do list component (`EmployeeTodoList`): a list of tasks
    in component state, with add (guarded by the form), toggle, a confirmed
    delete, the completed filter and the counts shown on the cards. The id
    of a new task (`Date.now()`) is a parameter. */
module TodoList {
  import opened Wrappers
  import opened Seqs
  import Text

  datatype Priority = High | Medium | Low

  function PriorityName(p: Priority): string
  {
    match p
    case High => "high"
    case Medium => "medium"
    case Low => "low"
  }

  datatype TodoItem = TodoItem(id: int, title: string, description: string, completed: bool,
                               priority: Priority, dueDate: string)

  /** The add-task form. */
  datatype NewTodo = NewTodo(title: string, description: string, priority: Priority, dueDate: string)

  const EmptyForm := NewTodo("", "", Medium, "")

  /** `getPriorityColor`: a distinct class per priority name, "" for anything else. */
  function PriorityColor(priority: string): string
  {
    if priority == "high" then "bg-red-100 text-red-700 hover:bg-red-100"
    else if priority == "medium" then "bg-yellow-100 text-yellow-700 hover:bg-yellow-100"
    else if priority == "low" then "bg-green-100 text-green-700 hover:bg-green-100"
    else ""
  }

  lemma PriorityColorsDistinct(other: string)
    requires other != "high" && other != "medium" && other != "low"
    ensures PriorityColor("high") != PriorityColor("medium") && PriorityColor("medium") != PriorityColor("low")
    ensures PriorityColor("high") != PriorityColor("low")
    ensures forall p: Priority :: PriorityColor(PriorityName(p)) != ""
    ensures PriorityColor(other) == ""
  {
    assert "medium" != "high" && "low" != "high" && "low" != "medium";
    assert PriorityColor("medium") == "bg-yellow-100 text-yellow-700 hover:bg-yellow-100";
    assert PriorityColor("low") == "bg-green-100 text-green-700 hover:bg-green-100";
    assert |PriorityColor("high")| == 40 && |PriorityColor("medium")| == 49 && |PriorityColor("low")| == 46;
  }

  /** The i-th part of a destructuring `split`, `undefined` when absent. */
  function PartOrUndefined(parts: seq<string>, i: nat): string
  {
    if i < |parts| then parts[i] else "undefined"
  }

  /** `const [year, month, day] = dueDate.split('-'); `${day}/${month}/${year}``. */
  function ReformatDueDate(dueDate: string): string
  {
    var parts := Text.Split(dueDate, '-');
    PartOrUndefined(parts, 2) + "/" + PartOrUndefined(parts, 1) + "/" + PartOrUndefined(parts, 0)
  }

  /** An ISO date from the date input, "YYYY-MM-DD", becomes "DD/MM/YYYY". */
  lemma ReformatIsoDate(year: string, month: string, day: string)
    requires '-' !in year && '-' !in month && '-' !in day
    ensures ReformatDueDate(year + "-" + month + "-" + day) == day + "/" + month + "/" + year
  {
    var s := year + "-" + month + "-" + day;
    assert s == year + ['-'] + (month + ['-'] + day);
    Text.SplitFirstPart(year, '-', month + ['-'] + day);
    Text.SplitFirstPart(month, '-', day);
    Text.SplitNoSeparator(day, '-');
    assert Text.Split(s, '-') == [year, month, day];
  }

  /** `todos.map(...)` flipping `completed` on the items with that id. */
  function Toggled(todos: seq<TodoItem>, id: int): (r: seq<TodoItem>)
    ensures |r| == |todos|
    ensures forall i :: 0 <= i < |todos| ==> r[i] == if todos[i].id == id then todos[i].(completed := !todos[i].completed) else todos[i]
  {
    seq(|todos|, i requires 0 <= i < |todos| =>
      if todos[i].id == id then todos[i].(completed := !todos[i].completed) else todos[i])
  }

  /** Toggling twice restores the list; toggling changes `completed` and nothing else. */
  lemma ToggleInvolution(todos: seq<TodoItem>, id: int)
    ensures Toggled(Toggled(todos, id), id) == todos
    ensures forall i :: 0 <= i < |todos| ==>
      Toggled(todos, id)[i].(completed := todos[i].completed) == todos[i]
  {
    assert forall i :: 0 <= i < |todos| ==> Toggled(Toggled(todos, id), id)[i] == todos[i];
  }

  /** `todos.filter(todo => todo.id !== id)`. */
  function WithoutId(todos: seq<TodoItem>, id: int): (r: seq<TodoItem>)
    ensures forall i :: 0 <= i < |r| ==> r[i].id != id
    ensures forall i :: 0 <= i < |todos| && todos[i].id != id ==> todos[i] in r
    ensures IsSubsequence(r, todos)
    ensures forall t :: multiset(r)[t] == if t.id != id then multiset(todos)[t] else 0
  {
    FilterIsSubsequence(todos, (t: TodoItem) => t.id != id);
    FilterMultiset(todos, (t: TodoItem) => t.id != id);
    Filter(todos, (t: TodoItem) => t.id != id)
  }

  function CompletedCount(todos: seq<TodoItem>): nat
  {
    |Filter(todos, (t: TodoItem) => t.completed)|
  }

  function PendingCount(todos: seq<TodoItem>): nat
  {
    |Filter(todos, (t: TodoItem) => !t.completed)|
  }

  function HighPriorityCount(todos: seq<TodoItem>): nat
  {
    |Filter(todos, (t: TodoItem) => !t.completed && t.priority == High)|
  }

  /** The cards add up: completed and pending partition the list, and the
      high-priority count only counts pending tasks. */
  lemma CountsConsistent(todos: seq<TodoItem>)
    ensures CompletedCount(todos) + PendingCount(todos) == |todos|
    ensures HighPriorityCount(todos) <= PendingCount(todos)
  {
    FilterComplement(todos, (t: TodoItem) => t.completed, (t: TodoItem) => !t.completed);
    FilterMonotone(todos, (t: TodoItem) => !t.completed && t.priority == High, (t: TodoItem) => !t.completed);
  }

  /** `filteredTodos`: all tasks, or only the incomplete ones in order. */
  function FilteredTodos(todos: seq<TodoItem>, showCompleted: bool): (r: seq<TodoItem>)
    ensures showCompleted ==> r == todos
    ensures !showCompleted ==> |r| == PendingCount(todos) && IsSubsequence(r, todos)
    ensures !showCompleted ==> forall i :: 0 <= i < |r| ==> !r[i].completed
    ensures !showCompleted ==> forall i :: 0 <= i < |todos| && !todos[i].completed ==> todos[i] in r
  {
    if showCompleted then todos
    else
      FilterIsSubsequence(todos, (t: TodoItem) => !t.completed);
      Filter(todos, (t: TodoItem) => !t.completed)
  }

  class EmployeeTodoList {
    var todos: seq<TodoItem>
    var showCompleted: bool
    var showDialog: bool
    var deleteId: Option<int>
    var newTodo: NewTodo

    constructor (initial: seq<TodoItem>)
      ensures todos == initial && showCompleted && !showDialog && deleteId == None && newTodo == EmptyForm
    {
      todos, showCompleted, showDialog, deleteId, newTodo := initial, true, false, None, EmptyForm;
    }

    /** `addTodo`: a blank title or a missing due date changes nothing and
        names the problem; otherwise the new, incomplete task goes in front,
        the form is reset and the dialog closed. The result is the toast title. */
    method AddTodo(now: int) returns (toast: string)
      modifies this
      ensures Text.Trim(old(newTodo.title)) == [] ==> toast == "Please enter a task" && unchanged(this)
      ensures Text.Trim(old(newTodo.title)) != [] && old(newTodo.dueDate) == [] ==>
        toast == "Please select a due date" && unchanged(this)
      ensures Text.Trim(old(newTodo.title)) != [] && old(newTodo.dueDate) != [] ==>
        && toast == "Task added successfully!"
        && todos == [TodoItem(now, old(newTodo.title), old(newTodo.description), false,
                              old(newTodo.priority), ReformatDueDate(old(newTodo.dueDate)))] + old(todos)
        && |todos| == |old(todos)| + 1 && todos[1..] == old(todos)
        && newTodo == EmptyForm && !showDialog
        && showCompleted == old(showCompleted) && deleteId == old(deleteId)
    {
      if Text.Trim(newTodo.title) == [] {
        return "Please enter a task";
      }
      if newTodo.dueDate == [] {
        return "Please select a due date";
      }
      var formattedDate := ReformatDueDate(newTodo.dueDate);
      var todo := TodoItem(now, newTodo.title, newTodo.description, false, newTodo.priority, formattedDate);
      todos := [todo] + todos;
      newTodo := EmptyForm;
      showDialog := false;
      return "Task added successfully!";
    }

    method ToggleTodo(id: int)
      modifies this
      ensures todos == Toggled(old(todos), id)
      ensures showCompleted == old(showCompleted) && showDialog == old(showDialog)
      ensures deleteId == old(deleteId) && newTodo == old(newTodo)
    {
      todos := Toggled(todos, id);
    }

    /** `confirmDelete`: remember which task the confirmation dialog is about. */
    method ConfirmDelete(id: int)
      modifies this
      ensures deleteId == Some(id)
      ensures todos == old(todos) && showCompleted == old(showCompleted)
      ensures showDialog == old(showDialog) && newTodo == old(newTodo)
    {
      deleteId := Some(id);
    }

    /** `deleteTodo`: removes the tasks with the remembered id and raises the
        deletion toast; nothing happens, and no toast is raised, when no
        deletion is pending. */
    method DeleteTodo() returns (toast: Option<string>)
      modifies this
      ensures old(deleteId).None? ==> toast == None && unchanged(this)
      ensures old(deleteId).Some? ==>
        && todos == WithoutId(old(todos), old(deleteId).value) && deleteId == None
        && toast == Some("Task deleted successfully")
      ensures showCompleted == old(showCompleted) && showDialog == old(showDialog) && newTodo == old(newTodo)
    {
      toast := None;
      if deleteId.Some? {
        todos := WithoutId(todos, deleteId.value);
        toast := Some("Task deleted successfully");
        deleteId := None;
      }
    }

    /** The Hide/Show Completed button. */
    method ToggleShowCompleted()
      modifies this
      ensures showCompleted == !old(showCompleted)
      ensures todos == old(todos) && showDialog == old(showDialog)
      ensures deleteId == old(deleteId) && newTodo == old(newTodo)
    {
      showCompleted := !showCompleted;
    }
  }
}
