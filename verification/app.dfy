/**
 * The `App` component's state and its handlers (src/App.jsx). Each React
 * state slot is a field; each handler is one atomic transition of these
 * fields, stated against the pure list transforms of module Tasks.
 */
module TodoApp {
  import opened Tasks
  import opened Consistency

  /** Widest window, in pixels, at which choosing a view also toggles the drawer. */
  const DrawerBreakpoint: int := 1300

  class App {
    /** Every task, newest additions first. */
    var allTasks: seq<Task>
    /** The tasks shown in the completed view, kept in step with allTasks by id. */
    var completedTasks: seq<Task>
    /** Whether the edit dialog is open. */
    var isEditDialog: bool
    /** The working copy of the task being edited (`null` is None). */
    var isEditable: Option<Task>
    /** Whether the completed view is selected. */
    var isCompleted: bool
    /** Whether the drawer is open in its temporary, narrow-window form. */
    var mobileOpen: bool

    /** An open dialog always has a working copy to show and commit. */
    ghost predicate Valid()
      reads this`isEditDialog, this`isEditable
    {
      isEditDialog ==> isEditable.Some?
    }

    /**
     * The lists are coherent (consistent by id, distinct ids, only completed
     * tasks in the completed list) and an open dialog's working copy has the
     * flag of the tasks it will replace.
     */
    ghost predicate Coherent()
      reads this`allTasks, this`completedTasks, this`isEditDialog, this`isEditable
    {
      ListsCoherent(allTasks, completedTasks) &&
      (isEditDialog && isEditable.Some? ==> FlagAgrees(allTasks, isEditable.value))
    }

    /** The initial `useState` values. */
    constructor ()
      ensures Valid() && Coherent()
      ensures allTasks == [] && completedTasks == []
      ensures !isEditDialog && isEditable == None && !isCompleted && !mobileOpen
    {
      allTasks := [];
      completedTasks := [];
      isEditDialog := false;
      isEditable := None;
      isCompleted := false;
      mobileOpen := false;
    }

    /**
     * The seed load's success handler: the fetched list replaces the full
     * list, and its completed tasks replace the completed list.
     */
    method LoadSeed(data: seq<Task>)
      modifies this`allTasks, this`completedTasks
      ensures allTasks == data
      ensures completedTasks == CompletedOnly(data)
      ensures Consistent(allTasks, completedTasks)
      ensures IdSet(completedTasks) <= IdSet(allTasks)
      ensures DistinctIds(data) && !isEditDialog ==> Coherent()
    {
      allTasks := data;
      completedTasks := CompletedOnly(data);
      CompletedIdsWithin(data);
      if DistinctIds(data) {
        SeedIsCoherent(data);
      }
    }

    /**
     * `handleAddTask`: a new uncompleted task whose id is the old length plus
     * one goes in front of the full list; the completed list is untouched.
     */
    method HandleAddTask(title: string)
      modifies this`allTasks
      ensures |allTasks| == |old(allTasks)| + 1
      ensures allTasks[0] == Task(|old(allTasks)| + 1, title, false)
      ensures allTasks[1..] == old(allTasks)
      ensures allTasks == WithNewTask(old(allTasks), title)
      ensures old(Consistent(allTasks, completedTasks)) ==> Consistent(allTasks, completedTasks)
      ensures old(DistinctIds(allTasks) && DenseIds(allTasks)) ==>
                DistinctIds(allTasks) && DenseIds(allTasks)
      ensures old(Coherent() && DenseIds(allTasks)) && !isEditDialog ==> Coherent()
    {
      var newTask := Task(|allTasks| + 1, title, false);
      ghost var all, completed := allTasks, completedTasks;
      allTasks := [newTask] + allTasks;
      if Consistent(all, completed) {
        AddKeepsConsistent(all, completed, title);
      }
      if DistinctIds(all) && DenseIds(all) {
        AddKeepsDenseIds(all, title);
      }
      if ListsCoherent(all, completed) && DenseIds(all) {
        AddKeepsCoherent(all, completed, title);
      }
    }

    /** `handleDelete`: every task with the id of `todo` leaves both lists. */
    method HandleDelete(todo: Task)
      modifies this`allTasks, this`completedTasks
      ensures allTasks == RemoveId(old(allTasks), todo.id)
      ensures completedTasks == RemoveId(old(completedTasks), todo.id)
      ensures todo.id !in IdSet(allTasks) && todo.id !in IdSet(completedTasks)
      ensures old(Consistent(allTasks, completedTasks)) ==> Consistent(allTasks, completedTasks)
      ensures old(DistinctIds(allTasks)) ==> DistinctIds(allTasks)
      ensures old(Coherent()) ==> Coherent()
    {
      ghost var all, completed := allTasks, completedTasks;
      allTasks := RemoveId(allTasks, todo.id);
      completedTasks := RemoveId(completedTasks, todo.id);
      if Consistent(all, completed) {
        DeleteKeepsConsistent(all, completed, todo.id);
      }
      if DistinctIds(all) {
        RemoveIdKeepsDistinct(all, todo.id);
      }
      if ListsCoherent(all, completed) && isEditable.Some? {
        DeleteKeepsCoherent(all, completed, todo.id, isEditable.value);
      }
    }

    /**
     * `handleCompleted`: the flag of every task with the id of `todo` is
     * negated in the full list. If the completed list holds that id, every
     * task with it leaves the completed list; otherwise a copy of `todo`
     * with its flag negated goes in front.
     */
    method HandleCompleted(todo: Task)
      modifies this`allTasks, this`completedTasks
      ensures allTasks == FlipId(old(allTasks), todo.id)
      ensures todo.id in old(IdSet(completedTasks)) ==>
                completedTasks == RemoveId(old(completedTasks), todo.id)
      ensures todo.id !in old(IdSet(completedTasks)) ==>
                completedTasks == [todo.(completed := !todo.completed)] + old(completedTasks)
      ensures completedTasks == ToggleCompletedList(old(completedTasks), todo)
      ensures old(Consistent(allTasks, completedTasks) && DistinctIds(allTasks) && todo.id in IdSet(allTasks)) ==>
                Consistent(allTasks, completedTasks)
      ensures old(DistinctIds(allTasks)) ==> DistinctIds(allTasks)
      ensures old(Coherent() && (todo in allTasks || todo in completedTasks)) && !isEditDialog ==>
                Coherent()
    {
      ghost var all, completed := allTasks, completedTasks;
      allTasks := FlipId(allTasks, todo.id);
      var found := FindId(completedTasks, todo.id);
      if found.Some? {
        completedTasks := RemoveId(completedTasks, todo.id);
      } else {
        completedTasks := [todo.(completed := !todo.completed)] + completedTasks;
      }
      if Consistent(all, completed) && DistinctIds(all) && todo.id in IdSet(all) {
        ToggleKeepsConsistent(all, completed, todo);
      }
      FlipIdKeepsIds(all, todo.id);
      if ListsCoherent(all, completed) && (todo in all || todo in completed) {
        ToggleKeepsCoherent(all, completed, todo);
      }
    }

    /** `toggleEditDialogBox` (Cancel and the dialog's close): opens or closes the dialog. */
    method ToggleEditDialogBox()
      requires Valid()
      requires isEditDialog || isEditable.Some?
      modifies this`isEditDialog
      ensures Valid()
      ensures isEditDialog == !old(isEditDialog)
      ensures old(Coherent() && isEditDialog) ==> Coherent()
    {
      isEditDialog := !isEditDialog;
    }

    /** `onUpdateTask`: the working copy takes the typed title and keeps its id and flag. */
    method OnUpdateTask(text: string)
      requires isEditable.Some?
      modifies this`isEditable
      ensures isEditable.Some?
      ensures isEditable.value.title == text
      ensures isEditable.value.id == old(isEditable.value.id)
      ensures isEditable.value.completed == old(isEditable.value.completed)
      ensures old(Coherent()) ==> Coherent()
    {
      isEditable := Some(isEditable.value.(title := text));
    }

    /**
     * `handleEdit`: with the dialog closed, opens it on `todo`; with the
     * dialog open, ignores its argument, writes the working copy over every
     * task with its id in both lists and closes the dialog, keeping the
     * working copy.
     */
    method HandleEdit(todo: Task)
      requires Valid()
      modifies this`allTasks, this`completedTasks, this`isEditDialog, this`isEditable
      ensures Valid()
      ensures isEditDialog == !old(isEditDialog)
      ensures !old(isEditDialog) ==>
                isEditable == Some(todo) &&
                allTasks == old(allTasks) && completedTasks == old(completedTasks)
      ensures old(isEditDialog) ==>
                isEditable == old(isEditable) &&
                allTasks == ReplaceId(old(allTasks), isEditable.value) &&
                completedTasks == ReplaceId(old(completedTasks), isEditable.value)
      ensures old(isEditDialog && Consistent(allTasks, completedTasks) && FlagAgrees(allTasks, isEditable.value)) ==>
                Consistent(allTasks, completedTasks)
      ensures old(DistinctIds(allTasks)) ==> DistinctIds(allTasks)
      ensures old(Coherent() && (isEditDialog || todo in allTasks || todo in completedTasks)) ==> Coherent()
    {
      if !isEditDialog {
        isEditDialog := true;
        isEditable := Some(todo);
        if ListsCoherent(allTasks, completedTasks) && (todo in allTasks || todo in completedTasks) {
          OpenEditAgrees(allTasks, completedTasks, todo);
        }
      } else {
        var e := isEditable.value;
        ghost var all, completed := allTasks, completedTasks;
        allTasks := ReplaceId(allTasks, e);
        completedTasks := ReplaceId(completedTasks, e);
        isEditDialog := false;
        if Consistent(all, completed) && FlagAgrees(all, e) {
          CommitKeepsConsistent(all, completed, e);
        }
        if ListsCoherent(all, completed) && FlagAgrees(all, e) {
          CommitKeepsCoherent(all, completed, e);
        }
        ReplaceIdKeepsIds(all, e);
      }
    }

    /** `handleDrawerToggle`: opens or closes the temporary drawer. */
    method HandleDrawerToggle()
      modifies this`mobileOpen
      ensures mobileOpen == !old(mobileOpen)
    {
      mobileOpen := !mobileOpen;
    }

    /**
     * `toggleCompletedTask`, behind both drawer buttons: switches the view
     * and, in a window no wider than the breakpoint, also the drawer.
     */
    method ToggleCompletedTask(windowWidth: int)
      modifies this`isCompleted, this`mobileOpen
      ensures isCompleted == !old(isCompleted)
      ensures mobileOpen == (if windowWidth <= DrawerBreakpoint then !old(mobileOpen) else old(mobileOpen))
    {
      isCompleted := !isCompleted;
      if windowWidth <= DrawerBreakpoint {
        HandleDrawerToggle();
      }
    }

    /**
     * The list on screen: the full list, or in the completed view the
     * completed list, whose ids are then exactly the completed ids of the
     * full list whenever the two lists are consistent.
     */
    function Shown(): (r: seq<Task>)
      reads this`isCompleted, this`allTasks, this`completedTasks
      ensures !isCompleted ==> r == allTasks
      ensures isCompleted ==> r == completedTasks
      ensures isCompleted && Consistent(allTasks, completedTasks) ==>
                IdSet(r) == IdSet(CompletedOnly(allTasks)) && IdSet(r) <= IdSet(allTasks)
    {
      CompletedIdsWithin(allTasks);
      if isCompleted then completedTasks else allTasks
    }
  }

  /**
   * Opening the dialog on a task and typing a title leaves the dialog open
   * on a copy of the task with that title, and both lists untouched.
   */
  method OpenAndType(app: App, todo: Task, text: string)
    requires app.Valid() && !app.isEditDialog
    modifies app
    ensures app.Valid() && app.isEditDialog && app.isEditable == Some(todo.(title := text))
    ensures app.isCompleted == old(app.isCompleted) && app.mobileOpen == old(app.mobileOpen)
    ensures app.allTasks == old(app.allTasks) && app.completedTasks == old(app.completedTasks)
  {
    app.HandleEdit(todo);
    app.OnUpdateTask(text);
  }

  /**
   * Opening the dialog on a task, typing a title and confirming renames every
   * task with that id in both lists and changes nothing else in them.
   */
  method RenameThroughDialog(app: App, todo: Task, text: string)
    requires app.Valid() && !app.isEditDialog
    modifies app
    ensures app.Valid() && !app.isEditDialog
    ensures app.isCompleted == old(app.isCompleted) && app.mobileOpen == old(app.mobileOpen)
    ensures app.allTasks == ReplaceId(old(app.allTasks), todo.(title := text))
    ensures app.completedTasks == ReplaceId(old(app.completedTasks), todo.(title := text))
  {
    OpenAndType(app, todo, text);
    app.HandleEdit(todo);
  }

  /** Opening the dialog, typing and cancelling leaves both lists as they were. */
  method CancelThroughDialog(app: App, todo: Task, text: string)
    requires app.Valid() && !app.isEditDialog
    modifies app
    ensures app.Valid() && !app.isEditDialog
    ensures app.isCompleted == old(app.isCompleted) && app.mobileOpen == old(app.mobileOpen)
    ensures app.allTasks == old(app.allTasks) && app.completedTasks == old(app.completedTasks)
  {
    app.HandleEdit(todo);
    app.OnUpdateTask(text);
    app.ToggleEditDialogBox();
  }

  /** Choosing a view twice restores the view and the drawer. */
  method ToggleViewTwice(app: App, windowWidth: int)
    modifies app
    ensures app.isCompleted == old(app.isCompleted) && app.mobileOpen == old(app.mobileOpen)
    ensures app.allTasks == old(app.allTasks) && app.completedTasks == old(app.completedTasks)
    ensures app.isEditDialog == old(app.isEditDialog) && app.isEditable == old(app.isEditable)
  {
    app.ToggleCompletedTask(windowWidth);
    app.ToggleCompletedTask(windowWidth);
  }

  /**
   * Seed [1 "A"], add "B", complete task 1, switch to the completed view,
   * delete task 2: the completed view shows task 1 completed, and it is the
   * only task left.
   */
  method Walkthrough() returns (shown: seq<Task>, remaining: seq<Task>)
    ensures shown == [Task(1, "A", true)]
    ensures remaining == [Task(1, "A", true)]
  {
    var app := new App();
    app.LoadSeed([Task(1, "A", false)]);
    app.HandleAddTask("B");
    assert app.allTasks == [Task(2, "B", false), Task(1, "A", false)];
    app.HandleCompleted(Task(1, "A", false));
    assert app.allTasks == [Task(2, "B", false), Task(1, "A", true)];
    assert app.completedTasks == [Task(1, "A", true)];
    app.ToggleCompletedTask(1920);
    shown := app.Shown();
    app.HandleDelete(Task(2, "B", false));
    assert app.allTasks[1..] == [];
    remaining := app.allTasks;
  }
}
