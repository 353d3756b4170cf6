/**
 * The "Edit Task" dialog: a local, nullable copy of the task being edited. Its checklist
 * updaters are pure functions of the previous copy that map a missing task to a missing
 * task; the copy itself, its re-sync from the parent's prop and the save handler form a class.
 */
module UpdateTask {
  import opened Wrappers
  import opened Remote
  import opened Checklist

  /** A task row as the dialog sees it. `orderIndex` is a JavaScript number no code here computes with. */
  datatype Task = Task(
    id: int,
    title: string,
    description: string,
    createdAt: string,
    orderIndex: real,
    completed: bool,
    dueDate: string,
    userId: string,
    checklistItems: Option<seq<ChecklistItem>>)

  function Items(task: Task): seq<ChecklistItem> {
    OrEmpty(task.checklistItems)
  }

  /** `after` is `before` in every field but the checklist. */
  predicate SameExceptChecklist(before: Task, after: Task) {
    after == before.(checklistItems := after.checklistItems)
  }

  /** handleEditingChecklistItemChange's updater. */
  function ChangeItemText(prev: Option<Task>, index: int, value: string): (r: Option<Task>)
    ensures r.Some? <==> prev.Some?
    ensures prev.Some? ==> SameExceptChecklist(prev.value, r.value) && r.value.checklistItems.Some?
    ensures prev.Some? ==> |Items(r.value)| == |Items(prev.value)|
    ensures prev.Some? ==> forall j :: 0 <= j < |Items(r.value)| && j != index ==> Items(r.value)[j] == Items(prev.value)[j]
    ensures prev.Some? && InRange(Items(prev.value), index) ==>
              Items(r.value)[index] == Items(prev.value)[index].(text := value)
    ensures prev.Some? && !InRange(Items(prev.value), index) ==> Items(r.value) == Items(prev.value)
  {
    match prev
    case None => None
    case Some(t) => Some(t.(checklistItems := Some(SetText(OrEmpty(t.checklistItems), index, value))))
  }

  /** handleAddEditingChecklistItem's updater. */
  function AddItem(prev: Option<Task>): (r: Option<Task>)
    ensures r.Some? <==> prev.Some?
    ensures prev.Some? ==> SameExceptChecklist(prev.value, r.value) && r.value.checklistItems.Some?
    ensures prev.Some? ==> |Items(r.value)| == |Items(prev.value)| + 1
    ensures prev.Some? ==> Items(r.value)[..|Items(prev.value)|] == Items(prev.value)
    ensures prev.Some? ==> Items(r.value)[|Items(prev.value)|] == EmptyItem
  {
    match prev
    case None => None
    case Some(t) => Some(t.(checklistItems := Some(Append(OrEmpty(t.checklistItems)))))
  }

  /** handleRemoveEditingChecklistItem's updater. */
  function RemoveItem(prev: Option<Task>, index: int): (r: Option<Task>)
    ensures r.Some? <==> prev.Some?
    ensures prev.Some? ==> SameExceptChecklist(prev.value, r.value) && r.value.checklistItems.Some?
    ensures prev.Some? ==> Items(r.value) == if InRange(Items(prev.value), index)
                                              then Items(prev.value)[..index] + Items(prev.value)[index + 1..]
                                              else Items(prev.value)
  {
    match prev
    case None => None
    case Some(t) => Some(t.(checklistItems := Some(RemoveAt(OrEmpty(t.checklistItems), index))))
  }

  /** Removing at an in-range index deletes exactly that item and keeps the others in their order. */
  lemma RemoveItemDeletesOne(prev: Option<Task>, index: int)
    requires prev.Some? && InRange(Items(prev.value), index)
    ensures |Items(RemoveItem(prev, index).value)| == |Items(prev.value)| - 1
    ensures forall j :: 0 <= j < |Items(prev.value)| && j != index ==>
              Items(prev.value)[j] == Items(RemoveItem(prev, index).value)[if j < index then j else j - 1]
  {
    var before, after := Items(prev.value), Items(RemoveItem(prev, index).value);
    forall j | 0 <= j < |before| && j != index
      ensures before[j] == after[if j < index then j else j - 1]
    {
      assert after == before[..index] + before[index + 1..];
    }
  }

  /**
   * Removing the item just added gives back the task: AddItem and RemoveItem undo each other,
   * except that a missing checklist comes back present and empty.
   */
  lemma RemoveAddedItem(t: Task)
    ensures RemoveItem(AddItem(Some(t)), |Items(t)|) == Some(t.(checklistItems := Some(Items(t))))
    ensures t.checklistItems.Some? ==> RemoveItem(AddItem(Some(t)), |Items(t)|) == Some(t)
  {
    RemoveAppended(Items(t));
  }

  class UpdateTaskDialog {
    var currentEditingTask: Option<Task>

    /** `useState(editingTask)`: the local copy starts as the prop. */
    constructor (editingTask: Option<Task>)
      ensures currentEditingTask == editingTask
    {
      currentEditingTask := editingTask;
    }

    /** The effect on `[editingTask]`: a new prop replaces the local copy. */
    method SyncEditingTask(editingTask: Option<Task>)
      modifies this
      ensures currentEditingTask == editingTask
    {
      currentEditingTask := editingTask;
    }

    /** Typing in the title input: `prev ? { ...prev, title } : null`. */
    method SetTitle(value: string)
      modifies this
      ensures currentEditingTask.Some? <==> old(currentEditingTask).Some?
      ensures currentEditingTask.Some? ==> currentEditingTask.value == old(currentEditingTask).value.(title := value)
    {
      if currentEditingTask.Some? {
        currentEditingTask := Some(currentEditingTask.value.(title := value));
      }
    }

    /** Typing in the description input. */
    method SetDescription(value: string)
      modifies this
      ensures currentEditingTask.Some? <==> old(currentEditingTask).Some?
      ensures currentEditingTask.Some? ==>
                currentEditingTask.value == old(currentEditingTask).value.(description := value)
    {
      if currentEditingTask.Some? {
        currentEditingTask := Some(currentEditingTask.value.(description := value));
      }
    }

    method HandleEditingChecklistItemChange(index: int, value: string)
      modifies this
      ensures currentEditingTask == ChangeItemText(old(currentEditingTask), index, value)
    {
      currentEditingTask := ChangeItemText(currentEditingTask, index, value);
    }

    method HandleAddEditingChecklistItem()
      modifies this
      ensures currentEditingTask == AddItem(old(currentEditingTask))
    {
      currentEditingTask := AddItem(currentEditingTask);
    }

    method HandleRemoveEditingChecklistItem(index: int)
      modifies this
      ensures currentEditingTask == RemoveItem(old(currentEditingTask), index)
    {
      currentEditingTask := RemoveItem(currentEditingTask, index);
    }

    /**
     * With no task being edited, nothing happens. Otherwise the edited copy goes to `onUpdateTask`,
     * and once that resolves the dialog asks its parent to close (`onOpenChange(false)`);
     * a rejection skips the close. The local copy is not changed either way.
     */
    method HandleSave(settled: Settled) returns (updated: Option<Task>, closeRequested: bool)
      ensures updated == currentEditingTask
      ensures closeRequested <==> currentEditingTask.Some? && settled == Resolved
    {
      updated, closeRequested := None, false;
      if currentEditingTask.Some? {
        updated := currentEditingTask;
        if settled == Rejected {
          return;
        }
        closeRequested := true;
      }
    }
  }
}
