/**
 * The "Add New Task" dialog: a form holding the new task's title, description and
 * checklist, and whether the dialog is open. The checklist updaters are pure functions
 * of the previous form; the component's state and its submit handler form a class.
 */
module AddTask {
  import opened Wrappers
  import opened Remote
  import opened Checklist

  /** The form state. The field is typed as always present; `?? []` guards every read of it. */
  datatype NewTask = NewTask(title: string, description: string, checklistItems: Option<seq<ChecklistItem>>)

  /** The state the form starts in and is reset to after a submit. */
  const EmptyForm := NewTask("", "", Some([]))

  function Items(form: NewTask): seq<ChecklistItem> {
    OrEmpty(form.checklistItems)
  }

  /** The form differs from `prev` at most in its checklist. */
  predicate SameFields(prev: NewTask, form: NewTask) {
    form.title == prev.title && form.description == prev.description
  }

  /** handleAddChecklistItem's updater: one empty, unchecked item more at the end. */
  function WithAddedItem(prev: NewTask): (r: NewTask)
    ensures SameFields(prev, r) && r.checklistItems.Some?
    ensures |Items(r)| == |Items(prev)| + 1
    ensures Items(r)[..|Items(prev)|] == Items(prev)
    ensures Items(r)[|Items(prev)|] == EmptyItem
  {
    prev.(checklistItems := Some(Append(OrEmpty(prev.checklistItems))))
  }

  /** handleNewChecklistItemChange's updater: only the text of the item at `index` changes, if it exists. */
  function WithItemText(prev: NewTask, index: int, value: string): (r: NewTask)
    ensures SameFields(prev, r) && r.checklistItems.Some?
    ensures |Items(r)| == |Items(prev)|
    ensures forall j :: 0 <= j < |Items(r)| && j != index ==> Items(r)[j] == Items(prev)[j]
    ensures InRange(Items(prev), index) ==> Items(r)[index] == Items(prev)[index].(text := value)
    ensures !InRange(Items(prev), index) ==> Items(r) == Items(prev)
  {
    prev.(checklistItems := Some(SetText(OrEmpty(prev.checklistItems), index, value)))
  }

  /** handleRemoveNewChecklistItem's updater: the item at `index` is filtered out, if it exists. */
  function WithoutItem(prev: NewTask, index: int): (r: NewTask)
    ensures SameFields(prev, r) && r.checklistItems.Some?
    ensures Items(r) == if InRange(Items(prev), index)
                        then Items(prev)[..index] + Items(prev)[index + 1..]
                        else Items(prev)
  {
    prev.(checklistItems := Some(RemoveAt(OrEmpty(prev.checklistItems), index)))
  }

  /** A form whose checklist is missing gets a one-item checklist from "Add Checklist Item". */
  lemma AddToMissingChecklist(title: string, description: string)
    ensures WithAddedItem(NewTask(title, description, None)).checklistItems == Some([EmptyItem])
  {
  }

  /** A form whose checklist is missing gets an empty one from an edit or a removal, at any index. */
  lemma EditMissingChecklist(title: string, description: string, index: int, value: string)
    ensures WithItemText(NewTask(title, description, None), index, value).checklistItems == Some([])
    ensures WithoutItem(NewTask(title, description, None), index).checklistItems == Some([])
  {
  }

  class AddTaskDialog {
    var newTask: NewTask
    var isOpen: bool

    /** Every state the component can reach has a checklist, so `?? []` never fires. */
    ghost predicate Valid()
      reads this
    {
      newTask.checklistItems.Some?
    }

    /** `useState({ title: '', description: '', checklist_items: [] })` and `useState(false)`. */
    constructor ()
      ensures Valid() && newTask == EmptyForm && !isOpen
    {
      newTask := EmptyForm;
      isOpen := false;
    }

    /** The dialog's `onOpenChange`: the trigger button opens it, dismissing closes it. */
    method SetOpen(open: bool)
      requires Valid()
      modifies this
      ensures Valid() && isOpen == open && newTask == old(newTask)
    {
      isOpen := open;
    }

    /** Typing in the title input. */
    method SetTitle(value: string)
      requires Valid()
      modifies this
      ensures Valid() && newTask == old(newTask).(title := value) && isOpen == old(isOpen)
    {
      newTask := newTask.(title := value);
    }

    /** Typing in the description input. */
    method SetDescription(value: string)
      requires Valid()
      modifies this
      ensures Valid() && newTask == old(newTask).(description := value) && isOpen == old(isOpen)
    {
      newTask := newTask.(description := value);
    }

    method HandleAddChecklistItem()
      modifies this
      ensures Valid() && newTask == WithAddedItem(old(newTask)) && isOpen == old(isOpen)
    {
      newTask := WithAddedItem(newTask);
    }

    method HandleNewChecklistItemChange(index: int, value: string)
      modifies this
      ensures Valid() && newTask == WithItemText(old(newTask), index, value) && isOpen == old(isOpen)
    {
      newTask := WithItemText(newTask, index, value);
    }

    method HandleRemoveNewChecklistItem(index: int)
      modifies this
      ensures Valid() && newTask == WithoutItem(old(newTask), index) && isOpen == old(isOpen)
    {
      newTask := WithoutItem(newTask, index);
    }

    /**
     * Hands the form to `onAddTask` and awaits it. Once it resolves the form is reset and
     * the dialog closed; if it rejects, the handler stops and the state is left as it was.
     * No title validation happens here.
     */
    method HandleSubmit(settled: Settled) returns (submitted: NewTask)
      requires Valid()
      modifies this
      ensures Valid() && submitted == old(newTask)
      ensures settled == Resolved ==> newTask == EmptyForm && !isOpen
      ensures settled == Rejected ==> newTask == old(newTask) && isOpen == old(isOpen)
    {
      submitted := newTask;
      if settled == Rejected {
        return;
      }
      newTask := EmptyForm;
      isOpen := false;
    }
  }
}
