/**
 * The task board page: an add-task form, the fetched task list and an edit modal.
 * Each handler validates, makes at most one task-store call (whose reply is a parameter)
 * and returns early on a validation failure or a store error. A refresh is issued without
 * being awaited, so each handler reports whether it issued one and the reply to the
 * refresh arrives later, through FetchTasks.
 */
module MainPage {
  import opened Wrappers
  import opened Remote
  import opened Text

  datatype Task = Task(id: int, title: string, description: string, createdAt: string)

  /** The add-task form, which is also the row handed to `insert`. */
  datatype Draft = Draft(title: string, description: string)

  /** The columns handed to `update`, with the id the update is filtered by. */
  datatype UpdateRequest = UpdateRequest(id: int, title: string, description: string)

  const EmptyDraft := Draft("", "")

  class Home {
    var newTask: Draft
    var tasks: seq<Task>
    var editingTask: Option<Task>
    var isUpdateModalOpen: bool

    /** The initial state; mounting then issues one FetchTasks. */
    constructor ()
      ensures newTask == EmptyDraft && tasks == [] && editingTask == None && !isUpdateModalOpen
    {
      newTask := EmptyDraft;
      tasks := [];
      editingTask := None;
      isUpdateModalOpen := false;
    }

    /** The reply to a `select`: rows replace the list; an error leaves the list as it was. */
    method FetchTasks(reply: Fetch<Task>)
      modifies this`tasks
      ensures tasks == if reply.Fetched? then reply.data else old(tasks)
    {
      if reply.FetchErr? {
        return;
      }
      tasks := reply.data;
    }

    /**
     * Adds the drafted task. A blank title is refused before any call; a store error leaves
     * the form filled in and issues no refresh; success clears the form and issues a refresh.
     */
    method HandleSubmit(reply: Status) returns (inserted: Option<Draft>, refetch: bool)
      modifies this`newTask
      ensures IsBlank(old(newTask).title) ==> inserted == None && !refetch && newTask == old(newTask)
      ensures !IsBlank(old(newTask).title) ==> inserted == Some(old(newTask))
      ensures !IsBlank(old(newTask).title) && reply == Err ==> !refetch && newTask == old(newTask)
      ensures !IsBlank(old(newTask).title) && reply == Ok ==> refetch && newTask == EmptyDraft
    {
      TrimEmptyIffBlank(newTask.title);
      if Trim(newTask.title) == [] {
        return None, false;
      }
      inserted := Some(newTask);
      if reply == Err {
        return inserted, false;
      }
      newTask := EmptyDraft;
      refetch := true;
    }

    /** Deletes the task with id `id`; only a successful delete issues a refresh. No state changes here. */
    method HandleDeleteTask(id: int, reply: Status) returns (deleted: int, refetch: bool)
      ensures deleted == id
      ensures refetch <==> reply == Ok
    {
      deleted := id;
      if reply == Err {
        return deleted, false;
      }
      refetch := true;
    }

    /**
     * Saves the task in the modal. With no task being edited nothing happens; a blank title is
     * refused before any call and the modal stays as it is; a store error leaves the modal open
     * with its task; success closes the modal, clears the task and issues a refresh.
     */
    method HandleUpdateTask(reply: Status) returns (request: Option<UpdateRequest>, refetch: bool)
      modifies this`editingTask, this`isUpdateModalOpen
      ensures old(editingTask) == None ==>
                request == None && !refetch && editingTask == None && isUpdateModalOpen == old(isUpdateModalOpen)
      ensures old(editingTask).Some? && IsBlank(old(editingTask).value.title) ==>
                request == None && !refetch && editingTask == old(editingTask) && isUpdateModalOpen == old(isUpdateModalOpen)
      ensures old(editingTask).Some? && !IsBlank(old(editingTask).value.title) ==>
                request == Some(UpdateRequest(old(editingTask).value.id, old(editingTask).value.title,
                                              old(editingTask).value.description))
      ensures old(editingTask).Some? && !IsBlank(old(editingTask).value.title) && reply == Err ==>
                !refetch && editingTask == old(editingTask) && isUpdateModalOpen == old(isUpdateModalOpen)
      ensures old(editingTask).Some? && !IsBlank(old(editingTask).value.title) && reply == Ok ==>
                refetch && editingTask == None && !isUpdateModalOpen
    {
      if editingTask == None {
        return None, false;
      }
      TrimEmptyIffBlank(editingTask.value.title);
      if Trim(editingTask.value.title) == [] {
        return None, false;
      }
      request := Some(UpdateRequest(editingTask.value.id, editingTask.value.title, editingTask.value.description));
      if reply == Err {
        return request, false;
      }
      isUpdateModalOpen := false;
      editingTask := None;
      refetch := true;
    }

    /** A card's "Update" button: the card's task goes into the modal, which opens. */
    method OpenUpdateModal(task: Task)
      modifies this`editingTask, this`isUpdateModalOpen
      ensures editingTask == Some(task) && isUpdateModalOpen
    {
      editingTask := Some(task);
      isUpdateModalOpen := true;
    }

    /** The modal's `onOpenChange` and its "Cancel" button; the edited task is kept. */
    method SetUpdateModalOpen(open: bool)
      modifies this`isUpdateModalOpen
      ensures isUpdateModalOpen == open
    {
      isUpdateModalOpen := open;
    }

    /** Typing in the form's title input. */
    method SetDraftTitle(value: string)
      modifies this`newTask
      ensures newTask == old(newTask).(title := value)
    {
      newTask := newTask.(title := value);
    }

    /** Typing in the form's description input. */
    method SetDraftDescription(value: string)
      modifies this`newTask
      ensures newTask == old(newTask).(description := value)
    {
      newTask := newTask.(description := value);
    }

    /** Typing in the modal's title input: `prev ? { ...prev, title } : null`. */
    method SetEditingTitle(value: string)
      modifies this`editingTask
      ensures editingTask.Some? <==> old(editingTask).Some?
      ensures editingTask.Some? ==> editingTask.value == old(editingTask).value.(title := value)
    {
      if editingTask.Some? {
        editingTask := Some(editingTask.value.(title := value));
      }
    }

    /** Typing in the modal's description input. */
    method SetEditingDescription(value: string)
      modifies this`editingTask
      ensures editingTask.Some? <==> old(editingTask).Some?
      ensures editingTask.Some? ==> editingTask.value == old(editingTask).value.(description := value)
    {
      if editingTask.Some? {
        editingTask := Some(editingTask.value.(description := value));
      }
    }
  }
}
