/** The task service: creating a task from validated input, writing the
    fields of an update, and the guarded status change that consults the
    transition table before it writes anything. */
module TaskService {
  import opened Schema
  import TaskStatus
  import FormRequests

  /** The fields a task update may carry; `None` means the field is absent.
      A present description or assignee may itself be null. */
  datatype TaskPatch = TaskPatch(title: Option<string>, description: Option<Option<string>>,
                                 assignedTo: Option<Option<UserId>>)

  /** A task with the patch's present fields written over it. */
  function Patched(t: Task, patch: TaskPatch): (r: Task)
    ensures r.project == t.project && r.status == t.status
    ensures patch.title.None? ==> r.title == t.title
    ensures patch.description.None? ==> r.description == t.description
    ensures patch.assignedTo.None? ==> r.assignedTo == t.assignedTo
    ensures patch.title.Some? ==> r.title == patch.title.value
    ensures patch.description.Some? ==> r.description == patch.description.value
    ensures patch.assignedTo.Some? ==> r.assignedTo == patch.assignedTo.value
  {
    t.(title := if patch.title.Some? then patch.title.value else t.title,
       description := if patch.description.Some? then patch.description.value else t.description,
       assignedTo := if patch.assignedTo.Some? then patch.assignedTo.value else t.assignedTo)
  }

  /** Writing the same fields twice is writing them once, and an empty
      patch writes nothing. */
  lemma PatchIdempotent(t: Task, patch: TaskPatch)
    ensures Patched(Patched(t, patch), patch) == Patched(t, patch)
    ensures Patched(t, TaskPatch(None, None, None)) == t
  {
  }

  /** A later patch's present fields win over an earlier one's. */
  lemma PatchesCompose(t: Task, p1: TaskPatch, p2: TaskPatch)
    ensures p2.title.Some? && p2.description.Some? && p2.assignedTo.Some? ==>
              Patched(Patched(t, p1), p2) == Patched(t, p2)
  {
  }

  /** The outcome of asking for `newStatus`: the task with only its status
      replaced when the table lists the move, a 422 on `status` otherwise. */
  function ChangeStatus(task: Task, newStatus: string): (r: Response<Task>)
    ensures r.Ok? <==> TaskStatus.Permits(task.status, newStatus)
    ensures r.Ok? ==> r.value == task.(status := newStatus)
    ensures !r.Ok? ==> r == Invalid({"status"})
  {
    if TaskStatus.Permits(task.status, newStatus) then Ok(task.(status := newStatus))
    else Invalid({"status"})
  }

  /** Asking for the moves in `moves` one after the other; the first
      refused move ends the sequence with its 422. */
  function ChangeAll(task: Task, moves: seq<string>): (r: Response<Task>)
    decreases |moves|
  {
    if moves == [] then Ok(task)
    else
      match ChangeStatus(task, moves[0])
      case Ok(next) => ChangeAll(next, moves[1..])
      case _ => Invalid({"status"})
  }

  /** When every move of a sequence is accepted, the statuses visited form a
      run of the transition table, the task ends at the last one asked for,
      and no other field has changed. */
  lemma {:induction false} AcceptedMovesFormRun(task: Task, moves: seq<string>)
    requires ChangeAll(task, moves).Ok?
    ensures TaskStatus.IsRun([task.status] + moves)
    ensures ChangeAll(task, moves).value == task.(status := if moves == [] then task.status else moves[|moves| - 1])
    decreases |moves|
  {
    if moves != [] {
      var next := ChangeStatus(task, moves[0]).value;
      AcceptedMovesFormRun(next, moves[1..]);
      var path := [task.status] + moves;
      assert [next.status] + moves[1..] == path[1..];
      forall i | 0 <= i < |path| - 1
        ensures TaskStatus.Permits(path[i], path[i + 1])
      {
        if i > 0 {
          assert path[i] == path[1..][i - 1] && path[i + 1] == path[1..][i];
        }
      }
    }
  }

  /** No sequence of fewer than three accepted moves takes a `todo` task to
      `done`; in three moves the only way is through `in_progress` and
      `review`. */
  lemma TodoReachesDoneThroughReview(task: Task, moves: seq<string>)
    requires task.status == TaskStatus.TODO
    requires ChangeAll(task, moves).Ok? && ChangeAll(task, moves).value.status == TaskStatus.DONE
    ensures |moves| >= 3
    ensures moves[0] == TaskStatus.IN_PROGRESS && moves[|moves| - 2] == TaskStatus.REVIEW
  {
    AcceptedMovesFormRun(task, moves);
    var path := [task.status] + moves;
    if moves == [] {
      assert false;
    }
    TaskStatus.TodoToDoneGoesThroughReview(path);
    assert path[1] == moves[0] && path[|path| - 2] == moves[|moves| - 2];
  }

  /** A `done` task refuses every move, whatever is asked for. */
  lemma DoneTaskIsFrozen(task: Task, newStatus: string)
    requires task.status == TaskStatus.DONE
    ensures ChangeStatus(task, newStatus) == Invalid({"status"})
  {
    TaskStatus.NoMoveFromDoneOrUnknown(task.status, newStatus);
  }

  /** `create`: insert a task row from validated input. The status column is
      not part of the input, so the row takes the table's default. */
  method Create(d: Database, data: FormRequests.TaskInput, defaultStatus: string) returns (id: TaskId)
    requires d.db.Valid()
    requires data.projectId.Some? && data.title.Some?
    modifies d
    ensures d.db.Valid()
    ensures id == old(d.db.nextTask) && id !in old(d.db.tasks)
    ensures d.db == old(d.db).(tasks := old(d.db.tasks)[id := Task(data.projectId.value, data.title.value,
                                                                   data.description, data.assignedTo, defaultStatus)],
                               nextTask := id + 1)
  {
    id := d.db.nextTask;
    var row := Task(data.projectId.value, data.title.value, data.description, data.assignedTo, defaultStatus);
    d.db := d.db.(tasks := d.db.tasks[id := row], nextTask := id + 1);
  }

  /** `update`: write the given fields; the row keeps its id, project and
      status, and no other row changes. */
  method Update(d: Database, t: TaskId, patch: TaskPatch) returns (task: Task)
    requires t in d.db.tasks
    modifies d
    ensures task == Patched(old(d.db.tasks[t]), patch)
    ensures d.db == old(d.db).(tasks := old(d.db.tasks)[t := task])
    ensures old(d.db.Valid()) ==> d.db.Valid()
  {
    task := Patched(d.db.tasks[t], patch);
    d.db := d.db.(tasks := d.db.tasks[t := task]);
  }

  /** `updateStatus`: look the stored status up in the table (a value
      without an entry allows nothing), refuse with a 422 on `status` and
      write nothing when the move is not listed, and otherwise write the
      status column alone. */
  method UpdateStatus(d: Database, t: TaskId, newStatus: string) returns (r: Response<Task>)
    requires t in d.db.tasks
    modifies d
    ensures r == ChangeStatus(old(d.db.tasks[t]), newStatus)
    ensures r.Ok? ==> d.db == old(d.db).(tasks := old(d.db.tasks)[t := r.value])
    ensures !r.Ok? ==> d.db == old(d.db)
    ensures old(d.db.Valid()) ==> d.db.Valid()
  {
    var current := d.db.tasks[t].status;
    var allowed := TaskStatus.Allowed(current);
    if newStatus !in allowed {
      return Invalid({"status"});
    }
    var task := d.db.tasks[t].(status := newStatus);
    d.db := d.db.(tasks := d.db.tasks[t := task]);
    r := Ok(task);
  }
}
