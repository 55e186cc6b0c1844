/** The frontend task store: its copy of the transition table, the
    by-status getter, and the actions that keep the in-memory task list in
    step with the backend, including the optimistic status change that is
    rolled back when the request fails. Each request's outcome is a
    parameter. */
module TasksStore {
  import opened Schema
  import TaskStatus
  import ListOps
  import opened Remote

  /** `STATUS_TRANSITIONS`. */
  const STATUS_TRANSITIONS: map<string, seq<string>> :=
    map["todo" := ["in_progress"],
        "in_progress" := ["review"],
        "review" := ["done", "in_progress"],
        "done" := []]

  /** A comment as the store keeps it. */
  datatype CommentJson = CommentJson(id: int, body: string)

  /** A task as the store keeps it; `comments` may be absent. */
  datatype TaskJson = TaskJson(id: int, name: string, description: Option<string>, status: string,
                               assignedTo: Option<int>, projectId: int, comments: Option<seq<CommentJson>>)

  /** The pagination block of a task listing. */
  datatype PaginationMeta = PaginationMeta(currentPage: int, lastPage: int, total: int)

  function IdOf(t: TaskJson): int { t.id }
  function StatusOf(t: TaskJson): string { t.status }
  function CommentIdOf(c: CommentJson): int { c.id }

  /** `canTransition`: a status the table has no entry for allows nothing. */
  function CanTransition(from: string, to: string): (r: bool)
    ensures r ==> from in STATUS_TRANSITIONS && to in STATUS_TRANSITIONS[from]
  {
    if from in STATUS_TRANSITIONS then to in STATUS_TRANSITIONS[from] else false
  }

  /** The frontend table is the backend's table, so the store allows
      exactly the moves the service accepts. */
  lemma TablesAgree(from: string, to: string)
    ensures STATUS_TRANSITIONS == TaskStatus.Transitions
    ensures CanTransition(from, to) <==> TaskStatus.Permits(from, to)
  {
  }

  /** `tasksByStatus`: the tasks with status `s`, in list order. */
  function TasksByStatus(tasks: seq<TaskJson>, s: string): (r: seq<TaskJson>)
    ensures forall t :: t in r <==> t in tasks && t.status == s
    ensures |r| <= |tasks|
  {
    ListOps.Keep(tasks, StatusOf, s)
  }

  /** The by-status lists split a list whose statuses are the enum's cases:
      each task lands in exactly one column, as often as it occurs. */
  lemma {:induction false} ColumnsPartitionTasks(tasks: seq<TaskJson>)
    requires forall t :: t in tasks ==> t.status in TaskStatus.Cases
    ensures multiset(TasksByStatus(tasks, TaskStatus.TODO)) + multiset(TasksByStatus(tasks, TaskStatus.IN_PROGRESS))
            + multiset(TasksByStatus(tasks, TaskStatus.REVIEW)) + multiset(TasksByStatus(tasks, TaskStatus.DONE))
            == multiset(tasks)
  {
    if tasks != [] {
      var t, rest := tasks[0], tasks[1..];
      ColumnsPartitionTasks(rest);
      assert tasks == [t] + rest;
      ColumnSplits(t, rest, TaskStatus.TODO);
      ColumnSplits(t, rest, TaskStatus.IN_PROGRESS);
      ColumnSplits(t, rest, TaskStatus.REVIEW);
      ColumnSplits(t, rest, TaskStatus.DONE);
      OneTaskOneColumn(t);
    }
  }

  /** A column of a list is the head's column followed by the tail's. */
  lemma ColumnSplits(t: TaskJson, rest: seq<TaskJson>, s: string)
    ensures multiset(TasksByStatus([t] + rest, s)) == multiset(TasksByStatus([t], s)) + multiset(TasksByStatus(rest, s))
  {
    ListOps.KeepAppend([t], rest, StatusOf, s);
  }

  /** A single task with one of the enum's statuses lands in exactly one column. */
  lemma OneTaskOneColumn(t: TaskJson)
    requires t.status in TaskStatus.Cases
    ensures multiset(TasksByStatus([t], TaskStatus.TODO)) + multiset(TasksByStatus([t], TaskStatus.IN_PROGRESS))
            + multiset(TasksByStatus([t], TaskStatus.REVIEW)) + multiset(TasksByStatus([t], TaskStatus.DONE))
            == multiset([t])
  {
    assert ListOps.Keep([t][1..], StatusOf, t.status) == [];
  }

  /** `mergeTask`: replace the first task with the same id, or append. */
  function Merge(tasks: seq<TaskJson>, task: TaskJson): (r: seq<TaskJson>)
    ensures task in r
    ensures var i := ListOps.FindIndex(tasks, IdOf, task.id);
            |r| == if i >= 0 then |tasks| else |tasks| + 1
    ensures var i := ListOps.FindIndex(tasks, IdOf, task.id);
            i >= 0 ==> r[i] == task && forall j :: 0 <= j < |tasks| && j != i ==> r[j] == tasks[j]
    ensures var i := ListOps.FindIndex(tasks, IdOf, task.id);
            i < 0 ==> r[..|tasks|] == tasks && r[|tasks|] == task
  {
    var i := ListOps.FindIndex(tasks, IdOf, task.id);
    if i != -1 then
      assert tasks[i := task][i] == task;
      tasks[i := task]
    else
      assert (tasks + [task])[|tasks|] == task;
      tasks + [task]
  }

  /** `removeTask`: every task with that id goes, the rest keep their order. */
  function Remove(tasks: seq<TaskJson>, id: int): (r: seq<TaskJson>)
    ensures forall t :: t in r <==> t in tasks && t.id != id
  {
    ListOps.Drop(tasks, IdOf, id)
  }

  /** Removing a task undoes merging it: whatever the list held, merging a
      task and removing its id leaves the list with that id removed. */
  lemma RemoveAfterMerge(tasks: seq<TaskJson>, task: TaskJson)
    ensures Remove(Merge(tasks, task), task.id) == Remove(tasks, task.id)
  {
    var i := ListOps.FindIndex(tasks, IdOf, task.id);
    if i != -1 {
      MergeAtSameId(tasks, i, task);
    } else {
      ListOps.DropAppend(tasks, [task], IdOf, task.id);
    }
  }

  /** Replacing an element by one with the same key does not change the
      list `Drop` leaves for that key. */
  lemma {:induction false} MergeAtSameId(tasks: seq<TaskJson>, i: int, task: TaskJson)
    requires 0 <= i < |tasks| && tasks[i].id == task.id
    ensures ListOps.Drop(tasks[i := task], IdOf, task.id) == ListOps.Drop(tasks, IdOf, task.id)
  {
    if i == 0 {
      assert tasks[i := task][1..] == tasks[1..];
    } else {
      MergeAtSameId(tasks[1..], i - 1, task);
      assert tasks[i := task][1..] == tasks[1..][i - 1 := task];
    }
  }

  /** Merging the same task twice is merging it once. */
  lemma MergeIdempotent(tasks: seq<TaskJson>, task: TaskJson)
    ensures Merge(Merge(tasks, task), task) == Merge(tasks, task)
  {
    var once := Merge(tasks, task);
    var i := ListOps.FindIndex(tasks, IdOf, task.id);
    if i == -1 {
      assert once[|tasks|] == task;
      var j := ListOps.FindIndex(once, IdOf, task.id);
      assert j == |tasks|;
    } else {
      assert once == tasks[i := task];
      assert IdOf(once[i]) == task.id;
      assert forall k :: 0 <= k < i ==> IdOf(once[k]) == IdOf(tasks[k]) != task.id;
      var j := ListOps.FindIndex(once, IdOf, task.id);
      assert j == i;
    }
  }

  /** The task at index `i` with `comment` appended to its comments. */
  function WithComment(tasks: seq<TaskJson>, i: int, comment: CommentJson): (r: seq<TaskJson>)
    requires 0 <= i < |tasks|
    ensures |r| == |tasks| && forall j :: 0 <= j < |tasks| && j != i ==> r[j] == tasks[j]
    ensures r[i].comments.Some? && |r[i].comments.value| > 0
            && r[i].comments.value[|r[i].comments.value| - 1] == comment
    ensures r[i].comments.value[..|r[i].comments.value| - 1]
            == if tasks[i].comments.Some? then tasks[i].comments.value else []
    ensures r[i].(comments := tasks[i].comments) == tasks[i]
  {
    var existing := if tasks[i].comments.Some? then tasks[i].comments.value else [];
    tasks[i := tasks[i].(comments := Some(existing + [comment]))]
  }

  /** The task at index `i` without the comments that carry `commentId`. */
  function WithoutComment(tasks: seq<TaskJson>, i: int, commentId: int): (r: seq<TaskJson>)
    requires 0 <= i < |tasks|
    ensures |r| == |tasks| && forall j :: 0 <= j < |tasks| && j != i ==> r[j] == tasks[j]
    ensures r[i].comments.Some? && forall c :: c in r[i].comments.value ==> c.id != commentId
    ensures forall c :: c in r[i].comments.value <==>
              tasks[i].comments.Some? && c in tasks[i].comments.value && c.id != commentId
    ensures r[i].(comments := tasks[i].comments) == tasks[i]
  {
    var kept := if tasks[i].comments.Some? then ListOps.Drop(tasks[i].comments.value, CommentIdOf, commentId) else [];
    tasks[i := tasks[i].(comments := Some(kept))]
  }

  /** Adding a comment and then deleting it by its id leaves the task's
      other comments in order, when no earlier comment shared the id. */
  lemma DeleteUndoesAdd(tasks: seq<TaskJson>, i: int, comment: CommentJson)
    requires 0 <= i < |tasks| && tasks[i].comments.Some?
    requires forall c :: c in tasks[i].comments.value ==> c.id != comment.id
    ensures WithoutComment(WithComment(tasks, i, comment), i, comment.id) == tasks
  {
    var existing := tasks[i].comments.value;
    var added := WithComment(tasks, i, comment);
    assert added == tasks[i := tasks[i].(comments := Some(existing + [comment]))];
    ListOps.DropAppend(existing, [comment], CommentIdOf, comment.id);
    ListOps.DropAbsent(existing, CommentIdOf, comment.id);
    assert ListOps.Drop([comment], CommentIdOf, comment.id) == [];
    assert ListOps.Drop(existing + [comment], CommentIdOf, comment.id) == existing;
    assert added[i].comments == Some(existing + [comment]);
    var removed := WithoutComment(added, i, comment.id);
    assert removed == added[i := added[i].(comments := Some(existing))];
    assert added[i].(comments := Some(existing)) == tasks[i];
    assert removed == tasks;
  }

  class Store {
    var tasks: seq<TaskJson>
    var selectedProjectId: Option<int>
    var meta: Option<PaginationMeta>
    var loading: bool

    constructor ()
      ensures tasks == [] && selectedProjectId == None && meta == None && !loading
    {
      tasks := [];
      selectedProjectId := None;
      meta := None;
      loading := false;
    }

    /** `fetchByProject`: the listing replaces the tasks (an absent list
        reads as empty) and the pagination block; `loading` is cleared
        either way, and a failed request changes nothing else. */
    method FetchByProject(projectId: int, reply: Reply<(Option<seq<TaskJson>>, Option<PaginationMeta>)>)
      modifies this
      ensures !loading && selectedProjectId == old(selectedProjectId)
      ensures reply.Failed? ==> tasks == old(tasks) && meta == old(meta)
      ensures reply.Succeeded? ==>
                && tasks == (if reply.data.0.Some? then reply.data.0.value else [])
                && meta == reply.data.1
    {
      loading := true;
      if reply.Succeeded? {
        tasks := if reply.data.0.Some? then reply.data.0.value else [];
        meta := reply.data.1;
      }
      loading := false;
    }

    /** `updateStatus`: a missing task or a move the table does not list
        changes nothing. Otherwise the new status is shown at once
        (`optimistic`), then replaced by the server's copy of the task, or,
        when the request fails, the task is put back as it was. */
    method UpdateStatus(taskId: int, newStatus: string, reply: Reply<TaskJson>) returns (optimistic: seq<TaskJson>)
      modifies this
      ensures var i := ListOps.FindIndex(old(tasks), IdOf, taskId);
              && (i < 0 || !CanTransition(old(tasks)[i].status, newStatus) ==> tasks == old(tasks) && optimistic == old(tasks))
              && (i >= 0 && CanTransition(old(tasks)[i].status, newStatus) ==>
                    && optimistic == old(tasks)[i := old(tasks)[i].(status := newStatus)]
                    && tasks == (if reply.Succeeded? then old(tasks)[i := reply.data] else old(tasks)))
      ensures selectedProjectId == old(selectedProjectId) && meta == old(meta) && loading == old(loading)
    {
      var found := ListOps.FindIndex(tasks, IdOf, taskId);
      if found < 0 || !CanTransition(tasks[found].status, newStatus) {
        return tasks;
      }
      var task := tasks[found];
      var previousStatus := task.status;
      var index := ListOps.FindIndex(tasks, IdOf, taskId);
      if index != -1 {
        tasks := tasks[index := task.(status := newStatus)];
      }
      optimistic := tasks;
      match reply {
        case Succeeded(data) =>
          if index != -1 {
            tasks := tasks[index := data];
          }
        case Failed =>
          if index != -1 {
            tasks := tasks[index := task.(status := previousStatus)];
          }
      }
    }

    /** `create`: on success the returned task is appended when it carries
        a numeric id (`None` stands for a body without one); a failed
        request changes nothing and is reported to the caller. */
    method Create(reply: Reply<Option<TaskJson>>) returns (failed: bool)
      modifies this
      ensures failed <==> reply.Failed?
      ensures tasks == (if reply.Succeeded? && reply.data.Some? then old(tasks) + [reply.data.value] else old(tasks))
      ensures selectedProjectId == old(selectedProjectId) && meta == old(meta) && loading == old(loading)
    {
      match reply {
        case Succeeded(task) =>
          if task.Some? {
            tasks := tasks + [task.value];
          }
          failed := false;
        case Failed =>
          failed := true;
      }
    }

    /** `update`: a missing task changes nothing; on success the server's
        copy replaces the first task with the id; on failure the project's
        tasks are fetched again (`refetch` is that request's outcome). */
    method Update(taskId: int, reply: Reply<TaskJson>,
                  refetch: Reply<(Option<seq<TaskJson>>, Option<PaginationMeta>)>)
      modifies this
      ensures var i := ListOps.FindIndex(old(tasks), IdOf, taskId);
              && (i < 0 ==> tasks == old(tasks) && meta == old(meta) && loading == old(loading))
              && (i >= 0 && reply.Succeeded? ==> tasks == old(tasks)[i := reply.data] && meta == old(meta) && loading == old(loading))
              && (i >= 0 && reply.Failed? ==>
                    && !loading
                    && meta == (if refetch.Succeeded? then refetch.data.1 else old(meta))
                    && tasks == (if refetch.Succeeded? then (if refetch.data.0.Some? then refetch.data.0.value else [])
                                 else old(tasks)))
      ensures selectedProjectId == old(selectedProjectId)
    {
      var found := ListOps.FindIndex(tasks, IdOf, taskId);
      if found < 0 {
        return;
      }
      var task := tasks[found];
      match reply {
        case Succeeded(data) =>
          var index := ListOps.FindIndex(tasks, IdOf, taskId);
          if index != -1 {
            tasks := tasks[index := data];
          }
        case Failed =>
          FetchByProject(task.projectId, refetch);
      }
    }

    /** `delete`: a missing task changes nothing; after a successful
        request every task with the id is dropped. */
    method Delete(taskId: int, reply: Reply<()>)
      modifies this
      ensures tasks == (if ListOps.FindIndex(old(tasks), IdOf, taskId) >= 0 && reply.Succeeded?
                        then Remove(old(tasks), taskId) else old(tasks))
      ensures selectedProjectId == old(selectedProjectId) && meta == old(meta) && loading == old(loading)
    {
      var found := ListOps.FindIndex(tasks, IdOf, taskId);
      if found < 0 {
        return;
      }
      if reply.Succeeded? {
        tasks := ListOps.Drop(tasks, IdOf, taskId);
      }
    }

    /** `setSelectedProject`. */
    method SetSelectedProject(projectId: Option<int>)
      modifies this
      ensures selectedProjectId == projectId
      ensures tasks == old(tasks) && meta == old(meta) && loading == old(loading)
    {
      selectedProjectId := projectId;
    }

    /** `addComment`: a missing task changes nothing; after a successful
        request the returned comment ends that task's comments, and no other
        task changes. */
    method AddComment(taskId: int, body: string, reply: Reply<CommentJson>)
      modifies this
      ensures var i := ListOps.FindIndex(old(tasks), IdOf, taskId);
              tasks == (if i >= 0 && reply.Succeeded? then WithComment(old(tasks), i, reply.data) else old(tasks))
      ensures selectedProjectId == old(selectedProjectId) && meta == old(meta) && loading == old(loading)
    {
      var found := ListOps.FindIndex(tasks, IdOf, taskId);
      if found < 0 {
        return;
      }
      if reply.Succeeded? {
        var index := ListOps.FindIndex(tasks, IdOf, taskId);
        if index != -1 {
          var existing := if tasks[index].comments.Some? then tasks[index].comments.value else [];
          tasks := tasks[index := tasks[index].(comments := Some(existing + [reply.data]))];
        }
      }
    }

    /** `deleteComment`: a missing task changes nothing; after a successful
        request that task keeps only its comments with another id (none when
        it had no list), and no other task changes. */
    method DeleteComment(taskId: int, commentId: int, reply: Reply<()>)
      modifies this
      ensures var i := ListOps.FindIndex(old(tasks), IdOf, taskId);
              tasks == (if i >= 0 && reply.Succeeded? then WithoutComment(old(tasks), i, commentId) else old(tasks))
      ensures selectedProjectId == old(selectedProjectId) && meta == old(meta) && loading == old(loading)
    {
      var found := ListOps.FindIndex(tasks, IdOf, taskId);
      if found < 0 {
        return;
      }
      if reply.Succeeded? {
        var index := ListOps.FindIndex(tasks, IdOf, taskId);
        if index != -1 {
          var kept := if tasks[index].comments.Some? then ListOps.Drop(tasks[index].comments.value, CommentIdOf, commentId) else [];
          tasks := tasks[index := tasks[index].(comments := Some(kept))];
        }
      }
    }

    /** `mergeTask`. */
    method MergeTask(task: TaskJson)
      modifies this
      ensures tasks == Merge(old(tasks), task)
      ensures selectedProjectId == old(selectedProjectId) && meta == old(meta) && loading == old(loading)
    {
      var index := ListOps.FindIndex(tasks, IdOf, task.id);
      if index != -1 {
        tasks := tasks[index := task];
      } else {
        tasks := tasks + [task];
      }
    }

    /** `removeTask`. */
    method RemoveTask(taskId: int)
      modifies this
      ensures tasks == Remove(old(tasks), taskId)
      ensures selectedProjectId == old(selectedProjectId) && meta == old(meta) && loading == old(loading)
    {
      tasks := ListOps.Drop(tasks, IdOf, taskId);
    }

    /** `clear`: no tasks and no pagination block. */
    method Clear()
      modifies this
      ensures tasks == [] && meta == None
      ensures selectedProjectId == old(selectedProjectId) && loading == old(loading)
    {
      tasks := [];
      meta := None;
    }
  }
}
