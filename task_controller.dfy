/** The task controller: every action resolves its route parameter (404),
    runs its form request and gate (403, then 422), and only then reads or
    writes through the task service. The task policy is a parameter. */
module TaskController {
  import opened Schema
  import TaskStatus
  import FormRequests
  import ProjectPolicy
  import TaskService
  import opened GatePolicies

  /** The tasks whose project is `p`, keyed by id. */
  function TasksOf(db: Db, p: ProjectId): (r: map<TaskId, Task>)
    ensures forall t :: t in r <==> t in db.tasks && db.tasks[t].project == p
    ensures forall t :: t in r ==> r[t] == db.tasks[t]
  {
    map t | t in db.tasks && db.tasks[t].project == p :: db.tasks[t]
  }

  /** `index`: an unknown project is a 404; a user without a row in the
      project's organization gets a 403; otherwise the project's tasks. */
  function Index(db: Db, u: UserId, p: ProjectId): (r: Response<map<TaskId, Task>>)
    ensures r == NotFound <==> p !in db.projects
    ensures r == Forbidden <==> p in db.projects && !ProjectPolicy.View(db, u, p)
    ensures r.Ok? ==> r.value == TasksOf(db, p)
    ensures !r.Invalid?
  {
    if p !in db.projects then NotFound
    else if !ProjectPolicy.View(db, u, p) then Forbidden
    else Ok(TasksOf(db, p))
  }

  /** The task lists of two projects never share a task, and every task of
      an existing project appears in its project's list, for any viewer of
      that project. */
  lemma IndexPartitionsTasks(db: Db, u: UserId, p: ProjectId, q: ProjectId, t: TaskId)
    ensures p != q ==> t !in TasksOf(db, p) || t !in TasksOf(db, q)
    ensures t in db.tasks && db.tasks[t].project == p && p in db.projects && ProjectPolicy.View(db, u, p) ==>
              Index(db, u, p).Ok? && t in Index(db, u, p).value
  {
  }

  /** A user with no row in the project's organization is refused the
      task list, even one attached to the project. */
  lemma OutsiderCannotListTasks(db: Db, u: UserId, p: ProjectId)
    requires p in db.projects && !InOrg(db, db.projects[p].org, u)
    ensures Index(db, u, p) == Forbidden
  {
  }

  /** `store`: the form request (404 on an unknown project, 403 for a plain
      member, 422 on bad fields), then the task policy's `create`, then the
      insert. */
  method Store(d: Database, tp: TaskPolicy, u: UserId, input: FormRequests.TaskInput, defaultStatus: string)
    returns (r: Response<TaskId>)
    requires d.db.Valid()
    modifies d
    ensures d.db.Valid()
    ensures var req := FormRequests.StoreTask(old(d.db), u, input);
            && (!req.Ok? ==> r == Failure(req) && d.db == old(d.db))
            && (req.Ok? && !tp.create(old(d.db), u, input.projectId.value) ==> r == Forbidden && d.db == old(d.db))
            && (req.Ok? && tp.create(old(d.db), u, input.projectId.value) ==>
                  && r == Ok(old(d.db.nextTask))
                  && d.db == old(d.db).(tasks := old(d.db.tasks)[r.value := Task(input.projectId.value, input.title.value,
                                                                                input.description, input.assignedTo, defaultStatus)],
                                        nextTask := r.value + 1))
    ensures input.projectId.Some? && input.projectId.value in old(d.db.projects)
            && SoleRole(old(d.db), old(d.db.projects[input.projectId.value].org), u, Member) ==>
              r == Forbidden && d.db == old(d.db)
  {
    if input.projectId.Some? && input.projectId.value in d.db.projects
       && SoleRole(d.db, d.db.projects[input.projectId.value].org, u, Member) {
      FormRequests.PlainMemberCannotStoreTask(d.db, u, input);
    }
    var req := FormRequests.StoreTask(d.db, u, input);
    if !req.Ok? {
      return Failure(req);
    }
    if !tp.create(d.db, u, input.projectId.value) {
      return Forbidden;
    }
    var id := TaskService.Create(d, input, defaultStatus);
    r := Ok(id);
  }

  /** `update`: 404 on an unknown task, the policy's `update`, then the
      field writes. */
  method Update(d: Database, tp: TaskPolicy, u: UserId, t: TaskId, patch: TaskService.TaskPatch)
    returns (r: Response<Task>)
    modifies d
    ensures t !in old(d.db.tasks) ==> r == NotFound && d.db == old(d.db)
    ensures t in old(d.db.tasks) && !tp.update(old(d.db), u, t) ==> r == Forbidden && d.db == old(d.db)
    ensures t in old(d.db.tasks) && tp.update(old(d.db), u, t) ==>
              && r == Ok(TaskService.Patched(old(d.db.tasks[t]), patch))
              && d.db == old(d.db).(tasks := old(d.db.tasks)[t := r.value])
    ensures old(d.db.Valid()) ==> d.db.Valid()
  {
    if t !in d.db.tasks {
      return NotFound;
    }
    if !tp.update(d.db, u, t) {
      return Forbidden;
    }
    var task := TaskService.Update(d, t, patch);
    r := Ok(task);
  }

  /** `updateStatus`: 404 on an unknown task; the request's assignee gate
      (403) and its `status` rule (422); the policy's `updateStatus`; and
      only then the table check in the service. */
  method UpdateStatus(d: Database, tp: TaskPolicy, u: UserId, t: TaskId, status: Option<string>)
    returns (r: Response<Task>)
    modifies d
    ensures t !in old(d.db.tasks) ==> r == NotFound && d.db == old(d.db)
    ensures t in old(d.db.tasks) && !FormRequests.AuthorizeStatusChange(old(d.db.tasks[t]), u) ==>
              r == Forbidden && d.db == old(d.db)
    ensures t in old(d.db.tasks) && FormRequests.AuthorizeStatusChange(old(d.db.tasks[t]), u) ==>
              var errs := FormRequests.StatusErrors(status);
              && (errs != {} ==> r == Invalid(errs) && d.db == old(d.db))
              && (errs == {} && !tp.updateStatus(old(d.db), u, t) ==> r == Forbidden && d.db == old(d.db))
              && (errs == {} && tp.updateStatus(old(d.db), u, t) ==>
                    && r == TaskService.ChangeStatus(old(d.db.tasks[t]), status.value)
                    && d.db == (if r.Ok? then old(d.db).(tasks := old(d.db.tasks)[t := r.value]) else old(d.db)))
    ensures r.Ok? ==> t in old(d.db.tasks) && TaskStatus.Permits(old(d.db.tasks[t].status), r.value.status)
    ensures old(d.db.Valid()) ==> d.db.Valid()
  {
    if t !in d.db.tasks {
      return NotFound;
    }
    if !FormRequests.AuthorizeStatusChange(d.db.tasks[t], u) {
      return Forbidden;
    }
    var errs := FormRequests.StatusErrors(status);
    if errs != {} {
      return Invalid(errs);
    }
    if !tp.updateStatus(d.db, u, t) {
      return Forbidden;
    }
    r := TaskService.UpdateStatus(d, t, status.value);
  }

  /** `destroy`: 404 on an unknown task, the policy's `delete`, then the
      row is removed. */
  method Destroy(d: Database, tp: TaskPolicy, u: UserId, t: TaskId) returns (r: Response<()>)
    modifies d
    ensures t !in old(d.db.tasks) ==> r == NotFound && d.db == old(d.db)
    ensures t in old(d.db.tasks) && !tp.delete(old(d.db), u, t) ==> r == Forbidden && d.db == old(d.db)
    ensures t in old(d.db.tasks) && tp.delete(old(d.db), u, t) ==>
              r == Ok(()) && d.db == old(d.db).(tasks := old(d.db.tasks) - {t})
    ensures old(d.db.Valid()) ==> d.db.Valid()
  {
    if t !in d.db.tasks {
      return NotFound;
    }
    if !tp.delete(d.db, u, t) {
      return Forbidden;
    }
    d.db := d.db.(tasks := d.db.tasks - {t});
    r := Ok(());
  }

  // ---------------------------------------------------------------------
  // The feature tests' scenarios, for every task policy that satisfies
  // what the tests assert of it.

  /** An organization owner who is not the assignee cannot move a `todo`
      task, and the task stays `todo`; the assignee, a plain member, moves
      it to `in_progress`. */
  method StatusScenario(d: Database, tp: TaskPolicy, owner: UserId, assignee: UserId, t: TaskId, o: OrgId)
    returns (refused: Response<Task>, accepted: Response<Task>)
    requires TaskPolicyTested(tp)
    requires TaskInOrg(d.db, t, o) && HasRole(d.db, o, owner, Owner) && SoleRole(d.db, o, assignee, Member)
    requires d.db.tasks[t].assignedTo == Some(assignee) && d.db.tasks[t].status == TaskStatus.TODO
    modifies d
    ensures refused == Forbidden && accepted.Ok?
    ensures d.db == old(d.db).(tasks := old(d.db.tasks)[t := old(d.db.tasks[t]).(status := TaskStatus.IN_PROGRESS)])
  {
    SoleMemberIsNoManager(d.db, o, assignee);
    assert owner != assignee;
    refused := UpdateStatus(d, tp, owner, t, Some(TaskStatus.IN_PROGRESS));
    assert refused == Forbidden && d.db.tasks[t].status == TaskStatus.TODO;
    assert TaskInOrg(d.db, t, o);
    accepted := UpdateStatus(d, tp, assignee, t, Some(TaskStatus.IN_PROGRESS));
  }

  /** An organization owner's valid request creates the task: one new row
      under the next id, carrying the request's fields and the default
      status, and no other table changes. */
  method CreateScenario(d: Database, tp: TaskPolicy, owner: UserId, input: FormRequests.TaskInput, defaultStatus: string)
    returns (r: Response<TaskId>)
    requires d.db.Valid() && TaskPolicyTested(tp)
    requires input.projectId.Some? && input.projectId.value in d.db.projects
    requires HasRole(d.db, d.db.projects[input.projectId.value].org, owner, Owner)
    requires FormRequests.StoreTaskErrors(d.db, input) == {}
    modifies d
    ensures r == Ok(old(d.db.nextTask))
    ensures d.db.tasks == old(d.db.tasks)[r.value := Task(input.projectId.value, input.title.value, input.description,
                                                        input.assignedTo, defaultStatus)]
    ensures d.db == old(d.db).(tasks := d.db.tasks, nextTask := r.value + 1)
  {
    r := Store(d, tp, owner, input, defaultStatus);
  }

  /** A plain member's attempt to delete a task is refused and the task
      remains. */
  method DeleteScenario(d: Database, tp: TaskPolicy, member: UserId, t: TaskId, o: OrgId)
    requires TaskPolicyTested(tp)
    requires TaskInOrg(d.db, t, o) && SoleRole(d.db, o, member, Member)
    modifies d
    ensures d.db == old(d.db) && t in d.db.tasks
  {
    var r := Destroy(d, tp, member, t);
    assert r == Forbidden;
  }
}
