/** The form requests that guard task creation, status changes and project
    creation: each one's `authorize()` gate and its validation `rules()`.
    A form request is authorized before it is validated, so a request that
    fails both answers 403 (or 404), not 422. */
module FormRequests {
  import opened Schema
  import TaskStatus
  import ProjectPolicy

  /** The characters PHP's `trim` strips: space, tab, newline, carriage
      return, NUL and vertical tab. */
  predicate TrimmedByPhp(c: char) {
    c == ' ' || c == '\t' || c == '\n' || c == '\r' || c == '\0' || c == '\U{B}'
  }

  /** Laravel's `required|string|max:255` on a string field: present, with
      at least one character `trim` keeps (`required` refuses a string that
      trims to empty), and at most 255 characters. */
  predicate RequiredShortString(s: Option<string>) {
    && s.Some? && |s.value| <= 255
    && exists k :: 0 <= k < |s.value| && !TrimmedByPhp(s.value[k])
  }

  // ---------------------------------------------------------------------
  // StoreTaskRequest

  /** The fields of a task-creation request (absent or null is `None`). */
  datatype TaskInput = TaskInput(projectId: Option<ProjectId>, title: Option<string>,
                                 description: Option<string>, assignedTo: Option<UserId>)

  /** `authorize()`: look the project up (404 when missing), then demand an
      owner or manager row in the project's organization. */
  function AuthorizeStoreTask(db: Db, u: UserId, input: TaskInput): (r: Response<()>)
    ensures r == NotFound <==> input.projectId.None? || input.projectId.value !in db.projects
    ensures r.Ok? <==> && input.projectId.Some? && input.projectId.value in db.projects
                       && var o := db.projects[input.projectId.value].org;
                          HasRole(db, o, u, Owner) || HasRole(db, o, u, Manager)
    ensures r.Ok? || r == Forbidden || r == NotFound
  {
    if input.projectId.None? || input.projectId.value !in db.projects then NotFound
    else
      var o := db.projects[input.projectId.value].org;
      if HasRole(db, o, u, Owner) || HasRole(db, o, u, Manager) then Ok(()) else Forbidden
  }

  /** `rules()`: the set of fields that fail validation. */
  function StoreTaskErrors(db: Db, input: TaskInput): (errs: set<string>)
    ensures errs <= {"project_id", "title", "assigned_to"}
    ensures "project_id" !in errs <==> input.projectId.Some? && input.projectId.value in db.projects
    ensures "title" !in errs <==> RequiredShortString(input.title)
    ensures "assigned_to" !in errs <==> input.assignedTo.None? || input.assignedTo.value in db.users
  {
    (if input.projectId.Some? && input.projectId.value in db.projects then {} else {"project_id"})
    + (if RequiredShortString(input.title) then {} else {"title"})
    + (if input.assignedTo.None? || input.assignedTo.value in db.users then {} else {"assigned_to"})
  }

  /** The whole request: gate, then rules; the validated input on success. */
  function StoreTask(db: Db, u: UserId, input: TaskInput): (r: Response<TaskInput>)
    ensures r.Ok? ==> r.value == input && StoreTaskErrors(db, input) == {}
    ensures r.Invalid? ==> r.fields == StoreTaskErrors(db, input) && r.fields != {}
    ensures !AuthorizeStoreTask(db, u, input).Ok? ==> r == if input.projectId.None? || input.projectId.value !in db.projects then NotFound else Forbidden
    ensures AuthorizeStoreTask(db, u, input).Ok? ==>
              r == if StoreTaskErrors(db, input) == {} then Ok(input) else Invalid(StoreTaskErrors(db, input))
  {
    var gate := AuthorizeStoreTask(db, u, input);
    if !gate.Ok? then (if gate == NotFound then NotFound else Forbidden)
    else
      var errs := StoreTaskErrors(db, input);
      if errs != {} then Invalid(errs) else Ok(input)
  }

  /** A plain member (no owner or manager row) is turned away, whatever the
      request carries; an unknown project is a 404, not a refusal. */
  lemma PlainMemberCannotStoreTask(db: Db, u: UserId, input: TaskInput)
    requires input.projectId.Some? && input.projectId.value in db.projects
    requires SoleRole(db, db.projects[input.projectId.value].org, u, Member)
    ensures StoreTask(db, u, input) == Forbidden
  {
    var o := db.projects[input.projectId.value].org;
    assert Membership(u, Owner).user == u && Membership(u, Manager).user == u;
  }

  /** The task gate is wider than the project's owner-only gates: every
      project owner passes it, and so does a manager who could not manage
      the project itself. */
  lemma StoreTaskGateVersusProjectGates(db: Db, u: UserId, p: ProjectId)
    requires p in db.projects
    ensures ProjectPolicy.Manage(db, u, p) ==>
              AuthorizeStoreTask(db, u, TaskInput(Some(p), None, None, None)).Ok?
    ensures HasRole(db, db.projects[p].org, u, Manager) && !HasRole(db, db.projects[p].org, u, Owner) ==>
              && AuthorizeStoreTask(db, u, TaskInput(Some(p), None, None, None)).Ok?
              && !ProjectPolicy.Manage(db, u, p)
  {
  }

  /** A title made only of blanks fails `required`: an owner or manager
      who sends one gets 422 on `title`, and nothing is stored. */
  lemma BlankTitleIsUnprocessable(db: Db, u: UserId, input: TaskInput)
    requires input.projectId.Some? && input.projectId.value in db.projects
    requires var o := db.projects[input.projectId.value].org;
             HasRole(db, o, u, Owner) || HasRole(db, o, u, Manager)
    requires input.title.Some? && forall k :: 0 <= k < |input.title.value| ==> TrimmedByPhp(input.title.value[k])
    ensures var r := StoreTask(db, u, input);
            r.Invalid? && "title" in r.fields
  {
  }

  // ---------------------------------------------------------------------
  // UpdateTaskStatusRequest

  /** `authorize()`: the task's assignee, compared strictly with the
      requester's id, so an unassigned task passes for nobody. */
  function AuthorizeStatusChange(t: Task, u: UserId): (r: bool)
    ensures r ==> t.assignedTo.Some?
  {
    t.assignedTo == Some(u)
  }

  /** `rules()`: `status` is required and one of the enum's values. */
  function StatusErrors(status: Option<string>): (errs: set<string>)
    ensures errs == {} <==> status.Some? && status.value in TaskStatus.Cases
    ensures errs <= {"status"}
  {
    if status.Some? && status.value in TaskStatus.Cases then {} else {"status"}
  }

  /** The assignee, and at most that one user, may change a task's status;
      nobody may change an unassigned task's status. */
  lemma StatusGateHasOneHolder(t: Task, u: UserId, v: UserId)
    ensures t.assignedTo.Some? ==> AuthorizeStatusChange(t, t.assignedTo.value)
    ensures AuthorizeStatusChange(t, u) && AuthorizeStatusChange(t, v) ==> u == v
    ensures t.assignedTo.None? ==> !AuthorizeStatusChange(t, u)
  {
  }

  // ---------------------------------------------------------------------
  // StoreProjectRequest

  /** The fields of a project request (absent or null is `None`). */
  datatype ProjectInput = ProjectInput(name: Option<string>, organizationId: Option<OrgId>,
                                       members: Option<seq<UserId>>)

  /** `authorize()`: the requested organization has an owner row for the
      requester; a missing or unknown organization id fails the gate. */
  function AuthorizeStoreProject(db: Db, u: UserId, input: ProjectInput): (r: bool)
    ensures r ==> input.organizationId.Some? && input.organizationId.value in db.orgs
  {
    input.organizationId.Some? && HasRole(db, input.organizationId.value, u, Owner)
  }

  /** `rules()`: the fields that fail validation. Members must be existing
      users; nothing asks that they belong to the organization. */
  function StoreProjectErrors(db: Db, input: ProjectInput): (errs: set<string>)
    ensures errs <= {"name", "organization_id", "members"}
    ensures "name" !in errs <==> RequiredShortString(input.name)
    ensures "organization_id" !in errs <==>
              input.organizationId.Some? && input.organizationId.value in db.orgs
    ensures "members" !in errs <==>
              input.members.None? || forall i :: 0 <= i < |input.members.value| ==> input.members.value[i] in db.users
  {
    (if RequiredShortString(input.name) then {} else {"name"})
    + (if input.organizationId.Some? && input.organizationId.value in db.orgs then {} else {"organization_id"})
    + (if input.members.None? || forall i :: 0 <= i < |input.members.value| ==> input.members.value[i] in db.users
       then {} else {"members"})
  }

  /** The whole request: gate, then rules; the validated input on success. */
  function StoreProject(db: Db, u: UserId, input: ProjectInput): (r: Response<ProjectInput>)
    ensures r.Ok? || r == Forbidden || r.Invalid?
    ensures r == Forbidden <==> !AuthorizeStoreProject(db, u, input)
    ensures r.Ok? ==> r.value == input && StoreProjectErrors(db, input) == {}
    ensures r.Invalid? ==> r.fields == StoreProjectErrors(db, input) && r.fields != {}
  {
    if !AuthorizeStoreProject(db, u, input) then Forbidden
    else
      var errs := StoreProjectErrors(db, input);
      if errs != {} then Invalid(errs) else Ok(input)
  }

  /** The request's gate is the project policy's `create` on the requested
      organization; an id with no organization behind it never passes. */
  lemma StoreProjectGateIsCreate(db: Db, u: UserId, input: ProjectInput)
    ensures AuthorizeStoreProject(db, u, input) <==>
              input.organizationId.Some? && ProjectPolicy.Create(db, u, input.organizationId.value)
    ensures input.organizationId.Some? && input.organizationId.value !in db.orgs ==>
              !AuthorizeStoreProject(db, u, input)
  {
  }

  /** An owner who leaves out the name, or sends one made only of blanks,
      gets 422 on `name`. */
  lemma OwnerWithoutNameIsUnprocessable(db: Db, u: UserId, o: OrgId, name: Option<string>, members: Option<seq<UserId>>)
    requires HasRole(db, o, u, Owner)
    requires name.Some? ==> forall k :: 0 <= k < |name.value| ==> TrimmedByPhp(name.value[k])
    ensures var r := StoreProject(db, u, ProjectInput(name, Some(o), members));
            r.Invalid? && "name" in r.fields
  {
  }
}
