# TaskForge core, modelled in Dafny

TaskForge is a project-management application. A Laravel backend serves
organizations, projects, tasks and comments. A Nuxt frontend keeps Pinia
stores of them. This project models the core of both halves and proves
properties of the model:

- **The task status machine.** This is the transition table of the
  `TaskStatus` enum, the guarded `updateStatus` of the task service, and
  the frontend store's copy of the table.
- **The authorization layer.**
  - The project policy.
  - The form requests that guard task creation, status changes and
    project writes. A form request's `authorize()` runs before its
    `rules()`.
  - The organization, task and comment policies, whose source is not
    part of this model. They are parameters, constrained by what the
    feature tests assert.
- **The controllers and services that change state.**
  - Organization create, rename and delete, with the member sync of
    `update`, which cascades to project rows.
  - Organization and project member attach and detach.
  - Project and task CRUD.
  - Comments.
- **The organization resource.** It renders an organization's member
  list without its owner rows.
- **The three frontend stores** (`tasks`, `organizations`, `projects`).
  Each is a class whose fields the actions reassign. The outcome of every
  request is a `Remote.Reply` parameter: `Succeeded(data)` or `Failed`.

The store is `Schema.Db`:

- one map per table;
- the `organization_user` rows as a sequence per organization. No code
  shown stops a second `attach` of the same user, so the model lets it add
  a second row;
- the `project_user` rows as a set per project;
- an auto-increment counter per table.

`Schema.Database` is the mutable database that every controller method
modifies. Every action answers a `Response`:

- `Ok(value)`;
- `Forbidden` (403);
- `NotFound` (404, from route-model binding or `findOrFail`);
- `Invalid(fields)` (422).

Where the design notes and the code disagree, the model follows the code:

- Creating an organization is open to any signed-in user, as the
  feature tests exercise it. It is not restricted to owners.
- Not every refused request is a 403 that changes nothing.
  - A missing route model answers 404 before any gate runs.
  - The status request's assignee gate runs before its `status` rule.
  - A move the table refuses answers 422 on `status`.
- "Project members belong to the project's organization" is enforced only
  by `ProjectMemberController::store`.
  - `ProjectController::store` and `ProjectController::update` sync any
    existing users (`ProjectController.StoreMayAttachOutsiders`).
  - Detaching an organization member leaves their project rows
    (`OrganizationMemberController.DetachLeavesProjectRows`).
- The task-creation feature test (backend/tests/Feature/TaskControllerTest.php:52-68)
  sends `name`, while `StoreTaskRequest` requires `title`. The model follows
  the request's rules, so such a request answers 422 on `title`
  (`TaskController.CreateScenario` states creation for a request that
  passes them).
- Deleting an organization or a project does not cascade to tasks and
  comments in this model. The cascade rules are not part of the code
  modelled.

Behaviours the proofs expose:

- **An owner with a second, non-owner row.** No code shown prevents such
  a row; whether the join table's own constraints would refuse it is not
  modelled. An organization update whose member list leaves that owner out has two
  effects: they stay owner, and they are detached from every project of
  the organization (`OrganizationController.OwnerWithSecondRowLosesProjects`).
  An owner with no other row keeps every project
  (`OrganizationController.OwnersAndNamedUsersStay`).
- **Project updates move and empty.** `ProjectController::update`
  validates `organization_id` against the requester's owner row in the
  requested organization. The policy checks the project's current one.
  The update moves the project to the requested organization. It empties
  the member set when `members` is omitted.
- **No role in create and update answers.** The organization resource
  carries a `role` only when a join row was loaded. The answers to create
  and update therefore have none, and the frontend's `isOwner` is false
  for them (`OrganizationsStore.RenderedWithoutRowIsNotOwned`).
- **The organizations store replaces only the first copy.** Its `update`
  replaces the first organization with the id. The projects store
  replaces every project with the id. The two agree when ids are unique
  (`OrganizationsStore.ReplacedIsReplaceAll`) and differ otherwise
  (`OrganizationsStore.ReplacedSkipsLaterDuplicates`).

## Model

| member | source | states |
|---|---|---|
| TaskStatus.Allowed | backend/app/Services/TaskService.php:25-26 | a stored status the table has no entry for allows no move; every listed successor is one of the four cases |
| TaskStatus.CasesAndTable | backend/app/Enums/TaskStatus.php:7-20 | four distinct cases and exactly one table entry per case |
| TaskStatus.PermittedMoves | backend/app/Enums/TaskStatus.php:12-20 | a move is permitted iff it is todo→in_progress, in_progress→review, review→done or review→in_progress |
| TaskStatus.NoMoveFromDoneOrUnknown | backend/app/Enums/TaskStatus.php:18 | `done` and any value outside the enum permit no move |
| TaskStatus.NoSelfMove | backend/app/Enums/TaskStatus.php:14-19 | no status may move to itself |
| TaskStatus.RunStaysInCases | backend/app/Enums/TaskStatus.php:14-19 | every status reached by permitted moves is one of the enum's cases |
| TaskStatus.TodoToDoneGoesThroughReview | backend/app/Enums/TaskStatus.php:14-19 | a run from todo to done has at least four statuses, its second is in_progress and its last but one is review |
| TaskStatus.RunFromDoneEnds | backend/app/Enums/TaskStatus.php:18 | a run starting at done has no second status |
| TaskService.Patched | backend/app/Services/TaskService.php:16-21 | an update writes each field the request carries (title, description, assignee) and keeps the task's project, status and every field the request leaves out |
| TaskService.PatchIdempotent | backend/app/Services/TaskService.php:16-21 | applying the same update twice equals applying it once; an empty update changes nothing |
| TaskService.PatchesCompose | backend/app/Services/TaskService.php:16-21 | an update carrying every field overrides any earlier update |
| TaskService.ChangeStatus | backend/app/Services/TaskService.php:23-39 | the change succeeds iff the table permits the move, replacing the status alone; otherwise 422 on `status` |
| TaskService.AcceptedMovesFormRun | backend/app/Services/TaskService.php:23-39 | accepted successive changes visit a run of the table and end at the last status asked for, with no other field changed |
| TaskService.TodoReachesDoneThroughReview | backend/app/Services/TaskService.php:23-39 | no fewer than three accepted changes take a todo task to done, the first to in_progress and the last from review |
| TaskService.DoneTaskIsFrozen | backend/app/Services/TaskService.php:26-32 | a done task refuses every change with 422 |
| TaskService.Create | backend/app/Services/TaskService.php:11-14 | inserts exactly one new row from the validated input, under a fresh id, with the table's default status |
| TaskService.Update | backend/app/Services/TaskService.php:16-21 | writes the patched task at its id and changes no other row |
| TaskService.UpdateStatus | backend/app/Services/TaskService.php:23-39 | answers `ChangeStatus` of the stored task; on success only that task's status changes, otherwise nothing changes |
| FormRequests.AuthorizeStoreTask | backend/app/Http/Requests/StoreTaskRequest.php:13-22 | 404 iff the project is missing; passes iff the requester has an owner or manager row in the project's organization |
| FormRequests.StoreTaskErrors | backend/app/Http/Requests/StoreTaskRequest.php:29-37 | each field fails validation iff its rule fails: project exists, title present with a character PHP's `trim` keeps and at most 255 long, assignee absent or an existing user |
| FormRequests.BlankTitleIsUnprocessable | backend/app/Http/Requests/StoreTaskRequest.php:33 | an owner or manager who sends a title made only of blanks gets 422 on `title` |
| FormRequests.StoreTask | backend/app/Http/Requests/StoreTaskRequest.php:13-37 | the gate's 404 or 403 comes before any 422; once the gate passes, the answer is the input when no rule fails and 422 with exactly the failing fields otherwise |
| FormRequests.PlainMemberCannotStoreTask | backend/app/Http/Requests/StoreTaskRequest.php:17-21 | a requester whose only role is member gets 403 whatever the request carries |
| FormRequests.StoreTaskGateVersusProjectGates | backend/app/Http/Requests/StoreTaskRequest.php:17-21 | every project manager (owner) passes the task gate, and so does a manager row who may not manage the project |
| FormRequests.AuthorizeStatusChange | backend/app/Http/Requests/UpdateTaskStatusRequest.php:14-17 | only a task with an assignee lets anyone through; that the assignee, and only the assignee, passes is `StatusGateHasOneHolder` |
| FormRequests.StatusErrors | backend/app/Http/Requests/UpdateTaskStatusRequest.php:24-29 | no error iff `status` is present and one of the enum's values |
| FormRequests.StatusGateHasOneHolder | backend/app/Http/Requests/UpdateTaskStatusRequest.php:14-17 | the assignee passes the gate, at most one user passes it, and nobody passes for an unassigned task |
| FormRequests.AuthorizeStoreProject | backend/app/Http/Requests/StoreProjectRequest.php:13-21 | only a request naming an existing organization can pass; that it is the policy's `create` is `StoreProjectGateIsCreate` |
| FormRequests.StoreProjectErrors | backend/app/Http/Requests/StoreProjectRequest.php:28-36 | each field fails iff its rule fails: name present with a character PHP's `trim` keeps and at most 255 long, an existing organization, members that exist as users |
| FormRequests.StoreProject | backend/app/Http/Requests/StoreProjectRequest.php:13-36 | 403 iff the requester has no owner row in the requested organization; otherwise 422 with the failing fields, or the input |
| FormRequests.StoreProjectGateIsCreate | backend/app/Http/Requests/StoreProjectRequest.php:13-21 | the request's gate is the policy's `create` on the requested organization; an unknown organization never passes |
| FormRequests.OwnerWithoutNameIsUnprocessable | backend/app/Http/Requests/StoreProjectRequest.php:31 | an owner who omits the name, or sends one made only of blanks, gets 422 on `name` |
| ProjectPolicy.ViewAny | backend/app/Policies/ProjectPolicy.php:14-17 | anyone may list projects |
| ProjectPolicy.View | backend/app/Policies/ProjectPolicy.php:22-28 | true iff some row of the project's organization names the user, whatever its role |
| ProjectPolicy.Create | backend/app/Policies/ProjectPolicy.php:33-39 | true iff the organization exists and has an owner row for the user |
| ProjectPolicy.Update | backend/app/Policies/ProjectPolicy.php:44-51 | true iff `create` holds on the project's organization; whoever passes may view |
| ProjectPolicy.Delete | backend/app/Policies/ProjectPolicy.php:56-63 | true iff `create` holds on the project's organization; whoever passes may view |
| ProjectPolicy.Restore | backend/app/Policies/ProjectPolicy.php:68-71 | restoring is never allowed |
| ProjectPolicy.ForceDelete | backend/app/Policies/ProjectPolicy.php:76-79 | force-deleting is never allowed |
| ProjectPolicy.Manage | backend/app/Policies/ProjectPolicy.php:84-91 | true iff `create` holds on the project's organization; whoever passes may view |
| ProjectPolicy.AddMemberToProject | backend/app/Policies/ProjectPolicy.php:96-112 | passing implies the requester may manage and the new member may view; the converse is `AddMemberIsManagePlusView` |
| ProjectPolicy.Comment | backend/app/Policies/ProjectPolicy.php:118-123 | true iff the user has a project_user row; `CommentIgnoresOrgRoles` shows organization rows play no part |
| ProjectPolicy.OwnerOnlyGates | backend/app/Policies/ProjectPolicy.php:44-91 | update, delete and manage are the same owner-only rule, equal to `create` on the project's organization |
| ProjectPolicy.OwnerCanView | backend/app/Policies/ProjectPolicy.php:22-28 | whoever may manage a project may view it |
| ProjectPolicy.AddMemberIsManagePlusView | backend/app/Policies/ProjectPolicy.php:96-112 | adding a member is allowed iff the requester may manage the project and the target has a row in its organization |
| ProjectPolicy.ViewIgnoresProjectUsers | backend/app/Policies/ProjectPolicy.php:22-28 | viewing does not depend on the project's member rows |
| ProjectPolicy.CommentIgnoresOrgRoles | backend/app/Policies/ProjectPolicy.php:118-123 | commenting does not depend on any organization row |
| Schema.InOrgIffSomeRow | backend/app/Policies/ProjectPolicy.php:24-27 | a user belongs to an organization iff some join row of it names the user |
| GatePolicies.ReferencePoliciesPassTests | backend/tests/Feature/TaskControllerTest.php:52-153 | the organization, task and comment policies the feature tests demand are jointly satisfiable |
| TaskController.TasksOf | backend/app/Http/Controllers/Api/TaskController.php:33-35 | exactly the tasks whose project is the given one, with their rows |
| TaskController.Index | backend/app/Http/Controllers/Api/TaskController.php:29-38 | 404 iff the project is missing, 403 iff the requester may not view it, otherwise the project's tasks |
| TaskController.IndexPartitionsTasks | backend/app/Http/Controllers/Api/TaskController.php:33-35 | two projects' lists share no task, and a viewer sees every task of the project |
| TaskController.OutsiderCannotListTasks | backend/tests/Feature/TaskControllerTest.php:41-50 | a user without a row in the project's organization is refused the list |
| TaskController.Store | backend/app/Http/Controllers/Api/TaskController.php:43-50 | the form request, then the policy's `create`, then exactly one inserted task; a plain member is refused and nothing changes |
| TaskController.Update | backend/app/Http/Controllers/Api/TaskController.php:55-62 | 404, then the policy's `update`, then the patched task alone is written |
| TaskController.UpdateStatus | backend/app/Http/Controllers/Api/TaskController.php:67-74 | 404, the assignee gate, the `status` rule and the policy come before the service; any success is a move the table permits |
| TaskController.Destroy | backend/app/Http/Controllers/Api/TaskController.php:79-86 | 404, then the policy's `delete`, then exactly that task is removed |
| TaskController.CreateScenario | backend/app/Http/Controllers/Api/TaskController.php:43-50 | an owner's request that passes the rules of StoreTaskRequest creates exactly one task under the next id, with the request's fields and the default status; only the tasks table and its counter change |
| TaskController.StatusScenario | backend/tests/Feature/TaskControllerTest.php:98-131 | an owner who is not the assignee is refused with 403; the assignee's request succeeds and moves the task todo→in_progress, and the whole database otherwise stays as it was |
| TaskController.DeleteScenario | backend/tests/Feature/TaskControllerTest.php:145-153 | a plain member's delete is refused and the task stays |
| OrganizationService.Newest | backend/app/Services/OrganizationService.php:21 | orders a set of organizations newest first, each once |
| OrganizationService.OrgsOf | backend/app/Services/OrganizationService.php:17 | exactly the organizations in which the user has a row |
| OrganizationService.UsersOrganizations | backend/app/Services/OrganizationService.php:15-23 | the user's organizations, each exactly once, newest first |
| OrganizationService.NewOrganization | backend/app/Services/OrganizationService.php:30-37 | a new organization has a single row, the creator's owner row |
| OrganizationService.CreatorIsSoleOwner | backend/app/Services/OrganizationService.php:33-35 | after creation the creator's only role is owner and nobody else belongs |
| OrganizationService.Create | backend/app/Services/OrganizationService.php:28-39 | inserts the new organization under a fresh id and changes nothing else |
| OrganizationService.Update | backend/app/Services/OrganizationService.php:44-49 | renames the organization and keeps its join rows |
| OrganizationService.Delete | backend/app/Services/OrganizationService.php:54-57 | removes exactly that organization |
| OrganizationController.UserIds | backend/app/Http/Controllers/Api/OrganizationController.php:112-114 | the incoming user ids, one per incoming row, in order |
| OrganizationController.NonOwnerIds | backend/app/Http/Controllers/Api/OrganizationController.php:107-110 | exactly the users holding a non-owner row |
| OrganizationController.Removed | backend/app/Http/Controllers/Api/OrganizationController.php:116 | the non-owner users the request does not name |
| OrganizationController.SyncedRows | backend/app/Http/Controllers/Api/OrganizationController.php:118-127 | after the sync the rows are exactly the old owner rows and the incoming rows |
| OrganizationController.SyncKeepsOwners | backend/app/Http/Controllers/Api/OrganizationController.php:118-120 | the owner rows survive in order, followed by any owner rows the request carries; no owner loses ownership |
| OrganizationController.SyncNonOwnersAreIncoming | backend/app/Http/Controllers/Api/OrganizationController.php:118-127 | the non-owner rows after the sync are the incoming non-owner rows, with their roles, in request order |
| OrganizationController.RemovedAreFormerNonOwners | backend/app/Http/Controllers/Api/OrganizationController.php:107-116 | a user is removed iff the request leaves them out and they held a manager or member row |
| OrganizationController.SyncDetachesRemoved | backend/app/Http/Controllers/Api/OrganizationController.php:129-133 | a removed user is off every project of the organization, and without an owner row has no row left |
| OrganizationController.SyncKeepsStayers | backend/app/Http/Controllers/Api/OrganizationController.php:129-133 | users not removed keep every project row; other organizations and their projects are untouched |
| OrganizationController.OwnerWithSecondRowLosesProjects | backend/app/Http/Controllers/Api/OrganizationController.php:118-133 | an owner with a second member row, left out of the request, stays owner but loses every project of the organization |
| OrganizationController.OwnersAndNamedUsersStay | backend/app/Http/Controllers/Api/OrganizationController.php:107-133 | users the request names, and owners with no other row, keep every project row |
| OrganizationController.SyncPreservesProjectUsersInOrg | backend/app/Http/Controllers/Api/OrganizationController.php:103-134 | the sync keeps every project member a member of the project's organization |
| OrganizationController.Index | backend/app/Http/Controllers/Api/OrganizationController.php:26-39 | 403 iff the policy refuses `viewAny`, otherwise the user's organizations newest first |
| OrganizationController.Store | backend/app/Http/Controllers/Api/OrganizationController.php:44-71 | the policy's `create`, then an organization whose rows are the creator's owner row followed by each listed member row (an empty or absent list adds none) |
| OrganizationController.Show | backend/app/Http/Controllers/Api/OrganizationController.php:77-82 | 404 iff the organization is missing, 403 iff the policy refuses `view`, otherwise the organization |
| OrganizationController.ShowFollowsMembership | backend/tests/Feature/OrganizationControllerTest.php:60-82 | under the tested policy a plain member sees the organization and an outsider is refused |
| OrganizationController.SyncMembers | backend/app/Http/Controllers/Api/OrganizationController.php:103-134 | the detach, the attach loop and the project cascade together produce exactly the synced store |
| OrganizationController.AttachRows | backend/app/Http/Controllers/Api/OrganizationController.php:122-127 | the loop appends the incoming rows in order and changes nothing else |
| OrganizationController.DetachFromProjects | backend/app/Http/Controllers/Api/OrganizationController.php:129-133 | the loop removes the removed users from every project of the organization and from no other |
| OrganizationController.Update | backend/app/Http/Controllers/Api/OrganizationController.php:88-139 | 404, the policy's `update`, the rename, and the sync exactly when `members` is present; under the tested policy a plain member is refused and the name stays |
| OrganizationController.Destroy | backend/app/Http/Controllers/Api/OrganizationController.php:145-158 | 404, the policy's `delete`, then exactly that organization is removed; a plain member is refused under the tested policy |
| OrganizationMemberController.WithRole | backend/app/Http/Controllers/Api/OrganizationMemberController.php:38-41 | every row of the user carries the new role and every other row is unchanged, in place |
| OrganizationMemberController.WithRoleTouchesOnlyTarget | backend/app/Http/Controllers/Api/OrganizationMemberController.php:38-41 | other users' rows are unchanged, the user keeps a row iff they had one, and a non-member gains nothing |
| OrganizationMemberController.DetachRemovesOnlyTarget | backend/app/Http/Controllers/Api/OrganizationMemberController.php:53 | the detached user has no row left; every other user's roles are unchanged |
| OrganizationMemberController.Store | backend/app/Http/Controllers/Api/OrganizationMemberController.php:19-29 | 404, `manageMembers`, then one more row with the given user and role |
| OrganizationMemberController.Update | backend/app/Http/Controllers/Api/OrganizationMemberController.php:34-44 | 404 on an unknown organization or user, `manageMembers`, then the role rewrite alone |
| OrganizationMemberController.Destroy | backend/app/Http/Controllers/Api/OrganizationMemberController.php:49-56 | 404, `manageMembers`, then every row of that user is detached and nothing else changes |
| OrganizationMemberController.DetachLeavesProjectRows | backend/app/Http/Controllers/Api/OrganizationMemberController.php:53 | detaching a user still attached to a project of the organization breaks the project-members-in-organization rule |
| ProjectController.MemberSet | backend/app/Http/Controllers/Api/ProjectController.php:47 | the users a `sync` list names |
| ProjectController.Index | backend/app/Http/Controllers/Api/ProjectController.php:26-35 | 404 iff the organization is missing, otherwise exactly its projects |
| ProjectController.Show | backend/app/Http/Controllers/Api/ProjectController.php:56-61 | 404 iff the project is missing, 403 iff the requester has no row in its organization, otherwise the project |
| ProjectController.ShowIsOrgMembership | backend/app/Http/Controllers/Api/ProjectController.php:58 | a project is shown iff the requester belongs to its organization, even to a project member who does not |
| ProjectController.Store | backend/app/Http/Controllers/Api/ProjectController.php:40-51 | the request's 403/422, the policy's `create`, then one project whose members are exactly the listed users, or none |
| ProjectController.StoreMayAttachOutsiders | backend/app/Http/Controllers/Api/ProjectController.php:46-48 | an owner may create a project whose member has no row in the organization |
| ProjectController.Update | backend/app/Http/Controllers/Api/ProjectController.php:66-75 | 404, the request, the policy's `update`, then name, organization and exactly the listed members (none when omitted); a non-owner changes nothing |
| ProjectController.Destroy | backend/app/Http/Controllers/Api/ProjectController.php:80-87 | succeeds iff the project exists and the requester owns its organization; then exactly that project is removed |
| ProjectMemberController.Store | backend/app/Http/Controllers/Api/ProjectMemberController.php:18-27 | 404 on an unknown project or user, `addMemberToProject`, then the user alone is added; an outsider is refused; project members stay in the organization |
| ProjectMemberController.Destroy | backend/app/Http/Controllers/Api/ProjectMemberController.php:32-39 | 404, `manage`, then that user alone leaves that project alone |
| CommentController.Store | backend/app/Http/Controllers/Api/CommentController.php:19-40 | 404, the policy's `create`, then one comment authored by the requester on that task; an unaffiliated user stores nothing |
| CommentController.Destroy | backend/app/Http/Controllers/Api/CommentController.php:45-58 | 404, the policy's `delete`, then exactly that comment is removed; the author may, an unaffiliated non-author may not |
| OrganizationResource.Members | backend/app/Http/Resources/OrganizationResource.php:27-34 | every entry comes from a non-owner row of an existing user, with that user's name |
| OrganizationResource.ToArray | backend/app/Http/Resources/OrganizationResource.php:15-35 | id, name and the loaded row's role, and a member list holding no owner |
| OrganizationResource.MembersAreNonOwnerRows | backend/app/Http/Resources/OrganizationResource.php:27-34 | the member list is the non-owner rows, one entry each, in row order |
| OrganizationResource.NonOwnerRowsListed | backend/app/Http/Resources/OrganizationResource.php:28 | every non-owner row of an existing user is listed |
| OrganizationResource.OwnerRowsListNobody | backend/app/Http/Resources/OrganizationResource.php:28 | owner rows contribute no entry |
| OrganizationResource.RenderedAfterSync | backend/app/Http/Controllers/Api/OrganizationController.php:136-138 | the answer to an update with members lists exactly the request's non-owner rows |
| TasksStore.CanTransition | frontend/stores/tasks.ts:61-62 | true only for a move the table lists from a status it has an entry for |
| TasksStore.TablesAgree | frontend/stores/tasks.ts:12-17 | the frontend table equals the backend's, and `canTransition` is the backend's check |
| TasksStore.TasksByStatus | frontend/stores/tasks.ts:59-60 | exactly the tasks with that status |
| TasksStore.ColumnsPartitionTasks | frontend/stores/tasks.ts:59-60 | the four status columns together hold every task exactly as often as the list does |
| TasksStore.Merge | frontend/stores/tasks.ts:222-226 | the first task with the id is replaced in place and every other task stays; with no such task the list is kept and the task appended at the end |
| TasksStore.Remove | frontend/stores/tasks.ts:228-230 | exactly the tasks with another id remain |
| TasksStore.RemoveAfterMerge | frontend/stores/tasks.ts:222-230 | removing a merged task's id gives what removing it from the original gives |
| TasksStore.MergeIdempotent | frontend/stores/tasks.ts:222-226 | merging the same task twice equals merging it once |
| TasksStore.WithComment | frontend/stores/tasks.ts:180-187 | only that task changes, only in its comments, which are its earlier comments (none when absent) followed by the new one |
| TasksStore.WithoutComment | frontend/stores/tasks.ts:206-215 | only that task changes, only in its comments, which are exactly its earlier comments with another id (none when absent) |
| TasksStore.DeleteUndoesAdd | frontend/stores/tasks.ts:169-220 | deleting a just-added comment by its id restores the list |
| TasksStore.Store.constructor | frontend/stores/tasks.ts:51-56 | no tasks, no project, no pagination, not loading |
| TasksStore.Store.FetchByProject | frontend/stores/tasks.ts:66-79 | a listing replaces tasks (absent reads as empty) and pagination; loading is cleared either way |
| TasksStore.Store.UpdateStatus | frontend/stores/tasks.ts:81-104 | a missing task or unlisted move changes nothing; otherwise the new status shows at once, then the server's task, or the old list after a failure |
| TasksStore.Store.Create | frontend/stores/tasks.ts:106-126 | a returned task with an id is appended; a failure changes nothing and is reported |
| TasksStore.Store.Update | frontend/stores/tasks.ts:128-149 | a missing task changes nothing; success writes the server's copy at the first match and leaves pagination and loading alone; failure refetches the project's tasks, which sets the list and pagination from the listing (kept after a failed listing) and clears loading |
| TasksStore.Store.Delete | frontend/stores/tasks.ts:151-163 | after success every task with the id is gone; otherwise nothing changes |
| TasksStore.Store.SetSelectedProject | frontend/stores/tasks.ts:165-167 | sets the selected project alone |
| TasksStore.Store.AddComment | frontend/stores/tasks.ts:169-197 | a missing task or failure changes nothing; after success the list becomes `WithComment` at the first match: the comment is appended and nothing else changes |
| TasksStore.Store.DeleteComment | frontend/stores/tasks.ts:199-220 | a missing task or failure changes nothing; after success the list becomes `WithoutComment` at the first match: that task keeps exactly its comments with another id and nothing else changes |
| TasksStore.Store.MergeTask | frontend/stores/tasks.ts:222-226 | the list becomes `Merge` of the old list: replace the first match in place, or append |
| TasksStore.Store.RemoveTask | frontend/stores/tasks.ts:228-230 | the list becomes `Remove` of the old list |
| TasksStore.Store.Clear | frontend/stores/tasks.ts:232-235 | no tasks and no pagination; the rest unchanged |
| OrganizationsStore.IsOwner | frontend/stores/organizations.ts:23 | true iff the organization's role is owner |
| OrganizationsStore.RenderedWithoutRowIsNotOwned | backend/app/Http/Resources/OrganizationResource.php:20-23 | an organization rendered without a join row never reads as owned |
| OrganizationsStore.OwnedIffOwnerRow | frontend/stores/organizations.ts:23 | an organization rendered from the requester's row reads as owned iff that row is an owner row |
| OrganizationsStore.Replaced | frontend/stores/organizations.ts:58-61 | an unknown id leaves the list; otherwise the first organization with the id becomes the server's copy and every other index is unchanged |
| OrganizationsStore.ReplacedIsReplaceAll | frontend/stores/organizations.ts:58-61 | with unique ids, replacing the first match is replacing every match |
| OrganizationsStore.ReplacedSkipsLaterDuplicates | frontend/stores/organizations.ts:58-61 | in any list, every later copy of the id stays as it was, so the result differs from replacing every copy unless that copy already equals the server's |
| OrganizationsStore.DeleteUndoesCreate | frontend/stores/organizations.ts:43-75 | deleting a just-created organization gives the list `delete` alone gives, the old list when its id was new |
| OrganizationsStore.Store.constructor | frontend/stores/organizations.ts:17-20 | no organizations, not loading |
| OrganizationsStore.Store.Fetch | frontend/stores/organizations.ts:27-35 | the listing replaces the list; a failure leaves it and leaves loading set |
| OrganizationsStore.Store.Create | frontend/stores/organizations.ts:37-49 | the new organization goes to the front; a failure changes nothing |
| OrganizationsStore.Store.Update | frontend/stores/organizations.ts:51-67 | the list becomes `Replaced`: the first organization with the id alone is replaced; a failure changes nothing |
| OrganizationsStore.Store.Delete | frontend/stores/organizations.ts:69-81 | every organization with the id goes, the rest in order; a failure changes nothing |
| ProjectsStore.UpdateKeepsIds | frontend/stores/projects.ts:34 | an update answered with the same id keeps every id in place |
| ProjectsStore.DeleteAfterUpdate | frontend/stores/projects.ts:34-40 | deleting after an update equals deleting |
| ProjectsStore.DeleteRemovesExactlyTheId | frontend/stores/projects.ts:40 | after delete no project has the id and every other project remains |
| ProjectsStore.Store.constructor | frontend/stores/projects.ts:11-14 | no projects, not loading |
| ProjectsStore.Store.Fetch | frontend/stores/projects.ts:17-23 | the listing replaces the list; a failure leaves it and leaves loading set |
| ProjectsStore.Store.Create | frontend/stores/projects.ts:25-29 | the new project goes to the front; a failure changes nothing |
| ProjectsStore.Store.Update | frontend/stores/projects.ts:31-35 | every project with the id becomes the server's copy; a failure changes nothing |
| ProjectsStore.Store.Delete | frontend/stores/projects.ts:37-41 | every project with the id goes, the rest in order; a failure changes nothing |

## Left out

- The organization, task and comment policies (`OrganizationPolicy`, `TaskPolicy`, `CommentPolicy`) are not part of this model. Each controller takes its policy as a parameter. The `*PolicyTested` predicates state what the feature tests assert about them.
- `UpdateTaskRequest`, `StoreOrganizationRequest`, `UpdateOrganizationMemberRequest`, `StoreOrganizationMemberRequest`, `StoreProjectMemberRequest` and `StoreCommentRequest` are not part of this model. Their input is taken as already validated.
- TaskService.Patched: the validated task update is assumed to carry only title, description and assignee, as the store's payload and the feature test send; `UpdateTaskRequest` is not part of this model, so an update that changes the status and skips the transition table, or moves the task to another project, is not modelled.
- `ProjectService` is not part of this model. Its create, update and delete are taken as plain row writes. Its delete is a row removal.
- Cascades of organization, project and task deletes to tasks, comments and rows of other tables are not modelled.
- Activity logging, task broadcast events and frontend toasts have no effect on the modelled state and are left out.
- HTTP routing is left out. The member controllers are modelled as written although the routes file does not reach them.
- Resources other than the organization resource are left out, as are the fields the stores carry but never update (`assignee`, `created_at`, the comment author).
- The clock is the `now` parameter of organization creation. The tasks table's default status is the `defaultStatus` parameter of task creation.
- Ids are unbounded naturals. The database's integer width is not modelled.
- The migrations are not part of this model, so the join tables' unique indexes (if any) are not modelled. A second `attach` of the same user to an organization adds a second row; `OrganizationController.OwnerWithSecondRowLosesProjects` rests on that.
- ProjectMemberController.Store: the `project_user` rows are a set, so attaching a user already in the project is a no-op that answers Ok. The source inserts a second row, or fails if the table has a unique index.
- FormRequests.StoreProjectErrors: a member id that is not a user is reported under the field `members`; Laravel's `members.*` rule names the index (`members.N`). The `array` rule on `members` is taken as met, since the input is already a list.
- FormRequests.StoreTaskErrors: the rules are applied to the values as sent; the application's global string-trimming middleware, if enabled, is not part of this model.
- OrganizationService.UsersOrganizations: lists each organization once and is a ghost function. The query returns one entry per join row, so a user with two rows in one organization sees it twice. Organizations created at the same instant have no fixed order.
- ProjectController.Index: returns the organization's projects as a set. The newest-first order of `latest()` is not modelled.
- TasksStore.Store.FetchByProject: the listing's query parameters (search, assignee, page) are not modelled. The reply stands for the listing they select.
- TasksStore.Store.UpdateStatus: assumes no other action changes the list between the optimistic write and the reply. Interleaved awaits and broadcast merges are not modelled.
- TasksStore.Store.Create: models the rethrown error as the `failed` result. "Data with a numeric id" is an optional task in the reply.
- Request payloads sent by the stores are not modelled. Only the replies' effect on the stores' state is.
