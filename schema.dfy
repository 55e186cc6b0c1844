/** The relational store the backend's controllers and services share: one
    table per entity, the organization_user join table (rows carrying a role)
    kept per organization, and the project_user join table kept per project.
    Membership queries of the role resolver live here as well. */
module Schema {

  type UserId = nat
  type OrgId = nat
  type ProjectId = nat
  type TaskId = nat
  type CommentId = nat

  datatype Option<T> = None | Some(value: T)

  /** The `role` column of an organization_user row. */
  datatype Role = Owner | Manager | Member

  /** One organization_user row, seen from its organization. */
  datatype Membership = Membership(user: UserId, role: Role)

  function UserOf(m: Membership): UserId { m.user }
  function RoleOf(m: Membership): Role { m.role }

  /** An organizations row with its join rows in insertion order. */
  datatype Organization = Organization(name: string, createdAt: nat, members: seq<Membership>)

  /** A projects row; `users` are its project_user rows (no role). */
  datatype Project = Project(name: string, org: OrgId, users: set<UserId>)

  /** A tasks row; `status` is the stored string value. */
  datatype Task = Task(project: ProjectId, title: string, description: Option<string>,
                       assignedTo: Option<UserId>, status: string)

  /** A comments row. */
  datatype Comment = Comment(task: TaskId, author: UserId, body: string)

  /** The whole store. `users` maps a user id to the user's name; the
      `next*` fields are the tables' auto-increment counters. */
  datatype Db = Db(
    users: map<UserId, string>,
    orgs: map<OrgId, Organization>,
    projects: map<ProjectId, Project>,
    tasks: map<TaskId, Task>,
    comments: map<CommentId, Comment>,
    nextOrg: nat, nextProject: nat, nextTask: nat, nextComment: nat)
  {
    /** Every id a table holds was handed out by its counter. */
    predicate Valid() {
      && (forall o :: o in orgs ==> o < nextOrg)
      && (forall p :: p in projects ==> p < nextProject)
      && (forall t :: t in tasks ==> t < nextTask)
      && (forall c :: c in comments ==> c < nextComment)
    }
  }

  /** What a controller action answers: a value, or the HTTP error it raises
      (403 from a gate, 404 from a lookup, 422 with the failing fields). */
  datatype Response<T> = Ok(value: T) | Forbidden | NotFound | Invalid(fields: set<string>)

  /** The same error, answered by an action whose success value has another type. */
  function Failure<A, B>(r: Response<A>): (s: Response<B>)
    requires !r.Ok?
    ensures !s.Ok?
  {
    match r
    case Forbidden => Forbidden
    case NotFound => NotFound
    case Invalid(fields) => Invalid(fields)
  }

  /** The database the requests act on; every controller action changes `db`. */
  class Database {
    var db: Db

    constructor (users: map<UserId, string>)
      ensures db.Valid()
      ensures db == Db(users, map[], map[], map[], map[], 0, 0, 0, 0)
    {
      db := Db(users, map[], map[], map[], map[], 0, 0, 0, 0);
    }
  }

  // ---------------------------------------------------------------------
  // Role resolver: existence queries on organization_user.

  /** The user has a row with role `r` in organization `o`. */
  predicate HasRole(db: Db, o: OrgId, u: UserId, r: Role) {
    o in db.orgs && Membership(u, r) in db.orgs[o].members
  }

  /** The user has a row of any role in organization `o`. */
  predicate InOrg(db: Db, o: OrgId, u: UserId) {
    HasRole(db, o, u, Owner) || HasRole(db, o, u, Manager) || HasRole(db, o, u, Member)
  }

  /** The user's only role in `o` is `r` (every row of the user carries it). */
  predicate SoleRole(db: Db, o: OrgId, u: UserId, r: Role) {
    && HasRole(db, o, u, r)
    && forall m :: m in db.orgs[o].members && m.user == u ==> m.role == r
  }

  /** `InOrg` is exactly "some row of `o` names the user". */
  lemma InOrgIffSomeRow(db: Db, o: OrgId, u: UserId)
    ensures InOrg(db, o, u) <==> o in db.orgs && exists m :: m in db.orgs[o].members && m.user == u
  {
    if o in db.orgs && exists m :: m in db.orgs[o].members && m.user == u {
      var m :| m in db.orgs[o].members && m.user == u;
      assert m == Membership(u, m.role);
      assert HasRole(db, o, u, m.role);
      match m.role {
        case Owner => assert HasRole(db, o, u, Owner);
        case Manager => assert HasRole(db, o, u, Manager);
        case Member => assert HasRole(db, o, u, Member);
      }
    }
    if InOrg(db, o, u) {
      var r := if HasRole(db, o, u, Owner) then Owner
               else if HasRole(db, o, u, Manager) then Manager else Member;
      var m := Membership(u, r);
      assert m in db.orgs[o].members && m.user == u;
      assert exists m' :: m' in db.orgs[o].members && m'.user == u;
    }
  }

  /** Every project_user row names a user who has a row in the project's
      organization. */
  predicate ProjectUsersInOrg(db: Db) {
    forall p, x :: p in db.projects && x in db.projects[p].users ==> InOrg(db, db.projects[p].org, x)
  }

  /** The organization a project belongs to, if the project exists. */
  function OrgOfProject(db: Db, p: ProjectId): (r: Option<OrgId>)
    ensures r.Some? <==> p in db.projects
    ensures r.Some? ==> r.value == db.projects[p].org
  {
    if p in db.projects then Some(db.projects[p].org) else None
  }

  /** The organization a task's project belongs to, if both exist. */
  function OrgOfTask(db: Db, t: TaskId): (r: Option<OrgId>)
    ensures r.Some? <==> t in db.tasks && db.tasks[t].project in db.projects
  {
    if t in db.tasks then OrgOfProject(db, db.tasks[t].project) else None
  }
}
