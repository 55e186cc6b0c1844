/** The project controller. Creating and updating a project runs the
    project form request (owner of the requested organization, then the
    field rules), the project policy, the row write, and a `sync` that sets
    the project's member rows to exactly the listed users. */
module ProjectController {
  import opened Schema
  import FormRequests
  import ProjectPolicy

  /** The users a `members` list names (`sync` keeps one row per user). */
  function MemberSet(members: seq<UserId>): (r: set<UserId>)
    ensures forall x :: x in r <==> x in members
  {
    set x | x in members
  }

  /** `index`: 404 on an unknown organization; anyone may list; the
      organization's projects. */
  function Index(db: Db, u: UserId, o: OrgId): (r: Response<set<ProjectId>>)
    ensures r == NotFound <==> o !in db.orgs
    ensures r.Ok? ==> forall p :: p in r.value <==> p in db.projects && db.projects[p].org == o
    ensures r.Ok? || r.NotFound?
  {
    if o !in db.orgs then NotFound
    else if !ProjectPolicy.ViewAny(u) then Forbidden
    else Ok(set p | p in db.projects && db.projects[p].org == o)
  }

  /** `show`: 404, then `view` (a row of any role in the organization). */
  function Show(db: Db, u: UserId, p: ProjectId): (r: Response<Project>)
    ensures r == NotFound <==> p !in db.projects
    ensures r == Forbidden <==> p in db.projects && !InOrg(db, db.projects[p].org, u)
    ensures r.Ok? ==> p in db.projects && r.value == db.projects[p]
  {
    if p !in db.projects then NotFound
    else if !ProjectPolicy.View(db, u, p) then Forbidden
    else Ok(db.projects[p])
  }

  /** A project is shown to every member of its organization, attached to
      the project or not, and to nobody else. */
  lemma ShowIsOrgMembership(db: Db, u: UserId, p: ProjectId)
    requires p in db.projects
    ensures Show(db, u, p).Ok? <==> InOrg(db, db.projects[p].org, u)
    ensures u in db.projects[p].users && !InOrg(db, db.projects[p].org, u) ==> Show(db, u, p) == Forbidden
  {
  }

  /** `store`: the form request (403, then 422), the policy's `create` on
      the requested organization, the row, and the member rows when the
      request lists any. */
  method Store(d: Database, u: UserId, input: FormRequests.ProjectInput) returns (r: Response<ProjectId>)
    requires d.db.Valid()
    modifies d
    ensures d.db.Valid()
    ensures var req := FormRequests.StoreProject(old(d.db), u, input);
            && (!req.Ok? ==> r == Failure(req) && d.db == old(d.db))
            && (req.Ok? ==>
                  && r == Ok(old(d.db.nextProject))
                  && d.db == old(d.db).(projects := old(d.db.projects)[r.value := Project(input.name.value, input.organizationId.value,
                                          if input.members.Some? then MemberSet(input.members.value) else {})],
                                        nextProject := r.value + 1))
    ensures r.Ok? ==> forall x :: x in d.db.projects[r.value].users ==> x in old(d.db.users)
  {
    var req := FormRequests.StoreProject(d.db, u, input);
    if !req.Ok? {
      return Failure(req);
    }
    var o := input.organizationId.value;
    if !ProjectPolicy.Create(d.db, u, o) {
      return Forbidden;
    }
    var p := d.db.nextProject;
    d.db := d.db.(projects := d.db.projects[p := Project(input.name.value, o, {})], nextProject := p + 1);
    if input.members.Some? && |input.members.value| > 0 {
      var project := d.db.projects[p];
      d.db := d.db.(projects := d.db.projects[p := project.(users := MemberSet(input.members.value))]);
    } else if input.members.Some? {
      assert MemberSet(input.members.value) == {};
    }
    r := Ok(p);
  }

  /** Creating a project can attach a user who has no row in its
      organization: the rules only ask that each member exist. */
  lemma StoreMayAttachOutsiders(db: Db, u: UserId, o: OrgId, x: UserId, name: string)
    requires HasRole(db, o, u, Owner) && x in db.users && !InOrg(db, o, x) && FormRequests.RequiredShortString(Some(name))
    ensures var input := FormRequests.ProjectInput(Some(name), Some(o), Some([x]));
            && FormRequests.StoreProject(db, u, input).Ok?
            && var db' := db.(projects := db.projects[db.nextProject := Project(name, o, MemberSet([x]))]);
               !ProjectUsersInOrg(db')
  {
    var db' := db.(projects := db.projects[db.nextProject := Project(name, o, MemberSet([x]))]);
    assert db'.orgs == db.orgs;
    assert x in db'.projects[db.nextProject].users;
  }

  /** `update`: 404 on an unknown project, the form request on the
      requested organization (403, then 422), the policy's `update` on the
      project's current organization, the name and organization written
      from the request, and the member rows set to the listed users, or to
      none when the request lists none. */
  method Update(d: Database, u: UserId, p: ProjectId, input: FormRequests.ProjectInput) returns (r: Response<Project>)
    modifies d
    ensures p !in old(d.db.projects) ==> r == NotFound && d.db == old(d.db)
    ensures p in old(d.db.projects) ==>
              var req := FormRequests.StoreProject(old(d.db), u, input);
              && (!req.Ok? ==> r == Failure(req) && d.db == old(d.db))
              && (req.Ok? && !ProjectPolicy.Update(old(d.db), u, p) ==> r == Forbidden && d.db == old(d.db))
              && (req.Ok? && ProjectPolicy.Update(old(d.db), u, p) ==>
                    && r == Ok(Project(input.name.value, input.organizationId.value,
                                       if input.members.Some? then MemberSet(input.members.value) else {}))
                    && d.db == old(d.db).(projects := old(d.db.projects)[p := r.value]))
    ensures p in old(d.db.projects) && !HasRole(old(d.db), old(d.db.projects[p].org), u, Owner) ==>
              !r.Ok? && d.db == old(d.db)
    ensures old(d.db.Valid()) ==> d.db.Valid()
  {
    if p !in d.db.projects {
      return NotFound;
    }
    var req := FormRequests.StoreProject(d.db, u, input);
    if !req.Ok? {
      return Failure(req);
    }
    if !ProjectPolicy.Update(d.db, u, p) {
      return Forbidden;
    }
    var project := d.db.projects[p].(name := input.name.value, org := input.organizationId.value);
    var members := if input.members.Some? then input.members.value else [];
    assert input.members.None? ==> MemberSet(members) == {};
    project := project.(users := MemberSet(members));
    d.db := d.db.(projects := d.db.projects[p := project]);
    r := Ok(project);
  }

  /** `destroy`: 404, the policy's `delete` (owner of the project's
      organization), then the project goes. */
  method Destroy(d: Database, u: UserId, p: ProjectId) returns (r: Response<()>)
    modifies d
    ensures p !in old(d.db.projects) ==> r == NotFound && d.db == old(d.db)
    ensures p in old(d.db.projects) && !ProjectPolicy.Delete(old(d.db), u, p) ==> r == Forbidden && d.db == old(d.db)
    ensures p in old(d.db.projects) && ProjectPolicy.Delete(old(d.db), u, p) ==>
              r == Ok(()) && d.db == old(d.db).(projects := old(d.db.projects) - {p})
    ensures r.Ok? <==> p in old(d.db.projects) && HasRole(old(d.db), old(d.db.projects[p].org), u, Owner)
    ensures old(d.db.Valid()) ==> d.db.Valid()
  {
    if p !in d.db.projects {
      return NotFound;
    }
    if !ProjectPolicy.Delete(d.db, u, p) {
      return Forbidden;
    }
    d.db := d.db.(projects := d.db.projects - {p});
    r := Ok(());
  }
}
