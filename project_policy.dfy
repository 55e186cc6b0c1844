/** The project policy: one read-only predicate per ability, each an
    existence query on the organization_user or project_user rows. */
module ProjectPolicy {
  import opened Schema

  /** Anyone may list projects. */
  function ViewAny(u: UserId): (r: bool)
    ensures r
  {
    true
  }

  /** A user sees a project when they have a row of any role in its
      organization. */
  function View(db: Db, u: UserId, p: ProjectId): (r: bool)
    requires p in db.projects
    ensures r <==> var o := db.projects[p].org;
                   o in db.orgs && exists m :: m in db.orgs[o].members && m.user == u
  {
    InOrgIffSomeRow(db, db.projects[p].org, u);
    InOrg(db, db.projects[p].org, u)
  }

  /** Creating a project in organization `o` takes an owner row there. */
  function Create(db: Db, u: UserId, o: OrgId): (r: bool)
    ensures r <==> o in db.orgs && exists m :: m in db.orgs[o].members && m.user == u && m.role == Owner
  {
    assert HasRole(db, o, u, Owner) ==> Membership(u, Owner) in db.orgs[o].members;
    HasRole(db, o, u, Owner)
  }

  /** Updating a project takes an owner row in its organization. */
  function Update(db: Db, u: UserId, p: ProjectId): (r: bool)
    requires p in db.projects
    ensures r <==> Create(db, u, db.projects[p].org)
    ensures r ==> View(db, u, p)
  {
    HasRole(db, db.projects[p].org, u, Owner)
  }

  /** Deleting a project takes an owner row in its organization. */
  function Delete(db: Db, u: UserId, p: ProjectId): (r: bool)
    requires p in db.projects
    ensures r <==> Create(db, u, db.projects[p].org)
    ensures r ==> View(db, u, p)
  {
    HasRole(db, db.projects[p].org, u, Owner)
  }

  /** Soft-deleted projects are never restored. */
  function Restore(db: Db, u: UserId, p: ProjectId): (r: bool)
    requires p in db.projects
    ensures !r
  {
    false
  }

  /** Projects are never force-deleted. */
  function ForceDelete(db: Db, u: UserId, p: ProjectId): (r: bool)
    requires p in db.projects
    ensures !r
  {
    false
  }

  /** Managing a project's members: a role among `['owner']`. */
  function Manage(db: Db, u: UserId, p: ProjectId): (r: bool)
    requires p in db.projects
    ensures r <==> Create(db, u, db.projects[p].org)
    ensures r ==> View(db, u, p)
  {
    HasRole(db, db.projects[p].org, u, Owner)
  }

  /** Adding `member` to the project: the requester must be an owner of the
      project's organization, and `member` must belong to it. */
  function AddMemberToProject(db: Db, u: UserId, p: ProjectId, member: UserId): (r: bool)
    requires p in db.projects
    ensures r ==> Manage(db, u, p) && View(db, member, p)
  {
    if !HasRole(db, db.projects[p].org, u, Owner) then false
    else InOrg(db, db.projects[p].org, member)
  }

  /** Commenting on a project takes a project_user row, whatever the
      organization role. */
  predicate Comment(db: Db, u: UserId, p: ProjectId)
    requires p in db.projects
  {
    u in db.projects[p].users
  }

  /** Update, delete and manage are one owner-only rule, the same one that
      guards creating a project in the project's organization; a manager
      (or member) without an owner row passes none of them. */
  lemma OwnerOnlyGates(db: Db, u: UserId, p: ProjectId)
    requires p in db.projects
    ensures Update(db, u, p) == Delete(db, u, p) == Manage(db, u, p)
    ensures Update(db, u, p) <==> Create(db, u, db.projects[p].org)
    ensures !HasRole(db, db.projects[p].org, u, Owner) ==>
              !Update(db, u, p) && !Delete(db, u, p) && !Manage(db, u, p)
  {
  }

  /** Whoever may change a project may also see it. */
  lemma OwnerCanView(db: Db, u: UserId, p: ProjectId)
    requires p in db.projects && Manage(db, u, p)
    ensures View(db, u, p)
  {
  }

  /** Adding a member is allowed exactly when the requester may manage the
      project and the new member may see it. */
  lemma AddMemberIsManagePlusView(db: Db, u: UserId, p: ProjectId, member: UserId)
    requires p in db.projects
    ensures AddMemberToProject(db, u, p, member) <==> Manage(db, u, p) && View(db, member, p)
  {
  }

  /** Seeing a project does not depend on its project_user rows. */
  lemma ViewIgnoresProjectUsers(db: Db, u: UserId, p: ProjectId, users: set<UserId>)
    requires p in db.projects
    ensures var db' := db.(projects := db.projects[p := db.projects[p].(users := users)]);
            View(db', u, p) == View(db, u, p)
  {
  }

  /** Commenting does not depend on any organization_user row. */
  lemma CommentIgnoresOrgRoles(db: Db, u: UserId, p: ProjectId, orgs: map<OrgId, Organization>)
    requires p in db.projects
    ensures Comment(db.(orgs := orgs), u, p) == Comment(db, u, p)
  {
  }
}
