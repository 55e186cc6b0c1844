/** The project member controller: attach a user to a project or detach
    one, behind the project policy. */
module ProjectMemberController {
  import opened Schema
  import ProjectPolicy

  /** `store`: 404 on an unknown project or user, the policy's
      `addMemberToProject` (an owner of the project's organization adding a
      user who has a row there), then the project row. */
  method Store(d: Database, u: UserId, p: ProjectId, x: UserId) returns (r: Response<()>)
    modifies d
    ensures p !in old(d.db.projects) || x !in old(d.db.users) ==> r == NotFound && d.db == old(d.db)
    ensures p in old(d.db.projects) && x in old(d.db.users) && !ProjectPolicy.AddMemberToProject(old(d.db), u, p, x) ==>
              r == Forbidden && d.db == old(d.db)
    ensures p in old(d.db.projects) && x in old(d.db.users) && ProjectPolicy.AddMemberToProject(old(d.db), u, p, x) ==>
              && r == Ok(())
              && d.db == old(d.db).(projects := old(d.db.projects)[p := old(d.db.projects[p]).(users := old(d.db.projects[p].users) + {x})])
    ensures p in old(d.db.projects) && !InOrg(old(d.db), old(d.db.projects[p].org), x) ==>
              !r.Ok? && d.db == old(d.db)
    ensures old(ProjectUsersInOrg(d.db)) ==> ProjectUsersInOrg(d.db)
    ensures old(d.db.Valid()) ==> d.db.Valid()
  {
    if p !in d.db.projects || x !in d.db.users {
      return NotFound;
    }
    if !ProjectPolicy.AddMemberToProject(d.db, u, p, x) {
      return Forbidden;
    }
    var project := d.db.projects[p];
    d.db := d.db.(projects := d.db.projects[p := project.(users := project.users + {x})]);
    r := Ok(());
  }

  /** `destroy`: 404 on an unknown project, the policy's `manage` (owner of
      the project's organization), then that user's row of that project
      alone is removed. */
  method Destroy(d: Database, u: UserId, p: ProjectId, x: UserId) returns (r: Response<()>)
    modifies d
    ensures p !in old(d.db.projects) ==> r == NotFound && d.db == old(d.db)
    ensures p in old(d.db.projects) && !ProjectPolicy.Manage(old(d.db), u, p) ==> r == Forbidden && d.db == old(d.db)
    ensures p in old(d.db.projects) && ProjectPolicy.Manage(old(d.db), u, p) ==>
              && r == Ok(())
              && d.db == old(d.db).(projects := old(d.db.projects)[p := old(d.db.projects[p]).(users := old(d.db.projects[p].users) - {x})])
    ensures old(ProjectUsersInOrg(d.db)) ==> ProjectUsersInOrg(d.db)
    ensures old(d.db.Valid()) ==> d.db.Valid()
  {
    if p !in d.db.projects {
      return NotFound;
    }
    if !ProjectPolicy.Manage(d.db, u, p) {
      return Forbidden;
    }
    var project := d.db.projects[p];
    d.db := d.db.(projects := d.db.projects[p := project.(users := project.users - {x})]);
    r := Ok(());
  }
}
