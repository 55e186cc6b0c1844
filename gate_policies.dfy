/** The organization, task and comment policies. Their bodies are not part
    of this model: each is a record of decision functions that the
    controllers receive as a parameter. What the feature tests assert about
    them is stated as a predicate, and a reference policy built from the
    design's permission table shows those assertions can all hold at once. */
module GatePolicies {
  import opened Schema

  datatype OrganizationPolicy = OrganizationPolicy(
    viewAny: (Db, UserId) -> bool,
    view: (Db, UserId, OrgId) -> bool,
    create: (Db, UserId) -> bool,
    update: (Db, UserId, OrgId) -> bool,
    delete: (Db, UserId, OrgId) -> bool,
    manageMembers: (Db, UserId, OrgId) -> bool)

  datatype TaskPolicy = TaskPolicy(
    create: (Db, UserId, ProjectId) -> bool,
    update: (Db, UserId, TaskId) -> bool,
    updateStatus: (Db, UserId, TaskId) -> bool,
    delete: (Db, UserId, TaskId) -> bool)

  datatype CommentPolicy = CommentPolicy(
    create: (Db, UserId, TaskId) -> bool,
    delete: (Db, UserId, CommentId) -> bool)

  /** The user has no organization row and no project row anywhere. */
  predicate Unaffiliated(db: Db, u: UserId) {
    && (forall o :: o in db.orgs ==> !InOrg(db, o, u))
    && (forall p :: p in db.projects ==> u !in db.projects[p].users)
  }

  /** A task's organization, when the task and its project exist. */
  predicate TaskInOrg(db: Db, t: TaskId, o: OrgId) {
    OrgOfTask(db, t) == Some(o)
  }

  /** What the organization feature tests assert: a member may view, an
      outsider may not; an owner may update and delete, a member may not;
      a user without any membership may create. */
  ghost predicate OrganizationPolicyTested(p: OrganizationPolicy) {
    && (forall db: Db, u: UserId, o: OrgId :: SoleRole(db, o, u, Member) ==> p.view(db, u, o))
    && (forall db: Db, u: UserId, o: OrgId :: o in db.orgs && !InOrg(db, o, u) ==> !p.view(db, u, o))
    && (forall db: Db, u: UserId, o: OrgId :: HasRole(db, o, u, Owner) ==> p.update(db, u, o) && p.delete(db, u, o))
    && (forall db: Db, u: UserId, o: OrgId :: SoleRole(db, o, u, Member) ==> !p.update(db, u, o) && !p.delete(db, u, o))
    && (forall db: Db, u: UserId :: Unaffiliated(db, u) ==> p.create(db, u))
  }

  /** What the task feature tests assert: an owner may create, update and
      delete; the assignee who is a plain member may change the status; a
      plain member may not delete. */
  ghost predicate TaskPolicyTested(p: TaskPolicy) {
    && (forall db: Db, u: UserId, pr: ProjectId :: pr in db.projects && HasRole(db, db.projects[pr].org, u, Owner) ==> p.create(db, u, pr))
    && (forall db: Db, u: UserId, t: TaskId, o: OrgId :: TaskInOrg(db, t, o) && HasRole(db, o, u, Owner) ==> p.update(db, u, t) && p.delete(db, u, t))
    && (forall db: Db, u: UserId, t: TaskId, o: OrgId :: (TaskInOrg(db, t, o) && SoleRole(db, o, u, Member) && db.tasks[t].assignedTo == Some(u))
                              ==> p.updateStatus(db, u, t))
    && (forall db: Db, u: UserId, t: TaskId, o: OrgId :: TaskInOrg(db, t, o) && SoleRole(db, o, u, Member) ==> !p.delete(db, u, t))
  }

  /** What the comment feature tests assert: a project member may comment,
      an unaffiliated user may not; the author may delete a comment, an
      unaffiliated user may not. */
  ghost predicate CommentPolicyTested(p: CommentPolicy) {
    && (forall db: Db, u: UserId, t: TaskId :: (t in db.tasks && db.tasks[t].project in db.projects && u in db.projects[db.tasks[t].project].users)
                           ==> p.create(db, u, t))
    && (forall db: Db, u: UserId, t: TaskId :: t in db.tasks && Unaffiliated(db, u) ==> !p.create(db, u, t))
    && (forall db: Db, u: UserId, c: CommentId :: c in db.comments && db.comments[c].author == u ==> p.delete(db, u, c))
    && (forall db: Db, u: UserId, c: CommentId :: c in db.comments && db.comments[c].author != u && Unaffiliated(db, u) ==> !p.delete(db, u, c))
  }

  /** The design's permission table for organizations, with creation open
      to every signed-in user as the tests exercise it. */
  function ReferenceOrganizationPolicy(): OrganizationPolicy {
    OrganizationPolicy(
      (db: Db, u: UserId) => true,
      (db: Db, u: UserId, o: OrgId) => InOrg(db, o, u),
      (db: Db, u: UserId) => true,
      (db: Db, u: UserId, o: OrgId) => HasRole(db, o, u, Owner),
      (db: Db, u: UserId, o: OrgId) => HasRole(db, o, u, Owner),
      (db: Db, u: UserId, o: OrgId) => HasRole(db, o, u, Owner))
  }

  /** An owner or manager row in the organization of the task's project. */
  predicate TaskManager(db: Db, u: UserId, t: TaskId) {
    var o := OrgOfTask(db, t);
    o.Some? && (HasRole(db, o.value, u, Owner) || HasRole(db, o.value, u, Manager))
  }

  /** The design's permission table for tasks. */
  function ReferenceTaskPolicy(): TaskPolicy {
    TaskPolicy(
      (db: Db, u: UserId, pr: ProjectId) =>
        pr in db.projects && (HasRole(db, db.projects[pr].org, u, Owner) || HasRole(db, db.projects[pr].org, u, Manager)),
      (db: Db, u: UserId, t: TaskId) => TaskManager(db, u, t),
      (db: Db, u: UserId, t: TaskId) => t in db.tasks && db.tasks[t].assignedTo == Some(u),
      (db: Db, u: UserId, t: TaskId) => TaskManager(db, u, t))
  }

  /** The design's permission table for comments. */
  function ReferenceCommentPolicy(): CommentPolicy {
    CommentPolicy(
      (db: Db, u: UserId, t: TaskId) =>
        t in db.tasks && db.tasks[t].project in db.projects && u in db.projects[db.tasks[t].project].users,
      (db: Db, u: UserId, c: CommentId) => c in db.comments && db.comments[c].author == u)
  }

  /** A sole member row is not an owner or manager row. */
  lemma SoleMemberIsNoManager(db: Db, o: OrgId, u: UserId)
    requires SoleRole(db, o, u, Member)
    ensures !HasRole(db, o, u, Owner) && !HasRole(db, o, u, Manager)
  {
    assert Membership(u, Owner).user == u && Membership(u, Manager).user == u;
  }

  /** The feature tests' assertions are consistent: the reference policies
      satisfy all of them. */
  lemma ReferencePoliciesPassTests()
    ensures OrganizationPolicyTested(ReferenceOrganizationPolicy())
    ensures TaskPolicyTested(ReferenceTaskPolicy())
    ensures CommentPolicyTested(ReferenceCommentPolicy())
  {
    var op := ReferenceOrganizationPolicy();
    forall db: Db, u: UserId, o: OrgId | SoleRole(db, o, u, Member)
      ensures !op.update(db, u, o) && !op.delete(db, u, o)
    {
      SoleMemberIsNoManager(db, o, u);
    }
    var tp := ReferenceTaskPolicy();
    forall db: Db, u: UserId, t: TaskId, o: OrgId | TaskInOrg(db, t, o) && SoleRole(db, o, u, Member)
      ensures !tp.delete(db, u, t)
    {
      SoleMemberIsNoManager(db, o, u);
    }
    var cp := ReferenceCommentPolicy();
    forall db: Db, u: UserId, t: TaskId | t in db.tasks && Unaffiliated(db, u)
      ensures !cp.create(db, u, t)
    {
      if db.tasks[t].project in db.projects {
        assert u !in db.projects[db.tasks[t].project].users;
      }
    }
  }
}
