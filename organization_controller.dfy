/** The organization controller. `update` is the interesting action: when
    the request carries `members`, it drops every non-owner row of the
    organization, attaches the incoming rows one by one, and detaches the
    users that lost their place from every project of the organization. The
    organization policy is a parameter. */
module OrganizationController {
  import opened Schema
  import ListOps
  import OrganizationService
  import opened GatePolicies

  // ---------------------------------------------------------------------
  // The member sync, as a function of the rows before it.

  /** The user ids of a list of rows, in order (`pluck`). */
  function UserIds(ms: seq<Membership>): (r: seq<UserId>)
    ensures |r| == |ms|
    ensures forall i :: 0 <= i < |ms| ==> r[i] == ms[i].user
  {
    seq(|ms|, i requires 0 <= i < |ms| => ms[i].user)
  }

  /** The ids of the users holding a non-owner row. */
  function NonOwnerIds(rows: seq<Membership>): (r: seq<UserId>)
    ensures forall x :: x in r <==> exists m :: m in rows && m.role != Owner && m.user == x
  {
    var kept := ListOps.Drop(rows, RoleOf, Owner);
    var ids := UserIds(kept);
    forall x
      ensures x in ids <==> exists m :: m in rows && m.role != Owner && m.user == x
    {
      if x in ids {
        var i :| 0 <= i < |ids| && ids[i] == x;
        assert kept[i] in kept && kept[i].user == x;
      }
      if exists m :: m in rows && m.role != Owner && m.user == x {
        var m :| m in rows && m.role != Owner && m.user == x;
        assert m in kept;
        var i :| 0 <= i < |kept| && kept[i] == m;
        assert ids[i] == x;
      }
    }
    ids
  }

  /** `array_diff` of the existing non-owner ids and the incoming ids. */
  function Removed(rows: seq<Membership>, incoming: seq<Membership>): (r: set<UserId>)
    ensures forall x :: x in r <==> x in NonOwnerIds(rows) && x !in UserIds(incoming)
  {
    set x | x in NonOwnerIds(rows) && x !in UserIds(incoming)
  }

  /** The rows after the sync: the owner rows, in their order, followed by
      the incoming rows in the order they were sent. */
  function SyncedRows(rows: seq<Membership>, incoming: seq<Membership>): (r: seq<Membership>)
    ensures forall m :: m in r <==> (m in rows && m.role == Owner) || m in incoming
  {
    ListOps.Keep(rows, RoleOf, Owner) + incoming
  }

  /** The projects with the removed users detached from those of
      organization `o`, except the ones still in `todo`. */
  function CutExcept(projects: map<ProjectId, Project>, o: OrgId, removed: set<UserId>, todo: set<ProjectId>)
    : (r: map<ProjectId, Project>)
    ensures r.Keys == projects.Keys
  {
    map p | p in projects ::
      if projects[p].org == o && p !in todo then projects[p].(users := projects[p].users - removed)
      else projects[p]
  }

  /** The removed users detached from every project of organization `o`. */
  function CutProjects(projects: map<ProjectId, Project>, o: OrgId, removed: set<UserId>)
    : (r: map<ProjectId, Project>)
    ensures r.Keys == projects.Keys
  {
    CutExcept(projects, o, removed, {})
  }

  /** Detaching nobody leaves every project as it is. */
  lemma CutNothing(projects: map<ProjectId, Project>, o: OrgId)
    ensures CutProjects(projects, o, {}) == projects
  {
    var cut := CutProjects(projects, o, {});
    forall q | q in projects
      ensures cut[q] == projects[q]
    {
      assert projects[q].users - {} == projects[q].users;
    }
  }

  /** Cutting one more project of the organization. */
  lemma CutOneMore(projects: map<ProjectId, Project>, o: OrgId, removed: set<UserId>, todo: set<ProjectId>, p: ProjectId)
    requires p in todo && p in projects && projects[p].org == o
    ensures var cut := CutExcept(projects, o, removed, todo);
            cut[p := cut[p].(users := cut[p].users - removed)] == CutExcept(projects, o, removed, todo - {p})
  {
    var cut := CutExcept(projects, o, removed, todo);
    var lhs := cut[p := cut[p].(users := cut[p].users - removed)];
    var rhs := CutExcept(projects, o, removed, todo - {p});
    assert lhs.Keys == rhs.Keys;
    forall q | q in lhs.Keys
      ensures lhs[q] == rhs[q]
    {
    }
  }

  /** The whole store after `update` has synced organization `o`'s rows
      with `incoming`. */
  function SyncedDb(db: Db, o: OrgId, incoming: seq<Membership>): (r: Db)
    requires o in db.orgs
  {
    var rows := db.orgs[o].members;
    db.(orgs := db.orgs[o := db.orgs[o].(members := SyncedRows(rows, incoming))],
        projects := CutProjects(db.projects, o, Removed(rows, incoming)))
  }

  /** The owner rows survive the sync untouched and in order, followed by
      any owner rows the request itself carries. */
  lemma SyncKeepsOwners(db: Db, o: OrgId, incoming: seq<Membership>)
    requires o in db.orgs
    ensures var after := SyncedDb(db, o, incoming).orgs[o].members;
            ListOps.Keep(after, RoleOf, Owner) ==
              ListOps.Keep(db.orgs[o].members, RoleOf, Owner) + ListOps.Keep(incoming, RoleOf, Owner)
    ensures forall x :: HasRole(db, o, x, Owner) ==> HasRole(SyncedDb(db, o, incoming), o, x, Owner)
  {
    var owners := ListOps.Keep(db.orgs[o].members, RoleOf, Owner);
    ListOps.KeepAppend(owners, incoming, RoleOf, Owner);
    KeepOfKept(db.orgs[o].members);
  }

  /** Keeping the owner rows of a list of owner rows changes nothing. */
  lemma KeepOfKept(rows: seq<Membership>)
    ensures ListOps.Keep(ListOps.Keep(rows, RoleOf, Owner), RoleOf, Owner) == ListOps.Keep(rows, RoleOf, Owner)
  {
    KeepAllIsIdentity(ListOps.Keep(rows, RoleOf, Owner));
  }

  /** A list of owner rows is its own owner-row filter. */
  lemma {:induction false} KeepAllIsIdentity(s: seq<Membership>)
    requires forall m :: m in s ==> m.role == Owner
    ensures ListOps.Keep(s, RoleOf, Owner) == s
  {
    if s != [] {
      KeepAllIsIdentity(s[1..]);
      assert [s[0]] + s[1..] == s;
    }
  }

  /** A list of owner rows has no non-owner rows. */
  lemma {:induction false} DropAllOwners(s: seq<Membership>)
    requires forall m :: m in s ==> m.role == Owner
    ensures ListOps.Drop(s, RoleOf, Owner) == []
  {
    if s != [] {
      DropAllOwners(s[1..]);
    }
  }

  /** After the sync the non-owner rows are exactly the incoming ones with
      the roles they were sent with, in the order they were sent. */
  lemma SyncNonOwnersAreIncoming(db: Db, o: OrgId, incoming: seq<Membership>)
    requires o in db.orgs
    ensures var after := SyncedDb(db, o, incoming).orgs[o].members;
            ListOps.Drop(after, RoleOf, Owner) == ListOps.Drop(incoming, RoleOf, Owner)
    ensures (forall m :: m in incoming ==> m.role != Owner) ==>
              ListOps.Drop(SyncedDb(db, o, incoming).orgs[o].members, RoleOf, Owner) == incoming
  {
    var owners := ListOps.Keep(db.orgs[o].members, RoleOf, Owner);
    ListOps.DropAppend(owners, incoming, RoleOf, Owner);
    var d := ListOps.Drop(owners, RoleOf, Owner);
    DropAllOwners(owners);
    assert d + ListOps.Drop(incoming, RoleOf, Owner) == ListOps.Drop(incoming, RoleOf, Owner);
    if forall m :: m in incoming ==> m.role != Owner {
      ListOps.DropAbsent(incoming, RoleOf, Owner);
    }
  }

  /** A removed user is off every project of the organization, and unless
      they also hold an owner row they have no row left in it. */
  lemma SyncDetachesRemoved(db: Db, o: OrgId, incoming: seq<Membership>, x: UserId)
    requires o in db.orgs && x in Removed(db.orgs[o].members, incoming)
    ensures var db' := SyncedDb(db, o, incoming);
            forall p :: p in db'.projects && db'.projects[p].org == o ==> x !in db'.projects[p].users
    ensures !HasRole(db, o, x, Owner) ==> !InOrg(SyncedDb(db, o, incoming), o, x)
  {
    var db' := SyncedDb(db, o, incoming);
    if !HasRole(db, o, x, Owner) && InOrg(db', o, x) {
      assert false;
    }
  }

  /** A user the sync does not remove keeps every project membership;
      projects of other organizations and the other organizations' rows are
      untouched. */
  lemma SyncKeepsStayers(db: Db, o: OrgId, incoming: seq<Membership>)
    requires o in db.orgs
    ensures var db' := SyncedDb(db, o, incoming);
            && db'.projects.Keys == db.projects.Keys
            && (forall p, x :: (p in db.projects && x in db.projects[p].users
                                 && x !in Removed(db.orgs[o].members, incoming)) ==> x in db'.projects[p].users)
            && (forall p :: p in db.projects && db.projects[p].org != o ==> db'.projects[p] == db.projects[p])
            && (forall o' :: o' in db.orgs && o' != o ==> db'.orgs[o'] == db.orgs[o'])
  {
  }

  /** The removed users are exactly those holding a non-owner row whom the
      request does not name. */
  lemma RemovedAreFormerNonOwners(db: Db, o: OrgId, incoming: seq<Membership>, x: UserId)
    requires o in db.orgs
    ensures x in Removed(db.orgs[o].members, incoming) <==>
              x !in UserIds(incoming) && (HasRole(db, o, x, Manager) || HasRole(db, o, x, Member))
  {
    var rows := db.orgs[o].members;
    if x in NonOwnerIds(rows) {
      var m :| m in rows && m.role != Owner && m.user == x;
      assert m == Membership(x, m.role);
    }
    if HasRole(db, o, x, Manager) {
      assert Membership(x, Manager) in rows;
    }
    if HasRole(db, o, x, Member) {
      assert Membership(x, Member) in rows;
    }
  }

  /** Owners keep their projects only when they hold no other row: an
      owner who also holds a member row and whom the request leaves out
      stays owner but loses every project of the organization. No code
      modelled stops such a second row; the join table's unique indexes
      are not modelled, and this lemma assumes the row exists. */
  lemma OwnerWithSecondRowLosesProjects(db: Db, o: OrgId, incoming: seq<Membership>, x: UserId, p: ProjectId)
    requires o in db.orgs && HasRole(db, o, x, Owner) && HasRole(db, o, x, Member) && x !in UserIds(incoming)
    requires p in db.projects && db.projects[p].org == o
    ensures HasRole(SyncedDb(db, o, incoming), o, x, Owner)
    ensures x !in SyncedDb(db, o, incoming).projects[p].users
  {
    RemovedAreFormerNonOwners(db, o, incoming, x);
    SyncKeepsOwners(db, o, incoming);
  }

  /** An owner with no other row, and every user the request names, keeps
      every project membership. */
  lemma OwnersAndNamedUsersStay(db: Db, o: OrgId, incoming: seq<Membership>, x: UserId, p: ProjectId)
    requires o in db.orgs && p in db.projects && x in db.projects[p].users
    requires x in UserIds(incoming) || SoleRole(db, o, x, Owner)
    ensures x in SyncedDb(db, o, incoming).projects[p].users
  {
    if x !in UserIds(incoming) {
      RemovedAreFormerNonOwners(db, o, incoming, x);
      assert Membership(x, Manager).user == x && Membership(x, Member).user == x;
    }
  }

  /** The sync keeps the rule that every project member has a row in the
      project's organization. */
  lemma SyncPreservesProjectUsersInOrg(db: Db, o: OrgId, incoming: seq<Membership>)
    requires o in db.orgs && ProjectUsersInOrg(db)
    ensures ProjectUsersInOrg(SyncedDb(db, o, incoming))
  {
    var db' := SyncedDb(db, o, incoming);
    var rows := db.orgs[o].members;
    forall p, x | p in db'.projects && x in db'.projects[p].users
      ensures InOrg(db', db'.projects[p].org, x)
    {
      var q := db.projects[p].org;
      assert x in db.projects[p].users;
      assert InOrg(db, q, x);
      assert db'.projects[p].org == q;
      if q != o {
        assert db'.orgs[q] == db.orgs[q];
        assert HasRole(db', q, x, Owner) || HasRole(db', q, x, Manager) || HasRole(db', q, x, Member);
      } else {
        InOrgIffSomeRow(db, o, x);
        var m :| m in rows && m.user == x;
        assert x !in Removed(rows, incoming);
        if m.role == Owner {
          assert m in db'.orgs[o].members;
        } else {
          assert x in NonOwnerIds(rows);
          assert x in UserIds(incoming);
          var i :| 0 <= i < |incoming| && UserIds(incoming)[i] == x;
          assert incoming[i] in db'.orgs[o].members && incoming[i].user == x;
        }
        InOrgIffSomeRow(db', o, x);
      }
    }
  }

  // ---------------------------------------------------------------------
  // Actions.

  /** `index`: the policy's `viewAny`, then the user's organizations,
      newest first. */
  ghost function Index(db: Db, op: OrganizationPolicy, u: UserId): (r: Response<seq<OrgId>>)
    ensures r == Forbidden <==> !op.viewAny(db, u)
    ensures r.Ok? ==> forall o :: o in r.value <==> o in db.orgs && InOrg(db, o, u)
    ensures r.Ok? ==> forall o :: o in r.value ==> o in db.orgs
    ensures r.Ok? ==> OrganizationService.NewestFirst(db, r.value)
    ensures r.Forbidden? || r.Ok?
  {
    if !op.viewAny(db, u) then Forbidden else Ok(OrganizationService.UsersOrganizations(db, u))
  }

  /** `filled('members')`: true for any array under the key, the empty one
      included; attaching over an empty list adds no row, so an empty list
      has the same effect as an absent one. */
  predicate Filled(members: Option<seq<Membership>>) {
    members.Some?
  }

  /** `store`: the policy's `create`, the organization with its owner row,
      then one attached row per listed member, in order. */
  method Store(d: Database, op: OrganizationPolicy, u: UserId, name: string,
               members: Option<seq<Membership>>, now: nat) returns (r: Response<OrgId>)
    requires d.db.Valid()
    modifies d
    ensures d.db.Valid()
    ensures !op.create(old(d.db), u) ==> r == Forbidden && d.db == old(d.db)
    ensures op.create(old(d.db), u) ==>
              && r == Ok(old(d.db.nextOrg))
              && d.db == old(d.db).(orgs := old(d.db.orgs)[r.value := Organization(name, now,
                                      [Membership(u, Owner)] + (if Filled(members) then members.value else []))],
                                    nextOrg := r.value + 1)
  {
    if !op.create(d.db, u) {
      return Forbidden;
    }
    var o := OrganizationService.Create(d, u, name, now);
    if Filled(members) {
      AttachRows(d, o, members.value);
    } else {
      assert [Membership(u, Owner)] + [] == [Membership(u, Owner)];
    }
    r := Ok(o);
  }

  /** `show`: 404 on an unknown organization, then the policy's `view`. */
  function Show(db: Db, op: OrganizationPolicy, u: UserId, o: OrgId): (r: Response<Organization>)
    ensures r == NotFound <==> o !in db.orgs
    ensures r == Forbidden <==> o in db.orgs && !op.view(db, u, o)
    ensures r.Ok? ==> o in db.orgs && r.value == db.orgs[o]
  {
    if o !in db.orgs then NotFound
    else if !op.view(db, u, o) then Forbidden
    else Ok(db.orgs[o])
  }

  /** Under any policy that passes the feature tests, a plain member may
      see the organization and an outsider may not. */
  lemma ShowFollowsMembership(db: Db, op: OrganizationPolicy, u: UserId, o: OrgId)
    requires OrganizationPolicyTested(op) && o in db.orgs
    ensures SoleRole(db, o, u, Member) ==> Show(db, op, u, o) == Ok(db.orgs[o])
    ensures !InOrg(db, o, u) ==> Show(db, op, u, o) == Forbidden
  {
  }

  /** The member sync of `update`: compute the removed ids, detach the
      non-owner rows, attach the incoming rows in order, and, when some user
      was removed, detach the removed users from each project of the
      organization. */
  method SyncMembers(d: Database, o: OrgId, ms: seq<Membership>)
    requires o in d.db.orgs
    modifies d
    ensures d.db == SyncedDb(old(d.db), o, ms)
  {
    ghost var synced := SyncedDb(d.db, o, ms);
    var rows := d.db.orgs[o].members;
    var removed := Removed(rows, ms);

    var owners := ListOps.Keep(rows, RoleOf, Owner);
    var org := d.db.orgs[o].(members := owners);
    d.db := d.db.(orgs := d.db.orgs[o := org]);
    AttachRows(d, o, ms);
    assert d.db.orgs == synced.orgs;
    assert d.db == synced.(projects := d.db.projects);

    if removed != {} {
      DetachFromProjects(d, o, removed);
    } else {
      CutNothing(d.db.projects, o);
    }
  }

  /** Attach each row of `ms` to organization `o`, in order. */
  method AttachRows(d: Database, o: OrgId, ms: seq<Membership>)
    requires o in d.db.orgs
    modifies d
    ensures d.db == old(d.db).(orgs := old(d.db.orgs)[o := old(d.db.orgs[o]).(members := old(d.db.orgs[o].members) + ms)])
  {
    ghost var before := d.db;
    var i := 0;
    assert before.orgs[o].members + ms[..0] == before.orgs[o].members;
    while i < |ms|
      invariant 0 <= i <= |ms|
      invariant d.db == before.(orgs := before.orgs[o := before.orgs[o].(members := before.orgs[o].members + ms[..i])])
    {
      var org := d.db.orgs[o];
      d.db := d.db.(orgs := d.db.orgs[o := org.(members := org.members + [ms[i]])]);
      assert before.orgs[o].members + ms[..i + 1] == (before.orgs[o].members + ms[..i]) + [ms[i]];
      i := i + 1;
    }
    assert ms[..|ms|] == ms;
  }

  /** Detach the users of `removed` from every project of organization `o`. */
  method DetachFromProjects(d: Database, o: OrgId, removed: set<UserId>)
    modifies d
    ensures d.db == old(d.db).(projects := CutProjects(old(d.db.projects), o, removed))
  {
    ghost var before := d.db;
    var todo := set p | p in d.db.projects && d.db.projects[p].org == o;
    assert CutExcept(before.projects, o, removed, todo) == before.projects;
    while todo != {}
      invariant todo <= before.projects.Keys
      invariant forall q :: q in todo ==> before.projects[q].org == o
      invariant d.db == before.(projects := CutExcept(before.projects, o, removed, todo))
      decreases |todo|
    {
      var p :| p in todo;
      var project := d.db.projects[p];
      d.db := d.db.(projects := d.db.projects[p := project.(users := project.users - removed)]);
      CutOneMore(before.projects, o, removed, todo, p);
      todo := todo - {p};
    }
  }

  /** `update`: 404, the policy's `update`, the rename, and, when the
      request carries `members` (even an empty list), the sync. */
  method Update(d: Database, op: OrganizationPolicy, u: UserId, o: OrgId, name: string,
                members: Option<seq<Membership>>) returns (r: Response<Organization>)
    modifies d
    ensures o !in old(d.db.orgs) ==> r == NotFound && d.db == old(d.db)
    ensures o in old(d.db.orgs) && !op.update(old(d.db), u, o) ==> r == Forbidden && d.db == old(d.db)
    ensures o in old(d.db.orgs) && op.update(old(d.db), u, o) ==>
              var renamed := old(d.db).(orgs := old(d.db.orgs)[o := old(d.db.orgs[o]).(name := name)]);
              && d.db == (if members.Some? then SyncedDb(renamed, o, members.value) else renamed)
              && o in d.db.orgs && r == Ok(d.db.orgs[o])
    ensures OrganizationPolicyTested(op) && o in old(d.db.orgs) && SoleRole(old(d.db), o, u, Member) ==>
              r == Forbidden && d.db.orgs[o].name == old(d.db.orgs[o].name)
    ensures old(d.db.Valid()) ==> d.db.Valid()
  {
    if o !in d.db.orgs {
      return NotFound;
    }
    if !op.update(d.db, u, o) {
      return Forbidden;
    }
    OrganizationService.Update(d, o, name);
    if members.Some? {
      SyncMembers(d, o, members.value);
    }
    r := Ok(d.db.orgs[o]);
  }

  /** `destroy`: 404, the policy's `delete`, then the organization goes. */
  method Destroy(d: Database, op: OrganizationPolicy, u: UserId, o: OrgId) returns (r: Response<()>)
    modifies d
    ensures o !in old(d.db.orgs) ==> r == NotFound && d.db == old(d.db)
    ensures o in old(d.db.orgs) && !op.delete(old(d.db), u, o) ==> r == Forbidden && d.db == old(d.db)
    ensures o in old(d.db.orgs) && op.delete(old(d.db), u, o) ==>
              r == Ok(()) && d.db == old(d.db).(orgs := old(d.db.orgs) - {o})
    ensures OrganizationPolicyTested(op) && o in old(d.db.orgs) && SoleRole(old(d.db), o, u, Member) ==>
              r == Forbidden && o in d.db.orgs
    ensures old(d.db.Valid()) ==> d.db.Valid()
  {
    if o !in d.db.orgs {
      return NotFound;
    }
    if !op.delete(d.db, u, o) {
      return Forbidden;
    }
    OrganizationService.Delete(d, o);
    r := Ok(());
  }
}
