/** The organization member controller: attach a row, rewrite a user's
    role, or detach a user's rows, each behind the organization policy's
    `manageMembers`. Project rows are not touched by any of them. */
module OrganizationMemberController {
  import opened Schema
  import ListOps
  import opened GatePolicies

  /** The rows with every row of `x` carrying role `role` instead
      (`updateExistingPivot`). */
  function WithRole(rows: seq<Membership>, x: UserId, role: Role): (r: seq<Membership>)
    ensures |r| == |rows|
    ensures forall i :: 0 <= i < |rows| ==> r[i] == (if rows[i].user == x then Membership(x, role) else rows[i])
  {
    ListOps.ReplaceAll(rows, UserOf, x, Membership(x, role))
  }

  /** Rewriting a role changes only that user's roles: the user keeps a
      row exactly when they had one, now with the new role, every other
      user's rows are the same, and a non-member gains nothing. */
  lemma WithRoleTouchesOnlyTarget(rows: seq<Membership>, x: UserId, role: Role, m: Membership)
    ensures m.user != x ==> (m in WithRole(rows, x, role) <==> m in rows)
    ensures (exists n :: n in rows && n.user == x) <==> Membership(x, role) in WithRole(rows, x, role)
    ensures (forall n :: n in rows ==> n.user != x) ==> WithRole(rows, x, role) == rows
  {
    var r := WithRole(rows, x, role);
    if m.user != x && m in r {
      var i :| 0 <= i < |r| && r[i] == m;
      assert rows[i] == m;
    }
    if m.user != x && m in rows {
      var i :| 0 <= i < |rows| && rows[i] == m;
      assert r[i] == m;
    }
    if exists n :: n in rows && n.user == x {
      var n :| n in rows && n.user == x;
      var i :| 0 <= i < |rows| && rows[i] == n;
      assert r[i] == Membership(x, role);
    }
    if Membership(x, role) in r {
      var i :| 0 <= i < |r| && r[i] == Membership(x, role);
      assert rows[i].user == x;
    }
    if forall n :: n in rows ==> n.user != x {
      ListOps.ReplaceAllAbsent(rows, UserOf, x, Membership(x, role));
    }
  }

  /** Detaching a user leaves them without any row, and every other user's
      rows in their order. */
  lemma DetachRemovesOnlyTarget(db: Db, o: OrgId, x: UserId, y: UserId, r: Role)
    requires o in db.orgs
    ensures var db' := db.(orgs := db.orgs[o := db.orgs[o].(members := ListOps.Drop(db.orgs[o].members, UserOf, x))]);
            && !InOrg(db', o, x)
            && (y != x ==> (HasRole(db', o, y, r) <==> HasRole(db, o, y, r)))
  {
    assert Membership(x, Owner).user == x && Membership(x, Manager).user == x && Membership(x, Member).user == x;
    assert Membership(y, r).user == y;
  }

  /** `store`: 404 on an unknown organization, `manageMembers`, then one
      more row for the given user and role. */
  method Store(d: Database, op: OrganizationPolicy, u: UserId, o: OrgId, member: Membership)
    returns (r: Response<()>)
    modifies d
    ensures o !in old(d.db.orgs) ==> r == NotFound && d.db == old(d.db)
    ensures o in old(d.db.orgs) && !op.manageMembers(old(d.db), u, o) ==> r == Forbidden && d.db == old(d.db)
    ensures o in old(d.db.orgs) && op.manageMembers(old(d.db), u, o) ==>
              && r == Ok(())
              && d.db == old(d.db).(orgs := old(d.db.orgs)[o := old(d.db.orgs[o]).(members := old(d.db.orgs[o].members) + [member])])
              && HasRole(d.db, o, member.user, member.role)
    ensures old(d.db.Valid()) ==> d.db.Valid()
  {
    if o !in d.db.orgs {
      return NotFound;
    }
    if !op.manageMembers(d.db, u, o) {
      return Forbidden;
    }
    var org := d.db.orgs[o];
    d.db := d.db.(orgs := d.db.orgs[o := org.(members := org.members + [member])]);
    r := Ok(());
  }

  /** `update`: 404 on an unknown organization or user, `manageMembers`,
      then every row of the user carries the new role. */
  method Update(d: Database, op: OrganizationPolicy, u: UserId, o: OrgId, x: UserId, role: Role)
    returns (r: Response<()>)
    modifies d
    ensures o !in old(d.db.orgs) || x !in old(d.db.users) ==> r == NotFound && d.db == old(d.db)
    ensures o in old(d.db.orgs) && x in old(d.db.users) && !op.manageMembers(old(d.db), u, o) ==>
              r == Forbidden && d.db == old(d.db)
    ensures o in old(d.db.orgs) && x in old(d.db.users) && op.manageMembers(old(d.db), u, o) ==>
              && r == Ok(())
              && d.db == old(d.db).(orgs := old(d.db.orgs)[o := old(d.db.orgs[o]).(members := WithRole(old(d.db.orgs[o].members), x, role))])
    ensures old(d.db.Valid()) ==> d.db.Valid()
  {
    if o !in d.db.orgs || x !in d.db.users {
      return NotFound;
    }
    if !op.manageMembers(d.db, u, o) {
      return Forbidden;
    }
    var org := d.db.orgs[o];
    d.db := d.db.(orgs := d.db.orgs[o := org.(members := WithRole(org.members, x, role))]);
    r := Ok(());
  }

  /** `destroy`: 404 on an unknown organization or user, `manageMembers`,
      then every row of the user is detached. The user's project rows stay. */
  method Destroy(d: Database, op: OrganizationPolicy, u: UserId, o: OrgId, x: UserId)
    returns (r: Response<()>)
    modifies d
    ensures o !in old(d.db.orgs) || x !in old(d.db.users) ==> r == NotFound && d.db == old(d.db)
    ensures o in old(d.db.orgs) && x in old(d.db.users) && !op.manageMembers(old(d.db), u, o) ==>
              r == Forbidden && d.db == old(d.db)
    ensures o in old(d.db.orgs) && x in old(d.db.users) && op.manageMembers(old(d.db), u, o) ==>
              && r == Ok(())
              && d.db == old(d.db).(orgs := old(d.db.orgs)[o := old(d.db.orgs[o]).(members := ListOps.Drop(old(d.db.orgs[o].members), UserOf, x))])
              && !InOrg(d.db, o, x)
    ensures old(d.db.Valid()) ==> d.db.Valid()
  {
    if o !in d.db.orgs || x !in d.db.users {
      return NotFound;
    }
    if !op.manageMembers(d.db, u, o) {
      return Forbidden;
    }
    var org := d.db.orgs[o];
    d.db := d.db.(orgs := d.db.orgs[o := org.(members := ListOps.Drop(org.members, UserOf, x))]);
    DetachRemovesOnlyTarget(old(d.db), o, x, x, Owner);
    r := Ok(());
  }

  /** Detaching a user who is still attached to one of the organization's
      projects breaks the rule that project members belong to the
      project's organization: nothing detaches the project row. */
  lemma DetachLeavesProjectRows(db: Db, o: OrgId, x: UserId, p: ProjectId)
    requires o in db.orgs && p in db.projects && db.projects[p].org == o && x in db.projects[p].users
    ensures !ProjectUsersInOrg(db.(orgs := db.orgs[o := db.orgs[o].(members := ListOps.Drop(db.orgs[o].members, UserOf, x))]))
  {
    DetachRemovesOnlyTarget(db, o, x, x, Owner);
  }
}
