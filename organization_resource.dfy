/** The JSON shape of an organization: its id and name, the requester's
    role when the organization was loaded through the requester's join row,
    and the member list, which leaves out every owner row. */
module OrganizationResource {
  import opened Schema
  import ListOps
  import OrganizationController

  /** One entry of `members`. */
  datatype MemberEntry = MemberEntry(userId: UserId, name: string, role: Role)

  /** The array an organization becomes. `role` is absent unless a join row
      was loaded with the organization. */
  datatype OrganizationJson = OrganizationJson(id: OrgId, name: string, role: Option<Role>,
                                               members: seq<MemberEntry>)

  /** `members`: one entry per non-owner row whose user exists, in row
      order, reindexed. */
  function Members(rows: seq<Membership>, names: map<UserId, string>): (r: seq<MemberEntry>)
    ensures |r| <= |rows|
    ensures forall e :: e in r ==> e.role != Owner && e.userId in names && e.name == names[e.userId]
                                   && Membership(e.userId, e.role) in rows
  {
    if rows == [] then []
    else
      var m := rows[0];
      var rest := Members(rows[1..], names);
      assert forall e :: e in rest ==> Membership(e.userId, e.role) in rows by {
        forall e | e in rest
          ensures Membership(e.userId, e.role) in rows
        {
          assert Membership(e.userId, e.role) in rows[1..];
        }
      }
      (if m.role != Owner && m.user in names then [MemberEntry(m.user, names[m.user], m.role)] else []) + rest
  }

  /** `toArray`. */
  function ToArray(db: Db, o: OrgId, pivot: Option<Role>): (r: OrganizationJson)
    requires o in db.orgs
    ensures r.id == o && r.name == db.orgs[o].name && r.role == pivot
    ensures forall e :: e in r.members ==> e.role != Owner && HasRole(db, o, e.userId, e.role)
  {
    OrganizationJson(o, db.orgs[o].name, pivot, Members(db.orgs[o].members, db.users))
  }

  /** The entry a row becomes. */
  function EntryOf(m: Membership, names: map<UserId, string>): MemberEntry
    requires m.user in names
  {
    MemberEntry(m.user, names[m.user], m.role)
  }

  /** When every row's user exists, the member list is the non-owner rows,
      one entry each, in order: as many entries as non-owner rows, each
      carrying that row's user, name and role. */
  lemma {:induction false} MembersAreNonOwnerRows(rows: seq<Membership>, names: map<UserId, string>)
    requires forall m :: m in rows ==> m.user in names
    ensures var kept := ListOps.Drop(rows, RoleOf, Owner);
            && |Members(rows, names)| == |kept|
            && forall i :: 0 <= i < |kept| ==> Members(rows, names)[i] == EntryOf(kept[i], names)
  {
    if rows != [] {
      MembersAreNonOwnerRows(rows[1..], names);
    }
  }

  /** Every non-owner row of an existing user is listed. */
  lemma {:induction false} NonOwnerRowsListed(rows: seq<Membership>, names: map<UserId, string>, m: Membership)
    requires m in rows && m.role != Owner && m.user in names
    ensures EntryOf(m, names) in Members(rows, names)
  {
    if rows[0] != m {
      NonOwnerRowsListed(rows[1..], names, m);
    }
  }

  /** The member list of a concatenation is the concatenation of the lists. */
  lemma {:induction false} MembersAppend(a: seq<Membership>, b: seq<Membership>, names: map<UserId, string>)
    ensures Members(a + b, names) == Members(a, names) + Members(b, names)
  {
    if a == [] {
      assert a + b == b;
    } else {
      assert (a + b)[0] == a[0] && (a + b)[1..] == a[1..] + b;
      MembersAppend(a[1..], b, names);
    }
  }

  /** Owner rows contribute nothing. */
  lemma {:induction false} OwnerRowsListNobody(rows: seq<Membership>, names: map<UserId, string>)
    requires forall m :: m in rows ==> m.role == Owner
    ensures Members(rows, names) == []
  {
    if rows != [] {
      OwnerRowsListNobody(rows[1..], names);
    }
  }

  /** After an update's member sync, the member list is built from the
      request's rows alone: the owner rows kept by the sync list nobody. */
  lemma MembersAfterSync(owners: seq<Membership>, incoming: seq<Membership>, names: map<UserId, string>)
    requires forall m :: m in owners ==> m.role == Owner
    ensures Members(owners + incoming, names) == Members(incoming, names)
  {
    MembersAppend(owners, incoming, names);
    OwnerRowsListNobody(owners, names);
  }

  /** The organization an update answers with lists exactly the request's
      non-owner rows of existing users: the members the sync removed are
      gone from the answer, and the kept owners are not in it. */
  lemma RenderedAfterSync(db: Db, o: OrgId, incoming: seq<Membership>)
    requires o in db.orgs
    ensures ToArray(OrganizationController.SyncedDb(db, o, incoming), o, None).members == Members(incoming, db.users)
  {
    var owners := ListOps.Keep(db.orgs[o].members, RoleOf, Owner);
    MembersAfterSync(owners, incoming, db.users);
  }
}
