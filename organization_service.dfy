/** The organization service: the list of a user's organizations, newest
    first, and the writes behind creating (with its owner row), renaming
    and deleting an organization. */
module OrganizationService {
  import opened Schema

  /** `s` lists organizations from the newest creation time to the oldest. */
  predicate NewestFirst(db: Db, s: seq<OrgId>)
    requires forall o :: o in s ==> o in db.orgs
  {
    forall i, j :: 0 <= i < j < |s| ==> db.orgs[s[i]].createdAt >= db.orgs[s[j]].createdAt
  }

  /** Every non-empty set of organizations has a newest one. */
  lemma {:induction false} NewestExists(db: Db, s: set<OrgId>)
    requires s != {} && s <= db.orgs.Keys
    ensures exists o :: o in s && forall o' :: o' in s ==> db.orgs[o'].createdAt <= db.orgs[o].createdAt
    decreases |s|
  {
    var x :| x in s;
    if s == {x} {
      assert forall o' :: o' in s ==> o' == x;
    } else {
      NewestExists(db, s - {x});
      var y :| y in s - {x} && forall o' :: o' in s - {x} ==> db.orgs[o'].createdAt <= db.orgs[y].createdAt;
      if db.orgs[x].createdAt <= db.orgs[y].createdAt {
        assert forall o' :: o' in s ==> db.orgs[o'].createdAt <= db.orgs[y].createdAt;
      } else {
        assert forall o' :: o' in s ==> db.orgs[o'].createdAt <= db.orgs[x].createdAt;
      }
    }
  }

  /** The organizations of `s` ordered newest first; creation-time ties are
      broken in no particular order, as the database leaves them. */
  ghost function Newest(db: Db, s: set<OrgId>): (r: seq<OrgId>)
    requires s <= db.orgs.Keys
    ensures |r| == |s|
    ensures forall o :: o in r <==> o in s
    ensures NewestFirst(db, r)
    decreases |s|
  {
    if s == {} then []
    else
      NewestExists(db, s);
      var o :| o in s && forall o' :: o' in s ==> db.orgs[o'].createdAt <= db.orgs[o].createdAt;
      var rest := Newest(db, s - {o});
      assert forall i :: 0 <= i < |rest| ==> rest[i] in s;
      [o] + rest
  }

  /** A list of |s| entries drawn from the set `s` names each one once. */
  lemma {:induction false} NoRepeats(r: seq<OrgId>, s: set<OrgId>)
    requires |r| == |s| && forall o :: o in r <==> o in s
    ensures forall i, j :: 0 <= i < j < |r| ==> r[i] != r[j]
  {
    forall i, j | 0 <= i < j < |r|
      ensures r[i] != r[j]
    {
      if r[i] == r[j] {
        var rest := r[..j] + r[j + 1..];
        assert forall o :: o in r ==> o in rest by {
          forall o | o in r
            ensures o in rest
          {
            var k :| 0 <= k < |r| && r[k] == o;
            if k < j {
              assert rest[k] == o;
            } else if k == j {
              assert rest[i] == o;
            } else {
              assert rest[k - 1] == o;
            }
          }
        }
        SetOfSeqBound(rest, s);
        assert false;
      }
    }
  }

  /** A list covering the set `s` has at least |s| entries. */
  lemma {:induction false} SetOfSeqBound(r: seq<OrgId>, s: set<OrgId>)
    requires forall o :: o in s ==> o in r
    ensures |s| <= |r|
    decreases |r|
  {
    if r == [] {
      assert s == {};
    } else {
      var rest := r[1..];
      var s' := s - {r[0]};
      forall o | o in s'
        ensures o in rest
      {
        assert o in r && o != r[0];
      }
      SetOfSeqBound(rest, s');
    }
  }

  /** The organizations in which the user has a row. */
  function OrgsOf(db: Db, u: UserId): (r: set<OrgId>)
    ensures r <= db.orgs.Keys
    ensures forall o :: o in r <==> o in db.orgs && InOrg(db, o, u)
  {
    set o | o in db.orgs && InOrg(db, o, u)
  }

  /** `usersOrganizations`: every organization the user has a row in, each
      once, newest first. */
  ghost function UsersOrganizations(db: Db, u: UserId): (r: seq<OrgId>)
    ensures forall o :: o in r <==> o in db.orgs && InOrg(db, o, u)
    ensures forall i, j :: 0 <= i < j < |r| ==> r[i] != r[j]
    ensures forall o :: o in r ==> o in db.orgs
    ensures NewestFirst(db, r)
  {
    var r := Newest(db, OrgsOf(db, u));
    NoRepeats(r, OrgsOf(db, u));
    r
  }

  /** The organization row `create` inserts: the given name and the
      creator as its single owner row. */
  function NewOrganization(name: string, now: nat, u: UserId): (org: Organization)
    ensures |org.members| == 1 && org.members[0] == Membership(u, Owner)
  {
    Organization(name, now, [Membership(u, Owner)])
  }

  /** A new organization has its creator as owner and nobody else. */
  lemma CreatorIsSoleOwner(db: Db, name: string, now: nat, u: UserId, o: OrgId, v: UserId)
    ensures var db' := db.(orgs := db.orgs[o := NewOrganization(name, now, u)]);
            && SoleRole(db', o, u, Owner)
            && (v != u ==> !InOrg(db', o, v))
  {
  }

  /** `create`: the organization row and its owner row, written together.
      The clock reading `now` becomes the creation time. */
  method Create(d: Database, u: UserId, name: string, now: nat) returns (o: OrgId)
    requires d.db.Valid()
    modifies d
    ensures d.db.Valid()
    ensures o == old(d.db.nextOrg) && o !in old(d.db.orgs)
    ensures d.db == old(d.db).(orgs := old(d.db.orgs)[o := NewOrganization(name, now, u)], nextOrg := o + 1)
  {
    o := d.db.nextOrg;
    var org := Organization(name, now, []);
    org := org.(members := org.members + [Membership(u, Owner)]);
    assert org.members == [Membership(u, Owner)];
    d.db := d.db.(orgs := d.db.orgs[o := org], nextOrg := o + 1);
  }

  /** `update`: write the new name; the rows of the join table and every
      other organization stay as they were. */
  method Update(d: Database, o: OrgId, name: string)
    requires o in d.db.orgs
    modifies d
    ensures d.db == old(d.db).(orgs := old(d.db.orgs)[o := old(d.db.orgs[o]).(name := name)])
    ensures d.db.orgs[o].members == old(d.db.orgs[o].members)
    ensures old(d.db.Valid()) ==> d.db.Valid()
  {
    d.db := d.db.(orgs := d.db.orgs[o := d.db.orgs[o].(name := name)]);
  }

  /** `delete`: remove the organization with its join rows. */
  method Delete(d: Database, o: OrgId)
    requires o in d.db.orgs
    modifies d
    ensures d.db == old(d.db).(orgs := old(d.db.orgs) - {o})
    ensures old(d.db.Valid()) ==> d.db.Valid()
  {
    d.db := d.db.(orgs := d.db.orgs - {o});
  }
}
