/** The frontend organization store: the list of organizations the user
    belongs to, as the backend's organization resource renders them, and
    the actions that keep it in step after each request. */
module OrganizationsStore {
  import opened Schema
  import ListOps
  import opened Remote
  import opened OrganizationResource

  function IdOf(org: OrganizationJson): OrgId { org.id }

  /** `isOwner`: the organization was rendered with the requester's owner
      row. */
  function IsOwner(org: OrganizationJson): (r: bool)
    ensures r <==> org.role == Some(Owner)
  {
    match org.role
    case Some(Owner) => true
    case _ => false
  }

  /** An organization the backend renders without a join row (the answer to
      a create or an update) never reads as owned, whatever the requester's
      rows are. */
  lemma RenderedWithoutRowIsNotOwned(db: Db, o: OrgId)
    requires o in db.orgs
    ensures !IsOwner(ToArray(db, o, None))
  {
  }

  /** An organization rendered from the requester's owner row reads as
      owned, and one rendered from a manager or member row does not. */
  lemma OwnedIffOwnerRow(db: Db, o: OrgId, role: Role)
    requires o in db.orgs
    ensures IsOwner(ToArray(db, o, Some(role))) <==> role == Owner
  {
  }

  /** The list after `update`: the first organization with the id becomes
      the server's copy; an unknown id leaves the list as it is. */
  function Replaced(orgs: seq<OrganizationJson>, id: OrgId, org: OrganizationJson): (r: seq<OrganizationJson>)
    ensures |r| == |orgs|
    ensures forall j :: 0 <= j < |orgs| && orgs[j].id != id ==> r[j] == orgs[j]
    ensures (forall j :: 0 <= j < |orgs| ==> orgs[j].id != id) ==> r == orgs
    ensures (exists j :: 0 <= j < |orgs| && orgs[j].id == id) ==> org in r
    ensures var i := ListOps.FindIndex(orgs, IdOf, id);
            i >= 0 ==> r[i] == org && forall j :: 0 <= j < |orgs| && j != i ==> r[j] == orgs[j]
  {
    var i := ListOps.FindIndex(orgs, IdOf, id);
    if i != -1 then
      assert orgs[i := org][i] == org;
      orgs[i := org]
    else orgs
  }

  /** When ids are unique, replacing the first match is replacing every
      match, which is what the project store's `update` does. */
  lemma ReplacedIsReplaceAll(orgs: seq<OrganizationJson>, id: OrgId, org: OrganizationJson)
    requires ListOps.UniqueKeys(orgs, IdOf)
    ensures Replaced(orgs, id, org) == ListOps.ReplaceAll(orgs, IdOf, id, org)
  {
    ListOps.ReplaceFirstIsReplaceAll(orgs, IdOf, id, org);
  }

  /** With duplicate ids only the first copy is replaced: every later copy
      of the id stays as it was, so unless it already equals the server's
      copy the result differs from replacing every match. */
  lemma ReplacedSkipsLaterDuplicates(orgs: seq<OrganizationJson>, i: int, j: int, org: OrganizationJson)
    requires 0 <= i < j < |orgs| && orgs[i].id == orgs[j].id
    ensures Replaced(orgs, orgs[i].id, org)[j] == orgs[j]
    ensures orgs[j] != org ==> Replaced(orgs, orgs[i].id, org) != ListOps.ReplaceAll(orgs, IdOf, orgs[i].id, org)
  {
    var k := ListOps.FindIndex(orgs, IdOf, orgs[i].id);
    assert IdOf(orgs[i]) == orgs[i].id;
    assert 0 <= k <= i;
    if orgs[j] != org {
      assert ListOps.ReplaceAll(orgs, IdOf, orgs[i].id, org)[j] == org;
    }
  }

  /** Deleting an organization just created removes it again and leaves
      the list as `delete` alone would. */
  lemma DeleteUndoesCreate(orgs: seq<OrganizationJson>, org: OrganizationJson)
    ensures ListOps.Drop([org] + orgs, IdOf, org.id) == ListOps.Drop(orgs, IdOf, org.id)
    ensures (forall x :: x in orgs ==> x.id != org.id) ==> ListOps.Drop([org] + orgs, IdOf, org.id) == orgs
  {
    ListOps.DropAppend([org], orgs, IdOf, org.id);
    if forall x :: x in orgs ==> x.id != org.id {
      ListOps.DropAbsent(orgs, IdOf, org.id);
    }
  }

  class Store {
    var organizations: seq<OrganizationJson>
    var loading: bool

    constructor ()
      ensures organizations == [] && !loading
    {
      organizations := [];
      loading := false;
    }

    /** `fetch`: the listing replaces the list. A failed request is not
        caught, so the list stays and `loading` stays set. */
    method Fetch(reply: Reply<seq<OrganizationJson>>)
      modifies this
      ensures reply.Succeeded? ==> organizations == reply.data && !loading
      ensures reply.Failed? ==> organizations == old(organizations) && loading
    {
      loading := true;
      if reply.Succeeded? {
        organizations := reply.data;
        loading := false;
      }
    }

    /** `create`: the new organization goes to the front; a failed request
        changes nothing. */
    method Create(reply: Reply<OrganizationJson>)
      modifies this
      ensures organizations == (if reply.Succeeded? then [reply.data] + old(organizations) else old(organizations))
      ensures loading == old(loading)
    {
      if reply.Succeeded? {
        organizations := [reply.data] + organizations;
      }
    }

    /** `update`: the first organization with the id becomes the server's
        copy; a failed request changes nothing. */
    method Update(id: OrgId, reply: Reply<OrganizationJson>)
      modifies this
      ensures organizations == (if reply.Succeeded? then Replaced(old(organizations), id, reply.data) else old(organizations))
      ensures loading == old(loading)
    {
      if reply.Succeeded? {
        var index := ListOps.FindIndex(organizations, IdOf, id);
        if index != -1 {
          organizations := organizations[index := reply.data];
        }
      }
    }

    /** `delete`: every organization with the id goes and the rest keep
        their order; a failed request changes nothing. */
    method Delete(id: OrgId, reply: Reply<()>)
      modifies this
      ensures organizations == (if reply.Succeeded? then ListOps.Drop(old(organizations), IdOf, id) else old(organizations))
      ensures loading == old(loading)
    {
      if reply.Succeeded? {
        organizations := ListOps.Drop(organizations, IdOf, id);
      }
    }
  }
}
