/** The frontend project store: the projects of one organization and the
    actions that keep the list in step after each request. None of its
    requests is caught: a failure leaves the list as it was. */
module ProjectsStore {
  import ListOps
  import opened Remote

  /** The organization a project belongs to, as rendered. */
  datatype OrganizationRef = OrganizationRef(id: int, name: string)

  /** One member of a project, as rendered. */
  datatype MemberRef = MemberRef(id: int, name: string)

  /** A project as the store keeps it. */
  datatype ProjectJson = ProjectJson(id: int, name: string, organization: OrganizationRef, members: seq<MemberRef>)

  function IdOf(p: ProjectJson): int { p.id }

  /** The ids of a list, in order. */
  function Ids(projects: seq<ProjectJson>): (r: seq<int>)
    ensures |r| == |projects| && forall i :: 0 <= i < |r| ==> r[i] == projects[i].id
  {
    seq(|projects|, i requires 0 <= i < |projects| => projects[i].id)
  }

  /** An update whose answer carries the id it was sent to keeps every
      project's id where it was, so the list keeps its order and length. */
  lemma UpdateKeepsIds(projects: seq<ProjectJson>, id: int, project: ProjectJson)
    requires project.id == id
    ensures Ids(ListOps.ReplaceAll(projects, IdOf, id, project)) == Ids(projects)
  {
  }

  /** Deleting a project after updating it is deleting it. */
  lemma DeleteAfterUpdate(projects: seq<ProjectJson>, id: int, project: ProjectJson)
    requires project.id == id
    ensures ListOps.Drop(ListOps.ReplaceAll(projects, IdOf, id, project), IdOf, id) == ListOps.Drop(projects, IdOf, id)
  {
    ListOps.DropAfterReplaceAll(projects, IdOf, id, project);
  }

  /** After `delete` no project carries the id, and every other project
      is still there. */
  lemma DeleteRemovesExactlyTheId(projects: seq<ProjectJson>, id: int, p: ProjectJson)
    ensures p in ListOps.Drop(projects, IdOf, id) <==> p in projects && p.id != id
    ensures id !in Ids(ListOps.Drop(projects, IdOf, id))
  {
    var r := ListOps.Drop(projects, IdOf, id);
    assert forall i :: 0 <= i < |r| ==> r[i] in r;
  }

  class Store {
    var projects: seq<ProjectJson>
    var loading: bool

    constructor ()
      ensures projects == [] && !loading
    {
      projects := [];
      loading := false;
    }

    /** `fetch`: the organization's listing replaces the list; on a failed
        request `loading` stays set. */
    method Fetch(orgId: int, reply: Reply<seq<ProjectJson>>)
      modifies this
      ensures reply.Succeeded? ==> projects == reply.data && !loading
      ensures reply.Failed? ==> projects == old(projects) && loading
    {
      loading := true;
      if reply.Succeeded? {
        projects := reply.data;
        loading := false;
      }
    }

    /** `create`: the new project goes to the front. */
    method Create(reply: Reply<ProjectJson>)
      modifies this
      ensures projects == (if reply.Succeeded? then [reply.data] + old(projects) else old(projects))
      ensures loading == old(loading)
    {
      if reply.Succeeded? {
        projects := [reply.data] + projects;
      }
    }

    /** `update`: every project with the id becomes the server's copy. */
    method Update(id: int, reply: Reply<ProjectJson>)
      modifies this
      ensures projects == (if reply.Succeeded? then ListOps.ReplaceAll(old(projects), IdOf, id, reply.data) else old(projects))
      ensures loading == old(loading)
    {
      if reply.Succeeded? {
        projects := ListOps.ReplaceAll(projects, IdOf, id, reply.data);
      }
    }

    /** `delete`: every project with the id goes, the rest keep their order. */
    method Delete(id: int, reply: Reply<()>)
      modifies this
      ensures projects == (if reply.Succeeded? then ListOps.Drop(old(projects), IdOf, id) else old(projects))
      ensures loading == old(loading)
    {
      if reply.Succeeded? {
        projects := ListOps.Drop(projects, IdOf, id);
      }
    }
  }
}
