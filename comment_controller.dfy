/** The comment controller: a comment is written by the requester on an
    existing task, and deleted, each behind the comment policy, which is a
    parameter. */
module CommentController {
  import opened Schema
  import opened GatePolicies

  /** `store`: 404 on an unknown task, the policy's `create`, then a
      comment whose author is the requester and whose task is the one
      asked for. */
  method Store(d: Database, cp: CommentPolicy, u: UserId, t: TaskId, body: string) returns (r: Response<CommentId>)
    requires d.db.Valid()
    modifies d
    ensures d.db.Valid()
    ensures t !in old(d.db.tasks) ==> r == NotFound && d.db == old(d.db)
    ensures t in old(d.db.tasks) && !cp.create(old(d.db), u, t) ==> r == Forbidden && d.db == old(d.db)
    ensures t in old(d.db.tasks) && cp.create(old(d.db), u, t) ==>
              && r == Ok(old(d.db.nextComment)) && r.value !in old(d.db.comments)
              && d.db == old(d.db).(comments := old(d.db.comments)[r.value := Comment(t, u, body)],
                                    nextComment := r.value + 1)
    ensures CommentPolicyTested(cp) && t in old(d.db.tasks) && Unaffiliated(old(d.db), u) ==>
              r == Forbidden && d.db.comments == old(d.db.comments)
  {
    if t !in d.db.tasks {
      return NotFound;
    }
    if !cp.create(d.db, u, t) {
      return Forbidden;
    }
    var c := d.db.nextComment;
    d.db := d.db.(comments := d.db.comments[c := Comment(t, u, body)], nextComment := c + 1);
    r := Ok(c);
  }

  /** `destroy`: 404 on an unknown comment, the policy's `delete`, then
      that comment alone is removed. */
  method Destroy(d: Database, cp: CommentPolicy, u: UserId, c: CommentId) returns (r: Response<()>)
    modifies d
    ensures c !in old(d.db.comments) ==> r == NotFound && d.db == old(d.db)
    ensures c in old(d.db.comments) && !cp.delete(old(d.db), u, c) ==> r == Forbidden && d.db == old(d.db)
    ensures c in old(d.db.comments) && cp.delete(old(d.db), u, c) ==>
              r == Ok(()) && d.db == old(d.db).(comments := old(d.db.comments) - {c})
    ensures CommentPolicyTested(cp) && c in old(d.db.comments) && old(d.db.comments[c].author) == u ==>
              r == Ok(()) && c !in d.db.comments
    ensures CommentPolicyTested(cp) && c in old(d.db.comments) && old(d.db.comments[c].author) != u
            && Unaffiliated(old(d.db), u) ==>
              r == Forbidden && d.db.comments == old(d.db.comments)
    ensures old(d.db.Valid()) ==> d.db.Valid()
  {
    if c !in d.db.comments {
      return NotFound;
    }
    if !cp.delete(d.db, u, c) {
      return Forbidden;
    }
    d.db := d.db.(comments := d.db.comments - {c});
    r := Ok(());
  }
}
