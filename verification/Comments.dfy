/** Comments; a root comment of a question can be its accepted one. */
module Comments {
  import opened Wrappers
  import opened Content

  /** The post once `id` can no longer be its accepted comment. */
  function Unaccept(thread: Thread, id: Id): Thread {
    if thread.post.acceptedComment == Some(id)
    then thread.(post := thread.post.(acceptedComment := None, status := Open))
    else thread
  }

  function CreateSpec(db: Rows, id: Id, discussion: Id, user: User, content: string, parent: Option<Id>, gate: Gate): Result<Rows, Error> {
    var _ :- Authenticated(user);
    var thread :- LockPost(db.threads, discussion);
    :- Need(thread.post.status != Closed, BadRequest);
    :- Need(Shown(thread.post), BadRequest);
    :- Need(thread.post.room.None? || gate != Refused, Forbidden);
    :- Need(parent.Some? ==> FindComment(db.comments, parent.value).Success? && db.comments[parent.value].discussion == discussion, BadRequest);
    :- Need(id !in db.comments, Conflict);
    Success(db.(comments := db.comments[id := Comment(discussion, user.id.value, content, parent, false)]))
  }

  function UpdateSpec(db: Rows, id: Id, user: User, content: Option<string>): Result<Rows, Error> {
    var _ :- Authenticated(user);
    var comment :- FindComment(db.comments, id);
    var thread :- LockPost(db.threads, comment.discussion);
    :- Need(thread.post.status != Closed, BadRequest);
    :- Need(CanManage(comment.author, user), Forbidden);
    if content.GetOr(comment.content) == comment.content then Success(db)
    else Success(db.(comments := db.comments[id := comment.(content := content.value)],
                     threads := db.threads[comment.discussion := Unaccept(thread, id)]))
  }

  function RemoveSpec(db: Rows, id: Id, user: User): Result<Rows, Error> {
    var _ :- Authenticated(user);
    var comment :- FindComment(db.comments, id);
    var thread :- LockPost(db.threads, comment.discussion);
    :- Need(thread.post.status != Closed, BadRequest);
    :- Need(CanManage(comment.author, user), Forbidden);
    Success(db.(comments := db.comments[id := comment.(deleted := true)],
                threads := db.threads[comment.discussion := Unaccept(thread, id)]))
  }

  class CommentsService {
    const db: Database

    constructor (db: Database)
      ensures this.db == db
    {
      this.db := db;
    }

    method Create(id: Id, discussion: Id, user: User, content: string, parent: Option<Id>, gate: Gate) returns (r: Result<(), Error>)
      modifies db
      ensures var spec := CreateSpec(old(db.Snapshot()), id, discussion, user, content, parent, gate);
              r == Reply(spec) && db.Snapshot() == Committed(old(db.Snapshot()), spec)
    {
      var _ :- Authenticated(user);
      var thread :- LockPost(db.threads, discussion);
      var post := thread.post;
      :- Need(post.status != Closed, BadRequest);
      :- Need(Shown(post), BadRequest);
      :- Need(post.room.None? || gate != Refused, Forbidden);
      if parent.Some? {
        var found := FindComment(db.comments, parent.value);
        :- Need(found.Success? && found.value.discussion == discussion, BadRequest);
      }
      :- Need(id !in db.comments, Conflict);
      db.comments := db.comments[id := Comment(discussion, user.id.value, content, parent, false)];
      return Success(());
    }

    method Update(id: Id, user: User, content: Option<string>) returns (r: Result<(), Error>)
      modifies db
      ensures var spec := UpdateSpec(old(db.Snapshot()), id, user, content);
              r == Reply(spec) && db.Snapshot() == Committed(old(db.Snapshot()), spec)
    {
      var _ :- Authenticated(user);
      var comment :- FindComment(db.comments, id);
      var thread :- LockPost(db.threads, comment.discussion);
      var post := thread.post;
      :- Need(post.status != Closed, BadRequest);
      :- Need(CanManage(comment.author, user), Forbidden);
      if content.Some? && content.value != comment.content {
        comment := comment.(content := content.value);
        if post.acceptedComment == Some(id) {
          post := post.(acceptedComment := None);
          post := post.(status := Open);
        }
        db.threads := db.threads[comment.discussion := thread.(post := post)];
        db.comments := db.comments[id := comment];
      }
      return Success(());
    }

    method Remove(id: Id, user: User) returns (r: Result<(), Error>)
      modifies db
      ensures var spec := RemoveSpec(old(db.Snapshot()), id, user);
              r == Reply(spec) && db.Snapshot() == Committed(old(db.Snapshot()), spec)
    {
      var _ :- Authenticated(user);
      var comment :- FindComment(db.comments, id);
      var thread :- LockPost(db.threads, comment.discussion);
      var post := thread.post;
      :- Need(post.status != Closed, BadRequest);
      :- Need(CanManage(comment.author, user), Forbidden);
      db.comments := db.comments[id := comment.(deleted := true)];
      if post.acceptedComment == Some(id) {
        post := post.(acceptedComment := None);
        post := post.(status := Open);
      }
      db.threads := db.threads[comment.discussion := thread.(post := post)];
      return Success(());
    }
  }
}
