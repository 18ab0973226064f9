/** Operations of the discussions service: each specification is a function on rows, each method the transaction. */
module Discussions {
  import opened Wrappers
  import opened Content

  /** Body of an update request: absent fields are left alone. */
  datatype Edit = Edit(
    title: Option<string>, content: Option<string>, anonymous: Option<bool>,
    tags: Option<set<Id>>, media: Option<seq<Id>>,
    expectedVersion: Option<nat>, kind: Option<RevisionKind>)

  function Overlay(base: Body, edit: Edit): Body {
    Body(edit.title.GetOr(base.title), edit.content.GetOr(base.content), edit.anonymous.GetOr(base.anonymous),
         edit.tags.GetOr(base.tags), edit.media.GetOr(base.media))
  }

  predicate Changes(post: Post, edit: Edit) {
    || edit.title.GetOr(post.published.title) != post.published.title
    || edit.content.GetOr(post.published.content) != post.published.content
    || edit.tags.Some?
    || edit.media.Some?
    || edit.anonymous.GetOr(post.published.anonymous) != post.published.anonymous
    || (post.draft.Some? && (edit.title.Some? || edit.content.Some?))
  }

  /** Whether an edit waits beside the published version instead of replacing it. */
  predicate Drafts(post: Post, edit: Edit, approval: bool) {
    Changes(post, edit) && (approval || post.draft.Some?) && post.visibility == Visible
  }

  function NextRevision(post: Post, text: Body, edit: Edit, editor: Id): Revision {
    Revision(post.version, text.title, text.content, edit.kind.GetOr(Semantic), editor)
  }

  function Created(body: Body, kind: PostKind, author: Id, room: Id, gate: Gate): Thread {
    var post := Post(body, None, 1, kind, author, Some(room), Pending,
                     if gate == NeedsApproval then Held else Visible, "", Open, None, None, false);
    Thread(post, [Revision(1, body.title, body.content, Semantic, author)], [], [])
  }

  function Drafted(thread: Thread, edit: Edit, editor: Id): Thread {
    var draft := Overlay(thread.post.Latest(), edit);
    var post := thread.post.(draft := Some(draft), version := thread.post.version + 1, moderation := Pending, note := "");
    thread.(post := post, revisions := thread.revisions + [NextRevision(post, draft, edit, editor)])
  }

  function Rewritten(thread: Thread, edit: Edit, editor: Id, approval: bool): Thread {
    var was := thread.post;
    var post := was.(
      published := Overlay(was.published, edit), draft := None, version := was.version + 1,
      moderation := Pending, note := "",
      visibility := if approval || was.visibility != Visible then Held else Visible,
      status := if was.acceptedAnswer.Some? || was.acceptedComment.Some? then Open else was.status,
      acceptedAnswer := None, acceptedComment := None);
    thread.(post := post,
            revisions := thread.revisions + [NextRevision(post, post.published, edit, editor)],
            ledger := if was.acceptedAnswer.Some? then RevokeAll(thread.ledger) else thread.ledger)
  }

  function Edited(thread: Thread, edit: Edit, editor: Id, approval: bool): Thread {
    if !Changes(thread.post, edit) then thread
    else if Drafts(thread.post, edit, approval) then Drafted(thread, edit, editor)
    else Rewritten(thread, edit, editor, approval)
  }

  datatype Course = Course(major: Id, curriculumCourse: Id)
  datatype Binding = Binding(major: Id, curriculumCourse: Option<Id>)

  /** The course an author selects, as the academic service resolves it, and what the room is bound to. */
  datatype Academic = Academic(resolved: bool, selected: Option<Course>, binding: Option<Binding>) {
    predicate Fits() {
      selected.Some? && binding.Some? ==>
        && selected.value.major == binding.value.major
        && binding.value.curriculumCourse.GetOr(selected.value.curriculumCourse) == selected.value.curriculumCourse
    }
  }

  function CreateSpec(db: Rows, id: Id, user: User, body: Body, kind: PostKind, room: Id, academic: Academic,
                      gate: Gate, mediaValid: bool, activeTags: set<Id>): Result<Rows, Error>
  {
    var _ :- Authenticated(user);
    :- Need(mediaValid, BadRequest);
    :- Need(academic.resolved, BadRequest);
    :- Need(gate != Refused, Forbidden);
    :- Need(academic.Fits(), BadRequest);
    :- Need(body.tags <= activeTags, BadRequest);
    :- Need(id !in db.threads, Conflict);
    Success(db.(threads := db.threads[id := Created(body, kind, user.id.value, room, gate)]))
  }

  /** `gate` is only consulted for posts that live in a room. */
  function UpdateSpec(db: Rows, id: Id, user: User, edit: Edit,
                      gate: Gate, mediaValid: bool, activeTags: set<Id>): Result<Rows, Error>
  {
    var _ :- Authenticated(user);
    :- Need(mediaValid, BadRequest);
    var thread :- LockPost(db.threads, id);
    :- Need(CanManage(thread.post.author, user), Forbidden);
    :- Need(thread.post.status != Closed, BadRequest);
    :- Need(thread.post.room.None? || gate != Refused, Forbidden);
    :- Need(edit.expectedVersion.Some? || thread.post.draft.None?, Conflict);
    :- Need(edit.expectedVersion.GetOr(thread.post.version) == thread.post.version, Conflict);
    :- Need(edit.tags.GetOr({}) <= activeTags, BadRequest);
    var approval := thread.post.room.Some? && gate == NeedsApproval;
    Success(db.(threads := db.threads[id := Edited(thread, edit, user.id.value, approval)]))
  }

  function RemoveSpec(db: Rows, id: Id, user: User): Result<Rows, Error> {
    var _ :- Authenticated(user);
    var thread :- LockPost(db.threads, id);
    :- Need(CanManage(thread.post.author, user), Forbidden);
    Success(db.(threads := db.threads[id := thread.(post := thread.post.(deleted := true))]))
  }

  /** Accepting a root comment; accepting the accepted one again does nothing. */
  function AcceptSpec(db: Rows, id: Id, user: User, commentId: Id): Result<Rows, Error> {
    var _ :- Authenticated(user);
    var thread :- LockPost(db.threads, id);
    var post := thread.post;
    :- Need(Shown(post), BadRequest);
    :- Need(post.kind == Question, BadRequest);
    :- Need(user.Is(post.author), Forbidden);
    :- Need(post.status != Closed, BadRequest);
    var comment :- FindComment(db.comments, commentId);
    :- Need(comment.discussion == id && comment.parent.None?, BadRequest);
    :- Need(comment.author != post.author, BadRequest);
    if post.acceptedComment == Some(commentId) then Success(db)
    else Success(db.(threads := db.threads[id := thread.(post := post.(acceptedComment := Some(commentId), status := Solved))]))
  }

  function UnacceptSpec(db: Rows, id: Id, user: User): Result<Rows, Error> {
    var _ :- Authenticated(user);
    var thread :- LockPost(db.threads, id);
    :- Need(thread.post.kind == Question, BadRequest);
    :- Need(user.Is(thread.post.author), Forbidden);
    :- Need(thread.post.status != Closed, BadRequest);
    Success(db.(threads := db.threads[id := thread.(post := thread.post.(acceptedComment := None, status := Open))]))
  }

  function SetStatusSpec(db: Rows, id: Id, user: User, status: PostStatus): Result<Rows, Error> {
    var _ :- Authenticated(user);
    :- Need(status != Solved, BadRequest);
    :- Need(user.Privileged(), Forbidden);
    var thread :- LockPost(db.threads, id);
    var next := if status == Open && thread.post.acceptedComment.Some? then Solved else status;
    Success(db.(threads := db.threads[id := thread.(post := thread.post.(status := next))]))
  }

  class DiscussionsService {
    const db: Database

    constructor (db: Database)
      ensures this.db == db
    {
      this.db := db;
    }

    method Create(id: Id, user: User, body: Body, kind: PostKind, room: Id, academic: Academic,
                  gate: Gate, mediaValid: bool, activeTags: set<Id>)
      returns (r: Result<(), Error>)
      modifies db
      ensures var spec := CreateSpec(old(db.Snapshot()), id, user, body, kind, room, academic, gate, mediaValid, activeTags);
              r == Reply(spec) && db.Snapshot() == Committed(old(db.Snapshot()), spec)
    {
      var _ :- Authenticated(user);
      :- Need(mediaValid, BadRequest);
      :- Need(academic.resolved, BadRequest);
      :- Need(gate != Refused, Forbidden);
      if academic.selected.Some? && academic.binding.Some? {
        var course, binding := academic.selected.value, academic.binding.value;
        if course.major != binding.major {
          return Failure(BadRequest);
        }
        if binding.curriculumCourse.Some? && course.curriculumCourse != binding.curriculumCourse.value {
          return Failure(BadRequest);
        }
      }
      :- Need(body.tags <= activeTags, BadRequest);
      :- Need(id !in db.threads, Conflict);
      var author := user.id.value;
      var visibility := if gate == NeedsApproval then Held else Visible;
      var post := Post(body, None, 1, kind, author, Some(room), Pending, visibility, "", Open, None, None, false);
      var revision := Revision(1, post.published.title, post.published.content, Semantic, author);
      db.threads := db.threads[id := Thread(post, [revision], [], [])];
      return Success(());
    }

    method Update(id: Id, user: User, edit: Edit, gate: Gate, mediaValid: bool, activeTags: set<Id>)
      returns (r: Result<(), Error>)
      modifies db
      ensures var spec := UpdateSpec(old(db.Snapshot()), id, user, edit, gate, mediaValid, activeTags);
              r == Reply(spec) && db.Snapshot() == Committed(old(db.Snapshot()), spec)
    {
      var _ :- Authenticated(user);
      :- Need(mediaValid, BadRequest);
      var thread :- LockPost(db.threads, id);
      var post := thread.post;
      :- Need(CanManage(post.author, user), Forbidden);
      :- Need(post.status != Closed, BadRequest);
      :- Need(post.room.None? || gate != Refused, Forbidden);
      var approval := post.room.Some? && gate == NeedsApproval;
      :- Need(!(post.draft.Some? && edit.expectedVersion.None?), Conflict);
      :- Need(edit.expectedVersion.None? || edit.expectedVersion.value == post.version, Conflict);
      :- Need(edit.tags.None? || edit.tags.value <= activeTags, BadRequest);
      thread := ApplyEdit(thread, edit, user.id.value, approval);
      db.threads := db.threads[id := thread];
      return Success(());
    }

    /** Assigns the fields an edit mentions, one by one. */
    method AssignFields(body: Body, edit: Edit) returns (r: Body)
      ensures r == Overlay(body, edit)
    {
      r := body;
      if edit.tags.Some? { r := r.(tags := edit.tags.value); }
      if edit.title.Some? { r := r.(title := edit.title.value); }
      if edit.content.Some? { r := r.(content := edit.content.value); }
      if edit.anonymous.Some? { r := r.(anonymous := edit.anonymous.value); }
      if edit.media.Some? { r := r.(media := edit.media.value); }
    }

    method ApplyEdit(thread: Thread, edit: Edit, editor: Id, approval: bool) returns (r: Thread)
      ensures r == Edited(thread, edit, editor, approval)
    {
      var post := thread.post;
      var changed := Changes(post, edit);
      if changed && (approval || post.draft.Some?) && post.visibility == Visible {
        var draft := AssignFields(if post.draft.Some? then post.draft.value else post.published, edit);
        post := post.(draft := Some(draft));
        post := post.(version := post.version + 1);
        post := post.(moderation := Pending, note := "");
        return thread.(post := post, revisions := thread.revisions + [NextRevision(post, draft, edit, editor)]);
      }
      var published := AssignFields(post.published, edit);
      post := post.(published := published);
      if !changed {
        return thread.(post := post);
      }
      var ledger := thread.ledger;
      post := post.(version := post.version + 1);
      post := post.(moderation := Pending);
      post := post.(visibility := if approval || post.visibility != Visible then Held else Visible);
      post := post.(draft := None, note := "");
      var revision := NextRevision(post, post.published, edit, editor);
      if post.acceptedAnswer.Some? {
        ledger := RevokeAll(ledger);
        post := post.(acceptedAnswer := None, status := Open);
      }
      if post.acceptedComment.Some? {
        post := post.(acceptedComment := None, status := Open);
      }
      return thread.(post := post, revisions := thread.revisions + [revision], ledger := ledger);
    }

    method Remove(id: Id, user: User) returns (r: Result<(), Error>)
      modifies db
      ensures var spec := RemoveSpec(old(db.Snapshot()), id, user);
              r == Reply(spec) && db.Snapshot() == Committed(old(db.Snapshot()), spec)
    {
      var _ :- Authenticated(user);
      var thread :- LockPost(db.threads, id);
      :- Need(CanManage(thread.post.author, user), Forbidden);
      var post := thread.post.(deleted := true);
      db.threads := db.threads[id := thread.(post := post)];
      return Success(());
    }

    method AcceptAnswer(id: Id, user: User, commentId: Id) returns (r: Result<(), Error>)
      modifies db
      ensures var spec := AcceptSpec(old(db.Snapshot()), id, user, commentId);
              r == Reply(spec) && db.Snapshot() == Committed(old(db.Snapshot()), spec)
    {
      var _ :- Authenticated(user);
      var thread :- LockPost(db.threads, id);
      var post := thread.post;
      :- Need(Shown(post), BadRequest);
      :- Need(post.kind == Question, BadRequest);
      :- Need(user.Is(post.author), Forbidden);
      :- Need(post.status != Closed, BadRequest);
      var comment :- FindComment(db.comments, commentId);
      :- Need(comment.discussion == id && comment.parent.None?, BadRequest);
      :- Need(comment.author != post.author, BadRequest);
      if post.acceptedComment == Some(commentId) {
        return Success(());
      }
      post := post.(acceptedComment := Some(commentId));
      post := post.(status := Solved);
      db.threads := db.threads[id := thread.(post := post)];
      return Success(());
    }

    method RemoveAcceptedAnswer(id: Id, user: User) returns (r: Result<(), Error>)
      modifies db
      ensures var spec := UnacceptSpec(old(db.Snapshot()), id, user);
              r == Reply(spec) && db.Snapshot() == Committed(old(db.Snapshot()), spec)
    {
      var _ :- Authenticated(user);
      var thread :- LockPost(db.threads, id);
      var post := thread.post;
      :- Need(post.kind == Question, BadRequest);
      :- Need(user.Is(post.author), Forbidden);
      :- Need(post.status != Closed, BadRequest);
      post := post.(acceptedComment := None);
      post := post.(status := Open);
      db.threads := db.threads[id := thread.(post := post)];
      return Success(());
    }

    method SetStatus(id: Id, user: User, status: PostStatus) returns (r: Result<(), Error>)
      modifies db
      ensures var spec := SetStatusSpec(old(db.Snapshot()), id, user, status);
              r == Reply(spec) && db.Snapshot() == Committed(old(db.Snapshot()), spec)
    {
      var _ :- Authenticated(user);
      :- Need(status == Open || status == Closed, BadRequest);
      :- Need(user.Privileged(), Forbidden);
      var thread :- LockPost(db.threads, id);
      var post := thread.post;
      post := post.(status := if status == Open && post.acceptedComment.Some? then Solved else status);
      db.threads := db.threads[id := thread.(post := post)];
      return Success(());
    }
  }
}
