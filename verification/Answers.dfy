/** Answers to questions, and the ledger of which answer was accepted when. */
module Answers {
  import opened Wrappers
  import opened Content

  /** Question authors and admins accept; global moderators do not. */
  predicate CanAccept(post: Post, user: User) {
    user.id.Some? && (user.Is(post.author) || user.role == Admin)
  }

  /** Revoking does nothing unless an answer is accepted. */
  function Revoked(thread: Thread): Thread {
    if thread.post.acceptedAnswer.None? then thread
    else thread.(post := thread.post.(acceptedAnswer := None, status := Open), ledger := RevokeAll(thread.ledger))
  }

  /** The question after answer `a` changed; `revoke` when such a change ends its acceptance. */
  function Relieved(thread: Thread, a: Id, revoke: bool): Thread {
    if revoke && thread.post.acceptedAnswer == Some(a) then Revoked(thread) else thread
  }

  function Accepted(thread: Thread, answerId: Id, answer: Answer, actor: Id): Thread {
    var cleared := Revoked(thread);
    cleared.(
      post := cleared.post.(acceptedAnswer := Some(answerId), acceptedComment := None, status := Solved),
      ledger := cleared.ledger + [Acceptance(answerId, thread.post.version, answer.version, actor, false)])
  }

  function CreateSpec(db: Rows, id: Id, discussion: Id, user: User, content: string, gate: Gate): Result<Rows, Error> {
    var _ :- Authenticated(user);
    var thread :- LockPost(db.threads, discussion);
    :- Need(thread.post.status != Closed, BadRequest);
    :- Need(Shown(thread.post), BadRequest);
    :- Need(thread.post.kind == Question, BadRequest);
    :- Need(thread.post.room.None? || gate != Refused, Forbidden);
    :- Need(id !in db.answers, Conflict);
    var author := user.id.value;
    Success(db.(answers := db.answers[id := Answer(discussion, author, content, 1, [AnswerRevision(1, content, Semantic, author)], false)]))
  }

  function Reworded(answer: Answer, content: string, kind: RevisionKind, editor: Id): Answer {
    answer.(content := content, version := answer.version + 1,
            revisions := answer.revisions + [AnswerRevision(answer.version + 1, content, kind, editor)])
  }

  function UpdateSpec(db: Rows, id: Id, user: User, content: string, expectedVersion: nat, kind: RevisionKind): Result<Rows, Error> {
    var _ :- Authenticated(user);
    var answer :- FindAnswer(db.answers, id);
    var thread :- LockPost(db.threads, answer.discussion);
    :- Need(CanManage(answer.author, user), Forbidden);
    :- Need(thread.post.status != Closed, BadRequest);
    :- Need(answer.version == expectedVersion, Conflict);
    if answer.content == content then Success(db)
    else
      Success(db.(answers := db.answers[id := Reworded(answer, content, kind, user.id.value)],
                  threads := db.threads[answer.discussion := Relieved(thread, id, kind == Semantic)]))
  }

  function RemoveSpec(db: Rows, id: Id, user: User): Result<Rows, Error> {
    var _ :- Authenticated(user);
    var answer :- FindAnswer(db.answers, id);
    var thread :- LockPost(db.threads, answer.discussion);
    :- Need(CanManage(answer.author, user), Forbidden);
    :- Need(thread.post.status != Closed, BadRequest);
    Success(db.(answers := db.answers[id := answer.(deleted := true)],
                threads := db.threads[answer.discussion := Relieved(thread, id, true)]))
  }

  function AcceptSpec(db: Rows, discussion: Id, user: User, answerId: Id, expectedQuestion: nat, expectedAnswer: nat): Result<Rows, Error> {
    var _ :- Authenticated(user);
    var thread :- LockPost(db.threads, discussion);
    var post := thread.post;
    :- Need(post.status != Closed, BadRequest);
    :- Need(post.kind == Question, BadRequest);
    :- Need(CanAccept(post, user), Forbidden);
    :- Need(Shown(post), BadRequest);
    :- Need(answerId in db.answers && !db.answers[answerId].deleted, BadRequest);
    var answer := db.answers[answerId];
    :- Need(answer.discussion == discussion, BadRequest);
    :- Need(!user.Is(answer.author), BadRequest);
    :- Need(post.version == expectedQuestion && answer.version == expectedAnswer, Conflict);
    Success(db.(threads := db.threads[discussion := Accepted(thread, answerId, answer, user.id.value)]))
  }

  /** Unlike every other operation on acceptances, this one works on closed questions too. */
  function RevokeSpec(db: Rows, discussion: Id, user: User): Result<Rows, Error> {
    var _ :- Authenticated(user);
    var thread :- LockPost(db.threads, discussion);
    :- Need(CanAccept(thread.post, user), Forbidden);
    Success(db.(threads := db.threads[discussion := Revoked(thread)]))
  }

  class AnswersService {
    const db: Database

    constructor (db: Database)
      ensures this.db == db
    {
      this.db := db;
    }

    method Create(id: Id, discussion: Id, user: User, content: string, gate: Gate) returns (r: Result<(), Error>)
      modifies db
      ensures var spec := CreateSpec(old(db.Snapshot()), id, discussion, user, content, gate);
              r == Reply(spec) && db.Snapshot() == Committed(old(db.Snapshot()), spec)
    {
      var _ :- Authenticated(user);
      var thread :- LockPost(db.threads, discussion);
      var question := thread.post;
      :- Need(question.status != Closed, BadRequest);
      :- Need(Shown(question), BadRequest);
      :- Need(question.kind == Question, BadRequest);
      :- Need(question.room.None? || gate != Refused, Forbidden);
      :- Need(id !in db.answers, Conflict);
      var answer := Answer(discussion, user.id.value, content, 1, [], false);
      answer := answer.(revisions := [AnswerRevision(1, answer.content, Semantic, user.id.value)]);
      db.answers := db.answers[id := answer];
      return Success(());
    }

    method Update(id: Id, user: User, content: string, expectedVersion: nat, kind: RevisionKind) returns (r: Result<(), Error>)
      modifies db
      ensures var spec := UpdateSpec(old(db.Snapshot()), id, user, content, expectedVersion, kind);
              r == Reply(spec) && db.Snapshot() == Committed(old(db.Snapshot()), spec)
    {
      var _ :- Authenticated(user);
      var answer :- FindAnswer(db.answers, id);
      var thread :- LockPost(db.threads, answer.discussion);
      :- Need(CanManage(answer.author, user), Forbidden);
      :- Need(thread.post.status != Closed, BadRequest);
      :- Need(answer.version == expectedVersion, Conflict);
      if answer.content == content {
        return Success(());
      }
      answer := answer.(content := content);
      answer := answer.(version := answer.version + 1);
      var revision := AnswerRevision(answer.version, answer.content, kind, user.id.value);
      answer := answer.(revisions := answer.revisions + [revision]);
      db.answers := db.answers[id := answer];
      if kind == Semantic && thread.post.acceptedAnswer == Some(id) {
        RevokeAcceptance(answer.discussion, thread);
      }
      return Success(());
    }

    method Remove(id: Id, user: User) returns (r: Result<(), Error>)
      modifies db
      ensures var spec := RemoveSpec(old(db.Snapshot()), id, user);
              r == Reply(spec) && db.Snapshot() == Committed(old(db.Snapshot()), spec)
    {
      var _ :- Authenticated(user);
      var answer :- FindAnswer(db.answers, id);
      var thread :- LockPost(db.threads, answer.discussion);
      :- Need(CanManage(answer.author, user), Forbidden);
      :- Need(thread.post.status != Closed, BadRequest);
      if thread.post.acceptedAnswer == Some(id) {
        RevokeAcceptance(answer.discussion, thread);
      }
      db.answers := db.answers[id := answer.(deleted := true)];
      return Success(());
    }

    method Accept(discussion: Id, user: User, answerId: Id, expectedQuestion: nat, expectedAnswer: nat) returns (r: Result<(), Error>)
      modifies db
      ensures var spec := AcceptSpec(old(db.Snapshot()), discussion, user, answerId, expectedQuestion, expectedAnswer);
              r == Reply(spec) && db.Snapshot() == Committed(old(db.Snapshot()), spec)
    {
      var _ :- Authenticated(user);
      var thread :- LockPost(db.threads, discussion);
      var question := thread.post;
      :- Need(question.status != Closed, BadRequest);
      :- Need(question.kind == Question, BadRequest);
      :- Need(CanAccept(question, user), Forbidden);
      :- Need(Shown(question), BadRequest);
      :- Need(answerId in db.answers && !db.answers[answerId].deleted, BadRequest);
      var answer := db.answers[answerId];
      :- Need(answer.discussion == discussion, BadRequest);
      :- Need(!user.Is(answer.author), BadRequest);
      :- Need(question.version == expectedQuestion && answer.version == expectedAnswer, Conflict);
      RevokeAcceptance(discussion, thread);
      thread := db.threads[discussion];
      var row := Acceptance(answerId, question.version, answer.version, user.id.value, false);
      question := thread.post;
      question := question.(acceptedAnswer := Some(answerId));
      question := question.(acceptedComment := None);
      question := question.(status := Solved);
      db.threads := db.threads[discussion := thread.(post := question, ledger := thread.ledger + [row])];
      return Success(());
    }

    method RemoveAcceptance(discussion: Id, user: User) returns (r: Result<(), Error>)
      modifies db
      ensures var spec := RevokeSpec(old(db.Snapshot()), discussion, user);
              r == Reply(spec) && db.Snapshot() == Committed(old(db.Snapshot()), spec)
    {
      var _ :- Authenticated(user);
      var thread :- LockPost(db.threads, discussion);
      :- Need(CanAccept(thread.post, user), Forbidden);
      RevokeAcceptance(discussion, thread);
      return Success(());
    }

    method RevokeAcceptance(discussion: Id, thread: Thread)
      requires discussion in db.threads && db.threads[discussion] == thread
      modifies db`threads
      ensures db.threads == old(db.threads)[discussion := Revoked(thread)]
    {
      var question := thread.post;
      if question.acceptedAnswer.None? {
        return;
      }
      var ledger := RevokeAll(thread.ledger);
      question := question.(acceptedAnswer := None);
      question := question.(status := Open);
      db.threads := db.threads[discussion := thread.(post := question, ledger := ledger)];
    }
  }
}
