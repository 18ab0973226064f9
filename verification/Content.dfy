/** The rows of the discussion service and the checks every operation on them shares. */
module Content {
  import opened Wrappers

  /** A uuid: the services only ever compare identifiers for equality. */
  type Id = nat

  /** An HTTP exception; it rolls the enclosing transaction back. */
  datatype Error = Unauthorized | Forbidden | NotFound | BadRequest | Conflict

  /** `Member` stands for every role without global rights, and for no role. */
  datatype Role = Member | Moderator | Admin
  datatype User = User(id: Option<Id>, role: Role) {
    predicate Is(author: Id) {
      id == Some(author)
    }

    predicate Privileged() {
      role != Member
    }
  }

  datatype PostKind = Question | Discussion
  datatype PostStatus = Open | Solved | Closed
  datatype Moderation = Pending | Approved | Rejected
  datatype Visibility = Visible | Held | Hidden
  datatype RevisionKind = Semantic | Editorial
  datatype Decision = Allow | Hide | Hold

  /** Everything an author writes in a post; also the shape of a pending draft. */
  datatype Body = Body(title: string, content: string, anonymous: bool, tags: set<Id>, media: seq<Id>) {
    predicate SameText(other: Body) {
      title == other.title && content == other.content
    }
  }

  datatype Post = Post(
    published: Body, draft: Option<Body>, version: nat,
    kind: PostKind, author: Id, room: Option<Id>,
    moderation: Moderation, visibility: Visibility, note: string,
    status: PostStatus, acceptedAnswer: Option<Id>, acceptedComment: Option<Id>,
    deleted: bool)
  {
    /** The text a moderator reads, and the text the newest revision records. */
    function Latest(): Body {
      draft.GetOr(published)
    }
  }

  datatype Revision = Revision(version: nat, title: string, content: string, kind: RevisionKind, editor: Id) {
    predicate Records(body: Body) {
      title == body.title && content == body.content
    }
  }
  datatype Acceptance = Acceptance(answer: Id, questionVersion: nat, answerVersion: nat, acceptedBy: Id, revoked: bool)
  datatype Review = Review(version: nat, decision: Decision, note: string, reviewer: Id)

  /** A post together with the rows of the three append-only tables keyed by its id. */
  datatype Thread = Thread(post: Post, revisions: seq<Revision>, ledger: seq<Acceptance>, reviews: seq<Review>)

  datatype AnswerRevision = AnswerRevision(version: nat, content: string, kind: RevisionKind, editor: Id)
  datatype Answer = Answer(discussion: Id, author: Id, content: string, version: nat, revisions: seq<AnswerRevision>, deleted: bool)
  datatype Comment = Comment(discussion: Id, author: Id, content: string, parent: Option<Id>, deleted: bool)

  datatype Rows = Rows(threads: map<Id, Thread>, answers: map<Id, Answer>, comments: map<Id, Comment>)

  /** The database connection every service shares. */
  class Database {
    var threads: map<Id, Thread>
    var answers: map<Id, Answer>
    var comments: map<Id, Comment>

    constructor ()
      ensures Snapshot() == Rows(map[], map[], map[])
    {
      threads, answers, comments := map[], map[], map[];
    }

    function Snapshot(): Rows
      reads this
    {
      Rows(threads, answers, comments)
    }
  }

  /** What a transaction leaves behind: its new rows, or the old ones when it throws. */
  function Committed(before: Rows, outcome: Result<Rows, Error>): Rows {
    if outcome.Success? then outcome.value else before
  }

  function Reply(outcome: Result<Rows, Error>): Result<(), Error> {
    if outcome.Success? then Success(()) else Failure(outcome.error)
  }

  /** What the room service answers when asked whether a user may post. */
  datatype Gate = Refused | Direct | NeedsApproval

  predicate Shown(post: Post) {
    post.moderation != Rejected && post.visibility == Visible
  }

  function Authenticated(user: User): Result<Id, Error> {
    if user.id.Some? then Success(user.id.value) else Failure(Unauthorized)
  }

  predicate CanManage(author: Id, user: User) {
    user.id.Some? && (user.Is(author) || user.Privileged())
  }

  /** Reading a post under its row lock; soft-deleted rows are not found. */
  function LockPost(threads: map<Id, Thread>, id: Id): Result<Thread, Error> {
    if id in threads && !threads[id].post.deleted then Success(threads[id]) else Failure(NotFound)
  }

  function FindAnswer(answers: map<Id, Answer>, id: Id): Result<Answer, Error> {
    if id in answers && !answers[id].deleted then Success(answers[id]) else Failure(NotFound)
  }

  function FindComment(comments: map<Id, Comment>, id: Id): Result<Comment, Error> {
    if id in comments && !comments[id].deleted then Success(comments[id]) else Failure(NotFound)
  }

  /** UPDATE answer_acceptances SET revoked_at = ... WHERE revoked_at IS NULL, for one discussion. */
  function RevokeAll(ledger: seq<Acceptance>): (r: seq<Acceptance>)
    ensures |r| == |ledger|
    ensures forall i | 0 <= i < |r| :: r[i] == ledger[i].(revoked := true)
  {
    seq(|ledger|, i requires 0 <= i < |ledger| => ledger[i].(revoked := true))
  }
}
