/** Runs of the fifteen operations that write a post, its answers or its comments, and what every run keeps. */
module Lifecycle {
  import opened Wrappers
  import opened Content
  import Discussions
  import ModerationReviews
  import Answers
  import Comments

  /** One request. Identifiers of new rows and the answers of other services are part of it. */
  datatype Command =
    | CreatePost(id: Id, user: User, body: Body, kind: PostKind, room: Id, academic: Discussions.Academic,
                 gate: Gate, mediaValid: bool, activeTags: set<Id>)
    | UpdatePost(id: Id, user: User, edit: Discussions.Edit, gate: Gate, mediaValid: bool, activeTags: set<Id>)
    | RemovePost(id: Id, user: User)
    | AcceptComment(id: Id, user: User, comment: Id)
    | UnacceptComment(id: Id, user: User)
    | SetStatus(id: Id, user: User, status: PostStatus)
    | ReviewPost(id: Id, user: User, verdict: ModerationReviews.Verdict, managedRooms: set<Id>, mediaValid: bool, activeTags: set<Id>)
    | CreateAnswer(id: Id, discussion: Id, user: User, content: string, gate: Gate)
    | UpdateAnswer(id: Id, user: User, content: string, expectedVersion: nat, revisionKind: RevisionKind)
    | RemoveAnswer(id: Id, user: User)
    | AcceptAnswer(id: Id, user: User, answer: Id, expectedQuestion: nat, expectedAnswer: nat)
    | RevokeAnswer(id: Id, user: User)
    | CreateComment(id: Id, discussion: Id, user: User, content: string, parent: Option<Id>, gate: Gate)
    | UpdateComment(id: Id, user: User, newContent: Option<string>)
    | RemoveComment(id: Id, user: User)

  function Execute(db: Rows, c: Command): Result<Rows, Error> {
    match c
    case CreatePost(id, user, body, kind, room, academic, gate, media, tags) =>
      Discussions.CreateSpec(db, id, user, body, kind, room, academic, gate, media, tags)
    case UpdatePost(id, user, edit, gate, media, tags) => Discussions.UpdateSpec(db, id, user, edit, gate, media, tags)
    case RemovePost(id, user) => Discussions.RemoveSpec(db, id, user)
    case AcceptComment(id, user, comment) => Discussions.AcceptSpec(db, id, user, comment)
    case UnacceptComment(id, user) => Discussions.UnacceptSpec(db, id, user)
    case SetStatus(id, user, status) => Discussions.SetStatusSpec(db, id, user, status)
    case ReviewPost(id, user, verdict, rooms, media, tags) => ModerationReviews.ReviewSpec(db, id, user, verdict, rooms, media, tags)
    case CreateAnswer(id, discussion, user, content, gate) => Answers.CreateSpec(db, id, discussion, user, content, gate)
    case UpdateAnswer(id, user, content, version, kind) => Answers.UpdateSpec(db, id, user, content, version, kind)
    case RemoveAnswer(id, user) => Answers.RemoveSpec(db, id, user)
    case AcceptAnswer(id, user, answer, q, a) => Answers.AcceptSpec(db, id, user, answer, q, a)
    case RevokeAnswer(id, user) => Answers.RevokeSpec(db, id, user)
    case CreateComment(id, discussion, user, content, parent, gate) => Comments.CreateSpec(db, id, discussion, user, content, parent, gate)
    case UpdateComment(id, user, content) => Comments.UpdateSpec(db, id, user, content)
    case RemoveComment(id, user) => Comments.RemoveSpec(db, id, user)
  }

  function Step(db: Rows, c: Command): Rows {
    Committed(db, Execute(db, c))
  }

  const EMPTY := Rows(map[], map[], map[])

  function Run(db: Rows, commands: seq<Command>): Rows
    decreases |commands|
  {
    if commands == [] then db else Run(Step(db, commands[0]), commands[1..])
  }

  // ---------- The joint invariant ----------

  /** Revision k records version k, and the newest one records the draft, or else the published text. */
  predicate NumberedRevisions(t: Thread) {
    && |t.revisions| == t.post.version >= 1
    && (forall k | 0 <= k < |t.revisions| :: t.revisions[k].version == k + 1)
    && t.revisions[t.post.version - 1].Records(t.post.Latest())
  }

  predicate CoherentModeration(p: Post) {
    && (p.moderation == Rejected <==> p.visibility == Hidden)
    && (p.visibility == Held ==> p.moderation == Pending && p.draft.None?)
    && (p.moderation == Pending && p.draft.Some? ==> p.visibility == Visible)
  }

  /** Only the newest ledger row can be active, and it is exactly when an answer is accepted. */
  predicate LedgerAgrees(t: Thread) {
    && (forall i | 0 <= i < |t.ledger| - 1 :: t.ledger[i].revoked)
    && (t.post.acceptedAnswer.None? ==> |t.ledger| > 0 ==> t.ledger[|t.ledger| - 1].revoked)
    && (t.post.acceptedAnswer.Some? ==>
          && |t.ledger| > 0
          && !t.ledger[|t.ledger| - 1].revoked
          && t.ledger[|t.ledger| - 1].answer == t.post.acceptedAnswer.value)
  }

  /** Everything written after `row` accepted an answer was an editorial change. */
  predicate OnlyEditorialSince(answer: Answer, row: Acceptance) {
    forall r | r in answer.revisions && r.version > row.answerVersion :: r.kind == Editorial
  }

  predicate AcceptedAnswerFits(id: Id, t: Thread, answers: map<Id, Answer>) {
    t.post.acceptedAnswer.Some? ==>
      var a := t.post.acceptedAnswer.value;
      && a in answers && !answers[a].deleted && answers[a].discussion == id
      && t.post.kind == Question && Shown(t.post)
      && |t.ledger| > 0
      && t.ledger[|t.ledger| - 1].questionVersion <= t.post.version
      && OnlyEditorialSince(answers[a], t.ledger[|t.ledger| - 1])
  }

  predicate AcceptedCommentFits(id: Id, t: Thread, comments: map<Id, Comment>) {
    t.post.acceptedComment.Some? ==>
      var c := t.post.acceptedComment.value;
      && c in comments && !comments[c].deleted && comments[c].discussion == id
      && comments[c].parent.None? && comments[c].author != t.post.author
      && t.post.kind == Question && Shown(t.post)
  }

  predicate ThreadOk(id: Id, t: Thread, answers: map<Id, Answer>, comments: map<Id, Comment>) {
    && NumberedRevisions(t)
    && CoherentModeration(t.post)
    && LedgerAgrees(t)
    && AcceptedAnswerFits(id, t, answers)
    && AcceptedCommentFits(id, t, comments)
    && (t.post.status == Solved ==> t.post.acceptedAnswer.Some? || t.post.acceptedComment.Some?)
  }

  predicate AnswerOk(a: Answer) {
    && |a.revisions| == a.version >= 1
    && (forall k | 0 <= k < |a.revisions| :: a.revisions[k].version == k + 1)
    && a.revisions[a.version - 1].content == a.content
  }

  predicate Inv(db: Rows) {
    && (forall id | id in db.threads :: ThreadOk(id, db.threads[id], db.answers, db.comments))
    && (forall a | a in db.answers :: AnswerOk(db.answers[a]))
  }

  // ---------- What one step may do to a post ----------

  predicate LedgerGrows(before: seq<Acceptance>, after: seq<Acceptance>) {
    && |before| <= |after|
    && (forall i | 0 <= i < |before| :: after[i] == before[i] || after[i] == before[i].(revoked := true))
  }

  /** The logs only grow, and a version that has been judged does not become pending again. */
  predicate Grows(t: Thread, u: Thread) {
    && t.post.version <= u.post.version
    && t.revisions <= u.revisions
    && t.reviews <= u.reviews
    && LedgerGrows(t.ledger, u.ledger)
    && (t.post.deleted ==> u == t)
    && u.post.room == t.post.room && u.post.author == t.post.author && u.post.kind == t.post.kind
    && (t.post.version == u.post.version && t.post.moderation != Pending ==> u.post.moderation != Pending)
  }

  predicate HasAcceptance(p: Post) {
    p.acceptedAnswer.Some? || p.acceptedComment.Some?
  }

  predicate KeepsAcceptedText(t: Thread, u: Thread) {
    HasAcceptance(u.post) ==> u.post.published.SameText(t.post.published)
  }

  /** Review `j` allowed a revision that reads exactly like the published text. */
  predicate Allows(t: Thread, j: nat) {
    && j < |t.reviews|
    && t.reviews[j].decision == Allow
    && 1 <= t.reviews[j].version <= |t.revisions|
    && t.revisions[t.reviews[j].version - 1].Records(t.post.published)
  }

  /** A published text that is visible, or only covered by a draft, has been allowed. */
  ghost predicate TextWasAllowed(t: Thread) {
    t.post.visibility == Visible || t.post.draft.Some? ==> exists j: nat :: Allows(t, j)
  }

  /** `unreviewed` marks the edits made where posting needs no approval. */
  ghost predicate Follows(t: Thread, u: Thread, unreviewed: bool) {
    && Grows(t, u)
    && KeepsAcceptedText(t, u)
    && (TextWasAllowed(t) && !unreviewed ==> TextWasAllowed(u))
  }

  lemma SamePublication(t: Thread, u: Thread)
    requires u.revisions == t.revisions && u.reviews == t.reviews
    requires u.post == t.post.(acceptedAnswer := u.post.acceptedAnswer, acceptedComment := u.post.acceptedComment, status := u.post.status)
          || u.post == t.post.(deleted := true)
    requires t.post.deleted ==> u == t
    requires LedgerGrows(t.ledger, u.ledger)
    ensures Follows(t, u, false)
  {
    if TextWasAllowed(t) && (t.post.visibility == Visible || t.post.draft.Some?) {
      var j: nat :| Allows(t, j);
      assert Allows(u, j);
    }
  }

  lemma EditFollows(t: Thread, edit: Discussions.Edit, editor: Id, approval: bool)
    requires NumberedRevisions(t) && CoherentModeration(t.post) && !t.post.deleted
    ensures Follows(t, Discussions.Edited(t, edit, editor, approval), !approval)
  {
    var u := Discussions.Edited(t, edit, editor, approval);
    if TextWasAllowed(t) && approval && u != t && (u.post.visibility == Visible || u.post.draft.Some?) {
      var j: nat :| Allows(t, j);
      assert Allows(u, j);
    }
  }

  lemma ReviewFollows(t: Thread, verdict: ModerationReviews.Verdict, reviewer: Id)
    requires NumberedRevisions(t) && CoherentModeration(t.post) && !t.post.deleted
    ensures Follows(t, ModerationReviews.Reviewed(t, verdict, reviewer), false)
  {
    var u := ModerationReviews.Reviewed(t, verdict, reviewer);
    if TextWasAllowed(t) && (u.post.visibility == Visible || u.post.draft.Some?) {
      if verdict.decision == Allow && (t.post.moderation == Pending || t.post.draft.None?) {
        assert Allows(u, |t.reviews|);
      } else {
        var j: nat :| Allows(t, j);
        assert Allows(u, j);
      }
    }
  }

  lemma EditKeepsThread(id: Id, t: Thread, edit: Discussions.Edit, editor: Id, approval: bool, answers: map<Id, Answer>, comments: map<Id, Comment>)
    requires ThreadOk(id, t, answers, comments)
    ensures ThreadOk(id, Discussions.Edited(t, edit, editor, approval), answers, comments)
  {
  }

  lemma ReviewKeepsThread(id: Id, t: Thread, verdict: ModerationReviews.Verdict, reviewer: Id, answers: map<Id, Answer>, comments: map<Id, Comment>)
    requires ThreadOk(id, t, answers, comments)
    ensures ThreadOk(id, ModerationReviews.Reviewed(t, verdict, reviewer), answers, comments)
  {
  }

  lemma RevokeKeepsThread(id: Id, t: Thread, answers: map<Id, Answer>, comments: map<Id, Comment>)
    requires ThreadOk(id, t, answers, comments)
    ensures ThreadOk(id, Answers.Revoked(t), answers, comments)
  {
  }

  lemma AcceptKeepsThread(id: Id, t: Thread, a: Id, actor: Id, answers: map<Id, Answer>, comments: map<Id, Comment>)
    requires ThreadOk(id, t, answers, comments)
    requires a in answers && !answers[a].deleted && answers[a].discussion == id && AnswerOk(answers[a])
    requires t.post.kind == Question && Shown(t.post)
    ensures ThreadOk(id, Answers.Accepted(t, a, answers[a], actor), answers, comments)
  {
  }

  // ---------- Every step keeps the invariant and follows from the state before it ----------

  predicate KeepsAcceptedComments(db: Rows, after: Rows) {
    forall id | id in db.threads && id in after.threads ::
      var c := after.threads[id].post.acceptedComment;
      c.Some? && c == db.threads[id].post.acceptedComment && c.value in db.comments && c.value in after.comments ==>
        after.comments[c.value].content == db.comments[c.value].content
  }

  /** `exempt` is the post, if any, this step may publish without approval. */
  ghost predicate ThreadsFollow(before: map<Id, Thread>, after: map<Id, Thread>, exempt: Option<Id>) {
    && (forall id | id in before ::
          && id in after
          && (after[id] == before[id] || Follows(before[id], after[id], exempt == Some(id))))
    && (forall id | id in after && id !in before ::
          after[id].post.room.Some? && (exempt == Some(id) || TextWasAllowed(after[id])))
  }

  ghost predicate GoodStep(db: Rows, after: Rows, exempt: Option<Id>) {
    && Inv(after)
    && KeepsAcceptedComments(db, after)
    && ThreadsFollow(db.threads, after.threads, exempt)
  }

  lemma NothingHappens(db: Rows, exempt: Option<Id>)
    requires Inv(db)
    ensures GoodStep(db, db, exempt)
  {
  }

  lemma OneThreadFollows(threads: map<Id, Thread>, id: Id, t: Thread, exempt: Option<Id>)
    requires id in threads && Follows(threads[id], t, exempt == Some(id))
    ensures ThreadsFollow(threads, threads[id := t], exempt)
  {
  }

  lemma WriteThread(db: Rows, id: Id, t: Thread, exempt: Option<Id>)
    requires Inv(db) && id in db.threads && ThreadOk(id, t, db.answers, db.comments)
    requires Follows(db.threads[id], t, exempt == Some(id))
    ensures GoodStep(db, db.(threads := db.threads[id := t]), exempt)
  {
    OneThreadFollows(db.threads, id, t, exempt);
  }

  lemma OtherAnswer(id: Id, t: Thread, answers: map<Id, Answer>, comments: map<Id, Comment>, a: Id, answer: Answer)
    requires ThreadOk(id, t, answers, comments)
    requires a in answers ==> answers[a].discussion != id
    ensures ThreadOk(id, t, answers[a := answer], comments)
  {
  }

  lemma OtherComment(id: Id, t: Thread, answers: map<Id, Answer>, comments: map<Id, Comment>, c: Id, comment: Comment)
    requires ThreadOk(id, t, answers, comments)
    requires c in comments ==> comments[c].discussion != id
    ensures ThreadOk(id, t, answers, comments[c := comment])
  {
  }

  lemma WriteAnswer(db: Rows, a: Id, answer: Answer, t: Thread)
    requires Inv(db) && AnswerOk(answer) && answer.discussion in db.threads
    requires a in db.answers ==> db.answers[a].discussion == answer.discussion
    requires ThreadOk(answer.discussion, t, db.answers[a := answer], db.comments)
    requires Follows(db.threads[answer.discussion], t, false)
    ensures GoodStep(db, db.(answers := db.answers[a := answer], threads := db.threads[answer.discussion := t]), None)
  {
    var after := db.(answers := db.answers[a := answer], threads := db.threads[answer.discussion := t]);
    assert Inv(after) by {
      forall id | id in after.threads
        ensures ThreadOk(id, after.threads[id], after.answers, after.comments)
      {
        if id != answer.discussion {
          OtherAnswer(id, db.threads[id], db.answers, db.comments, a, answer);
        }
      }
    }
    OneThreadFollows(db.threads, answer.discussion, t, None);
  }

  lemma CommentsKept(db: Rows, c: Id, comment: Comment, t: Thread)
    requires forall id | id in db.threads :: AcceptedCommentFits(id, db.threads[id], db.comments)
    requires comment.discussion in db.threads
    requires c in db.comments ==> db.comments[c].discussion == comment.discussion
    requires c in db.comments && t.post.acceptedComment == Some(c) ==> comment.content == db.comments[c].content
    ensures KeepsAcceptedComments(db, db.(comments := db.comments[c := comment], threads := db.threads[comment.discussion := t]))
  {
  }

  lemma WriteComment(db: Rows, c: Id, comment: Comment, t: Thread)
    requires Inv(db) && comment.discussion in db.threads
    requires c in db.comments ==> db.comments[c].discussion == comment.discussion
    requires c in db.comments && t.post.acceptedComment == Some(c) ==> comment.content == db.comments[c].content
    requires ThreadOk(comment.discussion, t, db.answers, db.comments[c := comment])
    requires Follows(db.threads[comment.discussion], t, false)
    ensures GoodStep(db, db.(comments := db.comments[c := comment], threads := db.threads[comment.discussion := t]), None)
  {
    var after := db.(comments := db.comments[c := comment], threads := db.threads[comment.discussion := t]);
    assert Inv(after) by {
      forall id | id in after.threads
        ensures ThreadOk(id, after.threads[id], after.answers, after.comments)
      {
        if id != comment.discussion {
          OtherComment(id, db.threads[id], db.answers, db.comments, c, comment);
        }
      }
    }
    CommentsKept(db, c, comment, t);
    OneThreadFollows(db.threads, comment.discussion, t, None);
  }

  /** Operations on the post row alone that touch neither its text nor its logs. */
  lemma SmallPostStep(db: Rows, after: Rows, id: Id)
    requires Inv(db) && id in db.threads && !db.threads[id].post.deleted
    requires id in after.threads && after == db.(threads := db.threads[id := after.threads[id]])
    requires var t, u := db.threads[id], after.threads[id];
             u == t.(post := t.post.(acceptedComment := u.post.acceptedComment, status := u.post.status))
             || u == t.(post := t.post.(deleted := true))
    requires ThreadOk(id, after.threads[id], db.answers, db.comments)
    ensures GoodStep(db, after, None)
  {
    SamePublication(db.threads[id], after.threads[id]);
    WriteThread(db, id, after.threads[id], None);
  }

  lemma RemovePostStep(db: Rows, id: Id, user: User)
    requires Inv(db) && Discussions.RemoveSpec(db, id, user).Success?
    ensures GoodStep(db, Discussions.RemoveSpec(db, id, user).value, None)
  {
    SmallPostStep(db, Discussions.RemoveSpec(db, id, user).value, id);
  }

  lemma AcceptCommentStep(db: Rows, id: Id, user: User, comment: Id)
    requires Inv(db) && Discussions.AcceptSpec(db, id, user, comment).Success?
    ensures GoodStep(db, Discussions.AcceptSpec(db, id, user, comment).value, None)
  {
    var after := Discussions.AcceptSpec(db, id, user, comment).value;
    if after == db {
      NothingHappens(db, None);
    } else {
      SmallPostStep(db, after, id);
    }
  }

  lemma UnacceptCommentStep(db: Rows, id: Id, user: User)
    requires Inv(db) && Discussions.UnacceptSpec(db, id, user).Success?
    ensures GoodStep(db, Discussions.UnacceptSpec(db, id, user).value, None)
  {
    SmallPostStep(db, Discussions.UnacceptSpec(db, id, user).value, id);
  }

  lemma SetStatusStep(db: Rows, id: Id, user: User, status: PostStatus)
    requires Inv(db) && Discussions.SetStatusSpec(db, id, user, status).Success?
    ensures GoodStep(db, Discussions.SetStatusSpec(db, id, user, status).value, None)
  {
    SmallPostStep(db, Discussions.SetStatusSpec(db, id, user, status).value, id);
  }

  lemma JudgeStep(db: Rows, id: Id, verdict: ModerationReviews.Verdict, reviewer: Id)
    requires Inv(db) && id in db.threads && !db.threads[id].post.deleted
    ensures GoodStep(db, db.(threads := db.threads[id := ModerationReviews.Reviewed(db.threads[id], verdict, reviewer)]), None)
  {
    var t := db.threads[id];
    ReviewFollows(t, verdict, reviewer);
    ReviewKeepsThread(id, t, verdict, reviewer, db.answers, db.comments);
    WriteThread(db, id, ModerationReviews.Reviewed(t, verdict, reviewer), None);
  }

  lemma ReviewedRows(db: Rows, id: Id, user: User, verdict: ModerationReviews.Verdict, rooms: set<Id>, media: bool, tags: set<Id>)
    requires ModerationReviews.ReviewSpec(db, id, user, verdict, rooms, media, tags).Success?
    ensures user.id.Some? && id in db.threads && !db.threads[id].post.deleted
    ensures ModerationReviews.ReviewSpec(db, id, user, verdict, rooms, media, tags).value
         == db.(threads := db.threads[id := ModerationReviews.Reviewed(db.threads[id], verdict, user.id.value)])
  {
  }

  lemma ReviewStep(db: Rows, id: Id, user: User, verdict: ModerationReviews.Verdict, rooms: set<Id>, media: bool, tags: set<Id>)
    requires Inv(db) && ModerationReviews.ReviewSpec(db, id, user, verdict, rooms, media, tags).Success?
    ensures GoodStep(db, ModerationReviews.ReviewSpec(db, id, user, verdict, rooms, media, tags).value, None)
  {
    ReviewedRows(db, id, user, verdict, rooms, media, tags);
    JudgeStep(db, id, verdict, user.id.value);
  }

  lemma EditStep(db: Rows, id: Id, edit: Discussions.Edit, editor: Id, approval: bool)
    requires Inv(db) && id in db.threads && !db.threads[id].post.deleted
    ensures GoodStep(db, db.(threads := db.threads[id := Discussions.Edited(db.threads[id], edit, editor, approval)]),
                     if approval then None else Some(id))
  {
    var t := db.threads[id];
    EditFollows(t, edit, editor, approval);
    EditKeepsThread(id, t, edit, editor, approval, db.answers, db.comments);
    WriteThread(db, id, Discussions.Edited(t, edit, editor, approval), if approval then None else Some(id));
  }

  lemma AcceptStep(db: Rows, id: Id, a: Id, actor: Id)
    requires Inv(db) && id in db.threads && a in db.answers
    requires var t, answer := db.threads[id], db.answers[a];
             !t.post.deleted && t.post.kind == Question && Shown(t.post) && !answer.deleted && answer.discussion == id
    ensures GoodStep(db, db.(threads := db.threads[id := Answers.Accepted(db.threads[id], a, db.answers[a], actor)]), None)
  {
    var t := db.threads[id];
    var u := Answers.Accepted(t, a, db.answers[a], actor);
    AcceptKeepsThread(id, t, a, actor, db.answers, db.comments);
    SamePublication(t, u);
    WriteThread(db, id, u, None);
  }

  lemma AcceptedRows(db: Rows, id: Id, user: User, a: Id, q: nat, v: nat)
    requires Answers.AcceptSpec(db, id, user, a, q, v).Success?
    ensures user.id.Some? && id in db.threads && a in db.answers
    ensures Answers.AcceptSpec(db, id, user, a, q, v).value
         == db.(threads := db.threads[id := Answers.Accepted(db.threads[id], a, db.answers[a], user.id.value)])
    ensures var t, answer := db.threads[id], db.answers[a];
            !t.post.deleted && t.post.kind == Question && Shown(t.post) && !answer.deleted && answer.discussion == id
  {
  }

  lemma AcceptAnswerStep(db: Rows, id: Id, user: User, answer: Id, q: nat, a: nat)
    requires Inv(db) && Answers.AcceptSpec(db, id, user, answer, q, a).Success?
    ensures GoodStep(db, Answers.AcceptSpec(db, id, user, answer, q, a).value, None)
  {
    AcceptedRows(db, id, user, answer, q, a);
    AcceptStep(db, id, answer, user.id.value);
  }

  lemma RevokeFollows(t: Thread)
    requires !t.post.deleted
    ensures Follows(t, Answers.Revoked(t), false)
  {
    SamePublication(t, Answers.Revoked(t));
  }

  lemma RevokeAnswerStep(db: Rows, id: Id, user: User)
    requires Inv(db) && Answers.RevokeSpec(db, id, user).Success?
    ensures GoodStep(db, Answers.RevokeSpec(db, id, user).value, None)
  {
    RevokedRows(db, id, user);
    RevokeFollows(db.threads[id]);
    RevokeKeepsThread(id, db.threads[id], db.answers, db.comments);
    WriteThread(db, id, Answers.Revoked(db.threads[id]), None);
  }

  lemma RevokedRows(db: Rows, id: Id, user: User)
    requires Answers.RevokeSpec(db, id, user).Success?
    ensures id in db.threads && !db.threads[id].post.deleted
    ensures Answers.RevokeSpec(db, id, user).value == db.(threads := db.threads[id := Answers.Revoked(db.threads[id])])
  {
  }

  lemma CreatePostStep(db: Rows, id: Id, body: Body, kind: PostKind, author: Id, room: Id, gate: Gate)
    requires Inv(db) && id !in db.threads
    ensures GoodStep(db, db.(threads := db.threads[id := Discussions.Created(body, kind, author, room, gate)]),
                     if gate == NeedsApproval then None else Some(id))
  {
    assert ThreadOk(id, Discussions.Created(body, kind, author, room, gate), db.answers, db.comments);
  }

  lemma CreateAnswerStep(db: Rows, id: Id, discussion: Id, user: User, content: string, gate: Gate)
    requires Inv(db) && Answers.CreateSpec(db, id, discussion, user, content, gate).Success?
    ensures GoodStep(db, Answers.CreateSpec(db, id, discussion, user, content, gate).value, None)
  {
    var after := Answers.CreateSpec(db, id, discussion, user, content, gate).value;
    var t := db.threads[discussion];
    SamePublication(t, t);
    assert db.threads == db.threads[discussion := t];
    WriteAnswer(db, id, after.answers[id], t);
  }

  /** Deleting answer `a` or adding revisions to it: while it stays accepted it is live and they are editorial. */
  lemma RelievedKeepsThread(id: Id, t: Thread, answers: map<Id, Answer>, comments: map<Id, Comment>, a: Id, answer: Answer, revoke: bool)
    requires ThreadOk(id, t, answers, comments)
    requires a in answers && answer.discussion == answers[a].discussion
    requires !revoke ==> answer.deleted == answers[a].deleted
    requires !revoke ==> forall r | r in answer.revisions && r !in answers[a].revisions :: r.kind == Editorial
    ensures ThreadOk(id, Answers.Relieved(t, a, revoke), answers[a := answer], comments)
  {
  }

  lemma AnswerStep(db: Rows, a: Id, answer: Answer, revoke: bool)
    requires Inv(db) && a in db.answers && AnswerOk(answer) && answer.discussion == db.answers[a].discussion
    requires answer.discussion in db.threads && !db.threads[answer.discussion].post.deleted
    requires !revoke ==> answer.deleted == db.answers[a].deleted
    requires !revoke ==> forall r | r in answer.revisions && r !in db.answers[a].revisions :: r.kind == Editorial
    ensures GoodStep(db, db.(answers := db.answers[a := answer],
                             threads := db.threads[answer.discussion := Answers.Relieved(db.threads[answer.discussion], a, revoke)]), None)
  {
    var t := db.threads[answer.discussion];
    RelievedKeepsThread(answer.discussion, t, db.answers, db.comments, a, answer, revoke);
    assert Follows(t, Answers.Relieved(t, a, revoke), false) by {
      RevokeFollows(t);
      SamePublication(t, t);
    }
    WriteAnswer(db, a, answer, Answers.Relieved(t, a, revoke));
  }

  lemma RewordIsOk(answer: Answer, content: string, kind: RevisionKind, editor: Id)
    requires AnswerOk(answer)
    ensures AnswerOk(Answers.Reworded(answer, content, kind, editor))
    ensures forall r | r in Answers.Reworded(answer, content, kind, editor).revisions && r !in answer.revisions :: r.kind == kind
  {
  }

  lemma RewordStep(db: Rows, a: Id, content: string, kind: RevisionKind, editor: Id)
    requires Inv(db) && a in db.answers
    requires db.answers[a].discussion in db.threads && !db.threads[db.answers[a].discussion].post.deleted
    ensures var d, answer := db.answers[a].discussion, Answers.Reworded(db.answers[a], content, kind, editor);
            GoodStep(db, db.(answers := db.answers[a := answer],
                             threads := db.threads[d := Answers.Relieved(db.threads[d], a, kind == Semantic)]), None)
  {
    RewordIsOk(db.answers[a], content, kind, editor);
    AnswerStep(db, a, Answers.Reworded(db.answers[a], content, kind, editor), kind == Semantic);
  }

  lemma UpdateAnswerStep(db: Rows, id: Id, user: User, content: string, version: nat, kind: RevisionKind)
    requires Inv(db) && Answers.UpdateSpec(db, id, user, content, version, kind).Success?
    ensures GoodStep(db, Answers.UpdateSpec(db, id, user, content, version, kind).value, None)
  {
    RewordedRows(db, id, user, content, version, kind);
    if db.answers[id].content == content {
      NothingHappens(db, None);
    } else {
      RewordStep(db, id, content, kind, user.id.value);
    }
  }

  lemma RewordedRows(db: Rows, id: Id, user: User, content: string, version: nat, kind: RevisionKind)
    requires Answers.UpdateSpec(db, id, user, content, version, kind).Success?
    ensures user.id.Some? && id in db.answers
    ensures var d := db.answers[id].discussion;
            && d in db.threads && !db.threads[d].post.deleted
            && Answers.UpdateSpec(db, id, user, content, version, kind).value
            == if db.answers[id].content == content then db
               else db.(answers := db.answers[id := Answers.Reworded(db.answers[id], content, kind, user.id.value)],
                        threads := db.threads[d := Answers.Relieved(db.threads[d], id, kind == Semantic)])
  {
  }

  lemma RemoveAnswerStep(db: Rows, id: Id, user: User)
    requires Inv(db) && Answers.RemoveSpec(db, id, user).Success?
    ensures GoodStep(db, Answers.RemoveSpec(db, id, user).value, None)
  {
    AnswerStep(db, id, db.answers[id].(deleted := true), true);
  }

  lemma CreateCommentStep(db: Rows, id: Id, discussion: Id, user: User, content: string, parent: Option<Id>, gate: Gate)
    requires Inv(db) && Comments.CreateSpec(db, id, discussion, user, content, parent, gate).Success?
    ensures GoodStep(db, Comments.CreateSpec(db, id, discussion, user, content, parent, gate).value, None)
  {
    var after := Comments.CreateSpec(db, id, discussion, user, content, parent, gate).value;
    var t := db.threads[discussion];
    SamePublication(t, t);
    assert db.threads == db.threads[discussion := t];
    WriteComment(db, id, after.comments[id], t);
  }

  /** Rewording or deleting comment `c`; if it was the accepted one, it no longer is. */
  lemma CommentStep(db: Rows, c: Id, comment: Comment)
    requires Inv(db) && c in db.comments
    requires comment == db.comments[c].(content := comment.content, deleted := comment.deleted)
    requires comment.discussion in db.threads && !db.threads[comment.discussion].post.deleted
    ensures GoodStep(db, db.(comments := db.comments[c := comment],
                             threads := db.threads[comment.discussion := Comments.Unaccept(db.threads[comment.discussion], c)]), None)
  {
    var t := db.threads[comment.discussion];
    var u := Comments.Unaccept(t, c);
    SamePublication(t, u);
    assert ThreadOk(comment.discussion, u, db.answers, db.comments[c := comment]);
    WriteComment(db, c, comment, u);
  }

  lemma UpdateCommentStep(db: Rows, id: Id, user: User, content: Option<string>)
    requires Inv(db) && Comments.UpdateSpec(db, id, user, content).Success?
    ensures GoodStep(db, Comments.UpdateSpec(db, id, user, content).value, None)
  {
    var after := Comments.UpdateSpec(db, id, user, content).value;
    if after == db {
      NothingHappens(db, None);
    } else {
      CommentStep(db, id, after.comments[id]);
    }
  }

  lemma RemoveCommentStep(db: Rows, id: Id, user: User)
    requires Inv(db) && Comments.RemoveSpec(db, id, user).Success?
    ensures GoodStep(db, Comments.RemoveSpec(db, id, user).value, None)
  {
    CommentStep(db, id, db.comments[id].(deleted := true));
  }

  /** The post, if any, that a command may change without moderators having to agree first. */
  function Exempt(db: Rows, c: Command): Option<Id> {
    if (c.CreatePost? && c.gate == Direct)
       || (c.UpdatePost? && (c.gate == Direct || (c.id in db.threads && db.threads[c.id].post.room.None?)))
    then Some(c.id) else None
  }

  lemma CreatedRows(db: Rows, c: Command)
    requires c.CreatePost? && Execute(db, c).Success?
    ensures c.user.id.Some? && c.id !in db.threads && c.gate != Refused
    ensures Execute(db, c).value
         == db.(threads := db.threads[c.id := Discussions.Created(c.body, c.kind, c.user.id.value, c.room, c.gate)])
    ensures Exempt(db, c) == if c.gate == Direct then Some(c.id) else None
  {
  }

  lemma CreationStep(db: Rows, c: Command)
    requires Inv(db) && c.CreatePost? && Execute(db, c).Success?
    ensures GoodStep(db, Execute(db, c).value, Exempt(db, c))
  {
    CreatedRows(db, c);
    CreatePostStep(db, c.id, c.body, c.kind, c.user.id.value, c.room, c.gate);
  }

  lemma EditedRows(db: Rows, c: Command)
    requires c.UpdatePost? && Execute(db, c).Success?
    ensures c.user.id.Some? && c.id in db.threads && !db.threads[c.id].post.deleted
    ensures var approval := db.threads[c.id].post.room.Some? && c.gate == NeedsApproval;
            && Execute(db, c).value
               == db.(threads := db.threads[c.id := Discussions.Edited(db.threads[c.id], c.edit, c.user.id.value, approval)])
            && Exempt(db, c) == if approval then None else Some(c.id)
  {
  }

  lemma EditingStep(db: Rows, c: Command)
    requires Inv(db) && c.UpdatePost? && Execute(db, c).Success?
    ensures GoodStep(db, Execute(db, c).value, Exempt(db, c))
  {
    EditedRows(db, c);
    EditStep(db, c.id, c.edit, c.user.id.value, db.threads[c.id].post.room.Some? && c.gate == NeedsApproval);
  }

  /** Commands of the discussions and moderation services. */
  predicate OnPost(c: Command) {
    c.CreatePost? || c.UpdatePost? || c.RemovePost? || c.AcceptComment? || c.UnacceptComment? || c.SetStatus? || c.ReviewPost?
  }

  lemma PostStepIsGood(db: Rows, c: Command)
    requires Inv(db) && OnPost(c) && Execute(db, c).Success?
    ensures GoodStep(db, Execute(db, c).value, Exempt(db, c))
  {
    match c
    case CreatePost(_, _, _, _, _, _, _, _, _) => CreationStep(db, c);
    case UpdatePost(_, _, _, _, _, _) => EditingStep(db, c);
    case RemovePost(id, user) => RemovePostStep(db, id, user);
    case AcceptComment(id, user, comment) => AcceptCommentStep(db, id, user, comment);
    case UnacceptComment(id, user) => UnacceptCommentStep(db, id, user);
    case SetStatus(id, user, status) => SetStatusStep(db, id, user, status);
    case ReviewPost(id, user, verdict, rooms, media, tags) => ReviewStep(db, id, user, verdict, rooms, media, tags);
  }

  lemma ReplyStepIsGood(db: Rows, c: Command)
    requires Inv(db) && !OnPost(c) && Execute(db, c).Success?
    ensures GoodStep(db, Execute(db, c).value, None)
  {
    match c
    case CreateAnswer(id, discussion, user, content, gate) => CreateAnswerStep(db, id, discussion, user, content, gate);
    case UpdateAnswer(id, user, content, version, kind) => UpdateAnswerStep(db, id, user, content, version, kind);
    case RemoveAnswer(id, user) => RemoveAnswerStep(db, id, user);
    case AcceptAnswer(id, user, answer, q, a) => AcceptAnswerStep(db, id, user, answer, q, a);
    case RevokeAnswer(id, user) => RevokeAnswerStep(db, id, user);
    case CreateComment(id, discussion, user, content, parent, gate) => CreateCommentStep(db, id, discussion, user, content, parent, gate);
    case UpdateComment(id, user, content) => UpdateCommentStep(db, id, user, content);
    case RemoveComment(id, user) => RemoveCommentStep(db, id, user);
  }

  lemma EveryStepIsGood(db: Rows, c: Command)
    requires Inv(db)
    ensures GoodStep(db, Step(db, c), Exempt(db, c))
  {
    if Execute(db, c).Failure? {
      NothingHappens(db, Exempt(db, c));
    } else if OnPost(c) {
      PostStepIsGood(db, c);
    } else {
      ReplyStepIsGood(db, c);
    }
  }
}
