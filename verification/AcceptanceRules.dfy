/** Rules about acceptances that the operations keep only under conditions, and exactly these conditions. */
module AcceptanceRules {
  import opened Wrappers
  import opened Content
  import opened Lifecycle
  import Discussions
  import ModerationReviews
  import Answers
  import Comments

  // ---------- The one post a command writes ----------

  predicate Approving(t: Thread, gate: Gate) {
    t.post.room.Some? && gate == NeedsApproval
  }

  /** The post a successful command is about, and that post afterwards. */
  function Written(db: Rows, c: Command): (Id, Thread)
    requires Execute(db, c).Success?
  {
    match c
    case CreatePost(id, user, body, kind, room, _, gate, _, _) => (id, Discussions.Created(body, kind, user.id.value, room, gate))
    case UpdatePost(id, user, edit, gate, _, _) =>
      (id, Discussions.Edited(db.threads[id], edit, user.id.value, Approving(db.threads[id], gate)))
    case RemovePost(id, _) => (id, db.threads[id].(post := db.threads[id].post.(deleted := true)))
    case AcceptComment(id, _, comment) =>
      var t := db.threads[id];
      (id, if t.post.acceptedComment == Some(comment) then t
           else t.(post := t.post.(acceptedComment := Some(comment), status := Solved)))
    case UnacceptComment(id, _) =>
      (id, db.threads[id].(post := db.threads[id].post.(acceptedComment := None, status := Open)))
    case SetStatus(id, _, status) =>
      var t := db.threads[id];
      (id, t.(post := t.post.(status := if status == Open && t.post.acceptedComment.Some? then Solved else status)))
    case ReviewPost(id, user, verdict, _, _, _) => (id, ModerationReviews.Reviewed(db.threads[id], verdict, user.id.value))
    case CreateAnswer(_, d, _, _, _) => (d, db.threads[d])
    case UpdateAnswer(a, _, content, _, kind) =>
      var d := db.answers[a].discussion;
      (d, Answers.Relieved(db.threads[d], a, db.answers[a].content != content && kind == Semantic))
    case RemoveAnswer(a, _) => (db.answers[a].discussion, Answers.Relieved(db.threads[db.answers[a].discussion], a, true))
    case AcceptAnswer(d, user, a, _, _) => (d, Answers.Accepted(db.threads[d], a, db.answers[a], user.id.value))
    case RevokeAnswer(d, _) => (d, Answers.Revoked(db.threads[d]))
    case CreateComment(_, d, _, _, _, _) => (d, db.threads[d])
    case UpdateComment(m, _, content) =>
      var d := db.comments[m].discussion;
      (d, if content.GetOr(db.comments[m].content) == db.comments[m].content then db.threads[d]
          else Comments.Unaccept(db.threads[d], m))
    case RemoveComment(m, _) => (db.comments[m].discussion, Comments.Unaccept(db.threads[db.comments[m].discussion], m))
  }

  predicate WritesOnly(db: Rows, c: Command)
    requires Execute(db, c).Success?
  {
    && Execute(db, c).value.threads == db.threads[Written(db, c).0 := Written(db, c).1]
    && (!c.CreatePost? ==> Written(db, c).0 in db.threads)
  }

  lemma PostCommandWrites(db: Rows, c: Command)
    requires OnPost(c) && Execute(db, c).Success?
    ensures WritesOnly(db, c)
  {
  }

  lemma ReplyCommandWrites(db: Rows, c: Command)
    requires !OnPost(c) && Execute(db, c).Success?
    ensures WritesOnly(db, c)
  {
  }

  lemma WritesExistingPost(db: Rows, c: Command)
    requires !c.CreatePost? && Execute(db, c).Success?
    ensures Written(db, c).0 in db.threads
  {
    WritesOnePost(db, c);
  }

  lemma WritesOnePost(db: Rows, c: Command)
    requires Execute(db, c).Success?
    ensures WritesOnly(db, c)
  {
    if OnPost(c) {
      PostCommandWrites(db, c);
    } else {
      ReplyCommandWrites(db, c);
    }
  }

  /** A rule that all posts keep is broken by a step exactly when the written post breaks it. */
  ghost predicate All(rule: Post -> bool, threads: map<Id, Thread>) {
    forall id | id in threads :: rule(threads[id].post)
  }

  lemma BrokenByWrittenPost(rule: Post -> bool, db: Rows, c: Command)
    requires All(rule, db.threads)
    ensures All(rule, Step(db, c).threads) <==> Execute(db, c).Success? ==> rule(Written(db, c).1.post)
  {
    if Execute(db, c).Success? {
      WritesOnePost(db, c);
      var w := Written(db, c);
      assert w.0 in Step(db, c).threads && Step(db, c).threads[w.0] == w.1;
    }
  }

  // ---------- Accepted means approved ----------

  predicate AcceptedIsApproved(p: Post) {
    HasAcceptance(p) ==> p.moderation == Approved
  }

  /** Accepting on a question that is not approved, and editing an accepted question into a draft. */
  predicate AcceptsUnapproved(db: Rows, c: Command)
    requires Execute(db, c).Success?
  {
    match c
    case AcceptAnswer(id, _, _, _, _) => db.threads[id].post.moderation != Approved
    case AcceptComment(id, _, _) => db.threads[id].post.moderation != Approved
    case UpdatePost(id, _, edit, gate, _, _) =>
      var t := db.threads[id];
      HasAcceptance(t.post) && Discussions.Drafts(t.post, edit, Approving(t, gate))
    case _ => false
  }

  lemma EditAcceptsUnapprovedBreaks(t: Thread, edit: Discussions.Edit, editor: Id, approval: bool)
    requires AcceptedIsApproved(t.post)
    ensures AcceptedIsApproved(Discussions.Edited(t, edit, editor, approval).post) <==> !(HasAcceptance(t.post) && Discussions.Drafts(t.post, edit, approval))
  {
  }

  lemma ReviewAcceptsUnapprovedBreaks(t: Thread, verdict: ModerationReviews.Verdict, reviewer: Id)
    requires AcceptedIsApproved(t.post) && CoherentModeration(t.post)
    ensures AcceptedIsApproved(ModerationReviews.Reviewed(t, verdict, reviewer).post)
  {
  }

  lemma TextAcceptsUnapprovedBreaks(db: Rows, c: Command)
    requires (c.UpdatePost? || c.ReviewPost?) && Inv(db) && All(AcceptedIsApproved, db.threads) && Execute(db, c).Success?
    ensures AcceptedIsApproved(Written(db, c).1.post) <==> !AcceptsUnapproved(db, c)
  {
    WritesExistingPost(db, c);
    assert ThreadOk(c.id, db.threads[c.id], db.answers, db.comments);
    if c.UpdatePost? {
      EditAcceptsUnapprovedBreaks(db.threads[c.id], c.edit, c.user.id.value, Approving(db.threads[c.id], c.gate));
    } else {
      ReviewAcceptsUnapprovedBreaks(db.threads[c.id], c.verdict, c.user.id.value);
    }
  }

  lemma PostAcceptsUnapprovedBreaks(db: Rows, c: Command)
    requires OnPost(c) && Inv(db) && All(AcceptedIsApproved, db.threads) && Execute(db, c).Success?
    ensures AcceptedIsApproved(Written(db, c).1.post) <==> !AcceptsUnapproved(db, c)
  {
    if c.UpdatePost? || c.ReviewPost? {
      TextAcceptsUnapprovedBreaks(db, c);
    } else if !c.CreatePost? {
      WritesExistingPost(db, c);
      assert AcceptedIsApproved(db.threads[c.id].post);
    }
  }

  lemma ReplyAcceptsUnapprovedBreaks(db: Rows, c: Command)
    requires !OnPost(c) && Inv(db) && All(AcceptedIsApproved, db.threads) && Execute(db, c).Success?
    ensures AcceptedIsApproved(Written(db, c).1.post) <==> !AcceptsUnapproved(db, c)
  {
    WritesExistingPost(db, c);
    var id := Written(db, c).0;
    assert AcceptedIsApproved(db.threads[id].post);
    assert ThreadOk(id, db.threads[id], db.answers, db.comments);
  }

  /** One step breaks "accepted means approved" if and only if it is one of the two. */
  lemma ApprovalRuleBrokenIff(db: Rows, c: Command)
    requires Inv(db) && All(AcceptedIsApproved, db.threads)
    ensures !All(AcceptedIsApproved, Step(db, c).threads) <==> Execute(db, c).Success? && AcceptsUnapproved(db, c)
  {
    BrokenByWrittenPost(AcceptedIsApproved, db, c);
    if Execute(db, c).Success? {
      if OnPost(c) {
        PostAcceptsUnapprovedBreaks(db, c);
      } else {
        ReplyAcceptsUnapprovedBreaks(db, c);
      }
    }
  }

  ghost predicate Throughout(rule: Post -> bool, db: Rows, commands: seq<Command>)
    decreases |commands|
  {
    All(rule, db.threads) && (commands != [] ==> Throughout(rule, Step(db, commands[0]), commands[1..]))
  }

  predicate NeverAcceptsUnapproved(db: Rows, commands: seq<Command>)
    decreases |commands|
  {
    commands != [] ==>
      && !(Execute(db, commands[0]).Success? && AcceptsUnapproved(db, commands[0]))
      && NeverAcceptsUnapproved(Step(db, commands[0]), commands[1..])
  }

  /** Only approved questions have an accepted answer or comment, all through a run, exactly when no step is one of the two. */
  lemma {:induction false} ApprovalRuleThroughoutIff(db: Rows, commands: seq<Command>)
    requires Inv(db) && All(AcceptedIsApproved, db.threads)
    ensures Throughout(AcceptedIsApproved, db, commands) <==> NeverAcceptsUnapproved(db, commands)
    decreases |commands|
  {
    if commands != [] {
      ApprovalRuleBrokenIff(db, commands[0]);
      EveryStepIsGood(db, commands[0]);
      if All(AcceptedIsApproved, Step(db, commands[0]).threads) {
        ApprovalRuleThroughoutIff(Step(db, commands[0]), commands[1..]);
      }
    }
  }

  // ---------- Accepted means not open ----------

  predicate AcceptedIsNotOpen(p: Post) {
    HasAcceptance(p) ==> p.status != Open
  }

  /** Ending one acceptance opens the question even if the other one stays; reopening asks for the comment alone. */
  predicate OpensAccepted(db: Rows, c: Command)
    requires Execute(db, c).Success?
  {
    match c
    case SetStatus(id, _, status) =>
      var p := db.threads[id].post;
      status == Open && p.acceptedAnswer.Some? && p.acceptedComment.None?
    case UnacceptComment(id, _) => db.threads[id].post.acceptedAnswer.Some?
    case UpdateComment(m, _, content) =>
      content.GetOr(db.comments[m].content) != db.comments[m].content && LosesOneOfTwo(db, db.comments[m].discussion, None, Some(m))
    case RemoveComment(m, _) => LosesOneOfTwo(db, db.comments[m].discussion, None, Some(m))
    case RevokeAnswer(id, _) => LosesOneOfTwo(db, id, db.threads[id].post.acceptedAnswer, None)
    case UpdateAnswer(a, _, content, _, kind) =>
      db.answers[a].content != content && kind == Semantic && LosesOneOfTwo(db, db.answers[a].discussion, Some(a), None)
    case RemoveAnswer(a, _) => LosesOneOfTwo(db, db.answers[a].discussion, Some(a), None)
    case _ => false
  }

  /** An answer and a comment are accepted, and the given one of them is concerned. */
  predicate LosesOneOfTwo(db: Rows, id: Id, answer: Option<Id>, comment: Option<Id>)
    requires id in db.threads
  {
    var p := db.threads[id].post;
    && p.acceptedAnswer.Some? && p.acceptedComment.Some?
    && (p.acceptedAnswer == answer || p.acceptedComment == comment)
  }

  lemma EditOpensAcceptedBreaks(t: Thread, edit: Discussions.Edit, editor: Id, approval: bool)
    requires AcceptedIsNotOpen(t.post)
    ensures AcceptedIsNotOpen(Discussions.Edited(t, edit, editor, approval).post)
  {
  }

  lemma ReviewOpensAcceptedBreaks(t: Thread, verdict: ModerationReviews.Verdict, reviewer: Id)
    requires AcceptedIsNotOpen(t.post) && CoherentModeration(t.post)
    ensures AcceptedIsNotOpen(ModerationReviews.Reviewed(t, verdict, reviewer).post)
  {
  }

  lemma TextOpensAcceptedBreaks(db: Rows, c: Command)
    requires (c.UpdatePost? || c.ReviewPost?) && Inv(db) && All(AcceptedIsNotOpen, db.threads) && Execute(db, c).Success?
    ensures AcceptedIsNotOpen(Written(db, c).1.post) <==> !OpensAccepted(db, c)
  {
    WritesExistingPost(db, c);
    assert ThreadOk(c.id, db.threads[c.id], db.answers, db.comments);
    if c.UpdatePost? {
      EditOpensAcceptedBreaks(db.threads[c.id], c.edit, c.user.id.value, Approving(db.threads[c.id], c.gate));
    } else {
      ReviewOpensAcceptedBreaks(db.threads[c.id], c.verdict, c.user.id.value);
    }
  }

  lemma PostOpensAcceptedBreaks(db: Rows, c: Command)
    requires OnPost(c) && Inv(db) && All(AcceptedIsNotOpen, db.threads) && Execute(db, c).Success?
    ensures AcceptedIsNotOpen(Written(db, c).1.post) <==> !OpensAccepted(db, c)
  {
    if c.UpdatePost? || c.ReviewPost? {
      TextOpensAcceptedBreaks(db, c);
    } else if !c.CreatePost? {
      WritesExistingPost(db, c);
      assert AcceptedIsNotOpen(db.threads[c.id].post);
    }
  }

  lemma ReplyOpensAcceptedBreaks(db: Rows, c: Command)
    requires !OnPost(c) && Inv(db) && All(AcceptedIsNotOpen, db.threads) && Execute(db, c).Success?
    ensures AcceptedIsNotOpen(Written(db, c).1.post) <==> !OpensAccepted(db, c)
  {
    WritesExistingPost(db, c);
    var id := Written(db, c).0;
    assert AcceptedIsNotOpen(db.threads[id].post);
    assert ThreadOk(id, db.threads[id], db.answers, db.comments);
  }

  /** One step leaves a question open that has an acceptance if and only if it is one of the seven. */
  lemma OpenRuleBrokenIff(db: Rows, c: Command)
    requires Inv(db) && All(AcceptedIsNotOpen, db.threads)
    ensures !All(AcceptedIsNotOpen, Step(db, c).threads) <==> Execute(db, c).Success? && OpensAccepted(db, c)
  {
    BrokenByWrittenPost(AcceptedIsNotOpen, db, c);
    if Execute(db, c).Success? {
      if OnPost(c) {
        PostOpensAcceptedBreaks(db, c);
      } else {
        ReplyOpensAcceptedBreaks(db, c);
      }
    }
  }

  predicate NeverOpensAccepted(db: Rows, commands: seq<Command>)
    decreases |commands|
  {
    commands != [] ==>
      && !(Execute(db, commands[0]).Success? && OpensAccepted(db, commands[0]))
      && NeverOpensAccepted(Step(db, commands[0]), commands[1..])
  }

  /** Whatever is accepted is on a question that is solved or closed, all through a run, exactly when no step is one of the seven. */
  lemma {:induction false} OpenRuleThroughoutIff(db: Rows, commands: seq<Command>)
    requires Inv(db) && All(AcceptedIsNotOpen, db.threads)
    ensures Throughout(AcceptedIsNotOpen, db, commands) <==> NeverOpensAccepted(db, commands)
    decreases |commands|
  {
    if commands != [] {
      OpenRuleBrokenIff(db, commands[0]);
      EveryStepIsGood(db, commands[0]);
      if All(AcceptedIsNotOpen, Step(db, commands[0]).threads) {
        OpenRuleThroughoutIff(Step(db, commands[0]), commands[1..]);
      }
    }
  }
}
