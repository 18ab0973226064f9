/** What holds in every run of the lifecycle operations. */
module LifecycleGuarantees {
  import opened Wrappers
  import opened Content
  import opened Lifecycle
  import Discussions
  import ModerationReviews

  /** Every post that exists now still exists after the run, and its logs only grew. */
  predicate Extends(before: map<Id, Thread>, after: map<Id, Thread>) {
    forall id | id in before :: id in after && Grows(before[id], after[id])
  }

  lemma GrowsTransitively(t: Thread, u: Thread, v: Thread)
    requires Grows(t, u) && Grows(u, v)
    ensures Grows(t, v)
  {
  }

  lemma StepExtends(db: Rows, c: Command)
    requires Inv(db)
    ensures Inv(Step(db, c)) && Extends(db.threads, Step(db, c).threads)
  {
    EveryStepIsGood(db, c);
  }

  lemma {:induction false} RunExtends(db: Rows, commands: seq<Command>)
    requires Inv(db)
    ensures Inv(Run(db, commands)) && Extends(db.threads, Run(db, commands).threads)
    decreases |commands|
  {
    if commands != [] {
      var next := Step(db, commands[0]);
      StepExtends(db, commands[0]);
      RunExtends(next, commands[1..]);
      forall id | id in db.threads
        ensures id in Run(db, commands).threads && Grows(db.threads[id], Run(db, commands).threads[id])
      {
        GrowsTransitively(db.threads[id], next.threads[id], Run(next, commands[1..]).threads[id]);
      }
    }
  }

  /** Revisions are numbered 1, 2, ..., contentVersion; the newest is the draft, or else the published text. */
  lemma RevisionLogIsComplete(commands: seq<Command>, id: Id)
    requires id in Run(EMPTY, commands).threads
    ensures var t := Run(EMPTY, commands).threads[id];
            && |t.revisions| == t.post.version >= 1
            && (forall k | 0 <= k < |t.revisions| :: t.revisions[k].version == k + 1)
            && t.revisions[|t.revisions| - 1].Records(if t.post.draft.Some? then t.post.draft.value else t.post.published)
  {
    RunExtends(EMPTY, commands);
  }

  lemma JudgedIsNotPending(db: Rows, c: Command)
    requires c.ReviewPost? && Execute(db, c).Success?
    ensures c.id in db.threads && db.threads[c.id].post.moderation == c.verdict.Expected()
    ensures var next := Step(db, c).threads;
            c.id in next && next[c.id].post.moderation != Pending
            && next[c.id].post.version == c.verdict.expectedVersion == db.threads[c.id].post.version
  {
  }

  /** Two successful reviews that found a post pending never judged the same version. */
  lemma DecidedOncePerVersion(db: Rows, first: Command, between: seq<Command>, second: Command)
    requires Inv(db)
    requires first.ReviewPost? && Execute(db, first).Success? && first.verdict.Expected() == Pending
    requires second.ReviewPost? && second.id == first.id && second.verdict.Expected() == Pending
    requires Execute(Run(Step(db, first), between), second).Success?
    ensures second.verdict.expectedVersion > first.verdict.expectedVersion
  {
    var judged := Step(db, first);
    StepExtends(db, first);
    JudgedIsNotPending(db, first);
    RunExtends(judged, between);
    JudgedIsNotPending(Run(judged, between), second);
    assert Grows(judged.threads[first.id], Run(judged, between).threads[first.id]);
  }

  // ---------- The acceptance ledger ----------

  predicate Active(ledger: seq<Acceptance>, i: nat) {
    i < |ledger| && !ledger[i].revoked
  }

  /** At most one active row, one exactly when an answer is accepted, and it names that live answer of this question. */
  lemma LedgerMatchesQuestion(commands: seq<Command>, id: Id)
    requires id in Run(EMPTY, commands).threads
    ensures var db := Run(EMPTY, commands);
            var t := db.threads[id];
            && (forall i: nat, j: nat | Active(t.ledger, i) && Active(t.ledger, j) :: i == j)
            && ((exists i: nat :: Active(t.ledger, i)) <==> t.post.acceptedAnswer.Some?)
            && (forall i: nat | Active(t.ledger, i) ::
                  var a := t.ledger[i].answer;
                  t.post.acceptedAnswer == Some(a) && a in db.answers && !db.answers[a].deleted && db.answers[a].discussion == id)
  {
    RunExtends(EMPTY, commands);
    var t := Run(EMPTY, commands).threads[id];
    assert ThreadOk(id, t, Run(EMPTY, commands).answers, Run(EMPTY, commands).comments);
    if t.post.acceptedAnswer.Some? {
      assert Active(t.ledger, |t.ledger| - 1);
    }
  }

  /** A ledger row keeps its place and its contents; once revoked it stays revoked. */
  lemma RevokedStaysRevoked(db: Rows, commands: seq<Command>, id: Id, i: nat)
    requires Inv(db) && id in db.threads && i < |db.threads[id].ledger|
    ensures var after := Run(db, commands).threads;
            && id in after && i < |after[id].ledger|
            && after[id].ledger[i].(revoked := true) == db.threads[id].ledger[i].(revoked := true)
            && (db.threads[id].ledger[i].revoked ==> after[id].ledger[i].revoked)
  {
    RunExtends(db, commands);
    assert Grows(db.threads[id], Run(db, commands).threads[id]);
  }

  // ---------- What was accepted is what is shown ----------

  /** Some answer or comment is accepted now and after every step. */
  predicate AcceptedThroughout(db: Rows, commands: seq<Command>, id: Id)
    decreases |commands|
  {
    && id in db.threads && HasAcceptance(db.threads[id].post)
    && (commands != [] ==> AcceptedThroughout(Step(db, commands[0]), commands[1..], id))
  }

  lemma {:induction false} AcceptedTextStaysPublished(db: Rows, commands: seq<Command>, id: Id)
    requires Inv(db) && AcceptedThroughout(db, commands, id)
    ensures id in Run(db, commands).threads
    ensures var p := Run(db, commands).threads[id].post;
            Shown(p) && p.kind == Question && p.published.SameText(db.threads[id].post.published)
    decreases |commands|
  {
    if commands == [] {
      assert ThreadOk(id, db.threads[id], db.answers, db.comments);
    } else {
      EveryStepIsGood(db, commands[0]);
      AcceptedTextStaysPublished(Step(db, commands[0]), commands[1..], id);
    }
  }

  /** Comment `c` is the accepted one now and after every step. */
  predicate CommentAcceptedThroughout(db: Rows, commands: seq<Command>, id: Id, c: Id)
    decreases |commands|
  {
    && id in db.threads && db.threads[id].post.acceptedComment == Some(c)
    && (commands != [] ==> CommentAcceptedThroughout(Step(db, commands[0]), commands[1..], id, c))
  }

  lemma {:induction false} AcceptedCommentStaysTheSame(db: Rows, commands: seq<Command>, id: Id, c: Id)
    requires Inv(db) && CommentAcceptedThroughout(db, commands, id, c)
    ensures var after := Run(db, commands);
            && c in db.comments && c in after.comments
            && after.comments[c].content == db.comments[c].content
            && !after.comments[c].deleted && after.comments[c].discussion == id && after.comments[c].parent.None?
    decreases |commands|
  {
    assert AcceptedCommentFits(id, db.threads[id], db.comments);
    if commands != [] {
      var next := Step(db, commands[0]);
      EveryStepIsGood(db, commands[0]);
      AcceptedCommentStaysTheSame(next, commands[1..], id, c);
      assert next.threads[id].post.acceptedComment == db.threads[id].post.acceptedComment;
    }
  }

  /** Since it was accepted, the accepted answer was only edited editorially, at versions the ledger row precedes. */
  lemma AcceptedAnswerOnlyEditorial(commands: seq<Command>, id: Id)
    requires id in Run(EMPTY, commands).threads && Run(EMPTY, commands).threads[id].post.acceptedAnswer.Some?
    ensures var db := Run(EMPTY, commands);
            var t := db.threads[id];
            var a := t.post.acceptedAnswer.value;
            && a in db.answers
            && |db.answers[a].revisions| == db.answers[a].version
            && |t.ledger| > 0
            && (forall k | t.ledger[|t.ledger| - 1].answerVersion <= k < db.answers[a].version ::
                  db.answers[a].revisions[k].kind == Editorial)
  {
    var db := Run(EMPTY, commands);
    RunExtends(EMPTY, commands);
    var t := db.threads[id];
    assert ThreadOk(id, t, db.answers, db.comments);
    var answer := db.answers[t.post.acceptedAnswer.value];
    forall k | t.ledger[|t.ledger| - 1].answerVersion <= k < answer.version
      ensures answer.revisions[k].kind == Editorial
    {
      assert answer.revisions[k] in answer.revisions;
    }
  }

  lemma SolvedMeansAccepted(commands: seq<Command>, id: Id)
    requires id in Run(EMPTY, commands).threads
    ensures var p := Run(EMPTY, commands).threads[id].post;
            p.status == Solved ==> p.acceptedAnswer.Some? || p.acceptedComment.Some?
  {
    RunExtends(EMPTY, commands);
  }

  /** Reopening restores 'solved' correctly exactly when no answer is accepted without an accepted comment. */
  lemma ReopeningForgetsAnswers(db: Rows, id: Id, user: User)
    requires Inv(db) && Discussions.SetStatusSpec(db, id, user, Open).Success?
    ensures var before := db.threads[id].post;
            var after := Discussions.SetStatusSpec(db, id, user, Open).value.threads[id].post;
            (after.status == Solved <==> HasAcceptance(after)) <==> !(before.acceptedAnswer.Some? && before.acceptedComment.None?)
  {
  }

  /** An edit of an accepted question ends the acceptance at once exactly when it does not become a draft. */
  lemma EditEndsAcceptanceUnlessDrafted(id: Id, t: Thread, answers: map<Id, Answer>, comments: map<Id, Comment>,
                                        edit: Discussions.Edit, editor: Id, approval: bool)
    requires ThreadOk(id, t, answers, comments) && HasAcceptance(t.post) && Discussions.Changes(t.post, edit)
    ensures HasAcceptance(Discussions.Edited(t, edit, editor, approval).post) <==> approval || t.post.draft.Some?
  {
    assert t.post.visibility == Visible;
  }

  /** A ledger row that is active at the end of a run was active all along. */
  lemma {:induction false} ActiveAllAlong(db: Rows, commands: seq<Command>, id: Id, i: nat)
    requires Inv(db) && id in db.threads && i < |db.threads[id].ledger|
    requires id in Run(db, commands).threads && Active(Run(db, commands).threads[id].ledger, i)
    ensures AcceptedThroughout(db, commands, id)
    decreases |commands|
  {
    RevokedStaysRevoked(db, commands, id, i);
    assert ThreadOk(id, db.threads[id], db.answers, db.comments);
    if commands != [] {
      RevokedStaysRevoked(db, [commands[0]], id, i);
      assert Run(db, [commands[0]]) == Step(db, commands[0]);
      StepExtends(db, commands[0]);
      ActiveAllAlong(Step(db, commands[0]), commands[1..], id, i);
    }
  }

  /** Accepting: one more ledger row, which names the version of the question; texts and revisions as they were. */
  predicate RowAppended(t: Thread, u: Thread) {
    && |u.ledger| == |t.ledger| + 1 && u.ledger[|t.ledger|].questionVersion == t.post.version
    && u.revisions == t.revisions && u.post.published == t.post.published
  }

  lemma AcceptanceRow(db: Rows, accept: Command)
    requires accept.AcceptAnswer? && Execute(db, accept).Success?
    ensures accept.id in db.threads && accept.id in Step(db, accept).threads
    ensures RowAppended(db.threads[accept.id], Step(db, accept).threads[accept.id])
  {
  }

  /** Row `i` keeps its version, the revisions only grow and the text stays. */
  predicate KeepsRow(t: Thread, u: Thread, i: nat) {
    && i < |t.ledger| && i < |u.ledger| && u.ledger[i].questionVersion == t.ledger[i].questionVersion
    && t.revisions <= u.revisions && u.post.published.SameText(t.post.published)
  }

  /** The revision named by ledger row `i` reads like the displayed text exactly if no draft with another text was pending
      in `t`, the question when the row was written. */
  predicate NamesTextIff(t: Thread, u: Thread, i: nat) {
    && i < |u.ledger| && 1 <= u.ledger[i].questionVersion <= |u.revisions|
    && (u.revisions[u.ledger[i].questionVersion - 1].Records(u.post.published)
        <==> t.post.Latest().SameText(t.post.published))
  }

  /** As long as an answer stays accepted, the question version in its ledger row names the displayed text exactly if,
      when it was accepted, no draft with another text was pending. */
  lemma LedgerNamesShownText(db: Rows, accept: Command, later: seq<Command>)
    requires Inv(db) && accept.AcceptAnswer? && Execute(db, accept).Success?
    requires var end := Run(Step(db, accept), later).threads;
             accept.id in end && Active(end[accept.id].ledger, |db.threads[accept.id].ledger|)
    ensures NamesTextIff(db.threads[accept.id], Run(Step(db, accept), later).threads[accept.id], |db.threads[accept.id].ledger|)
  {
    AcceptanceRow(db, accept);
    StepExtends(db, accept);
    RevisionsAreNumbered(db, accept.id);
    WhileActive(Step(db, accept), later, accept.id, |db.threads[accept.id].ledger|);
    VersionNamesText(db.threads[accept.id], Step(db, accept).threads[accept.id],
                     Run(Step(db, accept), later).threads[accept.id]);
  }

  lemma RevisionsAreNumbered(db: Rows, id: Id)
    requires Inv(db) && id in db.threads
    ensures NumberedRevisions(db.threads[id])
  {
    assert ThreadOk(id, db.threads[id], db.answers, db.comments);
  }

  /** As long as a ledger row stays active, it keeps its version, the revisions only grow and the text stays. */
  lemma WhileActive(db: Rows, later: seq<Command>, id: Id, i: nat)
    requires Inv(db) && id in db.threads && i < |db.threads[id].ledger|
    requires id in Run(db, later).threads && Active(Run(db, later).threads[id].ledger, i)
    ensures KeepsRow(db.threads[id], Run(db, later).threads[id], i)
  {
    RevokedStaysRevoked(db, later, id, i);
    ActiveAllAlong(db, later, id, i);
    AcceptedTextStaysPublished(db, later, id);
    RunExtends(db, later);
    assert Grows(db.threads[id], Run(db, later).threads[id]);
  }

  lemma VersionNamesText(t: Thread, next: Thread, u: Thread)
    requires NumberedRevisions(t) && RowAppended(t, next) && KeepsRow(next, u, |t.ledger|)
    ensures NamesTextIff(t, u, |t.ledger|)
  {
    assert u.revisions[t.post.version - 1] == t.revisions[t.post.version - 1];
  }

  // ---------- Nothing unapproved is ever shown ----------

  /** Every creation and edit of post `id` in the run was asked where posting needs approval, or was refused. */
  predicate NeedsApprovalThroughout(commands: seq<Command>, id: Id) {
    forall c | c in commands && (c.CreatePost? || c.UpdatePost?) && c.id == id :: c.gate != Direct
  }

  predicate AllInRooms(db: Rows) {
    forall id | id in db.threads :: db.threads[id].post.room.Some?
  }

  lemma {:induction false} AllowedThroughout(db: Rows, commands: seq<Command>, id: Id)
    requires Inv(db) && AllInRooms(db) && NeedsApprovalThroughout(commands, id)
    requires id in db.threads ==> TextWasAllowed(db.threads[id])
    ensures id in Run(db, commands).threads ==> TextWasAllowed(Run(db, commands).threads[id])
    decreases |commands|
  {
    if commands != [] {
      var c, next := commands[0], Step(db, commands[0]);
      EveryStepIsGood(db, c);
      assert c in commands;
      assert Exempt(db, c) != Some(id);
      forall x | x in next.threads
        ensures next.threads[x].post.room.Some?
      {
        assert x in db.threads ==> next.threads[x] == db.threads[x] || Grows(db.threads[x], next.threads[x]);
      }
      AllowedThroughout(next, commands[1..], id);
    }
  }

  lemma ShownTextWasAllowed(db: Rows, id: Id)
    requires Inv(db) && id in db.threads && Shown(db.threads[id].post) && TextWasAllowed(db.threads[id])
    ensures var t := db.threads[id];
            exists j, k ::
              && 0 <= j < |t.reviews| && 0 <= k < |t.revisions|
              && t.reviews[j].decision == Allow && t.reviews[j].version == t.revisions[k].version
              && t.revisions[k].Records(t.post.published)
  {
    var t := db.threads[id];
    assert ThreadOk(id, t, db.answers, db.comments);
    var j: nat :| Allows(t, j);
    var k := t.reviews[j].version - 1;
    assert t.revisions[k].version == t.reviews[j].version;
  }

  /** Whatever readers are shown of such a post, some review allowed a revision with exactly that title and content. */
  lemma NothingUnapprovedIsShown(commands: seq<Command>, id: Id)
    requires NeedsApprovalThroughout(commands, id)
    requires id in Run(EMPTY, commands).threads && Shown(Run(EMPTY, commands).threads[id].post)
    ensures var t := Run(EMPTY, commands).threads[id];
            exists j, k ::
              && 0 <= j < |t.reviews| && 0 <= k < |t.revisions|
              && t.reviews[j].decision == Allow && t.reviews[j].version == t.revisions[k].version
              && t.revisions[k].title == t.post.published.title && t.revisions[k].content == t.post.published.content
  {
    AllowedThroughout(EMPTY, commands, id);
    RunExtends(EMPTY, commands);
    ShownTextWasAllowed(Run(EMPTY, commands), id);
  }
}
