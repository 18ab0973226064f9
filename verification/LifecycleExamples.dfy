/** Runs from the empty database in which the code does not do what is said about it. */
module LifecycleExamples {
  import opened Wrappers
  import opened Content
  import opened Lifecycle
  import Discussions
  import ModerationReviews
  import Answers

  lemma {:induction false} RunAppend(db: Rows, xs: seq<Command>, ys: seq<Command>)
    ensures Run(db, xs + ys) == Run(Run(db, xs), ys)
    decreases |xs|
  {
    if xs == [] {
      assert xs + ys == ys;
    } else {
      assert (xs + ys)[0] == xs[0] && (xs + ys)[1..] == xs[1..] + ys;
      RunAppend(Step(db, xs[0]), xs[1..], ys);
    }
  }

  lemma RunOneMore(commands: seq<Command>, c: Command)
    ensures Run(EMPTY, commands + [c]) == Step(Run(EMPTY, commands), c)
  {
    RunAppend(EMPTY, commands, [c]);
  }

  // ---------- A question with an accepted answer ----------

  const ASKER := User(Some(1), Member)
  const HELPER := User(Some(2), Member)
  const MODERATOR := User(Some(3), Moderator)

  const QUESTION := Body("title", "content", false, {}, [])
  const ASKED := Discussions.Created(QUESTION, Question, 1, 0, Direct)
  const ANSWERED := Answer(0, 2, "answer", 1, [AnswerRevision(1, "answer", Semantic, 2)], false)
  const VERDICT := ModerationReviews.Verdict(None, Allow, 1, "content", "")
  const ALLOWED := ModerationReviews.Reviewed(ASKED, VERDICT, 3)

  const ASK := CreatePost(0, ASKER, QUESTION, Question, 0, Discussions.Academic(true, None, None), Direct, true, {})
  const REPLY := CreateAnswer(0, 0, HELPER, "answer", Direct)
  const ALLOW := ReviewPost(0, MODERATOR, VERDICT, {}, true, {})
  const ACCEPT := AcceptAnswer(0, ASKER, 0, 1, 1)

  function Holding(t: Thread): Rows {
    Rows(map[0 := t], map[0 := ANSWERED], map[])
  }

  lemma AskedAndAnswered()
    ensures Run(EMPTY, [ASK] + [REPLY]) == Holding(ASKED)
  {
    RunOneMore([], ASK);
    assert [] + [ASK] == [ASK];
    assert Step(EMPTY, ASK) == Rows(map[0 := ASKED], map[], map[]);
    RunOneMore([ASK], REPLY);
    assert Step(Rows(map[0 := ASKED], map[], map[]), REPLY) == Holding(ASKED);
  }

  /** A question nobody has approved yet can have an accepted answer. */
  lemma AcceptedWhilePending() returns (commands: seq<Command>)
    ensures var db := Run(EMPTY, commands);
            0 in db.threads && db.threads[0].post.moderation == Pending && db.threads[0].post.acceptedAnswer == Some(0)
  {
    commands := [ASK] + [REPLY] + [ACCEPT];
    AskedAndAnswered();
    RunOneMore([ASK] + [REPLY], ACCEPT);
    assert Step(Holding(ASKED), ACCEPT) == Holding(Answers.Accepted(ASKED, 0, ANSWERED, 1));
  }

  const ACCEPTED := Answers.Accepted(ALLOWED, 0, ANSWERED, 1)

  lemma ApprovedAndAccepted()
    ensures Run(EMPTY, [ASK] + [REPLY] + [ALLOW] + [ACCEPT]) == Holding(ACCEPTED)
  {
    AskedAndAnswered();
    RunOneMore([ASK] + [REPLY], ALLOW);
    assert Step(Holding(ASKED), ALLOW) == Holding(ALLOWED);
    RunOneMore([ASK] + [REPLY] + [ALLOW], ACCEPT);
    AcceptAllowed();
  }

  lemma AcceptAllowed()
    ensures Step(Holding(ALLOWED), ACCEPT) == Holding(ACCEPTED)
  {
  }

  const REWRITE := Discussions.Edit(Some("new title"), None, None, None, None, None, None)
  const EDIT := UpdatePost(0, ASKER, REWRITE, NeedsApproval, true, {})

  /** An approved question with an accepted answer is edited where edits need approval: the acceptance stays, and the
      question is no longer approved. */
  lemma EditedButStillAccepted() returns (commands: seq<Command>)
    ensures var db := Run(EMPTY, commands);
            && 0 in db.threads && db.threads[0].post.acceptedAnswer == Some(0)
            && db.threads[0].post.draft.Some? && db.threads[0].post.moderation == Pending
            && commands[|commands| - 1] == EDIT && Execute(Run(EMPTY, commands[..|commands| - 1]), EDIT).Success?
  {
    var before := [ASK] + [REPLY] + [ALLOW] + [ACCEPT];
    commands := before + [EDIT];
    ApprovedAndAccepted();
    RunOneMore(before, EDIT);
    assert commands[..|commands| - 1] == before;
    assert Step(Holding(ACCEPTED), EDIT) == Holding(Discussions.Edited(ACCEPTED, REWRITE, 1, true));
  }

  const CLOSE := SetStatus(0, MODERATOR, Closed)
  const REOPEN := SetStatus(0, MODERATOR, Open)

  /** A question with an accepted answer is closed and reopened: it is open with its answer still accepted. */
  lemma ReopenedButStillAccepted() returns (commands: seq<Command>)
    ensures var db := Run(EMPTY, commands);
            0 in db.threads && db.threads[0].post.acceptedAnswer == Some(0) && db.threads[0].post.status == Open
  {
    var before := [ASK] + [REPLY] + [ALLOW] + [ACCEPT];
    commands := before + [CLOSE] + [REOPEN];
    ApprovedAndAccepted();
    RunOneMore(before, CLOSE);
    var closed := ACCEPTED.(post := ACCEPTED.post.(status := Closed));
    assert Step(Holding(ACCEPTED), CLOSE) == Holding(closed);
    RunOneMore(before + [CLOSE], REOPEN);
    assert Step(Holding(closed), REOPEN) == Holding(closed.(post := closed.post.(status := Open)));
  }

  const UNACCEPT := UnacceptComment(0, ASKER)

  /** Asking to unaccept a comment, though only an answer is accepted, opens the question and leaves the answer accepted. */
  lemma UnacceptedButStillAccepted() returns (commands: seq<Command>)
    ensures var db := Run(EMPTY, commands);
            0 in db.threads && db.threads[0].post.acceptedAnswer == Some(0) && db.threads[0].post.status == Open
  {
    var before := [ASK] + [REPLY] + [ALLOW] + [ACCEPT];
    commands := before + [UNACCEPT];
    ApprovedAndAccepted();
    RunOneMore(before, UNACCEPT);
    assert Step(Holding(ACCEPTED), UNACCEPT) == Holding(ACCEPTED.(post := ACCEPTED.post.(status := Open)));
  }

  const DRAFTED := Discussions.Edited(ALLOWED, REWRITE, 1, true)
  const ACCEPT_TWO := AcceptAnswer(0, ASKER, 0, 2, 1)

  /** An answer accepted while a draft is pending: the ledger names the draft, readers are shown the text before it. */
  lemma LedgerNamesDraft() returns (commands: seq<Command>)
    ensures var db := Run(EMPTY, commands);
            && 0 in db.threads && |db.threads[0].ledger| == 1
            && var t := db.threads[0];
               && !t.ledger[0].revoked && t.ledger[0].questionVersion == 2 <= |t.revisions|
               && Shown(t.post) && !t.revisions[1].Records(t.post.published) && t.revisions[0].Records(t.post.published)
  {
    var before := [ASK] + [REPLY] + [ALLOW];
    commands := before + [EDIT] + [ACCEPT_TWO];
    AskedAndAnswered();
    RunOneMore([ASK] + [REPLY], ALLOW);
    assert Step(Holding(ASKED), ALLOW) == Holding(ALLOWED);
    RunOneMore(before, EDIT);
    assert Step(Holding(ALLOWED), EDIT) == Holding(DRAFTED);
    RunOneMore(before + [EDIT], ACCEPT_TWO);
    AcceptDrafted();
  }

  lemma AcceptDrafted()
    ensures Step(Holding(DRAFTED), ACCEPT_TWO) == Holding(Answers.Accepted(DRAFTED, 0, ANSWERED, 1))
  {
  }
}
