/** What each successful command does, in terms of the request and of what readers see. */
module LifecycleEffects {
  import opened Wrappers
  import opened Content
  import opened Lifecycle
  import Discussions
  import ModerationReviews

  // ---------- Posting and editing ----------

  /** A new post says what was asked, in the author's name, and is shown unless the room wants approval first. */
  lemma CreateTakesEffect(db: Rows, c: Command)
    requires c.CreatePost? && Execute(db, c).Success?
    ensures c.id in Step(db, c).threads && c.user.id.Some?
    ensures var p := Step(db, c).threads[c.id].post;
            && p.published == c.body && p.draft.None? && p.kind == c.kind && p.room == Some(c.room) && p.author == c.user.id.value
            && p.moderation == Pending && p.status == Open && !p.deleted && !HasAcceptance(p)
            && (Shown(p) <==> c.gate == Direct)
            && Step(db, c).threads[c.id].revisions == [Revision(1, c.body.title, c.body.content, Semantic, p.author)]
  {
  }

  /** An edit that waits as a draft, and one that replaces the text at once. */
  predicate Waits(t: Thread, u: Thread) {
    u.post.draft.Some? && u.post.published == t.post.published && u.post.visibility == Visible
  }

  predicate Replaces(t: Thread, u: Thread) {
    u.post.draft.None? && !HasAcceptance(u.post)
  }

  /** The requested title and content are what the newest version says, whatever was pending before. */
  lemma EditSaysWhatWasAsked(db: Rows, c: Command)
    requires c.UpdatePost? && Execute(db, c).Success?
    ensures c.id in db.threads && c.id in Step(db, c).threads
    ensures var u, e := Step(db, c).threads[c.id].post.Latest(), c.edit;
            && (e.title.Some? ==> u.title == e.title.value)
            && (e.content.Some? ==> u.content == e.content.value)
            && (e.tags.Some? ==> u.tags == e.tags.value)
            && (e.media.Some? ==> u.media == e.media.value)
  {
  }

  /** A request that names only the anonymity the published text already has, while a draft differs in it. */
  predicate NamesOnlyPublishedAnonymity(p: Post, e: Discussions.Edit) {
    && p.draft.Some? && e.title.None? && e.content.None? && e.tags.None? && e.media.None?
    && e.anonymous == Some(p.published.anonymous) && p.draft.value.anonymous != p.published.anonymous
  }

  /** The requested anonymity takes effect too, unless the request names nothing else and only repeats the published one. */
  lemma EditSetsAnonymityIff(db: Rows, c: Command)
    requires c.UpdatePost? && Execute(db, c).Success? && c.edit.anonymous.Some?
    ensures c.id in db.threads && c.id in Step(db, c).threads
    ensures Step(db, c).threads[c.id].post.Latest().anonymous == c.edit.anonymous.value
       <==> !NamesOnlyPublishedAnonymity(db.threads[c.id].post, c.edit)
  {
  }

  /** What an edit starts from: the draft if there is one, except that a hidden post starts from its published text again. */
  function EditBase(p: Post): Body {
    if p.draft.Some? && p.visibility != Visible then p.published else p.Latest()
  }

  /** What the request does not mention stays as it was, or the edit changes nothing at all. */
  lemma EditKeepsTheRest(db: Rows, c: Command)
    requires c.UpdatePost? && Execute(db, c).Success?
    ensures c.id in db.threads && c.id in Step(db, c).threads
    ensures var t, u, e := db.threads[c.id], Step(db, c).threads[c.id], c.edit;
            u == t || (
              && (e.title.None? ==> u.post.Latest().title == EditBase(t.post).title)
              && (e.content.None? ==> u.post.Latest().content == EditBase(t.post).content)
              && (e.anonymous.None? ==> u.post.Latest().anonymous == EditBase(t.post).anonymous)
              && (e.tags.None? ==> u.post.Latest().tags == EditBase(t.post).tags)
              && (e.media.None? ==> u.post.Latest().media == EditBase(t.post).media))
  {
  }

  /** A changing edit makes one new version by the editor, to be reviewed; it waits exactly if the post is shown and the
      room wants approval or a draft is pending already, and otherwise replaces the text, shown exactly if it was and may be. */
  lemma EditTakesEffect(db: Rows, c: Command)
    requires c.UpdatePost? && Execute(db, c).Success?
    ensures c.id in db.threads && c.id in Step(db, c).threads && c.user.id.Some?
    ensures var t, u := db.threads[c.id], Step(db, c).threads[c.id];
            var approval := t.post.room.Some? && c.gate == NeedsApproval;
            u == t || (
              && u.post.version == t.post.version + 1 && u.post.moderation == Pending && u.post.note == ""
              && |u.revisions| == |t.revisions| + 1
              && u.revisions[|t.revisions|].editor == c.user.id.value
              && u.revisions[|t.revisions|].kind == c.edit.kind.GetOr(Semantic)
              && u.revisions[|t.revisions|].Records(u.post.Latest())
              && (if t.post.visibility == Visible && (approval || t.post.draft.Some?) then Waits(t, u)
                  else Replaces(t, u) && u.post.visibility == if t.post.visibility == Visible && !approval then Visible else Held))
  {
  }

  /** A waiting edit touches nothing readers see; one that replaces the text opens the question if something was accepted,
      and otherwise leaves the status. Room, author, kind and the reviews stay. */
  lemma EditLeavesStatus(db: Rows, c: Command)
    requires c.UpdatePost? && Execute(db, c).Success?
    ensures c.id in db.threads && c.id in Step(db, c).threads
    ensures var t, u := db.threads[c.id], Step(db, c).threads[c.id];
            && u.reviews == t.reviews && !u.post.deleted
            && u.post.room == t.post.room && u.post.author == t.post.author && u.post.kind == t.post.kind
            && (u.post.draft.Some? || u == t ==>
                  u.post.status == t.post.status && u.post.acceptedAnswer == t.post.acceptedAnswer
                  && u.post.acceptedComment == t.post.acceptedComment && u.ledger == t.ledger)
            && (u.post.draft.None? && u != t ==> u.post.status == if HasAcceptance(t.post) then Open else t.post.status)
  {
  }

  /** An edit makes a new version exactly if it names tags, media, something the published text says differently, or the
      title or content of a post with a draft; otherwise nothing happens. */
  lemma EditMakesVersionIff(db: Rows, c: Command)
    requires c.UpdatePost? && Execute(db, c).Success?
    ensures c.id in db.threads && c.id in Step(db, c).threads
    ensures var t, u, e := db.threads[c.id], Step(db, c).threads[c.id], c.edit;
            && (u == t <==>
                  && e.tags.None? && e.media.None?
                  && (e.title == None || (e.title == Some(t.post.published.title) && t.post.draft.None?))
                  && (e.content == None || (e.content == Some(t.post.published.content) && t.post.draft.None?))
                  && (e.anonymous == None || e.anonymous == Some(t.post.published.anonymous)))
            && Step(db, c).answers == db.answers && Step(db, c).comments == db.comments
  {
  }

  // ---------- Reviewing ----------

  /** Approving shows exactly the text whose content the verdict repeats. */
  lemma AllowTakesEffect(db: Rows, c: Command)
    requires c.ReviewPost? && Execute(db, c).Success? && c.verdict.decision == Allow
    ensures c.id in db.threads && c.id in Step(db, c).threads
    ensures var t, u := db.threads[c.id].post, Step(db, c).threads[c.id].post;
            && u.moderation == Approved && Shown(u)
            && u.published == (if t.moderation == Pending then t.Latest() else t.published)
            && u.published.content == c.verdict.expectedContent
            && u.draft == (if t.moderation == Pending then None else t.draft)
            && (HasAcceptance(u) <==> HasAcceptance(t) && !(t.moderation == Pending && t.draft.Some?))
  {
  }

  /** Any other decision hides the post, except that a rejected draft of a shown post leaves the post as it was. */
  lemma RejectionTakesEffect(db: Rows, c: Command)
    requires c.ReviewPost? && Execute(db, c).Success? && c.verdict.decision != Allow
    ensures c.id in db.threads && c.id in Step(db, c).threads
    ensures var t, u := db.threads[c.id].post, Step(db, c).threads[c.id].post;
            && u.published == t.published && u.draft == t.draft
            && (u.moderation == Rejected && u.visibility == Hidden && !HasAcceptance(u)
                <==> !(t.moderation == Pending && t.draft.Some? && t.visibility == Visible))
            && (t.moderation == Pending && t.draft.Some? && t.visibility == Visible ==>
                  u == t.(moderation := Approved, note := c.verdict.note))
  {
  }

  lemma ReviewIsRecorded(db: Rows, c: Command)
    requires c.ReviewPost? && Execute(db, c).Success?
    ensures c.id in db.threads && c.id in Step(db, c).threads && c.user.id.Some?
    ensures var t, u := db.threads[c.id], Step(db, c).threads[c.id];
            && u.reviews == t.reviews + [Review(t.post.version, c.verdict.decision, c.verdict.note, c.user.id.value)]
            && u.revisions == t.revisions && u.post.note == c.verdict.note
  {
  }

  /** A review that ends what was accepted opens a solved question; a closed one stays closed. Nothing else changes. */
  lemma ReviewLeavesStatus(db: Rows, c: Command)
    requires Inv(db) && c.ReviewPost? && Execute(db, c).Success?
    ensures c.id in db.threads && c.id in Step(db, c).threads
    ensures var t, u := db.threads[c.id].post, Step(db, c).threads[c.id].post;
            && u.status == (if t.status == Solved && !HasAcceptance(u) then Open else t.status)
            && u == t.(published := u.published, draft := u.draft, moderation := u.moderation, visibility := u.visibility,
                       note := u.note, status := u.status, acceptedAnswer := u.acceptedAnswer, acceptedComment := u.acceptedComment)
            && (HasAcceptance(u) ==> u.acceptedAnswer == t.acceptedAnswer && u.acceptedComment == t.acceptedComment
                                     && Step(db, c).threads[c.id].ledger == db.threads[c.id].ledger)
  {
    assert ThreadOk(c.id, db.threads[c.id], db.answers, db.comments);
  }

  /** Some review row from `from` on allows. */
  predicate AllowedSince(t: Thread, from: nat) {
    exists j | from <= j < |t.reviews| :: t.reviews[j].decision == Allow
  }

  lemma ShowingNeedsReview(db: Rows, c: Command, id: Id)
    requires Inv(db) && id in db.threads && !Shown(db.threads[id].post)
    ensures id in Step(db, c).threads
    ensures Shown(Step(db, c).threads[id].post) ==>
              c.ReviewPost? && c.id == id && Execute(db, c).Success? && c.verdict.decision == Allow
  {
    assert ThreadOk(id, db.threads[id], db.answers, db.comments);
    if OnPost(c) {
      PostCommandKeepsHidden(db, c, id);
    } else {
      ReplyCommandKeepsHidden(db, c, id);
    }
  }

  lemma PostCommandKeepsHidden(db: Rows, c: Command, id: Id)
    requires OnPost(c) && id in db.threads && !Shown(db.threads[id].post) && CoherentModeration(db.threads[id].post)
    ensures id in Step(db, c).threads
    ensures Shown(Step(db, c).threads[id].post) ==>
              c.ReviewPost? && c.id == id && Execute(db, c).Success? && c.verdict.decision == Allow
  {
  }

  lemma ReplyCommandKeepsHidden(db: Rows, c: Command, id: Id)
    requires !OnPost(c) && id in db.threads && !Shown(db.threads[id].post)
    ensures id in Step(db, c).threads && !Shown(Step(db, c).threads[id].post)
  {
  }

  /** What is held or hidden is shown again only after a review that allows it. */
  lemma {:induction false} HiddenUntilAllowed(db: Rows, commands: seq<Command>, id: Id)
    requires Inv(db) && id in db.threads && !Shown(db.threads[id].post)
    ensures id in Run(db, commands).threads && db.threads[id].reviews <= Run(db, commands).threads[id].reviews
    ensures Shown(Run(db, commands).threads[id].post) ==> AllowedSince(Run(db, commands).threads[id], |db.threads[id].reviews|)
    decreases |commands|
  {
    if commands != [] {
      var c, next := commands[0], Step(db, commands[0]);
      StepOnlyAddsReviews(db, c, id);
      ShowingNeedsReview(db, c, id);
      if Shown(next.threads[id].post) {
        ReviewIsRecorded(db, c);
        ReviewsRemain(next, commands[1..], id);
        assert Run(db, commands).threads[id].reviews[|db.threads[id].reviews|].decision == Allow;
      } else {
        HiddenUntilAllowed(next, commands[1..], id);
      }
    }
  }

  lemma StepOnlyAddsReviews(db: Rows, c: Command, id: Id)
    requires Inv(db) && id in db.threads
    ensures Inv(Step(db, c)) && id in Step(db, c).threads && db.threads[id].reviews <= Step(db, c).threads[id].reviews
  {
    EveryStepIsGood(db, c);
    assert Step(db, c).threads[id] == db.threads[id] || Grows(db.threads[id], Step(db, c).threads[id]);
  }

  lemma {:induction false} ReviewsRemain(db: Rows, commands: seq<Command>, id: Id)
    requires Inv(db) && id in db.threads
    ensures id in Run(db, commands).threads && db.threads[id].reviews <= Run(db, commands).threads[id].reviews
    decreases |commands|
  {
    if commands != [] {
      StepOnlyAddsReviews(db, commands[0], id);
      ReviewsRemain(Step(db, commands[0]), commands[1..], id);
    }
  }

  // ---------- Accepting, status and deletion ----------

  lemma AcceptCommentTakesEffect(db: Rows, c: Command)
    requires c.AcceptComment? && Execute(db, c).Success?
    ensures c.id in db.threads && c.id in Step(db, c).threads
    ensures var t, u := db.threads[c.id], Step(db, c).threads[c.id];
            && u == t.(post := t.post.(acceptedComment := Some(c.comment), status := u.post.status))
            && (u == t || u.post.status == Solved)
  {
  }

  /** The accepted answer is the requested one, alone; the ledger names both versions and the actor, all older rows are revoked. */
  lemma AcceptAnswerTakesEffect(db: Rows, c: Command)
    requires Inv(db) && c.AcceptAnswer? && Execute(db, c).Success?
    ensures c.id in db.threads && c.id in Step(db, c).threads && c.answer in db.answers && c.user.id.Some?
    ensures var t, u := db.threads[c.id], Step(db, c).threads[c.id];
            && u.post == t.post.(acceptedAnswer := Some(c.answer), acceptedComment := None, status := Solved)
            && u.revisions == t.revisions && u.reviews == t.reviews && |u.ledger| == |t.ledger| + 1
            && u.ledger[|t.ledger|] == Acceptance(c.answer, t.post.version, db.answers[c.answer].version, c.user.id.value, false)
            && forall i | 0 <= i < |t.ledger| :: u.ledger[i] == t.ledger[i].(revoked := true)
  {
    assert ThreadOk(c.id, db.threads[c.id], db.answers, db.comments);
  }

  /** No answer is accepted afterwards; the question opens exactly if one was, and a comment stays accepted. */
  lemma RevokeTakesEffect(db: Rows, c: Command)
    requires Inv(db) && c.RevokeAnswer? && Execute(db, c).Success?
    ensures c.id in db.threads && c.id in Step(db, c).threads
    ensures var t, u := db.threads[c.id], Step(db, c).threads[c.id];
            && u.post == t.post.(acceptedAnswer := None, status := if t.post.acceptedAnswer.Some? then Open else t.post.status)
            && u.revisions == t.revisions && u.reviews == t.reviews
            && |u.ledger| == |t.ledger| && forall i | 0 <= i < |t.ledger| :: u.ledger[i] == t.ledger[i].(revoked := true)
  {
    assert ThreadOk(c.id, db.threads[c.id], db.answers, db.comments);
  }

  lemma StatusTakesEffect(db: Rows, c: Command)
    requires (c.SetStatus? || c.UnacceptComment?) && Execute(db, c).Success?
    ensures c.id in db.threads && c.id in Step(db, c).threads
    ensures var t, u := db.threads[c.id].post, Step(db, c).threads[c.id].post;
            if c.UnacceptComment? then u == t.(acceptedComment := None, status := Open)
            else
              && (c.status == Closed ==> u == t.(status := Closed))
              && (c.status == Open ==> u == t.(status := if t.acceptedComment.Some? then Solved else Open))
  {
  }

  /** A deleted post is gone for good: it never changes again, and no command about it succeeds. */
  lemma {:induction false} DeletionIsFinal(db: Rows, remove: Command, later: seq<Command>)
    requires Inv(db) && remove.RemovePost? && Execute(db, remove).Success?
    ensures remove.id in db.threads && remove.id in Run(Step(db, remove), later).threads
    ensures Run(Step(db, remove), later).threads[remove.id] == db.threads[remove.id].(post := db.threads[remove.id].post.(deleted := true))
  {
    EveryStepIsGood(db, remove);
    RemoveTakesEffect(db, remove);
    DeletedStays(Step(db, remove), later, remove.id);
  }

  lemma RemoveTakesEffect(db: Rows, c: Command)
    requires c.RemovePost? && Execute(db, c).Success?
    ensures c.id in db.threads && c.id in Step(db, c).threads
    ensures Step(db, c).threads[c.id] == db.threads[c.id].(post := db.threads[c.id].post.(deleted := true))
  {
  }

  lemma {:induction false} DeletedStays(db: Rows, commands: seq<Command>, id: Id)
    requires Inv(db) && id in db.threads && db.threads[id].post.deleted
    ensures id in Run(db, commands).threads && Run(db, commands).threads[id] == db.threads[id]
    decreases |commands|
  {
    if commands != [] {
      EveryStepIsGood(db, commands[0]);
      DeletedStays(Step(db, commands[0]), commands[1..], id);
    }
  }

  // ---------- Answers and comments ----------

  /** Replies say what was asked in the name of whoever asked, and are changed and deleted as asked. */
  lemma ReplyTakesEffect(db: Rows, c: Command)
    requires Execute(db, c).Success? && c.user.id.Some?
    ensures c.CreateAnswer? ==>
              && c.id in Step(db, c).answers
              && Step(db, c).answers[c.id]
                 == Answer(c.discussion, c.user.id.value, c.content, 1, [AnswerRevision(1, c.content, Semantic, c.user.id.value)], false)
    ensures c.CreateComment? ==>
              && c.id in Step(db, c).comments
              && Step(db, c).comments[c.id] == Comment(c.discussion, c.user.id.value, c.content, c.parent, false)
    ensures c.UpdateAnswer? ==>
              && c.id in db.answers && c.id in Step(db, c).answers
              && var a, b := db.answers[c.id], Step(db, c).answers[c.id];
                 && b.content == c.content && b.author == a.author && b.discussion == a.discussion && !b.deleted
                 && (if a.content == c.content then b == a
                     else b.version == a.version + 1
                          && b.revisions == a.revisions + [AnswerRevision(b.version, c.content, c.revisionKind, c.user.id.value)])
    ensures c.UpdateComment? ==>
              && c.id in db.comments && c.id in Step(db, c).comments
              && Step(db, c).comments[c.id] == db.comments[c.id].(content := c.newContent.GetOr(db.comments[c.id].content))
    ensures c.RemoveAnswer? ==> c.id in Step(db, c).answers && Step(db, c).answers[c.id].deleted
    ensures c.RemoveComment? ==> c.id in Step(db, c).comments && Step(db, c).comments[c.id].deleted
  {
  }

  /** Which acceptance a change of a reply ends: that of the reworded or deleted reply itself, and only that. */
  lemma ReplyEndsItsAcceptance(db: Rows, c: Command, d: Id)
    requires Execute(db, c).Success? && (c.UpdateAnswer? || c.RemoveAnswer? || c.UpdateComment? || c.RemoveComment?)
    requires if c.UpdateAnswer? || c.RemoveAnswer? then c.id in db.answers && d == db.answers[c.id].discussion
             else c.id in db.comments && d == db.comments[c.id].discussion
    ensures d in db.threads && d in Step(db, c).threads
    ensures var t, u := db.threads[d].post, Step(db, c).threads[d].post;
            var changes := c.RemoveAnswer? || c.RemoveComment?
                           || (c.UpdateAnswer? && db.answers[c.id].content != c.content && c.revisionKind == Semantic)
                           || (c.UpdateComment? && c.newContent.GetOr(db.comments[c.id].content) != db.comments[c.id].content);
            var answer := c.UpdateAnswer? || c.RemoveAnswer?;
            var ends := changes && (if answer then t.acceptedAnswer else t.acceptedComment) == Some(c.id);
            u == (if !ends then t
                  else if answer then t.(acceptedAnswer := None, status := Open)
                  else t.(acceptedComment := None, status := Open))
  {
  }
}
