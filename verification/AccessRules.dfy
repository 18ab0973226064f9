/** Who may do what to a post, an answer or a comment, and when: one table for all fifteen commands. */
module AccessRules {
  import opened Wrappers
  import opened Content
  import opened Lifecycle
  import Discussions
  import ModerationReviews

  // ---------- What a command is about ----------

  predicate LiveAnswer(db: Rows, a: Id) {
    a in db.answers && !db.answers[a].deleted
  }

  predicate LiveComment(db: Rows, c: Id) {
    c in db.comments && !db.comments[c].deleted
  }

  /** The post a command concerns: named in the request, or the one its answer or comment belongs to. */
  function PostAbout(db: Rows, c: Command): Option<Id> {
    match c
    case CreatePost(_, _, _, _, _, _, _, _, _) => None
    case UpdatePost(id, _, _, _, _, _) => Some(id)
    case RemovePost(id, _) => Some(id)
    case AcceptComment(id, _, _) => Some(id)
    case UnacceptComment(id, _) => Some(id)
    case SetStatus(id, _, _) => Some(id)
    case ReviewPost(id, _, _, _, _, _) => Some(id)
    case CreateAnswer(_, d, _, _, _) => Some(d)
    case UpdateAnswer(a, _, _, _, _) => if LiveAnswer(db, a) then Some(db.answers[a].discussion) else None
    case RemoveAnswer(a, _) => if LiveAnswer(db, a) then Some(db.answers[a].discussion) else None
    case AcceptAnswer(d, _, _, _, _) => Some(d)
    case RevokeAnswer(d, _) => Some(d)
    case CreateComment(_, d, _, _, _, _) => Some(d)
    case UpdateComment(m, _, _) => if LiveComment(db, m) then Some(db.comments[m].discussion) else None
    case RemoveComment(m, _) => if LiveComment(db, m) then Some(db.comments[m].discussion) else None
  }

  /** Everything but a new post needs a live post. */
  predicate HasLivePost(db: Rows, c: Command) {
    c.CreatePost? || (PostAbout(db, c).Some? && PostAbout(db, c).value in db.threads && !db.threads[PostAbout(db, c).value].post.deleted)
  }

  // ---------- The table ----------

  predicate AuthorOr(user: User, author: Id, others: bool) {
    user.id == Some(author) || (user.id.Some? && others)
  }

  /** The actor: moderators and admins manage all content, authors their own; acceptance is for the question's author,
      and for answers for admins too; status is for moderators and admins; review also for managers of the room. */
  predicate ActorMay(db: Rows, c: Command)
    requires HasLivePost(db, c)
  {
    var staff := c.user.role == Moderator || c.user.role == Admin;
    match c
    case CreatePost(_, _, _, _, _, _, _, _, _) => c.user.id.Some?
    case CreateAnswer(_, _, _, _, _) => c.user.id.Some?
    case CreateComment(_, _, _, _, _, _) => c.user.id.Some?
    case UpdatePost(id, _, _, _, _, _) => AuthorOr(c.user, db.threads[id].post.author, staff)
    case RemovePost(id, _) => AuthorOr(c.user, db.threads[id].post.author, staff)
    case UpdateAnswer(a, _, _, _, _) => AuthorOr(c.user, db.answers[a].author, staff)
    case RemoveAnswer(a, _) => AuthorOr(c.user, db.answers[a].author, staff)
    case UpdateComment(m, _, _) => AuthorOr(c.user, db.comments[m].author, staff)
    case RemoveComment(m, _) => AuthorOr(c.user, db.comments[m].author, staff)
    case AcceptComment(id, _, _) => c.user.id == Some(db.threads[id].post.author)
    case UnacceptComment(id, _) => c.user.id == Some(db.threads[id].post.author)
    case AcceptAnswer(id, _, _, _, _) => AuthorOr(c.user, db.threads[id].post.author, c.user.role == Admin)
    case RevokeAnswer(id, _) => AuthorOr(c.user, db.threads[id].post.author, c.user.role == Admin)
    case SetStatus(_, _, _) => c.user.id.Some? && staff
    case ReviewPost(id, _, _, rooms, _, _) =>
      c.user.id.Some? && (staff || (db.threads[id].post.room.Some? && db.threads[id].post.room.value in rooms))
  }

  predicate WorksOnClosed(c: Command) {
    c.RemovePost? || c.SetStatus? || c.ReviewPost? || c.RevokeAnswer?
  }

  predicate NeedsShown(c: Command) {
    c.AcceptComment? || c.AcceptAnswer? || c.CreateAnswer? || c.CreateComment?
  }

  predicate NeedsQuestion(c: Command) {
    c.AcceptComment? || c.UnacceptComment? || c.AcceptAnswer? || c.CreateAnswer?
  }

  /** The state of the post. */
  predicate PostAdmits(p: Post, c: Command) {
    && (p.status == Closed ==> WorksOnClosed(c))
    && (NeedsShown(c) ==> p.visibility == Visible && p.moderation != Rejected)
    && (NeedsQuestion(c) ==> p.kind == Question)
  }

  /** Writing in a room needs its consent. */
  predicate RoomLets(db: Rows, c: Command)
    requires HasLivePost(db, c)
  {
    match c
    case CreatePost(_, _, _, _, _, _, gate, _, _) => gate != Refused
    case UpdatePost(id, _, _, gate, _, _) => db.threads[id].post.room.Some? ==> gate != Refused
    case CreateAnswer(_, d, _, _, gate) => db.threads[d].post.room.Some? ==> gate != Refused
    case CreateComment(_, d, _, _, _, gate) => db.threads[d].post.room.Some? ==> gate != Refused
    case _ => true
  }

  /** Whoever writes over something has seen its current state; a pending draft cannot be edited blindly. */
  predicate UpToDate(db: Rows, c: Command)
    requires HasLivePost(db, c)
  {
    match c
    case UpdatePost(id, _, edit, _, _, _) =>
      var p := db.threads[id].post;
      if edit.expectedVersion.Some? then edit.expectedVersion.value == p.version else p.draft.None?
    case ReviewPost(id, _, v, _, _, _) =>
      var p := db.threads[id].post;
      && p.version == v.expectedVersion && p.moderation == v.expectedModeration.GetOr(Pending)
      && (if p.moderation == Pending then p.Latest() else p.published).content == v.expectedContent
    case UpdateAnswer(a, _, _, version, _) => db.answers[a].version == version
    case AcceptAnswer(id, _, a, q, v) => db.threads[id].post.version == q && LiveAnswer(db, a) && db.answers[a].version == v
    case _ => true
  }

  /** The selected course is the one the room is bound to, or one of its major if the room is bound to no course. */
  predicate SuitsRoom(a: Discussions.Academic) {
    match (a.selected, a.binding)
    case (Some(course), Some(binding)) =>
      && course.major == binding.major
      && (binding.curriculumCourse == None || binding.curriculumCourse == Some(course.curriculumCourse))
    case _ => true
  }

  /** What the request itself contains. */
  predicate Sound(db: Rows, c: Command)
    requires HasLivePost(db, c)
  {
    match c
    case CreatePost(id, _, body, _, _, academic, _, media, tags) =>
      media && academic.resolved && SuitsRoom(academic) && body.tags <= tags && id !in db.threads
    case UpdatePost(_, _, edit, _, media, tags) => media && edit.tags.GetOr({}) <= tags
    case SetStatus(_, _, status) => status != Solved
    case ReviewPost(id, _, v, _, media, tags) =>
      var p := db.threads[id].post;
      && (v.decision != Allow ==> v.note != "")
      && (v.decision == Allow ==> media && (p.moderation == Pending && p.draft.Some? ==> p.draft.value.tags <= tags))
    case AcceptComment(id, _, m) =>
      LiveComment(db, m) && db.comments[m].discussion == id && db.comments[m].parent.None? && db.comments[m].author != db.threads[id].post.author
    case AcceptAnswer(id, user, a, _, _) =>
      LiveAnswer(db, a) && db.answers[a].discussion == id && user.id != Some(db.answers[a].author)
    case CreateAnswer(a, _, _, _, _) => a !in db.answers
    case CreateComment(m, d, _, _, parent, _) =>
      m !in db.comments && (parent.Some? ==> LiveComment(db, parent.value) && db.comments[parent.value].discussion == d)
    case _ => true
  }

  predicate Permitted(db: Rows, c: Command) {
    && HasLivePost(db, c) && ActorMay(db, c)
    && (PostAbout(db, c).Some? ==> PostAdmits(db.threads[PostAbout(db, c).value].post, c))
    && RoomLets(db, c) && UpToDate(db, c) && Sound(db, c)
  }

  lemma PostCommandSucceedsIff(db: Rows, c: Command)
    requires OnPost(c)
    ensures Execute(db, c).Success? <==> Permitted(db, c)
  {
  }

  lemma ReplyCommandSucceedsIff(db: Rows, c: Command)
    requires !OnPost(c)
    ensures Execute(db, c).Success? <==> Permitted(db, c)
  {
  }

  /** A command succeeds if and only if the table permits it. */
  lemma SucceedsIffPermitted(db: Rows, c: Command)
    ensures Execute(db, c).Success? <==> Permitted(db, c)
  {
    if OnPost(c) {
      PostCommandSucceedsIff(db, c);
    } else {
      ReplyCommandSucceedsIff(db, c);
    }
  }

  /** What each error of a refused command means. Some checks come before the post is read. */
  predicate Justifies(db: Rows, c: Command, error: Error) {
    match error
    case Unauthorized => c.user.id.None?
    case NotFound =>
      && (!HasLivePost(db, c) || (c.AcceptComment? && !LiveComment(db, c.comment)))
      && (c.SetStatus? || c.ReviewPost? ==> c.user.role != Member || (c.ReviewPost? && c.managedRooms != {}))
    case Forbidden =>
      if HasLivePost(db, c) then !ActorMay(db, c) || !RoomLets(db, c)
      else (c.SetStatus? || c.ReviewPost?) && c.user.role == Member
    case Conflict =>
      && HasLivePost(db, c) && ActorMay(db, c)
      && (if c.CreatePost? || c.CreateAnswer? || c.CreateComment? then !Sound(db, c) else !UpToDate(db, c))
    case BadRequest =>
      HasLivePost(db, c) ==>
        !Sound(db, c) || (PostAbout(db, c).Some? && !PostAdmits(db.threads[PostAbout(db, c).value].post, c))
  }

  /** The error of a refused command names a rule it breaks. Whoever is not signed in learns nothing else, and whoever may
      moderate nothing does not learn from the moderators' commands whether a post exists. */
  lemma RefusalNamesReason(db: Rows, c: Command)
    requires Execute(db, c).Failure?
    ensures Justifies(db, c, Execute(db, c).error)
    ensures c.user.id.None? ==> Execute(db, c).error == Unauthorized
  {
    if OnPost(c) {
      PostRefusalNamesReason(db, c);
    } else {
      ReplyRefusalNamesReason(db, c);
    }
  }

  lemma PostRefusalNamesReason(db: Rows, c: Command)
    requires OnPost(c) && Execute(db, c).Failure?
    ensures Justifies(db, c, Execute(db, c).error) && (c.user.id.None? ==> Execute(db, c).error == Unauthorized)
  {
  }

  lemma ReplyRefusalNamesReason(db: Rows, c: Command)
    requires !OnPost(c) && Execute(db, c).Failure?
    ensures Justifies(db, c, Execute(db, c).error) && (c.user.id.None? ==> Execute(db, c).error == Unauthorized)
  {
  }

  /** A command leaves alone every post, answer and comment it is not about. */
  lemma OthersStay(db: Rows, c: Command, p: Id, a: Id, m: Id)
    requires c.CreatePost? || PostAbout(db, c) != Some(p)
    ensures p in db.threads ==> p in Step(db, c).threads && Step(db, c).threads[p] == db.threads[p]
    ensures a in db.answers && !((c.UpdateAnswer? || c.RemoveAnswer?) && c.id == a) ==>
              a in Step(db, c).answers && Step(db, c).answers[a] == db.answers[a]
    ensures m in db.comments && !((c.UpdateComment? || c.RemoveComment?) && c.id == m) ==>
              m in Step(db, c).comments && Step(db, c).comments[m] == db.comments[m]
  {
    if OnPost(c) {
      PostCommandsKeepReplies(db, c);
    } else {
      ReplyCommandsKeepPosts(db, c, p);
      ReplyCommandsKeepReplies(db, c, a, m);
    }
  }

  lemma ReplyCommandsKeepPosts(db: Rows, c: Command, p: Id)
    requires !OnPost(c) && PostAbout(db, c) != Some(p)
    ensures p in db.threads ==> p in Step(db, c).threads && Step(db, c).threads[p] == db.threads[p]
  {
  }

  lemma ReplyCommandsKeepReplies(db: Rows, c: Command, a: Id, m: Id)
    requires !OnPost(c)
    ensures a in db.answers && !((c.UpdateAnswer? || c.RemoveAnswer?) && c.id == a) ==>
              a in Step(db, c).answers && Step(db, c).answers[a] == db.answers[a]
    ensures m in db.comments && !((c.UpdateComment? || c.RemoveComment?) && c.id == m) ==>
              m in Step(db, c).comments && Step(db, c).comments[m] == db.comments[m]
  {
  }

  // ---------- Strangers ----------

  /** Neither staff nor the author, and not a manager reviewing the post's room. */
  predicate Stranger(c: Command, author: Id, room: Option<Id>) {
    && c.user.role == Member && c.user.id != Some(author)
    && (c.ReviewPost? ==> room.None? || room.value !in c.managedRooms)
  }

  /** The same post, but for what is accepted and the status that goes with it. */
  predicate SameButAcceptance(t: Thread, u: Thread) {
    u == t.(post := t.post.(acceptedAnswer := u.post.acceptedAnswer, acceptedComment := u.post.acceptedComment, status := u.post.status),
            ledger := u.ledger)
  }

  /** Changing an accepted answer or comment of one's own is the only way to an effect on somebody else's post. */
  predicate OwnAccepted(db: Rows, c: Command, p: Post) {
    match c
    case UpdateAnswer(a, user, _, _, _) => p.acceptedAnswer == Some(a) && a in db.answers && user.Is(db.answers[a].author)
    case RemoveAnswer(a, user) => p.acceptedAnswer == Some(a) && a in db.answers && user.Is(db.answers[a].author)
    case UpdateComment(m, user, _) => p.acceptedComment == Some(m) && m in db.comments && user.Is(db.comments[m].author)
    case RemoveComment(m, user) => p.acceptedComment == Some(m) && m in db.comments && user.Is(db.comments[m].author)
    case _ => false
  }

  lemma StrangerPostCommands(db: Rows, c: Command, id: Id)
    requires OnPost(c) && id in db.threads && Stranger(c, db.threads[id].post.author, db.threads[id].post.room)
    ensures id in Step(db, c).threads && Step(db, c).threads[id] == db.threads[id]
  {
    PostCommandSucceedsIff(db, c);
  }

  lemma StrangerReplyCommands(db: Rows, c: Command, id: Id)
    requires !OnPost(c) && id in db.threads && Stranger(c, db.threads[id].post.author, db.threads[id].post.room)
    ensures id in Step(db, c).threads
    ensures var t, u := db.threads[id], Step(db, c).threads[id];
            SameButAcceptance(t, u) && (u == t || OwnAccepted(db, c, t.post))
  {
    ReplyCommandSucceedsIff(db, c);
  }

  lemma StrangersLeavePosts(db: Rows, c: Command, id: Id)
    requires id in db.threads && Stranger(c, db.threads[id].post.author, db.threads[id].post.room)
    ensures id in Step(db, c).threads
    ensures var t, u := db.threads[id], Step(db, c).threads[id];
            SameButAcceptance(t, u) && (u == t || OwnAccepted(db, c, t.post))
  {
    if OnPost(c) {
      StrangerPostCommands(db, c, id);
    } else {
      StrangerReplyCommands(db, c, id);
    }
  }

  lemma StrangersLeaveAnswer(db: Rows, c: Command, a: Id)
    requires c.user.role == Member && a in db.answers && !c.user.Is(db.answers[a].author)
    ensures a in Step(db, c).answers && Step(db, c).answers[a] == db.answers[a]
  {
    if OnPost(c) {
      PostCommandsKeepReplies(db, c);
    } else {
      ReplyCommandSucceedsIff(db, c);
    }
  }

  lemma PostCommandsKeepReplies(db: Rows, c: Command)
    requires OnPost(c)
    ensures Step(db, c).answers == db.answers && Step(db, c).comments == db.comments
  {
  }

  lemma StrangersLeaveComment(db: Rows, c: Command, m: Id)
    requires c.user.role == Member && m in db.comments && !c.user.Is(db.comments[m].author)
    ensures m in Step(db, c).comments && Step(db, c).comments[m] == db.comments[m]
  {
    if OnPost(c) {
      PostCommandsKeepReplies(db, c);
    } else {
      ReplyCommandSucceedsIff(db, c);
    }
  }

  predicate OnlyStrangers(commands: seq<Command>, author: Id, room: Option<Id>) {
    forall c | c in commands :: Stranger(c, author, room)
  }

  /** However many strangers act, a post keeps its text, its draft, its moderation and its logs, and is not deleted. */
  lemma {:induction false} StrangersCannotTouchPost(db: Rows, commands: seq<Command>, id: Id)
    requires id in db.threads && OnlyStrangers(commands, db.threads[id].post.author, db.threads[id].post.room)
    ensures id in Run(db, commands).threads && SameButAcceptance(db.threads[id], Run(db, commands).threads[id])
    decreases |commands|
  {
    if commands != [] {
      assert commands[0] in commands;
      StrangersLeavePosts(db, commands[0], id);
      StrangersCannotTouchPost(Step(db, commands[0]), commands[1..], id);
    }
  }
}
