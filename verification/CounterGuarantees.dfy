/** Every interleaving of the counter transactions amounts to running the committed ones one after the other. */
module CounterGuarantees {
  import opened Wrappers
  import opened Counters

  // ---------- The invariant of the threads ----------

  predicate Holds(db: Database, holders: map<Id, Id>, t: Id, op: Operation, post: Id) {
    Targets(db, op, post) && post in holders && holders[post] == t && LivePost(db, post)
  }

  /** What a thread knows is still true of the committed rows. */
  predicate Fits(db: Database, holders: map<Id, Id>, t: Id, thread: Thread) {
    match thread
    case Idle => true
    case Found(op, p) => Targets(db, op, p)
    case Holding(op, p, read) => Holds(db, holders, t, op, p) && db.posts[p] == read
    case Checked(op, p, read) => Holds(db, holders, t, op, p) && db.posts[p] == read && TargetLive(db, op)
    case Ready(op, p, write) =>
      Holds(db, holders, t, op, p) && TargetLive(db, op) && write == Computed(db, op, p, db.posts[p])
  }

  predicate Owns(thread: Thread, post: Id) {
    match thread
    case Holding(_, p, _) => p == post
    case Checked(_, p, _) => p == post
    case Ready(_, p, _) => p == post
    case _ => false
  }

  ghost predicate Inv(s: System) {
    && (forall t :: Fits(s.db, s.holders, t, ThreadOf(s, t)))
    && (forall p | p in s.holders :: Owns(ThreadOf(s, s.holders[p]), p))
    && Serial(s.log, s.db)
  }

  // ---------- Other threads are not disturbed ----------

  /** A commit on one post leaves everything a thread knows about another post as it was. */
  lemma CommitElsewhere(db: Database, holders: map<Id, Id>, op: Operation, p: Id, write: Write, t: Id, thread: Thread)
    requires p in db.posts && Targets(db, op, p) && (op.AddChild? ==> op.child !in db.children)
    requires Fits(db, holders, t, thread) && !Owns(thread, p)
    ensures Fits(Written(db, op, p, write), holders - {p}, t, thread)
  {
  }

  lemma CreateElsewhere(db: Database, holders: map<Id, Id>, p: Id, t: Id, thread: Thread)
    requires p !in db.posts && Fits(db, holders, t, thread)
    ensures Fits(Apply(db, Created(p)), holders, t, thread)
  {
  }

  lemma LockElsewhere(db: Database, holders: map<Id, Id>, p: Id, owner: Id, t: Id, thread: Thread)
    requires p !in holders && Fits(db, holders, t, thread)
    ensures Fits(db, holders[p := owner], t, thread)
  {
  }

  lemma UnlockElsewhere(db: Database, holders: map<Id, Id>, p: Id, t: Id, thread: Thread)
    requires Fits(db, holders, t, thread) && !Owns(thread, p)
    ensures Fits(db, holders - {p}, t, thread)
  {
  }

  // ---------- A commit is the indivisible operation ----------

  lemma CountIsPositive(db: Database, c: Child)
    requires Consistent(db) && LiveChild(db, c)
    ensures var row := db.children[c]; row.post in db.posts && CountOf(db.posts[row.post], c.kind) > 0
  {
    assert c in LiveRows(db.children, db.children[c].post, c.kind);
  }

  lemma CommitIsAtomic(db: Database, holders: map<Id, Id>, t: Id, op: Operation, p: Id, write: Write)
    requires Consistent(db) && Fits(db, holders, t, Ready(op, p, write))
    requires op.AddChild? ==> op.child !in db.children
    ensures Allowed(db, op) && Written(db, op, p, write) == Atomic(db, op)
  {
    if op.RemoveChild? {
      CountIsPositive(db, op.child);
    }
  }

  lemma SerialLonger(log: seq<Event>, db: Database, e: Event)
    requires Serial(log, db) && Possible(db, e)
    ensures Serial(log + [e], Apply(db, e))
  {
    assert (log + [e])[..|log|] == log;
  }

  // ---------- Every step keeps the invariant ----------

  lemma GoesKeepsInv(s: System, t: Id, next: Thread)
    requires Inv(s) && Fits(s.db, s.holders, t, next)
    requires forall p | Owns(ThreadOf(s, t), p) :: Owns(next, p)
    ensures Inv(Goes(s, t, next))
  {
    var after := Goes(s, t, next);
    forall u ensures Fits(after.db, after.holders, u, ThreadOf(after, u)) {
      assert Fits(s.db, s.holders, u, ThreadOf(s, u));
    }
    forall p | p in after.holders ensures Owns(ThreadOf(after, after.holders[p]), p) {
      assert Owns(ThreadOf(s, s.holders[p]), p);
    }
  }

  lemma EndsKeepsInv(s: System, t: Id)
    requires Inv(s)
    ensures Inv(Ends(s, t))
  {
    var thread, after := ThreadOf(s, t), Ends(s, t);
    if thread.Idle? || thread.Found? {
      GoesKeepsInv(s, t, Idle);
    } else {
      forall u ensures Fits(after.db, after.holders, u, ThreadOf(after, u)) {
        if u != t {
          assert Fits(s.db, s.holders, t, thread) && Fits(s.db, s.holders, u, ThreadOf(s, u));
          UnlockElsewhere(s.db, s.holders, thread.post, u, ThreadOf(s, u));
        }
      }
      forall p | p in after.holders ensures Owns(ThreadOf(after, after.holders[p]), p) {
        assert Owns(ThreadOf(s, s.holders[p]), p);
      }
    }
  }

  lemma CommitKeepsInv(s: System, t: Id)
    requires Inv(s)
    ensures Inv(Step(s, Commit(t)))
  {
    var thread := ThreadOf(s, t);
    if thread.Ready? && thread.post in s.db.posts && !(thread.op.AddChild? && thread.op.child in s.db.children) {
      var op, p, write := thread.op, thread.post, thread.write;
      var after := Step(s, Commit(t));
      assert Fits(s.db, s.holders, t, thread);
      SerialIsConsistent(s.log, s.db);
      CommitIsAtomic(s.db, s.holders, t, op, p, write);
      SerialLonger(s.log, s.db, Committed(op));
      forall u ensures Fits(after.db, after.holders, u, ThreadOf(after, u)) {
        if u != t {
          assert Fits(s.db, s.holders, u, ThreadOf(s, u));
          CommitElsewhere(s.db, s.holders, op, p, write, u, ThreadOf(s, u));
        }
      }
    } else {
      EndsKeepsInv(s, t);
    }
  }

  lemma LockKeepsInv(s: System, t: Id)
    requires Inv(s)
    ensures Inv(Step(s, Lock(t)))
  {
    var thread, after := ThreadOf(s, t), Step(s, Lock(t));
    assert Fits(s.db, s.holders, t, thread);
    if thread.Found? && thread.post !in s.holders {
      if LivePost(s.db, thread.post) {
        forall u ensures Fits(after.db, after.holders, u, ThreadOf(after, u)) {
          assert Fits(s.db, s.holders, u, ThreadOf(s, u));
          LockElsewhere(s.db, s.holders, thread.post, t, u, ThreadOf(s, u));
        }
        forall p | p in after.holders ensures Owns(ThreadOf(after, after.holders[p]), p) {
          assert p in s.holders ==> Owns(ThreadOf(s, s.holders[p]), p);
        }
      } else {
        GoesKeepsInv(s, t, Idle);
      }
    }
  }

  lemma CreateKeepsInv(s: System, p: Id)
    requires Inv(s)
    ensures Inv(Step(s, Create(p)))
  {
    if p !in s.db.posts {
      var after := Step(s, Create(p));
      SerialLonger(s.log, s.db, Created(p));
      forall u ensures Fits(after.db, after.holders, u, ThreadOf(after, u)) {
        CreateElsewhere(s.db, s.holders, p, u, ThreadOf(s, u));
      }
    }
  }

  lemma LocalStepKeepsInv(s: System, a: Action)
    requires Inv(s) && (a.Find? || a.Reread? || a.Compute?)
    ensures Inv(Step(s, a))
  {
    var thread := ThreadOf(s, a.t);
    assert Fits(s.db, s.holders, a.t, thread);
    if a.Reread? && thread.Holding? && !TargetLive(s.db, thread.op) {
      EndsKeepsInv(s, a.t);
    } else if Step(s, a) != s {
      GoesKeepsInv(s, a.t, ThreadOf(Step(s, a), a.t));
    }
  }

  lemma StepKeepsInv(s: System, a: Action)
    requires Inv(s)
    ensures Inv(Step(s, a))
  {
    match a {
      case Create(p) => CreateKeepsInv(s, p);
      case Lock(t) => LockKeepsInv(s, t);
      case Commit(t) => CommitKeepsInv(s, t);
      case Rollback(t) => EndsKeepsInv(s, t);
      case _ => LocalStepKeepsInv(s, a);
    }
  }

  lemma {:induction false} RunKeepsInv(actions: seq<Action>)
    ensures Inv(Run(actions))
    decreases |actions|
  {
    if actions != [] {
      var last := |actions| - 1;
      RunKeepsInv(actions[..last]);
      StepKeepsInv(Run(actions[..last]), actions[last]);
    }
  }

  // ---------- Guarantees over every interleaving ----------

  /** The committed rows are those of the committed operations executed one at a time, in the order of their commits. */
  lemma InterleavingIsSerial(actions: seq<Action>)
    ensures Serial(Run(actions).log, Run(actions).db)
  {
    RunKeepsInv(actions);
  }

  /** At every moment every counter equals the number of its live rows, and every pair of totals its vote rows. */
  lemma CountersEqualRows(actions: seq<Action>)
    ensures var db := Run(actions).db;
      && (forall p | p in db.posts ::
            && db.posts[p].answers == |LiveRows(db.children, p, Answer)|
            && db.posts[p].comments == |LiveRows(db.children, p, Comment)|)
      && (forall target :: TallyOf(db, target) == Recount(VotesOn(db, target)))
  {
    var s := Run(actions);
    RunKeepsInv(actions);
    SerialIsConsistent(s.log, s.db);
    assert forall p | p in s.db.posts :: CountOf(s.db.posts[p], Answer) == s.db.posts[p].answers;
    assert forall p | p in s.db.posts :: CountOf(s.db.posts[p], Comment) == s.db.posts[p].comments;
  }

  /** A removal that computes its new counter never starts from zero, so the clamp is never what decides. */
  lemma ClampIsNeverReached(actions: seq<Action>, t: Id)
    requires var thread := ThreadOf(Run(actions), t); thread.Checked? && thread.op.RemoveChild?
    ensures var thread := ThreadOf(Run(actions), t); CountOf(thread.read, thread.op.child.kind) >= 1
  {
    var s := Run(actions);
    RunKeepsInv(actions);
    SerialIsConsistent(s.log, s.db);
    assert Fits(s.db, s.holders, t, ThreadOf(s, t));
    CountIsPositive(s.db, ThreadOf(s, t).op.child);
  }

  /** No two threads are inside the locked section of the same post. */
  lemma LocksExclude(actions: seq<Action>, t: Id, u: Id, post: Id)
    requires Owns(ThreadOf(Run(actions), t), post) && Owns(ThreadOf(Run(actions), u), post)
    ensures t == u
  {
    var s := Run(actions);
    RunKeepsInv(actions);
    assert Fits(s.db, s.holders, t, ThreadOf(s, t)) && Fits(s.db, s.holders, u, ThreadOf(s, u));
  }

  // ---------- What the committed operations say about the rows ----------

  predicate Removes(e: Event, c: Child) {
    e == Committed(RemoveChild(c))
  }

  predicate Adds(e: Event, c: Child) {
    e.Committed? && e.op.AddChild? && e.op.child == c
  }

  /** One more event in the history of a row: it is live from its insertion to its one removal. */
  lemma RowChanges(before: Database, e: Event, c: Child)
    requires Possible(before, e)
    ensures Removes(e, c) ==> LiveChild(before, c)
    ensures LiveChild(Apply(before, e), c) <==> (Adds(e, c) || (LiveChild(before, c) && !Removes(e, c)))
    ensures c in Apply(before, e).children <==> c in before.children || Adds(e, c)
    ensures Adds(e, c) ==> c !in before.children
  {
  }

  /** A row that is gone was removed by exactly one event, a live one by none. */
  lemma {:induction false} RemovedByOneEvent(log: seq<Event>, db: Database, c: Child)
    requires Serial(log, db)
    ensures c !in db.children || LiveChild(db, c) ==> forall i :: 0 <= i < |log| ==> !Removes(log[i], c)
    ensures c in db.children && !LiveChild(db, c) ==> exists i :: 0 <= i < |log| && Removes(log[i], c)
    ensures forall i, j :: 0 <= i < |log| && 0 <= j < |log| && Removes(log[i], c) && Removes(log[j], c) ==> i == j
    decreases |log|
  {
    if log != [] {
      var last := |log| - 1;
      var before :| Serial(log[..last], before) && Possible(before, log[last]) && db == Apply(before, log[last]);
      RemovedByOneEvent(log[..last], before, c);
      RowChanges(before, log[last], c);
      assert forall i :: 0 <= i < last ==> log[..last][i] == log[i];
    }
  }

  /** However many deletions of one answer or comment run at once, at most one of them commits and is counted. */
  lemma DeletedOnce(actions: seq<Action>, c: Child)
    ensures var s := Run(actions);
      && (forall i, j :: 0 <= i < |s.log| && 0 <= j < |s.log| && Removes(s.log[i], c) && Removes(s.log[j], c) ==> i == j)
      && (c in s.db.children ==>
            (!LiveChild(s.db, c) <==> exists i :: 0 <= i < |s.log| && Removes(s.log[i], c)))
  {
    var s := Run(actions);
    RunKeepsInv(actions);
    RemovedByOneEvent(s.log, s.db, c);
  }

  /** The last committed request of the user about the target; none, too, when nothing was ever requested. */
  function LastVote(log: seq<Event>, target: Target, user: Id): Option<Vote> {
    if log == [] then None
    else
      var e := log[|log| - 1];
      if e.Committed? && e.op.SetVote? && e.op.target == target && e.op.user == user then e.op.vote
      else LastVote(log[..|log| - 1], target, user)
  }

  function VoteOf(db: Database, target: Target, user: Id): Option<Vote> {
    if user in VotesOn(db, target) then Some(VotesOn(db, target)[user]) else None
  }

  lemma VoteChanges(before: Database, e: Event, target: Target, user: Id)
    requires Possible(before, e)
    ensures VoteOf(Apply(before, e), target, user)
         == if e.Committed? && e.op.SetVote? && e.op.target == target && e.op.user == user then e.op.vote
            else VoteOf(before, target, user)
  {
  }

  lemma {:induction false} LastVoteStands(log: seq<Event>, db: Database, target: Target, user: Id)
    requires Serial(log, db)
    ensures VoteOf(db, target, user) == LastVote(log, target, user)
    decreases |log|
  {
    if log != [] {
      var last := |log| - 1;
      var before :| Serial(log[..last], before) && Possible(before, log[last]) && db == Apply(before, log[last]);
      LastVoteStands(log[..last], before, target, user);
      VoteChanges(before, log[last], target, user);
    }
  }

  /** Repeating a vote or clearing one again changes nothing: only the last request of each user matters. */
  lemma OnlyLastVotesCount(a: seq<Action>, b: seq<Action>, target: Target)
    requires forall user :: LastVote(Run(a).log, target, user) == LastVote(Run(b).log, target, user)
    ensures VotesOn(Run(a).db, target) == VotesOn(Run(b).db, target)
    ensures TallyOf(Run(a).db, target) == TallyOf(Run(b).db, target)
  {
    RunKeepsInv(a);
    RunKeepsInv(b);
    CountersEqualRows(a);
    CountersEqualRows(b);
    var x, y := VotesOn(Run(a).db, target), VotesOn(Run(b).db, target);
    forall user ensures (user in x <==> user in y) && (user in x ==> x[user] == y[user]) {
      LastVoteStands(Run(a).log, Run(a).db, target, user);
      LastVoteStands(Run(b).log, Run(b).db, target, user);
      assert VoteOf(Run(a).db, target, user) == VoteOf(Run(b).db, target, user);
    }
  }

  // ---------- The totals and counters, read off the committed operations ----------

  predicate VotesFor(e: Event, target: Target, user: Id) {
    e.Committed? && e.op.SetVote? && e.op.target == target && e.op.user == user
  }

  /** The users whose last committed request about the target asked for this vote. */
  function Voters(log: seq<Event>, target: Target, vote: Vote): set<Id> {
    set e | e in log && e.Committed? && e.op.SetVote? && LastVote(log, target, e.op.user) == Some(vote) :: e.op.user
  }

  lemma {:induction false} LastVoteWasRequested(log: seq<Event>, target: Target, user: Id)
    requires LastVote(log, target, user).Some?
    ensures exists e :: e in log && VotesFor(e, target, user)
    decreases |log|
  {
    var last := |log| - 1;
    if VotesFor(log[last], target, user) {
      assert log[last] in log;
    } else {
      LastVoteWasRequested(log[..last], target, user);
      var e :| e in log[..last] && VotesFor(e, target, user);
      assert e in log;
    }
  }

  lemma VotersAreTheRows(log: seq<Event>, db: Database, target: Target, vote: Vote)
    requires Serial(log, db)
    ensures Voters(log, target, vote) == set u | u in VotesOn(db, target) && VotesOn(db, target)[u] == vote
  {
    var rows := set u | u in VotesOn(db, target) && VotesOn(db, target)[u] == vote;
    forall u ensures u in rows <==> u in Voters(log, target, vote) {
      LastVoteStands(log, db, target, u);
      assert u in rows <==> VoteOf(db, target, u) == Some(vote);
      if u in rows {
        LastVoteWasRequested(log, target, u);
      }
    }
  }

  /** The upvotes shown are the users whose last request was an upvote, the downvotes those whose last was a downvote. */
  lemma TotalsCountVoters(actions: seq<Action>, target: Target)
    ensures var s := Run(actions);
      && TallyOf(s.db, target).up == |set u | u in VotesOn(s.db, target) && VotesOn(s.db, target)[u] == Up|
      && TallyOf(s.db, target).down == |set u | u in VotesOn(s.db, target) && VotesOn(s.db, target)[u] == Down|
      && TallyOf(s.db, target).up == |Voters(s.log, target, Up)|
      && TallyOf(s.db, target).down == |Voters(s.log, target, Down)|
  {
    var s := Run(actions);
    CountersEqualRows(actions);
    InterleavingIsSerial(actions);
    VotersAreTheRows(s.log, s.db, target, Up);
    VotersAreTheRows(s.log, s.db, target, Down);
  }

  predicate AddsTo(e: Event, c: Child, post: Id) {
    e == Committed(AddChild(c, post))
  }

  /** Posts and rows are what was created and not removed, each row under the parent it was added to. */
  lemma {:induction false} RowsFollowLog(log: seq<Event>, db: Database, p: Id, c: Child)
    requires Serial(log, db)
    ensures p in db.posts <==> Created(p) in log
    ensures Committed(RemovePost(p)) in log ==> p in db.posts
    ensures Committed(RemoveChild(c)) in log ==> c in db.children
    ensures LivePost(db, p) <==> Created(p) in log && Committed(RemovePost(p)) !in log
    ensures c in db.children && db.children[c].post == p <==> Committed(AddChild(c, p)) in log
    ensures LiveChild(db, c) && db.children[c].post == p
       <==> Committed(AddChild(c, p)) in log && Committed(RemoveChild(c)) !in log
    decreases |log|
  {
    if log != [] {
      var last := |log| - 1;
      var before :| Serial(log[..last], before) && Possible(before, log[last]) && db == Apply(before, log[last]);
      RowsFollowLog(log[..last], before, p, c);
      LogIsPrefixAndLast(log);
      RowChanges(before, log[last], c);
      RowStepFollows(log[..last], before, log[last], p, c);
    }
  }

  lemma LogIsPrefixAndLast(log: seq<Event>)
    requires log != []
    ensures forall e :: e in log <==> e in log[..|log| - 1] || e == log[|log| - 1]
  {
    assert log == log[..|log| - 1] + [log[|log| - 1]];
  }

  lemma RowStepFollows(log: seq<Event>, before: Database, e: Event, p: Id, c: Child)
    requires Serial(log, before) && Possible(before, e)
    ensures var db := Apply(before, e);
      && (p in db.posts <==> p in before.posts || e == Created(p))
      && (LivePost(db, p) <==> e == Created(p) || (LivePost(before, p) && e != Committed(RemovePost(p))))
      && (c in db.children && db.children[c].post == p
          <==> AddsTo(e, c, p) || (c in before.children && before.children[c].post == p))
      && (e == Committed(RemovePost(p)) ==> p in before.posts)
  {
  }

  /** The answers or comments of a post that were added to it and never removed. */
  function Added(log: seq<Event>, post: Id, kind: Kind): set<Child> {
    set e | e in log && e.Committed? && e.op.AddChild? && e.op.parent == post && e.op.child.kind == kind
            && Committed(RemoveChild(e.op.child)) !in log :: e.op.child
  }

  lemma AddedAreTheRows(log: seq<Event>, db: Database, post: Id, kind: Kind)
    requires Serial(log, db)
    ensures Added(log, post, kind) == LiveRows(db.children, post, kind)
  {
    forall c ensures c in Added(log, post, kind) <==> c in LiveRows(db.children, post, kind) {
      RowsFollowLog(log, db, post, c);
      assert c in Added(log, post, kind) ==> Committed(AddChild(c, post)) in log;
    }
  }

  /** A counter is the number of rows added to the post and never removed, however the transactions interleaved. */
  lemma CountersFollowLog(actions: seq<Action>, p: Id)
    ensures var s := Run(actions);
      && (p in s.db.posts <==> Created(p) in s.log)
      && (LivePost(s.db, p) <==> Created(p) in s.log && Committed(RemovePost(p)) !in s.log)
      && (p in s.db.posts ==>
            && s.db.posts[p].answers == |Added(s.log, p, Answer)|
            && s.db.posts[p].comments == |Added(s.log, p, Comment)|)
  {
    var s := Run(actions);
    CountersEqualRows(actions);
    InterleavingIsSerial(actions);
    RowsFollowLog(s.log, s.db, p, Child(Answer, 0));
    AddedAreTheRows(s.log, s.db, p, Answer);
    AddedAreTheRows(s.log, s.db, p, Comment);
  }
}
