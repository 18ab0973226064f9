/**
 * The counters of posts, answers and comments under concurrent transactions. Every writer finds its target without
 * a lock, locks the row of the post, reads the target again, computes and commits; the steps of many threads interleave.
 */
module Counters {
  import opened Wrappers

  type Id = nat

  datatype Kind = Answer | Comment
  datatype Child = Child(kind: Kind, id: Id)
  datatype Row = Row(post: Id, live: bool)
  datatype Post = Post(live: bool, answers: int, comments: int)

  datatype Target = OnPost(post: Id) | OnChild(child: Child)
  datatype Vote = Up | Down
  datatype Tally = Tally(up: nat, down: nat)

  /** The committed rows. Deleting is soft: the row stays and is no longer live. */
  datatype Database = Database(
    posts: map<Id, Post>,
    children: map<Child, Row>,
    votes: map<Target, map<Id, Vote>>,
    tallies: map<Target, Tally>)

  datatype Operation =
    | RemovePost(post: Id)
    | AddChild(child: Child, parent: Id)
    | RemoveChild(child: Child)
    | SetVote(target: Target, user: Id, vote: Option<Vote>)

  // ---------- Reading the rows ----------

  predicate LivePost(db: Database, post: Id) {
    post in db.posts && db.posts[post].live
  }

  predicate LiveChild(db: Database, child: Child) {
    child in db.children && db.children[child].live
  }

  function CountOf(post: Post, kind: Kind): int {
    if kind.Answer? then post.answers else post.comments
  }

  function WithCount(post: Post, kind: Kind, n: int): Post {
    if kind.Answer? then post.(answers := n) else post.(comments := n)
  }

  function LiveRows(children: map<Child, Row>, post: Id, kind: Kind): set<Child> {
    set c | c in children && children[c].live && children[c].post == post && c.kind == kind
  }

  function VotesOn(db: Database, target: Target): map<Id, Vote> {
    if target in db.votes then db.votes[target] else map[]
  }

  function TallyOf(db: Database, target: Target): Tally {
    if target in db.tallies then db.tallies[target] else Tally(0, 0)
  }

  function Recount(votes: map<Id, Vote>): Tally {
    Tally(|set u | u in votes && votes[u] == Up|, |set u | u in votes && votes[u] == Down|)
  }

  function Ballot(votes: map<Id, Vote>, user: Id, vote: Option<Vote>): map<Id, Vote> {
    if vote.Some? then votes[user := vote.value] else votes - {user}
  }

  /** The child the operation is about must still be there; the post is checked by its lock. */
  predicate TargetLive(db: Database, op: Operation) {
    match op
    case RemoveChild(c) => LiveChild(db, c)
    case SetVote(OnChild(c), _, _) => LiveChild(db, c)
    case _ => true
  }

  predicate Targets(db: Database, op: Operation, post: Id) {
    match op
    case RemovePost(p) => p == post
    case AddChild(_, p) => p == post
    case RemoveChild(c) => c in db.children && db.children[c].post == post
    case SetVote(OnPost(p), _, _) => p == post
    case SetVote(OnChild(c), _, _) => c in db.children && db.children[c].post == post
  }

  // ---------- One operation at a time ----------

  function PostOf(db: Database, op: Operation): Option<Id> {
    match op
    case RemovePost(p) => Some(p)
    case AddChild(_, p) => Some(p)
    case RemoveChild(c) => if LiveChild(db, c) then Some(db.children[c].post) else None
    case SetVote(OnPost(p), _, _) => Some(p)
    case SetVote(OnChild(c), _, _) => if LiveChild(db, c) then Some(db.children[c].post) else None
  }

  predicate Allowed(db: Database, op: Operation) {
    && PostOf(db, op).Some? && LivePost(db, PostOf(db, op).value)
    && (op.AddChild? ==> op.child !in db.children)
  }

  /** The whole operation as one indivisible change, with plain arithmetic on the counters. */
  function Atomic(db: Database, op: Operation): Database
    requires Allowed(db, op)
  {
    var p := PostOf(db, op).value;
    match op
    case RemovePost(_) => db.(posts := db.posts[p := db.posts[p].(live := false)])
    case AddChild(c, _) =>
      db.(children := db.children[c := Row(p, true)],
          posts := db.posts[p := WithCount(db.posts[p], c.kind, CountOf(db.posts[p], c.kind) + 1)])
    case RemoveChild(c) =>
      db.(children := db.children[c := Row(p, false)],
          posts := db.posts[p := WithCount(db.posts[p], c.kind, CountOf(db.posts[p], c.kind) - 1)])
    case SetVote(target, user, vote) =>
      var votes := Ballot(VotesOn(db, target), user, vote);
      db.(votes := db.votes[target := votes], tallies := db.tallies[target := Recount(votes)])
  }

  /** What a database has been through: posts that were created, and committed operations. */
  datatype Event = Created(post: Id) | Committed(op: Operation)

  predicate Possible(db: Database, e: Event) {
    match e
    case Created(p) => p !in db.posts
    case Committed(op) => Allowed(db, op)
  }

  function Apply(db: Database, e: Event): Database
    requires Possible(db, e)
  {
    match e
    case Created(p) => db.(posts := db.posts[p := Post(true, 0, 0)])
    case Committed(op) => Atomic(db, op)
  }

  const EMPTY := Database(map[], map[], map[], map[])

  /** The events can happen one after the other, and lead to the database. */
  ghost predicate Serial(log: seq<Event>, db: Database)
    decreases |log|
  {
    if log == [] then db == EMPTY
    else
      var last := |log| - 1;
      exists before :: Serial(log[..last], before) && Possible(before, log[last]) && db == Apply(before, log[last])
  }

  // ---------- Threads ----------

  /** The number a transaction is going to write besides its row: a counter of the post, or the recounted votes. */
  datatype Write = Write(count: int, totals: Tally)

  const NOTHING := Write(0, Tally(0, 0))

  datatype Thread =
    | Idle
    | Found(op: Operation, post: Id)
    | Holding(op: Operation, post: Id, read: Post)
    | Checked(op: Operation, post: Id, read: Post)
    | Ready(op: Operation, post: Id, write: Write)

  datatype System = System(
    db: Database,
    holders: map<Id, Id>,
    threads: map<Id, Thread>,
    log: seq<Event>)

  function ThreadOf(s: System, t: Id): Thread {
    if t in s.threads then s.threads[t] else Idle
  }

  function Goes(s: System, t: Id, next: Thread): System {
    s.(threads := s.threads[t := next])
  }

  /** The transaction ends: its lock is released. */
  function Ends(s: System, t: Id): System {
    var thread := ThreadOf(s, t);
    Goes(if thread.Idle? || thread.Found? then s else s.(holders := s.holders - {thread.post}), t, Idle)
  }

  function Max(a: int, b: int): int {
    if a < b then b else a
  }

  /** New answers write the number read under the lock, new comments increment in the database; removals are clamped at zero. */
  function Computed(db: Database, op: Operation, post: Id, read: Post): Write
    requires post in db.posts
  {
    match op
    case RemovePost(_) => NOTHING
    case AddChild(c, _) => NOTHING.(count := if c.kind.Answer? then read.answers + 1 else db.posts[post].comments + 1)
    case RemoveChild(c) => NOTHING.(count := Max(0, CountOf(read, c.kind) - 1))
    case SetVote(target, user, vote) => NOTHING.(totals := Recount(Ballot(VotesOn(db, target), user, vote)))
  }

  /** The transaction becomes visible. */
  function Written(db: Database, op: Operation, post: Id, write: Write): Database
    requires post in db.posts
  {
    match op
    case RemovePost(_) => db.(posts := db.posts[post := db.posts[post].(live := false)])
    case AddChild(c, _) =>
      db.(children := db.children[c := Row(post, true)],
          posts := db.posts[post := WithCount(db.posts[post], c.kind, write.count)])
    case RemoveChild(c) =>
      db.(children := db.children[c := Row(post, false)],
          posts := db.posts[post := WithCount(db.posts[post], c.kind, write.count)])
    case SetVote(target, user, vote) =>
      db.(votes := db.votes[target := Ballot(VotesOn(db, target), user, vote)],
          tallies := db.tallies[target := write.totals])
  }

  datatype Action =
    | Create(post: Id)
    | Find(t: Id, op: Operation)
    | Lock(t: Id)
    | Reread(t: Id)
    | Compute(t: Id)
    | Commit(t: Id)
    | Rollback(t: Id)

  /** One step; an action that is not possible changes nothing. */
  function Step(s: System, a: Action): System {
    match a
    case Create(p) => if p in s.db.posts then s else s.(db := Apply(s.db, Created(p)), log := s.log + [Created(p)])
    case Find(t, op) =>
      if !ThreadOf(s, t).Idle? || PostOf(s.db, op).None? then s else Goes(s, t, Found(op, PostOf(s.db, op).value))
    case Lock(t) =>
      (match ThreadOf(s, t)
       case Found(op, p) =>
         if p in s.holders then s
         else if !LivePost(s.db, p) then Goes(s, t, Idle)
         else Goes(s.(holders := s.holders[p := t]), t, Holding(op, p, s.db.posts[p]))
       case _ => s)
    case Reread(t) =>
      (match ThreadOf(s, t)
       case Holding(op, p, read) => if TargetLive(s.db, op) then Goes(s, t, Checked(op, p, read)) else Ends(s, t)
       case _ => s)
    case Compute(t) =>
      (match ThreadOf(s, t)
       case Checked(op, p, read) =>
         if p in s.db.posts then Goes(s, t, Ready(op, p, Computed(s.db, op, p, read))) else s
       case _ => s)
    case Commit(t) =>
      (match ThreadOf(s, t)
       case Ready(op, p, write) =>
         if p !in s.db.posts || (op.AddChild? && op.child in s.db.children) then Ends(s, t)
         else Ends(s.(db := Written(s.db, op, p, write), log := s.log + [Committed(op)]), t)
       case _ => s)
    case Rollback(t) => Ends(s, t)
  }

  const START := System(EMPTY, map[], map[], [])

  function Run(actions: seq<Action>): System {
    if actions == [] then START
    else Step(Run(actions[..|actions| - 1]), actions[|actions| - 1])
  }

  // ---------- What holds of the rows ----------

  ghost predicate CountsMatch(posts: map<Id, Post>, children: map<Child, Row>) {
    && (forall p, kind | p in posts :: CountOf(posts[p], kind) == |LiveRows(children, p, kind)|)
    && (forall c | c in children :: children[c].post in posts)
  }

  ghost predicate TalliesMatch(db: Database) {
    forall target :: TallyOf(db, target) == Recount(VotesOn(db, target))
  }

  ghost predicate Consistent(db: Database) {
    CountsMatch(db.posts, db.children) && TalliesMatch(db)
  }

  lemma RowAdded(children: map<Child, Row>, c: Child, post: Id, p: Id, kind: Kind)
    requires c !in children
    ensures |LiveRows(children[c := Row(post, true)], p, kind)|
         == |LiveRows(children, p, kind)| + if p == post && kind == c.kind then 1 else 0
  {
    var rows, after := LiveRows(children, p, kind), LiveRows(children[c := Row(post, true)], p, kind);
    if p == post && kind == c.kind {
      assert after == rows + {c};
    } else {
      assert after == rows;
    }
  }

  lemma RowRemoved(children: map<Child, Row>, c: Child, p: Id, kind: Kind)
    requires c in children && children[c].live
    ensures |LiveRows(children[c := Row(children[c].post, false)], p, kind)|
         == |LiveRows(children, p, kind)| - if p == children[c].post && kind == c.kind then 1 else 0
  {
    var rows, after := LiveRows(children, p, kind), LiveRows(children[c := Row(children[c].post, false)], p, kind);
    if p == children[c].post && kind == c.kind {
      assert after == rows - {c};
    } else {
      assert after == rows;
    }
  }

  lemma AddKeepsCounts(posts: map<Id, Post>, children: map<Child, Row>, c: Child, post: Id)
    requires CountsMatch(posts, children) && post in posts && c !in children
    ensures CountsMatch(posts[post := WithCount(posts[post], c.kind, CountOf(posts[post], c.kind) + 1)],
                        children[c := Row(post, true)])
  {
    var after := posts[post := WithCount(posts[post], c.kind, CountOf(posts[post], c.kind) + 1)];
    forall p, kind | p in after
      ensures CountOf(after[p], kind) == |LiveRows(children[c := Row(post, true)], p, kind)|
    {
      RowAdded(children, c, post, p, kind);
      assert CountOf(posts[p], kind) == |LiveRows(children, p, kind)|;
    }
  }

  lemma RemoveKeepsCounts(posts: map<Id, Post>, children: map<Child, Row>, c: Child, post: Id)
    requires CountsMatch(posts, children) && c in children && children[c] == Row(post, true)
    ensures CountsMatch(posts[post := WithCount(posts[post], c.kind, CountOf(posts[post], c.kind) - 1)],
                        children[c := Row(post, false)])
  {
    var after := posts[post := WithCount(posts[post], c.kind, CountOf(posts[post], c.kind) - 1)];
    forall p, kind | p in after
      ensures CountOf(after[p], kind) == |LiveRows(children[c := Row(post, false)], p, kind)|
    {
      RowRemoved(children, c, p, kind);
      assert CountOf(posts[p], kind) == |LiveRows(children, p, kind)|;
    }
  }

  lemma ApplyKeepsConsistent(db: Database, e: Event)
    requires Consistent(db) && Possible(db, e)
    ensures Consistent(Apply(db, e))
  {
    ApplyKeepsCounts(db, e);
    ApplyKeepsTallies(db, e);
  }

  lemma ApplyKeepsTallies(db: Database, e: Event)
    requires TalliesMatch(db) && Possible(db, e)
    ensures TalliesMatch(Apply(db, e))
  {
    var after := Apply(db, e);
    forall target ensures TallyOf(after, target) == Recount(VotesOn(after, target)) {
      assert TallyOf(db, target) == Recount(VotesOn(db, target));
    }
  }

  lemma ApplyKeepsCounts(db: Database, e: Event)
    requires CountsMatch(db.posts, db.children) && Possible(db, e)
    ensures CountsMatch(Apply(db, e).posts, Apply(db, e).children)
  {
    match e {
      case Created(p) => NoRowsOfNewPost(db, p);
      case Committed(AddChild(c, p)) => AddKeepsCounts(db.posts, db.children, c, p);
      case Committed(RemoveChild(c)) => RemoveKeepsCounts(db.posts, db.children, c, db.children[c].post);
      case Committed(RemovePost(p)) =>
        var after := Apply(db, e);
        forall q, kind | q in after.posts ensures CountOf(after.posts[q], kind) == |LiveRows(after.children, q, kind)| {
          assert CountOf(db.posts[q], kind) == |LiveRows(db.children, q, kind)|;
        }
      case _ =>
    }
  }

  lemma NoRowsOfNewPost(db: Database, p: Id)
    requires CountsMatch(db.posts, db.children) && p !in db.posts
    ensures forall kind :: LiveRows(db.children, p, kind) == {}
  {
  }

  /** Operations executed one at a time keep every counter equal to its rows. */
  lemma {:induction false} SerialIsConsistent(log: seq<Event>, db: Database)
    requires Serial(log, db)
    ensures Consistent(db)
    decreases |log|
  {
    if log == [] {
      assert forall p, kind :: LiveRows(db.children, p, kind) == {};
    } else {
      var last := |log| - 1;
      var before :| Serial(log[..last], before) && Possible(before, log[last]) && db == Apply(before, log[last]);
      SerialIsConsistent(log[..last], before);
      ApplyKeepsConsistent(before, log[last]);
    }
  }
}
