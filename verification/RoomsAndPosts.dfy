/** Rooms and posts together: the gate of every request is what its room answers at that moment. */
module RoomsAndPosts {
  import opened Wrappers
  import opened Content
  import L = Lifecycle
  import LG = LifecycleGuarantees
  import R = Rooms
  import RG = RoomGuarantees

  /** A change to a room, which may be a newcomer joining by posting, or a request about a post at a moment. */
  datatype Item = Governance(event: R.Event) | Request(command: L.Command, now: nat)

  datatype System = System(rooms: map<Id, R.Room>, db: Rows)

  function Step(s: System, item: Item): System {
    match item
    case Governance(e) => s.(rooms := R.Step(s.rooms, e))
    case Request(c, _) => s.(db := L.Step(s.db, c))
  }

  function Run(s: System, items: seq<Item>): System
    decreases |items|
  {
    if items == [] then s else Run(Step(s, items[0]), items[1..])
  }

  function RoomOf(db: Rows, post: Id): Option<Id> {
    if post in db.threads then db.threads[post].post.room else None
  }

  /** The room asked before a request is carried out, and on whose behalf: edits are judged by the author's membership. */
  function Asks(db: Rows, c: L.Command): Option<(Id, User)> {
    match c
    case CreatePost(_, user, _, _, room, _, _, _, _) => Some((room, user))
    case UpdatePost(id, user, _, _, _, _) =>
      if RoomOf(db, id).Some? then Some((RoomOf(db, id).value, User(Some(db.threads[id].post.author), user.role))) else None
    case CreateAnswer(_, d, user, _, _) => if RoomOf(db, d).Some? then Some((RoomOf(db, d).value, user)) else None
    case CreateComment(_, d, user, _, _, _) => if RoomOf(db, d).Some? then Some((RoomOf(db, d).value, user)) else None
    case _ => None
  }

  function GateOf(c: L.Command): Gate
    requires c.CreatePost? || c.UpdatePost? || c.CreateAnswer? || c.CreateComment?
  {
    match c
    case CreatePost(_, _, _, _, _, _, gate, _, _) => gate
    case UpdatePost(_, _, _, gate, _, _) => gate
    case CreateAnswer(_, _, _, _, gate) => gate
    case CreateComment(_, _, _, _, _, gate) => gate
  }

  predicate Answered(s: System, item: Item) {
    item.Request? && Asks(s.db, item.command).Some? ==>
      var (room, user) := Asks(s.db, item.command).value;
      GateOf(item.command) == R.PostSpec(s.rooms, room, user, item.now).1
  }

  predicate Connected(s: System, items: seq<Item>)
    decreases |items|
  {
    items != [] ==> Answered(s, items[0]) && Connected(Step(s, items[0]), items[1..])
  }

  /** The room reviews every post, its policy is locked, and nobody is excepted. */
  ghost predicate ReviewsAll(rooms: map<Id, R.Room>, room: Id) {
    && room in rooms && rooms[room].policy == R.Policy(R.AfterApproval, true)
    && forall u :: RG.PermissionIn(rooms[room], u) != R.Freely
  }

  predicate ByOthers(items: seq<Item>, room: Id) {
    forall item | item in items && item.Governance? :: RG.NotByAdmin(item.event, room)
  }

  ghost predicate PostsAllowed(db: Rows, room: Id) {
    && L.Inv(db) && LG.AllInRooms(db)
    && forall id | id in db.threads && RoomOf(db, id) == Some(room) :: L.TextWasAllowed(db.threads[id])
  }

  lemma GovernanceKeepsReview(rooms: map<Id, R.Room>, e: R.Event, room: Id)
    requires ReviewsAll(rooms, room) && RG.NotByAdmin(e, room)
    ensures ReviewsAll(R.Step(rooms, e), room)
  {
    RG.LockedStep(rooms, e, room);
  }

  lemma NobodyPostsDirectly(rooms: map<Id, R.Room>, room: Id, user: User, now: nat)
    requires ReviewsAll(rooms, room)
    ensures R.PostSpec(rooms, room, user, now).1 != Direct
  {
    RG.LockedReviewAppliesToAll(rooms, [], room, user, now);
  }

  lemma RequestKeepsAllowed(s: System, c: L.Command, now: nat, room: Id)
    requires ReviewsAll(s.rooms, room) && PostsAllowed(s.db, room) && Answered(s, Request(c, now))
    ensures PostsAllowed(L.Step(s.db, c), room)
  {
    var after := L.Step(s.db, c);
    L.EveryStepIsGood(s.db, c);
    forall id | id in after.threads
      ensures after.threads[id].post.room.Some?
      ensures after.threads[id].post.room == Some(room) ==> L.TextWasAllowed(after.threads[id])
    {
      PostStaysAllowed(s, c, now, room, after, id);
    }
  }

  lemma PostStaysAllowed(s: System, c: L.Command, now: nat, room: Id, after: Rows, id: Id)
    requires ReviewsAll(s.rooms, room) && PostsAllowed(s.db, room) && Answered(s, Request(c, now))
    requires after == L.Step(s.db, c) && L.ThreadsFollow(s.db.threads, after.threads, L.Exempt(s.db, c)) && id in after.threads
    ensures after.threads[id].post.room.Some?
    ensures after.threads[id].post.room == Some(room) ==> L.TextWasAllowed(after.threads[id])
  {
    if id !in s.db.threads || after.threads[id] != s.db.threads[id] {
      assert id in s.db.threads ==> L.Grows(s.db.threads[id], after.threads[id]);
      if after.threads[id].post.room == Some(room) {
        NotExempt(s, c, now, room, id);
      }
    }
  }

  /** In such a room no post is created or changed without approval. */
  lemma NotExempt(s: System, c: L.Command, now: nat, room: Id, id: Id)
    requires ReviewsAll(s.rooms, room) && Answered(s, Request(c, now)) && L.Execute(s.db, c).Success?
    requires id in L.Step(s.db, c).threads && L.Step(s.db, c).threads[id].post.room == Some(room)
    requires id in s.db.threads ==> s.db.threads[id].post.room == Some(room)
    ensures L.Exempt(s.db, c) != Some(id)
  {
    if Asks(s.db, c).Some? {
      NobodyPostsDirectly(s.rooms, room, Asks(s.db, c).value.1, now);
    }
  }

  lemma {:induction false} RunKeepsAllowed(s: System, items: seq<Item>, room: Id)
    requires ReviewsAll(s.rooms, room) && PostsAllowed(s.db, room) && Connected(s, items) && ByOthers(items, room)
    ensures PostsAllowed(Run(s, items).db, room)
    decreases |items|
  {
    if items != [] {
      assert items[0] in items;
      match items[0] {
        case Governance(e) => GovernanceKeepsReview(s.rooms, e, room);
        case Request(c, now) => RequestKeepsAllowed(s, c, now, room);
      }
      RunKeepsAllowed(Step(s, items[0]), items[1..], room);
    }
  }

  /** As long as a room reviews everything and no administrator steps in, every text it shows was allowed. */
  lemma ReviewedRoomShowsOnlyAllowedText(s: System, items: seq<Item>, room: Id, id: Id)
    requires ReviewsAll(s.rooms, room) && PostsAllowed(s.db, room) && Connected(s, items) && ByOthers(items, room)
    requires var db := Run(s, items).db; id in db.threads && db.threads[id].post.room == Some(room) && Shown(db.threads[id].post)
    ensures var t := Run(s, items).db.threads[id];
            exists j, k ::
              && 0 <= j < |t.reviews| && 0 <= k < |t.revisions|
              && t.reviews[j].decision == Allow && t.reviews[j].version == t.revisions[k].version
              && t.revisions[k].Records(t.post.published)
  {
    RunKeepsAllowed(s, items, room);
    LG.ShownTextWasAllowed(Run(s, items).db, id);
  }

  /** Before the first post there is nothing to show. */
  lemma NothingPosted(room: Id)
    ensures PostsAllowed(L.EMPTY, room)
  {
  }
}
