/** What holds of tags, links and usage counts after any run. */
module TagGuarantees {
  import opened Wrappers
  import opened Tags

  // ---------- Counting live posts ----------

  function Carries(posts: map<Id, Post>, p: Id, t: Id): int {
    if p in posts && posts[p].live && t in posts[p].tags then 1 else 0
  }

  lemma OnePostChanged(posts: map<Id, Post>, p: Id, post: Post, t: Id)
    ensures var after := posts[p := post];
      |Live(after, t)| == |Live(posts, t)| + Carries(after, p, t) - Carries(posts, p, t)
  {
    var before, after := Live(posts, t), Live(posts[p := post], t);
    assert forall q | q != p :: q in after <==> q in before;
    SizeWithout(before, p);
    SizeWithout(after, p);
    assert after - {p} == before - {p};
  }

  lemma SizeWithout(s: set<Id>, p: Id)
    ensures |s| == |s - {p}| + if p in s then 1 else 0
  {
    if p !in s {
      assert s - {p} == s;
    }
  }

  lemma CarriedIsCounted(posts: map<Id, Post>, p: Id, t: Id)
    ensures Carries(posts, p, t) <= |Live(posts, t)|
  {
    if Carries(posts, p, t) == 1 {
      assert p in Live(posts, t);
    }
  }

  lemma NobodyCarries(db: Database, t: Id)
    requires LinksAreCurrent(db.tags, db.posts) && (t !in db.tags || db.tags[t].status.Merged?)
    ensures Live(db.posts, t) == {} && Carrying(db.posts, t) == {}
  {
  }

  function Dead(posts: map<Id, Post>, t: Id): set<Id> {
    set p | p in posts && t in posts[p].tags && !posts[p].live
  }

  lemma LiveAndDead(posts: map<Id, Post>, t: Id)
    ensures |Carrying(posts, t)| == |Live(posts, t)| + |Dead(posts, t)|
  {
    assert Carrying(posts, t) == Live(posts, t) + Dead(posts, t);
  }

  // ---------- How far a usage count is ahead of the live posts ----------

  function Drift(db: Database, t: Id): int
    requires t in db.tags
  {
    db.tags[t].usage - |Live(db.posts, t)|
  }

  predicate MergesInto(db: Database, a: Action, t: Id) {
    a.Merge? && a.target == t && Execute(db, a).Success?
  }

  predicate MergesAway(db: Database, a: Action, t: Id) {
    a.Merge? && a.source == t && Execute(db, a).Success?
  }

  lemma RetagDrift(db: Database, p: Id, ids: set<Id>, t: Id)
    requires Covers(db.tags, db.posts) && IsLive(db.posts, p) && t in db.tags
    ensures db.tags[t].usage + Change(t, db.posts[p].tags, ids) >= 0
    ensures Drift(Database(Recounted(db.tags, db.posts[p].tags, ids), db.posts[p := Post(true, ids)]), t) == Drift(db, t)
  {
    OnePostChanged(db.posts, p, Post(true, ids), t);
    CarriedIsCounted(db.posts, p, t);
  }

  lemma RemovePostDrift(db: Database, p: Id, t: Id)
    requires Covers(db.tags, db.posts) && IsLive(db.posts, p) && t in db.tags
    ensures t in db.posts[p].tags ==> db.tags[t].usage >= 1
    ensures Drift(Database(Bumped(db.tags, db.posts[p].tags, -1), db.posts[p := db.posts[p].(live := false)]), t) == Drift(db, t)
  {
    OnePostChanged(db.posts, p, db.posts[p].(live := false), t);
    CarriedIsCounted(db.posts, p, t);
  }

  lemma AddPostDrift(db: Database, p: Id, ids: set<Id>, t: Id)
    requires Covers(db.tags, db.posts) && p !in db.posts && t in db.tags
    ensures Drift(Database(Bumped(db.tags, ids, 1), db.posts[p := Post(true, ids)]), t) == Drift(db, t)
  {
    OnePostChanged(db.posts, p, Post(true, ids), t);
  }

  lemma MergeDrift(db: Database, source: Id, target: Id, t: Id)
    requires LinksAreCurrent(db.tags, db.posts) && MergeSpec(db, source, target).Success? && t in db.tags
    ensures var after := MergeSpec(db, source, target).value;
      Drift(after, t) == if t == target then |Dead(after.posts, t)| else if t == source then 0 else Drift(db, t)
  {
    var after := MergeSpec(db, source, target).value;
    if t == target {
      LiveAndDead(after.posts, t);
    } else if t == source {
      assert Live(after.posts, t) == {};
    } else {
      assert Live(after.posts, t) == Live(db.posts, t);
    }
  }

  lemma RemoveDrift(db: Database, id: Id, t: Id)
    requires RemoveSpec(db, id).Success? && t in db.tags && t != id
    ensures Drift(RemoveSpec(db, id).value, t) == Drift(db, t)
  {
    assert Live(Unlinked(db.posts, id), t) == Live(db.posts, t);
  }

  /** Only a merge into a tag moves its count away from its live posts: by the deleted posts it counts as well. */
  lemma OnlyMergesDrift(db: Database, a: Action, t: Id)
    requires Inv(db) && t in Step(db, a).tags
    ensures Drift(Step(db, a), t)
         == if MergesInto(db, a, t) then |Dead(Step(db, a).posts, t)|
            else if t !in db.tags || MergesAway(db, a, t) then 0
            else Drift(db, t)
  {
    if Execute(db, a).Success? {
      match a {
        case NewTag(id) => NobodyCarries(db, id);
        case AddPost(p, ids) => AddPostDrift(db, p, ids, t);
        case Retag(p, ids) => RetagDrift(db, p, ids, t);
        case RemovePost(p) => RemovePostDrift(db, p, t);
        case Remove(id) => RemoveDrift(db, id, t);
        case SetStatus(id, active) =>
        case Merge(source, target) => MergeDrift(db, source, target, t);
      }
    }
  }

  lemma StepKeepsCovers(db: Database, a: Action)
    requires Inv(db)
    ensures Covers(Step(db, a).tags, Step(db, a).posts)
  {
    var after := Step(db, a);
    forall t | t in after.tags ensures after.tags[t].usage >= |Live(after.posts, t)| {
      OnlyMergesDrift(db, a, t);
      assert t in db.tags ==> db.tags[t].usage >= |Live(db.posts, t)|;
    }
  }

  // ---------- Links and merges ----------

  lemma StepKeepsLinks(db: Database, a: Action)
    requires Inv(db)
    ensures LinksAreCurrent(Step(db, a).tags, Step(db, a).posts)
  {
  }

  lemma StepKeepsPointers(db: Database, a: Action)
    requires Inv(db)
    ensures MergesPointSomewhere(Step(db, a).tags)
  {
  }

  /** The tag a link moves to in one step. */
  function Moved(db: Database, a: Action, t: Id): Id {
    if MergesAway(db, a, t) then a.target else t
  }

  lemma {:induction false} FollowSame(tags: map<Id, Tag>, after: map<Id, Tag>, t: Id, n: nat)
    requires forall u | u in tags :: u in after && after[u].mergedInto == tags[u].mergedInto
    requires Follow(tags, t, n).Some?
    ensures Follow(after, t, n) == Follow(tags, t, n)
    decreases n
  {
    if tags[t].mergedInto.Some? {
      FollowSame(tags, after, tags[t].mergedInto.value, n - 1);
    }
  }

  lemma {:induction false} FollowWithout(tags: map<Id, Tag>, id: Id, t: Id, n: nat)
    requires !PointedAt(tags, id) && t != id && Follow(tags, t, n).Some?
    ensures Follow(tags - {id}, t, n) == Follow(tags, t, n)
    decreases n
  {
    if tags[t].mergedInto.Some? {
      FollowWithout(tags, id, tags[t].mergedInto.value, n - 1);
    }
  }

  lemma {:induction false} FollowMerged(tags: map<Id, Tag>, after: map<Id, Tag>, source: Id, target: Id, t: Id, n: nat)
    requires source in tags && target in tags && source != target
    requires tags[source].mergedInto.None? && tags[target].mergedInto.None?
    requires after.Keys == tags.Keys && after[source].mergedInto == Some(target)
    requires forall u | u in tags && u != source :: after[u].mergedInto == tags[u].mergedInto
    requires Follow(tags, t, n).Some?
    ensures Follow(after, t, n + 1) == Some(if Follow(tags, t, n).value == source then target else Follow(tags, t, n).value)
    decreases n
  {
    if t == source {
      assert Follow(after, target, n) == Some(target);
    } else if tags[t].mergedInto.Some? {
      FollowMerged(tags, after, source, target, tags[t].mergedInto.value, n - 1);
    }
  }

  lemma {:induction false} FollowMore(tags: map<Id, Tag>, t: Id, n: nat)
    requires Follow(tags, t, n).Some?
    ensures Follow(tags, t, n + 1) == Follow(tags, t, n)
    decreases n
  {
    if tags[t].mergedInto.Some? {
      FollowMore(tags, tags[t].mergedInto.value, n - 1);
    }
  }

  /** A step moves the end of a chain of merges exactly as it moves links. */
  lemma StepMovesEnds(db: Database, a: Action, t: Id, n: nat)
    requires MergesPointSomewhere(db.tags) && Follow(db.tags, t, n).Some?
    requires a == Remove(t) ==> Execute(db, a).Failure?
    ensures Follow(Step(db, a).tags, t, n + 1) == Some(Moved(db, a, Follow(db.tags, t, n).value))
  {
    var after := Step(db, a);
    if a.Merge? && Execute(db, a).Success? {
      FollowMerged(db.tags, after.tags, a.source, a.target, t, n);
    } else if a.Remove? && Execute(db, a).Success? {
      FollowWithout(db.tags, a.id, t, n);
      FollowMore(after.tags, t, n);
    } else {
      FollowSame(db.tags, after.tags, t, n);
      FollowMore(after.tags, t, n);
    }
  }

  lemma StepKeepsForest(db: Database, a: Action)
    requires Inv(db)
    ensures Forest(Step(db, a).tags)
  {
    var after := Step(db, a);
    forall t | t in after.tags ensures exists n :: Follow(after.tags, t, n).Some? {
      if t in db.tags {
        var n :| Follow(db.tags, t, n).Some?;
        StepMovesEnds(db, a, t, n);
      } else {
        assert Follow(after.tags, t, 0).Some?;
      }
    }
  }

  lemma StepKeepsInv(db: Database, a: Action)
    requires Inv(db)
    ensures Inv(Step(db, a))
  {
    StepKeepsLinks(db, a);
    StepKeepsPointers(db, a);
    StepKeepsForest(db, a);
    StepKeepsCovers(db, a);
  }

  lemma {:induction false} RunKeepsInv(db: Database, actions: seq<Action>)
    requires Inv(db)
    ensures Inv(RunFrom(db, actions))
    decreases |actions|
  {
    if actions != [] {
      StepKeepsInv(db, actions[0]);
      RunKeepsInv(Step(db, actions[0]), actions[1..]);
    }
  }

  // ---------- Guarantees over every run ----------

  predicate EndsUnmerged(tags: map<Id, Tag>, t: Id, n: nat) {
    var end := Follow(tags, t, n);
    end.Some? && end.value in tags && !tags[end.value].status.Merged?
  }

  /** Every chain of merges ends at an unmerged tag, and no post, live or deleted, carries a merged or missing tag. */
  lemma MergesFormAForest(actions: seq<Action>)
    ensures forall t | t in Run(actions).tags :: exists n :: EndsUnmerged(Run(actions).tags, t, n)
    ensures LinksAreCurrent(Run(actions).tags, Run(actions).posts)
  {
    RunKeepsInv(EMPTY, actions);
    var tags := Run(actions).tags;
    forall t | t in tags ensures exists n :: EndsUnmerged(tags, t, n) {
      var n :| Follow(tags, t, n).Some?;
      EndIsUnmerged(tags, t, n);
      assert EndsUnmerged(tags, t, n);
    }
  }

  lemma {:induction false} EndIsUnmerged(tags: map<Id, Tag>, t: Id, n: nat)
    requires Follow(tags, t, n).Some?
    ensures Follow(tags, t, n).value in tags && tags[Follow(tags, t, n).value].mergedInto.None?
    decreases n
  {
    if tags[t].mergedInto.Some? {
      EndIsUnmerged(tags, tags[t].mergedInto.value, n - 1);
    }
  }

  /** The cached count is never below the number of live posts that carry the tag. */
  lemma UsageCoversLivePosts(actions: seq<Action>)
    ensures Covers(Run(actions).tags, Run(actions).posts)
  {
    RunKeepsInv(EMPTY, actions);
  }

  /** Hence no decrement of a count is ever cut off at zero, whichever post is retagged or deleted. */
  lemma NeverTruncated(actions: seq<Action>, p: Id, ids: set<Id>, t: Id)
    requires IsLive(Run(actions).posts, p) && t in Run(actions).tags
    ensures Run(actions).tags[t].usage + Change(t, Run(actions).posts[p].tags, ids) >= 0
  {
    RunKeepsInv(EMPTY, actions);
    RetagDrift(Run(actions), p, ids, t);
  }

  lemma {:induction false} ExactWithoutMergesFrom(db: Database, actions: seq<Action>)
    requires Inv(db) && Exact(db.tags, db.posts) && forall a | a in actions :: !a.Merge?
    ensures var end := RunFrom(db, actions); Exact(end.tags, end.posts)
    decreases |actions|
  {
    if actions != [] {
      var after := Step(db, actions[0]);
      StepKeepsInv(db, actions[0]);
      forall t | t in after.tags ensures after.tags[t].usage == |Live(after.posts, t)| {
        OnlyMergesDrift(db, actions[0], t);
        assert t in db.tags ==> db.tags[t].usage == |Live(db.posts, t)|;
      }
      ExactWithoutMergesFrom(after, actions[1..]);
    }
  }

  /** Without merges the cached count is exactly the number of live posts that carry the tag. */
  lemma UsageIsExactWithoutMerges(actions: seq<Action>)
    requires forall a | a in actions :: !a.Merge?
    ensures Exact(Run(actions).tags, Run(actions).posts)
  {
    ExactWithoutMergesFrom(EMPTY, actions);
  }

  /** A merge leaves the count of its target exact if and only if no deleted post carries either of the two tags. */
  lemma MergeIsExactIff(actions: seq<Action>, source: Id, target: Id)
    requires MergeSpec(Run(actions), source, target).Success?
    ensures var db, after := Run(actions), MergeSpec(Run(actions), source, target).value;
      after.tags[target].usage == |Live(after.posts, target)|
      <==> Dead(db.posts, source) == {} && Dead(db.posts, target) == {}
  {
    var db, after := Run(actions), MergeSpec(Run(actions), source, target).value;
    RunKeepsInv(EMPTY, actions);
    MergeDrift(db, source, target, target);
    assert Dead(after.posts, target) == Dead(db.posts, source) + Dead(db.posts, target);
  }

  const UNUSED := Tag(Active, None, 0)
  const USED_ONCE := Tag(Active, None, 1)
  const TWO_TAGS := map[0 := UNUSED, 1 := UNUSED]

  lemma MergeAfterDeletion()
    ensures var db := Step(Database(TWO_TAGS, map[0 := Post(false, {0})]), Merge(0, 1));
      1 in db.tags && db.tags[1].usage == 1 && Live(db.posts, 1) == {}
  {
    var posts := Relinked(map[0 := Post(false, {0})], 0, 1);
    assert Replaced({0}, 0, 1) == {1};
    assert posts == map[0 := Post(false, {1})];
    assert Carrying(posts, 1) == {0};
  }

  lemma PostAndDelete()
    ensures Step(Step(Database(TWO_TAGS, map[]), AddPost(0, {0})), RemovePost(0)) == Database(TWO_TAGS, map[0 := Post(false, {0})])
  {
    var posted := Step(Database(TWO_TAGS, map[]), AddPost(0, {0}));
    assert posted == Database(map[0 := USED_ONCE, 1 := UNUSED], map[0 := Post(true, {0})]);
  }

  lemma RunCons(db: Database, a: Action, rest: seq<Action>)
    ensures RunFrom(db, [a] + rest) == RunFrom(Step(db, a), rest)
  {
    assert ([a] + rest)[1..] == rest;
  }

  /** A post is deleted and its tag merged into another: the other is counted once and carried by no live post. */
  lemma MergeCountsDeletedPost() returns (actions: seq<Action>)
    ensures var db := Run(actions); 1 in db.tags && db.tags[1].usage == 1 && Live(db.posts, 1) == {}
  {
    var last := [Merge(0, 1)] + [];
    var posting := [AddPost(0, {0})] + ([RemovePost(0)] + last);
    actions := [NewTag(0)] + ([NewTag(1)] + posting);
    assert Step(Step(EMPTY, NewTag(0)), NewTag(1)) == Database(TWO_TAGS, map[]);
    RunCons(EMPTY, NewTag(0), [NewTag(1)] + posting);
    RunCons(Step(EMPTY, NewTag(0)), NewTag(1), posting);
    var s := Database(TWO_TAGS, map[]);
    RunCons(s, AddPost(0, {0}), [RemovePost(0)] + last);
    RunCons(Step(s, AddPost(0, {0})), RemovePost(0), last);
    PostAndDelete();
    RunCons(Database(TWO_TAGS, map[0 := Post(false, {0})]), Merge(0, 1), []);
    MergeAfterDeletion();
  }

  /** Where the merges of a run take a tag. */
  function Renamed(db: Database, actions: seq<Action>, t: Id): Id
    decreases |actions|
  {
    if actions == [] then t else Renamed(Step(db, actions[0]), actions[1..], Moved(db, actions[0], t))
  }

  function MovedAll(db: Database, a: Action, ids: set<Id>): set<Id> {
    set t | t in ids :: Moved(db, a, t)
  }

  predicate Leaves(a: Action, p: Id) {
    !(a.Retag? && a.post == p) && !(a.RemovePost? && a.post == p)
  }

  lemma RemovedIsNotCarried(db: Database, id: Id, p: Id)
    requires IsLive(db.posts, p)
    ensures RemoveSpec(db, id).Success? ==> id !in db.posts[p].tags
  {
    assert id in db.posts[p].tags ==> p in Live(db.posts, id);
  }

  lemma StepMovesLinks(db: Database, a: Action, p: Id)
    requires IsLive(db.posts, p) && Leaves(a, p)
    ensures IsLive(Step(db, a).posts, p)
    ensures Step(db, a).posts[p].tags == MovedAll(db, a, db.posts[p].tags)
  {
    var before, after := db.posts[p].tags, Step(db, a).posts[p].tags;
    if a.Remove? {
      RemovedIsNotCarried(db, a.id, p);
    }
    if a.Merge? && Execute(db, a).Success? {
      forall u ensures u in after <==> exists t :: t in before && u == Moved(db, a, t) {
        if u in after && u != a.target {
          assert u == Moved(db, a, u);
        } else if u in after {
          assert u == Moved(db, a, if a.target in before then a.target else a.source);
        }
      }
    } else {
      assert forall t | t in before :: Moved(db, a, t) == t;
    }
  }

  function RenamedAll(db: Database, actions: seq<Action>, ids: set<Id>): set<Id> {
    set t | t in ids :: Renamed(db, actions, t)
  }

  lemma RenamedStepwise(db: Database, actions: seq<Action>, ids: set<Id>)
    requires actions != []
    ensures RenamedAll(db, actions, ids) == RenamedAll(Step(db, actions[0]), actions[1..], MovedAll(db, actions[0], ids))
  {
    var after, moved := Step(db, actions[0]), MovedAll(db, actions[0], ids);
    forall t | t in ids ensures Renamed(db, actions, t) in RenamedAll(after, actions[1..], moved) {
      assert Moved(db, actions[0], t) in moved;
    }
    forall u | u in moved ensures Renamed(after, actions[1..], u) in RenamedAll(db, actions, ids) {
      var t :| t in ids && u == Moved(db, actions[0], t);
      assert Renamed(after, actions[1..], u) == Renamed(db, actions, t);
    }
  }

  /** A live post that nobody edits carries, at any later time, exactly the tags its tags were merged into. */
  lemma {:induction false} LinksFollowMerges(db: Database, actions: seq<Action>, p: Id)
    requires IsLive(db.posts, p) && forall a | a in actions :: Leaves(a, p)
    ensures IsLive(RunFrom(db, actions).posts, p)
    ensures RunFrom(db, actions).posts[p].tags == RenamedAll(db, actions, db.posts[p].tags)
    decreases |actions|
  {
    if actions == [] {
      assert forall t | t in db.posts[p].tags :: t == Renamed(db, actions, t);
    } else {
      var a, after := actions[0], Step(db, actions[0]);
      StepMovesLinks(db, a, p);
      LinksFollowMerges(after, actions[1..], p);
      RenamedStepwise(db, actions, db.posts[p].tags);
    }
  }

  /** The record of merges agrees: following it from a tag that still exists ends where its links went. */
  lemma {:induction false} RecordAgreesWithLinks(db: Database, actions: seq<Action>, t: Id, n: nat) returns (m: nat)
    requires Inv(db) && Follow(db.tags, t, n).Some? && Remove(t) !in actions
    ensures Follow(RunFrom(db, actions).tags, t, m) == Some(Renamed(db, actions, Follow(db.tags, t, n).value))
    decreases |actions|
  {
    m := n;
    if actions != [] {
      StepMovesEnds(db, actions[0], t, n);
      StepKeepsInv(db, actions[0]);
      m := RecordAgreesWithLinks(Step(db, actions[0]), actions[1..], t, n + 1);
    }
  }
}
