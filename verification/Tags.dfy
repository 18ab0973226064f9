/** Tags: cached usage counts against the links of the posts, and merging. */
module Tags {
  import opened Wrappers

  type Id = nat

  datatype Status = Active | Inactive | Merged
  datatype Tag = Tag(status: Status, mergedInto: Option<Id>, usage: int)

  /** A post and its links; a soft-deleted post keeps them. */
  datatype Post = Post(live: bool, tags: set<Id>)

  datatype Database = Database(tags: map<Id, Tag>, posts: map<Id, Post>)

  datatype Error = NotFound | InUse | Referenced | IntoItself | WrongStatus | NotActive | AlreadyMerged

  // ---------- Reading ----------

  function Carrying(posts: map<Id, Post>, tag: Id): set<Id> {
    set p | p in posts && tag in posts[p].tags
  }

  /** The live posts that carry the tag. */
  function Live(posts: map<Id, Post>, tag: Id): set<Id> {
    set p | p in posts && tag in posts[p].tags && posts[p].live
  }

  /** Every listed tag exists and is active. */
  predicate AllActive(tags: map<Id, Tag>, ids: set<Id>) {
    forall id | id in ids :: id in tags && tags[id].status.Active?
  }

  predicate IsLive(posts: map<Id, Post>, p: Id) {
    p in posts && posts[p].live
  }

  predicate PointedAt(tags: map<Id, Tag>, id: Id) {
    exists t | t in tags :: tags[t].mergedInto == Some(id)
  }

  // ---------- What the operations mean ----------

  function AtLeastZero(n: int): int {
    if n < 0 then 0 else n
  }

  function Bumped(tags: map<Id, Tag>, ids: set<Id>, delta: int): map<Id, Tag> {
    map id | id in tags ::
      if id in ids then tags[id].(usage := AtLeastZero(tags[id].usage + delta)) else tags[id]
  }

  function Change(id: Id, before: set<Id>, after: set<Id>): int {
    (if id in after then 1 else 0) - (if id in before then 1 else 0)
  }

  function Recounted(tags: map<Id, Tag>, before: set<Id>, after: set<Id>): map<Id, Tag> {
    map id | id in tags ::
      if Change(id, before, after) == 0 then tags[id]
      else tags[id].(usage := AtLeastZero(tags[id].usage + Change(id, before, after)))
  }

  function Replaced(ids: set<Id>, source: Id, target: Id): set<Id> {
    if source in ids then ids - {source} + {target} else ids
  }

  function Relinked(posts: map<Id, Post>, source: Id, target: Id): map<Id, Post> {
    map p | p in posts :: posts[p].(tags := Replaced(posts[p].tags, source, target))
  }

  function Unlinked(posts: map<Id, Post>, tag: Id): map<Id, Post> {
    map p | p in posts :: posts[p].(tags := posts[p].tags - {tag})
  }

  function AlsoLinked(posts: map<Id, Post>, source: Id, target: Id): map<Id, Post> {
    map p | p in posts :: if source in posts[p].tags then posts[p].(tags := posts[p].tags + {target}) else posts[p]
  }

  /** Inserting the links to the target and then deleting those to the source replaces one by the other. */
  lemma TwoStatementsRelink(posts: map<Id, Post>, source: Id, target: Id)
    requires source != target
    ensures Unlinked(AlsoLinked(posts, source, target), source) == Relinked(posts, source, target)
  {
    forall p | p in posts
      ensures AlsoLinked(posts, source, target)[p].tags - {source} == Replaced(posts[p].tags, source, target)
    {
    }
  }

  function AddPostSpec(db: Database, p: Id, ids: set<Id>): Result<Database, Error> {
    if !AllActive(db.tags, ids) then Failure(NotActive)
    else if p in db.posts then Failure(InUse)
    else Success(Database(Bumped(db.tags, ids, 1), db.posts[p := Post(true, ids)]))
  }

  function RetagSpec(db: Database, p: Id, ids: set<Id>): Result<Database, Error> {
    if !IsLive(db.posts, p) then Failure(NotFound)
    else if !AllActive(db.tags, ids) then Failure(NotActive)
    else Success(Database(Recounted(db.tags, db.posts[p].tags, ids), db.posts[p := Post(true, ids)]))
  }

  function RemovePostSpec(db: Database, p: Id): Result<Database, Error> {
    if !IsLive(db.posts, p) then Failure(NotFound)
    else Success(Database(Bumped(db.tags, db.posts[p].tags, -1), db.posts[p := db.posts[p].(live := false)]))
  }

  function RemoveSpec(db: Database, id: Id): Result<Database, Error> {
    if id !in db.tags then Failure(NotFound)
    else if Live(db.posts, id) != {} then Failure(InUse)
    else if PointedAt(db.tags, id) then Failure(Referenced)
    else Success(Database(db.tags - {id}, Unlinked(db.posts, id)))
  }

  function SetStatusSpec(db: Database, id: Id, active: bool): Result<Database, Error> {
    if id !in db.tags then Failure(NotFound)
    else if db.tags[id].status.Merged? then Failure(AlreadyMerged)
    else Success(db.(tags := db.tags[id := db.tags[id].(status := if active then Active else Inactive)]))
  }

  function MergeSpec(db: Database, source: Id, target: Id): Result<Database, Error> {
    if source == target then Failure(IntoItself)
    else if source !in db.tags || target !in db.tags then Failure(NotFound)
    else if db.tags[source].status.Merged? || !db.tags[target].status.Active? then Failure(WrongStatus)
    else
      var posts := Relinked(db.posts, source, target);
      Success(Database(
        db.tags[source := Tag(Merged, Some(target), 0)]
               [target := db.tags[target].(usage := |Carrying(posts, target)|)],
        posts))
  }

  // ---------- The operations, statement by statement ----------

  class TagsService {
    var tags: map<Id, Tag>
    var posts: map<Id, Post>

    constructor ()
      ensures Snapshot() == Database(map[], map[])
    {
      tags, posts := map[], map[];
    }

    function Snapshot(): Database
      reads this
    {
      Database(tags, posts)
    }

    /** One UPDATE for each tag. */
    method TagCounts(ids: set<Id>, delta: int)
      modifies this`tags
      ensures tags == Bumped(old(tags), ids, delta)
    {
      var todo := ids;
      while todo != {}
        invariant todo <= ids && tags == Bumped(old(tags), ids - todo, delta)
        decreases |todo|
      {
        var id :| id in todo;
        todo := todo - {id};
        if id in tags {
          tags := tags[id := tags[id].(usage := AtLeastZero(tags[id].usage + delta))];
        }
      }
    }

    method AddPost(p: Id, ids: set<Id>) returns (r: Result<(), Error>)
      modifies this
      ensures var spec := AddPostSpec(old(Snapshot()), p, ids);
        if spec.Failure? then r == Failure(spec.error) && Snapshot() == old(Snapshot())
        else r == Success(()) && Snapshot() == spec.value
    {
      if !AllActive(tags, ids) { return Failure(NotActive); }
      if p in posts { return Failure(InUse); }
      posts := posts[p := Post(true, ids)];
      TagCounts(ids, 1);
      r := Success(());
    }

    /** The direct edit of a post: first the tags it loses, then the tags it gains. */
    method Retag(p: Id, ids: set<Id>) returns (r: Result<(), Error>)
      modifies this
      ensures var spec := RetagSpec(old(Snapshot()), p, ids);
        if spec.Failure? then r == Failure(spec.error) && Snapshot() == old(Snapshot())
        else r == Success(()) && Snapshot() == spec.value
    {
      if !IsLive(posts, p) { return Failure(NotFound); }
      if !AllActive(tags, ids) { return Failure(NotActive); }
      var before := posts[p].tags;
      TagCounts(before - ids, -1);
      TagCounts(ids - before, 1);
      posts := posts[p := Post(true, ids)];
      r := Success(());
    }

    method TagDeltas(before: set<Id>, ids: set<Id>)
      modifies this`tags
      ensures tags == Recounted(old(tags), before, ids)
    {
      var affected := before + ids;
      while affected != {}
        invariant affected <= before + ids
        invariant tags == map id | id in old(tags) ::
                    if id in affected then old(tags)[id] else Recounted(old(tags), before, ids)[id]
        decreases |affected|
      {
        var id :| id in affected;
        var delta := (if id in ids then 1 else 0) - (if id in before then 1 else 0);
        affected := affected - {id};
        if delta != 0 && id in tags {
          tags := tags[id := tags[id].(usage := AtLeastZero(tags[id].usage + delta))];
        }
      }
      assert forall id | id in old(tags) :: tags[id] == Recounted(old(tags), before, ids)[id];
    }

    /** The approval of a draft: one pass over all affected tags. */
    method PromoteTags(p: Id, ids: set<Id>) returns (r: Result<(), Error>)
      modifies this
      ensures var spec := RetagSpec(old(Snapshot()), p, ids);
        if spec.Failure? then r == Failure(spec.error) && Snapshot() == old(Snapshot())
        else r == Success(()) && Snapshot() == spec.value
    {
      if !IsLive(posts, p) { return Failure(NotFound); }
      if !AllActive(tags, ids) { return Failure(NotActive); }
      var before := posts[p].tags;
      TagDeltas(before, ids);
      posts := posts[p := Post(true, ids)];
      r := Success(());
    }

    method RemovePost(p: Id) returns (r: Result<(), Error>)
      modifies this
      ensures var spec := RemovePostSpec(old(Snapshot()), p);
        if spec.Failure? then r == Failure(spec.error) && Snapshot() == old(Snapshot())
        else r == Success(()) && Snapshot() == spec.value
    {
      if !IsLive(posts, p) { return Failure(NotFound); }
      posts := posts[p := posts[p].(live := false)];
      TagCounts(posts[p].tags, -1);
      r := Success(());
    }

    method Remove(id: Id) returns (r: Result<(), Error>)
      modifies this
      ensures var spec := RemoveSpec(old(Snapshot()), id);
        if spec.Failure? then r == Failure(spec.error) && Snapshot() == old(Snapshot())
        else r == Success(()) && Snapshot() == spec.value
    {
      if id !in tags { return Failure(NotFound); }
      if exists p | p in posts :: posts[p].live && id in posts[p].tags {
        ghost var p :| p in posts && posts[p].live && id in posts[p].tags;
        assert p in Live(posts, id);
        return Failure(InUse);
      }
      if PointedAt(tags, id) { return Failure(Referenced); }
      posts := Unlinked(posts, id);
      tags := tags - {id};
      r := Success(());
    }

    method SetStatus(id: Id, active: bool) returns (r: Result<(), Error>)
      modifies this
      ensures var spec := SetStatusSpec(old(Snapshot()), id, active);
        if spec.Failure? then r == Failure(spec.error) && Snapshot() == old(Snapshot())
        else r == Success(()) && Snapshot() == spec.value
    {
      if id !in tags { return Failure(NotFound); }
      if tags[id].status.Merged? { return Failure(AlreadyMerged); }
      tags := tags[id := tags[id].(status := if active then Active else Inactive)];
      r := Success(());
    }

    method Merge(source: Id, target: Id) returns (r: Result<(), Error>)
      modifies this
      ensures var spec := MergeSpec(old(Snapshot()), source, target);
        if spec.Failure? then r == Failure(spec.error) && Snapshot() == old(Snapshot())
        else r == Success(()) && Snapshot() == spec.value
    {
      if source == target { return Failure(IntoItself); }
      if source !in tags || target !in tags { return Failure(NotFound); }
      if tags[source].status.Merged? || !tags[target].status.Active? { return Failure(WrongStatus); }
      TwoStatementsRelink(posts, source, target);
      posts := AlsoLinked(posts, source, target);
      posts := Unlinked(posts, source);
      tags := tags[source := Tag(Merged, Some(target), 0)];
      var count := |Carrying(posts, target)|;
      tags := tags[target := tags[target].(usage := count)];
      r := Success(());
    }
  }

  // ---------- Runs ----------

  datatype Action =
    | NewTag(id: Id)
    | AddPost(post: Id, ids: set<Id>)
    | Retag(post: Id, ids: set<Id>)
    | RemovePost(post: Id)
    | Remove(id: Id)
    | SetStatus(id: Id, active: bool)
    | Merge(source: Id, target: Id)

  function Execute(db: Database, a: Action): Result<Database, Error> {
    match a
    case NewTag(id) =>
      if id in db.tags then Failure(InUse) else Success(db.(tags := db.tags[id := Tag(Active, None, 0)]))
    case AddPost(p, ids) => AddPostSpec(db, p, ids)
    case Retag(p, ids) => RetagSpec(db, p, ids)
    case RemovePost(p) => RemovePostSpec(db, p)
    case Remove(id) => RemoveSpec(db, id)
    case SetStatus(id, active) => SetStatusSpec(db, id, active)
    case Merge(source, target) => MergeSpec(db, source, target)
  }

  function Step(db: Database, a: Action): Database {
    match Execute(db, a)
    case Success(after) => after
    case Failure(_) => db
  }

  function RunFrom(db: Database, actions: seq<Action>): Database
    decreases |actions|
  {
    if actions == [] then db else RunFrom(Step(db, actions[0]), actions[1..])
  }

  const EMPTY := Database(map[], map[])

  function Run(actions: seq<Action>): Database {
    RunFrom(EMPTY, actions)
  }

  // ---------- Invariants ----------

  /** Posts carry only existing, unmerged tags. */
  ghost predicate LinksAreCurrent(tags: map<Id, Tag>, posts: map<Id, Post>) {
    forall p, t | p in posts && t in posts[p].tags :: t in tags && !tags[t].status.Merged?
  }

  ghost predicate MergesPointSomewhere(tags: map<Id, Tag>) {
    forall t | t in tags ::
      (tags[t].status.Merged? <==> tags[t].mergedInto.Some?)
      && (tags[t].mergedInto.Some? ==> tags[t].mergedInto.value in tags)
  }

  /** Follows at most `n` merges; the unmerged tag at the end. */
  function Follow(tags: map<Id, Tag>, t: Id, n: nat): Option<Id>
    decreases n
  {
    if t !in tags then None
    else if tags[t].mergedInto.None? then Some(t)
    else if n == 0 then None
    else Follow(tags, tags[t].mergedInto.value, n - 1)
  }

  ghost predicate Forest(tags: map<Id, Tag>) {
    forall t | t in tags :: exists n :: Follow(tags, t, n).Some?
  }

  ghost predicate Covers(tags: map<Id, Tag>, posts: map<Id, Post>) {
    forall t | t in tags :: tags[t].usage >= |Live(posts, t)|
  }

  ghost predicate Exact(tags: map<Id, Tag>, posts: map<Id, Post>) {
    forall t | t in tags :: tags[t].usage == |Live(posts, t)|
  }

  ghost predicate Inv(db: Database) {
    && LinksAreCurrent(db.tags, db.posts)
    && MergesPointSomewhere(db.tags)
    && Forest(db.tags)
    && Covers(db.tags, db.posts)
  }
}
