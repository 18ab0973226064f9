/** What each operation on tags does to the tags, the links and the counts, and when it is refused. */
module TagEffects {
  import opened Wrappers
  import opened Tags
  import opened TagGuarantees

  function One(b: bool): int {
    if b then 1 else 0
  }

  predicate Usable(db: Database, ids: set<Id>) {
    forall id | id in ids :: id in db.tags && db.tags[id].status == Active
  }

  /** Other posts keep their links, and tags change in nothing but their counts. */
  predicate OnlyPost(before: Database, after: Database, p: Id) {
    && after.posts.Keys == before.posts.Keys + {p} && (forall q | q in before.posts && q != p :: after.posts[q] == before.posts[q])
    && after.tags.Keys == before.tags.Keys
    && (forall t | t in before.tags :: after.tags[t].status == before.tags[t].status && after.tags[t].mergedInto == before.tags[t].mergedInto)
  }

  lemma CountsArePositive(db: Database, t: Id)
    requires Inv(db) && t in db.tags
    ensures db.tags[t].usage >= 0
  {
    assert db.tags[t].usage >= |Live(db.posts, t)|;
  }

  /** A new post gets exactly the tags it asks for, all of them active, and each is counted once more. */
  lemma AddPostTakesEffect(db: Database, p: Id, ids: set<Id>, t: Id)
    requires Inv(db)
    ensures var r := Execute(db, AddPost(p, ids));
      && (r.Success? <==> Usable(db, ids) && p !in db.posts)
      && (r == Failure(NotActive) <==> !Usable(db, ids))
      && (r.Success? ==>
            && OnlyPost(db, r.value, p) && r.value.posts[p] == Post(true, ids)
            && (t in db.tags ==> r.value.tags[t].usage == db.tags[t].usage + One(t in ids)))
  {
    if t in db.tags {
      CountsArePositive(db, t);
    }
  }

  /** An edited live post has exactly the tags asked for; what it lost is counted once less, what it gained once more. */
  lemma RetagTakesEffect(db: Database, p: Id, ids: set<Id>, t: Id)
    requires Inv(db)
    ensures var r := Execute(db, Retag(p, ids));
      && (r.Success? <==> p in db.posts && db.posts[p].live && Usable(db, ids))
      && (r.Failure? ==> r.error == if IsLive(db.posts, p) then NotActive else NotFound)
      && (r.Success? ==>
            && OnlyPost(db, r.value, p) && r.value.posts[p] == Post(true, ids)
            && (t in db.tags ==> r.value.tags[t].usage == db.tags[t].usage + One(t in ids) - One(t in db.posts[p].tags)))
  {
    if t in db.tags && IsLive(db.posts, p) {
      RetagDrift(db, p, ids, t);
    }
  }

  /** A deleted post keeps its links, and its tags are each counted once less. */
  lemma RemovePostTakesEffect(db: Database, p: Id, t: Id)
    requires Inv(db)
    ensures var r := Execute(db, RemovePost(p));
      && (r.Success? <==> p in db.posts && db.posts[p].live)
      && (r.Failure? ==> r.error == NotFound)
      && (r.Success? ==>
            && OnlyPost(db, r.value, p) && r.value.posts[p] == Post(false, db.posts[p].tags)
            && (t in db.tags ==> r.value.tags[t].usage == db.tags[t].usage - One(t in db.posts[p].tags)))
  {
    if t in db.tags && IsLive(db.posts, p) {
      RemovePostDrift(db, p, t);
      CountsArePositive(db, t);
    }
  }

  /** A tag is removed exactly when no live post carries it and nothing was merged into it; its links go with it. */
  lemma RemoveTakesEffect(db: Database, id: Id, p: Id, t: Id)
    ensures var r := Execute(db, Remove(id));
      && (r.Success? <==>
            && id in db.tags
            && (forall q | q in db.posts :: db.posts[q].live ==> id !in db.posts[q].tags)
            && (forall u | u in db.tags :: db.tags[u].mergedInto != Some(id)))
      && (r == Failure(NotFound) <==> id !in db.tags)
      && (r == Failure(InUse) <==> id in db.tags && Live(db.posts, id) != {})
      && (r.Success? ==>
            && r.value.tags.Keys == db.tags.Keys - {id} && (t in db.tags && t != id ==> r.value.tags[t] == db.tags[t])
            && r.value.posts.Keys == db.posts.Keys
            && (p in db.posts ==>
                  r.value.posts[p].live == db.posts[p].live
                  && (t in r.value.posts[p].tags <==> t in db.posts[p].tags && t != id)))
  {
    if exists q :: q in db.posts && db.posts[q].live && id in db.posts[q].tags {
      var q :| q in db.posts && db.posts[q].live && id in db.posts[q].tags;
      assert q in Live(db.posts, id);
    } else {
      assert Live(db.posts, id) == {};
    }
  }

  lemma SetStatusTakesEffect(db: Database, id: Id, active: bool, t: Id)
    ensures var r := Execute(db, SetStatus(id, active));
      && (r.Success? <==> id in db.tags && db.tags[id].status != Merged)
      && (r.Failure? ==> r.error == if id in db.tags then AlreadyMerged else NotFound)
      && (r.Success? ==>
            && r.value.posts == db.posts && r.value.tags.Keys == db.tags.Keys
            && r.value.tags[id].status == (if active then Active else Inactive)
            && r.value.tags[id].usage == db.tags[id].usage && r.value.tags[id].mergedInto == db.tags[id].mergedInto
            && (t in db.tags && t != id ==> r.value.tags[t] == db.tags[t]))
  {
  }

  /** A merge: whoever carried either tag carries the target and not the source, nothing else is relinked, the source is
      marked and counts nothing, and the target counts the posts, live or deleted, that carried either. */
  lemma MergeTakesEffect(db: Database, source: Id, target: Id, p: Id, t: Id)
    ensures var r := Execute(db, Merge(source, target));
      && (r.Success? <==>
            && source != target && source in db.tags && target in db.tags
            && db.tags[source].status != Merged && db.tags[target].status == Active)
      && (r == Failure(IntoItself) <==> source == target)
      && (r == Failure(NotFound) <==> source != target && !(source in db.tags && target in db.tags))
      && (r.Failure? ==> r.error == IntoItself || r.error == NotFound || r.error == WrongStatus)
      && (r.Success? ==>
            && r.value.tags.Keys == db.tags.Keys && r.value.posts.Keys == db.posts.Keys
            && r.value.tags[source] == Tag(Merged, Some(target), 0)
            && r.value.tags[target].status == Active && r.value.tags[target].mergedInto == db.tags[target].mergedInto
            && r.value.tags[target].usage == |set q | q in db.posts && (source in db.posts[q].tags || target in db.posts[q].tags)|
            && (t in db.tags && t != source && t != target ==> r.value.tags[t] == db.tags[t])
            && (p in db.posts ==>
                  && r.value.posts[p].live == db.posts[p].live
                  && source !in r.value.posts[p].tags
                  && (target in r.value.posts[p].tags <==> source in db.posts[p].tags || target in db.posts[p].tags)
                  && (t != source && t != target ==> (t in r.value.posts[p].tags <==> t in db.posts[p].tags))))
  {
    if Execute(db, Merge(source, target)).Success? {
      assert Carrying(Relinked(db.posts, source, target), target)
          == set q | q in db.posts && (source in db.posts[q].tags || target in db.posts[q].tags);
    }
  }

  /** Over runs: a live post carries what its last request asked for, renamed by the merges since then. */
  lemma LastRequestThenMerges(db: Database, a: Action, later: seq<Action>, p: Id, ids: set<Id>)
    requires Inv(db) && (a == AddPost(p, ids) || a == Retag(p, ids)) && Execute(db, a).Success?
    requires forall x | x in later :: Leaves(x, p)
    ensures var end := RunFrom(Step(db, a), later);
      IsLive(end.posts, p) && end.posts[p].tags == RenamedAll(Step(db, a), later, ids)
  {
    if a.AddPost? {
      AddPostTakesEffect(db, p, ids, 0);
    } else {
      RetagTakesEffect(db, p, ids, 0);
    }
    LinksFollowMerges(Step(db, a), later, p);
  }
}
