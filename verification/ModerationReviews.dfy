/** Review of posts by moderators and room managers. */
module ModerationReviews {
  import opened Wrappers
  import opened Content

  /** The reviewer repeats what they saw; `note` is the trimmed note, empty when absent. */
  datatype Verdict = Verdict(expectedModeration: Option<Moderation>, decision: Decision,
                             expectedVersion: nat, expectedContent: string, note: string)
  {
    function Expected(): Moderation {
      expectedModeration.GetOr(Pending)
    }
  }

  /** The draft under review; a draft kept from an earlier rejection is not. */
  function UnderReview(post: Post): Option<Body> {
    if post.moderation == Pending then post.draft else None
  }

  predicate Stale(post: Post, verdict: Verdict) {
    || post.moderation != verdict.Expected()
    || post.version != verdict.expectedVersion
    || UnderReview(post).GetOr(post.published).content != verdict.expectedContent
  }

  predicate InScope(user: User, managedRooms: set<Id>, post: Post) {
    user.Privileged() || (post.room.Some? && post.room.value in managedRooms)
  }

  function Judged(post: Post, verdict: Verdict): Post {
    var draft := UnderReview(post);
    if verdict.decision == Allow then
      post.(published := draft.GetOr(post.published),
            draft := if draft.Some? then None else post.draft,
            moderation := Approved, visibility := Visible)
    else if draft.Some? && post.visibility == Visible then
      post.(moderation := Approved)
    else
      post.(moderation := Rejected, visibility := Hidden)
  }

  /** Acceptances end when the published text is replaced or hidden. */
  predicate EndsAcceptance(post: Post, verdict: Verdict) {
    (verdict.decision == Allow && UnderReview(post).Some?) || Judged(post, verdict).visibility == Hidden
  }

  function Reviewed(thread: Thread, verdict: Verdict, reviewer: Id): Thread {
    var judged := Judged(thread.post, verdict);
    var ends := EndsAcceptance(thread.post, verdict);
    var post :=
      if ends then judged.(acceptedAnswer := None, acceptedComment := None,
                           status := if judged.status == Solved then Open else judged.status)
      else judged;
    thread.(post := post.(note := verdict.note),
            ledger := if ends then RevokeAll(thread.ledger) else thread.ledger,
            reviews := thread.reviews + [Review(post.version, verdict.decision, verdict.note, reviewer)])
  }

  function ReviewSpec(db: Rows, id: Id, user: User, verdict: Verdict,
                      managedRooms: set<Id>, mediaValid: bool, activeTags: set<Id>): Result<Rows, Error>
  {
    var _ :- Authenticated(user);
    :- Need(user.Privileged() || managedRooms != {}, Forbidden);
    :- Need(verdict.decision == Allow || verdict.note != "", BadRequest);
    var thread :- LockPost(db.threads, id);
    :- Need(InScope(user, managedRooms, thread.post), Forbidden);
    :- Need(!Stale(thread.post, verdict), Conflict);
    :- Need(verdict.decision == Allow ==> mediaValid, BadRequest);
    var draft := UnderReview(thread.post);
    :- Need(verdict.decision == Allow && draft.Some? ==> draft.value.tags <= activeTags, BadRequest);
    Success(db.(threads := db.threads[id := Reviewed(thread, verdict, user.id.value)]))
  }

  class ModerationService {
    const db: Database

    constructor (db: Database)
      ensures this.db == db
    {
      this.db := db;
    }

    method Review(id: Id, user: User, verdict: Verdict, managedRooms: set<Id>, mediaValid: bool, activeTags: set<Id>)
      returns (r: Result<(), Error>)
      modifies db
      ensures var spec := ReviewSpec(old(db.Snapshot()), id, user, verdict, managedRooms, mediaValid, activeTags);
              r == Reply(spec) && db.Snapshot() == Committed(old(db.Snapshot()), spec)
    {
      var _ :- Authenticated(user);
      :- Need(user.Privileged() || managedRooms != {}, Forbidden);
      :- Need(verdict.decision == Allow || verdict.note != "", BadRequest);
      var thread :- LockPost(db.threads, id);
      var post := thread.post;
      :- Need(InScope(user, managedRooms, post), Forbidden);
      :- Need(!Stale(post, verdict), Conflict);
      if verdict.decision == Allow {
        if !mediaValid {
          return Failure(BadRequest);
        }
        if post.moderation == Pending && post.draft.Some? && !(post.draft.value.tags <= activeTags) {
          return Failure(BadRequest);
        }
      }
      thread := Decide(thread, verdict, user.id.value);
      db.threads := db.threads[id := thread];
      return Success(());
    }

    method Decide(thread: Thread, verdict: Verdict, reviewer: Id) returns (r: Thread)
      ensures r == Reviewed(thread, verdict, reviewer)
    {
      var post, ledger := thread.post, thread.ledger;
      var draft := if post.moderation == Pending then post.draft else None;
      if verdict.decision == Allow {
        if draft.Some? {
          post := post.(published := draft.value);
          post := post.(draft := None);
        }
        post := post.(moderation := Approved);
        post := post.(visibility := Visible);
      } else if draft.Some? && post.visibility == Visible {
        // Only the proposed revision is rejected; the published version stays readable.
        post := post.(moderation := Approved);
      } else {
        post := post.(moderation := Rejected);
        post := post.(visibility := Hidden);
      }
      if (verdict.decision == Allow && draft.Some?) || post.visibility == Hidden {
        ledger := RevokeAll(ledger);
        post := post.(acceptedAnswer := None);
        post := post.(acceptedComment := None);
        if post.status == Solved {
          post := post.(status := Open);
        }
      }
      post := post.(note := verdict.note);
      var review := Content.Review(post.version, verdict.decision, post.note, reviewer);
      return thread.(post := post, ledger := ledger, reviews := thread.reviews + [review]);
    }
  }
}
