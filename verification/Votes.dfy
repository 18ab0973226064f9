/** Casting and clearing votes: one transaction, executed step by step. */
module Votes {
  import opened Wrappers
  import opened Counters

  datatype Error = NotFound | AnswerNotFound | Closed | NotApproved | NoAccess | OwnContent

  /** What the transaction reads besides the rows of the votes. */
  datatype Facts = Facts(isOpen: bool, approved: bool, roomReadable: bool, author: Id)

  function Missing(target: Target): Error {
    if target.OnChild? && target.child.kind.Answer? then AnswerNotFound else NotFound
  }

  /** Which error ends the transaction, if any; the first failing check decides. */
  function Refusal(db: Database, target: Target, user: Id, facts: Facts): Option<Error> {
    var post := PostOf(db, SetVote(target, user, None));
    if post.None? then Some(Missing(target))
    else if !LivePost(db, post.value) then Some(NotFound)
    else if !facts.isOpen then Some(Closed)
    else if !facts.approved then Some(NotApproved)
    else if !facts.roomReadable then Some(NoAccess)
    else if facts.author == user then Some(OwnContent)
    else None
  }

  class VotesService {
    var posts: map<Id, Post>
    var children: map<Child, Row>
    var votes: map<Target, map<Id, Vote>>
    var tallies: map<Target, Tally>

    constructor ()
      ensures Snapshot() == EMPTY
    {
      posts, children, votes, tallies := map[], map[], map[], map[];
    }

    function Snapshot(): Database
      reads this
    {
      Database(posts, children, votes, tallies)
    }

    method SetVote(target: Target, user: Id, vote: Option<Vote>, facts: Facts) returns (r: Result<Tally, Error>)
      modifies this`votes, this`tallies
      ensures var refusal := Refusal(old(Snapshot()), target, user, facts);
        if refusal.Some? then r == Failure(refusal.value) && Snapshot() == old(Snapshot())
        else
          var op := Operation.SetVote(target, user, vote);
          Allowed(old(Snapshot()), op) && Snapshot() == Atomic(old(Snapshot()), op)
          && r == Success(TallyOf(Snapshot(), target))
    {
      var post;
      match target {
        case OnPost(p) => post := p;
        case OnChild(c) =>
          if c !in children || !children[c].live {
            return Failure(if c.kind.Answer? then AnswerNotFound else NotFound);
          }
          post := children[c].post;
      }
      if post !in posts || !posts[post].live {
        return Failure(NotFound);
      }
      if !facts.isOpen { return Failure(Closed); }
      if !facts.approved { return Failure(NotApproved); }
      if !facts.roomReadable { return Failure(NoAccess); }
      if facts.author == user { return Failure(OwnContent); }
      var rows := if target in votes then votes[target] else map[];
      if vote.Some? {
        rows := rows[user := vote.value];
      } else {
        rows := rows - {user};
      }
      votes := votes[target := rows];
      var up := |set u | u in rows && rows[u] == Up|;
      var down := |set u | u in rows && rows[u] == Down|;
      tallies := tallies[target := Tally(up, down)];
      r := Success(Tally(up, down));
    }
  }

  /** Repeating a request, or clearing a vote that is not there, leaves rows and totals as they were. */
  lemma RepeatedRequestChangesNothing(db: Database, target: Target, user: Id, vote: Option<Vote>, other: Target)
    requires Consistent(db) && Allowed(db, SetVote(target, user, vote))
    requires vote == if user in VotesOn(db, target) then Some(VotesOn(db, target)[user]) else None
    ensures var after := Atomic(db, SetVote(target, user, vote));
      VotesOn(after, other) == VotesOn(db, other) && TallyOf(after, other) == TallyOf(db, other)
  {
    assert Ballot(VotesOn(db, target), user, vote) == VotesOn(db, target);
    assert TallyOf(db, other) == Recount(VotesOn(db, other));
  }

  /** A vote is accepted on exactly what is there, open, approved, readable and by somebody else; the error says what is
      missing. */
  lemma AcceptedIff(db: Database, target: Target, user: Id, facts: Facts)
    ensures Refusal(db, target, user, facts).None? <==>
      && (match target
          case OnPost(p) => LivePost(db, p)
          case OnChild(c) => LiveChild(db, c) && LivePost(db, db.children[c].post))
      && facts.isOpen && facts.approved && facts.roomReadable && user != facts.author
    ensures match Refusal(db, target, user, facts)
            case Some(OwnContent) => user == facts.author
            case Some(Closed) => !facts.isOpen
            case Some(NotApproved) => !facts.approved
            case Some(NoAccess) => !facts.roomReadable
            case Some(AnswerNotFound) => target.OnChild? && target.child.kind == Answer && !LiveChild(db, target.child)
            case Some(NotFound) =>
              match target {
                case OnPost(p) => !LivePost(db, p)
                case OnChild(c) => if LiveChild(db, c) then !LivePost(db, db.children[c].post) else c.kind == Comment
              }
            case None => true
  {
  }

  /** The vote of the user becomes the one requested; other votes, other targets and the counters stay as they were. */
  lemma RequestTakesEffect(db: Database, target: Target, user: Id, vote: Option<Vote>, other: Target, voter: Id)
    requires Allowed(db, SetVote(target, user, vote))
    ensures var after := Atomic(db, SetVote(target, user, vote));
      && after.posts == db.posts && after.children == db.children
      && (user in VotesOn(after, target) <==> vote.Some?)
      && (vote.Some? ==> VotesOn(after, target)[user] == vote.value)
      && (other != target || voter != user ==>
            && (voter in VotesOn(after, other) <==> voter in VotesOn(db, other))
            && (voter in VotesOn(db, other) ==> VotesOn(after, other)[voter] == VotesOn(db, other)[voter]))
      && (other != target ==> TallyOf(after, other) == TallyOf(db, other))
      && TallyOf(after, target).up == |set u | u in VotesOn(after, target) && VotesOn(after, target)[u] == Up|
      && TallyOf(after, target).down == |set u | u in VotesOn(after, target) && VotesOn(after, target)[u] == Down|
  {
  }
}
