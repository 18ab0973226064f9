/** Memberships and what they allow: the effect of every operation on a room, what a ban means, and what outsiders can do. */
module MembershipGuarantees {
  import opened Wrappers
  import opened C = Content
  import opened Rooms
  import opened RoomGuarantees

  // ---------- Who may do what ----------

  predicate Holds(room: Room, user: Id, roles: set<MemberRole>, now: nat) {
    && user in room.members
    && room.members[user].status == Joined && room.members[user].role in roles
    && (room.members[user].expiresAt.Some? ==> now < room.members[user].expiresAt.value)
  }

  /** Staff, or a member who is active as owner or moderator at this moment. */
  predicate Manager(room: Room, user: User, now: nat) {
    user.id.Some? && (user.role == Moderator || user.role == Admin || Holds(room, user.id.value, {Owner, RoomModerator}, now))
  }

  /** Administrators, or an active owner. */
  predicate PolicyOwner(room: Room, user: User, now: nat) {
    user.id.Some? && (user.role == Admin || Holds(room, user.id.value, {Owner}, now))
  }

  // ---------- The effect of each operation ----------

  ghost predicate SomeOtherOwner(room: Room, member: Id) {
    exists v :: v in room.members && v != member && room.members[v].role == Owner && room.members[v].status == Joined
  }

  /** Besides managing the room, an edit needs: an owner for owners, new owners and permissions, another active owner
      when it retires one, and an administrator for a changed permission under the lock. */
  ghost predicate MemberEditAllowed(room: Room, user: User, member: Id, edit: MemberEdit, now: nat)
    requires member in room.members
  {
    var m := room.members[member];
    && Manager(room, user, now)
    && (m.role == Owner || edit.role == Owner || edit.permission.Some? ==> PolicyOwner(room, user, now))
    && (m.role == Owner && m.status == Joined && !(edit.role == Owner && edit.status == Joined) ==> SomeOtherOwner(room, member))
    && (room.policy.locked && edit.permission.Some? && edit.permission.value != m.permission ==> user.role == Admin)
  }

  lemma OtherOwnerCounts(room: Room, member: Id)
    requires member in Owners(room.members)
    ensures |Owners(room.members)| > 1 <==> SomeOtherOwner(room, member)
  {
    var owners := Owners(room.members);
    if SomeOtherOwner(room, member) {
      var v :| v in room.members && v != member && room.members[v].role == Owner && room.members[v].status == Joined;
      assert |owners - {member} - {v}| == |owners| - 2;
    } else {
      assert owners == {member};
    }
  }

  lemma MemberEditSucceedsIff(rooms: map<Id, Room>, id: Id, user: User, member: Id, edit: MemberEdit, now: nat)
    ensures UpdateMemberSpec(rooms, id, user, member, edit, now).Success?
       <==> id in rooms && member in rooms[id].members && MemberEditAllowed(rooms[id], user, member, edit, now)
  {
    if id in rooms && member in Owners(rooms[id].members) {
      OtherOwnerCounts(rooms[id], member);
    }
  }

  /** The error names the rule that is broken; only the last active owner is a conflict. */
  lemma MemberEditRefusals(rooms: map<Id, Room>, id: Id, user: User, member: Id, edit: MemberEdit, now: nat)
    requires UpdateMemberSpec(rooms, id, user, member, edit, now).Failure?
    ensures var error := UpdateMemberSpec(rooms, id, user, member, edit, now).error;
      && (error == Unauthorized <==> user.id.None?)
      && (error == NotFound ==>
            if id !in rooms then user.role != Member && (edit.permission.Some? ==> user.role == Admin)
            else member !in rooms[id].members && Manager(rooms[id], user, now)
                 && (edit.permission.Some? ==> PolicyOwner(rooms[id], user, now)))
      && (error == Conflict ==>
            && id in rooms && member in rooms[id].members && Manager(rooms[id], user, now)
            && Owners(rooms[id].members) == {member} && !(edit.role == Owner && edit.status == Joined))
      && (error == Forbidden && id in rooms && Manager(rooms[id], user, now) ==>
            && (edit.permission.Some? || (member in rooms[id].members && (rooms[id].members[member].role == Owner || edit.role == Owner)))
            && (!PolicyOwner(rooms[id], user, now) || (rooms[id].policy.locked && user.role != Admin)))
      && (error == Unauthorized || error == Forbidden || error == NotFound || error == Conflict)
  {
    if id in rooms && member in Owners(rooms[id].members) {
      OtherOwnerCounts(rooms[id], member);
      if !SomeOtherOwner(rooms[id], member) {
        forall v | v in Owners(rooms[id].members) ensures v == member {
        }
      }
    }
  }

  /** The member gets the role and status of the request, and the permission if one was named; the editor is recorded,
      and nothing else about the room changes but one audit row. */
  lemma MemberEditTakesEffect(rooms: map<Id, Room>, id: Id, user: User, member: Id, edit: MemberEdit, now: nat, other: Id)
    requires UpdateMemberSpec(rooms, id, user, member, edit, now).Success? && member in rooms[id].members
    ensures var after := UpdateMemberSpec(rooms, id, user, member, edit, now).value;
      && after.Keys == rooms.Keys && (forall r | r in rooms && r != id :: after[r] == rooms[r])
      && var before, m := rooms[id].members[member], after[id].members;
         && after[id].members.Keys == rooms[id].members.Keys
         && m[member].role == edit.role && m[member].status == edit.status
         && m[member].permission == (if edit.permission.Some? then edit.permission.value else before.permission)
         && m[member].assignedBy == user.id && m[member].expiresAt == before.expiresAt
         && (other in m && other != member ==> m[other] == rooms[id].members[other])
         && after[id].audits == rooms[id].audits
              + [MemberAudit(user.id.value, member, before.role, before.status, before.permission, edit)]
         && after[id].(members := rooms[id].members, audits := rooms[id].audits) == rooms[id]
  {
  }

  /** Joining: who was never a member or has left becomes a participant again, without date or assigner but with the
      permission kept; a request when the room asks for one. */
  lemma JoinTakesEffect(rooms: map<Id, Room>, id: Id, user: User, other: Id)
    ensures var r := JoinSpec(rooms, id, user);
      && (r.Success? <==>
            && user.id.Some? && id in rooms && rooms[id].membership != InviteOnly
            && (user.id.value in rooms[id].members ==> rooms[id].members[user.id.value].status != Banned))
      && (r.Failure? ==> r.error == if user.id.None? then Unauthorized else if id in rooms then Forbidden else NotFound)
      && (r.Success? ==>
            var before, after := rooms[id], r.value[id];
            && r.value.Keys == rooms.Keys && (forall x | x in rooms && x != id :: r.value[x] == rooms[x])
            && after.(members := before.members) == before
            && user.id.value in after.members
            && (if user.id.value in before.members && before.members[user.id.value].status != Left
                then after == before
                else after.members[user.id.value] == Membership(Participant, if before.membership == OnRequest then Requested else Joined,
                                                               PermissionIn(before, user.id.value), None, None))
            && (other != user.id.value ==>
                  && (other in after.members <==> other in before.members)
                  && (other in before.members ==> after.members[other] == before.members[other])))
  {
  }

  lemma PolicyTakesEffect(rooms: map<Id, Room>, id: Id, user: User, edit: PolicyEdit, now: nat)
    ensures var r := UpdatePolicySpec(rooms, id, user, edit, now);
      && (r.Success? <==>
            && id in rooms && PolicyOwner(rooms[id], user, now)
            && (rooms[id].policy.locked || edit.locked.Some? ==> user.role == Admin))
      && (r.Failure? ==> r.error == if user.id.None? then Unauthorized
                                    else if id in rooms || user.role != Admin then Forbidden else NotFound)
      && (r.Success? ==>
            var before, after := rooms[id], r.value[id];
            && r.value.Keys == rooms.Keys && (forall x | x in rooms && x != id :: r.value[x] == rooms[x])
            && after.policy.review == edit.review
            && (if edit.locked.Some? then after.policy.locked == edit.locked.value else after.policy.locked == before.policy.locked)
            && after.audits == before.audits + [PolicyAudit(user.id.value, before.policy, edit)]
            && after.(policy := before.policy, audits := before.audits) == before)
  {
  }

  lemma StatusTakesEffect(rooms: map<Id, Room>, id: Id, user: User, status: RoomStatus, now: nat)
    ensures var r := UpdateStatusSpec(rooms, id, user, status, now);
      && (r.Success? <==> id in rooms && Manager(rooms[id], user, now) && status != Draft)
      && (r.Failure? ==> r.error == if user.id.None? then Unauthorized else if status == Draft then BadRequest
                                    else if id in rooms || user.role == Member then Forbidden else NotFound)
      && (r.Success? ==>
            && r.value.Keys == rooms.Keys && (forall x | x in rooms && x != id :: r.value[x] == rooms[x])
            && r.value[id].status == status && r.value[id].(status := rooms[id].status) == rooms[id])
  {
  }

  /** A new rule is the one active rule with its code, at the end; the texts, codes and versions of all others stay, and
      only those with the same code stop being active. */
  predicate RuleAppended(before: seq<Rule>, after: seq<Rule>, code: string, text: string) {
    && |after| == |before| + 1
    && after[|before|].code == code && after[|before|].text == text && after[|before|].active
    && forall k | 0 <= k < |before| ::
         && after[k].code == before[k].code && after[k].text == before[k].text && after[k].version == before[k].version
         && (after[k].active <==> before[k].active && before[k].code != code)
  }

  lemma WithRuleAppends(rules: seq<Rule>, code: string, text: string)
    requires Versioned(rules)
    ensures RuleAppended(rules, WithRule(rules, code, text), code, text)
  {
    AllRetiredStates(rules, code);
    forall k | 0 <= k < |rules| ensures WithRule(rules, code, text)[k].text == rules[k].text {
      RetiredKeepsText(rules, code, k);
    }
  }

  lemma RuleTakesEffect(rooms: map<Id, Room>, id: Id, user: User, code: string, text: string, now: nat)
    requires id in rooms ==> Versioned(rooms[id].rules)
    ensures var r := AddRuleSpec(rooms, id, user, code, text, now);
      && (r.Success? <==> id in rooms && Manager(rooms[id], user, now))
      && (r.Failure? ==> r.error == if user.id.None? then Unauthorized
                                    else if id in rooms || user.role == Member then Forbidden else NotFound)
      && (r.Success? ==>
            var before, after := rooms[id], r.value[id];
            && r.value.Keys == rooms.Keys && (forall x | x in rooms && x != id :: r.value[x] == rooms[x])
            && RuleAppended(before.rules, after.rules, code, text)
            && after.(rules := before.rules, rulesVersion := before.rulesVersion) == before)
  {
    if id in rooms {
      WithRuleAppends(rooms[id].rules, code, text);
    }
  }

  lemma RetiredKeepsText(rules: seq<Rule>, code: string, k: nat)
    requires k < |rules|
    ensures |Retired(rules, code)| == |rules| && Retired(rules, code)[k].text == rules[k].text
  {
  }

  predicate HoldsIn(rooms: map<Id, Room>, parent: Id, user: User, now: nat) {
    parent in rooms && Manager(rooms[parent], user, now)
  }

  /** A room is created by an administrator, or as an event or a forum by anybody who manages its parent if it has one. */
  lemma CreateTakesEffect(rooms: map<Id, Room>, id: Id, user: User, s: Settings, academic: Check<Error>, slugFree: bool, now: nat)
    ensures var r := CreateSpec(rooms, id, user, s, academic, slugFree, now);
      && (r.Success? <==>
            && user.id.Some? && (s.kind == MajorRoom || s.kind == CourseRoom ==> user.role == Admin)
            && (s.startAt.Some? && s.endAt.Some? ==> s.startAt.value < s.endAt.value)
            && (s.parent.Some? ==> s.parent.value in rooms)
            && (s.kind == CourseRoom ==> s.parent.Some? && rooms[s.parent.value].kind == MajorRoom)
            && (s.parent.Some? && (s.kind == EventRoom || s.kind == ForumRoom) ==> HoldsIn(rooms, s.parent.value, user, now))
            && academic == Pass && id !in rooms && slugFree)
      && (r == Failure(Unauthorized) && academic != Fail(Unauthorized) ==> user.id.None?)
      && (r == Failure(Conflict) && academic != Fail(Conflict) ==> id in rooms || !slugFree)
      && (r == Failure(Forbidden) && academic != Fail(Forbidden) ==>
            user.role != Admin && (s.kind == MajorRoom || s.kind == CourseRoom || s.parent.Some?))
      && (r == Failure(NotFound) ==> academic == Fail(NotFound))
      && (r.Success? ==>
            var room := r.value[id];
            && r.value.Keys == rooms.Keys + {id} && (forall x | x in rooms :: r.value[x] == rooms[x])
            && room.kind == s.kind && room.visibility == s.visibility && room.membership == s.membership
            && room.posting == s.posting && room.policy == Policy(s.review, false)
            && (room.status == Draft <==> s.kind == EventRoom && s.startAt.Some? && now < s.startAt.value)
            && (room.status == Draft || room.status == Running)
            && room.members == map[user.id.value := Membership(Owner, Joined, Inherit, user.id, None)])
  {
  }

  // ---------- Who may post ----------

  /** A newcomer may post where everybody may, or where posting makes a member of anybody. */
  predicate NewcomerMayPost(room: Room) {
    match room.posting
    case Anyone => room.visibility != Private
    case MembersOnly => room.visibility == Public && room.membership == OpenToAll
    case ApprovedContributors => false
  }

  /** A member may post unless banned, muted, blocked or expired; only joined ones where membership counts, and only
      contributors and up where contributors must be approved. */
  predicate MemberMayPost(room: Room, m: Membership, now: nat) {
    && m.status != Banned && m.status != Muted && m.permission != Blocked
    && (m.expiresAt.Some? ==> now < m.expiresAt.value)
    && (m.status != Joined ==> room.posting == Anyone && room.visibility != Private)
    && (room.posting == ApprovedContributors ==> m.role != Participant)
  }

  /** Only joined members have a permission of their own. */
  function OwnPermission(room: Room, user: Id): PostPermission {
    if user in room.members && room.members[user].status == Joined then room.members[user].permission else Inherit
  }

  /** Posting is answered by this table, and by the personal permission of a joined member before the policy of the room. */
  lemma MayPostIff(rooms: map<Id, Room>, id: Id, user: User, now: nat)
    ensures var (after, gate) := PostSpec(rooms, id, user, now);
      && (gate != Refused <==>
            && user.id.Some? && id in rooms && rooms[id].status == Running
            && (if user.id.value in rooms[id].members then MemberMayPost(rooms[id], rooms[id].members[user.id.value], now)
                else NewcomerMayPost(rooms[id])))
      && (gate == Direct ==>
            var own := OwnPermission(rooms[id], user.id.value);
            own == Freely || (own == Inherit && rooms[id].policy.review == Immediately))
      && (gate == NeedsApproval ==>
            var own := OwnPermission(rooms[id], user.id.value);
            own == Reviewed || (own == Inherit && rooms[id].policy.review == AfterApproval))
  {
  }

  /** Asking changes nothing but, in an open public room for members, making a newcomer a member. */
  lemma PostingChanges(rooms: map<Id, Room>, id: Id, user: User, now: nat)
    ensures var after := PostSpec(rooms, id, user, now).0;
      if user.id.Some? && id in rooms && rooms[id].status == Running && user.id.value !in rooms[id].members
         && rooms[id].posting == MembersOnly && rooms[id].visibility == Public && rooms[id].membership == OpenToAll
      then after == rooms[id := rooms[id].(members :=
             rooms[id].members[user.id.value := Membership(Participant, Joined, Inherit, None, None)])]
      else after == rooms
  {
    if id in rooms {
      assert rooms[id := rooms[id].(members := rooms[id].members)] == rooms;
    }
  }

  // ---------- Bans and mutes ----------

  /** Banned or muted: every post is refused at every moment, and the room shows the permission as blocked. */
  lemma BannedCannotPost(rooms: map<Id, Room>, id: Id, user: User, now: nat)
    requires id in rooms && user.id.Some? && user.id.value in rooms[id].members
    requires rooms[id].members[user.id.value].status == Banned || rooms[id].members[user.id.value].status == Muted
    ensures PostSpec(rooms, id, user, now) == (rooms, Refused)
    ensures PermissionOf(rooms[id], Some(rooms[id].members[user.id.value]), now) == Blocked
  {
    PostingChanges(rooms, id, user, now);
  }

  /** Somebody who manages the room at that moment edits this membership. */
  predicate ManagerEdits(rooms: map<Id, Room>, e: Event, id: Id, member: Id) {
    && e.action.UpdateMember? && e.action.id == id && e.action.member == member
    && id in rooms && Manager(rooms[id], e.user, e.now)
  }

  ghost predicate NotEdited(rooms: map<Id, Room>, events: seq<Event>, id: Id, member: Id)
    decreases |events|
  {
    events != [] ==> !ManagerEdits(rooms, events[0], id, member) && NotEdited(Step(rooms, events[0]), events[1..], id, member)
  }

  predicate Stands(rooms: map<Id, Room>, id: Id, member: Id, m: Membership) {
    id in rooms && member in rooms[id].members && rooms[id].members[member] == m
  }

  /** Without such an edit only a rejoin after leaving changes a membership. */
  lemma StepKeepsMembership(rooms: map<Id, Room>, e: Event, id: Id, member: Id, m: Membership)
    requires Stands(rooms, id, member, m) && m.status != Left && !ManagerEdits(rooms, e, id, member)
    ensures Stands(Step(rooms, e), id, member, m)
  {
    match e.action {
      case UpdateMember(r, other, edit) =>
        MemberEditSucceedsIff(rooms, r, e.user, other, edit, e.now);
        if UpdateMemberSpec(rooms, r, e.user, other, edit, e.now).Success? {
          MemberEditTakesEffect(rooms, r, e.user, other, edit, e.now, member);
        }
      case Join(r) => JoinTakesEffect(rooms, r, e.user, member);
      case Post(r) => PostingChanges(rooms, r, e.user, e.now);
      case _ => GovernanceKeepsMembers(rooms, e, id);
    }
  }

  lemma GovernanceKeepsMembers(rooms: map<Id, Room>, e: Event, id: Id)
    requires id in rooms && !e.action.UpdateMember? && !e.action.Join? && !e.action.Post?
    ensures id in Step(rooms, e) && Step(rooms, e)[id].members == rooms[id].members
  {
  }

  lemma {:induction false} MembershipStays(rooms: map<Id, Room>, events: seq<Event>, id: Id, member: Id, m: Membership)
    requires Stands(rooms, id, member, m) && m.status != Left && NotEdited(rooms, events, id, member)
    ensures Stands(Run(rooms, events), id, member, m)
    decreases |events|
  {
    if events != [] {
      StepKeepsMembership(rooms, events[0], id, member, m);
      MembershipStays(Step(rooms, events[0]), events[1..], id, member, m);
    }
  }

  /** A ban or mute, once it is in force, holds through every run until a manager edits that membership again: no joining
      and no posting gets around it. */
  lemma BanHoldsUntilEdited(rooms: map<Id, Room>, id: Id, user: User, member: Id, edit: MemberEdit, at: nat,
                            later: seq<Event>, poster: User, now: nat)
    requires UpdateMemberSpec(rooms, id, user, member, edit, at).Success? && (edit.status == Banned || edit.status == Muted)
    requires poster.id == Some(member)
    requires NotEdited(UpdateMemberSpec(rooms, id, user, member, edit, at).value, later, id, member)
    ensures var end := Run(UpdateMemberSpec(rooms, id, user, member, edit, at).value, later);
      && PostSpec(end, id, poster, now) == (end, Refused)
      && (JoinSpec(end, id, poster).Success? ==> JoinSpec(end, id, poster).value == end)
  {
    MemberEditSucceedsIff(rooms, id, user, member, edit, at);
    MemberEditTakesEffect(rooms, id, user, member, edit, at, member);
    var after := UpdateMemberSpec(rooms, id, user, member, edit, at).value;
    var m := after[id].members[member];
    MembershipStays(after, later, id, member, m);
    BannedCannotPost(Run(after, later), id, poster, now);
    JoiningChangesNothing(Run(after, later), id, poster);
  }

  lemma JoiningChangesNothing(rooms: map<Id, Room>, id: Id, user: User)
    requires id in rooms && user.id.Some? && user.id.value in rooms[id].members
    requires rooms[id].members[user.id.value].status != Left
    ensures JoinSpec(rooms, id, user).Success? ==> JoinSpec(rooms, id, user).value == rooms
  {
  }

  // ---------- The audit log and the standing of members ----------

  datatype Standing = Standing(role: MemberRole, status: MemberStatus)

  function StandingIn(room: Room, user: Id): Option<Standing> {
    if user in room.members then Some(Standing(room.members[user].role, room.members[user].status)) else None
  }

  /** What the last row about the member set, or the first standing when there is none. */
  function ReplayStanding(first: Option<Standing>, audits: seq<Audit>, user: Id): Option<Standing> {
    if audits == [] then first
    else
      match audits[|audits| - 1]
      case PolicyAudit(_, _, _) => ReplayStanding(first, audits[..|audits| - 1], user)
      case MemberAudit(_, member, _, _, _, edit) =>
        if member == user then Some(Standing(edit.role, edit.status)) else ReplayStanding(first, audits[..|audits| - 1], user)
  }

  /** The same, or joined anew by somebody who was no member or had left. */
  predicate Rejoined(before: Option<Standing>, after: Option<Standing>) {
    || after == before
    || (&& (before.None? || before.value.status == Left)
        && (after == Some(Standing(Participant, Joined)) || after == Some(Standing(Participant, Requested))))
  }

  /** The row names the standing it replaced, up to a join that no row records. */
  predicate RecordsStanding(a: Audit, standing: Option<Standing>, user: Id) {
    a.MemberAudit? && a.member == user ==> Rejoined(standing, Some(Standing(a.role, a.status)))
  }

  predicate RowExplained(first: Option<Standing>, audits: seq<Audit>, k: nat, user: Id)
    requires k < |audits|
  {
    RecordsStanding(audits[k], ReplayStanding(first, audits[..k], user), user)
  }

  predicate RowsExplained(first: Option<Standing>, audits: seq<Audit>, user: Id) {
    forall k | 0 <= k < |audits| :: RowExplained(first, audits, k, user)
  }

  /** The rows appended since `before` explain role and status of one member. */
  ghost predicate StandingExplained(before: Room, after: Room, user: Id) {
    && before.audits <= after.audits
    && var first, added := StandingIn(before, user), after.audits[|before.audits|..];
       && Rejoined(ReplayStanding(first, added, user), StandingIn(after, user))
       && RowsExplained(first, added, user)
  }

  lemma StepExplainsStanding(rooms: map<Id, Room>, e: Event, id: Id, user: Id)
    requires id in rooms
    ensures id in Step(rooms, e) && StandingExplained(rooms[id], Step(rooms, e)[id], user)
  {
    match e.action {
      case UpdateMember(r, member, edit) =>
        MemberEditSucceedsIff(rooms, r, e.user, member, edit, e.now);
        if UpdateMemberSpec(rooms, r, e.user, member, edit, e.now).Success? {
          MemberEditTakesEffect(rooms, r, e.user, member, edit, e.now, user);
        }
        if r == id && UpdateMemberSpec(rooms, r, e.user, member, edit, e.now).Success? {
          RowExplainsStanding(rooms[id], Step(rooms, e)[id], Step(rooms, e)[id].audits[|rooms[id].audits|], user);
        } else {
          NoRowExplainsStanding(rooms[id], Step(rooms, e)[id], user);
        }
      case UpdatePolicy(r, edit) =>
        PolicyTakesEffect(rooms, r, e.user, edit, e.now);
        if r == id && UpdatePolicySpec(rooms, r, e.user, edit, e.now).Success? {
          RowExplainsStanding(rooms[id], Step(rooms, e)[id], Step(rooms, e)[id].audits[|rooms[id].audits|], user);
        } else {
          NoRowExplainsStanding(rooms[id], Step(rooms, e)[id], user);
        }
      case Join(r) =>
        JoinTakesEffect(rooms, r, e.user, user);
        NoRowExplainsStanding(rooms[id], Step(rooms, e)[id], user);
      case Post(r) =>
        PostingChanges(rooms, r, e.user, e.now);
        NoRowExplainsStanding(rooms[id], Step(rooms, e)[id], user);
      case _ =>
        GovernanceKeepsMembers(rooms, e, id);
        NoRowExplainsStanding(rooms[id], Step(rooms, e)[id], user);
    }
  }

  lemma NoRowExplainsStanding(before: Room, after: Room, user: Id)
    requires after.audits == before.audits && Rejoined(StandingIn(before, user), StandingIn(after, user))
    ensures StandingExplained(before, after, user)
  {
    assert after.audits[|before.audits|..] == [];
  }

  lemma RowExplainsStanding(before: Room, after: Room, a: Audit, user: Id)
    requires after.audits == before.audits + [a] && RecordsStanding(a, StandingIn(before, user), user)
    requires StandingIn(after, user) == ReplayStanding(StandingIn(before, user), [a], user)
    ensures StandingExplained(before, after, user)
  {
    var added := after.audits[|before.audits|..];
    assert added == [a] && added[..0] == [];
  }

  lemma {:induction false} ReplayStandingOn(first: Option<Standing>, a: seq<Audit>, b: seq<Audit>, user: Id)
    ensures ReplayStanding(first, a + b, user) == ReplayStanding(ReplayStanding(first, a, user), b, user)
    decreases |b|
  {
    if b == [] {
      assert a + b == a;
    } else {
      assert (a + b)[..|a + b| - 1] == a + b[..|b| - 1];
      ReplayStandingOn(first, a, b[..|b| - 1], user);
    }
  }

  lemma {:induction false} ReplayKeepsRejoined(x: Option<Standing>, y: Option<Standing>, audits: seq<Audit>, user: Id)
    requires Rejoined(x, y)
    ensures Rejoined(ReplayStanding(x, audits, user), ReplayStanding(y, audits, user))
    decreases |audits|
  {
    if audits != [] {
      ReplayKeepsRejoined(x, y, audits[..|audits| - 1], user);
    }
  }

  lemma EarlierRowExplained(first: Option<Standing>, a: seq<Audit>, b: seq<Audit>, k: nat, user: Id)
    requires k < |a| && RowExplained(first, a, k, user)
    ensures RowExplained(first, a + b, k, user)
  {
    assert (a + b)[..k] == a[..k];
  }

  lemma LaterRowExplained(first: Option<Standing>, resumed: Option<Standing>, a: seq<Audit>, b: seq<Audit>, j: nat, user: Id)
    requires j < |b| && Rejoined(ReplayStanding(first, a, user), resumed)
    requires RowExplained(resumed, b, j, user)
    ensures RowExplained(first, a + b, |a| + j, user)
  {
    assert (a + b)[..|a| + j] == a + b[..j] && (a + b)[|a| + j] == b[j];
    ReplayStandingOn(first, a, b[..j], user);
    ReplayKeepsRejoined(ReplayStanding(first, a, user), resumed, b[..j], user);
  }

  lemma RowsExplainedTwice(first: Option<Standing>, resumed: Option<Standing>, a: seq<Audit>, b: seq<Audit>, user: Id)
    requires RowsExplained(first, a, user) && RowsExplained(resumed, b, user)
    requires Rejoined(ReplayStanding(first, a, user), resumed)
    ensures RowsExplained(first, a + b, user)
  {
    forall k | 0 <= k < |a + b| ensures RowExplained(first, a + b, k, user) {
      if k < |a| {
        EarlierRowExplained(first, a, b, k, user);
      } else {
        LaterRowExplained(first, resumed, a, b, k - |a|, user);
      }
    }
  }

  lemma StandingExplainedTwice(before: Room, middle: Room, after: Room, user: Id)
    requires StandingExplained(before, middle, user) && StandingExplained(middle, after, user)
    ensures StandingExplained(before, after, user)
  {
    var a, b := middle.audits[|before.audits|..], after.audits[|middle.audits|..];
    var first, resumed := StandingIn(before, user), StandingIn(middle, user);
    assert after.audits[|before.audits|..] == a + b;
    RowsExplainedTwice(first, resumed, a, b, user);
    ReplayStandingOn(first, a, b, user);
    ReplayKeepsRejoined(ReplayStanding(first, a, user), resumed, b, user);
  }

  /** Through every run: role and status of each member are what the last audit row about the member set, and each row
      names the standing it replaced; only joining, by somebody who was no member or had left, goes without a row. */
  lemma {:induction false} AuditLogExplainsStanding(rooms: map<Id, Room>, events: seq<Event>, id: Id, user: Id)
    requires id in rooms
    ensures id in Run(rooms, events) && StandingExplained(rooms[id], Run(rooms, events)[id], user)
    decreases |events|
  {
    if events == [] {
      NoRowExplainsStanding(rooms[id], rooms[id], user);
    } else {
      StepExplainsStanding(rooms, events[0], id, user);
      AuditLogExplainsStanding(Step(rooms, events[0]), events[1..], id, user);
      StandingExplainedTwice(rooms[id], Step(rooms, events[0])[id], Run(rooms, events)[id], user);
    }
  }

  // ---------- Outsiders ----------

  /** No event in the run on this room is by somebody who manages it at that moment. */
  ghost predicate ByOutsiders(rooms: map<Id, Room>, events: seq<Event>, id: Id)
    decreases |events|
  {
    events != [] ==>
      && (id in rooms && events[0].action.id == id ==> !Manager(rooms[id], events[0].user, events[0].now))
      && ByOutsiders(Step(rooms, events[0]), events[1..], id)
  }

  /** The rooms differ at most in memberships that began or began again. */
  ghost predicate OnlyJoined(before: Room, after: Room) {
    && after.(members := before.members) == before
    && (forall u :: Rejoined(StandingIn(before, u), StandingIn(after, u)))
    && (forall u :: PermissionIn(after, u) == PermissionIn(before, u))
  }

  lemma OutsiderOnlyJoins(rooms: map<Id, Room>, e: Event, id: Id)
    requires id in rooms && (e.action.id == id ==> !Manager(rooms[id], e.user, e.now))
    ensures id in Step(rooms, e) && OnlyJoined(rooms[id], Step(rooms, e)[id])
  {
    match e.action {
      case UpdateMember(r, member, edit) => MemberEditSucceedsIff(rooms, r, e.user, member, edit, e.now);
      case UpdatePolicy(r, edit) => PolicyTakesEffect(rooms, r, e.user, edit, e.now);
      case UpdateStatus(r, status) => StatusTakesEffect(rooms, r, e.user, status, e.now);
      case Post(r) => PostingChanges(rooms, r, e.user, e.now);
      case _ =>
    }
  }

  /** People who do not manage a room can only join it: policy, status, rules, audit rows, permissions and everybody
      else's standing are the same after every run of theirs. */
  lemma {:induction false} OutsidersOnlyJoin(rooms: map<Id, Room>, events: seq<Event>, id: Id)
    requires id in rooms && ByOutsiders(rooms, events, id)
    ensures id in Run(rooms, events) && OnlyJoined(rooms[id], Run(rooms, events)[id])
    decreases |events|
  {
    if events != [] {
      OutsiderOnlyJoins(rooms, events[0], id);
      OutsidersOnlyJoin(Step(rooms, events[0]), events[1..], id);
    }
  }
}
