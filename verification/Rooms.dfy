/** Governance of rooms: owners, the policy lock, the audit log, versioned rules and who may post. */
module Rooms {
  import opened Wrappers
  import opened C = Content

  datatype MemberRole = Owner | RoomModerator | Contributor | Participant
  datatype MemberStatus = Requested | Joined | Muted | Banned | Left
  datatype PostPermission = Inherit | Freely | Reviewed | Blocked
  datatype ReviewPolicy = Immediately | AfterApproval
  datatype MembershipPolicy = OpenToAll | OnRequest | InviteOnly
  datatype PostingPolicy = Anyone | MembersOnly | ApprovedContributors
  datatype RoomVisibility = Public | Restricted | Private
  datatype RoomStatus = Draft | Running | ReadOnly | Archived
  datatype RoomKind = MajorRoom | CourseRoom | EventRoom | ForumRoom

  datatype Membership = Membership(
    role: MemberRole, status: MemberStatus, permission: PostPermission, assignedBy: Option<Id>, expiresAt: Option<nat>)

  datatype Rule = Rule(code: string, text: string, version: nat, active: bool)

  datatype Policy = Policy(review: ReviewPolicy, locked: bool)
  datatype PolicyEdit = PolicyEdit(review: ReviewPolicy, locked: Option<bool>)
  datatype MemberEdit = MemberEdit(role: MemberRole, status: MemberStatus, permission: Option<PostPermission>)

  /** One row of the audit table; a policy row has no member. */
  datatype Audit =
    | PolicyAudit(actor: Id, before: Policy, after: PolicyEdit)
    | MemberAudit(actor: Id, member: Id, role: MemberRole, status: MemberStatus, permission: PostPermission, edit: MemberEdit)

  datatype Settings = Settings(
    kind: RoomKind, parent: Option<Id>, visibility: RoomVisibility, membership: MembershipPolicy, posting: PostingPolicy,
    review: ReviewPolicy, startAt: Option<nat>, endAt: Option<nat>)

  /** A room with the rows keyed by its id. */
  datatype Room = Room(
    kind: RoomKind, visibility: RoomVisibility, membership: MembershipPolicy, posting: PostingPolicy, status: RoomStatus,
    policy: Policy, rulesVersion: nat,
    members: map<Id, Membership>, rules: seq<Rule>, audits: seq<Audit>)

  // ---------- Checks ----------

  function MemberOf(rooms: map<Id, Room>, id: Id, user: Id): Option<Membership> {
    if id in rooms && user in rooms[id].members then Some(rooms[id].members[user]) else None
  }

  predicate Expired(m: Membership, now: nat) {
    m.expiresAt.Some? && m.expiresAt.value <= now
  }

  predicate ManagesRoom(rooms: map<Id, Room>, id: Id, user: User, now: nat)
    requires user.id.Some?
  {
    var m := MemberOf(rooms, id, user.id.value);
    user.Privileged()
    || (m.Some? && m.value.status == Joined && !Expired(m.value, now) && m.value.role in {Owner, RoomModerator})
  }

  predicate OwnsPolicy(rooms: map<Id, Room>, id: Id, user: User, now: nat)
    requires user.id.Some?
  {
    var m := MemberOf(rooms, id, user.id.value);
    user.role == Admin || (m.Some? && m.value.status == Joined && m.value.role == Owner && !Expired(m.value, now))
  }

  function Owners(members: map<Id, Membership>): set<Id> {
    set u | u in members && members[u].role == Owner && members[u].status == Joined
  }

  // ---------- What the operations mean ----------

  function Newcomer(status: MemberStatus): Membership {
    Membership(Participant, status, Inherit, None, None)
  }

  /** Course rooms belong to a major room; events and forums in a room need a manager of that room. */
  function ParentCheck(rooms: map<Id, Room>, user: User, s: Settings, now: nat): Check<Error>
    requires user.id.Some?
  {
    if s.parent.Some? && s.parent.value !in rooms then Fail(BadRequest)
    else if s.kind == CourseRoom && !(s.parent.Some? && rooms[s.parent.value].kind == MajorRoom) then Fail(BadRequest)
    else if s.kind in {EventRoom, ForumRoom} && s.parent.Some? && !ManagesRoom(rooms, s.parent.value, user, now) then Fail(Forbidden)
    else Pass
  }

  function FirstStatus(s: Settings, now: nat): RoomStatus {
    if s.kind == EventRoom && s.startAt.GetOr(0) > now then Draft else Running
  }

  /** `academic` is what the checks against the academic service and the bindings answer; a taken slug is a conflict. */
  function CreateSpec(rooms: map<Id, Room>, id: Id, user: User, s: Settings, academic: Check<Error>, slugFree: bool, now: nat)
    : Result<map<Id, Room>, Error>
  {
    var _ :- Authenticated(user);
    :- Need(!(s.kind in {MajorRoom, CourseRoom}) || user.role == Admin, Forbidden);
    :- Need(!(s.startAt.Some? && s.endAt.Some? && s.endAt.value <= s.startAt.value), BadRequest);
    :- ParentCheck(rooms, user, s, now);
    :- academic;
    :- Need(id !in rooms && slugFree, Conflict);
    var owner := Membership(Owner, Joined, Inherit, user.id, None);
    Success(rooms[id := Room(s.kind, s.visibility, s.membership, s.posting, FirstStatus(s, now),
                             Policy(s.review, false), 1, map[user.id.value := owner], [], [])])
  }

  function JoinSpec(rooms: map<Id, Room>, id: Id, user: User): Result<map<Id, Room>, Error> {
    var _ :- Authenticated(user);
    :- Need(id in rooms, NotFound);
    var room := rooms[id];
    :- Need(room.membership != InviteOnly, Forbidden);
    var existing := MemberOf(rooms, id, user.id.value);
    if existing.Some? && existing.value.status in {Joined, Requested, Muted} then Success(rooms)
    else if existing.Some? && existing.value.status == Banned then Failure(Forbidden)
    else
      var status := if room.membership == OnRequest then Requested else Joined;
      var member := existing.GetOr(Newcomer(status)).(role := Participant, status := status, assignedBy := None, expiresAt := None);
      Success(rooms[id := room.(members := room.members[user.id.value := member])])
  }

  function PermissionOf(room: Room, m: Option<Membership>, now: nat): PostPermission {
    if m.Some? && (m.value.status in {Banned, Muted} || Expired(m.value, now)) then Blocked
    else if m.Some? && m.value.permission == Blocked then Blocked
    else if m.Some? && m.value.status == Joined && m.value.permission != Inherit then m.value.permission
    else if room.policy.review == AfterApproval then Reviewed
    else Freely
  }

  /** Posting in an open room for members makes a newcomer a member first. */
  predicate JoinsByPosting(room: Room, m: Option<Membership>) {
    m.None? && room.visibility == Public && room.membership == OpenToAll && room.posting == MembersOnly
  }

  predicate Barred(room: Room, m: Option<Membership>, now: nat) {
    || (m.Some? && Expired(m.value, now))
    || (m.Some? && (m.value.permission == Blocked || m.value.status in {Banned, Muted}))
    || (room.visibility == Private && !(m.Some? && m.value.status == Joined))
    || (room.posting == MembersOnly && !(m.Some? && m.value.status == Joined))
    || (room.posting == ApprovedContributors
        && !(m.Some? && m.value.status == Joined && m.value.role in {Owner, RoomModerator, Contributor}))
  }

  /** The rooms afterwards, and whether the post may be made. The insertion is kept when the check fails. */
  function PostSpec(rooms: map<Id, Room>, id: Id, user: User, now: nat): (map<Id, Room>, Gate) {
    if user.id.None? || id !in rooms || rooms[id].status != Running then (rooms, Refused)
    else
      var room := rooms[id];
      var found := MemberOf(rooms, id, user.id.value);
      var members := if JoinsByPosting(room, found) then room.members[user.id.value := Newcomer(Joined)] else room.members;
      var after := rooms[id := room.(members := members)];
      var m := MemberOf(after, id, user.id.value);
      (after, if Barred(room, m, now) then Refused
              else if PermissionOf(room, m, now) == Reviewed then NeedsApproval else Direct)
  }

  /** The newest active rule with the code. */
  function Current(rules: seq<Rule>, code: string): (r: Option<nat>)
    ensures r.Some? ==> r.value < |rules| && rules[r.value].code == code && rules[r.value].active
  {
    if rules == [] then None
    else
      var last := |rules| - 1;
      var earlier := Current(rules[..last], code);
      if rules[last].code == code && rules[last].active
         && (earlier.None? || rules[earlier.value].version <= rules[last].version) then Some(last)
      else earlier
  }

  function LastVersion(rules: seq<Rule>, code: string): nat {
    var previous := Current(rules, code);
    if previous.None? then 0 else rules[previous.value].version
  }

  /** The rules before a new one with the code is appended: the current one is no longer active. */
  function Retired(rules: seq<Rule>, code: string): seq<Rule> {
    var previous := Current(rules, code);
    if previous.None? then rules else rules[previous.value := rules[previous.value].(active := false)]
  }

  function WithRule(rules: seq<Rule>, code: string, text: string): seq<Rule> {
    Retired(rules, code) + [Rule(code, text, LastVersion(rules, code) + 1, true)]
  }

  function AddRuleSpec(rooms: map<Id, Room>, id: Id, user: User, code: string, text: string, now: nat)
    : Result<map<Id, Room>, Error>
  {
    var _ :- Authenticated(user);
    :- Need(ManagesRoom(rooms, id, user, now), Forbidden);
    :- Need(id in rooms, NotFound);
    var room := rooms[id];
    Success(rooms[id := room.(rules := WithRule(room.rules, code, text), rulesVersion := room.rulesVersion + 1)])
  }

  function UpdateMemberSpec(rooms: map<Id, Room>, id: Id, user: User, member: Id, edit: MemberEdit, now: nat)
    : Result<map<Id, Room>, Error>
  {
    var _ :- Authenticated(user);
    :- Need(ManagesRoom(rooms, id, user, now), Forbidden);
    :- Need(edit.permission.None? || OwnsPolicy(rooms, id, user, now), Forbidden);
    :- Need(id in rooms, NotFound);
    var room := rooms[id];
    :- Need(member in room.members, NotFound);
    var m := room.members[member];
    :- Need(!(m.role == Owner || edit.role == Owner || edit.permission.Some?) || OwnsPolicy(rooms, id, user, now), Forbidden);
    :- Need(!(m.role == Owner && m.status == Joined && (edit.role != Owner || edit.status != Joined))
            || |Owners(room.members)| > 1, Conflict);
    :- Need(!(room.policy.locked && user.role != Admin && edit.permission.Some? && edit.permission.value != m.permission), Forbidden);
    var audit := MemberAudit(user.id.value, member, m.role, m.status, m.permission, edit);
    var after := Membership(edit.role, edit.status, edit.permission.GetOr(m.permission), user.id, m.expiresAt);
    Success(rooms[id := room.(members := room.members[member := after], audits := room.audits + [audit])])
  }

  function UpdatePolicySpec(rooms: map<Id, Room>, id: Id, user: User, edit: PolicyEdit, now: nat): Result<map<Id, Room>, Error> {
    var _ :- Authenticated(user);
    :- Need(OwnsPolicy(rooms, id, user, now), Forbidden);
    :- Need(id in rooms, NotFound);
    var room := rooms[id];
    :- Need(user.role == Admin || !(room.policy.locked || edit.locked.Some?), Forbidden);
    var audit := PolicyAudit(user.id.value, room.policy, edit);
    Success(rooms[id := room.(policy := Policy(edit.review, edit.locked.GetOr(room.policy.locked)),
                              audits := room.audits + [audit])])
  }

  function UpdateStatusSpec(rooms: map<Id, Room>, id: Id, user: User, status: RoomStatus, now: nat): Result<map<Id, Room>, Error> {
    var _ :- Authenticated(user);
    :- Need(status != Draft, BadRequest);
    :- Need(ManagesRoom(rooms, id, user, now), Forbidden);
    :- Need(id in rooms, NotFound);
    Success(rooms[id := rooms[id].(status := status)])
  }

  // ---------- The service ----------

  function Outcome(before: map<Id, Room>, r: Result<map<Id, Room>, Error>): (map<Id, Room>, Result<(), Error>) {
    match r
    case Success(rooms) => (rooms, Success(()))
    case Failure(e) => (before, Failure(e))
  }

  class RoomsService {
    var rooms: map<Id, Room>

    constructor ()
      ensures rooms == map[]
    {
      rooms := map[];
    }

    method Create(id: Id, user: User, settings: Settings, academic: Check<Error>, slugFree: bool, now: nat)
      returns (r: Result<(), Error>)
      modifies this
      ensures (rooms, r) == Outcome(old(rooms), CreateSpec(old(rooms), id, user, settings, academic, slugFree, now))
    {
      var actor :- Authenticated(user);
      :- Need(settings.kind == EventRoom || settings.kind == ForumRoom || user.role == Admin, Forbidden);
      if settings.startAt.Some? && settings.endAt.Some? && settings.endAt.value <= settings.startAt.value {
        return Failure(BadRequest);
      }
      var parent := None;
      if settings.parent.Some? {
        if settings.parent.value !in rooms {
          return Failure(BadRequest);
        }
        parent := Some(rooms[settings.parent.value]);
      }
      if settings.kind == CourseRoom && (parent.None? || parent.value.kind != MajorRoom) {
        return Failure(BadRequest);
      }
      if (settings.kind == EventRoom || settings.kind == ForumRoom) && parent.Some? {
        if !ManagesRoom(rooms, settings.parent.value, user, now) {
          return Failure(Forbidden);
        }
      }
      if academic.Fail? {
        return Failure(academic.error);
      }
      if id in rooms || !slugFree {
        return Failure(Conflict);
      }
      var status := if settings.kind == EventRoom && settings.startAt.Some? && settings.startAt.value > now then Draft else Running;
      var room := Room(settings.kind, settings.visibility, settings.membership, settings.posting, status,
                       Policy(settings.review, false), 1, map[], [], []);
      rooms := rooms[id := room.(members := map[actor := Membership(Owner, Joined, Inherit, Some(actor), None)])];
      return Success(());
    }

    method Join(id: Id, user: User) returns (r: Result<(), Error>)
      modifies this
      ensures (rooms, r) == Outcome(old(rooms), JoinSpec(old(rooms), id, user))
    {
      var _ :- Authenticated(user);
      :- Need(id in rooms, NotFound);
      var room, actor := rooms[id], user.id.value;
      :- Need(room.membership != InviteOnly, Forbidden);
      var membership;
      if actor in room.members {
        membership := room.members[actor];
        if membership.status in {Joined, Requested, Muted} {
          return Success(());
        }
        :- Need(membership.status != Banned, Forbidden);
      } else {
        membership := Newcomer(Joined);
      }
      membership := membership.(role := Participant);
      membership := membership.(status := if room.membership == OnRequest then Requested else Joined);
      membership := membership.(assignedBy := None, expiresAt := None);
      rooms := rooms[id := room.(members := room.members[actor := membership])];
      return Success(());
    }

    method AssertCanPost(id: Id, user: User, now: nat) returns (gate: Gate)
      modifies this
      ensures (rooms, gate) == PostSpec(old(rooms), id, user, now)
    {
      if user.id.None? || id !in rooms || rooms[id].status != Running {
        return Refused;
      }
      var room, actor := rooms[id], user.id.value;
      if actor !in room.members && room.visibility == Public && room.membership == OpenToAll && room.posting == MembersOnly {
        room := room.(members := room.members[actor := Newcomer(Joined)]);
      }
      rooms := rooms[id := room];
      var m := if actor in room.members then Some(room.members[actor]) else None;
      if m.Some? && Expired(m.value, now) { return Refused; }
      if m.Some? && (m.value.permission == Blocked || m.value.status == Banned || m.value.status == Muted) { return Refused; }
      var joined := m.Some? && m.value.status == Joined;
      if room.visibility == Private && !joined { return Refused; }
      if room.posting == MembersOnly && !joined { return Refused; }
      if room.posting == ApprovedContributors && !(joined && m.value.role != Participant) { return Refused; }
      return if PermissionOf(room, m, now) == Reviewed then NeedsApproval else Direct;
    }

    /** The query for the active rule with the highest version. */
    method FindCurrent(rules: seq<Rule>, code: string) returns (r: Option<nat>)
      ensures r == Current(rules, code)
    {
      r := None;
      for i := 0 to |rules|
        invariant r == Current(rules[..i], code)
      {
        assert rules[..i + 1][..i] == rules[..i];
        if rules[i].code == code && rules[i].active && (r.None? || rules[r.value].version <= rules[i].version) {
          r := Some(i);
        }
      }
      assert rules[..|rules|] == rules;
    }

    method AddRule(id: Id, user: User, code: string, text: string, now: nat) returns (r: Result<(), Error>)
      modifies this
      ensures (rooms, r) == Outcome(old(rooms), AddRuleSpec(old(rooms), id, user, code, text, now))
    {
      var _ :- Authenticated(user);
      :- Need(ManagesRoom(rooms, id, user, now), Forbidden);
      :- Need(id in rooms, NotFound);
      var room := rooms[id];
      var rules, version := room.rules, 0;
      var previous := FindCurrent(rules, code);
      if previous.Some? {
        version := rules[previous.value].version;
        rules := rules[previous.value := rules[previous.value].(active := false)];
      }
      rules := rules + [Rule(code, text, version + 1, true)];
      room := room.(rules := rules);
      room := room.(rulesVersion := room.rulesVersion + 1);
      rooms := rooms[id := room];
      return Success(());
    }

    method UpdateMembership(id: Id, member: Id, edit: MemberEdit, user: User, now: nat) returns (r: Result<(), Error>)
      modifies this
      ensures (rooms, r) == Outcome(old(rooms), UpdateMemberSpec(old(rooms), id, user, member, edit, now))
    {
      var _ :- Authenticated(user);
      var actor := user.id.value;
      :- Need(ManagesRoom(rooms, id, user, now), Forbidden);
      :- Need(edit.permission.None? || OwnsPolicy(rooms, id, user, now), Forbidden);
      :- Need(id in rooms, NotFound);
      var room := rooms[id];
      :- Need(member in room.members, NotFound);
      var m := room.members[member];
      var canManageOwners := OwnsPolicy(rooms, id, user, now);
      if (m.role == Owner || edit.role == Owner || edit.permission.Some?) && !canManageOwners {
        return Failure(Forbidden);
      }
      if m.role == Owner && m.status == Joined && (edit.role != Owner || edit.status != Joined) {
        var count := |Owners(room.members)|;
        :- Need(count > 1, Conflict);
      }
      if room.policy.locked && user.role != Admin && edit.permission.Some? && edit.permission.value != m.permission {
        return Failure(Forbidden);
      }
      var audit := MemberAudit(actor, member, m.role, m.status, m.permission, edit);
      m := m.(role := edit.role, status := edit.status, assignedBy := Some(actor));
      if edit.permission.Some? {
        m := m.(permission := edit.permission.value);
      }
      rooms := rooms[id := room.(audits := room.audits + [audit], members := room.members[member := m])];
      return Success(());
    }

    method UpdatePolicy(id: Id, edit: PolicyEdit, user: User, now: nat) returns (r: Result<(), Error>)
      modifies this
      ensures (rooms, r) == Outcome(old(rooms), UpdatePolicySpec(old(rooms), id, user, edit, now))
    {
      var _ :- Authenticated(user);
      :- Need(OwnsPolicy(rooms, id, user, now), Forbidden);
      :- Need(id in rooms, NotFound);
      var room := rooms[id];
      if user.role != Admin && (room.policy.locked || edit.locked.Some?) {
        return Failure(Forbidden);
      }
      var before, policy := room.policy, room.policy.(review := edit.review);
      if edit.locked.Some? {
        policy := policy.(locked := edit.locked.value);
      }
      rooms := rooms[id := room.(policy := policy, audits := room.audits + [PolicyAudit(user.id.value, before, edit)])];
      return Success(());
    }

    method UpdateStatus(id: Id, status: RoomStatus, user: User, now: nat) returns (r: Result<(), Error>)
      modifies this
      ensures (rooms, r) == Outcome(old(rooms), UpdateStatusSpec(old(rooms), id, user, status, now))
    {
      var _ :- Authenticated(user);
      :- Need(status != Draft, BadRequest);
      :- Need(ManagesRoom(rooms, id, user, now), Forbidden);
      :- Need(id in rooms, NotFound);
      rooms := rooms[id := rooms[id].(status := status)];
      return Success(());
    }
  }

  // ---------- Runs ----------

  datatype Action =
    | Create(id: Id, settings: Settings, academic: Check<Error>, slugFree: bool)
    | Join(id: Id)
    | Post(id: Id)
    | AddRule(id: Id, code: string, text: string)
    | UpdateMember(id: Id, member: Id, memberEdit: MemberEdit)
    | UpdatePolicy(id: Id, policyEdit: PolicyEdit)
    | UpdateStatus(id: Id, status: RoomStatus)

  /** Who does what, and when. */
  datatype Event = Event(user: User, now: nat, action: Action)

  function Execute(rooms: map<Id, Room>, e: Event): Result<map<Id, Room>, Error> {
    match e.action
    case Create(id, settings, academic, slugFree) => CreateSpec(rooms, id, e.user, settings, academic, slugFree, e.now)
    case Join(id) => JoinSpec(rooms, id, e.user)
    case Post(id) => Success(PostSpec(rooms, id, e.user, e.now).0)
    case AddRule(id, code, text) => AddRuleSpec(rooms, id, e.user, code, text, e.now)
    case UpdateMember(id, member, edit) => UpdateMemberSpec(rooms, id, e.user, member, edit, e.now)
    case UpdatePolicy(id, edit) => UpdatePolicySpec(rooms, id, e.user, edit, e.now)
    case UpdateStatus(id, status) => UpdateStatusSpec(rooms, id, e.user, status, e.now)
  }

  function Step(rooms: map<Id, Room>, e: Event): map<Id, Room> {
    Outcome(rooms, Execute(rooms, e)).0
  }

  function Run(rooms: map<Id, Room>, events: seq<Event>): map<Id, Room>
    decreases |events|
  {
    if events == [] then rooms else Run(Step(rooms, events[0]), events[1..])
  }
}
