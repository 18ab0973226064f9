/** What holds of every room over every run. */
module RoomGuarantees {
  import opened Wrappers
  import opened C = Content
  import opened Rooms

  // ---------- An owner remains ----------

  ghost predicate Owned(rooms: map<Id, Room>) {
    forall id | id in rooms :: Owners(rooms[id].members) != {}
  }

  lemma OwnerLeft(members: map<Id, Membership>, u: Id, m: Membership)
    requires Owners(members) != {}
    requires u in Owners(members) && !(m.role == Owner && m.status == Joined) ==> |Owners(members)| > 1
    ensures Owners(members[u := m]) != {}
  {
    if u in Owners(members) {
      var rest := Owners(members) - {u};
      if m.role == Owner && m.status == Joined {
        assert u in Owners(members[u := m]);
      } else {
        assert |rest| > 0;
        var v :| v in rest;
        assert v in Owners(members[u := m]);
      }
    } else {
      var v :| v in Owners(members);
      assert v in Owners(members[u := m]);
    }
  }

  lemma StepKeepsOwned(rooms: map<Id, Room>, e: Event)
    requires Owned(rooms)
    ensures Owned(Step(rooms, e))
  {
    var after := Step(rooms, e);
    if after != rooms && e.user.id.Some? {
      var actor := e.user.id.value;
      match e.action {
        case Create(id, _, _, _) =>
          assert actor in Owners(after[id].members);
        case Join(id) => OwnerLeft(rooms[id].members, actor, after[id].members[actor]);
        case Post(id) =>
          if actor !in rooms[id].members && actor in after[id].members {
            OwnerLeft(rooms[id].members, actor, after[id].members[actor]);
          }
        case UpdateMember(id, member, edit) => OwnerLeft(rooms[id].members, member, after[id].members[member]);
        case _ =>
      }
    }
  }

  /** Every room has an active owner at every moment after its creation. */
  lemma {:induction false} OwnerRemains(rooms: map<Id, Room>, events: seq<Event>)
    requires Owned(rooms)
    ensures Owned(Run(rooms, events))
    decreases |events|
  {
    if events != [] {
      StepKeepsOwned(rooms, events[0]);
      OwnerRemains(Step(rooms, events[0]), events[1..]);
    }
  }

  // ---------- The policy lock ----------

  function PermissionIn(room: Room, user: Id): PostPermission {
    if user in room.members then room.members[user].permission else Inherit
  }

  /** Policy, lock and the personal permissions are as they were; newcomers have none. */
  ghost predicate SamePolicy(before: Room, after: Room) {
    && after.policy == before.policy
    && (forall u | u in before.members :: u in after.members)
    && (forall u :: PermissionIn(after, u) == PermissionIn(before, u))
  }

  predicate NotByAdmin(e: Event, id: Id) {
    e.action.id != id || e.user.role != Admin
  }

  lemma LockedStep(rooms: map<Id, Room>, e: Event, id: Id)
    requires id in rooms && rooms[id].policy.locked && NotByAdmin(e, id)
    ensures id in Step(rooms, e) && SamePolicy(rooms[id], Step(rooms, e)[id])
  {
  }

  /** While the policy is locked, no sequence of steps by others than administrators changes it. */
  lemma {:induction false} LockHolds(rooms: map<Id, Room>, events: seq<Event>, id: Id)
    requires id in rooms && rooms[id].policy.locked
    requires forall e | e in events :: NotByAdmin(e, id)
    ensures id in Run(rooms, events) && SamePolicy(rooms[id], Run(rooms, events)[id])
    decreases |events|
  {
    if events != [] {
      LockedStep(rooms, events[0], id);
      LockHolds(Step(rooms, events[0]), events[1..], id);
    }
  }

  // ---------- The audit log ----------

  function Replay(policy: Policy, audits: seq<Audit>): Policy {
    if audits == [] then policy
    else
      var now := Replay(policy, audits[..|audits| - 1]);
      match audits[|audits| - 1]
      case PolicyAudit(_, _, edit) => Policy(edit.review, edit.locked.GetOr(now.locked))
      case MemberAudit(_, _, _, _, _, _) => now
  }

  function ReplayMember(permission: PostPermission, audits: seq<Audit>, user: Id): PostPermission {
    if audits == [] then permission
    else
      var now := ReplayMember(permission, audits[..|audits| - 1], user);
      match audits[|audits| - 1]
      case PolicyAudit(_, _, _) => now
      case MemberAudit(_, member, _, _, _, edit) => if member == user then edit.permission.GetOr(now) else now
  }

  /** The row says correctly what was in force before it, given what the rows before it lead to. */
  predicate RecordsBefore(a: Audit, policy: Policy, permission: PostPermission, user: Id) {
    match a
    case PolicyAudit(_, before, _) => before == policy
    case MemberAudit(_, member, _, _, before, _) => member == user ==> before == permission
  }

  /** The rows appended since `before` lead from it to `after`, one by one. */
  ghost predicate Explained(before: Room, after: Room) {
    && before.audits <= after.audits
    && var added := after.audits[|before.audits|..];
       && after.policy == Replay(before.policy, added)
       && (forall u :: PermissionIn(after, u) == ReplayMember(PermissionIn(before, u), added, u))
       && (forall u, k | 0 <= k < |added| ::
             RecordsBefore(added[k], Replay(before.policy, added[..k]), ReplayMember(PermissionIn(before, u), added[..k], u), u))
  }

  lemma Unaudited(before: Room, after: Room)
    requires after.audits == before.audits && after.policy == before.policy
    requires forall u :: PermissionIn(after, u) == PermissionIn(before, u)
    ensures Explained(before, after)
  {
    assert after.audits[|before.audits|..] == [];
  }

  lemma ByOneRow(before: Room, after: Room, a: Audit)
    requires after.audits == before.audits + [a] && after.policy == Replay(before.policy, [a])
    requires forall u :: PermissionIn(after, u) == ReplayMember(PermissionIn(before, u), [a], u)
    requires forall u :: RecordsBefore(a, before.policy, PermissionIn(before, u), u)
    ensures Explained(before, after)
  {
    var added := after.audits[|before.audits|..];
    assert added == [a];
    forall u, k | 0 <= k < |added|
      ensures RecordsBefore(added[k], Replay(before.policy, added[..k]), ReplayMember(PermissionIn(before, u), added[..k], u), u)
    {
      assert k == 0 && added[..k] == [];
    }
  }

  lemma StepIsExplained(rooms: map<Id, Room>, e: Event, id: Id)
    requires id in rooms
    ensures id in Step(rooms, e) && Explained(rooms[id], Step(rooms, e)[id])
  {
    var before, after := rooms[id], Step(rooms, e)[id];
    if after.audits == before.audits {
      Unaudited(before, after);
    } else {
      var a := after.audits[|before.audits|];
      assert [a][..0] == [];
      assert Replay(before.policy, []) == before.policy;
      ByOneRow(before, after, a);
    }
  }

  lemma {:induction false} ReplayOn(policy: Policy, a: seq<Audit>, b: seq<Audit>)
    ensures Replay(policy, a + b) == Replay(Replay(policy, a), b)
    decreases |b|
  {
    if b == [] {
      assert a + b == a;
    } else {
      assert (a + b)[..|a + b| - 1] == a + b[..|b| - 1];
      ReplayOn(policy, a, b[..|b| - 1]);
    }
  }

  lemma {:induction false} ReplayMemberOn(permission: PostPermission, a: seq<Audit>, b: seq<Audit>, u: Id)
    ensures ReplayMember(permission, a + b, u) == ReplayMember(ReplayMember(permission, a, u), b, u)
    decreases |b|
  {
    if b == [] {
      assert a + b == a;
    } else {
      assert (a + b)[..|a + b| - 1] == a + b[..|b| - 1];
      ReplayMemberOn(permission, a, b[..|b| - 1], u);
    }
  }

  lemma ExplainedTwice(before: Room, middle: Room, after: Room)
    requires Explained(before, middle) && Explained(middle, after)
    ensures Explained(before, after)
  {
    var a, b := middle.audits[|before.audits|..], after.audits[|middle.audits|..];
    var added := after.audits[|before.audits|..];
    assert added == a + b;
    ReplayOn(before.policy, a, b);
    forall u ensures PermissionIn(after, u) == ReplayMember(PermissionIn(before, u), added, u) {
      ReplayMemberOn(PermissionIn(before, u), a, b, u);
    }
    forall u, k | 0 <= k < |added|
      ensures RecordsBefore(added[k], Replay(before.policy, added[..k]), ReplayMember(PermissionIn(before, u), added[..k], u), u)
    {
      if k < |a| {
        assert added[..k] == a[..k];
      } else {
        var j := k - |a|;
        assert added[..k] == a + b[..j];
        ReplayOn(before.policy, a, b[..j]);
        ReplayMemberOn(PermissionIn(before, u), a, b[..j], u);
        assert added[k] == b[j];
      }
    }
  }

  /** From the creation of a room on, replaying its audit rows gives its policy and everybody's permission, and each
      row's record of the state before it is what the earlier rows lead to. */
  lemma {:induction false} AuditLogExplains(rooms: map<Id, Room>, events: seq<Event>, id: Id)
    requires id in rooms
    ensures id in Run(rooms, events) && Explained(rooms[id], Run(rooms, events)[id])
    decreases |events|
  {
    if events == [] {
      Unaudited(rooms[id], rooms[id]);
    } else {
      StepIsExplained(rooms, events[0], id);
      AuditLogExplains(Step(rooms, events[0]), events[1..], id);
      ExplainedTwice(rooms[id], Step(rooms, events[0])[id], Run(rooms, events)[id]);
    }
  }

  // ---------- Versioned rules ----------

  function Count(rules: seq<Rule>, code: string): nat {
    if rules == [] then 0
    else Count(rules[..|rules| - 1], code) + if rules[|rules| - 1].code == code then 1 else 0
  }

  /** No later rule has the same code. */
  ghost predicate Newest(rules: seq<Rule>, i: int)
    requires 0 <= i < |rules|
  {
    forall j | i < j < |rules| :: rules[j].code != rules[i].code
  }

  /** The versions of every code are 1, 2, 3, ... in order of creation, and exactly the newest one is active. */
  ghost predicate Versioned(rules: seq<Rule>) {
    && (forall i | 0 <= i < |rules| :: rules[i].version == Count(rules[..i + 1], rules[i].code))
    && (forall i | 0 <= i < |rules| :: rules[i].active <==> Newest(rules, i))
  }

  predicate SameCodes(a: seq<Rule>, b: seq<Rule>) {
    |a| == |b| && forall i | 0 <= i < |a| :: a[i].code == b[i].code
  }

  lemma {:induction false} CountSame(a: seq<Rule>, b: seq<Rule>, code: string)
    requires SameCodes(a, b)
    ensures Count(a, code) == Count(b, code)
    decreases |a|
  {
    if a != [] {
      CountSame(a[..|a| - 1], b[..|b| - 1], code);
    }
  }

  lemma {:induction false} NoneWithCode(rules: seq<Rule>, code: string)
    requires forall i | 0 <= i < |rules| :: rules[i].code != code
    ensures Count(rules, code) == 0
    decreases |rules|
  {
    if rules != [] {
      NoneWithCode(rules[..|rules| - 1], code);
    }
  }

  lemma {:induction false} CountUpTo(rules: seq<Rule>, code: string, i: nat)
    requires i < |rules| && rules[i].code == code && forall j | i < j < |rules| :: rules[j].code != code
    ensures Count(rules[..i + 1], code) == Count(rules, code)
    decreases |rules|
  {
    var last := |rules| - 1;
    if i == last {
      assert rules[..i + 1] == rules;
    } else {
      assert rules[..last][..i + 1] == rules[..i + 1];
      CountUpTo(rules[..last], code, i);
    }
  }

  ghost predicate OneActive(rules: seq<Rule>, code: string) {
    forall i, j | 0 <= i < j < |rules| && rules[i].code == code && rules[j].code == code :: !rules[i].active
  }

  lemma {:induction false} CurrentIsActive(rules: seq<Rule>, code: string)
    requires OneActive(rules, code)
    ensures forall i | 0 <= i < |rules| && rules[i].code == code && rules[i].active :: Current(rules, code) == Some(i)
    decreases |rules|
  {
    if rules != [] {
      CurrentIsActive(rules[..|rules| - 1], code);
    }
  }

  lemma {:induction false} NewestIsActive(rules: seq<Rule>, code: string, i: nat)
    requires Versioned(rules) && i < |rules| && rules[i].code == code
    ensures exists j :: i <= j < |rules| && rules[j].code == code && rules[j].active
    decreases |rules| - i
  {
    if !rules[i].active {
      var j :| i < j < |rules| && rules[j].code == rules[i].code;
      NewestIsActive(rules, code, j);
    }
  }

  lemma PreviousVersion(rules: seq<Rule>, code: string)
    requires Versioned(rules)
    ensures var r := Current(rules, code);
      if r.None? then Count(rules, code) == 0 && forall i | 0 <= i < |rules| :: rules[i].code != code
      else rules[r.value].version == Count(rules, code) && Newest(rules, r.value)
  {
    CurrentIsActive(rules, code);
    if Current(rules, code).None? {
      forall i | 0 <= i < |rules| ensures rules[i].code != code {
        if rules[i].code == code {
          NewestIsActive(rules, code, i);
        }
      }
      NoneWithCode(rules, code);
    } else {
      CountUpTo(rules, code, Current(rules, code).value);
    }
  }

  lemma RetiredStates(rules: seq<Rule>, code: string, i: nat)
    requires Versioned(rules) && i < |rules|
    ensures SameCodes(Retired(rules, code), rules)
    ensures Retired(rules, code)[i].version == rules[i].version
    ensures Retired(rules, code)[i].active <==> Newest(rules, i) && rules[i].code != code
  {
    PreviousVersion(rules, code);
    CurrentIsActive(rules, code);
  }

  lemma Appended(rules: seq<Rule>, rule: Rule, i: nat)
    requires i < |rules|
    ensures Newest(rules + [rule], i) <==> Newest(rules, i) && rules[i].code != rule.code
  {
    var after := rules + [rule];
    assert after[|rules|] == rule;
    assert forall j | 0 <= j < |rules| :: after[j] == rules[j];
  }

  lemma SameCodesSameNewest(a: seq<Rule>, b: seq<Rule>, i: nat)
    requires SameCodes(a, b) && i < |a|
    ensures Newest(a, i) <==> Newest(b, i)
  {
    assert forall j | 0 <= j < |a| :: a[j].code == b[j].code;
  }

  lemma WithRuleKeepsVersions(rules: seq<Rule>, code: string, text: string)
    requires Versioned(rules)
    ensures Versioned(WithRule(rules, code, text)) && |WithRule(rules, code, text)| == |rules| + 1
  {
    LastVersionCounts(rules, code);
    AllRetiredStates(rules, code);
    AppendKeepsVersioned(rules, Retired(rules, code), Rule(code, text, LastVersion(rules, code) + 1, true));
  }

  lemma LastVersionCounts(rules: seq<Rule>, code: string)
    requires Versioned(rules)
    ensures LastVersion(rules, code) == Count(rules, code)
  {
    PreviousVersion(rules, code);
  }

  lemma AllRetiredStates(rules: seq<Rule>, code: string)
    requires Versioned(rules)
    ensures SameCodes(Retired(rules, code), rules)
    ensures forall i | 0 <= i < |rules| :: Retired(rules, code)[i].version == rules[i].version
    ensures forall i | 0 <= i < |rules| :: Retired(rules, code)[i].active <==> Newest(rules, i) && rules[i].code != code
  {
    forall i | 0 <= i < |rules|
      ensures SameCodes(Retired(rules, code), rules) && Retired(rules, code)[i].version == rules[i].version
      ensures Retired(rules, code)[i].active <==> Newest(rules, i) && rules[i].code != code
    {
      RetiredStates(rules, code, i);
    }
  }

  lemma AppendKeepsVersioned(rules: seq<Rule>, retired: seq<Rule>, added: Rule)
    requires Versioned(rules) && SameCodes(retired, rules)
    requires forall i | 0 <= i < |rules| :: retired[i].version == rules[i].version
    requires forall i | 0 <= i < |rules| :: retired[i].active <==> Newest(rules, i) && rules[i].code != added.code
    requires added.active && added.version == Count(rules, added.code) + 1
    ensures Versioned(retired + [added])
  {
    var after := retired + [added];
    CountSame(retired, rules, added.code);
    CountAppended(retired, added);
    assert after[..|after|] == after;
    forall i | 0 <= i < |rules|
      ensures after[i].version == Count(after[..i + 1], after[i].code)
      ensures after[i].active <==> Newest(after, i)
    {
      EarlierRuleStays(rules, retired, added, i);
    }
  }

  lemma EarlierRuleStays(rules: seq<Rule>, retired: seq<Rule>, added: Rule, i: nat)
    requires i < |rules| && SameCodes(retired, rules)
    requires rules[i].version == Count(rules[..i + 1], rules[i].code) && retired[i].version == rules[i].version
    requires retired[i].active <==> Newest(rules, i) && rules[i].code != added.code
    ensures var after := retired + [added];
      && after[i].version == Count(after[..i + 1], after[i].code)
      && (after[i].active <==> Newest(after, i))
  {
    assert (retired + [added])[..i + 1] == retired[..i + 1];
    CountSame(retired[..i + 1], rules[..i + 1], rules[i].code);
    Appended(retired, added, i);
    SameCodesSameNewest(retired, rules, i);
  }

  lemma CountAppended(rules: seq<Rule>, rule: Rule)
    ensures Count(rules + [rule], rule.code) == Count(rules, rule.code) + 1
  {
    assert (rules + [rule])[..|rules|] == rules;
  }

  ghost predicate RulesFine(rooms: map<Id, Room>) {
    forall id | id in rooms :: Versioned(rooms[id].rules) && rooms[id].rulesVersion == |rooms[id].rules| + 1
  }

  lemma RulesUntouched(rooms: map<Id, Room>, e: Event, id: Id)
    requires id in Step(rooms, e) && !(e.action.AddRule? && e.action.id == id)
    ensures var after := Step(rooms, e)[id];
      if id in rooms then after.rules == rooms[id].rules && after.rulesVersion == rooms[id].rulesVersion
      else after.rules == [] && after.rulesVersion == 1
  {
  }

  lemma AddKeepsRules(rooms: map<Id, Room>, e: Event)
    requires RulesFine(rooms) && e.action.AddRule? && e.action.id in rooms
    ensures var after := Step(rooms, e)[e.action.id]; Versioned(after.rules) && after.rulesVersion == |after.rules| + 1
  {
    WithRuleKeepsVersions(rooms[e.action.id].rules, e.action.code, e.action.text);
  }

  lemma StepKeepsRules(rooms: map<Id, Room>, e: Event)
    requires RulesFine(rooms)
    ensures RulesFine(Step(rooms, e))
  {
    var after := Step(rooms, e);
    forall id | id in after ensures Versioned(after[id].rules) && after[id].rulesVersion == |after[id].rules| + 1 {
      if e.action.AddRule? && e.action.id == id {
        AddKeepsRules(rooms, e);
      } else {
        RulesUntouched(rooms, e, id);
      }
    }
  }

  /** In every room, at every moment, the rules are versioned and the room's own version counts the changes. */
  lemma {:induction false} RulesStayVersioned(rooms: map<Id, Room>, events: seq<Event>)
    requires RulesFine(rooms)
    ensures RulesFine(Run(rooms, events))
    decreases |events|
  {
    if events != [] {
      StepKeepsRules(rooms, events[0]);
      RulesStayVersioned(Step(rooms, events[0]), events[1..]);
    }
  }

  // ---------- Who may post ----------

  /** What the room list shows as somebody's permission is what posting then answers. */
  lemma GateAgreesWithPermission(rooms: map<Id, Room>, id: Id, user: User, now: nat)
    requires PostSpec(rooms, id, user, now).1 != Refused
    ensures user.id.Some? && id in rooms
    ensures var shown := PermissionOf(rooms[id], MemberOf(rooms, id, user.id.value), now);
      shown != Blocked && (PostSpec(rooms, id, user, now).1 == NeedsApproval <==> shown == Reviewed)
  {
  }

  /** In a locked room with review and without personal exceptions, whoever posts needs approval until an administrator
      steps in. */
  lemma LockedReviewAppliesToAll(rooms: map<Id, Room>, events: seq<Event>, id: Id, user: User, now: nat)
    requires id in rooms && rooms[id].policy == Policy(AfterApproval, true)
    requires forall u :: PermissionIn(rooms[id], u) != Freely
    requires forall e | e in events :: NotByAdmin(e, id)
    ensures PostSpec(Run(rooms, events), id, user, now).1 != Direct
  {
    LockHolds(rooms, events, id);
    var after := Run(rooms, events);
    assert forall u :: PermissionIn(after[id], u) != Freely;
    if PostSpec(after, id, user, now).1 != Refused {
      GateAgreesWithPermission(after, id, user, now);
      assert PermissionIn(after[id], user.id.value) != Freely;
    }
  }
}
