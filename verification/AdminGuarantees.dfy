/** Changing roles while requests interleave: when administrators remain, and what the check on the last one is worth. */
module AdminGuarantees {
  import opened Wrappers
  import opened Sessions
  import opened SessionGuarantees

  // ---------- The check on the last administrator ----------

  lemma {:induction false} SubsetSize(a: set<Id>, b: set<Id>)
    requires a <= b
    ensures |a| <= |b|
    decreases |a|
  {
    if a != {} {
      var x :| x in a;
      SubsetSize(a - {x}, b - {x});
    }
  }

  lemma OnlyElement(s: set<Id>, x: Id)
    requires x in s
    ensures |s| <= 1 <==> s == {x}
  {
    if |s| <= 1 {
      forall y | y in s ensures y == x {
        SubsetSize({x, y}, s);
      }
    }
  }

  /** The count refuses a demotion exactly when the account is the only administrator left; whoever asked for it, and was
      one at the guard, is then no administrator any more. */
  lemma LastAdminCheckDecides(users: map<Id, User>, actor: Id, user: Id, role: Role)
    requires Exists(users, user) && users[user].role == Admin && role != Admin && actor != user
    ensures RoleCheck(users, actor, user, role) == Failure(Forbidden) <==> Admins(users) == {user}
    ensures RoleCheck(users, actor, user, role) == Failure(Forbidden) ==> actor !in Admins(users)
  {
    OnlyElement(Admins(users), user);
  }

  /** Guard, check and write in a row are what the method does. */
  lemma ThreeStepsAreOneCall(s: System, r: Id, a: Access, user: Id, role: Role, now: nat, life: Lifetimes)
    requires a in s.signed && r !in s.pending && !Locked(s.pending, user) && s.clock <= now
    ensures RunFrom(s, [Event(now, AskRoleChange(r, a, user, role)), Event(now, CheckRoleChange(r)), Event(now, WriteRoleChange(r))], life).store
         == ChangeRoleSpec(s.store, a, user, role, now).0
  {
    var ask, check, write := Event(now, AskRoleChange(r, a, user, role)), Event(now, CheckRoleChange(r)), Event(now, WriteRoleChange(r));
    RunOfThree(s, ask, check, write, life);
    var asked := Step(s, ask, life);
    if r in asked.pending {
      assert asked.pending == s.pending[r := Guarded(a.sub, user, role)];
      assert !Locked(asked.pending, user);
    }
  }

  lemma RunOfThree(s: System, a: Event, b: Event, c: Event, life: Lifetimes)
    ensures RunFrom(s, [a, b, c], life) == Step(Step(Step(s, a, life), b, life), c, life)
  {
    assert [a, b, c][1..] == [b, c] && [b, c][1..] == [c];
    assert RunFrom(Step(Step(s, a, life), b, life), [c], life) == Step(Step(Step(s, a, life), b, life), c, life);
  }

  // ---------- When the last administrator goes ----------

  /** A sole administrator deletes the account, or a counted demotion of the sole administrator is written. */
  predicate RemovesLastAdmin(s: System, e: Event) {
    && e.at >= s.clock && Possible(s, e.action)
    && match e.action
       case Delete(access, password) =>
         DeleteSpec(s.store, access, password, e.at).1.Success? && Admins(s.store.users) == {access.sub}
       case WriteRoleChange(r) => s.pending[r].role != Admin && Admins(s.store.users) == {s.pending[r].user}
       case _ => false
  }

  lemma OthersStayAdmins(s: System, e: Event, life: Lifetimes, v: Id)
    requires v in Admins(s.store.users) && Whose(s, e.action) != Some(v)
    ensures v in Admins(Step(s, e, life).store.users)
  {
    StepChangesOneUser(s, e, life);
  }

  lemma LastAdminRemoved(s: System, e: Event, life: Lifetimes)
    requires RemovesLastAdmin(s, e)
    ensures Admins(Step(s, e, life).store.users) == {}
  {
    var u := Whose(s, e.action).value;
    assert u in Admins(s.store.users);
    var after := Step(s, e, life).store.users;
    StepChangesOneUser(s, e, life);
    forall v ensures v !in Admins(after) {
      if v != u && v in after {
        assert after[v] == s.store.users[v] && v !in Admins(s.store.users);
      }
    }
  }

  lemma SoleAdminStays(s: System, e: Event, life: Lifetimes, v: Id)
    requires Admins(s.store.users) == {v} && Whose(s, e.action) == Some(v) && !RemovesLastAdmin(s, e)
    ensures v in Admins(Step(s, e, life).store.users)
  {
    assert v in Admins(s.store.users);
  }

  /** One step takes the last administrator away if and only if it is one of the two. */
  lemma AdminsVanishIff(s: System, e: Event, life: Lifetimes)
    requires Admins(s.store.users) != {}
    ensures Admins(Step(s, e, life).store.users) == {} <==> RemovesLastAdmin(s, e)
  {
    if RemovesLastAdmin(s, e) {
      LastAdminRemoved(s, e, life);
    } else {
      var v :| v in Admins(s.store.users);
      if Whose(s, e.action) != Some(v) {
        OthersStayAdmins(s, e, life, v);
      } else if Admins(s.store.users) == {v} {
        SoleAdminStays(s, e, life, v);
      } else {
        var w :| w in Admins(s.store.users) && w != v;
        OthersStayAdmins(s, e, life, w);
      }
    }
  }

  ghost predicate AdminsThroughout(s: System, events: seq<Event>, life: Lifetimes)
    decreases |events|
  {
    Admins(s.store.users) != {} && (events != [] ==> AdminsThroughout(Step(s, events[0], life), events[1..], life))
  }

  ghost predicate NeverRemovesLastAdmin(s: System, events: seq<Event>, life: Lifetimes)
    decreases |events|
  {
    events != [] ==> !RemovesLastAdmin(s, events[0]) && NeverRemovesLastAdmin(Step(s, events[0], life), events[1..], life)
  }

  /** There is an administrator all through a run exactly when none of its steps is one of the two. */
  lemma {:induction false} AdminsRemain(s: System, events: seq<Event>, life: Lifetimes)
    requires Admins(s.store.users) != {}
    ensures AdminsThroughout(s, events, life) <==> NeverRemovesLastAdmin(s, events, life)
    decreases |events|
  {
    if events != [] {
      AdminsVanishIff(s, events[0], life);
      if Admins(Step(s, events[0], life).store.users) != {} {
        AdminsRemain(Step(s, events[0], life), events[1..], life);
      }
    }
  }

  /** A demotion that is written right after its count leaves an administrator: the check is enough when transactions
      do not overlap. */
  lemma CountedThenWritten(s: System, r: Id, at: nat, now: nat, life: Lifetimes)
    requires Inv(s) && Admins(s.store.users) != {} && r in s.pending && s.pending[r].Guarded?
    ensures Admins(Step(Step(s, Event(at, CheckRoleChange(r)), life), Event(now, WriteRoleChange(r)), life).store.users) != {}
  {
    var counted, write := Step(s, Event(at, CheckRoleChange(r)), life), Event(now, WriteRoleChange(r));
    var change, admins := s.pending[r], Admins(s.store.users);
    assert counted.store == s.store;
    if change.user in admins {
      OnlyElement(admins, change.user);
    }
    assert r in counted.pending && counted.pending[r].Counted? && change.role != Admin ==> admins != {change.user};
    AdminsVanishIff(counted, write, life);
  }

  // ---------- The audit rows of role changes ----------

  function RoleAfter(role: Role, audits: seq<RoleAudit>, user: Id): Role {
    if audits == [] then role
    else
      var last := audits[|audits| - 1];
      if last.user == user then last.newRole else RoleAfter(role, audits[..|audits| - 1], user)
  }

  /** Row `k` names the role it replaced. */
  predicate RecordsRole(users: map<Id, User>, audits: seq<RoleAudit>, k: nat)
    requires k < |audits|
  {
    audits[k].user in users && audits[k].oldRole == RoleAfter(users[audits[k].user].role, audits[..k], audits[k].user)
  }

  /** The rows appended since `before` lead from each role to the role in `after`, and each row names the role it replaced. */
  ghost predicate Audited(before: Store, after: Store) {
    && before.audits <= after.audits && before.users.Keys == after.users.Keys
    && var added := after.audits[|before.audits|..];
       && (forall u | u in before.users :: after.users[u].role == RoleAfter(before.users[u].role, added, u))
       && (forall k | 0 <= k < |added| :: RecordsRole(before.users, added, k))
  }

  lemma StepIsAudited(s: System, e: Event, life: Lifetimes)
    ensures Audited(s.store, Step(s, e, life).store)
  {
    var after := Step(s, e, life);
    if after == s {
      assert s.store.audits[|s.store.audits|..] == [];
    } else if e.action.WriteRoleChange? {
      var added := after.store.audits[|s.store.audits|..];
      assert |added| == 1 && added[..0] == [];
    } else {
      RolesStay(s, e, life);
      assert after.store.audits[|s.store.audits|..] == [];
    }
  }

  predicate SameRoles(before: map<Id, User>, after: map<Id, User>) {
    before.Keys == after.Keys && forall u | u in before :: after[u].role == before[u].role
  }

  lemma RolesStay(s: System, e: Event, life: Lifetimes)
    requires !e.action.WriteRoleChange?
    ensures Step(s, e, life).store.audits == s.store.audits && SameRoles(s.store.users, Step(s, e, life).store.users)
  {
    if e.action.Reset? || e.action.ChangePassword? || e.action.Delete? {
      OneRoleStays(s, e, life);
    } else {
      assert Step(s, e, life).store.users == s.store.users;
    }
  }

  lemma OneRoleStays(s: System, e: Event, life: Lifetimes)
    requires e.action.Reset? || e.action.ChangePassword? || e.action.Delete?
    ensures Step(s, e, life).store.audits == s.store.audits && SameRoles(s.store.users, Step(s, e, life).store.users)
  {
  }

  lemma {:induction false} RoleAfterMore(role: Role, a: seq<RoleAudit>, b: seq<RoleAudit>, user: Id)
    ensures RoleAfter(role, a + b, user) == RoleAfter(RoleAfter(role, a, user), b, user)
    decreases |b|
  {
    if b == [] {
      assert a + b == a;
    } else {
      assert (a + b)[..|a + b| - 1] == a + b[..|b| - 1];
      RoleAfterMore(role, a, b[..|b| - 1], user);
    }
  }

  lemma AuditedTwice(before: Store, middle: Store, after: Store)
    requires Audited(before, middle) && Audited(middle, after)
    ensures Audited(before, after)
  {
    var a, b := middle.audits[|before.audits|..], after.audits[|middle.audits|..];
    var added := after.audits[|before.audits|..];
    assert added == a + b;
    forall u | u in before.users ensures after.users[u].role == RoleAfter(before.users[u].role, added, u) {
      RoleAfterMore(before.users[u].role, a, b, u);
    }
    forall k | 0 <= k < |added|
      ensures RecordsRole(before.users, added, k)
    {
      if k < |a| {
        assert RecordsRole(before.users, a, k) && added[k] == a[k] && added[..k] == a[..k];
      } else {
        assert RecordsRole(middle.users, b, k - |a|);
        LaterRow(before.users, middle.users, a, b, k - |a|);
      }
    }
  }

  lemma LaterRow(users: map<Id, User>, middle: map<Id, User>, a: seq<RoleAudit>, b: seq<RoleAudit>, j: nat)
    requires j < |b| && users.Keys == middle.Keys && RecordsRole(middle, b, j)
    requires forall u | u in users :: middle[u].role == RoleAfter(users[u].role, a, u)
    ensures RecordsRole(users, a + b, |a| + j)
  {
    assert (a + b)[|a| + j] == b[j] && (a + b)[..|a| + j] == a + b[..j];
    RoleAfterMore(users[b[j].user].role, a, b[..j], b[j].user);
  }

  /** Replaying the audit rows gives every role, and each row records the role that the earlier rows lead to. */
  lemma {:induction false} RolesFollowAudits(s: System, events: seq<Event>, life: Lifetimes)
    ensures Audited(s.store, RunFrom(s, events, life).store)
    decreases |events|
  {
    if events == [] {
      assert s.store.audits[|s.store.audits|..] == [];
    } else {
      StepIsAudited(s, events[0], life);
      RolesFollowAudits(Step(s, events[0], life), events[1..], life);
      AuditedTwice(s.store, Step(s, events[0], life).store, RunFrom(s, events, life).store);
    }
  }

  // ---------- Runs without administrators at the end ----------

  lemma {:induction false} RunAppend(s: System, xs: seq<Event>, ys: seq<Event>, life: Lifetimes)
    ensures RunFrom(s, xs + ys, life) == RunFrom(RunFrom(s, xs, life), ys, life)
    decreases |xs|
  {
    if xs == [] {
      assert xs + ys == ys;
    } else {
      assert (xs + ys)[0] == xs[0] && (xs + ys)[1..] == xs[1..] + ys;
      RunAppend(Step(s, xs[0], life), xs[1..], ys, life);
    }
  }

  lemma RunOneMore(s: System, events: seq<Event>, e: Event, life: Lifetimes)
    ensures RunFrom(s, events + [e], life) == Step(RunFrom(s, events, life), e, life)
  {
    RunAppend(s, events, [e], life);
    assert [e][1..] == [];
  }

  // ---------- Only administrators change roles ----------

  /** A role change succeeds for every administrator, on every account there is, except to demote oneself; the count
      cannot refuse a call that is not interrupted. */
  lemma RoleChangeSucceedsIff(s: Store, a: Access, user: Id, role: Role, now: nat)
    ensures var (after, r) := ChangeRoleSpec(s, a, user, role, now);
      && (r.Success? <==>
            Accepted(s, a, now) && s.users[a.sub].role == Admin && Exists(s.users, user) && (user == a.sub ==> role == Admin))
      && (r.Failure? ==> after == s)
      && (r == Failure(Unauthorized) <==> !Accepted(s, a, now))
      && (r == Failure(NotFound) <==> Accepted(s, a, now) && s.users[a.sub].role == Admin && !Exists(s.users, user))
      && (r.Success? ==>
            && after.users.Keys == s.users.Keys && after.users[user].role == role
            && (s.users[user].role == role ==> after == s))
  {
    if Accepted(s, a, now) && s.users[a.sub].role == Admin && Exists(s.users, user) && s.users[user].role == Admin {
      OnlyElement(Admins(s.users), user);
      assert a.sub in Admins(s.users);
    }
  }

  ghost predicate WasAdmin(s: System, events: seq<Event>, life: Lifetimes, u: Id) {
    exists i :: 0 <= i <= |events| && AdminAfter(s, events, i, life, u)
  }

  predicate AdminAfter(s: System, events: seq<Event>, i: nat, life: Lifetimes, u: Id)
    requires i <= |events|
  {
    u in Admins(RunFrom(s, events[..i], life).store.users)
  }

  lemma WasAdminBefore(s: System, events: seq<Event>, life: Lifetimes, u: Id)
    requires events != [] && WasAdmin(s, events[..|events| - 1], life, u)
    ensures WasAdmin(s, events, life, u)
  {
    var i :| 0 <= i <= |events| - 1 && AdminAfter(s, events[..|events| - 1], i, life, u);
    assert events[..|events| - 1][..i] == events[..i];
    assert AdminAfter(s, events, i, life, u);
  }

  /** Whoever has a role change under way was an administrator at some moment, and demotes nobody but others. */
  ghost predicate AskedByAdmins(s: System, events: seq<Event>, life: Lifetimes, pending: map<Id, RoleChange>) {
    forall r | r in pending ::
      && WasAdmin(s, events, life, pending[r].actor)
      && (pending[r].Counted? && pending[r].actor == pending[r].user ==> pending[r].role == Admin)
  }

  ghost predicate WrittenByAdmins(s: System, events: seq<Event>, life: Lifetimes, audits: seq<RoleAudit>) {
    forall a | a in audits :: WasAdmin(s, events, life, a.changedBy) && (a.changedBy == a.user ==> a.newRole == Admin)
  }

  /** What one event adds to the changes under way and to the audit rows. */
  lemma StepAsksOrWrites(s: System, e: Event, life: Lifetimes)
    ensures var after := Step(s, e, life);
      && (forall r | r in after.pending ::
            || (r in s.pending && after.pending[r] == s.pending[r])
            || (after.pending[r].Guarded? && after.pending[r].actor in Admins(s.store.users))
            || (&& r in s.pending && after.pending[r].Counted? && after.pending[r].actor == s.pending[r].actor
                && (after.pending[r].actor == after.pending[r].user ==> after.pending[r].role == Admin)))
      && (after.store.audits == s.store.audits
          || exists r, a :: r in s.pending && s.pending[r].Counted? && after.store.audits == s.store.audits + [a]
                            && a.changedBy == s.pending[r].actor && a.user == s.pending[r].user && a.newRole == s.pending[r].role)
  {
    var after := Step(s, e, life);
    if after == s {
    } else if e.action.WriteRoleChange? {
      WriteAudits(s, e, life);
    } else if e.action.AskRoleChange? || e.action.CheckRoleChange? || e.action.DropRoleChange? {
      assert after.store == s.store;
    } else {
      RolesStay(s, e, life);
      PendingStays(s, e, life);
    }
  }

  lemma WriteAudits(s: System, e: Event, life: Lifetimes)
    requires e.action.WriteRoleChange? && e.at >= s.clock && Possible(s, e.action)
    ensures var after, change := Step(s, e, life), s.pending[e.action.request];
      && after.pending == s.pending - {e.action.request} && change.Counted?
      && exists a :: after.store.audits == s.store.audits + [a]
                     && a.changedBy == change.actor && a.user == change.user && a.newRole == change.role
  {
    var change := s.pending[e.action.request];
    var a := RoleAudit(change.user, s.store.users[change.user].role, change.role, change.actor);
    assert Step(s, e, life).store.audits == s.store.audits + [a];
  }

  lemma PendingStays(s: System, e: Event, life: Lifetimes)
    requires !e.action.WriteRoleChange? && !e.action.AskRoleChange? && !e.action.CheckRoleChange? && !e.action.DropRoleChange?
    ensures Step(s, e, life).pending == s.pending
  {
  }

  /** Through every run: each audit row names as its author somebody who was an administrator at some moment of the run,
      and no row demotes its own author. */
  lemma {:induction false} RolesAreWrittenByAdmins(s: System, events: seq<Event>, life: Lifetimes)
    requires s.pending == map[] && s.store.audits == []
    ensures var end := RunFrom(s, events, life);
      AskedByAdmins(s, events, life, end.pending) && WrittenByAdmins(s, events, life, end.store.audits)
    decreases |events|
  {
    if events != [] {
      var last := |events| - 1;
      var before, e := RunFrom(s, events[..last], life), events[last];
      RolesAreWrittenByAdmins(s, events[..last], life);
      RunOneMore(s, events[..last], e, life);
      assert events[..last] + [e] == events;
      StepAsksOrWrites(before, e, life);
      var end := Step(before, e, life);
      forall r | r in end.pending ensures WasAdmin(s, events, life, end.pending[r].actor) {
        if r in before.pending && end.pending[r].actor == before.pending[r].actor {
          WasAdminBefore(s, events, life, end.pending[r].actor);
        } else {
          assert AdminAfter(s, events, last, life, end.pending[r].actor);
        }
      }
      forall a | a in end.store.audits
        ensures WasAdmin(s, events, life, a.changedBy) && (a.changedBy == a.user ==> a.newRole == Admin)
      {
        WasAdminBefore(s, events, life, a.changedBy);
      }
    }
  }

  const LIFE := Lifetimes(900, 604_800)
  const ROOT := User(Admin, true, false, "secret", None)
  const ONE := Start(map[1 := ROOT], 0)
  const TWO := Start(map[1 := ROOT, 2 := ROOT], 0)

  const LOGIN_ONE := Event(0, Login(1, "secret", Draw(1, 1)))
  const LOGIN_TWO := Event(0, Login(2, "secret", Draw(2, 2)))
  const FIRST := Access(1, 1, 0, 900)
  const SECONDLY := Access(2, 2, 0, 900)

  /** Deleting the account of a sole administrator is not refused. */
  lemma SoleAdminDeletes() returns (events: seq<Event>)
    ensures Admins(ONE.store.users) == {1} && Admins(RunFrom(ONE, events, LIFE).store.users) == {}
  {
    var delete := Event(0, Delete(FIRST, "secret"));
    events := [LOGIN_ONE] + [delete];
    RunOneMore(ONE, [], LOGIN_ONE, LIFE);
    assert [] + [LOGIN_ONE] == [LOGIN_ONE];
    var s := Step(ONE, LOGIN_ONE, LIFE);
    assert s.store.users == map[1 := ROOT] && s.signed == {FIRST} && s.store.blacklist == map[] && s.pending == map[];
    RunOneMore(ONE, [LOGIN_ONE], delete, LIFE);
    assert Step(s, delete, LIFE).store.users == map[1 := ROOT.(deleted := true)];
  }

  const ASK_ONE := Event(0, AskRoleChange(10, FIRST, 2, Student))
  const ASK_TWO := Event(0, AskRoleChange(20, SECONDLY, 1, Student))

  /** Two administrators have each asked to demote the other, and both requests have passed the guard. */
  predicate BothAsked(s: System) {
    && s.store.users == map[1 := ROOT, 2 := ROOT] && s.clock == 0
    && s.pending == map[10 := Guarded(1, 2, Student), 20 := Guarded(2, 1, Student)]
  }

  lemma TwoAsk() returns (events: seq<Event>)
    ensures BothAsked(RunFrom(TWO, events, LIFE))
  {
    events := [LOGIN_ONE] + [LOGIN_TWO] + [ASK_ONE] + [ASK_TWO];
    RunOneMore(TWO, [], LOGIN_ONE, LIFE);
    assert [] + [LOGIN_ONE] == [LOGIN_ONE];
    var s := Step(TWO, LOGIN_ONE, LIFE);
    assert s.store == TWO.store.(tokens := map[1 := Refresh(1, false, 604_800_000)]) && s.signed == {FIRST};
    RunOneMore(TWO, [LOGIN_ONE], LOGIN_TWO, LIFE);
    s := Step(s, LOGIN_TWO, LIFE);
    assert s.store.users == TWO.store.users && s.store.blacklist == map[] && s.signed == {FIRST, SECONDLY} && s.pending == map[];
    RunOneMore(TWO, [LOGIN_ONE] + [LOGIN_TWO], ASK_ONE, LIFE);
    s := Step(s, ASK_ONE, LIFE);
    assert s.pending == map[10 := Guarded(1, 2, Student)] && s.store.users == TWO.store.users && s.signed == {FIRST, SECONDLY};
    RunOneMore(TWO, [LOGIN_ONE] + [LOGIN_TWO] + [ASK_ONE], ASK_TWO, LIFE);
  }

  const CHECK_ONE := Event(0, CheckRoleChange(10))
  const CHECK_TWO := Event(0, CheckRoleChange(20))
  const WRITE_ONE := Event(0, WriteRoleChange(10))
  const WRITE_TWO := Event(0, WriteRoleChange(20))

  lemma TwoAdmins()
    ensures Admins(TWO.store.users) == {1, 2}
  {
    assert Admins(TWO.store.users) == {1, 2};
  }

  lemma SecondCounts(s: System)
    requires BothAsked(s)
    ensures var checked := Step(s, CHECK_TWO, LIFE);
      && checked.store == s.store && checked.clock == 0
      && checked.pending == map[10 := Guarded(1, 2, Student), 20 := Counted(2, 1, Student)]
  {
    TwoAdmins();
  }

  /** The check decides when the other request is done in between: the second administrator stays. */
  lemma CheckSavesLastAdmin(s: System)
    requires BothAsked(s)
    ensures var demoted := Step(Step(s, CHECK_TWO, LIFE), WRITE_TWO, LIFE);
      && Admins(demoted.store.users) == {2} && 10 in demoted.pending
      && RoleCheck(demoted.store.users, 1, 2, Student) == Failure(Forbidden)
      && Step(demoted, CHECK_ONE, LIFE).store == demoted.store && 10 !in Step(demoted, CHECK_ONE, LIFE).pending
  {
    SecondCounts(s);
    var checked := Step(s, CHECK_TWO, LIFE);
    var demoted := Step(checked, WRITE_TWO, LIFE);
    assert demoted.store.users == map[1 := ROOT.(role := Student, changedAt := Some(0)), 2 := ROOT];
    assert Admins(demoted.store.users) == {2};
    assert demoted.pending == map[10 := Guarded(1, 2, Student)];
  }

  lemma BothCount(s: System)
    requires BothAsked(s)
    ensures var counted := Step(Step(s, CHECK_ONE, LIFE), CHECK_TWO, LIFE);
      && counted.store == s.store && counted.clock == 0
      && counted.pending == map[10 := Counted(1, 2, Student), 20 := Counted(2, 1, Student)]
  {
    TwoAdmins();
    var one := Step(s, CHECK_ONE, LIFE);
    assert one.pending == map[10 := Counted(1, 2, Student), 20 := Guarded(2, 1, Student)] && one.store == s.store;
  }

  /** It does not when both have counted before either writes: nobody is left. */
  lemma BothCountedBothWritten(s: System)
    requires BothAsked(s)
    ensures var counted := Step(Step(s, CHECK_ONE, LIFE), CHECK_TWO, LIFE);
      Admins(Step(Step(counted, WRITE_ONE, LIFE), WRITE_TWO, LIFE).store.users) == {}
  {
    BothCount(s);
    FirstWritten(Step(Step(s, CHECK_ONE, LIFE), CHECK_TWO, LIFE));
  }

  lemma FirstWritten(s: System)
    requires s.store.users == map[1 := ROOT, 2 := ROOT] && s.clock == 0
    requires s.pending == map[10 := Counted(1, 2, Student), 20 := Counted(2, 1, Student)]
    ensures Admins(Step(Step(s, WRITE_ONE, LIFE), WRITE_TWO, LIFE).store.users) == {}
  {
    var written := Step(s, WRITE_ONE, LIFE);
    assert written.store.users == map[1 := ROOT, 2 := ROOT.(role := Student, changedAt := Some(0))];
    assert written.pending == map[20 := Counted(2, 1, Student)];
  }

  /** So a run exists in which two administrators end up with none, without any account being deleted. */
  lemma AdminsDemoteEachOther() returns (events: seq<Event>)
    ensures Admins(TWO.store.users) == {1, 2} && Admins(RunFrom(TWO, events, LIFE).store.users) == {}
  {
    TwoAdmins();
    var before := TwoAsk();
    events := before + [CHECK_ONE] + [CHECK_TWO] + [WRITE_ONE] + [WRITE_TWO];
    RunOneMore(TWO, before, CHECK_ONE, LIFE);
    RunOneMore(TWO, before + [CHECK_ONE], CHECK_TWO, LIFE);
    RunOneMore(TWO, before + [CHECK_ONE] + [CHECK_TWO], WRITE_ONE, LIFE);
    RunOneMore(TWO, before + [CHECK_ONE] + [CHECK_TWO] + [WRITE_ONE], WRITE_TWO, LIFE);
    BothCountedBothWritten(RunFrom(TWO, before, LIFE));
  }

  /** And one in which the check refuses a request whose guard has passed. */
  lemma LastAdminCheckFires() returns (events: seq<Event>)
    ensures var s := RunFrom(TWO, events, LIFE);
      && 10 in s.pending && s.pending[10] == Guarded(1, 2, Student)
      && RoleCheck(s.store.users, 1, 2, Student) == Failure(Forbidden) && Admins(s.store.users) == {2}
  {
    var before := TwoAsk();
    events := before + [CHECK_TWO] + [WRITE_TWO];
    RunOneMore(TWO, before, CHECK_TWO, LIFE);
    RunOneMore(TWO, before + [CHECK_TWO], WRITE_TWO, LIFE);
    var s := RunFrom(TWO, before, LIFE);
    CheckSavesLastAdmin(s);
    assert Step(s, CHECK_TWO, LIFE).pending[10] == Guarded(1, 2, Student);
  }

  /** An access token of a login survives a password reset in the same second. */
  lemma SameSecondSurvives() returns (events: seq<Event>)
    ensures var s := RunFrom(ONE, events, LIFE);
      && events == [LOGIN_ONE] + [Event(999, Reset(1, "other", true))]
      && 1 in s.store.users && s.store.users[1].password == "other" && Accepted(s.store, FIRST, 999)
  {
    var reset := Event(999, Reset(1, "other", true));
    events := [LOGIN_ONE] + [reset];
    RunOneMore(ONE, [], LOGIN_ONE, LIFE);
    assert [] + [LOGIN_ONE] == [LOGIN_ONE];
    var s := Step(ONE, LOGIN_ONE, LIFE);
    assert s.store.users == map[1 := ROOT] && s.store.blacklist == map[] && s.pending == map[];
    RunOneMore(ONE, [LOGIN_ONE], reset, LIFE);
  }
}
