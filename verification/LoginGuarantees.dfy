/** Who gets in: when each operation succeeds, which password opens an account after any run, and what strangers can do. */
module LoginGuarantees {
  import opened Wrappers
  import opened Sessions
  import opened SessionGuarantees

  // ---------- When each operation succeeds, and what it leaves ----------

  /** A pair is issued for exactly the right password of an existing, verified account; the drawn token must be new. */
  lemma LoginSucceedsIff(s: Store, user: Id, password: string, now: nat, draw: Draw, life: Lifetimes)
    ensures var (after, r) := LoginSpec(s, user, password, now, draw, life);
      && (r.Success? <==>
            && user in s.users && !s.users[user].deleted && s.users[user].verified && s.users[user].password == password
            && draw.refresh !in s.tokens)
      && (r.Failure? ==> after == s)
      && (r == Failure(Unauthorized) <==>
            !(user in s.users && !s.users[user].deleted && s.users[user].verified && s.users[user].password == password))
      && (r.Failure? ==> r.error == Unauthorized || r.error == Duplicate)
      && after.users == s.users && after.blacklist == s.blacklist && after.audits == s.audits
      && (r.Success? ==>
            && r.value.access == Access(draw.jti, user, now / 1000, now / 1000 + life.access) && r.value.refresh == draw.refresh
            && after.tokens.Keys == s.tokens.Keys + {draw.refresh}
            && after.tokens[draw.refresh] == Refresh(user, false, now + life.refresh * 1000)
            && forall t | t in s.tokens :: after.tokens[t] == s.tokens[t])
  {
  }

  /** A refresh token is redeemed exactly while it is stored, unrevoked and unexpired and its account exists. A revoked one
      ends every session of its account; every other refusal leaves all tokens but the presented one as they were. */
  lemma RefreshSucceedsIff(s: Store, token: RefreshId, now: nat, draw: Draw, life: Lifetimes)
    ensures var (after, r) := RefreshSpec(s, token, now, draw, life);
      && (r.Success? <==>
            && token in s.tokens && !s.tokens[token].revoked && now <= s.tokens[token].expiresAt
            && s.tokens[token].user in s.users && !s.users[s.tokens[token].user].deleted && draw.refresh !in s.tokens)
      && after.users == s.users && after.blacklist == s.blacklist && after.audits == s.audits
      && after.tokens.Keys == s.tokens.Keys + (if r.Success? then {draw.refresh} else {})
      && (r.Success? ==>
            && r.value.access == Access(draw.jti, s.tokens[token].user, now / 1000, now / 1000 + life.access)
            && r.value.refresh == draw.refresh
            && after.tokens[draw.refresh] == Refresh(s.tokens[token].user, false, now + life.refresh * 1000)
            && after.tokens[token].revoked)
      && (r == Failure(Unauthorized) <==> token !in s.tokens || (!s.tokens[token].revoked && s.tokens[token].expiresAt < now))
      && (r == Failure(NotFound) <==>
            && token in s.tokens && !s.tokens[token].revoked && now <= s.tokens[token].expiresAt
            && !Exists(s.users, s.tokens[token].user))
      && (r == Failure(ReuseDetected) <==> token in s.tokens && s.tokens[token].revoked)
      && (r == Failure(ReuseDetected) ==>
            forall t | t in s.tokens ::
              && after.tokens[t].user == s.tokens[t].user
              && (after.tokens[t].revoked <==> s.tokens[t].revoked || s.tokens[t].user == s.tokens[token].user))
      && (token in s.tokens && now <= s.tokens[token].expiresAt ==> after.tokens[token].revoked)
      && (r != Failure(ReuseDetected) ==> forall t | t in s.tokens && t != token :: after.tokens[t] == s.tokens[t])
  {
  }

  /** The tokens of one account are revoked, all others keep their rows. */
  predicate OnlyRevoked(before: map<RefreshId, Refresh>, after: map<RefreshId, Refresh>, user: Id) {
    && before.Keys == after.Keys
    && forall t | t in before ::
         && after[t].user == before[t].user && after[t].expiresAt == before[t].expiresAt
         && (after[t].revoked <==> before[t].revoked || before[t].user == user)
  }

  /** Only the named account differs. */
  predicate OnlyChanged(before: map<Id, User>, after: map<Id, User>, user: Id) {
    before.Keys == after.Keys && forall u | u in before && u != user :: after[u] == before[u]
  }

  lemma ResetSucceedsIff(s: Store, user: Id, password: string, codeValid: bool, now: nat)
    ensures var (after, r) := ResetSpec(s, user, password, codeValid, now);
      && (r.Success? <==> user in s.users && !s.users[user].deleted && codeValid)
      && (r.Failure? ==> after == s && r.error == if Exists(s.users, user) then BadRequest else NotFound)
      && (r.Success? ==>
            && OnlyChanged(s.users, after.users, user) && OnlyRevoked(s.tokens, after.tokens, user)
            && after.users[user].password == password && after.users[user].changedAt == Some(now)
            && after.users[user].role == s.users[user].role && !after.users[user].deleted
            && after.users[user].verified == s.users[user].verified && after.blacklist == s.blacklist)
  {
  }

  lemma ChangePasswordSucceedsIff(s: Store, a: Access, current: string, password: string, confirmation: string, now: nat)
    ensures var (after, r) := ChangePasswordSpec(s, a, current, password, confirmation, now);
      && (r.Success? <==> Accepted(s, a, now) && current == s.users[a.sub].password && password == confirmation)
      && (r.Failure? ==> after == s && r.error == if Accepted(s, a, now) then BadRequest else Unauthorized)
      && (r.Success? ==>
            && OnlyChanged(s.users, after.users, a.sub) && OnlyRevoked(s.tokens, after.tokens, a.sub)
            && after.users[a.sub].password == password && after.users[a.sub].changedAt == Some(now)
            && after.users[a.sub].role == s.users[a.sub].role && !after.users[a.sub].deleted
            && after.users[a.sub].verified == s.users[a.sub].verified
            && !Accepted(after, a, now))
  {
    EntryOutlivesToken(s.blacklist, a, now, now);
  }

  lemma DeleteSucceedsIff(s: Store, a: Access, password: string, now: nat)
    ensures var (after, r) := DeleteSpec(s, a, password, now);
      && (r.Success? <==> Accepted(s, a, now) && password == s.users[a.sub].password)
      && (r.Failure? ==> after == s && r.error == Unauthorized)
      && (r.Success? ==>
            && OnlyChanged(s.users, after.users, a.sub) && OnlyRevoked(s.tokens, after.tokens, a.sub)
            && after.users[a.sub].deleted && !Accepted(after, a, now))
  {
  }

  lemma LogoutSucceedsIff(s: Store, a: Access, now: nat)
    ensures var (after, r) := LogoutSpec(s, a, now);
      && (r.Success? <==> Accepted(s, a, now))
      && (r.Failure? ==> after == s && r.error == Unauthorized)
      && (r.Success? ==> after.users == s.users && OnlyRevoked(s.tokens, after.tokens, a.sub) && !Accepted(after, a, now))
  {
    EntryOutlivesToken(s.blacklist, a, now, now);
  }

  /** A written role change: the new role, and every session of that account and no other is over. */
  lemma RoleTakesEffect(s: Store, actor: Id, user: Id, role: Role, now: nat)
    requires user in s.users
    ensures var after := RoleWrite(s, actor, user, role, now);
      && OnlyChanged(s.users, after.users, user) && OnlyRevoked(s.tokens, after.tokens, user)
      && after.users[user].role == role && after.users[user].changedAt == Some(now)
      && after.users[user].password == s.users[user].password && after.users[user].deleted == s.users[user].deleted
      && after.audits == s.audits + [RoleAudit(user, s.users[user].role, role, actor)]
  {
  }

  // ---------- Redeeming a refresh token ----------

  /** What a run leaves on record: every successful redemption, every signed token, and the chain each token belongs to. */
  lemma SuccessIsRecorded(s: System, e: Event, life: Lifetimes)
    requires Inv(s) && e.at >= s.clock && Possible(s, e.action)
    ensures var after := Step(s, e, life);
      match e.action
      case Login(user, password, draw) =>
        var r := LoginSpec(s.store, user, password, e.at, draw, life).1;
        if r.Success? then after.signed == s.signed + {r.value.access} && after.chains == s.chains + [[draw.refresh]]
        else after.signed == s.signed && after.chains == s.chains
      case UseRefresh(token, draw) =>
        var r := RefreshSpec(s.store, token, e.at, draw, life).1;
        if r.Success? then
          && after.signed == s.signed + {r.value.access} && after.redeemed == s.redeemed + [token]
          && (exists k :: 0 <= k < |s.chains| && token in s.chains[k] && after.chains == s.chains[k := s.chains[k] + [draw.refresh]])
        else after.signed == s.signed && after.redeemed == s.redeemed && after.chains == s.chains
      case _ => after.signed == s.signed && after.redeemed == s.redeemed && after.chains == s.chains
  {
    match e.action {
      case UseRefresh(token, draw) =>
        if RefreshSpec(s.store, token, e.at, draw, life).1.Success? {
          var k := LongerChain(s.chains, s.store.tokens, token, draw.refresh);
          assert token in s.chains[k];
        }
      case Login(_, _, _) =>
      case _ => OtherRevokesAll(s, e.action, e.at, life);
    }
  }

  /** A redeemed token never works again: presenting it at any later time is taken for theft. */
  lemma RedeemedTokenIsDead(s: System, e: Event, later: seq<Event>, life: Lifetimes, now: nat, next: Draw)
    requires Inv(s) && e.at >= s.clock && Possible(s, e.action) && e.action.UseRefresh?
    requires RefreshSpec(s.store, e.action.token, e.at, e.action.draw, life).1.Success?
    ensures RefreshSpec(RunFrom(Step(s, e, life), later, life).store, e.action.token, now, next, life).1 == Failure(ReuseDetected)
  {
    StepKeepsInv(s, e, life);
    RunKeepsInv(Step(s, e, life), later, life);
    assert Revoked(Step(s, e, life).store, e.action.token);
  }

  // ---------- The password of an account after a run ----------

  /** What the event makes the password of the account, if it sets it: a reset with the right code, or a change by the
      signed-in holder who knows the current one and types the new one twice. */
  function SetsPassword(s: System, e: Event, user: Id): Option<string> {
    if e.at < s.clock || !Possible(s, e.action) || !Exists(s.store.users, user) then None
    else
      match e.action
      case Reset(u, password, codeValid) => if u == user && codeValid then Some(password) else None
      case ChangePassword(a, current, password, confirmation) =>
        if a.sub == user && Accepted(s.store, a, e.at) && current == s.store.users[user].password && password == confirmation
        then Some(password) else None
      case _ => None
  }

  predicate DeletesAccount(s: System, e: Event, user: Id) {
    && e.at >= s.clock && Possible(s, e.action) && Exists(s.store.users, user)
    && e.action.Delete? && e.action.access.sub == user && Accepted(s.store, e.action.access, e.at)
    && e.action.password == s.store.users[user].password
  }

  /** The password of the last event of the run that set one. */
  function NewestPassword(s: System, events: seq<Event>, life: Lifetimes, user: Id): Option<string>
    decreases |events|
  {
    if events == [] then None
    else
      var later := NewestPassword(Step(s, events[0], life), events[1..], life, user);
      if later.Some? then later else SetsPassword(s, events[0], user)
  }

  predicate DeletedDuring(s: System, events: seq<Event>, life: Lifetimes, user: Id)
    decreases |events|
  {
    events != [] && (DeletesAccount(s, events[0], user) || DeletedDuring(Step(s, events[0], life), events[1..], life, user))
  }

  /** The event changed password, deletion and verification of the account in no other way. */
  predicate AccountFollows(s: System, e: Event, after: map<Id, User>, user: Id)
    requires user in s.store.users
  {
    && user in after && after[user].verified == s.store.users[user].verified
    && after[user].password == SetsPassword(s, e, user).GetOr(s.store.users[user].password)
    && (after[user].deleted <==> s.store.users[user].deleted || DeletesAccount(s, e, user))
  }

  lemma AccountAfterStep(s: System, e: Event, life: Lifetimes, user: Id)
    requires user in s.store.users
    ensures AccountFollows(s, e, Step(s, e, life).store.users, user)
  {
    if e.at >= s.clock && Possible(s, e.action) {
      match e.action {
        case Reset(_, _, _) => AccountAfterReset(s, e, life, user);
        case ChangePassword(_, _, _, _) => AccountAfterChange(s, e, life, user);
        case Delete(_, _) => AccountAfterDelete(s, e, life, user);
        case _ => AccountAfterOther(s, e, life, user);
      }
    }
  }

  lemma AccountAfterReset(s: System, e: Event, life: Lifetimes, user: Id)
    requires user in s.store.users && e.action.Reset?
    ensures AccountFollows(s, e, Step(s, e, life).store.users, user)
  {
  }

  lemma AccountAfterChange(s: System, e: Event, life: Lifetimes, user: Id)
    requires user in s.store.users && e.action.ChangePassword?
    ensures AccountFollows(s, e, Step(s, e, life).store.users, user)
  {
  }

  lemma AccountAfterDelete(s: System, e: Event, life: Lifetimes, user: Id)
    requires user in s.store.users && e.action.Delete?
    ensures AccountFollows(s, e, Step(s, e, life).store.users, user)
  {
  }

  lemma AccountAfterOther(s: System, e: Event, life: Lifetimes, user: Id)
    requires user in s.store.users && !e.action.Reset? && !e.action.ChangePassword? && !e.action.Delete?
    ensures AccountFollows(s, e, Step(s, e, life).store.users, user)
  {
  }

  lemma {:induction false} AccountAfterRun(s: System, events: seq<Event>, life: Lifetimes, user: Id)
    requires user in s.store.users
    ensures var after := RunFrom(s, events, life).store.users;
      && user in after && after[user].verified == s.store.users[user].verified
      && after[user].password == NewestPassword(s, events, life, user).GetOr(s.store.users[user].password)
      && (after[user].deleted <==> s.store.users[user].deleted || DeletedDuring(s, events, life, user))
    decreases |events|
  {
    if events != [] {
      AccountAfterStep(s, events[0], life, user);
      AccountAfterRun(Step(s, events[0], life), events[1..], life, user);
    }
  }

  /** After any run an account is opened by the newest password and no other, unless it was deleted in between. */
  lemma NewestPasswordOpens(s: System, events: seq<Event>, life: Lifetimes, user: Id, password: string, now: nat, draw: Draw)
    requires user in s.store.users
    ensures var end := RunFrom(s, events, life).store;
      LoginSpec(end, user, password, now, draw, life).1.Success? <==>
        && !s.store.users[user].deleted && !DeletedDuring(s, events, life, user)
        && s.store.users[user].verified
        && password == NewestPassword(s, events, life, user).GetOr(s.store.users[user].password)
        && draw.refresh !in end.tokens
  {
    AccountAfterRun(s, events, life, user);
  }

  ghost predicate NoneSets(s: System, events: seq<Event>, life: Lifetimes, user: Id)
    decreases |events|
  {
    events != [] ==>
      && SetsPassword(s, events[0], user).None?
      && NoneSets(Step(s, events[0], life), events[1..], life, user)
  }

  /** Once a password is set, until the next one is, nobody logs in to that account with a different one. */
  lemma {:induction false} OldPasswordIsDead(s: System, e: Event, later: seq<Event>, life: Lifetimes, user: Id, password: string,
                                             now: nat, draw: Draw)
    requires SetsPassword(s, e, user).Some? && NoneSets(Step(s, e, life), later, life, user)
    ensures LoginSpec(RunFrom(Step(s, e, life), later, life).store, user, password, now, draw, life).1.Success?
        ==> password == SetsPassword(s, e, user).value
  {
    AccountAfterStep(s, e, life, user);
    NoneSetsMeansNone(Step(s, e, life), later, life, user);
    NewestPasswordOpens(Step(s, e, life), later, life, user, password, now, draw);
  }

  lemma {:induction false} NoneSetsMeansNone(s: System, events: seq<Event>, life: Lifetimes, user: Id)
    requires NoneSets(s, events, life, user)
    ensures NewestPassword(s, events, life, user).None?
    decreases |events|
  {
    if events != [] {
      NoneSetsMeansNone(Step(s, events[0], life), events[1..], life, user);
    }
  }

  // ---------- What others do leaves an account alone ----------

  /** The event works on the account: by its holder, on its tokens, or as a reset or role change of it. */
  predicate Concerns(s: System, e: Event, user: Id) {
    || Whose(s, e.action) == Some(user)
    || (e.action.UseRefresh? && e.action.token in s.store.tokens && s.store.tokens[e.action.token].user == user)
  }

  ghost predicate LeftAlone(s: System, events: seq<Event>, life: Lifetimes, user: Id)
    decreases |events|
  {
    events != [] ==> !Concerns(s, events[0], user) && LeftAlone(Step(s, events[0], life), events[1..], life, user)
  }

  /** The account, its tokens and the acceptance of its signed access tokens are the same. */
  predicate SameFor(before: System, after: System, user: Id) {
    && before.signed <= after.signed
    && (user in before.store.users <==> user in after.store.users)
    && (user in before.store.users ==> after.store.users[user] == before.store.users[user])
    && (forall t | t in before.store.tokens && before.store.tokens[t].user == user ::
          t in after.store.tokens && after.store.tokens[t] == before.store.tokens[t])
    && (forall a | a in before.signed && a.sub == user ::
          && (a.jti in after.store.blacklist <==> a.jti in before.store.blacklist)
          && (a.jti in before.store.blacklist ==> after.store.blacklist[a.jti] == before.store.blacklist[a.jti]))
  }

  lemma OthersTouchNoTokens(s: System, e: Event, life: Lifetimes, user: Id, t: RefreshId)
    requires !Concerns(s, e, user) && t in s.store.tokens && s.store.tokens[t].user == user
    ensures var after := Step(s, e, life).store.tokens; t in after && after[t] == s.store.tokens[t]
  {
    if e.at >= s.clock && Possible(s, e.action) && !e.action.Login? && !e.action.UseRefresh? {
      OtherRevokesAll(s, e.action, e.at, life);
    }
  }

  lemma OthersTouchNoAccount(s: System, e: Event, life: Lifetimes, user: Id)
    requires !Concerns(s, e, user)
    ensures var after := Step(s, e, life).store.users;
      (user in s.store.users <==> user in after) && (user in s.store.users ==> after[user] == s.store.users[user])
  {
    StepChangesOneUser(s, e, life);
  }

  lemma OthersBarNothing(s: System, e: Event, life: Lifetimes, a: Access)
    requires Inv(s) && !Concerns(s, e, a.sub) && a in s.signed
    ensures var after := Step(s, e, life).store.blacklist;
      && (a.jti in after <==> a.jti in s.store.blacklist)
      && (a.jti in s.store.blacklist ==> after[a.jti] == s.store.blacklist[a.jti])
  {
    StepWritesEntry(s, e, life);
    var b := Presented(e.action);
    assert b.Some? ==> Whose(s, e.action) == Some(b.value.sub);
  }

  lemma OthersStep(s: System, e: Event, life: Lifetimes, user: Id)
    requires Inv(s) && !Concerns(s, e, user)
    ensures SameFor(s, Step(s, e, life), user)
  {
    var after := Step(s, e, life);
    StepWritesEntry(s, e, life);
    OthersTouchNoAccount(s, e, life, user);
    forall t | t in s.store.tokens && s.store.tokens[t].user == user
      ensures t in after.store.tokens && after.store.tokens[t] == s.store.tokens[t]
    {
      OthersTouchNoTokens(s, e, life, user, t);
    }
    forall a | a in s.signed && a.sub == user
      ensures a.jti in after.store.blacklist <==> a.jti in s.store.blacklist
      ensures a.jti in s.store.blacklist ==> after.store.blacklist[a.jti] == s.store.blacklist[a.jti]
    {
      OthersBarNothing(s, e, life, a);
    }
  }

  lemma {:induction false} OthersRun(s: System, events: seq<Event>, life: Lifetimes, user: Id)
    requires Inv(s) && LeftAlone(s, events, life, user)
    ensures SameFor(s, RunFrom(s, events, life), user)
    decreases |events|
  {
    if events != [] {
      OthersStep(s, events[0], life, user);
      StepKeepsInv(s, events[0], life);
      OthersRun(Step(s, events[0], life), events[1..], life, user);
    }
  }

  /** Whatever other users do in between, logging out or being caught with a stolen token, an account left alone keeps its
      sessions: the same access tokens are accepted and the same refresh tokens redeemed, at every moment. */
  lemma SessionsSurviveOthers(s: System, events: seq<Event>, life: Lifetimes, user: Id, a: Access, token: RefreshId,
                              now: nat, draw: Draw)
    requires Inv(s) && LeftAlone(s, events, life, user)
    requires a in s.signed && a.sub == user && token in s.store.tokens && s.store.tokens[token].user == user
    ensures var end := RunFrom(s, events, life).store;
      && (Accepted(end, a, now) <==> Accepted(s.store, a, now))
      && (draw.refresh !in s.store.tokens && draw.refresh !in end.tokens ==>
            (RefreshSpec(end, token, now, draw, life).1 == RefreshSpec(s.store, token, now, draw, life).1))
  {
    OthersRun(s, events, life, user);
  }
}
