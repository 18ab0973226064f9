/** What holds of tokens over every run. */
module SessionGuarantees {
  import opened Wrappers
  import opened Sessions

  // ---------- Invariants ----------

  predicate Revoked(s: Store, t: RefreshId) {
    t in s.tokens && s.tokens[t].revoked
  }

  ghost predicate InSome(chains: seq<seq<RefreshId>>, t: RefreshId) {
    exists k :: 0 <= k < |chains| && t in chains[k]
  }

  predicate Places(chains: seq<seq<RefreshId>>, k: int, i: int) {
    0 <= k < |chains| && 0 <= i < |chains[k]|
  }

  /** The chains hold every stored token exactly once. */
  ghost predicate ChainsHoldTokens(chains: seq<seq<RefreshId>>, tokens: map<RefreshId, Refresh>) {
    && (forall k, i :: Places(chains, k, i) ==> chains[k][i] in tokens)
    && (forall k, i, l, j | Places(chains, k, i) && Places(chains, l, j) && chains[k][i] == chains[l][j] :: k == l && i == j)
    && (forall t | t in tokens :: InSome(chains, t))
  }

  /** In a chain only the newest token can be unrevoked. */
  ghost predicate OnlyNewestIsOpen(chains: seq<seq<RefreshId>>, tokens: map<RefreshId, Refresh>) {
    forall k, i :: 0 <= k < |chains| && 0 <= i < |chains[k]| - 1 && chains[k][i] in tokens ==> tokens[chains[k][i]].revoked
  }

  ghost predicate RedeemedOnce(redeemed: seq<RefreshId>, tokens: map<RefreshId, Refresh>) {
    && (forall i, j :: 0 <= i < j < |redeemed| ==> redeemed[i] != redeemed[j])
    && (forall t | t in redeemed :: t in tokens && tokens[t].revoked)
  }

  ghost predicate DeletedHoldNothing(users: map<Id, User>, tokens: map<RefreshId, Refresh>) {
    forall t | t in tokens && !Exists(users, tokens[t].user) :: tokens[t].revoked
  }

  ghost predicate ChangesArePast(users: map<Id, User>, clock: nat) {
    forall u | u in users && users[u].changedAt.Some? :: users[u].changedAt.value <= clock
  }

  /** A transaction that has counted holds the only lock of an account, which is still what it read. */
  ghost predicate PendingFits(users: map<Id, User>, pending: map<Id, RoleChange>) {
    && (forall r | r in pending && pending[r].Counted? ::
          Exists(users, pending[r].user) && users[pending[r].user].role != pending[r].role)
    && (forall q, r | q in pending && r in pending && pending[q].Counted? && pending[r].Counted? && pending[q].user == pending[r].user ::
          q == r)
  }

  ghost predicate JtisAreUnique(signed: set<Access>) {
    forall a, b | a in signed && b in signed && a.jti == b.jti :: a == b
  }

  ghost predicate Inv(s: System) {
    && ChainsHoldTokens(s.chains, s.store.tokens)
    && OnlyNewestIsOpen(s.chains, s.store.tokens)
    && RedeemedOnce(s.redeemed, s.store.tokens)
    && DeletedHoldNothing(s.store.users, s.store.tokens)
    && ChangesArePast(s.store.users, s.clock)
    && JtisAreUnique(s.signed)
    && PendingFits(s.store.users, s.pending)
  }

  // ---------- Revocation only ever grows ----------

  predicate Grows(before: map<RefreshId, Refresh>, after: map<RefreshId, Refresh>) {
    forall t | t in before ::
      t in after && after[t].user == before[t].user && (before[t].revoked ==> after[t].revoked)
  }

  lemma RevokeAllGrows(tokens: map<RefreshId, Refresh>, user: Id)
    ensures Grows(tokens, RevokeAll(tokens, user))
  {
  }

  /** The user whose account an operation writes, revoking all tokens. */
  function Whose(s: System, a: Action): Option<Id> {
    match a
    case Reset(user, _, _) => Some(user)
    case Logout(access) => Some(access.sub)
    case ChangePassword(access, _, _, _) => Some(access.sub)
    case Delete(access, _) => Some(access.sub)
    case WriteRoleChange(r) => if r in s.pending then Some(s.pending[r].user) else None
    case _ => None
  }

  /** What an operation that issues no tokens does to the store. */
  predicate Revokes(s: System, after: System, user: Option<Id>) {
    && after == s.(store := after.store, pending := after.pending)
    && (user.None? ==> after.store == s.store)
    && (user.Some? ==> after.store == s.store || after.store.tokens == RevokeAll(s.store.tokens, user.value))
  }

  lemma OtherRevokesAll(s: System, a: Action, now: nat, life: Lifetimes)
    requires !a.Login? && !a.UseRefresh? && Possible(s, a)
    ensures Revokes(s, Act(s, a, now, life), Whose(s, a))
  {
  }

  lemma UseRefreshGrows(s: Store, token: RefreshId, now: nat, draw: Draw, life: Lifetimes)
    ensures Grows(s.tokens, RefreshSpec(s, token, now, draw, life).0.tokens)
  {
    if token in s.tokens {
      RevokeAllGrows(s.tokens, s.tokens[token].user);
    }
  }

  lemma StepGrows(s: System, e: Event, life: Lifetimes)
    ensures Grows(s.store.tokens, Step(s, e, life).store.tokens)
  {
    match e.action {
      case Login(user, _, draw) =>
      case UseRefresh(token, draw) => UseRefreshGrows(s.store, token, e.at, draw, life);
      case _ =>
        if e.at >= s.clock && Possible(s, e.action) {
          OtherRevokesAll(s, e.action, e.at, life);
          if Whose(s, e.action).Some? {
            RevokeAllGrows(s.store.tokens, Whose(s, e.action).value);
          }
        }
    }
  }

  /** The row of one user may have changed, at this moment. */
  predicate ChangedFor(before: map<Id, User>, after: map<Id, User>, user: Id, now: nat) {
    after == before
    || (&& user in before && user in after && after == before[user := after[user]]
        && (before[user].deleted ==> after[user].deleted)
        && (after[user].changedAt == before[user].changedAt || after[user].changedAt == Some(now)))
  }

  /** Revoking all tokens of a user, whatever else happens to that user. */
  lemma RevokingAllKeepsInv(s: System, user: Id, store: Store, pending: map<Id, RoleChange>, now: nat)
    requires Inv(s) && s.clock <= now && ChangedFor(s.store.users, store.users, user, now)
    requires store.tokens == RevokeAll(s.store.tokens, user) && PendingFits(store.users, pending)
    ensures Inv(s.(store := store, pending := pending, clock := now))
  {
    forall t | t in store.tokens && !Exists(store.users, store.tokens[t].user) ensures store.tokens[t].revoked {
      assert s.store.tokens[t].user == store.tokens[t].user;
      assert store.tokens[t].user != user ==> !Exists(s.store.users, store.tokens[t].user);
    }
  }

  /** What another transaction has locked is not written. */
  lemma LockProtects(users: map<Id, User>, after: map<Id, User>, user: Id, now: nat, pending: map<Id, RoleChange>)
    requires PendingFits(users, pending) && ChangedFor(users, after, user, now) && !Locked(pending, user)
    ensures PendingFits(after, pending)
  {
    forall r | r in pending && pending[r].Counted?
      ensures Exists(after, pending[r].user) && after[pending[r].user].role != pending[r].role
    {
      assert pending[r].user != user;
    }
  }

  lemma LaterKeepsInv(s: System, now: nat)
    requires Inv(s) && s.clock <= now
    ensures Inv(s.(clock := now))
  {
  }

  // ---------- Chains ----------

  lemma NewChain(chains: seq<seq<RefreshId>>, tokens: map<RefreshId, Refresh>, next: RefreshId, row: Refresh)
    requires ChainsHoldTokens(chains, tokens) && OnlyNewestIsOpen(chains, tokens) && next !in tokens
    ensures ChainsHoldTokens(chains + [[next]], tokens[next := row])
    ensures OnlyNewestIsOpen(chains + [[next]], tokens[next := row])
  {
    var after := chains + [[next]];
    forall t | t in tokens[next := row] ensures InSome(after, t) {
      if t == next {
        assert t in after[|chains|];
      } else {
        var k :| 0 <= k < |chains| && t in chains[k];
        assert t in after[k];
      }
    }
  }

  /** Where a token stands in the chains. */
  lemma Position(chains: seq<seq<RefreshId>>, tokens: map<RefreshId, Refresh>, token: RefreshId) returns (k: nat, i: nat)
    requires ChainsHoldTokens(chains, tokens) && token in tokens
    ensures k < |chains| && i < |chains[k]| && chains[k][i] == token
    ensures forall l :: 0 <= l < |chains| && l != k ==> token !in chains[l]
  {
    k :| 0 <= k < |chains| && token in chains[k];
    i :| 0 <= i < |chains[k]| && chains[k][i] == token;
  }

  lemma LongerChain(chains: seq<seq<RefreshId>>, tokens: map<RefreshId, Refresh>, token: RefreshId, next: RefreshId)
    returns (k: nat)
    requires ChainsHoldTokens(chains, tokens) && OnlyNewestIsOpen(chains, tokens)
    requires token in tokens && !tokens[token].revoked
    ensures k < |chains| && |chains[k]| > 0 && chains[k][|chains[k]| - 1] == token
    ensures Extended(chains, token, next) == chains[k := chains[k] + [next]]
  {
    var i;
    k, i := Position(chains, tokens, token);
    assert i == |chains[k]| - 1;
  }

  lemma ExtendedHoldsTokens(chains: seq<seq<RefreshId>>, tokens: map<RefreshId, Refresh>, k: nat, next: RefreshId, row: Refresh)
    requires ChainsHoldTokens(chains, tokens) && next !in tokens && k < |chains|
    ensures ChainsHoldTokens(chains[k := chains[k] + [next]], tokens[next := row])
  {
    var after := chains[k := chains[k] + [next]];
    forall t | t in tokens[next := row] ensures InSome(after, t) {
      if t == next {
        assert after[k][|chains[k]|] == next;
      } else {
        var l :| 0 <= l < |chains| && t in chains[l];
        assert t in after[l];
      }
    }
  }

  // ---------- Every step keeps the invariant ----------

  lemma LoginKeepsInv(s: System, user: Id, password: string, draw: Draw, now: nat, life: Lifetimes)
    requires Inv(s) && FreshJti(s.signed, draw.jti)
    ensures Inv(Act(s, Login(user, password, draw), now, life))
  {
    if LoginSpec(s.store, user, password, now, draw, life).1.Success? {
      NewChain(s.chains, s.store.tokens, draw.refresh, Refresh(user, false, now + life.refresh * SECOND));
    }
  }

  /** The redeemed token is revoked and its successor takes its place at the end of the chain. */
  lemma RotationKeepsInv(s: System, token: RefreshId, next: RefreshId, row: Refresh, access: Access)
    requires Inv(s) && token in s.store.tokens && !s.store.tokens[token].revoked && next !in s.store.tokens
    requires FreshJti(s.signed, access.jti) && row.user == s.store.tokens[token].user && Exists(s.store.users, row.user)
    ensures var used := s.store.tokens[token := s.store.tokens[token].(revoked := true)];
      Inv(s.(store := s.store.(tokens := used[next := row]), signed := s.signed + {access},
             redeemed := s.redeemed + [token], chains := Extended(s.chains, token, next)))
  {
    var used := s.store.tokens[token := s.store.tokens[token].(revoked := true)];
    var k := LongerChain(s.chains, s.store.tokens, token, next);
    assert ChainsHoldTokens(s.chains, used);
    ExtendedHoldsTokens(s.chains, used, k, next, row);
    assert token !in s.redeemed;
    NewestAfterRotation(s.chains, s.store.tokens, k, next, row);
  }

  lemma NewestAfterRotation(chains: seq<seq<RefreshId>>, tokens: map<RefreshId, Refresh>, k: nat, next: RefreshId, row: Refresh)
    requires ChainsHoldTokens(chains, tokens) && OnlyNewestIsOpen(chains, tokens) && next !in tokens
    requires k < |chains| && |chains[k]| > 0
    ensures var token := chains[k][|chains[k]| - 1];
      token in tokens
      && OnlyNewestIsOpen(chains[k := chains[k] + [next]], tokens[token := tokens[token].(revoked := true)][next := row])
  {
    assert Places(chains, k, |chains[k]| - 1);
  }

  lemma UsedUpKeepsInv(s: System, token: RefreshId)
    requires Inv(s) && token in s.store.tokens
    ensures Inv(s.(store := s.store.(tokens := s.store.tokens[token := s.store.tokens[token].(revoked := true)])))
  {
  }

  lemma UseRefreshKeepsInv(s: System, token: RefreshId, draw: Draw, now: nat, life: Lifetimes)
    requires Inv(s) && FreshJti(s.signed, draw.jti) && s.clock <= now
    ensures Inv(Act(s, UseRefresh(token, draw), now, life).(clock := now))
  {
    LaterKeepsInv(s, now);
    if token in s.store.tokens {
      var row, later := s.store.tokens[token], s.(clock := now);
      if row.revoked {
        RevokingAllKeepsInv(s, row.user, s.store.(tokens := RevokeAll(s.store.tokens, row.user)), s.pending, now);
      } else if RefreshSpec(s.store, token, now, draw, life).1.Success? {
        var pair := Issued(row.user, now, draw, life);
        RotationKeepsInv(later, token, draw.refresh, Refresh(row.user, false, now + life.refresh * SECOND), pair.access);
      } else if row.expiresAt >= now {
        UsedUpKeepsInv(later, token);
      }
    }
  }

  lemma WriteKeepsInv(s: System, r: Id, now: nat, life: Lifetimes)
    requires Inv(s) && s.clock <= now && Possible(s, WriteRoleChange(r))
    ensures Inv(Act(s, WriteRoleChange(r), now, life).(clock := now))
  {
    var change, after := s.pending[r], Act(s, WriteRoleChange(r), now, life);
    assert !Locked(s.pending - {r}, change.user);
    LockProtects(s.store.users, after.store.users, change.user, now, s.pending - {r});
    RevokingAllKeepsInv(s, change.user, after.store, s.pending - {r}, now);
  }

  lemma PendingKeepsInv(s: System, a: Action, now: nat, life: Lifetimes)
    requires Inv(s) && s.clock <= now && Possible(s, a) && (a.AskRoleChange? || a.CheckRoleChange? || a.DropRoleChange?)
    ensures Inv(Act(s, a, now, life).(clock := now))
  {
    var after := Act(s, a, now, life);
    assert PendingFits(after.store.users, after.pending);
  }

  lemma OtherKeepsInv(s: System, a: Action, now: nat, life: Lifetimes)
    requires Inv(s) && s.clock <= now && Possible(s, a) && (a.Logout? || a.Reset? || a.ChangePassword? || a.Delete?)
    ensures Inv(Act(s, a, now, life).(clock := now))
  {
    LaterKeepsInv(s, now);
    var after, user := Act(s, a, now, life), Whose(s, a).value;
    OtherRevokesAll(s, a, now, life);
    if after.store != s.store {
      if after.store.users != s.store.users {
        LockProtects(s.store.users, after.store.users, user, now, s.pending);
      }
      RevokingAllKeepsInv(s, user, after.store, s.pending, now);
    }
  }

  lemma StepKeepsInv(s: System, e: Event, life: Lifetimes)
    requires Inv(s)
    ensures Inv(Step(s, e, life))
  {
    if e.at >= s.clock && Possible(s, e.action) {
      match e.action {
        case Login(user, password, draw) =>
          LoginKeepsInv(s, user, password, draw, e.at, life);
          LaterKeepsInv(Act(s, e.action, e.at, life), e.at);
        case UseRefresh(token, draw) => UseRefreshKeepsInv(s, token, draw, e.at, life);
        case WriteRoleChange(r) => WriteKeepsInv(s, r, e.at, life);
        case AskRoleChange(_, _, _, _) => PendingKeepsInv(s, e.action, e.at, life);
        case CheckRoleChange(_) => PendingKeepsInv(s, e.action, e.at, life);
        case DropRoleChange(_) => PendingKeepsInv(s, e.action, e.at, life);
        case _ => OtherKeepsInv(s, e.action, e.at, life);
      }
    }
  }

  lemma {:induction false} RunKeepsInv(s: System, events: seq<Event>, life: Lifetimes)
    requires Inv(s)
    ensures Inv(RunFrom(s, events, life)) && Grows(s.store.tokens, RunFrom(s, events, life).store.tokens)
    decreases |events|
  {
    if events != [] {
      StepKeepsInv(s, events[0], life);
      StepGrows(s, events[0], life);
      RunKeepsInv(Step(s, events[0], life), events[1..], life);
    }
  }

  // ---------- What a login gives ----------

  /** Left alone, the access token of a login is accepted exactly until its lifetime is over, and the refresh token is
      redeemable exactly until its own. */
  lemma NewPairWorks(s: Store, user: Id, password: string, now: nat, draw: Draw, life: Lifetimes,
                     later: nat, next: Draw)
    requires LoginSpec(s, user, password, now, draw, life).1.Success? && draw.jti !in s.blacklist
    requires ChangesArePast(s.users, now) && now <= later && next.refresh !in s.tokens && next.refresh != draw.refresh
    ensures var (store, r) := LoginSpec(s, user, password, now, draw, life);
      && (Accepted(store, r.value.access, later) <==> later / SECOND < now / SECOND + life.access)
      && (RefreshSpec(store, r.value.refresh, later, next, life).1.Success? <==> later <= now + life.refresh * SECOND)
  {
    var (store, r) := LoginSpec(s, user, password, now, draw, life);
    assert s.users[user].changedAt.Some? ==> s.users[user].changedAt.value / SECOND <= now / SECOND;
  }

  // ---------- Refresh tokens: guarantees over every run ----------

  lemma StartIsFine(users: map<Id, User>, clock: nat)
    requires ChangesArePast(users, clock)
    ensures Inv(Start(users, clock))
  {
  }

  /** No refresh token is ever redeemed twice. */
  lemma EachTokenRedeemedOnce(users: map<Id, User>, clock: nat, events: seq<Event>, life: Lifetimes)
    requires ChangesArePast(users, clock)
    ensures var redeemed := RunFrom(Start(users, clock), events, life).redeemed;
      forall i, j :: 0 <= i < j < |redeemed| ==> redeemed[i] != redeemed[j]
  {
    StartIsFine(users, clock);
    RunKeepsInv(Start(users, clock), events, life);
  }

  /** Of all tokens that descend from one login at most one is unrevoked, and it is the newest. */
  lemma OneOpenTokenPerLogin(users: map<Id, User>, clock: nat, events: seq<Event>, life: Lifetimes)
    requires ChangesArePast(users, clock)
    ensures var s := RunFrom(Start(users, clock), events, life);
      && (forall t | t in s.store.tokens :: InSome(s.chains, t))
      && (forall k, i | Places(s.chains, k, i) && i < |s.chains[k]| - 1 :: Revoked(s.store, s.chains[k][i]))
  {
    StartIsFine(users, clock);
    var s := RunFrom(Start(users, clock), events, life);
    RunKeepsInv(Start(users, clock), events, life);
    forall k, i | Places(s.chains, k, i) && i < |s.chains[k]| - 1 ensures Revoked(s.store, s.chains[k][i]) {
      assert s.chains[k][i] in s.store.tokens;
    }
  }

  /** The events after which no token of the user that exists now may work again. */
  predicate EndsSessions(s: System, e: Event, user: Id, life: Lifetimes) {
    && e.at >= s.clock && Possible(s, e.action)
    && match e.action
       case Login(_, _, _) => false
       case UseRefresh(token, draw) =>
         token in s.store.tokens && s.store.tokens[token].user == user
         && RefreshSpec(s.store, token, e.at, draw, life).1 == Failure(ReuseDetected)
       case Logout(access) => access.sub == user && LogoutSpec(s.store, access, e.at).1.Success?
       case Reset(u, password, codeValid) => u == user && ResetSpec(s.store, u, password, codeValid, e.at).1.Success?
       case ChangePassword(access, current, password, confirmation) =>
         access.sub == user && ChangePasswordSpec(s.store, access, current, password, confirmation, e.at).1.Success?
       case Delete(access, password) => access.sub == user && DeleteSpec(s.store, access, password, e.at).1.Success?
       case WriteRoleChange(r) => s.pending[r].user == user
       case _ => false
  }

  lemma EndsSessionsRevokes(s: System, e: Event, user: Id, life: Lifetimes)
    requires EndsSessions(s, e, user, life)
    ensures Step(s, e, life).store.tokens == RevokeAll(s.store.tokens, user)
  {
    if !e.action.UseRefresh? {
      assert Whose(s, e.action) == Some(user);
    }
  }

  /** After a logout, reset, password or role change, deletion or detected reuse, no token that existed then is
      redeemable again, whatever happens later. */
  lemma EndedSessionsStayEnded(s: System, e: Event, user: Id, later: seq<Event>, life: Lifetimes,
                               token: RefreshId, now: nat, draw: Draw)
    requires Inv(s) && EndsSessions(s, e, user, life)
    requires token in s.store.tokens && s.store.tokens[token].user == user
    ensures var end := RunFrom(Step(s, e, life), later, life);
      Revoked(end.store, token) && RefreshSpec(end.store, token, now, draw, life).1 == Failure(ReuseDetected)
  {
    var after := Step(s, e, life);
    EndsSessionsRevokes(s, e, user, life);
    StepKeepsInv(s, e, life);
    RunKeepsInv(after, later, life);
    assert Revoked(after.store, token);
  }

  // ---------- Access tokens: guarantees over every run ----------

  /** What a blacklist entry has to cover: the token until its signature expires. */
  predicate Covered(s: Store, a: Access) {
    a.jti in s.blacklist && s.blacklist[a.jti] >= a.exp * SECOND
  }

  /** An entry written now is still there at every later moment at which the token has not expired by itself. */
  lemma EntryOutlivesToken(blacklist: map<Id, nat>, a: Access, now: nat, later: nat)
    ensures now <= later && Unexpired(a, later) ==> Blacklisted(Blacklist(blacklist, a, now), a.jti, later)
    ensures Blacklist(blacklist, a, now)[a.jti] >= a.exp * SECOND
  {
  }

  predicate Barred(s: System, a: Access) {
    a in s.signed && Covered(s.store, a)
  }

  /** Another entry leaves a covered token covered: one with the same identifier is for the same token. */
  lemma EntryKeepsCovered(s: Store, a: Access, other: Access, now: nat)
    requires Covered(s, a) && (other.jti == a.jti ==> other == a)
    ensures Covered(s.(blacklist := Blacklist(s.blacklist, other, now)), a)
  {
    EntryOutlivesToken(s.blacklist, other, now, now);
  }

  /** The access token, if any, that an operation of the holder blacklists. */
  function Presented(a: Action): Option<Access> {
    match a
    case Logout(access) => Some(access)
    case ChangePassword(access, _, _, _) => Some(access)
    case Delete(access, _) => Some(access)
    case _ => None
  }

  lemma StepWritesEntry(s: System, e: Event, life: Lifetimes)
    ensures var after, a := Step(s, e, life), Presented(e.action);
      && s.signed <= after.signed
      && (after.store.blacklist == s.store.blacklist
          || (a.Some? && a.value in s.signed && after.store.blacklist == Blacklist(s.store.blacklist, a.value, e.at)))
  {
  }

  lemma StepKeepsBarred(s: System, e: Event, a: Access, life: Lifetimes)
    requires Inv(s) && Barred(s, a)
    ensures Barred(Step(s, e, life), a)
  {
    StepWritesEntry(s, e, life);
    if Step(s, e, life).store.blacklist != s.store.blacklist {
      EntryKeepsCovered(s.store, a, Presented(e.action).value, e.at);
    }
  }

  lemma {:induction false} RunKeepsBarred(s: System, events: seq<Event>, a: Access, life: Lifetimes)
    requires Inv(s) && Barred(s, a)
    ensures Barred(RunFrom(s, events, life), a)
    decreases |events|
  {
    if events != [] {
      StepKeepsBarred(s, events[0], a, life);
      StepKeepsInv(s, events[0], life);
      RunKeepsBarred(Step(s, events[0], life), events[1..], a, life);
    }
  }

  predicate Presents(a: Action, access: Access) {
    (a.Logout? || a.ChangePassword? || a.Delete?) && a.access == access
  }

  /** The token presented to a logout, password change or deletion is refused ever after. */
  lemma PresentedTokenIsBarred(s: System, e: Event, a: Access, later: seq<Event>, life: Lifetimes, now: nat)
    requires Inv(s) && Presents(e.action, a) && EndsSessions(s, e, a.sub, life)
    ensures !Accepted(RunFrom(Step(s, e, life), later, life).store, a, now)
  {
    var after := Step(s, e, life);
    StepKeepsInv(s, e, life);
    EntryAfterStep(s, e, a, life);
    RunKeepsBarred(after, later, a, life);
  }

  lemma EntryAfterStep(s: System, e: Event, a: Access, life: Lifetimes)
    requires Presents(e.action, a) && EndsSessions(s, e, a.sub, life)
    ensures Barred(Step(s, e, life), a)
  {
    EntryOutlivesToken(s.store.blacklist, a, e.at, e.at);
  }

  /** A password reset or role change refuses exactly the tokens signed in an earlier second. */
  lemma ChangeRefusesEarlierSeconds(s: System, e: Event, user: Id, a: Access, life: Lifetimes)
    requires (e.action.Reset? || e.action.WriteRoleChange?) && EndsSessions(s, e, user, life)
    requires a.sub == user && Accepted(s.store, a, e.at)
    ensures Accepted(Step(s, e, life).store, a, e.at) <==> a.iat >= e.at / SECOND
  {
  }

  predicate Outdated(s: Store, a: Access) {
    a.sub in s.users && (s.users[a.sub].deleted || FromBeforeChange(s.users[a.sub], a))
  }

  lemma StepChangesOneUser(s: System, e: Event, life: Lifetimes)
    ensures var users := Step(s, e, life).store.users;
      users == s.store.users
      || (Whose(s, e.action).Some? && ChangedFor(s.store.users, users, Whose(s, e.action).value, e.at) && s.clock <= e.at)
  {
  }

  lemma ChangesKeepOutdated(users: map<Id, User>, after: map<Id, User>, user: Id, clock: nat, now: nat, a: Access)
    requires ChangedFor(users, after, user, now) && ChangesArePast(users, clock) && clock <= now
    requires a.sub in users && (users[a.sub].deleted || FromBeforeChange(users[a.sub], a))
    ensures a.sub in after && (after[a.sub].deleted || FromBeforeChange(after[a.sub], a))
  {
    if a.sub != user {
      assert after[a.sub] == users[a.sub];
    }
  }

  lemma StepKeepsOutdated(s: System, e: Event, a: Access, life: Lifetimes)
    requires Inv(s) && Outdated(s.store, a)
    ensures Outdated(Step(s, e, life).store, a)
  {
    StepChangesOneUser(s, e, life);
    if Step(s, e, life).store.users != s.store.users {
      ChangesKeepOutdated(s.store.users, Step(s, e, life).store.users, Whose(s, e.action).value, s.clock, e.at, a);
    }
  }

  /** A token once refused for its age or because its user is gone is refused ever after. */
  lemma {:induction false} OutdatedStaysRefused(s: System, events: seq<Event>, a: Access, life: Lifetimes, now: nat)
    requires Inv(s) && Outdated(s.store, a)
    ensures !Accepted(RunFrom(s, events, life).store, a, now)
    decreases |events|
  {
    if events != [] {
      StepKeepsOutdated(s, events[0], a, life);
      StepKeepsInv(s, events[0], life);
      OutdatedStaysRefused(Step(s, events[0], life), events[1..], a, life, now);
    }
  }
}
