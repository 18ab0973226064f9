/** Access and refresh tokens: issuing, rotating, revoking and checking them. Times are in milliseconds. */
module Sessions {
  import opened Wrappers

  type Id = nat
  type RefreshId = nat

  const SECOND: nat := 1000

  datatype Role = Student | Teacher | Moderator | Admin

  datatype User = User(role: Role, verified: bool, deleted: bool, password: string, changedAt: Option<nat>)

  /** The stored row of a refresh token; it is found by the hash of the token, which is taken to be injective. */
  datatype Refresh = Refresh(user: Id, revoked: bool, expiresAt: nat)

  /** The signed part of an access token; iat and exp are in whole seconds. */
  datatype Access = Access(jti: Id, sub: Id, iat: nat, exp: nat)

  datatype Pair = Pair(access: Access, refresh: RefreshId)

  /** The random identifiers one call draws, and the configured lifetimes in seconds. */
  datatype Draw = Draw(jti: Id, refresh: RefreshId)
  datatype Lifetimes = Lifetimes(access: nat, refresh: nat)

  datatype Error = Unauthorized | ReuseDetected | NotFound | BadRequest | Forbidden | Duplicate

  datatype RoleAudit = RoleAudit(user: Id, oldRole: Role, newRole: Role, changedBy: Id)

  datatype Store = Store(users: map<Id, User>, tokens: map<RefreshId, Refresh>, blacklist: map<Id, nat>, audits: seq<RoleAudit>)

  predicate Exists(users: map<Id, User>, user: Id) {
    user in users && !users[user].deleted
  }

  function RevokeAll(tokens: map<RefreshId, Refresh>, user: Id): map<RefreshId, Refresh> {
    map t | t in tokens :: if tokens[t].user == user then tokens[t].(revoked := true) else tokens[t]
  }

  /** The narrower update that only touches rows not yet revoked. */
  function RevokeOpen(tokens: map<RefreshId, Refresh>, user: Id): (after: map<RefreshId, Refresh>)
    ensures after == RevokeAll(tokens, user)
  {
    map t | t in tokens ::
      if tokens[t].user == user && !tokens[t].revoked then tokens[t].(revoked := true) else tokens[t]
  }

  function Admins(users: map<Id, User>): set<Id> {
    set u | u in users && !users[u].deleted && users[u].role == Admin
  }

  // ---------- Checking an access token ----------

  /** Redis keeps the key until its time to live is over. */
  predicate Blacklisted(blacklist: map<Id, nat>, jti: Id, now: nat) {
    jti in blacklist && now < blacklist[jti]
  }

  predicate Unexpired(a: Access, now: nat) {
    now / SECOND < a.exp
  }

  predicate FromBeforeChange(user: User, a: Access) {
    user.changedAt.Some? && a.iat < user.changedAt.value / SECOND
  }

  /** Signature library and strategy together: is the request let through? */
  predicate Accepted(s: Store, a: Access, now: nat) {
    && Unexpired(a, now)
    && !Blacklisted(s.blacklist, a.jti, now)
    && Exists(s.users, a.sub)
    && !FromBeforeChange(s.users[a.sub], a)
  }

  /** The guard in front of the operations of a signed-in user. */
  function Authenticate(s: Store, a: Access, now: nat): Result<User, Error> {
    if Accepted(s, a, now) then Success(s.users[a.sub]) else Failure(Unauthorized)
  }

  function FindUser(users: map<Id, User>, user: Id, error: Error): Result<User, Error> {
    if Exists(users, user) then Success(users[user]) else Failure(error)
  }

  // ---------- What the operations mean ----------

  function Max(a: int, b: int): int {
    if a < b then b else a
  }

  function TimeToLive(a: Access, now: nat): nat {
    Max(1, a.exp - now / SECOND)
  }

  function Blacklist(blacklist: map<Id, nat>, a: Access, now: nat): map<Id, nat> {
    blacklist[a.jti := now + TimeToLive(a, now) * SECOND]
  }

  function Issued(user: Id, now: nat, draw: Draw, life: Lifetimes): Pair {
    Pair(Access(draw.jti, user, now / SECOND, now / SECOND + life.access), draw.refresh)
  }

  /** The new store and, unless it throws, the new pair. */
  function GenerateSpec(s: Store, user: Id, now: nat, draw: Draw, life: Lifetimes): (Store, Result<Pair, Error>) {
    if draw.refresh in s.tokens then (s, Failure(Duplicate))
    else
      (s.(tokens := s.tokens[draw.refresh := Refresh(user, false, now + life.refresh * SECOND)]),
       Success(Issued(user, now, draw, life)))
  }

  function LoginSpec(s: Store, user: Id, password: string, now: nat, draw: Draw, life: Lifetimes): (Store, Result<Pair, Error>) {
    if !Exists(s.users, user) || !s.users[user].verified || s.users[user].password != password then (s, Failure(Unauthorized))
    else GenerateSpec(s, user, now, draw, life)
  }

  function RefreshSpec(s: Store, token: RefreshId, now: nat, draw: Draw, life: Lifetimes): (Store, Result<Pair, Error>) {
    if token !in s.tokens then (s, Failure(Unauthorized))
    else
      var stored := s.tokens[token];
      if stored.revoked then (s.(tokens := RevokeAll(s.tokens, stored.user)), Failure(ReuseDetected))
      else if stored.expiresAt < now then (s, Failure(Unauthorized))
      else
        var used := s.(tokens := s.tokens[token := stored.(revoked := true)]);
        if !Exists(s.users, stored.user) then (used, Failure(NotFound))
        else GenerateSpec(used, stored.user, now, draw, life)
  }

  function LogoutSpec(s: Store, a: Access, now: nat): (Store, Result<(), Error>) {
    if !Accepted(s, a, now) then (s, Failure(Unauthorized))
    else (s.(tokens := RevokeAll(s.tokens, a.sub), blacklist := Blacklist(s.blacklist, a, now)), Success(()))
  }

  function ResetSpec(s: Store, user: Id, password: string, codeValid: bool, now: nat): (Store, Result<(), Error>) {
    if !Exists(s.users, user) then (s, Failure(NotFound))
    else if !codeValid then (s, Failure(BadRequest))
    else
      (s.(users := s.users[user := s.users[user].(password := password, changedAt := Some(now))],
          tokens := RevokeAll(s.tokens, user)),
       Success(()))
  }

  function ChangePasswordSpec(s: Store, a: Access, current: string, password: string, confirmation: string, now: nat)
    : (Store, Result<(), Error>)
  {
    if !Accepted(s, a, now) then (s, Failure(Unauthorized))
    else if s.users[a.sub].password != current || password != confirmation then (s, Failure(BadRequest))
    else
      (s.(users := s.users[a.sub := s.users[a.sub].(password := password, changedAt := Some(now))],
          tokens := RevokeAll(s.tokens, a.sub),
          blacklist := Blacklist(s.blacklist, a, now)),
       Success(()))
  }

  function DeleteSpec(s: Store, a: Access, password: string, now: nat): (Store, Result<(), Error>) {
    if !Accepted(s, a, now) || s.users[a.sub].password != password then (s, Failure(Unauthorized))
    else
      (s.(users := s.users[a.sub := s.users[a.sub].(deleted := true)],
          tokens := RevokeAll(s.tokens, a.sub),
          blacklist := Blacklist(s.blacklist, a, now)),
       Success(()))
  }

  /** Before the transaction: the strategy lets the request through, and the controller asks for an administrator. */
  function AdminGuard(s: Store, a: Access, now: nat): Result<Id, Error> {
    if !Accepted(s, a, now) then Failure(Unauthorized)
    else if s.users[a.sub].role != Admin then Failure(Forbidden)
    else Success(a.sub)
  }

  /** The first half of the transaction, which locks and reads the account and counts; is there something to change? */
  function RoleCheck(users: map<Id, User>, actor: Id, user: Id, role: Role): Result<bool, Error> {
    if !Exists(users, user) then Failure(NotFound)
    else if user == actor && role != Admin then Failure(Forbidden)
    else if users[user].role == role then Success(false)
    else if users[user].role == Admin && role != Admin && |Admins(users)| <= 1 then Failure(Forbidden)
    else Success(true)
  }

  /** The second half: what the transaction writes. */
  function RoleWrite(s: Store, actor: Id, user: Id, role: Role, now: nat): Store
    requires user in s.users
  {
    s.(users := s.users[user := s.users[user].(role := role, changedAt := Some(now))],
       tokens := RevokeAll(s.tokens, user),
       audits := s.audits + [RoleAudit(user, s.users[user].role, role, actor)])
  }

  /** The three parts without interruption. */
  function ChangeRoleSpec(s: Store, a: Access, user: Id, role: Role, now: nat): (Store, Result<(), Error>) {
    match AdminGuard(s, a, now)
    case Failure(e) => (s, Failure(e))
    case Success(actor) =>
      match RoleCheck(s.users, actor, user, role)
      case Failure(e) => (s, Failure(e))
      case Success(changes) => (if changes then RoleWrite(s, actor, user, role, now) else s, Success(()))
  }

  // ---------- The services ----------

  class Database {
    var users: map<Id, User>
    var tokens: map<RefreshId, Refresh>
    var blacklist: map<Id, nat>
    var audits: seq<RoleAudit>

    constructor (users: map<Id, User>)
      ensures Snapshot() == Store(users, map[], map[], [])
    {
      this.users, tokens, blacklist, audits := users, map[], map[], [];
    }

    function Snapshot(): Store
      reads this
    {
      Store(users, tokens, blacklist, audits)
    }
  }

  class AuthService {
    const db: Database
    const life: Lifetimes

    constructor (db: Database, life: Lifetimes)
      ensures this.db == db && this.life == life
    {
      this.db, this.life := db, life;
    }

    method Login(user: Id, password: string, now: nat, draw: Draw) returns (r: Result<Pair, Error>)
      modifies db
      ensures (db.Snapshot(), r) == LoginSpec(old(db.Snapshot()), user, password, now, draw, life)
    {
      var found :- FindUser(db.users, user, Unauthorized);
      :- Need(found.verified, Unauthorized);
      :- Need(found.password == password, Unauthorized);
      r := GenerateTokens(user, now, draw);
    }

    method RefreshToken(token: RefreshId, now: nat, draw: Draw) returns (r: Result<Pair, Error>)
      modifies db
      ensures (db.Snapshot(), r) == RefreshSpec(old(db.Snapshot()), token, now, draw, life)
    {
      if token !in db.tokens {
        return Failure(Unauthorized);
      }
      var stored := db.tokens[token];
      if stored.revoked {
        db.tokens := RevokeOpen(db.tokens, stored.user);
        return Failure(ReuseDetected);
      }
      :- Need(stored.expiresAt >= now, Unauthorized);
      stored := stored.(revoked := true);
      db.tokens := db.tokens[token := stored];
      :- Need(Exists(db.users, stored.user), NotFound);
      r := GenerateTokens(stored.user, now, draw);
    }

    method Logout(a: Access, now: nat) returns (r: Result<(), Error>)
      modifies db
      ensures (db.Snapshot(), r) == LogoutSpec(old(db.Snapshot()), a, now)
    {
      var _ :- Authenticate(db.Snapshot(), a, now);
      db.tokens := RevokeOpen(db.tokens, a.sub);
      db.blacklist := Blacklist(db.blacklist, a, now);
      return Success(());
    }

    method ResetPassword(user: Id, password: string, codeValid: bool, now: nat) returns (r: Result<(), Error>)
      modifies db
      ensures (db.Snapshot(), r) == ResetSpec(old(db.Snapshot()), user, password, codeValid, now)
    {
      var _ :- FindUser(db.users, user, NotFound);
      :- Need(codeValid, BadRequest);
      db.users := db.users[user := db.users[user].(password := password, changedAt := Some(now))];
      db.tokens := RevokeAll(db.tokens, user);
      return Success(());
    }

    method GenerateTokens(user: Id, now: nat, draw: Draw) returns (r: Result<Pair, Error>)
      modifies db
      ensures (db.Snapshot(), r) == GenerateSpec(old(db.Snapshot()), user, now, draw, life)
    {
      var access := Access(draw.jti, user, now / SECOND, now / SECOND + life.access);
      var expiresAt := now + life.refresh * SECOND;
      :- Need(draw.refresh !in db.tokens, Duplicate);
      db.tokens := db.tokens[draw.refresh := Refresh(user, false, expiresAt)];
      return Success(Pair(access, draw.refresh));
    }
  }

  class UsersService {
    const db: Database

    constructor (db: Database)
      ensures this.db == db
    {
      this.db := db;
    }

    method ChangeRole(a: Access, user: Id, role: Role, now: nat) returns (r: Result<(), Error>)
      modifies db
      ensures (db.Snapshot(), r) == ChangeRoleSpec(old(db.Snapshot()), a, user, role, now)
    {
      var actor :- Authenticate(db.Snapshot(), a, now);
      :- Need(actor.role == Admin, Forbidden);
      var found :- FindUser(db.users, user, NotFound);
      :- Need(!(user == a.sub && role != Admin), Forbidden);
      if found.role == role {
        return Success(());
      }
      if found.role == Admin && role != Admin {
        var admins := |Admins(db.users)|;
        if admins <= 1 {
          return Failure(Forbidden);
        }
      }
      var oldRole := found.role;
      db.users := db.users[user := found.(role := role, changedAt := Some(now))];
      db.tokens := RevokeAll(db.tokens, user);
      db.audits := db.audits + [RoleAudit(user, oldRole, role, a.sub)];
      return Success(());
    }

    method ChangePassword(a: Access, current: string, password: string, confirmation: string, now: nat)
      returns (r: Result<(), Error>)
      modifies db
      ensures (db.Snapshot(), r) == ChangePasswordSpec(old(db.Snapshot()), a, current, password, confirmation, now)
    {
      var _ :- Authenticate(db.Snapshot(), a, now);
      :- Need(db.users[a.sub].password == current, BadRequest);
      :- Need(password == confirmation, BadRequest);
      db.users := db.users[a.sub := db.users[a.sub].(password := password, changedAt := Some(now))];
      db.tokens := RevokeAll(db.tokens, a.sub);
      db.blacklist := Blacklist(db.blacklist, a, now);
      return Success(());
    }

    method DeleteAccount(a: Access, password: string, now: nat) returns (r: Result<(), Error>)
      modifies db
      ensures (db.Snapshot(), r) == DeleteSpec(old(db.Snapshot()), a, password, now)
    {
      var _ :- Authenticate(db.Snapshot(), a, now);
      :- Need(db.users[a.sub].password == password, Unauthorized);
      db.tokens := RevokeAll(db.tokens, a.sub);
      db.blacklist := Blacklist(db.blacklist, a, now);
      db.users := db.users[a.sub := db.users[a.sub].(deleted := true)];
      return Success(());
    }
  }

  // ---------- Runs ----------

  datatype Action =
    | Login(user: Id, password: string, draw: Draw)
    | UseRefresh(token: RefreshId, draw: Draw)
    | Logout(access: Access)
    | Reset(user: Id, password: string, codeValid: bool)
    | ChangePassword(access: Access, current: string, password: string, confirmation: string)
    | Delete(access: Access, password: string)
    | AskRoleChange(request: Id, access: Access, user: Id, role: Role)
    | CheckRoleChange(request: Id)
    | WriteRoleChange(request: Id)
    | DropRoleChange(request: Id)

  /** A role change that has passed the guard, or whose transaction has locked the account and counted. */
  datatype RoleChange = Guarded(actor: Id, user: Id, role: Role) | Counted(actor: Id, user: Id, role: Role)

  /** The row lock of a transaction that has not committed. */
  predicate Locked(pending: map<Id, RoleChange>, user: Id) {
    exists r | r in pending :: pending[r].Counted? && pending[r].user == user
  }

  /** The store, the clock, the role changes under way, and what a run leaves on record: signed access tokens, redeemed
      refresh tokens, and the chain of refresh tokens that each login started. */
  datatype System = System(
    store: Store,
    clock: nat,
    pending: map<Id, RoleChange>,
    signed: set<Access>,
    redeemed: seq<RefreshId>,
    chains: seq<seq<RefreshId>>)

  predicate FreshJti(signed: set<Access>, jti: Id) {
    forall a | a in signed :: a.jti != jti
  }

  /** Only signed access tokens can be presented, the identifier of a new one has not been drawn before, and what writes
      an account waits for its lock. */
  predicate Possible(s: System, a: Action) {
    match a
    case Login(_, _, draw) => FreshJti(s.signed, draw.jti)
    case UseRefresh(_, draw) => FreshJti(s.signed, draw.jti)
    case Logout(access) => access in s.signed
    case Reset(user, _, _) => !Locked(s.pending, user)
    case ChangePassword(access, _, _, _) => access in s.signed && !Locked(s.pending, access.sub)
    case Delete(access, _) => access in s.signed && !Locked(s.pending, access.sub)
    case AskRoleChange(r, access, _, _) => access in s.signed && r !in s.pending
    case CheckRoleChange(r) => r in s.pending && s.pending[r].Guarded? && !Locked(s.pending, s.pending[r].user)
    case WriteRoleChange(r) => r in s.pending && s.pending[r].Counted? && s.pending[r].user in s.store.users
    case DropRoleChange(r) => r in s.pending
  }

  function Extended(chains: seq<seq<RefreshId>>, token: RefreshId, next: RefreshId): seq<seq<RefreshId>> {
    seq(|chains|, i requires 0 <= i < |chains| => if token in chains[i] then chains[i] + [next] else chains[i])
  }

  function Act(s: System, a: Action, now: nat, life: Lifetimes): System
    requires Possible(s, a)
  {
    match a
    case Login(user, password, draw) =>
      var (store, r) := LoginSpec(s.store, user, password, now, draw, life);
      if r.Failure? then s.(store := store)
      else s.(store := store, signed := s.signed + {r.value.access}, chains := s.chains + [[r.value.refresh]])
    case UseRefresh(token, draw) =>
      var (store, r) := RefreshSpec(s.store, token, now, draw, life);
      if r.Failure? then s.(store := store)
      else
        s.(store := store, signed := s.signed + {r.value.access}, redeemed := s.redeemed + [token],
           chains := Extended(s.chains, token, r.value.refresh))
    case Logout(access) => s.(store := LogoutSpec(s.store, access, now).0)
    case Reset(user, password, codeValid) => s.(store := ResetSpec(s.store, user, password, codeValid, now).0)
    case ChangePassword(access, current, password, confirmation) =>
      s.(store := ChangePasswordSpec(s.store, access, current, password, confirmation, now).0)
    case Delete(access, password) => s.(store := DeleteSpec(s.store, access, password, now).0)
    case AskRoleChange(r, access, user, role) =>
      var guard := AdminGuard(s.store, access, now);
      if guard.Failure? then s else s.(pending := s.pending[r := Guarded(guard.value, user, role)])
    case CheckRoleChange(r) =>
      var change := s.pending[r];
      var check := RoleCheck(s.store.users, change.actor, change.user, change.role);
      if check == Success(true) then s.(pending := s.pending[r := Counted(change.actor, change.user, change.role)])
      else s.(pending := s.pending - {r})
    case WriteRoleChange(r) =>
      var change := s.pending[r];
      s.(store := RoleWrite(s.store, change.actor, change.user, change.role, now), pending := s.pending - {r})
    // A crash or a lost connection: the transaction, if it has begun, is rolled back.
    case DropRoleChange(r) => s.(pending := s.pending - {r})
  }

  /** An action at a moment; what is not possible, or lies in the past, does not happen. */
  datatype Event = Event(at: nat, action: Action)

  function Step(s: System, e: Event, life: Lifetimes): System {
    if e.at < s.clock || !Possible(s, e.action) then s
    else Act(s, e.action, e.at, life).(clock := e.at)
  }

  function RunFrom(s: System, events: seq<Event>, life: Lifetimes): System
    decreases |events|
  {
    if events == [] then s else RunFrom(Step(s, events[0], life), events[1..], life)
  }

  function Start(users: map<Id, User>, clock: nat): System {
    System(Store(users, map[], map[], []), clock, map[], {}, [], [])
  }
}
