/** The credential lifecycle as a serial state machine: accounts and role grants, sessions and access tokens, refresh
    families, and the two expiring per-user keys, driven by the requests that touch them. */
module Credentials {
  import opened Prelude
  import RefreshTokens

  type User = nat
  type Jti = nat
  type Hash = RefreshTokens.Hash
  type Family = RefreshTokens.Family

  const DAY: nat := 86400 * SECOND
  const PRIVILEGED: set<string> := {"admin", "auditor", "support_agent"}
  const REACTIVATION_GRACE: nat := 30 * DAY

  /** Settings in seconds, as the configuration file has them, and the permissions each role carries. */
  datatype Config = Config(
    accessTtlSeconds: nat, refreshTtlSeconds: nat, epochTtlSeconds: nat, maxLiveFamilies: nat, graceDays: nat,
    catalogue: map<string, set<string>>)
  {
    function AccessTtl(): nat { accessTtlSeconds * SECOND }
    function RefreshTtl(): nat { refreshTtlSeconds * SECOND }
    function EpochTtl(): nat { epochTtlSeconds * SECOND }
    function Grace(): nat { graceDays * DAY }
  }

  datatype Status = Pending | Active | Deactivated

  datatype Account = Account(
    status: Status, emailVerified: bool, mfaEnabled: bool, reenrol: bool, deactivatedAt: Option<int>,
    grants: map<string, int>)

  datatype Session = Session(user: User, issuedAt: int, revokedAt: Option<int>)

  datatype Claims = Claims(user: User, exp: int, scopes: set<string>, enrol: bool)

  /** `tokens` holds the claims of every access token ever signed, under its jti. */
  datatype State = State(
    now: int, users: map<User, Account>, sessions: map<Jti, Session>, tokens: map<Jti, Claims>,
    table: RefreshTokens.Table, revokeBefore: map<User, Entry<int>>, permEpoch: map<User, Entry<int>>)

  // ------------------------------------------------------------------ what the role tables and the clock say

  /** `resolve_scopes_for_user`. */
  function Scopes(cfg: Config, a: Account): set<string> {
    set role, p | role in a.grants && role in cfg.catalogue && p in cfg.catalogue[role] :: p
  }

  /** A privileged role whose grace period is over. */
  predicate Overdue(cfg: Config, a: Account, role: string, now: int) {
    role in a.grants && role in PRIVILEGED && a.grants[role] + cfg.Grace() <= now
  }

  /** Whether the account has to enrol in MFA before it may do anything else. */
  predicate NeedsEnrolment(cfg: Config, a: Account, now: int) {
    a.reenrol || (!a.mfaEnabled && exists role | role in a.grants :: Overdue(cfg, a, role, now))
  }

  /** JWT `exp` is a whole number of seconds. */
  function WholeSecond(t: int): int {
    t / SECOND * SECOND
  }

  /** `_encode_access_token_for_user`. */
  function ClaimsFor(cfg: Config, a: Account, u: User, now: int): Claims {
    Claims(u, WholeSecond(now + cfg.AccessTtl()), Scopes(cfg, a), NeedsEnrolment(cfg, a, now))
  }

  // ------------------------------------------------------------------ get_authenticated_user

  datatype Admission =
    | Unauthorized | TokenStale | EnrolmentRequired
    | Admitted(user: User, scopes: set<string>, enrol: bool)

  /** `key` at or after `issuedAt` and still readable. */
  predicate Covers(m: map<User, Entry<int>>, u: User, issuedAt: int, now: int) {
    Lookup(m, u, now).Some? && issuedAt <= Lookup(m, u, now).value
  }

  function Authenticate(s: State, jti: Jti, allowRevoked: bool, allowEnrolment: bool): Admission {
    if jti !in s.tokens || s.tokens[jti].exp <= s.now then Unauthorized
    else if jti !in s.sessions then Unauthorized
    else
      var claims, session := s.tokens[jti], s.sessions[jti];
      if session.revokedAt.Some? && !allowRevoked then Unauthorized
      else if session.user != claims.user then Unauthorized
      else if Covers(s.revokeBefore, claims.user, session.issuedAt, s.now) then Unauthorized
      else if Covers(s.permEpoch, claims.user, session.issuedAt, s.now) then TokenStale
      else if claims.enrol && !allowEnrolment then EnrolmentRequired
      else Admitted(claims.user, claims.scopes, claims.enrol)
  }

  // ------------------------------------------------------------------ the session cap

  /** Families with a live row of the user. */
  function LiveFamilies(t: RefreshTokens.Table, u: User, now: int): set<Family> {
    set h | h in t.rows && t.rows[h].user == u && RefreshTokens.LiveRow(t.rows[h], now) :: t.rows[h].family
  }

  /** The family has a live row no younger than any live row of the user: the least `MIN(issued_at)`. */
  predicate Oldest(t: RefreshTokens.Table, u: User, now: int, f: Family) {
    exists h | h in t.rows ::
      && t.rows[h].family == f && t.rows[h].user == u && RefreshTokens.LiveRow(t.rows[h], now)
      && forall k | k in t.rows && t.rows[k].user == u && RefreshTokens.LiveRow(t.rows[k], now) ::
           t.rows[h].issuedAt <= t.rows[k].issuedAt
  }

  predicate AtCap(cfg: Config, t: RefreshTokens.Table, u: User, now: int) {
    |LiveFamilies(t, u, now)| >= cfg.maxLiveFamilies
  }

  /** `_evict_oldest_family_if_at_cap`, with `victim` the family the database's row order singles out among the
      oldest. */
  function Evicted(cfg: Config, t: RefreshTokens.Table, u: User, now: int, victim: Family): RefreshTokens.Table {
    if AtCap(cfg, t, u, now) then RefreshTokens.FamilyRevoked(t, victim, now) else t
  }

  // ------------------------------------------------------------------ requests

  /** The identifiers a login draws, and the tie-break of its eviction. */
  datatype Ids = Ids(jti: Jti, hash: Hash, family: Family, victim: Family)

  datatype Request =
    | Tick(dt: nat)
    | Provision(user: User, account: Account)
    | ChangeStatus(user: User, status: Status, emailVerified: bool)
    | Login(user: User, passwordOk: bool, ids: Ids)
    | CompleteMfa(user: User, recovery: bool, ids: Ids)
    | Refresh(hash: Hash, throttled: bool, jti: Jti, successor: Hash)
    | Logout(user: User, jti: Jti, cookie: Option<Hash>)
    | LogoutAll(user: User)
    | RevokeOtherSessions(user: User, keep: Option<Jti>)
    | RevokeFamily(user: User, family: Family, cookie: Option<Hash>)
    | ResetPassword(user: User)
    | Deactivate(user: User, byAdmin: bool)
    | ActivateMfa(user: User)
    | DisableMfa(user: User)
    | ReplaceRoles(user: User, roles: set<string>, admitted: bool)

  /** Generated identifiers are new, and a needed eviction picks an oldest family. */
  predicate Drawable(cfg: Config, s: State, u: User, ids: Ids) {
    && ids.jti !in s.sessions && ids.jti !in s.tokens && ids.hash !in s.table.rows && ids.family !in s.table.lineage
    && (AtCap(cfg, s.table, u, s.now) ==> Oldest(s.table, u, s.now, ids.victim))
  }

  /** A session row and the access token that names it. */
  function Minted(cfg: Config, s: State, u: User, jti: Jti): State
    requires u in s.users
  {
    s.(sessions := s.sessions[jti := Session(u, s.now, None)],
       tokens := s.tokens[jti := ClaimsFor(cfg, s.users[u], u, s.now)])
  }

  /** The success path that `authenticate_user` and `_complete_mfa_login` share. */
  function Opened(cfg: Config, s: State, u: User, ids: Ids): State
    requires u in s.users
  {
    var table := Evicted(cfg, s.table, u, s.now, ids.victim);
    Minted(cfg,
           s.(table := RefreshTokens.Created(table, ids.hash, ids.family, u, s.now, s.now + cfg.RefreshTtl(), None)),
           u, ids.jti)
  }

  /** The account a correct password admits: a deactivated one is reactivated within its grace period. */
  function Admissible(a: Account, now: int): Option<Account> {
    if a.status == Deactivated then
      if a.deactivatedAt.Some? && now - REACTIVATION_GRACE < a.deactivatedAt.value
      then Some(a.(status := Active, deactivatedAt := None)) else None
    else if !a.emailVerified then None else Some(a)
  }

  function LoggedIn(cfg: Config, s: State, u: User, ids: Ids): State
    requires u in s.users
  {
    match Admissible(s.users[u], s.now)
    case None => s
    case Some(a) =>
      var known := s.(users := s.users[u := a]);
      if a.mfaEnabled then known else if Drawable(cfg, s, u, ids) then Opened(cfg, known, u, ids) else s
  }

  function MfaCompleted(cfg: Config, s: State, u: User, recovery: bool, ids: Ids): State
    requires u in s.users
  {
    var a := if recovery then s.users[u].(reenrol := true) else s.users[u];
    if Drawable(cfg, s, u, ids) then Opened(cfg, s.(users := s.users[u := a]), u, ids) else s
  }

  function Judged(s: State, hash: Hash): RefreshTokens.Verdict
    requires hash in s.table.rows
  {
    var r := s.table.rows[hash];
    var active := r.user in s.users && s.users[r.user].status != Deactivated;
    RefreshTokens.Judge(r, s.now, active, Lookup(s.revokeBefore, r.user, s.now))
  }

  /** `rotate_refresh_token` as one atomic step. */
  function Refreshed(cfg: Config, s: State, hash: Hash, jti: Jti, successor: Hash): State
    requires hash in s.table.rows
  {
    match Judged(s, hash)
    case Proceed =>
      if jti in s.sessions || jti in s.tokens || successor in s.table.rows then s
      else
        var rotated := s.(table := RefreshTokens.Rotated(s.table, hash, successor, s.now));
        Minted(cfg, rotated, s.table.rows[hash].user, jti)
    case Reuse => s.(table := RefreshTokens.FamilyRevoked(s.table, s.table.rows[hash].family, s.now))
    case Race => s
    case Invalid => s
  }

  /** `_resolve_current_family_id`. */
  function CookieFamily(t: RefreshTokens.Table, u: User, cookie: Option<Hash>): Option<Family> {
    if cookie.Some? && cookie.value in t.rows && t.rows[cookie.value].user == u
    then Some(t.rows[cookie.value].family) else None
  }

  predicate OwnsFamily(t: RefreshTokens.Table, u: User, f: Family) {
    exists h | h in t.rows :: t.rows[h].family == f && t.rows[h].user == u
  }

  function LoggedOut(s: State, u: User, jti: Jti, cookie: Option<Hash>): State {
    var family := CookieFamily(s.table, u, cookie);
    s.(sessions := if jti !in s.sessions then s.sessions
                   else s.sessions[jti := s.sessions[jti].(revokedAt := Some(s.now))],
       table := if family.Some? then RefreshTokens.FamilyRevoked(s.table, family.value, s.now) else s.table)
  }

  /** `revoke_sessions_except`. */
  function OthersRevoked(s: State, u: User, keep: Option<Jti>): State {
    s.(sessions := map j | j in s.sessions ::
         if s.sessions[j].user == u && s.sessions[j].revokedAt.None? && keep != Some(j)
         then s.sessions[j].(revokedAt := Some(s.now)) else s.sessions[j])
  }

  /** `set_revoke_before`, always with the refresh-token lifetime. */
  function RevokedBefore(cfg: Config, s: State, u: User): State {
    s.(revokeBefore := Put(s.revokeBefore, u, s.now, s.now, cfg.RefreshTtl()))
  }

  /** `set_perm_epoch`. */
  function EpochBumped(cfg: Config, s: State, u: User): State {
    s.(permEpoch := Put(s.permEpoch, u, s.now, s.now, cfg.EpochTtl()))
  }

  function Privileged(a: Account): bool {
    exists role | role in a.grants :: role in PRIVILEGED
  }

  /** Self-service deactivation asks for a verified address, an administrator's for an active account. */
  predicate Deactivatable(a: Account, byAdmin: bool) {
    if byAdmin then a.status == Active else a.emailVerified && a.status != Deactivated
  }

  function MfaActivated(cfg: Config, s: State, u: User): State
    requires u in s.users
  {
    var after := s.(users := s.users[u := s.users[u].(mfaEnabled := true, reenrol := false)]);
    if NeedsEnrolment(cfg, s.users[u], s.now) then EpochBumped(cfg, after, u) else after
  }

  function RolesReplaced(cfg: Config, s: State, u: User, roles: set<string>): State
    requires u in s.users
  {
    var granted := map role | role in roles :: s.now;
    EpochBumped(cfg, s.(users := s.users[u := s.users[u].(grants := granted)]), u)
  }

  function Next(cfg: Config, s: State, r: Request): State {
    match r
    case Tick(dt) => s.(now := s.now + dt)
    case Provision(u, a) => if u in s.users then s else s.(users := s.users[u := a])
    case ChangeStatus(u, status, verified) =>
      if u in s.users then s.(users := s.users[u := s.users[u].(status := status, emailVerified := verified)]) else s
    case Login(u, ok, ids) => if ok && u in s.users then LoggedIn(cfg, s, u, ids) else s
    case CompleteMfa(u, recovery, ids) => if u in s.users then MfaCompleted(cfg, s, u, recovery, ids) else s
    case Refresh(hash, throttled, jti, successor) =>
      if hash in s.table.rows && !throttled then Refreshed(cfg, s, hash, jti, successor) else s
    case Logout(u, jti, cookie) => LoggedOut(s, u, jti, cookie)
    case LogoutAll(u) => RevokedBefore(cfg, s, u)
    case RevokeOtherSessions(u, keep) => OthersRevoked(s, u, keep)
    case RevokeFamily(u, f, cookie) =>
      if CookieFamily(s.table, u, cookie) == Some(f) || !OwnsFamily(s.table, u, f) then s
      else s.(table := RefreshTokens.FamilyRevoked(s.table, f, s.now))
    case ResetPassword(u) => if u in s.users then RevokedBefore(cfg, s, u) else s
    case Deactivate(u, byAdmin) =>
      if u in s.users && Deactivatable(s.users[u], byAdmin)
      then RevokedBefore(cfg,
                         s.(users := s.users[u := s.users[u].(status := Deactivated, deactivatedAt := Some(s.now))]), u)
      else s
    case ActivateMfa(u) => if u in s.users then MfaActivated(cfg, s, u) else s
    case DisableMfa(u) =>
      if u in s.users && !Privileged(s.users[u])
      then RevokedBefore(cfg, s.(users := s.users[u := s.users[u].(mfaEnabled := false, reenrol := false)]), u)
      else s
    case ReplaceRoles(u, roles, admitted) =>
      if u in s.users && admitted && roles != {} && roles <= cfg.catalogue.Keys
      then RolesReplaced(cfg, s, u, roles) else s
  }

  function Run(cfg: Config, s: State, requests: seq<Request>): State
    decreases |requests|
  {
    if requests == [] then s else Run(cfg, Next(cfg, s, requests[0]), requests[1..])
  }

  /** A deployment before its first request: accounts may exist, credentials do not. */
  predicate Initial(s: State) {
    && s.sessions == map[] && s.tokens == map[] && s.table == RefreshTokens.EMPTY
    && s.revokeBefore == map[] && s.permEpoch == map[]
  }

  lemma RunCons(cfg: Config, s: State, r: Request, rest: seq<Request>)
    ensures Run(cfg, s, [r] + rest) == Run(cfg, Next(cfg, s, r), rest)
  {
    assert ([r] + rest)[1..] == rest;
  }
}
