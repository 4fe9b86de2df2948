/** What each credential request does, stated on the tables and keys themselves, and what a client may count on. */
module CredentialLaws {
  import opened Prelude
  import opened Credentials
  import RefreshTokens
  import AccessTokens
  import SessionFamilies

  const DAYS_14: int := 14 * 24 * 60 * 60 * SECOND
  const DAYS_30: int := 30 * 24 * 60 * 60 * SECOND

  /** A readable key of the user, written at or after `issuedAt`. */
  predicate Hides(m: map<User, Entry<int>>, u: User, issuedAt: int, now: int) {
    u in m && now < m[u].expiresAt && issuedAt <= m[u].value
  }

  // ------------------------------------------------------------------ admission

  /** Everything a token has to pass before permissions are looked at. */
  predicate Passes(s: State, jti: Jti, allowRevoked: bool) {
    && jti in s.tokens && s.now < s.tokens[jti].exp
    && jti in s.sessions && (s.sessions[jti].revokedAt.None? || allowRevoked)
    && s.sessions[jti].user == s.tokens[jti].user
    && !Hides(s.revokeBefore, s.tokens[jti].user, s.sessions[jti].issuedAt, s.now)
  }

  predicate IsStale(s: State, jti: Jti)
    requires jti in s.tokens && jti in s.sessions
  {
    Hides(s.permEpoch, s.tokens[jti].user, s.sessions[jti].issuedAt, s.now)
  }

  /** Each outcome of `get_authenticated_user`, exactly when it occurs. */
  ghost predicate AdmissionRules(s: State, jti: Jti, allowRevoked: bool, allowEnrolment: bool, r: Admission) {
    && (r == Unauthorized <==> !Passes(s, jti, allowRevoked))
    && (r == TokenStale <==> Passes(s, jti, allowRevoked) && IsStale(s, jti))
    && (r == EnrolmentRequired <==>
          Passes(s, jti, allowRevoked) && !IsStale(s, jti) && s.tokens[jti].enrol && !allowEnrolment)
    && (r.Admitted? <==>
          Passes(s, jti, allowRevoked) && !IsStale(s, jti) && (s.tokens[jti].enrol ==> allowEnrolment))
    && (r.Admitted? ==>
          && r.user == s.tokens[jti].user && r.scopes == s.tokens[jti].scopes
          && r.enrol == s.tokens[jti].enrol)
  }

  lemma AdmissionFollowsRules(s: State, jti: Jti, allowRevoked: bool, allowEnrolment: bool)
    ensures AdmissionRules(s, jti, allowRevoked, allowEnrolment, Authenticate(s, jti, allowRevoked, allowEnrolment))
  {
  }

  // ------------------------------------------------------------------ what a new token says

  /** A pending re-enrolment, or no second factor and a privileged role held for the whole grace period. */
  ghost predicate MustEnrol(cfg: Config, a: Account, now: int) {
    a.reenrol || (!a.mfaEnabled && exists role :: GraceIsOver(cfg, a, role, now))
  }

  ghost predicate GraceIsOver(cfg: Config, a: Account, role: string, now: int) {
    && role in a.grants && (role == "admin" || role == "auditor" || role == "support_agent")
    && a.grants[role] + cfg.graceDays * 24 * 60 * 60 * SECOND <= now
  }

  lemma NeedFollowsRules(cfg: Config, a: Account, now: int)
    ensures NeedsEnrolment(cfg, a, now) <==> MustEnrol(cfg, a, now)
  {
    if NeedsEnrolment(cfg, a, now) && !a.reenrol {
      var role :| role in a.grants && Overdue(cfg, a, role, now);
      assert GraceIsOver(cfg, a, role, now);
    }
    if MustEnrol(cfg, a, now) && !a.reenrol {
      var role :| GraceIsOver(cfg, a, role, now);
      assert Overdue(cfg, a, role, now);
    }
  }

  /** A scope is held exactly when one of the roles carries it, however many there are. */
  lemma ScopesAreTheUnion(cfg: Config, a: Account, p: string)
    ensures p in Scopes(cfg, a)
            <==> exists role :: role in a.grants && role in cfg.catalogue && p in cfg.catalogue[role]
  {
  }

  /** What a token says about its user at the moment it is minted. */
  ghost predicate TruthfulClaims(cfg: Config, a: Account, now: int, c: Claims) {
    && (c.enrol <==> MustEnrol(cfg, a, now))
    && (forall p :: p in c.scopes <==> HasScope(cfg, a, p))
    && c.exp % SECOND == 0 && now + (cfg.accessTtlSeconds - 1) * SECOND < c.exp <= now + cfg.accessTtlSeconds * SECOND
  }

  ghost predicate HasScope(cfg: Config, a: Account, p: string) {
    exists role :: role in a.grants && role in cfg.catalogue && p in cfg.catalogue[role]
  }

  lemma ClaimsFollowRules(cfg: Config, a: Account, u: User, now: int)
    ensures ClaimsFor(cfg, a, u, now).user == u && TruthfulClaims(cfg, a, now, ClaimsFor(cfg, a, u, now))
  {
    NeedFollowsRules(cfg, a, now);
    forall p ensures p in Scopes(cfg, a) <==> HasScope(cfg, a, p) {
      ScopesAreTheUnion(cfg, a, p);
    }
  }

  /** Every token a request mints is truthful about a known user, and names a session of that user that starts now. */
  lemma NewTokensAreTruthful(cfg: Config, s: State, r: Request, jti: Jti)
    requires jti !in s.tokens && jti in Next(cfg, s, r).tokens
    ensures var n := Next(cfg, s, r); var u := n.tokens[jti].user;
            && u in n.users && TruthfulClaims(cfg, n.users[u], n.now, n.tokens[jti])
            && jti in n.sessions && n.sessions[jti].user == u && n.sessions[jti].issuedAt == n.now
  {
    AccessTokens.RequestMoves(cfg, s, r);
    var n := Next(cfg, s, r);
    var u := n.tokens[jti].user;
    assert AccessTokens.TokensMove(cfg, s, n);
    ClaimsFollowRules(cfg, n.users[u], u, n.now);
  }

  lemma {:induction false} TokensNeverChange(cfg: Config, s: State, requests: seq<Request>, jti: Jti)
    requires jti in s.tokens
    ensures jti in Run(cfg, s, requests).tokens && Run(cfg, s, requests).tokens[jti] == s.tokens[jti]
    decreases |requests|
  {
    if requests != [] {
      AccessTokens.RequestMoves(cfg, s, requests[0]);
      TokensNeverChange(cfg, Next(cfg, s, requests[0]), requests[1..], jti);
    }
  }

  /** A token minted while its account has to enrol is never admitted on a route that does not allow enrolment; one
      minted while it has not to is never held to enrolment. */
  lemma EnrolmentHoldsBack(cfg: Config, s: State, r: Request, after: seq<Request>, jti: Jti, allowRevoked: bool)
    requires jti !in s.tokens && jti in Next(cfg, s, r).tokens
    ensures var n := Next(cfg, s, r); var verdict := Authenticate(Run(cfg, n, after), jti, allowRevoked, false);
            && n.tokens[jti].user in n.users
            && (if MustEnrol(cfg, n.users[n.tokens[jti].user], n.now) then !verdict.Admitted?
                else !verdict.EnrolmentRequired?)
  {
    NewTokensAreTruthful(cfg, s, r, jti);
    TokensNeverChange(cfg, Next(cfg, s, r), after, jti);
    AdmissionFollowsRules(Run(cfg, Next(cfg, s, r), after), jti, allowRevoked, false);
  }

  // ------------------------------------------------------------------ rotation

  /** Everything `rotate_refresh_token` asks of a known token. */
  predicate MayRotate(s: State, hash: Hash) {
    && hash in s.table.rows
    && var r := s.table.rows[hash];
       && s.now < r.expiresAt && r.revokedAt.None? && r.consumedAt.None?
       && r.user in s.users && s.users[r.user].status != Deactivated
       && !Hides(s.revokeBefore, r.user, r.issuedAt, s.now)
       && s.now - (if r.lastUsedAt.Some? then r.lastUsedAt.value else r.issuedAt) <= DAYS_14
  }

  lemma JudgementFollowsRules(s: State, hash: Hash)
    requires hash in s.table.rows
    ensures Judged(s, hash).Proceed? <==> MayRotate(s, hash)
    ensures var r := s.table.rows[hash]; var spent := s.now < r.expiresAt && r.revokedAt.None? && r.consumedAt.Some?;
            && (Judged(s, hash).Race? <==> spent && s.now <= r.consumedAt.value + 10 * SECOND)
            && (Judged(s, hash).Reuse? <==> spent && s.now > r.consumedAt.value + 10 * SECOND)
  {
  }

  /** A refresh that may rotate leaves the old token spent, its successor in the same family with the same user and
      expiry, stamped now, and a session with a token for the same user; no other row changes. */
  ghost predicate Exchanged(s: State, n: State, hash: Hash, jti: Jti, successor: Hash)
    requires hash in s.table.rows
  {
    var r := s.table.rows[hash];
    && n.table.rows.Keys == s.table.rows.Keys + {successor}
    && n.table.rows[hash] == r.(consumedAt := Some(s.now))
    && (forall h :: h in s.table.rows && h != hash ==> n.table.rows[h] == s.table.rows[h])
    && Succeeds(r, n.table.rows[successor], s.now)
    && jti in n.tokens && n.tokens[jti].user == r.user
    && n.sessions == s.sessions[jti := Session(r.user, s.now, None)]
    && n.users == s.users && n.revokeBefore == s.revokeBefore && n.permEpoch == s.permEpoch && n.now == s.now
  }

  predicate Succeeds(r: RefreshTokens.Row, q: RefreshTokens.Row, now: int) {
    && q.family == r.family && q.user == r.user && q.expiresAt == r.expiresAt && q.issuedAt == now
    && q.revokedAt.None? && q.consumedAt.None? && q.lastUsedAt == Some(now)
  }

  lemma RefreshFollowsRules(cfg: Config, s: State, hash: Hash, jti: Jti, successor: Hash)
    requires jti !in s.sessions && jti !in s.tokens && successor !in s.table.rows
    ensures MayRotate(s, hash) ==>
              Exchanged(s, Next(cfg, s, Refresh(hash, false, jti, successor)), hash, jti, successor)
    ensures !MayRotate(s, hash) ==> Next(cfg, s, Refresh(hash, false, jti, successor)).tokens == s.tokens
    ensures Next(cfg, s, Refresh(hash, true, jti, successor)) == s
  {
    if hash in s.table.rows {
      JudgementFollowsRules(s, hash);
    }
  }

  // ------------------------------------------------------------------ opening and closing sessions

  /** The account lets a correct password in: verified, or deactivated less than thirty days ago. */
  predicate LetsIn(a: Account, now: int) {
    if a.status == Deactivated then a.deactivatedAt.Some? && now < a.deactivatedAt.value + DAYS_30 else a.emailVerified
  }

  /** A login below the cap leaves every row alone; at the cap exactly the rows of one oldest live family are
      revoked. */
  ghost predicate MadeRoom(cfg: Config, s: State, rows: map<Hash, RefreshTokens.Row>, u: User, victim: Family) {
    var live := set h | h in s.table.rows && s.table.rows[h].user == u && s.table.rows[h].revokedAt.None?
                        && s.now < s.table.rows[h].expiresAt :: s.table.rows[h].family;
    forall h :: h in s.table.rows ==>
      && h in rows
      && rows[h] == if |live| >= cfg.maxLiveFamilies && s.table.rows[h].family == victim
                    then s.table.rows[h].(revokedAt := Some(s.now)) else s.table.rows[h]
  }

  /** The first row of a new family of the user, the session and the token that come with it. */
  ghost predicate OpensSession(cfg: Config, s: State, n: State, u: User, ids: Ids) {
    && n.table.rows.Keys == s.table.rows.Keys + {ids.hash} && MadeRoom(cfg, s, n.table.rows, u, ids.victim)
    && var q := n.table.rows[ids.hash];
       && q.family == ids.family && q.user == u && q.issuedAt == s.now
       && q.expiresAt == s.now + cfg.refreshTtlSeconds * SECOND
       && q.revokedAt.None? && q.consumedAt.None? && q.lastUsedAt.None?
       && n.sessions == s.sessions[ids.jti := Session(u, s.now, None)] && ids.jti in n.tokens
       && n.tokens[ids.jti].user == u
       && n.revokeBefore == s.revokeBefore && n.permEpoch == s.permEpoch && n.now == s.now
  }

  lemma EvictionFollowsRules(cfg: Config, s: State, u: User, victim: Family)
    ensures var t := Evicted(cfg, s.table, u, s.now, victim);
            t.rows.Keys == s.table.rows.Keys && MadeRoom(cfg, s, t.rows, u, victim)
  {
    assert LiveFamilies(s.table, u, s.now)
      == set h | h in s.table.rows && s.table.rows[h].user == u && s.table.rows[h].revokedAt.None?
                 && s.now < s.table.rows[h].expiresAt :: s.table.rows[h].family;
  }

  lemma OpenedOpensSession(cfg: Config, s: State, known: State, u: User, ids: Ids)
    requires u in known.users && Drawable(cfg, s, u, ids) && known == s.(users := known.users)
    ensures OpensSession(cfg, s, Opened(cfg, known, u, ids), u, ids)
    ensures Opened(cfg, known, u, ids).users == known.users
  {
    EvictionFollowsRules(cfg, s, u, ids.victim);
  }

  /** A login opens a session exactly for a correct password of an account that lets it in and has no second factor. */
  lemma LoginFollowsRules(cfg: Config, s: State, u: User, ok: bool, ids: Ids)
    requires Drawable(cfg, s, u, ids)
    ensures var n := Next(cfg, s, Login(u, ok, ids)); var admitted := ok && u in s.users && LetsIn(s.users[u], s.now);
            && (!admitted ==> n == s)
            && (admitted ==>
                  && u in n.users && n.users == s.users[u := n.users[u]]
                  && n.users[u] == if s.users[u].status == Deactivated
                                   then s.users[u].(status := Active, deactivatedAt := None) else s.users[u])
            && (admitted && s.users[u].mfaEnabled ==> n == s.(users := n.users))
            && (admitted && !s.users[u].mfaEnabled ==> OpensSession(cfg, s, n, u, ids))
  {
    if ok && u in s.users && Admissible(s.users[u], s.now).Some? {
      var known := s.(users := s.users[u := Admissible(s.users[u], s.now).value]);
      OpenedOpensSession(cfg, s, known, u, ids);
      assert s.users[u := s.users[u]] == s.users;
    }
  }

  /** A completed MFA login opens a session; a recovery code marks the account for re-enrolment first, so that the token
      is held to enrolment. */
  lemma MfaLoginFollowsRules(cfg: Config, s: State, u: User, recovery: bool, ids: Ids)
    requires u in s.users && Drawable(cfg, s, u, ids)
    ensures var n := Next(cfg, s, CompleteMfa(u, recovery, ids));
            && OpensSession(cfg, s, n, u, ids)
            && n.users == s.users[u := s.users[u].(reenrol := s.users[u].reenrol || recovery)]
            && (recovery ==> n.tokens[ids.jti].enrol)
  {
    var a := if recovery then s.users[u].(reenrol := true) else s.users[u];
    var known := s.(users := s.users[u := a]);
    OpenedOpensSession(cfg, s, known, u, ids);
    ClaimsFollowRules(cfg, a, u, s.now);
  }

  /** The rows of everybody but `u` are as they were. */
  ghost predicate OthersUntouched(s: State, n: State, u: User) {
    n.table.rows.Keys == s.table.rows.Keys
    && forall h :: h in s.table.rows && s.table.rows[h].user != u ==> n.table.rows[h] == s.table.rows[h]
  }

  /** Logout revokes one session and, only if the cookie is the caller's own, the family it belongs to: somebody else's
      cookie revokes nothing. */
  lemma LogoutFollowsRules(cfg: Config, s: State, u: User, jti: Jti, cookie: Option<Hash>)
    requires SessionFamilies.FamiliesSound(cfg, s.table, s.now)
    ensures var n := Next(cfg, s, Logout(u, jti, cookie));
            && OthersUntouched(s, n, u) && n.tokens == s.tokens && n.users == s.users
            && n.sessions.Keys == s.sessions.Keys
            && (forall j :: j in s.sessions ==>
                  n.sessions[j] == if j == jti then s.sessions[j].(revokedAt := Some(s.now)) else s.sessions[j])
            && (forall h :: h in s.table.rows && s.table.rows[h].user == u ==>
                  n.table.rows[h]
                  == if cookie.Some? && cookie.value in s.table.rows && s.table.rows[cookie.value].user == u
                        && s.table.rows[h].family == s.table.rows[cookie.value].family
                     then s.table.rows[h].(revokedAt := Some(s.now)) else s.table.rows[h])
  {
    if cookie.Some? && cookie.value in s.table.rows && s.table.rows[cookie.value].user == u {
      FamilyHasOneOwner(cfg, s, cookie.value);
    }
  }

  lemma FamilyHasOneOwner(cfg: Config, s: State, k: Hash)
    requires SessionFamilies.FamiliesSound(cfg, s.table, s.now) && k in s.table.rows
    ensures forall h :: h in s.table.rows && s.table.rows[h].family == s.table.rows[k].family ==>
              s.table.rows[h].user == s.table.rows[k].user
  {
    forall h | h in s.table.rows && s.table.rows[h].family == s.table.rows[k].family
      ensures s.table.rows[h].user == s.table.rows[k].user
    {
      RefreshTokens.FamilySharesUserAndExpiry(s.table, h, k);
    }
  }

  /** Revoking a session revokes exactly the named family, only if the caller owns it and is not using it. */
  lemma RevokeFamilyFollowsRules(cfg: Config, s: State, u: User, f: Family, cookie: Option<Hash>)
    requires SessionFamilies.FamiliesSound(cfg, s.table, s.now)
    ensures var n := Next(cfg, s, RevokeFamily(u, f, cookie));
            var own := exists h :: h in s.table.rows && s.table.rows[h].family == f && s.table.rows[h].user == u;
            var current := cookie.Some? && cookie.value in s.table.rows && s.table.rows[cookie.value].user == u
                           && s.table.rows[cookie.value].family == f;
            && OthersUntouched(s, n, u) && n == s.(table := n.table)
            && (forall h :: h in s.table.rows ==>
                  n.table.rows[h] == if own && !current && s.table.rows[h].family == f
                                     then s.table.rows[h].(revokedAt := Some(s.now)) else s.table.rows[h])
  {
    if OwnsFamily(s.table, u, f) {
      var k :| k in s.table.rows && s.table.rows[k].family == f && s.table.rows[k].user == u;
      FamilyHasOneOwner(cfg, s, k);
    }
  }

  /** Exactly the user's other sessions that were not revoked yet are revoked. */
  lemma RevokeOthersFollowsRules(cfg: Config, s: State, u: User, keep: Option<Jti>)
    ensures var n := Next(cfg, s, RevokeOtherSessions(u, keep));
            && n == s.(sessions := n.sessions) && n.sessions.Keys == s.sessions.Keys
            && forall j :: j in s.sessions ==>
                 n.sessions[j] == if s.sessions[j].user == u && s.sessions[j].revokedAt.None?
                                     && !(keep.Some? && keep.value == j)
                                  then s.sessions[j].(revokedAt := Some(s.now)) else s.sessions[j]
  {
  }

  /** A user may deactivate a verified account, an administrator an active one; the key is written with it. */
  lemma DeactivationFollowsRules(cfg: Config, s: State, u: User, byAdmin: bool)
    ensures var n := Next(cfg, s, Deactivate(u, byAdmin));
            var allowed := u in s.users && s.users[u].status != Deactivated
                           && (if byAdmin then s.users[u].status == Active else s.users[u].emailVerified);
            n == if !allowed then s
                 else s.(users := s.users[u := s.users[u].(status := Deactivated, deactivatedAt := Some(s.now))],
                         revokeBefore := s.revokeBefore[u := Entry(s.now, s.now + cfg.refreshTtlSeconds * SECOND)])
  {
  }

  /** A replacement grants exactly the requested roles, all of them now, and writes the epoch with it. */
  lemma ReplacementFollowsRules(cfg: Config, s: State, u: User, roles: set<string>, admitted: bool)
    ensures var n := Next(cfg, s, ReplaceRoles(u, roles, admitted));
            var known := forall role :: role in roles ==> role in cfg.catalogue;
            var allowed := u in s.users && admitted && roles != {} && known;
            && (!allowed ==> n == s)
            && (allowed ==>
                  && u in n.users && n.users == s.users[u := s.users[u].(grants := n.users[u].grants)]
                  && n.users[u].grants.Keys == roles
                  && (forall role :: role in roles ==> n.users[u].grants[role] == s.now)
                  && n == s.(users := n.users,
                             permEpoch := s.permEpoch[u := Entry(s.now, s.now + cfg.epochTtlSeconds * SECOND)]))
  {
    assert roles <= cfg.catalogue.Keys <==> forall role :: role in roles ==> role in cfg.catalogue;
  }

  /** Activation and disabling: the flags they leave, and the key each writes exactly when it has to. */
  lemma MfaSettingsFollowRules(cfg: Config, s: State, u: User)
    ensures var n := Next(cfg, s, ActivateMfa(u));
            n == if u !in s.users then s
                 else s.(users := s.users[u := s.users[u].(mfaEnabled := true, reenrol := false)],
                         permEpoch := if MustEnrol(cfg, s.users[u], s.now)
                                      then s.permEpoch[u := Entry(s.now, s.now + cfg.epochTtlSeconds * SECOND)]
                                      else s.permEpoch)
    ensures var n := Next(cfg, s, DisableMfa(u));
            var blocked := u !in s.users || "admin" in s.users[u].grants || "auditor" in s.users[u].grants
                           || "support_agent" in s.users[u].grants;
            n == if blocked then s
                 else s.(users := s.users[u := s.users[u].(mfaEnabled := false, reenrol := false)],
                         revokeBefore := s.revokeBefore[u := Entry(s.now, s.now + cfg.refreshTtlSeconds * SECOND)])
  {
    if u in s.users {
      NeedFollowsRules(cfg, s.users[u], s.now);
      var g := s.users[u].grants;
      assert Privileged(s.users[u]) <==> ("admin" in g || "auditor" in g || "support_agent" in g);
    }
  }
}
