/** Access tokens over serial runs: the expiring keys act as permanent tombstones, so an admitted token always tells
    the truth. */
module AccessTokens {
  import opened Prelude
  import opened Credentials

  // ------------------------------------------------------------------ invariant

  /** The key rejects a token of `u` issued at `issuedAt` for as long as that token can live. */
  predicate Shadowed(m: map<User, Entry<int>>, u: User, issuedAt: int, exp: int) {
    u in m && issuedAt <= m[u].value && exp <= m[u].expiresAt
  }

  /** The session row behind a token, and how long the token can live. */
  ghost predicate WellMinted(cfg: Config, s: State, j: Jti) {
    && j in s.sessions && j in s.tokens && s.sessions[j].user == s.tokens[j].user && s.tokens[j].user in s.users
    && s.sessions[j].issuedAt <= s.now && s.tokens[j].exp <= s.sessions[j].issuedAt + cfg.AccessTtl()
  }

  /** What a token says about scopes is current, or the permission epoch hides the token. */
  ghost predicate ScopesHonest(cfg: Config, s: State, j: Jti)
    requires WellMinted(cfg, s, j)
  {
    var c, issued := s.tokens[j], s.sessions[j].issuedAt;
    c.scopes == Scopes(cfg, s.users[c.user]) || Shadowed(s.permEpoch, c.user, issued, c.exp)
  }

  /** What a token says about enrolment is current, or one of the keys hides the token. */
  ghost predicate EnrolmentHonest(cfg: Config, s: State, j: Jti)
    requires WellMinted(cfg, s, j)
  {
    var c, issued := s.tokens[j], s.sessions[j].issuedAt;
    c.enrol ==>
      || NeedsEnrolment(cfg, s.users[c.user], s.now)
      || Shadowed(s.permEpoch, c.user, issued, c.exp)
      || Shadowed(s.revokeBefore, c.user, issued, c.exp)
  }

  ghost predicate TokensFormed(cfg: Config, s: State) {
    && KeysTimely(s.revokeBefore, s.now, cfg.RefreshTtl()) && KeysTimely(s.permEpoch, s.now, cfg.EpochTtl())
    && s.tokens.Keys == s.sessions.Keys
    && (forall j {:trigger WellMinted(cfg, s, j)} :: j in s.tokens ==> WellMinted(cfg, s, j))
  }

  ghost predicate TokensHonest(cfg: Config, s: State) {
    && TokensFormed(cfg, s)
    && (forall j {:trigger WellMinted(cfg, s, j)} :: j in s.tokens ==>
          && ScopesHonest(cfg, s, j)
          && (cfg.AccessTtl() <= cfg.RefreshTtl() ==> EnrolmentHonest(cfg, s, j)))
  }

  // ------------------------------------------------------------------ what every request does to tokens

  /** A key is left alone, or written now with its full time to live. */
  ghost predicate KeysMove(m: map<User, Entry<int>>, m': map<User, Entry<int>>, now: int, ttl: nat) {
    && (forall u :: u in m ==> u in m')
    && (forall u :: u in m' ==> Bumped(m', u, now, ttl) || (u in m && m'[u] == m[u]))
  }

  predicate Bumped(m: map<User, Entry<int>>, u: User, now: int, ttl: nat) {
    u in m && m[u] == Entry(now, now + ttl)
  }

  /** Sessions keep their owner and age and are never un-revoked, tokens are immutable, a new token tells the truth. */
  ghost predicate TokensMove(cfg: Config, s: State, s': State) {
    && s'.tokens.Keys - s.tokens.Keys == s'.sessions.Keys - s.sessions.Keys
    && (forall j :: j in s.sessions ==>
          && j in s'.sessions && s'.sessions[j].user == s.sessions[j].user
          && s'.sessions[j].issuedAt == s.sessions[j].issuedAt
          && (s.sessions[j].revokedAt.Some? ==> s'.sessions[j].revokedAt.Some?))
    && (forall j :: j in s.tokens ==> j in s'.tokens && s'.tokens[j] == s.tokens[j])
    && (forall j :: j in s'.tokens && j !in s.tokens ==>
          && j in s'.sessions && s'.sessions[j].issuedAt == s'.now && s'.tokens[j].user in s'.users
          && s'.sessions[j].user == s'.tokens[j].user
          && s'.tokens[j] == ClaimsFor(cfg, s'.users[s'.tokens[j].user], s'.tokens[j].user, s'.now))
  }

  /** Whatever changes a scope set bumps the epoch, and whatever ends the need to enrol bumps a key. */
  ghost predicate AccountsMove(cfg: Config, s: State, s': State) {
    forall u {:trigger u in s'.users} :: u in s.users ==>
      && u in s'.users
      && (Scopes(cfg, s'.users[u]) == Scopes(cfg, s.users[u]) || Bumped(s'.permEpoch, u, s'.now, cfg.EpochTtl()))
      && (NeedsEnrolment(cfg, s.users[u], s.now) ==>
            || NeedsEnrolment(cfg, s'.users[u], s'.now)
            || Bumped(s'.permEpoch, u, s'.now, cfg.EpochTtl())
            || Bumped(s'.revokeBefore, u, s'.now, cfg.RefreshTtl()))
  }

  ghost predicate Moves(cfg: Config, s: State, s': State) {
    && s.now <= s'.now
    && KeysMove(s.revokeBefore, s'.revokeBefore, s'.now, cfg.RefreshTtl())
    && KeysMove(s.permEpoch, s'.permEpoch, s'.now, cfg.EpochTtl())
    && TokensMove(cfg, s, s') && AccountsMove(cfg, s, s')
  }

  /** Once overdue, an account stays overdue while its grants and enrolment stay as they are. */
  lemma NeedPersists(cfg: Config, a: Account, b: Account, now: int, later: int)
    requires now <= later && a.grants == b.grants && a.mfaEnabled == b.mfaEnabled && (a.reenrol ==> b.reenrol)
    requires NeedsEnrolment(cfg, a, now)
    ensures NeedsEnrolment(cfg, b, later)
  {
    if !a.reenrol {
      var role :| role in a.grants && Overdue(cfg, a, role, now);
      assert Overdue(cfg, b, role, later);
    }
  }

  /** An account edit that touches neither grants nor enrolment, or sets the re-enrolment flag. */
  ghost predicate HarmlessEdit(a: Account, b: Account) {
    a.grants == b.grants && a.mfaEnabled == b.mfaEnabled && (a.reenrol ==> b.reenrol)
  }

  lemma HarmlessEditMoves(cfg: Config, s: State, u: User, b: Account)
    requires u in s.users && HarmlessEdit(s.users[u], b)
    ensures AccountsMove(cfg, s, s.(users := s.users[u := b]))
  {
    if NeedsEnrolment(cfg, s.users[u], s.now) {
      NeedPersists(cfg, s.users[u], b, s.now, s.now);
    }
  }

  lemma MintMoves(cfg: Config, s: State, s': State, table: RefreshTokens.Table, u: User, a: Account, jti: Jti)
    requires u in s.users && HarmlessEdit(s.users[u], a) && jti !in s.sessions && jti !in s.tokens
    requires s' == Minted(cfg, s.(users := s.users[u := a], table := table), u, jti)
    ensures Moves(cfg, s, s')
  {
    HarmlessEditMoves(cfg, s, u, a);
    assert s'.tokens.Keys - s.tokens.Keys == {jti} == s'.sessions.Keys - s.sessions.Keys;
  }

  lemma TickMoves(cfg: Config, s: State, dt: nat)
    ensures Moves(cfg, s, s.(now := s.now + dt))
  {
    forall u | u in s.users && NeedsEnrolment(cfg, s.users[u], s.now)
      ensures NeedsEnrolment(cfg, s.users[u], s.now + dt)
    {
      NeedPersists(cfg, s.users[u], s.users[u], s.now, s.now + dt);
    }
  }

  lemma LoginMoves(cfg: Config, s: State, u: User, ids: Ids)
    requires u in s.users
    ensures Moves(cfg, s, LoggedIn(cfg, s, u, ids))
  {
    match Admissible(s.users[u], s.now)
    case None => TickMoves(cfg, s, 0);
    case Some(a) =>
      HarmlessEditMoves(cfg, s, u, a);
      if !a.mfaEnabled && Drawable(cfg, s, u, ids) {
        var s' := Opened(cfg, s.(users := s.users[u := a]), u, ids);
        MintMoves(cfg, s, s', s'.table, u, a, ids.jti);
      } else {
        TickMoves(cfg, s, 0);
      }
  }

  lemma CompleteMfaMoves(cfg: Config, s: State, u: User, recovery: bool, ids: Ids)
    requires u in s.users
    ensures Moves(cfg, s, MfaCompleted(cfg, s, u, recovery, ids))
  {
    var a := if recovery then s.users[u].(reenrol := true) else s.users[u];
    if Drawable(cfg, s, u, ids) {
      var s' := Opened(cfg, s.(users := s.users[u := a]), u, ids);
      MintMoves(cfg, s, s', s'.table, u, a, ids.jti);
    } else {
      TickMoves(cfg, s, 0);
    }
  }

  lemma RefreshMoves(cfg: Config, s: State, hash: Hash, jti: Jti, successor: Hash)
    requires hash in s.table.rows
    ensures Moves(cfg, s, Refreshed(cfg, s, hash, jti, successor))
  {
    var u, s' := s.table.rows[hash].user, Refreshed(cfg, s, hash, jti, successor);
    if Judged(s, hash).Proceed? && jti !in s.sessions && jti !in s.tokens && successor !in s.table.rows {
      assert s.users[u := s.users[u]] == s.users;
      MintMoves(cfg, s, s', s'.table, u, s.users[u], jti);
    } else {
      TickMoves(cfg, s, 0);
    }
  }

  /** Any edit of an account is covered by an epoch written with it. */
  lemma BumpedEditMoves(cfg: Config, s: State, u: User, b: Account)
    requires u in s.users
    ensures Moves(cfg, s, EpochBumped(cfg, s.(users := s.users[u := b]), u))
  {
  }

  lemma ReplaceRolesMoves(cfg: Config, s: State, u: User, roles: set<string>, admitted: bool)
    ensures Moves(cfg, s, Next(cfg, s, ReplaceRoles(u, roles, admitted)))
  {
    TickMoves(cfg, s, 0);
    if u in s.users {
      BumpedEditMoves(cfg, s, u, s.users[u].(grants := map role | role in roles :: s.now));
    }
  }

  lemma ActivateMfaMoves(cfg: Config, s: State, u: User)
    ensures Moves(cfg, s, Next(cfg, s, ActivateMfa(u)))
  {
    if u !in s.users {
      TickMoves(cfg, s, 0);
    } else {
      var b := s.users[u].(mfaEnabled := true, reenrol := false);
      if NeedsEnrolment(cfg, s.users[u], s.now) {
        BumpedEditMoves(cfg, s, u, b);
      } else {
        assert Scopes(cfg, b) == Scopes(cfg, s.users[u]);
      }
    }
  }

  lemma LogoutMoves(cfg: Config, s: State, u: User, jti: Jti, cookie: Option<Hash>)
    ensures Moves(cfg, s, LoggedOut(s, u, jti, cookie))
  {
    assert LoggedOut(s, u, jti, cookie).sessions.Keys == s.sessions.Keys;
  }

  lemma EditMoves(cfg: Config, s: State, u: User, b: Account)
    requires u in s.users && HarmlessEdit(s.users[u], b)
    ensures Moves(cfg, s, s.(users := s.users[u := b]))
    ensures Moves(cfg, s, RevokedBefore(cfg, s.(users := s.users[u := b]), u))
  {
    HarmlessEditMoves(cfg, s, u, b);
  }

  lemma KeyOrTableMoves(cfg: Config, s: State, u: User, table: RefreshTokens.Table)
    ensures Moves(cfg, s, RevokedBefore(cfg, s, u)) && Moves(cfg, s, s.(table := table))
  {
  }

  lemma ProvisionMoves(cfg: Config, s: State, u: User, a: Account)
    requires u !in s.users
    ensures Moves(cfg, s, s.(users := s.users[u := a]))
  {
  }

  lemma OthersMove(cfg: Config, s: State, u: User, keep: Option<Jti>)
    ensures Moves(cfg, s, OthersRevoked(s, u, keep))
  {
    assert OthersRevoked(s, u, keep).sessions.Keys == s.sessions.Keys;
  }

  /** An edit that leaves the grants alone is covered by a revocation written with it. */
  lemma RevokedEditMoves(cfg: Config, s: State, u: User, b: Account)
    requires u in s.users && b.grants == s.users[u].grants
    ensures Moves(cfg, s, RevokedBefore(cfg, s.(users := s.users[u := b]), u))
  {
    assert Scopes(cfg, b) == Scopes(cfg, s.users[u]);
  }

  lemma DisableMfaMoves(cfg: Config, s: State, u: User)
    ensures Moves(cfg, s, Next(cfg, s, DisableMfa(u)))
  {
    TickMoves(cfg, s, 0);
    if u in s.users {
      RevokedEditMoves(cfg, s, u, s.users[u].(mfaEnabled := false, reenrol := false));
    }
  }

  /** Requests that open or close a session. */
  lemma SessionRequestMoves(cfg: Config, s: State, r: Request)
    requires r.Login? || r.CompleteMfa? || r.Refresh? || r.Logout? || r.RevokeOtherSessions?
    ensures Moves(cfg, s, Next(cfg, s, r))
  {
    TickMoves(cfg, s, 0);
    match r
    case Login(u, ok, ids) => if ok && u in s.users { LoginMoves(cfg, s, u, ids); }
    case CompleteMfa(u, recovery, ids) => if u in s.users { CompleteMfaMoves(cfg, s, u, recovery, ids); }
    case Refresh(hash, throttled, jti, successor) =>
      if hash in s.table.rows { RefreshMoves(cfg, s, hash, jti, successor); }
    case Logout(u, jti, cookie) => LogoutMoves(cfg, s, u, jti, cookie);
    case RevokeOtherSessions(u, keep) => OthersMove(cfg, s, u, keep);
  }

  /** Requests that edit an account's status. */
  lemma StatusRequestMoves(cfg: Config, s: State, r: Request)
    requires r.Provision? || r.ChangeStatus? || r.Deactivate?
    ensures Moves(cfg, s, Next(cfg, s, r))
  {
    TickMoves(cfg, s, 0);
    match r
    case Provision(u, a) => if u !in s.users { ProvisionMoves(cfg, s, u, a); }
    case ChangeStatus(u, status, verified) =>
      if u in s.users { EditMoves(cfg, s, u, s.users[u].(status := status, emailVerified := verified)); }
    case Deactivate(u, byAdmin) =>
      if u in s.users { EditMoves(cfg, s, u, s.users[u].(status := Deactivated, deactivatedAt := Some(s.now))); }
  }

  /** Every request is one of these moves. */
  lemma RequestMoves(cfg: Config, s: State, r: Request)
    ensures Moves(cfg, s, Next(cfg, s, r))
  {
    TickMoves(cfg, s, 0);
    match r
    case Tick(dt) => TickMoves(cfg, s, dt);
    case LogoutAll(u) => KeyOrTableMoves(cfg, s, u, s.table);
    case ResetPassword(u) => KeyOrTableMoves(cfg, s, u, s.table);
    case RevokeFamily(u, f, cookie) => KeyOrTableMoves(cfg, s, u, RefreshTokens.FamilyRevoked(s.table, f, s.now));
    case Login(_, _, _) => SessionRequestMoves(cfg, s, r);
    case CompleteMfa(_, _, _) => SessionRequestMoves(cfg, s, r);
    case Refresh(_, _, _, _) => SessionRequestMoves(cfg, s, r);
    case Logout(_, _, _) => SessionRequestMoves(cfg, s, r);
    case RevokeOtherSessions(_, _) => SessionRequestMoves(cfg, s, r);
    case ActivateMfa(u) => ActivateMfaMoves(cfg, s, u);
    case DisableMfa(u) => DisableMfaMoves(cfg, s, u);
    case ReplaceRoles(u, roles, admitted) => ReplaceRolesMoves(cfg, s, u, roles, admitted);
    case _ => StatusRequestMoves(cfg, s, r);
  }

  // ------------------------------------------------------------------ the invariant over runs

  /** A tombstone stays: a later write of the key only moves it forward. */
  lemma ShadowStays(m: map<User, Entry<int>>, m': map<User, Entry<int>>, now: int, later: int, ttl: nat,
                    u: User, issuedAt: int, exp: int)
    requires now <= later && KeysTimely(m, now, ttl) && KeysMove(m, m', later, ttl) && Shadowed(m, u, issuedAt, exp)
    ensures Shadowed(m', u, issuedAt, exp)
  {
  }

  lemma MovesKeepFormed(cfg: Config, s: State, s': State)
    requires TokensFormed(cfg, s) && Moves(cfg, s, s')
    ensures TokensFormed(cfg, s')
  {
    forall j | j in s'.tokens ensures WellMinted(cfg, s', j) {
      if j in s.tokens {
        assert WellMinted(cfg, s, j) && s.tokens[j].user in s'.users;
      }
    }
    forall j | j in s'.sessions ensures j in s'.tokens {
      assert j !in s.sessions ==> j in s'.tokens.Keys - s.tokens.Keys;
    }
  }

  lemma TokenStaysHonest(cfg: Config, s: State, s': State, j: Jti)
    requires TokensHonest(cfg, s) && Moves(cfg, s, s') && j in s.tokens && cfg.AccessTtl() <= cfg.EpochTtl()
    requires WellMinted(cfg, s', j)
    ensures ScopesHonest(cfg, s', j) && (cfg.AccessTtl() <= cfg.RefreshTtl() ==> EnrolmentHonest(cfg, s', j))
  {
    assert WellMinted(cfg, s, j);
    var c, issued := s.tokens[j], s.sessions[j].issuedAt;
    if Shadowed(s.permEpoch, c.user, issued, c.exp) {
      ShadowStays(s.permEpoch, s'.permEpoch, s.now, s'.now, cfg.EpochTtl(), c.user, issued, c.exp);
    }
    if Shadowed(s.revokeBefore, c.user, issued, c.exp) {
      ShadowStays(s.revokeBefore, s'.revokeBefore, s.now, s'.now, cfg.RefreshTtl(), c.user, issued, c.exp);
    }
  }

  lemma MovesKeepHonest(cfg: Config, s: State, s': State)
    requires TokensHonest(cfg, s) && Moves(cfg, s, s') && cfg.AccessTtl() <= cfg.EpochTtl()
    ensures TokensHonest(cfg, s')
  {
    MovesKeepFormed(cfg, s, s');
    forall j | j in s'.tokens
      ensures WellMinted(cfg, s', j) && ScopesHonest(cfg, s', j)
      ensures cfg.AccessTtl() <= cfg.RefreshTtl() ==> EnrolmentHonest(cfg, s', j)
    {
      assert WellMinted(cfg, s', j);
      if j in s.tokens {
        TokenStaysHonest(cfg, s, s', j);
      }
    }
  }

  lemma {:induction false} RunsKeepHonest(cfg: Config, s: State, requests: seq<Request>)
    requires TokensHonest(cfg, s) && cfg.AccessTtl() <= cfg.EpochTtl()
    ensures TokensHonest(cfg, Run(cfg, s, requests))
    decreases |requests|
  {
    if requests != [] {
      RequestMoves(cfg, s, requests[0]);
      MovesKeepHonest(cfg, s, Next(cfg, s, requests[0]));
      RunsKeepHonest(cfg, Next(cfg, s, requests[0]), requests[1..]);
    }
  }

  /** Keys act as tombstones: a shadowed token is never admitted, whether the key is still there or has expired. */
  lemma ShadowedIsRejected(m: map<User, Entry<int>>, u: User, issuedAt: int, exp: int, now: int)
    requires Shadowed(m, u, issuedAt, exp) && now < exp
    ensures Covers(m, u, issuedAt, now)
  {
  }

  // ------------------------------------------------------------------ scopes and enrolment

  /** If the token is admitted, its scopes are those of the role tables now. */
  ghost predicate ScopesCurrentAt(cfg: Config, s: State, jti: Jti, allowRevoked: bool, allowEnrolment: bool) {
    var verdict := Authenticate(s, jti, allowRevoked, allowEnrolment);
    verdict.Admitted? ==> verdict.user in s.users && verdict.scopes == Scopes(cfg, s.users[verdict.user])
  }

  /** If the token passes the session checks with an enrolment mark, its account needs to enrol now. */
  ghost predicate MarkCurrentAt(cfg: Config, s: State, jti: Jti, allowRevoked: bool, allowEnrolment: bool) {
    var verdict := Authenticate(s, jti, allowRevoked, allowEnrolment);
    verdict.EnrolmentRequired? || (verdict.Admitted? && verdict.enrol) ==>
      && jti in s.tokens && s.tokens[jti].user in s.users
      && NeedsEnrolment(cfg, s.users[s.tokens[jti].user], s.now)
  }

  lemma HonestAdmission(cfg: Config, s: State, jti: Jti, allowRevoked: bool, allowEnrolment: bool)
    requires TokensHonest(cfg, s)
    ensures ScopesCurrentAt(cfg, s, jti, allowRevoked, allowEnrolment)
    ensures cfg.AccessTtl() <= cfg.RefreshTtl() ==> MarkCurrentAt(cfg, s, jti, allowRevoked, allowEnrolment)
  {
    var verdict := Authenticate(s, jti, allowRevoked, allowEnrolment);
    if verdict.Admitted? || verdict.EnrolmentRequired? {
      assert WellMinted(cfg, s, jti);
      var c, issued := s.tokens[jti], s.sessions[jti].issuedAt;
      assert !Shadowed(s.permEpoch, c.user, issued, c.exp) && !Shadowed(s.revokeBefore, c.user, issued, c.exp);
    }
  }

  /** In every serial run an admitted token carries exactly the scopes the role tables give its user at that moment. */
  lemma ScopesAreCurrent(cfg: Config, s: State, requests: seq<Request>, jti: Jti, allowRevoked: bool,
                         allowEnrolment: bool)
    requires Initial(s) && cfg.AccessTtl() <= cfg.EpochTtl()
    ensures ScopesCurrentAt(cfg, Run(cfg, s, requests), jti, allowRevoked, allowEnrolment)
  {
    RunsKeepHonest(cfg, s, requests);
    HonestAdmission(cfg, Run(cfg, s, requests), jti, allowRevoked, allowEnrolment);
  }

  ghost predicate ScopesAlwaysCurrent(cfg: Config) {
    forall s, requests, jti, allowRevoked, allowEnrolment
      {:trigger ScopesCurrentAt(cfg, Run(cfg, s, requests), jti, allowRevoked, allowEnrolment)} ::
      Initial(s) ==> ScopesCurrentAt(cfg, Run(cfg, s, requests), jti, allowRevoked, allowEnrolment)
  }

  /** The key's lifetime is what makes this work: with two roles that differ, the property holds exactly when the epoch
      key lives at least as long as an access token. */
  lemma ScopesCurrentIffEpochOutlivesToken(cfg: Config, before: string, after: string)
    requires before in cfg.catalogue && after in cfg.catalogue && cfg.catalogue[before] != cfg.catalogue[after]
    requires cfg.maxLiveFamilies > 0
    ensures ScopesAlwaysCurrent(cfg) <==> cfg.accessTtlSeconds <= cfg.epochTtlSeconds
  {
    if cfg.accessTtlSeconds <= cfg.epochTtlSeconds {
      forall s, requests, jti, allowRevoked, allowEnrolment | Initial(s)
        ensures ScopesCurrentAt(cfg, Run(cfg, s, requests), jti, allowRevoked, allowEnrolment)
      {
        ScopesAreCurrent(cfg, s, requests, jti, allowRevoked, allowEnrolment);
      }
    } else {
      var s, requests, jti := StaleScopesAdmitted(cfg, before, after);
      assert !ScopesCurrentAt(cfg, Run(cfg, s, requests), jti, false, true);
    }
  }

  /** An empty deployment with one customer who holds one role. */
  function OneCustomer(role: string): State {
    var a := Account(Active, true, false, false, None, map[role := 0]);
    State(0, map[1 := a], map[], map[], RefreshTokens.EMPTY, map[], map[])
  }

  lemma ScopesOfOneRole(cfg: Config, a: Account, role: string)
    requires role in cfg.catalogue && a.grants.Keys == {role}
    ensures Scopes(cfg, a) == cfg.catalogue[role]
  {
  }

  /** The customer logs in. */
  lemma CustomerLogsIn(cfg: Config, role: string)
    requires cfg.maxLiveFamilies > 0
    ensures var s := OneCustomer(role); var n := Next(cfg, s, Login(1, true, Ids(7, 8, 9, 0)));
            && n.now == 0 && n.users == s.users && n.revokeBefore == map[] && n.permEpoch == map[]
            && n.tokens == map[7 := ClaimsFor(cfg, s.users[1], 1, 0)] && n.sessions == map[7 := Session(1, 0, None)]
  {
    var s := OneCustomer(role);
    assert LiveFamilies(s.table, 1, 0) == {};
    assert Admissible(s.users[1], 0) == Some(s.users[1]) && s.users[1 := s.users[1]] == s.users;
  }

  /** The token of a customer whose role was replaced is admitted once the epoch key has expired. */
  lemma StaleAfterWait(cfg: Config, s: State, before: string, after: string)
    requires before in cfg.catalogue && after in cfg.catalogue && cfg.catalogue[before] != cfg.catalogue[after]
    requires cfg.epochTtlSeconds < cfg.accessTtlSeconds && s.now == 0 && s.revokeBefore == map[]
    requires s.users == OneCustomer(before).users && s.sessions == map[7 := Session(1, 0, None)]
    requires s.tokens == map[7 := ClaimsFor(cfg, s.users[1], 1, 0)]
    ensures var replaced := Next(cfg, s, ReplaceRoles(1, {after}, true));
            !ScopesCurrentAt(cfg, Next(cfg, replaced, Tick(cfg.EpochTtl())), 7, false, true)
  {
    var replaced := Next(cfg, s, ReplaceRoles(1, {after}, true));
    ScopesOfOneRole(cfg, s.users[1], before);
    ScopesOfOneRole(cfg, replaced.users[1], after);
    assert WholeSecond(cfg.AccessTtl()) == cfg.AccessTtl();
  }

  /** Otherwise a role is replaced, the key expires first, and the old token is admitted with the old scopes. */
  lemma StaleScopesAdmitted(cfg: Config, before: string, after: string)
    returns (s: State, requests: seq<Request>, jti: Jti)
    requires before in cfg.catalogue && after in cfg.catalogue && cfg.catalogue[before] != cfg.catalogue[after]
    requires cfg.maxLiveFamilies > 0 && cfg.epochTtlSeconds < cfg.accessTtlSeconds
    ensures Initial(s) && !ScopesCurrentAt(cfg, Run(cfg, s, requests), jti, false, true)
  {
    s, jti := OneCustomer(before), 7;
    var login, replace, wait := Login(1, true, Ids(7, 8, 9, 0)), ReplaceRoles(1, {after}, true), Tick(cfg.EpochTtl());
    requests := [login] + ([replace] + ([wait] + []));
    CustomerLogsIn(cfg, before);
    var s1 := Next(cfg, s, login);
    StaleAfterWait(cfg, s1, before, after);
    RunCons(cfg, s, login, [replace] + ([wait] + []));
    RunCons(cfg, s1, replace, [wait] + []);
    RunCons(cfg, Next(cfg, s1, replace), wait, []);
  }

  /** In every serial run a token marked for enrolment passes the session checks only while its account needs to
      enrol. */
  lemma EnrolmentMarkIsCurrent(cfg: Config, s: State, requests: seq<Request>, jti: Jti,
                               allowRevoked: bool, allowEnrolment: bool)
    requires Initial(s) && cfg.AccessTtl() <= cfg.EpochTtl() && cfg.AccessTtl() <= cfg.RefreshTtl()
    ensures MarkCurrentAt(cfg, Run(cfg, s, requests), jti, allowRevoked, allowEnrolment)
  {
    RunsKeepHonest(cfg, s, requests);
    HonestAdmission(cfg, Run(cfg, s, requests), jti, allowRevoked, allowEnrolment);
  }

  // ------------------------------------------------------------------ revocation

  lemma {:induction false} RunsKeepFormed(cfg: Config, s: State, requests: seq<Request>)
    requires TokensFormed(cfg, s)
    ensures TokensFormed(cfg, Run(cfg, s, requests))
    decreases |requests|
  {
    if requests != [] {
      RequestMoves(cfg, s, requests[0]);
      MovesKeepFormed(cfg, s, Next(cfg, s, requests[0]));
      RunsKeepFormed(cfg, Next(cfg, s, requests[0]), requests[1..]);
    }
  }

  /** A request that takes effect as a user-wide revocation. */
  predicate EndsAllSessions(s: State, r: Request, u: User) {
    match r
    case LogoutAll(v) => v == u
    case ResetPassword(v) => v == u && u in s.users
    case Deactivate(v, byAdmin) => v == u && u in s.users && Deactivatable(s.users[u], byAdmin)
    case DisableMfa(v) => v == u && u in s.users && !Privileged(s.users[u])
    case _ => false
  }

  /** The revocation key was last written at or after `since`. */
  predicate RevokedSince(s: State, u: User, since: int) {
    u in s.revokeBefore && since <= s.revokeBefore[u].value
  }

  lemma EndingSetsTheKey(cfg: Config, s: State, r: Request, u: User)
    requires EndsAllSessions(s, r, u)
    ensures RevokedSince(Next(cfg, s, r), u, s.now) && Next(cfg, s, r).now == s.now
  {
  }

  lemma {:induction false} RunsKeepRevocation(cfg: Config, s: State, requests: seq<Request>, u: User, since: int,
                                              j: Jti)
    requires TokensFormed(cfg, s) && since <= s.now
    ensures RevokedSince(s, u, since) ==> RevokedSince(Run(cfg, s, requests), u, since)
    ensures j in s.sessions && s.sessions[j].revokedAt.Some? ==>
              j in Run(cfg, s, requests).sessions && Run(cfg, s, requests).sessions[j].revokedAt.Some?
    decreases |requests|
  {
    if requests != [] {
      RequestMoves(cfg, s, requests[0]);
      MovesKeepFormed(cfg, s, Next(cfg, s, requests[0]));
      RunsKeepRevocation(cfg, Next(cfg, s, requests[0]), requests[1..], u, since, j);
    }
  }

  /** After a user-wide revocation no access token issued at or before it is admitted again, on any route, at any later
      time, also once the key has expired. */
  lemma AccessTokensStayDead(cfg: Config, s: State, before: seq<Request>, r: Request, after: seq<Request>,
                             u: User, jti: Jti, allowRevoked: bool, allowEnrolment: bool)
    requires Initial(s) && cfg.AccessTtl() <= cfg.RefreshTtl()
    requires var t := Run(cfg, s, before); var end := Run(cfg, Next(cfg, t, r), after);
             && EndsAllSessions(t, r, u)
             && jti in end.tokens && jti in end.sessions && end.tokens[jti].user == u
             && end.sessions[jti].issuedAt <= t.now
    ensures Authenticate(Run(cfg, Next(cfg, Run(cfg, s, before), r), after), jti, allowRevoked, allowEnrolment)
            == Unauthorized
  {
    var t := Run(cfg, s, before);
    RunsKeepFormed(cfg, s, before);
    RequestMoves(cfg, t, r);
    MovesKeepFormed(cfg, t, Next(cfg, t, r));
    EndingSetsTheKey(cfg, t, r, u);
    RunsKeepFormed(cfg, Next(cfg, t, r), after);
    RunsKeepRevocation(cfg, Next(cfg, t, r), after, u, t.now, jti);
    assert WellMinted(cfg, Run(cfg, Next(cfg, t, r), after), jti);
  }

  /** A session that was logged out is refused by every route but logout itself, forever. */
  lemma LoggedOutStaysOut(cfg: Config, s: State, before: seq<Request>, u: User, jti: Jti, cookie: Option<Hash>,
                          after: seq<Request>, allowEnrolment: bool)
    requires Initial(s) && jti in Run(cfg, s, before).sessions
    ensures var end := Run(cfg, Next(cfg, Run(cfg, s, before), Logout(u, jti, cookie)), after);
            Authenticate(end, jti, false, allowEnrolment) == Unauthorized
  {
    var t := Run(cfg, s, before);
    var out := Next(cfg, t, Logout(u, jti, cookie));
    RunsKeepFormed(cfg, s, before);
    RequestMoves(cfg, t, Logout(u, jti, cookie));
    MovesKeepFormed(cfg, t, out);
    RunsKeepRevocation(cfg, out, after, u, out.now, jti);
  }
}
