/** What a client may count on over runs: an undisturbed token is admitted until it expires, and a client that refreshes
    often enough stays logged in until its family expires. */
module ClientPromises {
  import opened Prelude
  import opened Credentials
  import opened CredentialLaws
  import RefreshTokens
  import A = AccessTokens

  // ------------------------------------------------------------------ access tokens

  /** The key of the user is as it was. */
  predicate SameKey(m: map<User, Entry<int>>, m': map<User, Entry<int>>, u: User) {
    (u in m <==> u in m') && (u in m ==> m'[u] == m[u])
  }

  /** The request neither writes a key of the user nor revokes the session. */
  predicate Spares(s: State, n: State, u: User, jti: Jti) {
    && SameKey(s.revokeBefore, n.revokeBefore, u) && SameKey(s.permEpoch, n.permEpoch, u)
    && (jti in s.sessions && s.sessions[jti].revokedAt.None? ==> jti in n.sessions && n.sessions[jti].revokedAt.None?)
  }

  ghost predicate AlwaysSpares(cfg: Config, s: State, requests: seq<Request>, u: User, jti: Jti)
    decreases |requests|
  {
    requests == [] ||
    (&& Spares(s, Next(cfg, s, requests[0]), u, jti)
     && AlwaysSpares(cfg, Next(cfg, s, requests[0]), requests[1..], u, jti))
  }

  /** The session is open and no key of its user reaches back to it. */
  predicate InGoodStanding(s: State, jti: Jti, u: User) {
    && jti in s.tokens && jti in s.sessions && s.tokens[jti].user == s.sessions[jti].user == u
    && s.sessions[jti].revokedAt.None?
    && (u in s.revokeBefore ==> s.revokeBefore[u].value < s.sessions[jti].issuedAt)
    && (u in s.permEpoch ==> s.permEpoch[u].value < s.sessions[jti].issuedAt)
  }

  lemma {:induction false} StandingIsKept(cfg: Config, s: State, requests: seq<Request>, jti: Jti, u: User)
    requires InGoodStanding(s, jti, u) && AlwaysSpares(cfg, s, requests, u, jti)
    ensures InGoodStanding(Run(cfg, s, requests), jti, u) && Run(cfg, s, requests).tokens[jti] == s.tokens[jti]
    decreases |requests|
  {
    if requests != [] {
      A.RequestMoves(cfg, s, requests[0]);
      StandingIsKept(cfg, Next(cfg, s, requests[0]), requests[1..], jti, u);
    }
  }

  /** Which requests can disturb a session: a user-wide revocation, a role replacement, the activation of MFA by an
      account that has to enrol, a logout of the session, and a revocation of the user's other sessions. */
  ghost predicate Disturbs(cfg: Config, s: State, r: Request, u: User, jti: Jti) {
    match r
    case LogoutAll(v) => v == u
    case ResetPassword(v) => v == u
    case Deactivate(v, _) => v == u
    case DisableMfa(v) => v == u
    case ReplaceRoles(v, _, _) => v == u
    case ActivateMfa(v) => v == u && u in s.users && MustEnrol(cfg, s.users[u], s.now)
    case Logout(_, j, _) => j == jti
    case RevokeOtherSessions(v, keep) => v == u && keep != Some(jti)
    case _ => false
  }

  /** Nothing else does. */
  lemma OnlyTheseDisturb(cfg: Config, s: State, r: Request, u: User, jti: Jti)
    requires !Disturbs(cfg, s, r, u, jti) && (jti in s.sessions ==> s.sessions[jti].user == u)
    ensures Spares(s, Next(cfg, s, r), u, jti)
  {
    match r
    case Login(v, ok, ids) => LoginSpares(cfg, s, v, ok, ids, u, jti);
    case CompleteMfa(v, recovery, ids) => MfaSpares(cfg, s, v, recovery, ids, u, jti);
    case Refresh(hash, throttled, j, successor) => RefreshSpares(cfg, s, hash, throttled, j, successor, u, jti);
    case _ => OtherSpares(cfg, s, r, u, jti);
  }

  lemma OtherSpares(cfg: Config, s: State, r: Request, u: User, jti: Jti)
    requires !Disturbs(cfg, s, r, u, jti) && (jti in s.sessions ==> s.sessions[jti].user == u)
    requires !r.Login? && !r.CompleteMfa? && !r.Refresh?
    ensures Spares(s, Next(cfg, s, r), u, jti)
  {
    if r.ActivateMfa? {
      MfaSettingsFollowRules(cfg, s, r.user);
    }
  }

  lemma LoginSpares(cfg: Config, s: State, v: User, ok: bool, ids: Ids, u: User, jti: Jti)
    ensures Spares(s, Next(cfg, s, Login(v, ok, ids)), u, jti)
  {
  }

  lemma MfaSpares(cfg: Config, s: State, v: User, recovery: bool, ids: Ids, u: User, jti: Jti)
    ensures Spares(s, Next(cfg, s, CompleteMfa(v, recovery, ids)), u, jti)
  {
  }

  lemma RefreshSpares(cfg: Config, s: State, hash: Hash, throttled: bool, j: Jti, successor: Hash, u: User, jti: Jti)
    ensures Spares(s, Next(cfg, s, Refresh(hash, throttled, j, successor)), u, jti)
  {
  }

  ghost predicate NeverDisturbed(cfg: Config, s: State, requests: seq<Request>, u: User, jti: Jti)
    decreases |requests|
  {
    requests == [] ||
    (!Disturbs(cfg, s, requests[0], u, jti) && NeverDisturbed(cfg, Next(cfg, s, requests[0]), requests[1..], u, jti))
  }

  lemma {:induction false} UndisturbedIsSpared(cfg: Config, s: State, requests: seq<Request>, u: User, jti: Jti)
    requires InGoodStanding(s, jti, u) && NeverDisturbed(cfg, s, requests, u, jti)
    ensures AlwaysSpares(cfg, s, requests, u, jti)
    decreases |requests|
  {
    if requests != [] {
      OnlyTheseDisturb(cfg, s, requests[0], u, jti);
      A.RequestMoves(cfg, s, requests[0]);
      UndisturbedIsSpared(cfg, Next(cfg, s, requests[0]), requests[1..], u, jti);
    }
  }

  /** A token minted when no key of its user reached back to that instant is admitted for all of its lifetime but the
      last second, on every route its enrolment mark allows, whatever else happens that does not disturb its
      session. */
  lemma UndisturbedTokenIsAdmitted(cfg: Config, s: State, r: Request, after: seq<Request>, jti: Jti, u: User)
    requires jti !in s.tokens && jti in Next(cfg, s, r).tokens && InGoodStanding(Next(cfg, s, r), jti, u)
    requires NeverDisturbed(cfg, Next(cfg, s, r), after, u, jti)
    requires Run(cfg, Next(cfg, s, r), after).now <= Next(cfg, s, r).now + (cfg.accessTtlSeconds - 1) * SECOND
    ensures var n := Next(cfg, s, r); var end := Run(cfg, n, after);
            && Authenticate(end, jti, false, true) == Admitted(u, n.tokens[jti].scopes, n.tokens[jti].enrol)
            && (!n.tokens[jti].enrol ==>
                  Authenticate(end, jti, false, false) == Admitted(u, n.tokens[jti].scopes, false))
  {
    var n := Next(cfg, s, r);
    var end := Run(cfg, n, after);
    NewTokensAreTruthful(cfg, s, r, jti);
    UndisturbedIsSpared(cfg, n, after, u, jti);
    StandingIsKept(cfg, n, after, jti, u);
    AdmissionFollowsRules(end, jti, false, true);
    AdmissionFollowsRules(end, jti, false, false);
  }

  // ------------------------------------------------------------------ refresh families

  /** The tip of a family: a row that can be exchanged, of a user in good standing. */
  predicate Holds(s: State, hash: Hash, u: User) {
    && hash in s.table.rows
    && var r := s.table.rows[hash];
       && r.user == u && r.revokedAt.None? && r.consumedAt.None? && r.issuedAt <= s.now
       && u in s.users && s.users[u].status != Deactivated
       && (u in s.revokeBefore ==> s.revokeBefore[u].value < r.issuedAt)
  }

  /** The request leaves the row, the standing of its user and the user's revocation key alone. */
  predicate LeavesAlone(s: State, n: State, hash: Hash, u: User) {
    && hash in s.table.rows && hash in n.table.rows && n.table.rows[hash] == s.table.rows[hash]
    && u in n.users && n.users[u].status != Deactivated && SameKey(s.revokeBefore, n.revokeBefore, u)
  }

  ghost predicate AlwaysLeavesAlone(cfg: Config, s: State, requests: seq<Request>, hash: Hash, u: User)
    decreases |requests|
  {
    requests == [] ||
    (LeavesAlone(s, Next(cfg, s, requests[0]), hash, u)
     && AlwaysLeavesAlone(cfg, Next(cfg, s, requests[0]), requests[1..], hash, u))
  }

  lemma {:induction false} HoldIsKept(cfg: Config, s: State, requests: seq<Request>, hash: Hash, u: User)
    requires Holds(s, hash, u) && AlwaysLeavesAlone(cfg, s, requests, hash, u)
    ensures Holds(Run(cfg, s, requests), hash, u)
    ensures Run(cfg, s, requests).table.rows[hash] == s.table.rows[hash] && s.now <= Run(cfg, s, requests).now
    decreases |requests|
  {
    if requests != [] {
      A.RequestMoves(cfg, s, requests[0]);
      HoldIsKept(cfg, Next(cfg, s, requests[0]), requests[1..], hash, u);
    }
  }

  /** What happens until the client's next refresh, and the identifiers that refresh draws. */
  datatype Round = Round(gap: seq<Request>, jti: Jti, successor: Hash)

  function AfterRound(cfg: Config, s: State, hash: Hash, r: Round): State {
    Next(cfg, Run(cfg, s, r.gap), Refresh(hash, false, r.jti, r.successor))
  }

  /** The client comes back within fourteen days of its last refresh and before the family expires, and in between
      nobody revokes the family or the user's sessions and the account is not deactivated. */
  ghost predicate RegularRound(cfg: Config, s: State, hash: Hash, u: User, round: Round)
    requires hash in s.table.rows
  {
    var t, r := Run(cfg, s, round.gap), s.table.rows[hash];
    && AlwaysLeavesAlone(cfg, s, round.gap, hash, u)
    && t.now < r.expiresAt
    && t.now <= (if r.lastUsedAt.Some? then r.lastUsedAt.value else r.issuedAt) + DAYS_14
    && round.jti !in t.sessions && round.jti !in t.tokens && round.successor !in t.table.rows
  }

  ghost predicate Regular(cfg: Config, s: State, hash: Hash, u: User, rounds: seq<Round>)
    decreases |rounds|
  {
    rounds == [] ||
    (&& hash in s.table.rows && RegularRound(cfg, s, hash, u, rounds[0])
     && Regular(cfg, AfterRound(cfg, s, hash, rounds[0]), rounds[0].successor, u, rounds[1..]))
  }

  /** Every refresh exchanges the token the client holds for the next one. */
  ghost predicate AlwaysExchanged(cfg: Config, s: State, hash: Hash, rounds: seq<Round>)
    decreases |rounds|
  {
    rounds == [] ||
    (var t := Run(cfg, s, rounds[0].gap);
     && hash in t.table.rows
     && Exchanged(t, AfterRound(cfg, s, hash, rounds[0]), hash, rounds[0].jti, rounds[0].successor)
     && AlwaysExchanged(cfg, AfterRound(cfg, s, hash, rounds[0]), rounds[0].successor, rounds[1..]))
  }

  lemma RoundExchanges(cfg: Config, s: State, hash: Hash, u: User, r: Round)
    requires Holds(s, hash, u) && RegularRound(cfg, s, hash, u, r)
    ensures var t := Run(cfg, s, r.gap);
            hash in t.table.rows && Exchanged(t, AfterRound(cfg, s, hash, r), hash, r.jti, r.successor)
    ensures Holds(AfterRound(cfg, s, hash, r), r.successor, u)
  {
    var t := Run(cfg, s, r.gap);
    HoldIsKept(cfg, s, r.gap, hash, u);
    assert MayRotate(t, hash);
    RefreshFollowsRules(cfg, t, hash, r.jti, r.successor);
  }

  lemma {:induction false} RegularRefresherIsServed(cfg: Config, s: State, hash: Hash, u: User, rounds: seq<Round>)
    requires Holds(s, hash, u) && Regular(cfg, s, hash, u, rounds)
    ensures AlwaysExchanged(cfg, s, hash, rounds)
    decreases |rounds|
  {
    if rounds != [] {
      RoundExchanges(cfg, s, hash, u, rounds[0]);
      RegularRefresherIsServed(cfg, AfterRound(cfg, s, hash, rounds[0]), rounds[0].successor, u, rounds[1..]);
    }
  }

  /** After a login that no revocation has overtaken, a client that refreshes at least every fourteen days is served at
      every refresh until its family expires, whatever else happens that leaves its family, account and key alone. */
  lemma RegularClientStaysLoggedIn(cfg: Config, s: State, u: User, ids: Ids, rounds: seq<Round>)
    requires u in s.users && LetsIn(s.users[u], s.now) && !s.users[u].mfaEnabled && Drawable(cfg, s, u, ids)
    requires u in s.revokeBefore ==> s.revokeBefore[u].value < s.now
    requires Regular(cfg, Next(cfg, s, Login(u, true, ids)), ids.hash, u, rounds)
    ensures AlwaysExchanged(cfg, Next(cfg, s, Login(u, true, ids)), ids.hash, rounds)
  {
    LoginFollowsRules(cfg, s, u, true, ids);
    RegularRefresherIsServed(cfg, Next(cfg, s, Login(u, true, ids)), ids.hash, u, rounds);
  }
}
