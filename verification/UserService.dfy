/** The step-by-step service methods that change credentials, each proved to perform the step of the state machine. */
module UserService {
  import opened Prelude
  import opened Credentials
  import opened CredentialLaws
  import RefreshTokens
  import SessionFamilies
  import LastAdmin
  import AccessTokens

  /** `_resolve_enrollment_scoping`: whether the next token is scoped to enrolment, else the deadline that is
      running. */
  method ResolveEnrolmentScoping(cfg: Config, a: Account, now: int) returns (scoped: bool, deadline: Option<int>)
    ensures scoped <==> MustEnrol(cfg, a, now)
    ensures scoped <==> NeedsEnrolment(cfg, a, now)
    ensures deadline.Some? <==> !scoped && !a.mfaEnabled && Privileged(a)
    ensures deadline.Some? ==> now < deadline.value
    ensures deadline.Some? ==>
        exists role :: role in a.grants && role in PRIVILEGED && a.grants[role] + cfg.Grace() == deadline.value
    ensures deadline.Some? ==> forall role :: role in a.grants && role in PRIVILEGED ==>
        deadline.value <= a.grants[role] + cfg.Grace()
  {
    NeedFollowsRules(cfg, a, now);
    if a.reenrol {
      return true, None;
    }
    if a.mfaEnabled {
      return false, None;
    }
    var earliest: Option<int> := None;
    var rest := a.grants.Keys;
    while rest != {}
      invariant rest <= a.grants.Keys
      invariant earliest.None? ==> forall role :: role in a.grants.Keys - rest ==> role !in PRIVILEGED
      invariant earliest.Some? ==>
        exists role :: role in a.grants && role in PRIVILEGED && a.grants[role] + cfg.Grace() == earliest.value
      invariant earliest.Some? ==>
        forall role :: role in a.grants.Keys - rest && role in PRIVILEGED ==>
            earliest.value <= a.grants[role] + cfg.Grace()
      decreases |rest|
    {
      var role :| role in rest;
      rest := rest - {role};
      if role in PRIVILEGED && (earliest.None? || a.grants[role] + cfg.Grace() < earliest.value) {
        earliest := Some(a.grants[role] + cfg.Grace());
      }
    }
    if earliest.None? {
      return false, None;
    }
    ghost var first :| first in a.grants && first in PRIVILEGED && a.grants[first] + cfg.Grace() == earliest.value;
    if now >= earliest.value {
      assert Overdue(cfg, a, first, now);
      return true, None;
    }
    return false, earliest;
  }

  predicate LiveFor(t: RefreshTokens.Table, u: User, now: int, h: Hash) {
    h in t.rows && t.rows[h].user == u && RefreshTokens.LiveRow(t.rows[h], now)
  }

  /** `get_family_created_at_map_for_user`: `MIN(issued_at)` over the user's live rows, grouped by family. */
  method FamilyCreatedAtMap(t: RefreshTokens.Table, u: User, now: int) returns (created: map<Family, int>)
    ensures created.Keys == LiveFamilies(t, u, now)
    ensures forall h :: LiveFor(t, u, now, h) ==>
        t.rows[h].family in created && created[t.rows[h].family] <= t.rows[h].issuedAt
    ensures forall f :: f in created ==>
        exists h :: LiveFor(t, u, now, h) && t.rows[h].family == f && t.rows[h].issuedAt == created[f]
  {
    created := map[];
    var rest := t.rows.Keys;
    while rest != {}
      invariant rest <= t.rows.Keys
      invariant forall h :: h !in rest && LiveFor(t, u, now, h) ==>
        t.rows[h].family in created && created[t.rows[h].family] <= t.rows[h].issuedAt
      invariant forall f :: f in created ==>
        exists h :: LiveFor(t, u, now, h) && t.rows[h].family == f && t.rows[h].issuedAt == created[f]
      decreases |rest|
    {
      var h :| h in rest;
      rest := rest - {h};
      var r := t.rows[h];
      if r.user == u && RefreshTokens.LiveRow(r, now) && (r.family !in created || r.issuedAt < created[r.family]) {
        assert LiveFor(t, u, now, h);
        created := created[r.family := r.issuedAt];
      }
    }
  }

  /** `min(family_created_at, key=...)`: the family with the least creation time. */
  method OldestFamily(created: map<Family, int>) returns (oldest: Family)
    requires created != map[]
    ensures oldest in created && forall f :: f in created ==> created[oldest] <= created[f]
  {
    oldest :| oldest in created;
    var rest := created.Keys;
    while rest != {}
      invariant oldest in created && rest <= created.Keys
      invariant forall f :: f in created && f !in rest ==> created[oldest] <= created[f]
      decreases |rest|
    {
      var f :| f in rest;
      rest := rest - {f};
      if created[f] < created[oldest] {
        oldest := f;
      }
    }
  }

  /** The insertion loop of `replace_for_user`. */
  method GrantEach(requested: seq<string>, now: int) returns (granted: map<string, int>)
    ensures granted == map role | role in LastAdmin.Names(requested) :: now
  {
    granted := map[];
    for i := 0 to |requested|
      invariant granted == map role | role in requested[..i] :: now
    {
      granted := granted[requested[i] := now];
    }
  }

  /** The family with the least entry holds a live row no younger than any other. */
  lemma LeastIsOldest(t: RefreshTokens.Table, u: User, now: int, created: map<Family, int>, oldest: Family)
    requires oldest in created && forall f :: f in created ==> created[oldest] <= created[f]
    requires forall h :: LiveFor(t, u, now, h) ==>
               t.rows[h].family in created && created[t.rows[h].family] <= t.rows[h].issuedAt
    requires exists h :: LiveFor(t, u, now, h) && t.rows[h].family == oldest && t.rows[h].issuedAt == created[oldest]
    ensures Oldest(t, u, now, oldest)
  {
    var h :| LiveFor(t, u, now, h) && t.rows[h].family == oldest && t.rows[h].issuedAt == created[oldest];
    forall k | k in t.rows && t.rows[k].user == u && RefreshTokens.LiveRow(t.rows[k], now)
      ensures t.rows[h].issuedAt <= t.rows[k].issuedAt
    {
      assert LiveFor(t, u, now, k);
    }
  }

  datatype RefreshOutcome = TokenInvalid | TooManyAttempts | Rotated
  datatype RevokeOutcome = CurrentSession | SessionNotFound | Revoked(audited: bool)

  // ------------------------------------------------------------------ what every call keeps

  /** The lifetimes the deployment has to respect; the defaults do. */
  predicate Sane(cfg: Config) {
    cfg.AccessTtl() <= cfg.EpochTtl() && cfg.AccessTtl() <= cfg.RefreshTtl() && cfg.maxLiveFamilies > 0
  }

  /** Tokens tell the truth or are hidden, families are chains that live and die whole, nobody exceeds the cap. */
  ghost predicate Trustworthy(cfg: Config, s: State) {
    Sane(cfg) && AccessTokens.TokensHonest(cfg, s) && SessionFamilies.Good(cfg, s)
  }

  lemma RequestKeepsTrust(cfg: Config, s: State, r: Request)
    requires Trustworthy(cfg, s)
    ensures Trustworthy(cfg, Next(cfg, s, r))
  {
    AccessTokens.RequestMoves(cfg, s, r);
    AccessTokens.MovesKeepHonest(cfg, s, Next(cfg, s, r));
    SessionFamilies.RequestKeepsGood(cfg, s, r);
  }

  lemma TimeKeepsTrust(cfg: Config, s: State, now: int)
    requires Trustworthy(cfg, s) && s.now <= now
    ensures Trustworthy(cfg, s.(now := now))
  {
    RequestKeepsTrust(cfg, s, Tick(now - s.now));
  }

  lemma CallKeepsTrust(cfg: Config, s: State, now: int, r: Request)
    requires Trustworthy(cfg, s) && s.now <= now
    ensures Trustworthy(cfg, s.(now := now)) && Trustworthy(cfg, Next(cfg, s.(now := now), r))
  {
    TimeKeepsTrust(cfg, s, now);
    RequestKeepsTrust(cfg, s.(now := now), r);
  }

  /** A revocation key written now hides everything the user holds. */
  lemma RevokedAtOnce(cfg: Config, s: State, u: User)
    requires Trustworthy(cfg, s) && u in s.revokeBefore && s.revokeBefore[u] == Entry(s.now, s.now + cfg.RefreshTtl())
    ensures forall j, revoked, enrolment :: j in s.tokens && s.tokens[j].user == u ==>
              Authenticate(s, j, revoked, enrolment) == Unauthorized
    ensures forall h :: h in s.table.rows && s.table.rows[h].user == u ==> Judged(s, h) != RefreshTokens.Proceed
  {
    forall j, revoked, enrolment | j in s.tokens && s.tokens[j].user == u
      ensures Authenticate(s, j, revoked, enrolment) == Unauthorized
    {
      assert AccessTokens.WellMinted(cfg, s, j);
    }
    forall h | h in s.table.rows && s.table.rows[h].user == u ensures Judged(s, h) != RefreshTokens.Proceed {
      assert SessionFamilies.LikeRoot(s.table, h, cfg.RefreshTtl()) && RefreshTokens.RowSound(s.table, h);
    }
  }

  /** Once an account has nothing to enrol for, none of its tokens is held to enrolment. */
  lemma NothingToEnrolFor(cfg: Config, s: State, u: User)
    requires Trustworthy(cfg, s) && (u in s.users ==> !NeedsEnrolment(cfg, s.users[u], s.now))
    ensures forall j, revoked :: j in s.tokens && s.tokens[j].user == u ==>
              Authenticate(s, j, revoked, false) != EnrolmentRequired
  {
    forall j, revoked | j in s.tokens && s.tokens[j].user == u
      ensures Authenticate(s, j, revoked, false) != EnrolmentRequired
    {
      AccessTokens.HonestAdmission(cfg, s, j, revoked, false);
      assert AccessTokens.WellMinted(cfg, s, j);
    }
  }

  /** What a logout leaves behind. */
  lemma LoggedOutAtOnce(s: State, u: User, jti: Jti, cookie: Option<Hash>)
    ensures var n := LoggedOut(s, u, jti, cookie); var family := CookieFamily(s.table, u, cookie);
            && (forall enrolment :: Authenticate(n, jti, false, enrolment) == Unauthorized)
            && (family.Some? ==> !RefreshTokens.FamilyLive(n.table, family.value, s.now))
            && (forall j :: j in s.sessions && j != jti ==> j in n.sessions && n.sessions[j] == s.sessions[j])
  {
  }

  predicate OwnLiveRow(t: RefreshTokens.Table, u: User, f: Family, now: int, h: Hash) {
    && h in t.rows && t.rows[h].family == f && t.rows[h].user == u
    && t.rows[h].revokedAt.None? && now < t.rows[h].expiresAt
  }

  /** Any row of a family the user owns tells whether the family is live. */
  lemma AnyRowAnswers(cfg: Config, t: RefreshTokens.Table, u: User, f: Family, now: int, h: Hash)
    requires SessionFamilies.FamiliesSound(cfg, t, now)
    requires h in t.rows && t.rows[h].family == f && t.rows[h].user == u
    ensures (t.rows[h].revokedAt.None? && t.rows[h].expiresAt > now) <==> exists k :: OwnLiveRow(t, u, f, now, k)
  {
    assert RefreshTokens.LiveRow(t.rows[h], now) ==> OwnLiveRow(t, u, f, now, h);
    forall k | k in t.rows && t.rows[k].family == f
      ensures RefreshTokens.LiveRow(t.rows[k], now) <==> RefreshTokens.LiveRow(t.rows[h], now)
    {
      SessionFamilies.LiveTogether(cfg, t, now, now, k, h);
    }
  }

  lemma InitialIsTrustworthy(cfg: Config, s: State)
    requires Initial(s) && Sane(cfg)
    ensures Trustworthy(cfg, s)
  {
    SessionFamilies.InitialIsGood(cfg, s);
  }

  class UserService {
    const cfg: Config
    var users: map<User, Account>
    var sessions: map<Jti, Session>
    var tokens: map<Jti, Claims>
    var table: RefreshTokens.Table
    var revokeBefore: map<User, Entry<int>>
    var permEpoch: map<User, Entry<int>>

    /** When the last call happened; the clock never runs backwards. */
    ghost var clock: int

    ghost predicate Valid()
      reads this
    {
      Trustworthy(cfg, StateAt(clock))
    }

    constructor (cfg: Config, users: map<User, Account>, now: int)
      requires Sane(cfg)
      ensures Valid() && this.cfg == cfg && this.users == users && clock == now && Initial(StateAt(now))
    {
      this.cfg := cfg;
      this.users := users;
      sessions, tokens, table, revokeBefore, permEpoch := map[], map[], RefreshTokens.EMPTY, map[], map[];
      clock := now;
      new;
      InitialIsTrustworthy(cfg, StateAt(now));
    }

    function StateAt(now: int): State
      reads this
    {
      State(now, users, sessions, tokens, table, revokeBefore, permEpoch)
    }

    predicate Unused(jti: Jti, hash: Hash)
      reads this
    {
      jti !in sessions && jti !in tokens && hash !in table.rows
    }

    /** Whoever is admitted is a known user with the scopes the role tables give it now, and whoever is held to
        enrolment has to enrol now. */
    method GetAuthenticatedUser(jti: Jti, allowRevoked: bool, allowEnrolment: bool, now: int) returns (r: Admission)
      requires Valid() && clock <= now
      ensures AdmissionRules(StateAt(now), jti, allowRevoked, allowEnrolment, r)
      ensures r.Admitted? && !allowEnrolment ==> jti in tokens && !tokens[jti].enrol
      ensures r == Authenticate(StateAt(now), jti, allowRevoked, allowEnrolment)
      ensures r.Admitted? ==> r.user in users && r.scopes == Scopes(cfg, users[r.user])
      ensures r.EnrolmentRequired? || (r.Admitted? && r.enrol) ==>
              jti in tokens && tokens[jti].user in users && NeedsEnrolment(cfg, users[tokens[jti].user], now)
    {
      TimeKeepsTrust(cfg, StateAt(clock), now);
      AccessTokens.HonestAdmission(cfg, StateAt(now), jti, allowRevoked, allowEnrolment);
      AdmissionFollowsRules(StateAt(now), jti, allowRevoked, allowEnrolment);
      if jti !in tokens || tokens[jti].exp <= now {
        return Unauthorized;
      }
      var claims := tokens[jti];
      if jti !in sessions {
        return Unauthorized;
      }
      var session := sessions[jti];
      if session.revokedAt.Some? && !allowRevoked {
        return Unauthorized;
      }
      if session.user != claims.user {
        return Unauthorized;
      }
      var revoked := Lookup(revokeBefore, claims.user, now);
      if revoked.Some? && session.issuedAt <= revoked.value {
        return Unauthorized;
      }
      var epoch := Lookup(permEpoch, claims.user, now);
      if epoch.Some? && session.issuedAt <= epoch.value {
        return TokenStale;
      }
      if claims.enrol && !allowEnrolment {
        return EnrolmentRequired;
      }
      return Admitted(claims.user, claims.scopes, claims.enrol);
    }

    method Mint(u: User, jti: Jti, now: int)
      requires u in users
      modifies this
      ensures StateAt(now) == Minted(cfg, old(StateAt(now)), u, jti) && clock == old(clock)
    {
      sessions := sessions[jti := Session(u, now, None)];
      var scoped, _ := ResolveEnrolmentScoping(cfg, users[u], now);
      tokens := tokens[jti := Claims(u, WholeSecond(now + cfg.AccessTtl()), Scopes(cfg, users[u]), scoped)];
    }

    /** Whether the user is at the cap, and then an oldest live family. */
    method PickVictim(u: User, now: int) returns (victim: Option<Family>)
      requires cfg.maxLiveFamilies > 0
      ensures victim.Some? <==> AtCap(cfg, table, u, now)
      ensures victim.Some? ==> Oldest(table, u, now, victim.value)
    {
      var created := FamilyCreatedAtMap(table, u, now);
      assert |created.Keys| == |created|;
      if |created| < cfg.maxLiveFamilies {
        return None;
      }
      var oldest := OldestFamily(created);
      LeastIsOldest(table, u, now, created, oldest);
      return Some(oldest);
    }

    method EvictOldestFamilyIfAtCap(u: User, now: int) returns (victim: Family)
      requires cfg.maxLiveFamilies > 0
      modifies this
      ensures StateAt(now) == old(StateAt(now)).(table := Evicted(cfg, old(table), u, now, victim))
      ensures AtCap(cfg, old(table), u, now) ==> Oldest(old(table), u, now, victim)
      ensures table.rows.Keys == old(table).rows.Keys && MadeRoom(cfg, old(StateAt(now)), table.rows, u, victim)
      ensures clock == old(clock)
    {
      var oldest := PickVictim(u, now);
      victim := if oldest.Some? then oldest.value else 0;
      EvictionFollowsRules(cfg, StateAt(now), u, victim);
      if oldest.Some? {
        table := RefreshTokens.FamilyRevoked(table, victim, now);
      }
    }

    /** The success path of `authenticate_user` and of `_complete_mfa_login`. */
    method OpenSession(u: User, jti: Jti, hash: Hash, family: Family, now: int) returns (ids: Ids)
      requires u in users && Unused(jti, hash) && family !in table.lineage && cfg.maxLiveFamilies > 0
      modifies this
      ensures ids.jti == jti && ids.hash == hash && ids.family == family
      ensures Drawable(cfg, old(StateAt(now)), u, ids)
      ensures StateAt(now) == Opened(cfg, old(StateAt(now)), u, ids) && clock == old(clock)
    {
      var victim := EvictOldestFamilyIfAtCap(u, now);
      ids := Ids(jti, hash, family, victim);
      table := RefreshTokens.Created(table, hash, family, u, now, now + cfg.RefreshTtl(), None);
      Mint(u, jti, now);
    }

    /** The account gates behind a correct password. Whoever passes is not deactivated, with the same scopes and the
        same need to enrol as before; nothing but that account moves, and a refusal moves nothing. */
    method Admit(u: User, now: int) returns (admitted: bool)
      requires u in users
      modifies this
      ensures admitted ==> u in users && users[u].status != Deactivated
      ensures u in users && Scopes(cfg, users[u]) == Scopes(cfg, old(users)[u])
      ensures NeedsEnrolment(cfg, users[u], now) <==> NeedsEnrolment(cfg, old(users)[u], now)
      ensures forall v :: v in old(users) && v != u ==> v in users && users[v] == old(users)[v]
      ensures !admitted ==> StateAt(now) == old(StateAt(now))
      ensures admitted <==> LetsIn(old(users)[u], now)
      ensures admitted <==> Admissible(old(users)[u], now).Some?
      ensures clock == old(clock)
      ensures StateAt(now) == old(StateAt(now)).(users :=
                if admitted then old(users)[u := Admissible(old(users)[u], now).value] else old(users))
    {
      if users[u].status == Deactivated {
        if users[u].deactivatedAt.None? || users[u].deactivatedAt.value <= now - REACTIVATION_GRACE {
          return false;
        }
        users := users[u := users[u].(status := Active, deactivatedAt := None)];
        return true;
      }
      assert users[u := users[u]] == users;
      return users[u].emailVerified;
    }

    method AuthenticateUser(u: User, passwordOk: bool, jti: Jti, hash: Hash, family: Family, now: int)
      returns (ids: Ids)
      requires Valid() && clock <= now && Unused(jti, hash) && family !in table.lineage
      modifies this
      ensures Valid() && clock == now && ids.jti == jti && ids.hash == hash && ids.family == family
      ensures StateAt(now) == Next(cfg, old(StateAt(now)), Login(u, passwordOk, ids))
      ensures jti in sessions <==>
              passwordOk && u in old(users) && LetsIn(old(users)[u], now) && !old(users)[u].mfaEnabled
      ensures jti in sessions ==> OpensSession(cfg, old(StateAt(now)), StateAt(now), u, ids)
    {
      ids := Ids(jti, hash, family, 0);
      ghost var before := StateAt(now);
      CallKeepsTrust(cfg, StateAt(clock), now, Login(u, passwordOk, ids));
      clock := now;
      if u !in users || !passwordOk {
        return;
      }
      var admitted := Admit(u, now);
      if !admitted || users[u].mfaEnabled {
        return;
      }
      ids := OpenSession(u, jti, hash, family, now);
      LoginFollowsRules(cfg, before, u, passwordOk, ids);
      RequestKeepsTrust(cfg, before, Login(u, passwordOk, ids));
    }

    method CompleteMfaLogin(u: User, recovery: bool, jti: Jti, hash: Hash, family: Family, now: int) returns (ids: Ids)
      requires Valid() && clock <= now && Unused(jti, hash) && family !in table.lineage
      modifies this
      ensures Valid() && clock == now && ids.jti == jti && ids.hash == hash && ids.family == family
      ensures StateAt(now) == Next(cfg, old(StateAt(now)), CompleteMfa(u, recovery, ids))
      ensures u in old(users) ==>
              && OpensSession(cfg, old(StateAt(now)), StateAt(now), u, ids)
              && users == old(users)[u := old(users)[u].(reenrol := old(users)[u].reenrol || recovery)]
              && (recovery ==> tokens[jti].enrol)
    {
      ghost var before := StateAt(now);
      TimeKeepsTrust(cfg, StateAt(clock), now);
      ids := MarkAndOpen(u, recovery, jti, hash, family, now);
      clock := now;
      if u in before.users {
        MfaLoginFollowsRules(cfg, before, u, recovery, ids);
      }
      RequestKeepsTrust(cfg, before, CompleteMfa(u, recovery, ids));
    }

    /** A recovery code marks the account before the token is minted. */
    method MarkAndOpen(u: User, recovery: bool, jti: Jti, hash: Hash, family: Family, now: int) returns (ids: Ids)
      requires Unused(jti, hash) && family !in table.lineage && cfg.maxLiveFamilies > 0
      modifies this
      ensures clock == old(clock) && ids.jti == jti && ids.hash == hash && ids.family == family
      ensures u in old(users) ==> Drawable(cfg, old(StateAt(now)), u, ids)
      ensures StateAt(now) == Next(cfg, old(StateAt(now)), CompleteMfa(u, recovery, ids))
    {
      ids := Ids(jti, hash, family, 0);
      if u !in users {
        return;
      }
      if recovery {
        users := users[u := users[u].(reenrol := true)];
      } else {
        assert users[u := users[u]] == users;
      }
      ids := OpenSession(u, jti, hash, family, now);
    }

    /** The family of a consumed token survives its presentation exactly within the grace window. */
    method HandleReuseOrRace(hash: Hash, now: int)
      requires hash in table.rows && table.rows[hash].consumedAt.Some? && RefreshTokens.LiveRow(table.rows[hash], now)
      modifies this
      ensures RefreshTokens.FamilyLive(table, old(table).rows[hash].family, now)
              <==> now <= old(table).rows[hash].consumedAt.value + RefreshTokens.GRACE_WINDOW
      ensures clock == old(clock)
      ensures StateAt(now) == old(StateAt(now)).(table :=
                if now <= old(table).rows[hash].consumedAt.value + RefreshTokens.GRACE_WINDOW then old(table)
                else RefreshTokens.FamilyRevoked(old(table), old(table).rows[hash].family, now))
    {
      if now - table.rows[hash].consumedAt.value <= RefreshTokens.GRACE_WINDOW {
        return;
      }
      table := RefreshTokens.FamilyRevoked(table, table.rows[hash].family, now);
    }

    /** The atomic consume, the successor that inherits family, user and expiry, and the new session. */
    method ConsumeAndRotate(hash: Hash, jti: Jti, successor: Hash, now: int)
      requires hash in table.rows && table.rows[hash].consumedAt.None? && table.rows[hash].user in users
      modifies this
      ensures clock == old(clock)
      ensures StateAt(now) ==
              Minted(cfg, old(StateAt(now)).(table := RefreshTokens.Rotated(old(table), hash, successor, now)),
                     old(table).rows[hash].user, jti)
    {
      var existing := table.rows[hash];
      var consumed := RefreshTokens.Consumed(table, hash, now);
      table := consumed.value;
      table := table.(rotations := table.rotations + {(hash, successor)});
      var expiresAt := existing.expiresAt;
      table := RefreshTokens.Created(table, successor, existing.family, existing.user, now, expiresAt, Some(now));
      Mint(existing.user, jti, now);
    }

    /** The checks after the token itself: account, user-wide revocation, idle timeout. */
    method EligibleToRotate(hash: Hash, now: int) returns (eligible: bool)
      requires hash in table.rows && RefreshTokens.LiveRow(table.rows[hash], now) && table.rows[hash].consumedAt.None?
      ensures var r := table.rows[hash];
              eligible <==>
                && r.user in users && users[r.user].status != Deactivated
                && !(r.user in revokeBefore && now < revokeBefore[r.user].expiresAt
                     && r.issuedAt <= revokeBefore[r.user].value)
                && now - (if r.lastUsedAt.Some? then r.lastUsedAt.value else r.issuedAt) <= DAYS_14
      ensures Judged(StateAt(now), hash) == if eligible then RefreshTokens.Proceed else RefreshTokens.Invalid
    {
      var existing := table.rows[hash];
      if existing.user !in users || users[existing.user].status == Deactivated {
        return false;
      }
      var revoked := Lookup(revokeBefore, existing.user, now);
      if revoked.Some? && existing.issuedAt <= revoked.value {
        return false;
      }
      var lastUsed := if existing.lastUsedAt.Some? then existing.lastUsedAt.value else existing.issuedAt;
      return now - lastUsed <= RefreshTokens.IDLE_TIMEOUT;
    }

    method RotateRefreshToken(cookie: Option<Hash>, throttled: bool, jti: Jti, successor: Hash, now: int)
      returns (outcome: RefreshOutcome)
      requires Valid() && clock <= now && Unused(jti, successor)
      modifies this
      ensures Valid() && clock == now
      ensures cookie.None? ==> outcome == TokenInvalid && StateAt(now) == old(StateAt(now))
      ensures cookie.Some? ==>
              StateAt(now) == Next(cfg, old(StateAt(now)), Refresh(cookie.value, throttled, jti, successor))
      ensures outcome == Rotated <==> cookie.Some? && !throttled && MayRotate(old(StateAt(now)), cookie.value)
      ensures outcome == TooManyAttempts <==> cookie.Some? && cookie.value in old(table).rows && throttled
      ensures outcome == Rotated ==> Exchanged(old(StateAt(now)), StateAt(now), cookie.value, jti, successor)
    {
      ghost var before := StateAt(now);
      if cookie.Some? {
        RefreshFollowsRules(cfg, before, cookie.value, jti, successor);
        if cookie.value in table.rows { JudgementFollowsRules(before, cookie.value); }
      }
      CallKeepsTrust(cfg, StateAt(clock), now,
                     if cookie.Some? then Refresh(cookie.value, throttled, jti, successor) else Tick(0));
      clock := now;
      outcome := CheckAndRotate(cookie, throttled, jti, successor, now);
    }

    /** The body of `rotate_refresh_token`, check by check. */
    method CheckAndRotate(cookie: Option<Hash>, throttled: bool, jti: Jti, successor: Hash, now: int)
      returns (outcome: RefreshOutcome)
      requires Unused(jti, successor)
      modifies this
      ensures clock == old(clock)
      ensures cookie.None? ==> outcome == TokenInvalid && StateAt(now) == old(StateAt(now))
      ensures cookie.Some? ==>
              StateAt(now) == Next(cfg, old(StateAt(now)), Refresh(cookie.value, throttled, jti, successor))
      ensures outcome == Rotated <==>
              && cookie.Some? && cookie.value in old(table).rows && !throttled
              && Judged(old(StateAt(now)), cookie.value).Proceed?
      ensures outcome == TooManyAttempts <==> cookie.Some? && cookie.value in old(table).rows && throttled
    {
      if cookie.None? || cookie.value !in table.rows {
        return TokenInvalid;
      }
      if throttled {
        return TooManyAttempts;
      }
      var hash := cookie.value;
      var existing := table.rows[hash];
      if existing.expiresAt <= now || existing.revokedAt.Some? {
        return TokenInvalid;
      }
      if existing.consumedAt.Some? {
        HandleReuseOrRace(hash, now);
        return TokenInvalid;
      }
      var eligible := EligibleToRotate(hash, now);
      if !eligible {
        return TokenInvalid;
      }
      ConsumeAndRotate(hash, jti, successor, now);
      return Rotated;
    }

    /** Afterwards no route but logout admits the session, the family of the caller's own cookie is dead, and nothing of
        anybody else has moved, whoever's cookie it was. */
    method Logout(u: User, jti: Jti, cookie: Option<Hash>, now: int)
      requires Valid() && clock <= now
      modifies this
      ensures Valid() && clock == now && StateAt(now) == Next(cfg, old(StateAt(now)), Request.Logout(u, jti, cookie))
      ensures forall enrolment :: Authenticate(StateAt(now), jti, false, enrolment) == Unauthorized
      ensures CookieFamily(old(table), u, cookie).Some? ==>
              !RefreshTokens.FamilyLive(table, CookieFamily(old(table), u, cookie).value, now)
      ensures forall j :: j in old(sessions) && j != jti ==> j in sessions && sessions[j] == old(sessions)[j]
      ensures OthersUntouched(old(StateAt(now)), StateAt(now), u)
    {
      CallKeepsTrust(cfg, StateAt(clock), now, Request.Logout(u, jti, cookie));
      LoggedOutAtOnce(StateAt(now), u, jti, cookie);
      LogoutFollowsRules(cfg, StateAt(now), u, jti, cookie);
      clock := now;
      RevokeSessionAndFamily(u, jti, cookie, now);
    }

    /** The body of `logout`. */
    method RevokeSessionAndFamily(u: User, jti: Jti, cookie: Option<Hash>, now: int)
      modifies this
      ensures clock == old(clock) && StateAt(now) == Next(cfg, old(StateAt(now)), Request.Logout(u, jti, cookie))
    {
      if jti in sessions {
        sessions := sessions[jti := sessions[jti].(revokedAt := Some(now))];
      }
      if cookie.Some? && cookie.value in table.rows && table.rows[cookie.value].user == u {
        table := RefreshTokens.FamilyRevoked(table, table.rows[cookie.value].family, now);
      }
    }

    /** Afterwards no route admits any token of the user, and none of its refresh tokens rotates; nobody else is
        touched. */
    method LogoutAll(u: User, now: int)
      requires Valid() && clock <= now
      modifies this
      ensures Valid() && clock == now && StateAt(now) == Next(cfg, old(StateAt(now)), Request.LogoutAll(u))
      ensures forall j, revoked, enrolment :: j in tokens && tokens[j].user == u ==>
                Authenticate(StateAt(now), j, revoked, enrolment) == Unauthorized
      ensures forall h :: h in table.rows && table.rows[h].user == u ==>
          Judged(StateAt(now), h) != RefreshTokens.Proceed
      ensures forall j, revoked, enrolment :: j in tokens && tokens[j].user != u ==>
                Authenticate(StateAt(now), j, revoked, enrolment)
                == old(Authenticate(StateAt(now), j, revoked, enrolment))
    {
      CallKeepsTrust(cfg, StateAt(clock), now, Request.LogoutAll(u));
      clock := now;
      revokeBefore := revokeBefore[u := Entry(now, now + cfg.RefreshTtl())];
      RevokedAtOnce(cfg, StateAt(now), u);
    }

    /** `get_any_refresh_token_for_family`: some row of the family, whichever the database returns first. */
    method AnyRow(u: User, f: Family) returns (h: Option<Hash>)
      ensures h.Some? <==> OwnsFamily(table, u, f)
      ensures h.Some? ==> h.value in table.rows && table.rows[h.value].family == f && table.rows[h.value].user == u
    {
      var owned := set k | k in table.rows && table.rows[k].family == f && table.rows[k].user == u;
      if owned == {} {
        assert forall k :: k in table.rows && table.rows[k].family == f && table.rows[k].user == u ==> k in owned;
        return None;
      }
      var k :| k in owned;
      return Some(k);
    }

    /** Whichever row answers, the audit entry is written exactly when the family was live. */
    method RevokeSession(u: User, f: Family, cookie: Option<Hash>, now: int) returns (outcome: RevokeOutcome)
      requires Valid() && clock <= now
      modifies this
      ensures Valid() && clock == now && StateAt(now) == Next(cfg, old(StateAt(now)), RevokeFamily(u, f, cookie))
      ensures outcome == CurrentSession <==> CookieFamily(old(table), u, cookie) == Some(f)
      ensures outcome == SessionNotFound <==> outcome != CurrentSession && !OwnsFamily(old(table), u, f)
      ensures outcome.Revoked? ==>
              (outcome.audited <==> exists h :: OwnLiveRow(old(table), u, f, now, h))
      ensures OthersUntouched(old(StateAt(now)), StateAt(now), u)
    {
      CallKeepsTrust(cfg, StateAt(clock), now, RevokeFamily(u, f, cookie));
      RevokeFamilyFollowsRules(cfg, StateAt(now), u, f, cookie);
      clock := now;
      outcome := RevokeOwned(u, f, cookie, now);
    }

    /** The body of `revoke_session`. */
    method RevokeOwned(u: User, f: Family, cookie: Option<Hash>, now: int) returns (outcome: RevokeOutcome)
      requires SessionFamilies.FamiliesSound(cfg, table, now)
      modifies this
      ensures clock == old(clock) && StateAt(now) == Next(cfg, old(StateAt(now)), RevokeFamily(u, f, cookie))
      ensures outcome == CurrentSession <==> CookieFamily(old(table), u, cookie) == Some(f)
      ensures outcome == SessionNotFound <==> outcome != CurrentSession && !OwnsFamily(old(table), u, f)
      ensures outcome.Revoked? ==>
              (outcome.audited <==> exists h :: OwnLiveRow(old(table), u, f, now, h))
    {
      var current: Option<Family> := None;
      if cookie.Some? && cookie.value in table.rows && table.rows[cookie.value].user == u {
        current := Some(table.rows[cookie.value].family);
      }
      if current == Some(f) {
        return CurrentSession;
      }
      var row := AnyRow(u, f);
      if row.None? {
        return SessionNotFound;
      }
      AnyRowAnswers(cfg, table, u, f, now, row.value);
      var wasLive := table.rows[row.value].revokedAt.None? && table.rows[row.value].expiresAt > now;
      table := RefreshTokens.FamilyRevoked(table, f, now);
      return Revoked(wasLive);
    }

    /** Afterwards the account has nothing to enrol for, and no token of it is held to enrolment. */
    method ActivateMfa(u: User, now: int)
      requires Valid() && clock <= now
      modifies this
      ensures Valid() && clock == now && StateAt(now) == Next(cfg, old(StateAt(now)), Request.ActivateMfa(u))
      ensures u in users ==> users[u].mfaEnabled && !users[u].reenrol && !MustEnrol(cfg, users[u], now)
      ensures u in old(users) && !MustEnrol(cfg, old(users)[u], now) ==> permEpoch == old(permEpoch)
      ensures forall j, revoked :: j in tokens && tokens[j].user == u ==>
                Authenticate(StateAt(now), j, revoked, false) != EnrolmentRequired
    {
      CallKeepsTrust(cfg, StateAt(clock), now, Request.ActivateMfa(u));
      MfaSettingsFollowRules(cfg, StateAt(now), u);
      clock := now;
      EnableMfa(u, now);
      if u in users {
        NeedFollowsRules(cfg, users[u], now);
      }
      NothingToEnrolFor(cfg, StateAt(now), u);
    }

    /** The body of `activate_mfa`: whether the account was scoped is asked before the flags change. */
    method EnableMfa(u: User, now: int)
      modifies this
      ensures clock == old(clock) && StateAt(now) == Next(cfg, old(StateAt(now)), Request.ActivateMfa(u))
    {
      if u in users {
        var wasScoped, _ := ResolveEnrolmentScoping(cfg, users[u], now);
        users := users[u := users[u].(mfaEnabled := true, reenrol := false)];
        if wasScoped {
          permEpoch := permEpoch[u := Entry(now, now + cfg.EpochTtl())];
        }
      }
    }

    method DisableMfa(u: User, now: int) returns (disabled: bool)
      requires Valid() && clock <= now
      modifies this
      ensures Valid() && clock == now && StateAt(now) == Next(cfg, old(StateAt(now)), Request.DisableMfa(u))
      ensures disabled <==> u in old(users) && forall role :: role in old(users)[u].grants ==> role !in PRIVILEGED
    {
      CallKeepsTrust(cfg, StateAt(clock), now, Request.DisableMfa(u));
      clock := now;
      if u !in users || Privileged(users[u]) {
        return false;
      }
      users := users[u := users[u].(mfaEnabled := false, reenrol := false)];
      revokeBefore := revokeBefore[u := Entry(now, now + cfg.RefreshTtl())];
      return true;
    }

    /** Self-service deactivation and an administrator's: allowed for a verified and for an active account, and at once
        no token of the user is admitted and none of its refresh tokens rotates. */
    method DeactivateAccount(u: User, byAdmin: bool, now: int) returns (done: bool)
      requires Valid() && clock <= now
      modifies this
      ensures Valid() && clock == now && StateAt(now) == Next(cfg, old(StateAt(now)), Request.Deactivate(u, byAdmin))
      ensures done <==>
              && u in old(users) && old(users)[u].status != Deactivated
              && (if byAdmin then old(users)[u].status == Active else old(users)[u].emailVerified)
      ensures done ==> u in users && users[u].status == Deactivated && users[u].deactivatedAt == Some(now)
      ensures done ==> forall j, revoked, enrolment :: j in tokens && tokens[j].user == u ==>
                Authenticate(StateAt(now), j, revoked, enrolment) == Unauthorized
      ensures done ==> forall h :: h in table.rows && table.rows[h].user == u ==> !MayRotate(StateAt(now), h)
    {
      CallKeepsTrust(cfg, StateAt(clock), now, Request.Deactivate(u, byAdmin));
      clock := now;
      done := false;
      if u in users && users[u].status != Deactivated {
        if byAdmin {
          done := users[u].status == Active;
        } else {
          done := users[u].emailVerified;
        }
      }
      if done {
        users := users[u := users[u].(status := Deactivated, deactivatedAt := Some(now))];
        revokeBefore := revokeBefore[u := Entry(now, now + cfg.RefreshTtl())];
        RevokedAtOnce(cfg, StateAt(now), u);
      }
    }

    /** `replace_user_roles`; `admitted` says that its self-target, escalation and last-admin checks passed. */
    method ReplaceUserRoles(u: User, requested: seq<string>, admitted: bool, now: int) returns (replaced: bool)
      requires Valid() && clock <= now
      modifies this
      ensures Valid() && clock == now
      ensures StateAt(now) == Next(cfg, old(StateAt(now)), Replacement(u, requested, admitted))
      ensures replaced ==>
              && u in users && permEpoch == old(permEpoch)[u := Entry(now, now + cfg.epochTtlSeconds * SECOND)]
              && forall role :: role in users[u].grants <==> role in requested
      ensures replaced ==> forall role :: role in requested ==> users[u].grants[role] == now
      ensures replaced <==>
              && u in old(users) && admitted && requested != [] && |LastAdmin.Names(requested)| == |requested|
              && forall role :: role in requested ==> role in cfg.catalogue
    {
      CallKeepsTrust(cfg, StateAt(clock), now, Replacement(u, requested, admitted));
      clock := now;
      replaced := GrantAnew(u, requested, admitted, now);
    }

    method GrantAnew(u: User, requested: seq<string>, admitted: bool, now: int) returns (replaced: bool)
      modifies this
      ensures clock == old(clock) && StateAt(now) == Next(cfg, old(StateAt(now)), Replacement(u, requested, admitted))
      ensures replaced <==>
              && u in old(users) && admitted && requested != [] && |LastAdmin.Names(requested)| == |requested|
              && forall role :: role in requested ==> role in cfg.catalogue
      ensures replaced ==>
              && u in users && permEpoch == old(permEpoch)[u := Entry(now, now + cfg.epochTtlSeconds * SECOND)]
              && forall role :: role in users[u].grants <==> role in requested
      ensures replaced ==> forall role :: role in requested ==> users[u].grants[role] == now
    {
      var roles := LastAdmin.Names(requested);
      assert requested != [] ==> requested[0] in roles;
      assert roles <= cfg.catalogue.Keys <==> forall role :: role in requested ==> role in cfg.catalogue;
      if u !in users || !admitted || requested == [] || |roles| != |requested| || !(roles <= cfg.catalogue.Keys) {
        return false;
      }
      var granted := GrantEach(requested, now);
      users := users[u := users[u].(grants := granted)];
      permEpoch := permEpoch[u := Entry(now, now + cfg.EpochTtl())];
      return true;
    }

    /** The role replacement a request asks for; repeated names are refused. */
    function Replacement(u: User, requested: seq<string>, admitted: bool): Request {
      ReplaceRoles(u, LastAdmin.Names(requested), admitted && |LastAdmin.Names(requested)| == |requested|)
    }
  }
}
