/** Refresh families over serial runs: uniform liveness, the session cap, and the permanence of revocation. */
module SessionFamilies {
  import opened Prelude
  import opened RefreshTokens
  import C = Credentials
  import A = AccessTokens

  // ------------------------------------------------------------------ what a request does to the table

  datatype Op =
    | Keep
    | Retire(family: Family)
    | Rotate(hash: Hash, successor: Hash)
    | Open(user: nat, hash: Hash, family: Family, victim: Family)

  function Apply(cfg: C.Config, t: Table, now: int, op: Op): Table {
    match op
    case Keep => t
    case Retire(f) => FamilyRevoked(t, f, now)
    case Rotate(hash, successor) => if hash in t.rows then Rotated(t, hash, successor, now) else t
    case Open(u, hash, f, victim) =>
      Created(C.Evicted(cfg, t, u, now, victim), hash, f, u, now, now + cfg.RefreshTtl(), None)
  }

  /** The row is live, unconsumed, not idle, and younger than the live revocation key of its user. */
  predicate Rotatable(s: C.State, hash: Hash) {
    && hash in s.table.rows
    && var r := s.table.rows[hash];
       && LiveRow(r, s.now) && r.consumedAt.None? && s.now - LastUse(r) <= IDLE_TIMEOUT
       && !C.Covers(s.revokeBefore, r.user, r.issuedAt, s.now)
  }

  predicate Permitted(cfg: C.Config, s: C.State, op: Op) {
    match op
    case Keep => true
    case Retire(f) => true
    case Rotate(hash, successor) => Rotatable(s, hash) && successor !in s.table.rows
    case Open(u, hash, f, victim) =>
      && hash !in s.table.rows && f !in s.table.lineage
      && (C.AtCap(cfg, s.table, u, s.now) ==> C.Oldest(s.table, u, s.now, victim))
  }

  /** The table operation behind a request. */
  function OpOf(cfg: C.Config, s: C.State, r: C.Request): Op {
    match r
    case Login(u, ok, ids) =>
      if ok && u in s.users && C.Drawable(cfg, s, u, ids)
         && C.Admissible(s.users[u], s.now).Some? && !C.Admissible(s.users[u], s.now).value.mfaEnabled
      then Open(u, ids.hash, ids.family, ids.victim) else Keep
    case CompleteMfa(u, recovery, ids) =>
      if u in s.users && C.Drawable(cfg, s, u, ids) then Open(u, ids.hash, ids.family, ids.victim) else Keep
    case Refresh(hash, throttled, jti, successor) =>
      if hash !in s.table.rows || throttled then Keep
      else if C.Judged(s, hash) == Reuse then Retire(s.table.rows[hash].family)
      else if C.Judged(s, hash) == Proceed && jti !in s.sessions && jti !in s.tokens && successor !in s.table.rows
      then Rotate(hash, successor) else Keep
    case Logout(u, jti, cookie) =>
      if C.CookieFamily(s.table, u, cookie).Some? then Retire(C.CookieFamily(s.table, u, cookie).value) else Keep
    case RevokeFamily(u, f, cookie) =>
      if C.CookieFamily(s.table, u, cookie) == Some(f) || !C.OwnsFamily(s.table, u, f) then Keep else Retire(f)
    case _ => Keep
  }

  ghost predicate AppliesOp(cfg: C.Config, s: C.State, r: C.Request) {
    && C.Next(cfg, s, r).table == Apply(cfg, s.table, s.now, OpOf(cfg, s, r))
    && Permitted(cfg, s, OpOf(cfg, s, r))
  }

  lemma OpeningAppliesOp(cfg: C.Config, s: C.State, r: C.Request)
    requires r.Login? || r.CompleteMfa?
    ensures AppliesOp(cfg, s, r)
  {
  }

  lemma RefreshAppliesOp(cfg: C.Config, s: C.State, r: C.Request)
    requires r.Refresh?
    ensures AppliesOp(cfg, s, r)
  {
  }

  lemma RequestAppliesOp(cfg: C.Config, s: C.State, r: C.Request)
    ensures C.Next(cfg, s, r).table == Apply(cfg, s.table, s.now, OpOf(cfg, s, r))
    ensures Permitted(cfg, s, OpOf(cfg, s, r))
  {
    if r.Login? || r.CompleteMfa? {
      OpeningAppliesOp(cfg, s, r);
    } else if r.Refresh? {
      RefreshAppliesOp(cfg, s, r);
    }
  }

  // ------------------------------------------------------------------ invariant

  /** Revocation reaches a family whole, and it lives exactly the refresh-token lifetime from its creation, however
      often it rotates. */
  ghost predicate LikeRoot(t: Table, h: Hash, ttl: nat)
    requires Sound(t) && h in t.rows
  {
    && (t.rows[h].revokedAt.None? <==> Root(t, h).revokedAt.None?)
    && t.rows[h].expiresAt == Root(t, h).issuedAt + ttl
  }

  ghost predicate AllLikeRoot(t: Table, ttl: nat)
    requires Sound(t)
  {
    forall h {:trigger LikeRoot(t, h, ttl)} :: h in t.rows ==> LikeRoot(t, h, ttl)
  }

  ghost predicate WithinCap(t: Table, now: int, cap: nat) {
    forall u :: |C.LiveFamilies(t, u, now)| <= cap
  }

  ghost predicate FamiliesSound(cfg: C.Config, t: Table, now: int) {
    Sound(t) && IssuedBy(t, now) && AllLikeRoot(t, cfg.RefreshTtl())
  }

  lemma RevokeKeepsFamilies(cfg: C.Config, t: Table, now: int, f: Family)
    requires FamiliesSound(cfg, t, now)
    ensures FamiliesSound(cfg, FamilyRevoked(t, f, now), now)
  {
    RevokeKeepsSound(t, f, now);
    var v := FamilyRevoked(t, f, now);
    forall h | h in v.rows ensures LikeRoot(v, h, cfg.RefreshTtl()) {
      assert LikeRoot(t, h, cfg.RefreshTtl()) && RowSound(t, h) && LinkSound(t, t.rows[h].family, 0);
    }
  }

  lemma CreateKeepsFamilies(cfg: C.Config, t: Table, now: int, u: nat, hash: Hash, f: Family)
    requires FamiliesSound(cfg, t, now) && hash !in t.rows && f !in t.lineage
    ensures FamiliesSound(cfg, Created(t, hash, f, u, now, now + cfg.RefreshTtl(), None), now)
  {
    CreateKeepsSound(t, hash, f, u, now, now + cfg.RefreshTtl());
    var v := Created(t, hash, f, u, now, now + cfg.RefreshTtl(), None);
    assert v.lineage[f] == [hash];
    forall h | h in v.rows ensures LikeRoot(v, h, cfg.RefreshTtl()) {
      assert h in t.rows ==> LikeRoot(t, h, cfg.RefreshTtl()) && RowSound(t, h);
    }
  }

  lemma RotateKeepsFamilies(cfg: C.Config, t: Table, now: int, hash: Hash, successor: Hash)
    requires FamiliesSound(cfg, t, now) && RotatesTip(t, hash, successor, now) && t.rows[hash].revokedAt.None?
    ensures FamiliesSound(cfg, Rotated(t, hash, successor, now), now)
  {
    RotateKeepsSound(t, hash, successor, now);
    var v := Rotated(t, hash, successor, now);
    forall h | h in v.rows ensures LikeRoot(v, h, cfg.RefreshTtl()) {
      RotateKeepsRoot(t, hash, successor, now, h);
      assert LikeRoot(t, if h == successor then hash else h, cfg.RefreshTtl());
    }
  }

  lemma OpKeepsFamilies(cfg: C.Config, s: C.State, op: Op)
    requires FamiliesSound(cfg, s.table, s.now) && Permitted(cfg, s, op)
    ensures FamiliesSound(cfg, Apply(cfg, s.table, s.now, op), s.now)
  {
    match op
    case Keep =>
    case Retire(f) => RevokeKeepsFamilies(cfg, s.table, s.now, f);
    case Rotate(hash, successor) => RotateKeepsFamilies(cfg, s.table, s.now, hash, successor);
    case Open(u, hash, f, victim) =>
      RevokeKeepsFamilies(cfg, s.table, s.now, victim);
      CreateKeepsFamilies(cfg, C.Evicted(cfg, s.table, u, s.now, victim), s.now, u, hash, f);
  }

  // ------------------------------------------------------------------ what the invariant means

  /** Rows of one family are live or dead together, so any one of them answers for the family. */
  lemma LiveTogether(cfg: C.Config, t: Table, since: int, now: int, h: Hash, k: Hash)
    requires FamiliesSound(cfg, t, since) && h in t.rows && k in t.rows && t.rows[h].family == t.rows[k].family
    ensures LiveRow(t.rows[h], now) <==> LiveRow(t.rows[k], now)
  {
    assert LikeRoot(t, h, cfg.RefreshTtl()) && LikeRoot(t, k, cfg.RefreshTtl());
  }

  /** When the family's first row was issued. */
  function CreatedAt(t: Table, f: Family): int
    requires Sound(t) && f in t.lineage
  {
    assert LinkSound(t, f, 0);
    t.rows[t.lineage[f][0]].issuedAt
  }

  /** `v` is `MIN(issued_at)` over the live rows of the family. */
  ghost predicate IsMinIssued(t: Table, f: Family, now: int, v: int) {
    && (exists h :: h in t.rows && t.rows[h].family == f && LiveRow(t.rows[h], now) && t.rows[h].issuedAt == v)
    && (forall h :: h in t.rows && t.rows[h].family == f && LiveRow(t.rows[h], now) ==> v <= t.rows[h].issuedAt)
  }

  /** The minimum over live rows is the family's true creation time: the root itself is among the live rows. */
  lemma MinIssuedIsCreation(cfg: C.Config, t: Table, since: int, now: int, f: Family, v: int)
    requires FamiliesSound(cfg, t, since) && IsMinIssued(t, f, now, v)
    ensures f in t.lineage && v == CreatedAt(t, f)
  {
    var h :| h in t.rows && t.rows[h].family == f && LiveRow(t.rows[h], now) && t.rows[h].issuedAt == v;
    assert RowSound(t, h) && LinkSound(t, f, 0);
    LiveTogether(cfg, t, since, now, h, t.lineage[f][0]);
  }

  /** The family an eviction picks was created no later than any other live family of the user. */
  lemma EvictedIsOldestFamily(cfg: C.Config, t: Table, now: int, u: nat, f: Family, g: Family)
    requires FamiliesSound(cfg, t, now) && C.Oldest(t, u, now, f) && g in C.LiveFamilies(t, u, now)
    ensures f in t.lineage && g in t.lineage && CreatedAt(t, f) <= CreatedAt(t, g)
  {
    var h :| h in t.rows && t.rows[h].family == f && t.rows[h].user == u && LiveRow(t.rows[h], now)
      && forall k | k in t.rows && t.rows[k].user == u && LiveRow(t.rows[k], now) ::
          t.rows[h].issuedAt <= t.rows[k].issuedAt;
    var k :| k in t.rows && t.rows[k].family == g && t.rows[k].user == u && LiveRow(t.rows[k], now);
    assert RowSound(t, h) && RowSound(t, k) && LinkSound(t, g, 0);
    LiveTogether(cfg, t, now, now, k, t.lineage[g][0]);
  }

  // ------------------------------------------------------------------ the cap

  lemma LiveAfterRevoke(t: Table, u: nat, now: int, f: Family)
    ensures C.LiveFamilies(FamilyRevoked(t, f, now), u, now) == C.LiveFamilies(t, u, now) - {f}
  {
    var v := FamilyRevoked(t, f, now);
    forall g | g in C.LiveFamilies(t, u, now) - {f} ensures g in C.LiveFamilies(v, u, now) {
      var h :| h in t.rows && t.rows[h].user == u && LiveRow(t.rows[h], now) && t.rows[h].family == g;
      assert v.rows[h] == t.rows[h];
    }
  }

  lemma LiveAfterCreate(t: Table, w: nat, u: nat, now: int, hash: Hash, f: Family, expiresAt: int)
    requires hash !in t.rows
    ensures C.LiveFamilies(Created(t, hash, f, u, now, expiresAt, None), w, now)
            <= C.LiveFamilies(t, w, now) + if w == u then {f} else {}
  {
    var v := Created(t, hash, f, u, now, expiresAt, None);
    forall g | g in C.LiveFamilies(v, w, now) ensures g in C.LiveFamilies(t, w, now) + if w == u then {f} else {} {
      var h :| h in v.rows && v.rows[h].user == w && LiveRow(v.rows[h], now) && v.rows[h].family == g;
      assert h != hash ==> t.rows[h] == v.rows[h];
    }
  }

  lemma LiveAfterRotate(t: Table, u: nat, now: int, hash: Hash, successor: Hash)
    requires hash in t.rows && successor !in t.rows && LiveRow(t.rows[hash], now)
    ensures C.LiveFamilies(Rotated(t, hash, successor, now), u, now) <= C.LiveFamilies(t, u, now)
  {
    var v := Rotated(t, hash, successor, now);
    forall g | g in C.LiveFamilies(v, u, now) ensures g in C.LiveFamilies(t, u, now) {
      var h :| h in v.rows && v.rows[h].user == u && LiveRow(v.rows[h], now) && v.rows[h].family == g;
      var source := if h == successor then hash else h;
      assert t.rows[source].family == g && LiveRow(t.rows[source], now) && t.rows[source].user == u;
    }
  }

  lemma EvictionMakesRoom(cfg: C.Config, t: Table, w: nat, u: nat, now: int, victim: Family)
    requires |C.LiveFamilies(t, w, now)| <= cfg.maxLiveFamilies && cfg.maxLiveFamilies > 0
    requires C.AtCap(cfg, t, u, now) ==> C.Oldest(t, u, now, victim)
    ensures |C.LiveFamilies(C.Evicted(cfg, t, u, now, victim), w, now)|
            <= if w == u then cfg.maxLiveFamilies - 1 else cfg.maxLiveFamilies
  {
    if C.AtCap(cfg, t, u, now) {
      LiveAfterRevoke(t, w, now, victim);
      SubsetSize(C.LiveFamilies(t, w, now) - {victim}, C.LiveFamilies(t, w, now));
      assert victim in C.LiveFamilies(t, u, now);
    }
  }

  lemma CreateFillsRoom(t: Table, w: nat, u: nat, now: int, hash: Hash, f: Family, expiresAt: int, cap: nat)
    requires hash !in t.rows && cap > 0 && |C.LiveFamilies(t, w, now)| <= if w == u then cap - 1 else cap
    ensures |C.LiveFamilies(Created(t, hash, f, u, now, expiresAt, None), w, now)| <= cap
  {
    var live, after := C.LiveFamilies(t, w, now), C.LiveFamilies(Created(t, hash, f, u, now, expiresAt, None), w, now);
    LiveAfterCreate(t, w, u, now, hash, f, expiresAt);
    SubsetSize(after, live + if w == u then {f} else {});
  }

  lemma OpenKeepsCap(cfg: C.Config, s: C.State, w: nat, u: nat, hash: Hash, f: Family, victim: Family)
    requires Permitted(cfg, s, Open(u, hash, f, victim)) && cfg.maxLiveFamilies > 0
    requires |C.LiveFamilies(s.table, w, s.now)| <= cfg.maxLiveFamilies
    ensures |C.LiveFamilies(Apply(cfg, s.table, s.now, Open(u, hash, f, victim)), w, s.now)| <= cfg.maxLiveFamilies
  {
    EvictionMakesRoom(cfg, s.table, w, u, s.now, victim);
    var evicted := C.Evicted(cfg, s.table, u, s.now, victim);
    CreateFillsRoom(evicted, w, u, s.now, hash, f, s.now + cfg.RefreshTtl(), cfg.maxLiveFamilies);
  }

  lemma OpKeepsCap(cfg: C.Config, s: C.State, op: Op)
    requires Permitted(cfg, s, op) && WithinCap(s.table, s.now, cfg.maxLiveFamilies) && cfg.maxLiveFamilies > 0
    ensures WithinCap(Apply(cfg, s.table, s.now, op), s.now, cfg.maxLiveFamilies)
  {
    var t := Apply(cfg, s.table, s.now, op);
    forall w ensures |C.LiveFamilies(t, w, s.now)| <= cfg.maxLiveFamilies {
      match op
      case Keep =>
      case Retire(f) =>
        LiveAfterRevoke(s.table, w, s.now, f);
        SubsetSize(C.LiveFamilies(t, w, s.now), C.LiveFamilies(s.table, w, s.now));
      case Rotate(hash, successor) =>
        LiveAfterRotate(s.table, w, s.now, hash, successor);
        SubsetSize(C.LiveFamilies(t, w, s.now), C.LiveFamilies(s.table, w, s.now));
      case Open(u, hash, f, victim) => OpenKeepsCap(cfg, s, w, u, hash, f, victim);
    }
  }

  lemma TimeKeepsCap(t: Table, now: int, later: int, cap: nat)
    requires WithinCap(t, now, cap) && now <= later
    ensures WithinCap(t, later, cap)
  {
    forall u ensures |C.LiveFamilies(t, u, later)| <= cap {
      SubsetSize(C.LiveFamilies(t, u, later), C.LiveFamilies(t, u, now));
    }
  }

  // ------------------------------------------------------------------ over runs

  ghost predicate Good(cfg: C.Config, s: C.State) {
    FamiliesSound(cfg, s.table, s.now) && (cfg.maxLiveFamilies > 0 ==> WithinCap(s.table, s.now, cfg.maxLiveFamilies))
  }

  lemma OnlyTicksMoveTheClock(cfg: C.Config, s: C.State, r: C.Request)
    requires !r.Tick?
    ensures C.Next(cfg, s, r).now == s.now
  {
  }

  lemma ClockOrOp(cfg: C.Config, s: C.State, r: C.Request)
    ensures s.now <= C.Next(cfg, s, r).now && (OpOf(cfg, s, r) != Keep ==> C.Next(cfg, s, r).now == s.now)
  {
    if !r.Tick? {
      OnlyTicksMoveTheClock(cfg, s, r);
    }
  }

  lemma RequestKeepsGood(cfg: C.Config, s: C.State, r: C.Request)
    requires Good(cfg, s)
    ensures Good(cfg, C.Next(cfg, s, r))
  {
    RequestAppliesOp(cfg, s, r);
    ClockOrOp(cfg, s, r);
    OpKeepsFamilies(cfg, s, OpOf(cfg, s, r));
    if cfg.maxLiveFamilies > 0 {
      OpKeepsCap(cfg, s, OpOf(cfg, s, r));
      TimeKeepsCap(C.Next(cfg, s, r).table, s.now, C.Next(cfg, s, r).now, cfg.maxLiveFamilies);
    }
  }

  lemma {:induction false} RunsKeepGood(cfg: C.Config, s: C.State, requests: seq<C.Request>)
    requires Good(cfg, s)
    ensures Good(cfg, C.Run(cfg, s, requests))
    decreases |requests|
  {
    if requests != [] {
      RequestKeepsGood(cfg, s, requests[0]);
      RunsKeepGood(cfg, C.Next(cfg, s, requests[0]), requests[1..]);
    }
  }

  lemma InitialIsGood(cfg: C.Config, s: C.State)
    requires C.Initial(s)
    ensures Good(cfg, s)
  {
    forall u ensures C.LiveFamilies(s.table, u, s.now) == {} {
    }
  }

  /** In every serial run families stay chains that live and die whole, and no user exceeds the cap. */
  lemma FamiliesLiveWholeWithinCap(cfg: C.Config, s: C.State, requests: seq<C.Request>)
    requires C.Initial(s)
    ensures var end := C.Run(cfg, s, requests);
            && Sound(end.table) && AllLikeRoot(end.table, cfg.RefreshTtl())
            && (cfg.maxLiveFamilies > 0 ==> forall u :: |C.LiveFamilies(end.table, u, end.now)| <= cfg.maxLiveFamilies)
  {
    InitialIsGood(cfg, s);
    RunsKeepGood(cfg, s, requests);
  }

  // ------------------------------------------------------------------ dead families stay dead

  ghost predicate DeadFamily(t: Table, f: Family, now: int) {
    f in t.lineage && forall h :: h in t.rows && t.rows[h].family == f ==> !LiveRow(t.rows[h], now)
  }

  lemma OpKeepsDead(cfg: C.Config, s: C.State, op: Op, f: Family)
    requires Permitted(cfg, s, op) && DeadFamily(s.table, f, s.now)
    ensures DeadFamily(Apply(cfg, s.table, s.now, op), f, s.now)
  {
  }

  /** In every serial run a revoked or expired family never has a live row again. */
  lemma {:induction false} DeadFamiliesStayDead(cfg: C.Config, s: C.State, requests: seq<C.Request>, f: Family)
    requires DeadFamily(s.table, f, s.now)
    ensures DeadFamily(C.Run(cfg, s, requests).table, f, C.Run(cfg, s, requests).now)
    decreases |requests|
  {
    if requests != [] {
      RequestAppliesOp(cfg, s, requests[0]);
      ClockOrOp(cfg, s, requests[0]);
      OpKeepsDead(cfg, s, OpOf(cfg, s, requests[0]), f);
      DeadFamiliesStayDead(cfg, C.Next(cfg, s, requests[0]), requests[1..], f);
    }
  }

  /** A logout with its cookie, a session revocation and a detected reuse all end the family they retire for good. */
  lemma RetiredForever(cfg: C.Config, s: C.State, before: seq<C.Request>, r: C.Request, after: seq<C.Request>,
                       f: Family)
    requires C.Initial(s) && OpOf(cfg, C.Run(cfg, s, before), r) == Retire(f)
    ensures var end := C.Run(cfg, C.Next(cfg, C.Run(cfg, s, before), r), after); DeadFamily(end.table, f, end.now)
  {
    var t := C.Run(cfg, s, before);
    InitialIsGood(cfg, s);
    RunsKeepGood(cfg, s, before);
    RequestAppliesOp(cfg, t, r);
    ClockOrOp(cfg, t, r);
    var h :| h in t.table.rows && t.table.rows[h].family == f;
    assert RowSound(t.table, h);
    DeadFamiliesStayDead(cfg, C.Next(cfg, t, r), after, f);
  }

  /** Presenting a consumed token of a live family ends the family exactly when the ten-second grace is over. */
  lemma ReuseEndsTheFamilyAfterGrace(cfg: C.Config, s: C.State, before: seq<C.Request>, hash: Hash, jti: C.Jti,
                                     successor: Hash)
    requires C.Initial(s)
    requires var t := C.Run(cfg, s, before);
             hash in t.table.rows && LiveRow(t.table.rows[hash], t.now) && t.table.rows[hash].consumedAt.Some?
    ensures var t := C.Run(cfg, s, before); var end := C.Next(cfg, t, C.Refresh(hash, false, jti, successor));
            var late := t.now > t.table.rows[hash].consumedAt.value + GRACE_WINDOW;
            DeadFamily(end.table, t.table.rows[hash].family, end.now) <==> late
  {
    var t := C.Run(cfg, s, before);
    if t.now > t.table.rows[hash].consumedAt.value + GRACE_WINDOW {
      RetiredForever(cfg, s, before, C.Refresh(hash, false, jti, successor), [], t.table.rows[hash].family);
    } else {
      assert C.Next(cfg, t, C.Refresh(hash, false, jti, successor)) == t;
    }
  }

  // ------------------------------------------------------------------ idle families

  /** Every row that could still be exchanged was last used more than the idle timeout ago. */
  ghost predicate IdleFamily(t: Table, f: Family, now: int) {
    && f in t.lineage
    && forall h :: h in t.rows && t.rows[h].family == f && t.rows[h].consumedAt.None? ==>
         now - LastUse(t.rows[h]) > IDLE_TIMEOUT
  }

  lemma OpKeepsIdle(cfg: C.Config, s: C.State, op: Op, f: Family)
    requires Permitted(cfg, s, op) && IdleFamily(s.table, f, s.now)
    ensures IdleFamily(Apply(cfg, s.table, s.now, op), f, s.now)
  {
  }

  /** In every serial run a family left unused for the idle timeout never rotates again. */
  lemma {:induction false} IdleFamiliesNeverRotate(cfg: C.Config, s: C.State, requests: seq<C.Request>, f: Family)
    requires IdleFamily(s.table, f, s.now)
    ensures var end := C.Run(cfg, s, requests);
            && IdleFamily(end.table, f, end.now)
            && forall h :: h in end.table.rows && end.table.rows[h].family == f ==> C.Judged(end, h) != Proceed
    decreases |requests|
  {
    if requests != [] {
      RequestAppliesOp(cfg, s, requests[0]);
      ClockOrOp(cfg, s, requests[0]);
      OpKeepsIdle(cfg, s, OpOf(cfg, s, requests[0]), f);
      IdleFamiliesNeverRotate(cfg, C.Next(cfg, s, requests[0]), requests[1..], f);
    }
  }

  // ------------------------------------------------------------------ user-wide revocation

  /** Families of the user created at or before `since` have not rotated since. */
  ghost predicate Frozen(t: Table, u: nat, since: int)
    requires Sound(t)
  {
    forall h {:trigger FrozenRow(t, u, since, h)} :: h in t.rows ==> FrozenRow(t, u, since, h)
  }

  ghost predicate FrozenRow(t: Table, u: nat, since: int, h: Hash)
    requires Sound(t) && h in t.rows
  {
    t.rows[h].user == u && Root(t, h).issuedAt <= since ==> t.rows[h].issuedAt <= since
  }

  /** The key and the bounded family lifetime between them refuse every row of such a family. */
  lemma FrozenIsRefused(cfg: C.Config, s: C.State, u: nat, since: int, h: Hash)
    requires FamiliesSound(cfg, s.table, s.now) && KeysTimely(s.revokeBefore, s.now, cfg.RefreshTtl())
    requires A.RevokedSince(s, u, since) && Frozen(s.table, u, since)
    requires h in s.table.rows && s.table.rows[h].user == u && Root(s.table, h).issuedAt <= since
    ensures !Rotatable(s, h) && C.Judged(s, h) != Proceed
  {
    assert LikeRoot(s.table, h, cfg.RefreshTtl()) && FrozenRow(s.table, u, since, h);
  }

  lemma RevokeKeepsFrozen(t: Table, now: int, f: Family, u: nat, since: int)
    requires Sound(t) && Frozen(t, u, since)
    ensures Sound(FamilyRevoked(t, f, now)) && Frozen(FamilyRevoked(t, f, now), u, since)
  {
    RevokeKeepsSound(t, f, now);
    var v := FamilyRevoked(t, f, now);
    forall h | h in v.rows ensures FrozenRow(v, u, since, h) {
      assert RowSound(t, h) && FrozenRow(t, u, since, h);
    }
  }

  lemma CreateKeepsFrozen(t: Table, now: int, hash: Hash, f: Family, w: nat, expiresAt: int, u: nat, since: int)
    requires Sound(t) && Frozen(t, u, since) && hash !in t.rows && f !in t.lineage
    ensures var v := Created(t, hash, f, w, now, expiresAt, None); Sound(v) && Frozen(v, u, since)
  {
    CreateKeepsSound(t, hash, f, w, now, expiresAt);
    var v := Created(t, hash, f, w, now, expiresAt, None);
    assert v.lineage[f] == [hash];
    forall h | h in v.rows ensures FrozenRow(v, u, since, h) {
      assert h in t.rows ==> RowSound(t, h) && FrozenRow(t, u, since, h);
    }
  }

  lemma RotateKeepsFrozen(cfg: C.Config, s: C.State, hash: Hash, successor: Hash, u: nat, since: int)
    requires FamiliesSound(cfg, s.table, s.now) && KeysTimely(s.revokeBefore, s.now, cfg.RefreshTtl())
    requires A.RevokedSince(s, u, since) && Frozen(s.table, u, since) && Permitted(cfg, s, Rotate(hash, successor))
    ensures var v := Rotated(s.table, hash, successor, s.now); Sound(v) && Frozen(v, u, since)
  {
    RotateKeepsSound(s.table, hash, successor, s.now);
    var v := Rotated(s.table, hash, successor, s.now);
    forall h | h in v.rows ensures FrozenRow(v, u, since, h) {
      var source := if h == successor then hash else h;
      RotateKeepsRoot(s.table, hash, successor, s.now, h);
      assert FrozenRow(s.table, u, since, source);
      if h == successor && s.table.rows[hash].user == u && Root(s.table, hash).issuedAt <= since {
        FrozenIsRefused(cfg, s, u, since, hash);
      }
    }
  }

  lemma OpKeepsFrozen(cfg: C.Config, s: C.State, op: Op, u: nat, since: int)
    requires FamiliesSound(cfg, s.table, s.now) && KeysTimely(s.revokeBefore, s.now, cfg.RefreshTtl())
    requires A.RevokedSince(s, u, since) && Frozen(s.table, u, since) && Permitted(cfg, s, op)
    ensures var v := Apply(cfg, s.table, s.now, op); Sound(v) && Frozen(v, u, since)
  {
    match op
    case Keep =>
    case Retire(f) => RevokeKeepsFrozen(s.table, s.now, f, u, since);
    case Rotate(hash, successor) => RotateKeepsFrozen(cfg, s, hash, successor, u, since);
    case Open(w, hash, f, victim) =>
      RevokeKeepsFrozen(s.table, s.now, victim, u, since);
      var evicted := C.Evicted(cfg, s.table, w, s.now, victim);
      CreateKeepsFrozen(evicted, s.now, hash, f, w, s.now + cfg.RefreshTtl(), u, since);
  }

  lemma {:induction false} RunsKeepFrozen(cfg: C.Config, s: C.State, requests: seq<C.Request>, u: nat, since: int)
    requires FamiliesSound(cfg, s.table, s.now) && A.TokensFormed(cfg, s) && since <= s.now
    requires A.RevokedSince(s, u, since) && Frozen(s.table, u, since)
    ensures var end := C.Run(cfg, s, requests);
            && FamiliesSound(cfg, end.table, end.now) && A.TokensFormed(cfg, end)
            && A.RevokedSince(end, u, since) && Frozen(end.table, u, since)
    decreases |requests|
  {
    if requests != [] {
      var next := C.Next(cfg, s, requests[0]);
      RequestAppliesOp(cfg, s, requests[0]);
      ClockOrOp(cfg, s, requests[0]);
      OpKeepsFamilies(cfg, s, OpOf(cfg, s, requests[0]));
      OpKeepsFrozen(cfg, s, OpOf(cfg, s, requests[0]), u, since);
      A.RequestMoves(cfg, s, requests[0]);
      A.MovesKeepFormed(cfg, s, next);
      RunsKeepFrozen(cfg, next, requests[1..], u, since);
    }
  }

  /** After a user-wide revocation no refresh family created at or before it ever rotates again, also once the key has
      expired, because rotation carries the expiry forward unchanged. */
  lemma RefreshFamiliesStayDead(cfg: C.Config, s: C.State, before: seq<C.Request>, r: C.Request, after: seq<C.Request>,
                                u: nat, h: Hash)
    requires C.Initial(s)
    requires A.EndsAllSessions(C.Run(cfg, s, before), r, u)
    ensures var t := C.Run(cfg, s, before); var end := C.Run(cfg, C.Next(cfg, t, r), after);
            && Sound(end.table)
            && (h in end.table.rows && end.table.rows[h].user == u && Root(end.table, h).issuedAt <= t.now ==>
                  C.Judged(end, h) != Proceed)
  {
    var t := C.Run(cfg, s, before);
    var ended := C.Next(cfg, t, r);
    InitialIsGood(cfg, s);
    RunsKeepGood(cfg, s, before);
    RequestKeepsGood(cfg, t, r);
    A.RunsKeepFormed(cfg, s, before);
    A.RequestMoves(cfg, t, r);
    A.MovesKeepFormed(cfg, t, ended);
    A.EndingSetsTheKey(cfg, t, r, u);
    RunsKeepFrozen(cfg, ended, after, u, t.now);
    var end := C.Run(cfg, ended, after);
    if h in end.table.rows && end.table.rows[h].user == u && Root(end.table, h).issuedAt <= t.now {
      FrozenIsRefused(cfg, end, u, t.now, h);
    }
  }

  // ------------------------------------------------------------------ live rows per family

  /** A family has at most one live row exactly while it is dead or has never rotated: consuming a row does not revoke
      it. */
  lemma OneLiveRowIffNeverRotated(cfg: C.Config, t: Table, since: int, now: int, f: Family)
    requires FamiliesSound(cfg, t, since) && f in t.lineage
    ensures AtMostOneLive(t, f, now) <==> !FamilyLive(t, f, now) || |t.lineage[f]| == 1
  {
    if FamilyLive(t, f, now) {
      var h :| h in t.rows && t.rows[h].family == f && LiveRow(t.rows[h], now);
      assert RowSound(t, h);
      if |t.lineage[f]| == 1 {
        forall k | k in t.rows && t.rows[k].family == f ensures k == h {
          assert RowSound(t, k);
        }
      } else {
        assert LinkSound(t, f, 0) && LinkSound(t, f, 1);
        LiveTogether(cfg, t, since, now, h, t.lineage[f][0]);
        LiveTogether(cfg, t, since, now, h, t.lineage[f][1]);
        assert LiveIn(t, f, now, t.lineage[f][0]) && LiveIn(t, f, now, t.lineage[f][1]);
        assert t.lineage[f][0] != t.lineage[f][1];
      }
    }
  }

  ghost predicate AtMostOneLive(t: Table, f: Family, now: int) {
    forall h, k :: LiveIn(t, f, now, h) && LiveIn(t, f, now, k) ==> h == k
  }

  predicate LiveIn(t: Table, f: Family, now: int, h: Hash) {
    h in t.rows && t.rows[h].family == f && LiveRow(t.rows[h], now)
  }
}
