/** Every interleaving of logins, refreshes and revocations: a refresh reads and checks in one step and writes in
    another. */
module RotationRuns {
  import opened Prelude
  import opened RefreshTokens

  /** A refresh past its checks. Its writes carry the start of its transaction, which is when it read the token. */
  datatype Pending = Pending(hash: Hash, since: int)

  /** `keys` are the user-wide revocation keys, `ttl` the lifetime of families and of keys. */
  datatype System = System(
    now: int, ttl: nat, table: Table, inFlight: map<nat, Pending>, keys: map<nat, Entry<int>>)

  datatype Step =
    | Tick(dt: nat)
    | Login(user: nat, family: Family, hash: Hash)
    | Read(r: nat, hash: Hash, active: bool)
    | Write(r: nat, successor: Hash)
    | Revoke(family: Family)
    | RevokeAll(user: nat)

  function Start(now: int, ttl: nat): System {
    System(now, ttl, EMPTY, map[], map[])
  }

  /** The verdict of the checks on a token read now. */
  function Verdict(s: System, hash: Hash, active: bool): RefreshTokens.Verdict
    requires hash in s.table.rows
  {
    Judge(s.table.rows[hash], s.now, active, Lookup(s.keys, s.table.rows[hash].user, s.now))
  }

  /** The read half of a refresh request. */
  function AfterRead(s: System, r: nat, hash: Hash, active: bool): System
    requires hash in s.table.rows
  {
    match Verdict(s, hash, active)
    case Proceed => s.(inFlight := s.inFlight[r := Pending(hash, s.now)])
    case Reuse => s.(table := FamilyRevoked(s.table, s.table.rows[hash].family, s.now))
    case Race => s
    case Invalid => s
  }

  /** The write half: the guarded consume decides, and a loser is judged afresh. */
  function AfterWrite(s: System, r: nat, successor: Hash): System
    requires r in s.inFlight
  {
    var p := s.inFlight[r];
    var done := s.(inFlight := s.inFlight - {r});
    if p.hash !in s.table.rows then done
    else
      var row := s.table.rows[p.hash];
      if row.consumedAt.None? then done.(table := Rotated(s.table, p.hash, successor, p.since))
      else if ReuseOrRace(row.consumedAt.value, s.now) == Race then done
      else done.(table := FamilyRevoked(s.table, row.family, s.now))
  }

  function Next(s: System, step: Step): System {
    match step
    case Tick(dt) => s.(now := s.now + dt)
    case Login(user, f, hash) =>
      if hash in s.table.rows || f in s.table.lineage then s
      else s.(table := Created(s.table, hash, f, user, s.now, s.now + s.ttl, None))
    case Read(r, hash, active) =>
      if hash !in s.table.rows || r in s.inFlight then s else AfterRead(s, r, hash, active)
    case Write(r, successor) =>
      if r !in s.inFlight || successor in s.table.rows then s else AfterWrite(s, r, successor)
    case Revoke(f) => s.(table := FamilyRevoked(s.table, f, s.now))
    case RevokeAll(u) => s.(keys := Put(s.keys, u, s.now, s.now, s.ttl))
  }

  function Run(s: System, steps: seq<Step>): System
    decreases |steps|
  {
    if steps == [] then s else Run(Next(s, steps[0]), steps[1..])
  }

  lemma RunCons(s: System, step: Step, rest: seq<Step>)
    ensures Run(s, [step] + rest) == Run(Next(s, step), rest)
  {
    assert ([step] + rest)[1..] == rest;
  }

  lemma {:induction false} RunConcat(s: System, a: seq<Step>, b: seq<Step>)
    ensures Run(s, a + b) == Run(Run(s, a), b)
    decreases |a|
  {
    if a == [] {
      assert a + b == b;
    } else {
      assert (a + b)[1..] == a[1..] + b;
      RunConcat(Next(s, a[0]), a[1..], b);
    }
  }

  // ------------------------------------------------------------------ what the two halves of a refresh do

  /** A read goes on exactly with a live, unconsumed token of an active account that no key reaches back to and that was
      used within fourteen days; it revokes the family exactly when the token was spent more than ten seconds ago. */
  lemma ReadRules(s: System, r: nat, hash: Hash, active: bool)
    requires hash in s.table.rows && r !in s.inFlight
    ensures var n := Next(s, Read(r, hash, active)); var row := s.table.rows[hash];
            var open := s.now < row.expiresAt && row.revokedAt.None?;
            var hidden := row.user in s.keys && s.now < s.keys[row.user].expiresAt
                          && row.issuedAt <= s.keys[row.user].value;
            var used := if row.lastUsedAt.Some? then row.lastUsedAt.value else row.issuedAt;
            var goes := open && row.consumedAt.None? && active && !hidden && s.now - used <= 14 * 24 * 60 * 60 * SECOND;
            var reused := open && row.consumedAt.Some? && s.now > row.consumedAt.value + 10 * SECOND;
            && n.inFlight == (if goes then s.inFlight[r := Pending(hash, s.now)] else s.inFlight)
            && n.table.rows.Keys == s.table.rows.Keys
            && (forall h :: h in s.table.rows ==>
                  n.table.rows[h] == if reused && s.table.rows[h].family == row.family
                                     then s.table.rows[h].(revokedAt := Some(s.now)) else s.table.rows[h])
  {
  }

  /** A write exchanges the token exactly if nobody has; a loser within ten seconds of the winner's transaction changes
      nothing, a later one revokes the family. */
  lemma WriteRules(s: System, r: nat, successor: Hash)
    requires r in s.inFlight && s.inFlight[r].hash in s.table.rows && successor !in s.table.rows
    ensures var n := Next(s, Write(r, successor)); var p := s.inFlight[r]; var row := s.table.rows[p.hash];
            var late := row.consumedAt.Some? && s.now > row.consumedAt.value + 10 * SECOND;
            && n.inFlight == s.inFlight - {r}
            && (successor in n.table.rows <==> row.consumedAt.None?)
            && (row.consumedAt.None? ==>
                  && n.table.rows[p.hash] == row.(consumedAt := Some(p.since))
                  && n.table.rows[successor].family == row.family && n.table.rows[successor].user == row.user
                  && n.table.rows[successor].expiresAt == row.expiresAt && n.table.rows[successor].issuedAt == p.since
                  && n.table.rows[successor].revokedAt.None? && n.table.rows[successor].consumedAt.None?)
            && (forall h :: h in s.table.rows && (h != p.hash || row.consumedAt.Some?) ==>
                  && h in n.table.rows
                  && n.table.rows[h] == if late && s.table.rows[h].family == row.family
                                        then s.table.rows[h].(revokedAt := Some(s.now)) else s.table.rows[h])
  {
  }

  // ------------------------------------------------------------------ families stay chains

  /** The family expires one lifetime after its first row. */
  ghost predicate OnTime(t: Table, h: Hash, ttl: nat)
    requires Sound(t) && h in t.rows
  {
    t.rows[h].expiresAt == Root(t, h).issuedAt + ttl
  }

  ghost predicate AllOnTime(t: Table, ttl: nat)
    requires Sound(t)
  {
    forall h {:trigger OnTime(t, h, ttl)} :: h in t.rows ==> OnTime(t, h, ttl)
  }

  lemma RevokeKeepsOnTime(t: Table, f: Family, now: int, ttl: nat)
    requires Sound(t) && AllOnTime(t, ttl)
    ensures var v := FamilyRevoked(t, f, now);
            && Sound(v) && AllOnTime(v, ttl)
            && (forall h :: h in t.rows ==> Root(v, h).issuedAt == Root(t, h).issuedAt)
  {
    RevokeKeepsSound(t, f, now);
    var v := FamilyRevoked(t, f, now);
    forall h | h in v.rows ensures OnTime(v, h, ttl) && Root(v, h).issuedAt == Root(t, h).issuedAt {
      assert RowSound(t, h) && OnTime(t, h, ttl);
    }
  }

  lemma CreateKeepsOnTime(t: Table, hash: Hash, f: Family, user: nat, now: int, ttl: nat)
    requires Sound(t) && AllOnTime(t, ttl) && hash !in t.rows && f !in t.lineage
    ensures var v := Created(t, hash, f, user, now, now + ttl, None);
            && Sound(v) && AllOnTime(v, ttl) && Root(v, hash) == v.rows[hash]
            && (forall h :: h in t.rows ==> v.rows[h] == t.rows[h] && Root(v, h) == Root(t, h))
  {
    CreateKeepsSound(t, hash, f, user, now, now + ttl);
    var v := Created(t, hash, f, user, now, now + ttl, None);
    assert v.lineage[f] == [hash];
    forall h | h in v.rows ensures OnTime(v, h, ttl) && (h in t.rows ==> Root(v, h) == Root(t, h)) {
      assert h in t.rows ==> RowSound(t, h) && OnTime(t, h, ttl);
    }
  }

  lemma RotateKeepsOnTime(t: Table, hash: Hash, successor: Hash, at: int, ttl: nat)
    requires RotatesTip(t, hash, successor, at) && AllOnTime(t, ttl)
    ensures var v := Rotated(t, hash, successor, at);
            && Sound(v) && AllOnTime(v, ttl) && Root(v, successor).issuedAt == Root(t, hash).issuedAt
            && (forall h :: h in t.rows ==>
                  v.rows[h].user == t.rows[h].user && v.rows[h].issuedAt == t.rows[h].issuedAt
                  && Root(v, h).issuedAt == Root(t, h).issuedAt)
  {
    RotateKeepsSound(t, hash, successor, at);
    var v := Rotated(t, hash, successor, at);
    forall h | h in v.rows
      ensures OnTime(v, h, ttl)
      ensures Root(v, h).issuedAt == Root(t, if h == successor then hash else h).issuedAt
    {
      RotateKeepsRoot(t, hash, successor, at, h);
      assert OnTime(t, if h == successor then hash else h, ttl);
    }
  }

  /** A pending refresh read a row that was there. */
  predicate Grounded(s: System, p: Pending) {
    p.hash in s.table.rows && s.table.rows[p.hash].issuedAt <= p.since <= s.now
  }

  ghost predicate SoundSystem(s: System) {
    && Sound(s.table) && IssuedBy(s.table, s.now) && AllOnTime(s.table, s.ttl) && KeysTimely(s.keys, s.now, s.ttl)
    && (forall r :: r in s.inFlight ==> Grounded(s, s.inFlight[r]))
  }

  /** Pending refreshes stay grounded while rows keep their stamps. */
  lemma StayGrounded(s: System, n: System)
    requires SoundSystem(s) && s.now <= n.now
    requires forall h :: h in s.table.rows ==> h in n.table.rows && n.table.rows[h].issuedAt == s.table.rows[h].issuedAt
    requires forall r :: r in n.inFlight ==> r in s.inFlight && n.inFlight[r] == s.inFlight[r]
    ensures forall r :: r in n.inFlight ==> Grounded(n, n.inFlight[r])
  {
    forall r | r in n.inFlight ensures Grounded(n, n.inFlight[r]) {
      assert Grounded(s, s.inFlight[r]);
    }
  }

  lemma RevokeFamilyKeepsSound(s: System, f: Family, inFlight: map<nat, Pending>)
    requires SoundSystem(s) && forall r :: r in inFlight ==> r in s.inFlight && inFlight[r] == s.inFlight[r]
    ensures SoundSystem(s.(table := FamilyRevoked(s.table, f, s.now), inFlight := inFlight))
  {
    RevokeKeepsOnTime(s.table, f, s.now, s.ttl);
    StayGrounded(s, s.(table := FamilyRevoked(s.table, f, s.now), inFlight := inFlight));
  }

  lemma RotationKeepsSound(s: System, r: nat, successor: Hash)
    requires SoundSystem(s) && r in s.inFlight && successor !in s.table.rows
    requires s.inFlight[r].hash in s.table.rows && s.table.rows[s.inFlight[r].hash].consumedAt.None?
    ensures var p := s.inFlight[r];
            SoundSystem(s.(table := Rotated(s.table, p.hash, successor, p.since), inFlight := s.inFlight - {r}))
  {
    var p := s.inFlight[r];
    assert Grounded(s, p);
    RotateKeepsOnTime(s.table, p.hash, successor, p.since, s.ttl);
    StayGrounded(s, s.(table := Rotated(s.table, p.hash, successor, p.since), inFlight := s.inFlight - {r}));
  }

  lemma ReadKeepsSound(s: System, r: nat, hash: Hash, active: bool)
    requires SoundSystem(s) && hash in s.table.rows
    ensures SoundSystem(AfterRead(s, r, hash, active))
  {
    RevokeFamilyKeepsSound(s, s.table.rows[hash].family, s.inFlight);
  }

  lemma WriteKeepsSound(s: System, r: nat, successor: Hash)
    requires SoundSystem(s) && r in s.inFlight && successor !in s.table.rows
    ensures SoundSystem(AfterWrite(s, r, successor))
  {
    var p := s.inFlight[r];
    assert Grounded(s, p);
    if s.table.rows[p.hash].consumedAt.None? {
      RotationKeepsSound(s, r, successor);
    } else {
      RevokeFamilyKeepsSound(s, s.table.rows[p.hash].family, s.inFlight - {r});
    }
  }

  lemma StepKeepsSound(s: System, step: Step)
    requires SoundSystem(s)
    ensures SoundSystem(Next(s, step))
  {
    match step
    case Tick(dt) =>
    case Login(user, f, hash) =>
      if hash !in s.table.rows && f !in s.table.lineage {
        CreateKeepsOnTime(s.table, hash, f, user, s.now, s.ttl);
      }
    case Read(r, hash, active) =>
      if hash in s.table.rows && r !in s.inFlight {
        ReadKeepsSound(s, r, hash, active);
      }
    case Write(r, successor) =>
      if r in s.inFlight && successor !in s.table.rows {
        WriteKeepsSound(s, r, successor);
      }
    case Revoke(f) => RevokeFamilyKeepsSound(s, f, s.inFlight);
    case RevokeAll(u) =>
  }

  /** In every interleaving of logins, refreshes and revocations every family is one chain with one unconsumed tip. */
  lemma {:induction false} FamiliesStayChains(s: System, steps: seq<Step>)
    requires SoundSystem(s)
    ensures SoundSystem(Run(s, steps))
    decreases |steps|
  {
    if steps != [] {
      StepKeepsSound(s, steps[0]);
      FamiliesStayChains(Next(s, steps[0]), steps[1..]);
    }
  }

  /** From an empty table, in every interleaving: a token has at most one successor, the rows of a family share user
      and expiry, and a family's unconsumed row is exactly the one inserted last. */
  lemma InterleavedFamiliesAreChains(now: int, ttl: nat, steps: seq<Step>, a: Hash, b: Hash, c: Hash)
    ensures var t := Run(Start(now, ttl), steps).table;
            && ((a, b) in t.rotations && (a, c) in t.rotations ==> b == c)
            && (a in t.rows && b in t.rows && t.rows[a].family == t.rows[b].family ==>
                  && t.rows[a].user == t.rows[b].user && t.rows[a].expiresAt == t.rows[b].expiresAt
                  && (t.rows[a].consumedAt.None? && t.rows[b].consumedAt.None? ==> a == b))
            && (a in t.rows ==>
                  && t.rows[a].family in t.lineage && t.lineage[t.rows[a].family] != []
                  && var tip := Tip(t, t.rows[a].family);
                     tip in t.rows && t.rows[tip].family == t.rows[a].family && t.rows[tip].consumedAt.None?)
  {
    FamiliesStayChains(Start(now, ttl), steps);
    var t := Run(Start(now, ttl), steps).table;
    if (a, b) in t.rotations && (a, c) in t.rotations {
      AtMostOneSuccessor(t, a, b, c);
    }
    if a in t.rows {
      ExactlyOneUnconsumed(t, a);
      ExactlyOneUnconsumed(t, Tip(t, t.rows[a].family));
      if b in t.rows && t.rows[a].family == t.rows[b].family {
        FamilySharesUserAndExpiry(t, a, b);
        ExactlyOneUnconsumed(t, b);
      }
    }
  }

  // ------------------------------------------------------------------ user-wide revocation

  /** A row of a family of `u` created by `since` was itself stamped by `since`. */
  ghost predicate Stale(t: Table, u: nat, since: int, h: Hash)
    requires Sound(t) && h in t.rows
  {
    t.rows[h].user == u && Root(t, h).issuedAt <= since ==> t.rows[h].issuedAt <= since
  }

  ghost predicate AllStale(t: Table, u: nat, since: int)
    requires Sound(t)
  {
    forall h {:trigger Stale(t, u, since, h)} :: h in t.rows ==> Stale(t, u, since, h)
  }

  /** Whoever holds a token of such a family past the checks read it by `since`. */
  ghost predicate PendingStale(s: System, u: nat, since: int)
    requires SoundSystem(s)
  {
    forall r {:trigger s.inFlight[r]} :: r in s.inFlight ==> StalePending(s, u, since, s.inFlight[r])
  }

  ghost predicate StalePending(s: System, u: nat, since: int, p: Pending)
    requires Sound(s.table)
  {
    p.hash in s.table.rows && s.table.rows[p.hash].user == u && Root(s.table, p.hash).issuedAt <= since ==>
      p.since <= since
  }

  predicate KeySince(s: System, u: nat, since: int) {
    u in s.keys && since <= s.keys[u].value
  }

  ghost predicate Barred(s: System, u: nat, since: int)
    requires SoundSystem(s)
  {
    && since <= s.now && KeySince(s, u, since) && AllStale(s.table, u, since) && PendingStale(s, u, since)
  }

  /** Key and family lifetime between them refuse every such token. */
  lemma StaleIsRefused(s: System, u: nat, since: int, h: Hash, active: bool)
    requires SoundSystem(s) && Barred(s, u, since)
    requires h in s.table.rows && s.table.rows[h].user == u && Root(s.table, h).issuedAt <= since
    ensures Verdict(s, h, active) != Proceed
  {
    assert OnTime(s.table, h, s.ttl) && Stale(s.table, u, since, h);
  }

  lemma RevokeKeepsStale(t: Table, f: Family, now: int, ttl: nat, u: nat, since: int)
    requires Sound(t) && AllOnTime(t, ttl) && AllStale(t, u, since)
    ensures var v := FamilyRevoked(t, f, now);
            && Sound(v) && AllStale(v, u, since)
            && (forall h :: h in t.rows ==> Root(v, h).issuedAt == Root(t, h).issuedAt)
  {
    RevokeKeepsOnTime(t, f, now, ttl);
    var v := FamilyRevoked(t, f, now);
    forall h | h in v.rows ensures Stale(v, u, since, h) {
      assert Stale(t, u, since, h);
    }
  }

  lemma CreateKeepsStale(t: Table, hash: Hash, f: Family, w: nat, now: int, ttl: nat, u: nat, since: int)
    requires Sound(t) && AllOnTime(t, ttl) && AllStale(t, u, since) && hash !in t.rows && f !in t.lineage
    ensures var v := Created(t, hash, f, w, now, now + ttl, None);
            && Sound(v) && AllStale(v, u, since)
            && (forall h :: h in t.rows ==> v.rows[h] == t.rows[h] && Root(v, h) == Root(t, h))
  {
    CreateKeepsOnTime(t, hash, f, w, now, ttl);
    var v := Created(t, hash, f, w, now, now + ttl, None);
    forall h | h in v.rows ensures Stale(v, u, since, h) {
      assert h in t.rows ==> Stale(t, u, since, h);
    }
  }

  lemma RotateKeepsStale(t: Table, hash: Hash, successor: Hash, at: int, ttl: nat, u: nat, since: int)
    requires RotatesTip(t, hash, successor, at) && AllOnTime(t, ttl) && AllStale(t, u, since)
    requires t.rows[hash].user == u && Root(t, hash).issuedAt <= since ==> at <= since
    ensures var v := Rotated(t, hash, successor, at);
            && Sound(v) && AllStale(v, u, since)
            && (forall h :: h in t.rows ==>
                  v.rows[h].user == t.rows[h].user && Root(v, h).issuedAt == Root(t, h).issuedAt)
  {
    RotateKeepsOnTime(t, hash, successor, at, ttl);
    var v := Rotated(t, hash, successor, at);
    forall h | h in v.rows ensures Stale(v, u, since, h) {
      assert h in t.rows ==> Stale(t, u, since, h);
    }
  }

  lemma AdmittedReadKeepsBarred(s: System, r: nat, hash: Hash, active: bool, u: nat, since: int)
    requires SoundSystem(s) && Barred(s, u, since) && hash in s.table.rows && Verdict(s, hash, active) == Proceed
    ensures SoundSystem(AfterRead(s, r, hash, active)) && Barred(AfterRead(s, r, hash, active), u, since)
  {
    ReadKeepsSound(s, r, hash, active);
    var n := AfterRead(s, r, hash, active);
    forall q | q in n.inFlight ensures StalePending(n, u, since, n.inFlight[q]) {
      if q != r {
        assert StalePending(s, u, since, s.inFlight[q]);
      } else if s.table.rows[hash].user == u && Root(s.table, hash).issuedAt <= since {
        StaleIsRefused(s, u, since, hash, active);
      }
    }
  }

  lemma ReadKeepsBarred(s: System, r: nat, hash: Hash, active: bool, u: nat, since: int)
    requires SoundSystem(s) && Barred(s, u, since) && hash in s.table.rows
    ensures SoundSystem(AfterRead(s, r, hash, active)) && Barred(AfterRead(s, r, hash, active), u, since)
  {
    match Verdict(s, hash, active)
    case Proceed => AdmittedReadKeepsBarred(s, r, hash, active, u, since);
    case Reuse => RevokeKeepsBarred(s, s.table.rows[hash].family, u, since);
    case Race =>
    case Invalid =>
  }

  lemma WriteKeepsBarred(s: System, r: nat, successor: Hash, u: nat, since: int)
    requires SoundSystem(s) && Barred(s, u, since) && r in s.inFlight && successor !in s.table.rows
    ensures SoundSystem(AfterWrite(s, r, successor)) && Barred(AfterWrite(s, r, successor), u, since)
  {
    WriteKeepsSound(s, r, successor);
    var p, n := s.inFlight[r], AfterWrite(s, r, successor);
    assert Grounded(s, p) && StalePending(s, u, since, p);
    if s.table.rows[p.hash].consumedAt.None? {
      RotateKeepsStale(s.table, p.hash, successor, p.since, s.ttl, u, since);
    } else {
      RevokeKeepsStale(s.table, s.table.rows[p.hash].family, s.now, s.ttl, u, since);
    }
    forall q | q in n.inFlight ensures StalePending(n, u, since, n.inFlight[q]) {
      assert Grounded(s, s.inFlight[q]) && StalePending(s, u, since, s.inFlight[q]);
    }
  }

  lemma LoginKeepsBarred(s: System, user: nat, f: Family, hash: Hash, u: nat, since: int)
    requires SoundSystem(s) && Barred(s, u, since) && hash !in s.table.rows && f !in s.table.lineage
    ensures var n := Next(s, Login(user, f, hash)); SoundSystem(n) && Barred(n, u, since)
  {
    StepKeepsSound(s, Login(user, f, hash));
    CreateKeepsStale(s.table, hash, f, user, s.now, s.ttl, u, since);
    var n := Next(s, Login(user, f, hash));
    forall q | q in n.inFlight ensures StalePending(n, u, since, n.inFlight[q]) {
      assert Grounded(s, s.inFlight[q]) && StalePending(s, u, since, s.inFlight[q]);
    }
  }

  lemma RevokeKeepsBarred(s: System, f: Family, u: nat, since: int)
    requires SoundSystem(s) && Barred(s, u, since)
    ensures var n := Next(s, Revoke(f)); SoundSystem(n) && Barred(n, u, since)
  {
    StepKeepsSound(s, Revoke(f));
    RevokeKeepsStale(s.table, f, s.now, s.ttl, u, since);
    var n := Next(s, Revoke(f));
    forall q | q in n.inFlight ensures StalePending(n, u, since, n.inFlight[q]) {
      assert StalePending(s, u, since, s.inFlight[q]);
    }
  }

  lemma StepKeepsBarred(s: System, step: Step, u: nat, since: int)
    requires SoundSystem(s) && Barred(s, u, since)
    ensures SoundSystem(Next(s, step)) && Barred(Next(s, step), u, since)
  {
    StepKeepsSound(s, step);
    match step
    case Tick(dt) =>
    case Login(user, f, hash) =>
      if hash !in s.table.rows && f !in s.table.lineage { LoginKeepsBarred(s, user, f, hash, u, since); }
    case Read(r, hash, active) =>
      if hash in s.table.rows && r !in s.inFlight { ReadKeepsBarred(s, r, hash, active, u, since); }
    case Write(r, successor) =>
      if r in s.inFlight && successor !in s.table.rows { WriteKeepsBarred(s, r, successor, u, since); }
    case Revoke(f) => RevokeKeepsBarred(s, f, u, since);
    case RevokeAll(w) =>
  }

  lemma {:induction false} RunKeepsBarred(s: System, steps: seq<Step>, u: nat, since: int)
    requires SoundSystem(s) && Barred(s, u, since)
    ensures SoundSystem(Run(s, steps)) && Barred(Run(s, steps), u, since)
    decreases |steps|
  {
    if steps != [] {
      StepKeepsBarred(s, steps[0], u, since);
      RunKeepsBarred(Next(s, steps[0]), steps[1..], u, since);
    }
  }

  /** In every interleaving, not only serially: after a user-wide revocation no refresh token of a family created at or
      before it passes the checks again, whether the key is still there or has expired. A refresh that was past its
      checks may still insert a row, but that row is stamped with its read, so the key covers it too. */
  lemma RevocationHoldsUnderInterleaving(now: int, ttl: nat, before: seq<Step>, u: nat, after: seq<Step>,
                                         h: Hash, active: bool)
    ensures var s := Run(Start(now, ttl), before); var end := Run(Next(s, RevokeAll(u)), after);
            && Sound(end.table)
            && (h in end.table.rows && end.table.rows[h].user == u && Root(end.table, h).issuedAt <= s.now ==>
                  Verdict(end, h, active) != Proceed)
  {
    var s := Run(Start(now, ttl), before);
    FamiliesStayChains(Start(now, ttl), before);
    var revoked := Next(s, RevokeAll(u));
    StepKeepsSound(s, RevokeAll(u));
    assert Barred(revoked, u, s.now) by {
      forall k | k in revoked.table.rows ensures Stale(revoked.table, u, s.now, k) {
      }
      forall r | r in revoked.inFlight ensures StalePending(revoked, u, s.now, revoked.inFlight[r]) {
        assert Grounded(s, s.inFlight[r]);
      }
    }
    RunKeepsBarred(revoked, after, u, s.now);
    var end := Run(revoked, after);
    if h in end.table.rows && end.table.rows[h].user == u && Root(end.table, h).issuedAt <= s.now {
      StaleIsRefused(end, u, s.now, h, active);
    }
  }

  // ------------------------------------------------------------------ when a dead family can come back

  /** A request past its checks still holds the family's unconsumed, unexpired token. */
  ghost predicate Revivable(s: System, f: Family) {
    exists r :: r in s.inFlight && Promising(s, s.inFlight[r].hash, f)
  }

  predicate Promising(s: System, h: Hash, f: Family) {
    && h in s.table.rows && s.table.rows[h].family == f
    && s.table.rows[h].consumedAt.None? && s.now < s.table.rows[h].expiresAt
  }

  /** No live row, and nobody about to insert one. */
  ghost predicate Extinct(s: System, f: Family) {
    f in s.table.lineage && !FamilyLive(s.table, f, s.now) && !Revivable(s, f)
  }

  lemma StepKeepsNoLiveRow(s: System, step: Step, f: Family)
    requires SoundSystem(s) && Extinct(s, f)
    ensures f in Next(s, step).table.lineage && !FamilyLive(Next(s, step).table, f, Next(s, step).now)
  {
    var n := Next(s, step);
    forall h | h in n.table.rows && n.table.rows[h].family == f ensures !LiveRow(n.table.rows[h], n.now) {
      if h in s.table.rows {
        assert !LiveRow(s.table.rows[h], s.now);
      } else if step.Write? {
        assert !Promising(s, s.inFlight[step.r].hash, f);
      }
    }
  }

  /** A read lets no token of an extinct family through. */
  lemma ReadKeepsUnrevivable(s: System, r: nat, hash: Hash, active: bool, f: Family)
    requires Extinct(s, f) && hash in s.table.rows
    ensures !Revivable(AfterRead(s, r, hash, active), f)
  {
    var n := AfterRead(s, r, hash, active);
    assert s.table.rows[hash].family == f ==> !LiveRow(s.table.rows[hash], s.now);
    forall q | q in n.inFlight ensures !Promising(n, n.inFlight[q].hash, f) {
      assert q in s.inFlight ==> !Promising(s, s.inFlight[q].hash, f);
    }
  }

  lemma WriteKeepsUnrevivable(s: System, r: nat, successor: Hash, f: Family)
    requires SoundSystem(s) && Extinct(s, f) && r in s.inFlight && successor !in s.table.rows
    ensures !Revivable(AfterWrite(s, r, successor), f)
  {
    var n := AfterWrite(s, r, successor);
    forall q | q in n.inFlight ensures !Promising(n, n.inFlight[q].hash, f) {
      assert Grounded(s, s.inFlight[q]) && !Promising(s, s.inFlight[q].hash, f);
    }
  }

  lemma StepKeepsUnrevivable(s: System, step: Step, f: Family)
    requires SoundSystem(s) && Extinct(s, f)
    ensures !Revivable(Next(s, step), f)
  {
    if step.Read? && step.hash in s.table.rows && step.r !in s.inFlight {
      ReadKeepsUnrevivable(s, step.r, step.hash, step.active, f);
    } else if step.Write? && step.r in s.inFlight && step.successor !in s.table.rows {
      WriteKeepsUnrevivable(s, step.r, step.successor, f);
    } else {
      forall q | q in s.inFlight ensures !Promising(Next(s, step), s.inFlight[q].hash, f) {
        assert Grounded(s, s.inFlight[q]) && !Promising(s, s.inFlight[q].hash, f);
      }
    }
  }

  lemma {:induction false} DeadStaysDead(s: System, steps: seq<Step>, f: Family)
    requires SoundSystem(s) && Extinct(s, f)
    ensures !FamilyLive(Run(s, steps).table, f, Run(s, steps).now)
    decreases |steps|
  {
    if steps != [] {
      StepKeepsSound(s, steps[0]);
      StepKeepsNoLiveRow(s, steps[0], f);
      StepKeepsUnrevivable(s, steps[0], f);
      DeadStaysDead(Next(s, steps[0]), steps[1..], f);
    }
  }

  lemma UnusedHash(used: set<Hash>) returns (h: Hash)
    ensures h !in used
  {
    var rest := used;
    var bound: nat := 0;
    while rest != {}
      invariant rest <= used && forall x :: x in used && x !in rest ==> x < bound
      decreases |rest|
    {
      var x :| x in rest;
      rest := rest - {x};
      bound := if x < bound then bound else x + 1;
    }
    h := bound;
  }

  /** "A revoked family never becomes live again" under interleaving: true of a dead family exactly when no refresh
      that passed its checks before the revocation still holds the family's newest token. */
  lemma RevivedIffRefreshPending(s: System, f: Family)
    requires SoundSystem(s) && f in s.table.lineage && !FamilyLive(s.table, f, s.now)
    ensures (exists steps :: FamilyLive(Run(s, steps).table, f, Run(s, steps).now)) <==> Revivable(s, f)
  {
    if Revivable(s, f) {
      var r :| r in s.inFlight && Promising(s, s.inFlight[r].hash, f);
      var successor := UnusedHash(s.table.rows.Keys);
      var n := Next(s, Write(r, successor));
      RunCons(s, Write(r, successor), []);
      assert n.table.rows[successor].family == f && LiveRow(n.table.rows[successor], n.now);
      assert FamilyLive(Run(s, [Write(r, successor)] + []).table, f, Run(s, [Write(r, successor)] + []).now);
    } else {
      forall steps ensures !FamilyLive(Run(s, steps).table, f, Run(s, steps).now) {
        DeadStaysDead(s, steps, f);
      }
    }
  }

  /** "A revoked family never becomes live again" needs serial requests: the consume tests `consumed_at` only, so a
      refresh that read the token before a logout still inserts an unrevoked row into the family the logout revoked. */
  lemma RefreshRevivesRevokedFamily(now: int, ttl: nat) returns (revoked: seq<Step>, steps: seq<Step>)
    requires ttl > 0
    ensures !FamilyLive(Run(Start(now, ttl), revoked).table, 5, now) && Run(Start(now, ttl), revoked).now == now
    ensures FamilyLive(Run(Start(now, ttl), revoked + steps).table, 5, now)
    ensures Run(Start(now, ttl), revoked + steps).now == now
  {
    var s := Start(now, ttl);
    var a, b, c, d := Login(1, 5, 100), Read(0, 100, true), Revoke(5), Write(0, 101);
    var s1 := Next(s, a);
    var s2 := Next(s1, b);
    assert s2.inFlight == map[0 := Pending(100, now)];
    var s3 := Next(s2, c);
    var s4 := Next(s3, d);
    revoked := [a] + ([b] + ([c] + []));
    steps := [d] + [];
    RunCons(s, a, [b] + ([c] + []));
    RunCons(s1, b, [c] + []);
    RunCons(s2, c, []);
    RunCons(s3, d, []);
    RunConcat(s, revoked, steps);
    assert s4.table.rows[101].family == 5 && LiveRow(s4.table.rows[101], now);
  }
}
