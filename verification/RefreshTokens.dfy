/** The `refresh_tokens` table, single-use rotation, and the shape of a token family under every interleaving. */
module RefreshTokens {
  import opened Prelude

  type Hash = nat
  type Family = nat

  const GRACE_WINDOW: nat := 10 * SECOND
  const IDLE_TIMEOUT: nat := 14 * 86400 * SECOND

  /** The columns of a row, and as a history variable the number of rotations that led to it. */
  datatype Row = Row(
    family: Family, user: nat, issuedAt: int, expiresAt: int,
    revokedAt: Option<int>, consumedAt: Option<int>, lastUsedAt: Option<int>, generation: nat)

  /** The table; `lineage` (rows of a family in insertion order) and `rotations` (which token was exchanged for which)
      are history. */
  datatype Table = Table(rows: map<Hash, Row>, lineage: map<Family, seq<Hash>>, rotations: set<(Hash, Hash)>)

  const EMPTY: Table := Table(map[], map[], {})

  // ------------------------------------------------------------------ repository writes

  function LineageOf(t: Table, f: Family): seq<Hash> {
    if f in t.lineage then t.lineage[f] else []
  }

  /** `create_refresh_token`. */
  function Created(t: Table, hash: Hash, f: Family, user: nat, now: int, expiresAt: int,
                   lastUsedAt: Option<int>): Table {
    var line := LineageOf(t, f);
    Table(t.rows[hash := Row(f, user, now, expiresAt, None, None, lastUsedAt, |line|)],
          t.lineage[f := line + [hash]], t.rotations)
  }

  /** `revoke_refresh_token_family`: every row of the family, whatever its state. */
  function FamilyRevoked(t: Table, f: Family, now: int): Table {
    t.(rows := map h | h in t.rows :: if t.rows[h].family == f then t.rows[h].(revokedAt := Some(now)) else t.rows[h])
  }

  /** `consume_refresh_token`: guarded by `consumed_at IS NULL` and nothing else. */
  function Consumed(t: Table, hash: Hash, now: int): Option<Table> {
    if hash in t.rows && t.rows[hash].consumedAt.None?
    then Some(t.(rows := t.rows[hash := t.rows[hash].(consumedAt := Some(now))]))
    else None
  }

  /** Exchanging an unconsumed token: consume it and insert its successor with the same family, user and expiry. */
  function Rotated(t: Table, hash: Hash, successor: Hash, now: int): Table
    requires hash in t.rows
  {
    var r := t.rows[hash];
    var used := t.(rows := t.rows[hash := r.(consumedAt := Some(now))], rotations := t.rotations + {(hash, successor)});
    Created(used, successor, r.family, r.user, now, r.expiresAt, Some(now))
  }

  // ------------------------------------------------------------------ the checks of rotate_refresh_token

  datatype Verdict = Invalid | Race | Reuse | Proceed

  function ReuseOrRace(consumedAt: int, now: int): Verdict {
    if now - consumedAt <= GRACE_WINDOW then Race else Reuse
  }

  function LastUse(r: Row): int {
    if r.lastUsedAt.Some? then r.lastUsedAt.value else r.issuedAt
  }

  /** `active` says the account exists and is not deactivated; `revokeBefore` is the live value of its revocation
      key. */
  function Judge(r: Row, now: int, active: bool, revokeBefore: Option<int>): Verdict {
    if r.expiresAt <= now then Invalid
    else if r.revokedAt.Some? then Invalid
    else if r.consumedAt.Some? then ReuseOrRace(r.consumedAt.value, now)
    else if !active then Invalid
    else if revokeBefore.Some? && r.issuedAt <= revokeBefore.value then Invalid
    else if now - LastUse(r) > IDLE_TIMEOUT then Invalid
    else Proceed
  }

  predicate LiveRow(r: Row, now: int) {
    r.revokedAt.None? && r.expiresAt > now
  }

  // ------------------------------------------------------------------ families are chains

  /** A row has its place in its family's chain, is consumed exactly when it is not the newest, shares user and expiry
      with the first row, and was obtained in exchange for the row before it. */
  ghost predicate RowSound(t: Table, h: Hash)
    requires h in t.rows
  {
    var r := t.rows[h];
    && r.family in t.lineage
    && var line := t.lineage[r.family];
       && r.generation < |line| && line[r.generation] == h
       && (r.consumedAt.Some? <==> r.generation + 1 < |line|)
       && (r.generation > 0 ==> (line[r.generation - 1], h) in t.rotations)
       && line[0] in t.rows
       && var root := t.rows[line[0]];
          r.user == root.user && r.expiresAt == root.expiresAt && root.issuedAt <= r.issuedAt
  }

  /** A chain holds rows of its family, in order of generation. */
  ghost predicate LinkSound(t: Table, f: Family, i: nat)
    requires f in t.lineage && i < |t.lineage[f]|
  {
    var h := t.lineage[f][i];
    h in t.rows && t.rows[h].family == f && t.rows[h].generation == i
  }

  /** An exchange leads from a row to the next generation of its family. */
  predicate Successive(t: Table, x: (Hash, Hash)) {
    && x.0 in t.rows && x.1 in t.rows && t.rows[x.0].family == t.rows[x.1].family
    && t.rows[x.1].generation == t.rows[x.0].generation + 1
  }

  /** Every family is one chain: consecutive generations, the newest row the only unconsumed one, user and expiry
      shared. */
  ghost predicate Sound(t: Table) {
    && (forall h {:trigger RowSound(t, h)} :: h in t.rows ==> RowSound(t, h))
    && (forall f, i: nat {:trigger LinkSound(t, f, i)} :: f in t.lineage && i < |t.lineage[f]| ==> LinkSound(t, f, i))
    && (forall f {:trigger t.lineage[f]} :: f in t.lineage ==> |t.lineage[f]| > 0)
    && (forall x {:trigger Successive(t, x)} :: x in t.rotations ==> Successive(t, x))
  }

  /** The first row of the family. */
  function Root(t: Table, h: Hash): Row
    requires Sound(t) && h in t.rows
  {
    assert RowSound(t, h);
    t.rows[t.lineage[t.rows[h].family][0]]
  }

  /** The newest row of a family. */
  function Tip(t: Table, f: Family): Hash
    requires f in t.lineage && |t.lineage[f]| > 0
  {
    t.lineage[f][|t.lineage[f]| - 1]
  }

  ghost predicate IssuedBy(t: Table, now: int) {
    forall h :: h in t.rows ==> t.rows[h].issuedAt <= now
  }

  lemma CreateKeepsRow(t: Table, hash: Hash, f: Family, user: nat, now: int, expiresAt: int, h: Hash)
    requires Sound(t) && hash !in t.rows && f !in t.lineage && (h == hash || h in t.rows)
    ensures RowSound(Created(t, hash, f, user, now, expiresAt, None), h)
  {
    assert Created(t, hash, f, user, now, expiresAt, None).lineage[f] == [hash];
    if h != hash {
      assert RowSound(t, h);
    }
  }

  lemma CreateKeepsLink(t: Table, hash: Hash, f: Family, user: nat, now: int, expiresAt: int, g: Family, i: nat)
    requires Sound(t) && hash !in t.rows && f !in t.lineage
    requires var v := Created(t, hash, f, user, now, expiresAt, None); g in v.lineage && i < |v.lineage[g]|
    ensures LinkSound(Created(t, hash, f, user, now, expiresAt, None), g, i)
  {
    if g != f {
      assert LinkSound(t, g, i);
    }
  }

  lemma CreateKeepsSound(t: Table, hash: Hash, f: Family, user: nat, now: int, expiresAt: int)
    requires Sound(t) && hash !in t.rows && f !in t.lineage
    ensures Sound(Created(t, hash, f, user, now, expiresAt, None))
  {
    var v := Created(t, hash, f, user, now, expiresAt, None);
    forall h | h in v.rows ensures RowSound(v, h) {
      CreateKeepsRow(t, hash, f, user, now, expiresAt, h);
    }
    forall g, i: nat | g in v.lineage && i < |v.lineage[g]| ensures LinkSound(v, g, i) {
      CreateKeepsLink(t, hash, f, user, now, expiresAt, g, i);
    }
    forall g | g in v.lineage ensures |v.lineage[g]| > 0 {
    }
    forall x | x in v.rotations ensures Successive(v, x) {
      assert Successive(t, x);
    }
  }

  /** What a rotation of a tip needs: an unconsumed row, a new hash, and a stamp no earlier than the row's own. */
  ghost predicate RotatesTip(t: Table, hash: Hash, successor: Hash, now: int) {
    && Sound(t) && hash in t.rows && successor !in t.rows
    && t.rows[hash].consumedAt.None? && t.rows[hash].issuedAt <= now
  }

  lemma RotateKeepsRow(t: Table, hash: Hash, successor: Hash, now: int, h: Hash)
    requires RotatesTip(t, hash, successor, now) && h in Rotated(t, hash, successor, now).rows
    ensures RowSound(Rotated(t, hash, successor, now), h)
  {
    var v, f := Rotated(t, hash, successor, now), t.rows[hash].family;
    assert RowSound(t, hash);
    assert v.lineage[f] == t.lineage[f] + [successor];
    if h != successor {
      assert RowSound(t, h);
    }
  }

  lemma RotateKeepsLink(t: Table, hash: Hash, successor: Hash, now: int, g: Family, i: nat)
    requires RotatesTip(t, hash, successor, now)
    requires g in Rotated(t, hash, successor, now).lineage && i < |Rotated(t, hash, successor, now).lineage[g]|
    ensures LinkSound(Rotated(t, hash, successor, now), g, i)
  {
    var v, f := Rotated(t, hash, successor, now), t.rows[hash].family;
    assert RowSound(t, hash);
    assert v.lineage[f] == t.lineage[f] + [successor];
    if g != f || i < |t.lineage[f]| {
      assert LinkSound(t, g, i);
    }
  }

  lemma RotateKeepsSuccessive(t: Table, hash: Hash, successor: Hash, now: int, x: (Hash, Hash))
    requires RotatesTip(t, hash, successor, now) && x in Rotated(t, hash, successor, now).rotations
    ensures Successive(Rotated(t, hash, successor, now), x)
  {
    assert RowSound(t, hash);
    if x in t.rotations {
      assert Successive(t, x);
    }
  }

  lemma RotateKeepsSound(t: Table, hash: Hash, successor: Hash, now: int)
    requires RotatesTip(t, hash, successor, now)
    ensures Sound(Rotated(t, hash, successor, now))
  {
    var v := Rotated(t, hash, successor, now);
    forall g | g in v.lineage ensures |v.lineage[g]| > 0 {
    }
    forall h | h in v.rows ensures RowSound(v, h) {
      RotateKeepsRow(t, hash, successor, now, h);
    }
    forall g, i: nat | g in v.lineage && i < |v.lineage[g]| ensures LinkSound(v, g, i) {
      RotateKeepsLink(t, hash, successor, now, g, i);
    }
    forall x | x in v.rotations ensures Successive(v, x) {
      RotateKeepsSuccessive(t, hash, successor, now, x);
    }
  }

  lemma RotateKeepsRoot(t: Table, hash: Hash, successor: Hash, now: int, h: Hash)
    requires RotatesTip(t, hash, successor, now) && h in Rotated(t, hash, successor, now).rows
    ensures Sound(Rotated(t, hash, successor, now))
    ensures var source := if h == successor then hash else h;
            Root(Rotated(t, hash, successor, now), h)
            == Root(t, source).(consumedAt := Root(Rotated(t, hash, successor, now), h).consumedAt)
  {
    RotateKeepsSound(t, hash, successor, now);
    var f, source := t.rows[hash].family, if h == successor then hash else h;
    assert RowSound(t, hash) && RowSound(t, source);
    assert Rotated(t, hash, successor, now).lineage[f] == t.lineage[f] + [successor];
  }

  lemma RevokeKeepsSound(t: Table, f: Family, now: int)
    requires Sound(t)
    ensures Sound(FamilyRevoked(t, f, now))
  {
    var v := FamilyRevoked(t, f, now);
    forall h | h in v.rows ensures RowSound(v, h) {
      assert RowSound(t, h);
    }
    forall g, i: nat | g in v.lineage && i < |v.lineage[g]| ensures LinkSound(v, g, i) {
      assert LinkSound(t, g, i);
    }
    forall x | x in v.rotations ensures Successive(v, x) {
      assert Successive(t, x);
    }
  }

  // ------------------------------------------------------------------ what a sound table means

  /** A token is exchanged at most once. */
  lemma AtMostOneSuccessor(t: Table, a: Hash, b: Hash, c: Hash)
    requires Sound(t) && (a, b) in t.rotations && (a, c) in t.rotations
    ensures b == c
  {
    assert Successive(t, (a, b)) && Successive(t, (a, c));
    assert RowSound(t, b) && RowSound(t, c);
  }

  /** A family has exactly one unconsumed row: the last one inserted. */
  lemma ExactlyOneUnconsumed(t: Table, h: Hash)
    requires Sound(t) && h in t.rows
    ensures t.rows[h].family in t.lineage && t.lineage[t.rows[h].family] != []
    ensures t.rows[h].consumedAt.None? <==> h == Tip(t, t.rows[h].family)
    ensures Tip(t, t.rows[h].family) in t.rows && t.rows[Tip(t, t.rows[h].family)].family == t.rows[h].family
  {
    assert RowSound(t, h);
    var f := t.rows[h].family;
    assert LinkSound(t, f, |t.lineage[f]| - 1);
  }

  /** Rows of one family share their owner and the expiry of the first row. */
  lemma FamilySharesUserAndExpiry(t: Table, h: Hash, k: Hash)
    requires Sound(t) && h in t.rows && k in t.rows && t.rows[h].family == t.rows[k].family
    ensures t.rows[h].user == t.rows[k].user && t.rows[h].expiresAt == t.rows[k].expiresAt == Root(t, h).expiresAt
  {
    assert RowSound(t, h) && RowSound(t, k);
  }

  ghost predicate FamilyLive(t: Table, f: Family, now: int) {
    exists h :: h in t.rows && t.rows[h].family == f && LiveRow(t.rows[h], now)
  }
}
