/** The audit log's hash chain: the insert trigger that extends it and the verifier that walks it. */
module AuditChain {
  import opened Prelude
  import opened Ordering

  /** Text that cannot be confused with the `|` separator of the hashed concatenation. */
  type Plain = s: string | '|' !in s witness ""

  /** UUIDs in text form; never empty, so an absent one is told apart from every present one. */
  type Uuid = s: string | '|' !in s && s != "" witness "0"

  /** `jsonb` in text form is never empty. */
  type Json = s: string | s != "" witness "0"

  /** The columns covered by the row hash. The row's own `id` is not one of them. */
  datatype Body = Body(at: int, actor: Option<Uuid>, event: Plain, target: Option<Uuid>, payload: Option<Json>)

  datatype Row = Row(id: int, body: Body, previousHash: Plain, rowHash: Plain)

  /** A row-hash function and the value that seeds the first row. */
  datatype Hasher = Hasher(row: (Plain, Body) -> Plain, genesis: Plain)

  /** No two inputs share a digest, and no row hashes to the genesis value. */
  ghost predicate Collisionless(h: Hasher) {
    && (forall p, b, q, c {:trigger h.row(p, b), h.row(q, c)} :: h.row(p, b) == h.row(q, c) ==> p == q && b == c)
    && (forall p, b :: h.row(p, b) != h.genesis)
  }

  // ------------------------------------------------------------------ audit_log_row_hash

  function Join(head: string, tail: string): string {
    head + "|" + tail
  }

  function Coalesce(t: Option<string>): string {
    if t.Some? then t.value else ""
  }

  /** The text handed to SHA-256. */
  function Preimage(stamp: int -> Plain, previous: Plain, b: Body): string {
    Join(previous,
         Join(stamp(b.at), Join(Coalesce(b.actor), Join(b.event, Join(Coalesce(b.target), Coalesce(b.payload))))))
  }

  /** `audit_log_row_hash`, with the genesis value being the digest of the empty string. */
  function SqlHasher(sha: string -> Plain, stamp: int -> Plain): Hasher {
    Hasher((p, b) => sha(Preimage(stamp, p, b)), sha(""))
  }

  /** The hashed text, column by column. */
  lemma PreimageFormat(stamp: int -> Plain, previous: Plain, b: Body)
    ensures Preimage(stamp, previous, b)
            == previous + "|" + stamp(b.at) + "|" + (if b.actor.Some? then b.actor.value else "") + "|" + b.event + "|"
               + (if b.target.Some? then b.target.value else "") + "|"
               + (if b.payload.Some? then b.payload.value else "")
  {
  }

  lemma JoinSplits(a: Plain, x: string, b: Plain, y: string)
    requires Join(a, x) == Join(b, y)
    ensures a == b && x == y
  {
    var l, r := Join(a, x), Join(b, y);
    assert l[|a|] == '|' && r[|b|] == '|';
    assert forall i :: 0 <= i < |a| ==> l[i] == a[i];
    assert forall i :: 0 <= i < |b| ==> r[i] == b[i];
    assert |a| == |b|;
    assert a == l[..|a|] && b == r[..|b|];
    assert x == l[|a| + 1..] && y == r[|b| + 1..];
  }

  /** The concatenation loses nothing, so an injective digest makes the whole row hash collisionless. */
  lemma SqlHasherIsCollisionless(sha: string -> Plain, stamp: int -> Plain)
    requires forall x, y {:trigger sha(x), sha(y)} :: sha(x) == sha(y) ==> x == y
    requires forall s, t {:trigger stamp(s), stamp(t)} :: stamp(s) == stamp(t) ==> s == t
    ensures Collisionless(SqlHasher(sha, stamp))
  {
    var h := SqlHasher(sha, stamp);
    forall p, b, q, c | h.row(p, b) == h.row(q, c) ensures p == q && b == c {
      var b4, c4 := Join(Coalesce(b.target), Coalesce(b.payload)), Join(Coalesce(c.target), Coalesce(c.payload));
      var b3, c3 := Join(b.event, b4), Join(c.event, c4);
      var b2, c2 := Join(Coalesce(b.actor), b3), Join(Coalesce(c.actor), c3);
      assert sha(Preimage(stamp, p, b)) == h.row(p, b) == h.row(q, c) == sha(Preimage(stamp, q, c));
      assert Preimage(stamp, p, b) == Preimage(stamp, q, c);
      JoinSplits(p, Join(stamp(b.at), b2), q, Join(stamp(c.at), c2));
      JoinSplits(stamp(b.at), b2, stamp(c.at), c2);
      JoinSplits(Coalesce(b.actor), b3, Coalesce(c.actor), c3);
      JoinSplits(b.event, b4, c.event, c4);
      JoinSplits(Coalesce(b.target), Coalesce(b.payload), Coalesce(c.target), Coalesce(c.payload));
    }
    forall p, b ensures h.row(p, b) != h.genesis {
      assert |Preimage(stamp, p, b)| > 0;
    }
  }

  // ------------------------------------------------------------------ the insert trigger

  function RowKey(r: Row): Key {
    Key(r.body.at, r.id)
  }

  /** `ORDER BY occurred_at DESC, id DESC LIMIT 1`. */
  function Latest(log: seq<Row>): (r: Row)
    requires log != []
    ensures r in log
    ensures forall i :: 0 <= i < |log| ==> !Less(RowKey(r), RowKey(log[i]))
  {
    if |log| == 1 then log[0]
    else
      var m := Latest(log[..|log| - 1]);
      if Less(RowKey(m), RowKey(log[|log| - 1])) then log[|log| - 1] else m
  }

  function Seed(h: Hasher, log: seq<Row>): Plain {
    if log == [] then h.genesis else Latest(log).rowHash
  }

  function Stamped(h: Hasher, log: seq<Row>, id: int, body: Body): Row {
    Row(id, body, Seed(h, log), h.row(Seed(h, log), body))
  }

  /** Every row of `log`, in insertion order, is what the trigger wrote for it. */
  ghost predicate BuiltByTrigger(h: Hasher, log: seq<Row>) {
    forall k :: 0 <= k < |log| ==> log[k] == Stamped(h, log[..k], log[k].id, log[k].body)
  }

  /** No row has a later timestamp, nor the same one with a greater identifier. */
  ghost predicate Newest(log: seq<Row>, r: Row) {
    forall q :: q in log ==> q.body.at < r.body.at || (q.body.at == r.body.at && q.id <= r.id)
  }

  lemma LatestIsNewest(log: seq<Row>)
    requires log != []
    ensures Latest(log) in log && Newest(log, Latest(log))
  {
    var r := Latest(log);
    forall q | q in log ensures q.body.at < r.body.at || (q.body.at == r.body.at && q.id <= r.id) {
      var i :| 0 <= i < |log| && log[i] == q;
      assert !Less(RowKey(r), RowKey(log[i]));
    }
  }

  lemma LatestStep(log: seq<Row>, i: nat)
    requires 0 < i < |log|
    ensures Latest(log[..i + 1]) == if Less(RowKey(Latest(log[..i])), RowKey(log[i])) then log[i] else Latest(log[..i])
  {
    assert log[..i + 1][..i] == log[..i];
  }

  /** The `audit_log` table behind its BEFORE INSERT trigger. */
  class AuditLogTable {
    const hasher: Hasher
    var rows: seq<Row>

    constructor (h: Hasher)
      ensures hasher == h && rows == []
      ensures BuiltByTrigger(h, rows)
    {
      hasher, rows := h, [];
    }

    /** The trigger's seed query. */
    method SeedHash() returns (previous: Plain)
      ensures rows == [] ==> previous == hasher.genesis
      ensures rows != [] ==> exists r :: r in rows && r.rowHash == previous && Newest(rows, r)
      ensures previous == Seed(hasher, rows)
    {
      if rows == [] {
        return hasher.genesis;
      }
      var best := rows[0];
      for i := 1 to |rows|
        invariant best == Latest(rows[..i])
      {
        LatestStep(rows, i);
        if Less(RowKey(best), RowKey(rows[i])) {
          best := rows[i];
        }
      }
      assert rows[..|rows|] == rows;
      LatestIsNewest(rows);
      return best.rowHash;
    }

    method Insert(id: int, body: Body)
      requires BuiltByTrigger(hasher, rows)
      modifies this
      ensures |rows| == |old(rows)| + 1 && rows[..|old(rows)|] == old(rows)
      ensures var r := rows[|old(rows)|];
              && r.id == id && r.body == body && r.rowHash == hasher.row(r.previousHash, body)
              && (old(rows) == [] ==> r.previousHash == hasher.genesis)
              && (old(rows) != [] ==> exists q :: q in old(rows) && q.rowHash == r.previousHash && Newest(old(rows), q))
      ensures rows == old(rows) + [Stamped(hasher, old(rows), id, body)]
      ensures BuiltByTrigger(hasher, rows)
    {
      AppendKeepsBuilt(hasher, rows, id, body);
      var previous := SeedHash();
      rows := rows + [Row(id, body, previous, hasher.row(previous, body))];
    }
  }

  lemma AppendKeepsBuilt(h: Hasher, log: seq<Row>, id: int, body: Body)
    requires BuiltByTrigger(h, log)
    ensures BuiltByTrigger(h, log + [Stamped(h, log, id, body)])
  {
    var grown := log + [Stamped(h, log, id, body)];
    forall k | 0 <= k < |grown| ensures grown[k] == Stamped(h, grown[..k], grown[k].id, grown[k].body) {
      if k < |log| {
        assert grown[..k] == log[..k];
      } else {
        assert grown[..k] == log;
      }
    }
  }

  // ------------------------------------------------------------------ verify_chain

  datatype ChainRow = ChainRow(id: int, at: int, event: string, previousHash: string, rowHash: string,
                               expectedRowHash: string)

  datatype Reason = PreviousHashMismatch | RowHashMismatch

  datatype ChainBreak = ChainBreak(id: int, at: int, event: string, reason: Reason)

  /** What is wrong with row `i`, given the row before it. */
  function Fault(genesis: string, rows: seq<ChainRow>, i: nat): Option<Reason>
    requires i < |rows|
  {
    if rows[i].previousHash != (if i == 0 then genesis else rows[i - 1].rowHash) then Some(PreviousHashMismatch)
    else if rows[i].rowHash != rows[i].expectedRowHash then Some(RowHashMismatch)
    else None
  }

  /** The row names the hash of the row before it, the first one the genesis value. */
  predicate Linked(genesis: string, rows: seq<ChainRow>, i: nat)
    requires i < |rows|
  {
    if i == 0 then rows[i].previousHash == genesis else rows[i].previousHash == rows[i - 1].rowHash
  }

  ghost predicate Accepted(genesis: string, rows: seq<ChainRow>) {
    forall i :: 0 <= i < |rows| ==> Fault(genesis, rows, i).None?
  }

  /** Reports nothing exactly when the chain is accepted, and otherwise the first faulty row. */
  method VerifyChain(genesis: string, rows: seq<ChainRow>) returns (found: Option<ChainBreak>)
    ensures found.None? <==> Accepted(genesis, rows)
    ensures found.Some? ==> exists i ::
              && 0 <= i < |rows| && Accepted(genesis, rows[..i]) && Fault(genesis, rows, i).Some?
              && found.value == ChainBreak(rows[i].id, rows[i].at, rows[i].event, Fault(genesis, rows, i).value)
    ensures found.None? <==>
              forall i :: 0 <= i < |rows| ==> Linked(genesis, rows, i) && rows[i].rowHash == rows[i].expectedRowHash
    ensures found.Some? ==> exists i ::
              && 0 <= i < |rows| && rows[i].id == found.value.id
              && (forall j :: 0 <= j < i ==> Linked(genesis, rows, j) && rows[j].rowHash == rows[j].expectedRowHash)
              && (found.value.reason == PreviousHashMismatch <==> !Linked(genesis, rows, i))
              && (found.value.reason == RowHashMismatch ==> rows[i].rowHash != rows[i].expectedRowHash)
  {
    var expectedPreviousHash := genesis;
    for i := 0 to |rows|
      invariant expectedPreviousHash == if i == 0 then genesis else rows[i - 1].rowHash
      invariant forall j :: 0 <= j < i ==> Fault(genesis, rows, j).None?
      invariant forall j :: 0 <= j < i ==> Linked(genesis, rows, j) && rows[j].rowHash == rows[j].expectedRowHash
    {
      var row := rows[i];
      if row.previousHash != expectedPreviousHash {
        assert !Linked(genesis, rows, i);
        assert Fault(genesis, rows, i).Some?;
        assert Accepted(genesis, rows[..i]) by { PrefixFaults(genesis, rows, i); }
        return Some(ChainBreak(row.id, row.at, row.event, PreviousHashMismatch));
      }
      assert Linked(genesis, rows, i);
      if row.rowHash != row.expectedRowHash {
        assert Fault(genesis, rows, i).Some?;
        assert Accepted(genesis, rows[..i]) by { PrefixFaults(genesis, rows, i); }
        return Some(ChainBreak(row.id, row.at, row.event, RowHashMismatch));
      }
      expectedPreviousHash := row.rowHash;
    }
    return None;
  }

  lemma PrefixFaults(genesis: string, rows: seq<ChainRow>, n: nat)
    requires n <= |rows|
    ensures forall i :: 0 <= i < n ==> Fault(genesis, rows[..n], i) == Fault(genesis, rows, i)
  {
    forall i | 0 <= i < n ensures Fault(genesis, rows[..n], i) == Fault(genesis, rows, i) {
      assert rows[..n][i] == rows[i];
    }
  }

  /** Dropping any suffix of an accepted chain goes unnoticed. */
  lemma PrefixAccepted(genesis: string, rows: seq<ChainRow>, n: nat)
    requires Accepted(genesis, rows) && n <= |rows|
    ensures Accepted(genesis, rows[..n])
  {
    PrefixFaults(genesis, rows, n);
  }

  // ------------------------------------------------------------------ the verifier over the table

  function Fetched(h: Hasher, r: Row): ChainRow {
    ChainRow(r.id, r.body.at, r.body.event, r.previousHash, r.rowHash, h.row(r.previousHash, r.body))
  }

  function FetchAll(h: Hasher, rows: seq<Row>): seq<ChainRow> {
    seq(|rows|, i requires 0 <= i < |rows| => Fetched(h, rows[i]))
  }

  ghost predicate Intact(h: Hasher, rows: seq<Row>) {
    Accepted(h.genesis, FetchAll(h, rows))
  }

  /** What the verifier is given about a row is that row's own columns and the hash recomputed from them. */
  lemma FetchedTellsTheRow(h: Hasher, rows: seq<Row>, i: nat)
    requires i < |rows|
    ensures |FetchAll(h, rows)| == |rows|
    ensures var c, r := FetchAll(h, rows)[i], rows[i];
            && c.id == r.id && c.at == r.body.at && c.event == r.body.event
            && c.previousHash == r.previousHash && c.rowHash == r.rowHash
            && c.expectedRowHash == h.row(r.previousHash, r.body)
  {
  }

  /** The order in which the verifier reads the table. */
  function Walk(log: seq<Row>): seq<Row> {
    OrderBy(RowKey, false, log)
  }

  lemma IntactAt(h: Hasher, rows: seq<Row>, i: nat)
    requires Intact(h, rows) && i < |rows|
    ensures rows[i].previousHash == if i == 0 then h.genesis else rows[i - 1].rowHash
    ensures rows[i].rowHash == h.row(rows[i].previousHash, rows[i].body)
  {
    var fetched := FetchAll(h, rows);
    assert Fault(h.genesis, fetched, i).None?;
    if i > 0 {
      assert fetched[i - 1] == Fetched(h, rows[i - 1]);
    }
  }

  lemma {:induction false} IntactHashesDiffer(h: Hasher, rows: seq<Row>, i: nat, j: nat)
    requires Collisionless(h) && Intact(h, rows)
    requires i < j < |rows|
    ensures rows[i].rowHash != rows[j].rowHash
  {
    IntactAt(h, rows, i);
    IntactAt(h, rows, j);
    if i == 0 {
      IntactAt(h, rows, j - 1);
    } else {
      IntactHashesDiffer(h, rows, i - 1, j - 1);
    }
  }

  /** The last row's hash pins down the length and the hashed content of the whole accepted chain. */
  lemma {:induction false} SameTailSameHistory(h: Hasher, a: seq<Row>, b: seq<Row>)
    requires Collisionless(h) && Intact(h, a) && Intact(h, b)
    requires a != [] && b != []
    requires a[|a| - 1].rowHash == b[|b| - 1].rowHash
    ensures |a| == |b|
    ensures forall i :: 0 <= i < |a| ==> a[i].body == b[i].body
  {
    var m, n := |a| - 1, |b| - 1;
    IntactAt(h, a, m);
    IntactAt(h, b, n);
    if m > 0 { IntactAt(h, a, m - 1); }
    if n > 0 { IntactAt(h, b, n - 1); }
    if m > 0 && n > 0 {
      IntactPrefix(h, a, m);
      IntactPrefix(h, b, n);
      SameTailSameHistory(h, a[..m], b[..n]);
      forall i | 0 <= i < m ensures a[i].body == b[i].body {
        assert a[..m][i].body == b[..n][i].body;
      }
    }
  }

  lemma IntactPrefix(h: Hasher, rows: seq<Row>, n: nat)
    requires Intact(h, rows) && n <= |rows|
    ensures Intact(h, rows[..n])
  {
    PrefixAccepted(h.genesis, FetchAll(h, rows), n);
    assert FetchAll(h, rows[..n]) == FetchAll(h, rows)[..n];
  }

  /** A log built only by the trigger verifies exactly when its rows were inserted in the verifier's order. */
  lemma TriggerLogVerifiesIffInsertedInOrder(h: Hasher, log: seq<Row>)
    requires Collisionless(h)
    requires BuiltByTrigger(h, log) && DistinctKeys(RowKey, log)
    ensures Intact(h, Walk(log)) <==> Ordered(RowKey, false, log)
  {
    if Ordered(RowKey, false, log) {
      OrderByOrders(RowKey, false, log);
      OrderByPermutes(RowKey, false, log);
      OrderedIsUnique(RowKey, false, log, Walk(log));
      InOrderIsIntact(h, log);
    } else {
      var k := FirstDescent(log);
      OutOfOrderBreaks(h, log, k);
    }
  }

  lemma InOrderIsIntact(h: Hasher, log: seq<Row>)
    requires BuiltByTrigger(h, log) && Ordered(RowKey, false, log)
    ensures Intact(h, log)
  {
    var fetched := FetchAll(h, log);
    forall i | 0 <= i < |log| ensures Fault(h.genesis, fetched, i).None? {
      assert log[i] == Stamped(h, log[..i], log[i].id, log[i].body);
      if i > 0 {
        SortedLatest(log[..i]);
        assert fetched[i - 1] == Fetched(h, log[i - 1]);
      }
    }
  }

  lemma SortedLatest(log: seq<Row>)
    requires log != [] && Ordered(RowKey, false, log)
    ensures Latest(log) == log[|log| - 1]
  {
    var last := |log| - 1;
    var j :| 0 <= j < |log| && log[j] == Latest(log);
    assert !Less(RowKey(Latest(log)), RowKey(log[last]));
    assert j < last ==> Precedes(false, RowKey(log[j]), RowKey(log[last]));
  }

  lemma {:induction false} FirstDescent(log: seq<Row>) returns (k: nat)
    requires !Ordered(RowKey, false, log)
    ensures 0 < k < |log| && Ordered(RowKey, false, log[..k])
    ensures !Less(RowKey(log[k - 1]), RowKey(log[k]))
  {
    var n := |log| - 1;
    if Ordered(RowKey, false, log[..n]) {
      k := n;
      if Less(RowKey(log[n - 1]), RowKey(log[n])) {
        forall i, j | 0 <= i < j < |log| ensures Precedes(false, RowKey(log[i]), RowKey(log[j])) {
          if j == n && i < n - 1 {
            assert Precedes(false, RowKey(log[..n][i]), RowKey(log[..n][n - 1]));
          } else if j < n {
            assert Precedes(false, RowKey(log[..n][i]), RowKey(log[..n][j]));
          }
        }
        assert false;
      }
    } else {
      k := FirstDescent(log[..n]);
      assert log[..n][..k] == log[..k];
    }
  }

  lemma OutOfOrderBreaks(h: Hasher, log: seq<Row>, k: nat)
    requires Collisionless(h) && BuiltByTrigger(h, log) && DistinctKeys(RowKey, log)
    requires 0 < k < |log| && Ordered(RowKey, false, log[..k])
    requires !Less(RowKey(log[k - 1]), RowKey(log[k]))
    ensures !Intact(h, Walk(log))
  {
    var w := Walk(log);
    var a, b := WalkedBackwards(log, k);
    SeededFromNeighbour(h, log, k);
    BackwardLinkBreaks(h, w, a, b);
  }

  /** No accepted chain has a row that points at a row behind it. */
  lemma BackwardLinkBreaks(h: Hasher, w: seq<Row>, a: nat, b: nat)
    requires Collisionless(h) && b < a < |w|
    requires w[b].previousHash == w[a].rowHash && w[a].rowHash == h.row(w[a].previousHash, w[a].body)
    ensures !Intact(h, w)
  {
    if Intact(h, w) {
      IntactAt(h, w, b);
      if b > 0 {
        IntactHashesDiffer(h, w, b - 1, a);
      }
    }
  }

  /** The walk meets the out-of-order row before the row it was seeded from. */
  lemma WalkedBackwards(log: seq<Row>, k: nat) returns (a: nat, b: nat)
    requires DistinctKeys(RowKey, log)
    requires 0 < k < |log| && !Less(RowKey(log[k - 1]), RowKey(log[k]))
    ensures b < a < |Walk(log)| && Walk(log)[a] == log[k - 1] && Walk(log)[b] == log[k]
  {
    var w := Walk(log);
    OrderByOrders(RowKey, false, log);
    OrderByPermutes(RowKey, false, log);
    a := Shared(log, w, log[k - 1]);
    b := Shared(log, w, log[k]);
    assert RowKey(log[k - 1]) != RowKey(log[k]);
    assert a < b ==> Precedes(false, RowKey(w[a]), RowKey(w[b]));
  }

  lemma SeededFromNeighbour(h: Hasher, log: seq<Row>, k: nat)
    requires BuiltByTrigger(h, log)
    requires 0 < k < |log| && Ordered(RowKey, false, log[..k])
    ensures log[k].previousHash == log[k - 1].rowHash
    ensures log[k - 1].rowHash == h.row(log[k - 1].previousHash, log[k - 1].body)
  {
    assert log[k] == Stamped(h, log[..k], log[k].id, log[k].body);
    assert log[k - 1] == Stamped(h, log[..k - 1], log[k - 1].id, log[k - 1].body);
    SortedLatest(log[..k]);
  }

  /** Rows of one transaction share `occurred_at`; unless their identifiers ascend too, an untouched log is reported
      broken. */
  lemma SharedTimestampNeedsAscendingIds(h: Hasher, log: seq<Row>, i: nat, j: nat)
    requires Collisionless(h)
    requires BuiltByTrigger(h, log) && DistinctKeys(RowKey, log)
    requires i < j < |log| && log[i].body.at == log[j].body.at && log[j].id < log[i].id
    ensures !Intact(h, Walk(log))
  {
    TriggerLogVerifiesIffInsertedInOrder(h, log);
    assert !Precedes(false, RowKey(log[i]), RowKey(log[j]));
  }
}
