/** Keyset pagination: opaque cursors, one page query, and what following the cursors yields. */
module Pagination {
  import opened Prelude
  import opened Ordering

  // ------------------------------------------------------------------ cursors

  /** Text forms of timestamps and identifiers, and URL-safe base64. */
  datatype Codec = Codec(
    iso: int -> string, parseIso: string -> Option<int>,
    uuid: int -> string, parseUuid: string -> Option<int>,
    base64: string -> string, unbase64: string -> Option<string>)

  ghost predicate Faithful(c: Codec) {
    && (forall t :: c.parseIso(c.iso(t)) == Some(t) && '|' !in c.iso(t))
    && (forall i :: c.parseUuid(c.uuid(i)) == Some(i))
    && (forall s :: c.unbase64(c.base64(s)) == Some(s))
  }

  function EncodeCursor(c: Codec, k: Key): string {
    c.base64(c.iso(k.at) + "|" + c.uuid(k.id))
  }

  /** `raw.split("|", 1)`: cut at the first separator. */
  function SplitOnce(s: string): Option<(string, string)> {
    if s == "" then None
    else if s[0] == '|' then Some(("", s[1..]))
    else
      var rest := SplitOnce(s[1..]);
      if rest.None? then None else Some(([s[0]] + rest.value.0, rest.value.1))
  }

  /** Absent for every malformed cursor. */
  function DecodeCursor(c: Codec, cursor: string): Option<Key> {
    var raw := c.unbase64(cursor);
    if raw.None? then None
    else
      var parts := SplitOnce(raw.value);
      if parts.None? then None
      else
        var at, id := c.parseIso(parts.value.0), c.parseUuid(parts.value.1);
        if at.None? || id.None? then None else Some(Key(at.value, id.value))
  }

  lemma {:induction false} SplitOnceAt(a: string, b: string)
    requires '|' !in a
    ensures SplitOnce(a + "|" + b) == Some((a, b))
  {
    if a == "" {
      assert a + "|" + b == "|" + b;
    } else {
      assert (a + "|" + b)[1..] == a[1..] + "|" + b;
      SplitOnceAt(a[1..], b);
      assert [a[0]] + a[1..] == a;
    }
  }

  lemma CursorRoundTrip(c: Codec, k: Key)
    requires Faithful(c)
    ensures DecodeCursor(c, EncodeCursor(c, k)) == Some(k)
  {
    SplitOnceAt(c.iso(k.at), c.uuid(k.id));
  }

  lemma {:induction false} SplitOnceIff(s: string, a: string, b: string)
    ensures SplitOnce(s) == Some((a, b)) <==> '|' !in a && s == a + "|" + b
  {
    if '|' !in a && s == a + "|" + b {
      SplitOnceAt(a, b);
    } else if SplitOnce(s) == Some((a, b)) {
      SplitOnceParts(s);
    }
  }

  lemma {:induction false} SplitOnceParts(s: string)
    requires SplitOnce(s).Some?
    ensures var (a, b) := SplitOnce(s).value; '|' !in a && s == a + "|" + b
  {
    if s[0] != '|' {
      SplitOnceParts(s[1..]);
      assert s == [s[0]] + s[1..];
    } else {
      assert s == "" + "|" + s[1..];
    }
  }

  /** A cursor decodes to a key exactly when it is the encoding of a timestamp, a separator and an identifier. */
  lemma CursorDecodesIff(c: Codec, cursor: string, k: Key)
    ensures DecodeCursor(c, cursor) == Some(k)
            <==> exists a, b :: && c.unbase64(cursor) == Some(a + "|" + b) && '|' !in a
                                && c.parseIso(a) == Some(k.at) && c.parseUuid(b) == Some(k.id)
  {
    if DecodeCursor(c, cursor) == Some(k) {
      var raw := c.unbase64(cursor).value;
      var (a, b) := SplitOnce(raw).value;
      SplitOnceIff(raw, a, b);
      assert c.unbase64(cursor) == Some(a + "|" + b);
    } else if exists a, b :: && c.unbase64(cursor) == Some(a + "|" + b) && '|' !in a
                             && c.parseIso(a) == Some(k.at) && c.parseUuid(b) == Some(k.id) {
      var a, b :| && c.unbase64(cursor) == Some(a + "|" + b) && '|' !in a
                  && c.parseIso(a) == Some(k.at) && c.parseUuid(b) == Some(k.id);
      SplitOnceIff(a + "|" + b, a, b);
    }
  }

  // ------------------------------------------------------------------ one page

  datatype Page<+T> = Page(items: seq<T>, next: Option<string>)

  function Filter<T>(keep: T -> bool, rows: seq<T>): seq<T> {
    if rows == [] then []
    else if keep(rows[0]) then [rows[0]] + Filter(keep, rows[1..])
    else Filter(keep, rows[1..])
  }

  function Take<T>(rows: seq<T>, n: nat): seq<T> {
    if n < |rows| then rows[..n] else rows
  }

  /** The unpaginated listing. */
  function Listing<T>(key: T -> Key, desc: bool, keep: T -> bool, table: seq<T>): seq<T> {
    OrderBy(key, desc, Filter(keep, table))
  }

  predicate After(desc: bool, bound: Option<Key>, k: Key) {
    bound.None? || Precedes(desc, bound.value, k)
  }

  function Bounded<T>(key: T -> Key, desc: bool, keep: T -> bool, bound: Option<Key>): T -> bool {
    t => keep(t) && After(desc, bound, key(t))
  }

  function Cut<T>(c: Codec, key: T -> Key, rows: seq<T>, limit: nat): Page<T>
    requires limit >= 1
  {
    if |rows| > limit then Page(rows[..limit], Some(EncodeCursor(c, key(rows[limit - 1])))) else Page(rows, None)
  }

  /** The page after `cursor`, or nothing when the cursor does not decode. */
  function ListPage<T>(c: Codec, key: T -> Key, desc: bool, keep: T -> bool, table: seq<T>, cursor: Option<string>,
                       limit: nat)
    : Option<Page<T>>
    requires limit >= 1
  {
    var bound := if cursor.None? then None else DecodeCursor(c, cursor.value);
    if cursor.Some? && bound.None? then None
    else Some(Cut(c, key, Take(Listing(key, desc, Bounded(key, desc, keep, bound), table), limit + 1), limit))
  }

  // ------------------------------------------------------------------ following the cursors

  /** Fetching over time: the `k`-th request finds the table in state `tables(k)`. */
  function Fetcher<T>(c: Codec, key: T -> Key, desc: bool, keep: T -> bool, tables: nat -> seq<T>, limit: nat)
    : (nat, Option<string>) -> Option<Page<T>>
    requires limit >= 1
  {
    (k: nat, cursor: Option<string>) => ListPage(c, key, desc, keep, tables(k), cursor, limit)
  }

  /** A table nobody writes to between fetches. */
  function Unchanging<T>(table: seq<T>): nat -> seq<T> {
    (k: nat) => table
  }

  /** Pages obtained by following `next` from `start` until it is absent, beginning with request `k`. */
  ghost predicate Follows<T>(fetch: (nat, Option<string>) -> Option<Page<T>>, k: nat, start: Option<string>,
                             pages: seq<Page<T>>)
    decreases |pages|
  {
    && |pages| > 0
    && fetch(k, start) == Some(pages[0])
    && (pages[0].next.None? ==> |pages| == 1)
    && (pages[0].next.Some? ==> Follows(fetch, k + 1, pages[0].next, pages[1..]))
  }

  function Items<T>(pages: seq<Page<T>>): seq<T> {
    if pages == [] then [] else pages[0].items + Items(pages[1..])
  }

  /** max(1, ceil(n / limit)): the least number of pages, and at least one, that holds `n` rows. */
  function PageCount(n: nat, limit: nat): (p: nat)
    requires limit >= 1
    ensures p >= 1 && n <= p * limit
    ensures p > 1 ==> (p - 1) * limit < n
  {
    if n <= limit then 1 else 1 + PageCount(n - limit, limit)
  }

  lemma {:induction false} FilterKeepsDistinct<T>(key: T -> Key, keep: T -> bool, rows: seq<T>)
    requires DistinctKeys(key, rows)
    ensures DistinctKeys(key, Filter(keep, rows))
    ensures forall i :: 0 <= i < |Filter(keep, rows)| ==> Filter(keep, rows)[i] in rows && keep(Filter(keep, rows)[i])
  {
    if rows != [] {
      FilterKeepsDistinct(key, keep, rows[1..]);
      var rest := Filter(keep, rows[1..]);
      forall i | 0 <= i < |rest| ensures rest[i] in rows && key(rest[i]) != key(rows[0]) {
        var j :| 0 <= j < |rows[1..]| && rows[1..][j] == rest[i];
        assert rows[j + 1] == rest[i];
      }
    }
  }

  lemma {:induction false} FilterTwice<T>(keep: T -> bool, more: T -> bool, both: T -> bool, rows: seq<T>)
    requires forall t :: t in rows ==> both(t) == (keep(t) && more(t))
    ensures Filter(both, rows) == Filter(more, Filter(keep, rows))
  {
    if rows != [] {
      assert rows[0] in rows;
      FilterTwice(keep, more, both, rows[1..]);
    }
  }

  lemma {:induction false} FilterInsert<T>(key: T -> Key, desc: bool, keep: T -> bool, x: T, rows: seq<T>)
    requires Ordered(key, desc, rows)
    ensures Filter(keep, InsertInOrder(key, desc, x, rows))
            == if keep(x) then InsertInOrder(key, desc, x, Filter(keep, rows)) else Filter(keep, rows)
  {
    if rows == [] {
    } else if Precedes(desc, key(x), key(rows[0])) {
      assert ([x] + rows)[1..] == rows;
      if Filter(keep, rows) != [] {
        var j := FirstKept(keep, rows);
        assert j > 0 ==> Precedes(desc, key(rows[0]), key(rows[j]));
      }
    } else {
      FilterInsert(key, desc, keep, x, rows[1..]);
    }
  }

  lemma {:induction false} FirstKept<T>(keep: T -> bool, rows: seq<T>) returns (j: nat)
    requires Filter(keep, rows) != []
    ensures j < |rows| && rows[j] == Filter(keep, rows)[0]
  {
    if keep(rows[0]) {
      j := 0;
    } else {
      j := FirstKept(keep, rows[1..]);
      j := j + 1;
    }
  }

  /** Sorting then selecting is selecting then sorting. */
  lemma {:induction false} FilterOrderBy<T>(key: T -> Key, desc: bool, keep: T -> bool, rows: seq<T>)
    requires DistinctKeys(key, rows)
    ensures Filter(keep, OrderBy(key, desc, rows)) == OrderBy(key, desc, Filter(keep, rows))
  {
    if rows != [] {
      FilterOrderBy(key, desc, keep, rows[1..]);
      OrderByOrders(key, desc, rows[1..]);
      FilterInsert(key, desc, keep, rows[0], OrderBy(key, desc, rows[1..]));
    }
  }

  /** Selecting keeps exactly the rows that qualify. */
  lemma {:induction false} FilterMembers<T>(keep: T -> bool, rows: seq<T>, t: T)
    ensures t in Filter(keep, rows) <==> t in rows && keep(t)
  {
    if rows != [] {
      FilterMembers(keep, rows[1..], t);
      assert rows == [rows[0]] + rows[1..];
    }
  }

  lemma ListingMembers<T>(key: T -> Key, desc: bool, keep: T -> bool, table: seq<T>, t: T)
    ensures t in Listing(key, desc, keep, table) <==> t in table && keep(t)
  {
    OrderByPermutes(key, desc, Filter(keep, table));
    FilterMembers(keep, table, t);
    var listed, kept := Listing(key, desc, keep, table), Filter(keep, table);
    assert t in multiset(listed) <==> t in multiset(kept);
  }

  lemma {:induction false} FilterNone<T>(keep: T -> bool, rows: seq<T>)
    requires forall i :: 0 <= i < |rows| ==> !keep(rows[i])
    ensures Filter(keep, rows) == []
  {
    if rows != [] { FilterNone(keep, rows[1..]); }
  }

  lemma {:induction false} FilterAll<T>(keep: T -> bool, rows: seq<T>)
    requires forall i :: 0 <= i < |rows| ==> keep(rows[i])
    ensures Filter(keep, rows) == rows
  {
    if rows != [] { FilterAll(keep, rows[1..]); }
  }

  lemma {:induction false} FilterConcat<T>(keep: T -> bool, a: seq<T>, b: seq<T>)
    ensures Filter(keep, a + b) == Filter(keep, a) + Filter(keep, b)
  {
    if a == [] {
      assert a + b == b;
    } else {
      assert (a + b)[1..] == a[1..] + b;
      FilterConcat(keep, a[1..], b);
    }
  }

  /** The rows listed after a key. */
  function Past<T>(key: T -> Key, desc: bool, bound: Key): T -> bool {
    t => Precedes(desc, bound, key(t))
  }

  /** In an ordered listing the rows past position `i` are exactly those after the row at `i - 1`. */
  lemma SuffixIsAfter<T>(key: T -> Key, desc: bool, all: seq<T>, i: nat)
    requires Ordered(key, desc, all) && 0 < i <= |all|
    ensures Filter(Past(key, desc, key(all[i - 1])), all) == all[i..]
  {
    var past, head, tail := Past(key, desc, key(all[i - 1])), all[..i], all[i..];
    assert all == head + tail;
    forall j | 0 <= j < |head| ensures !past(head[j]) {
      assert j < i - 1 ==> Precedes(desc, key(all[j]), key(all[i - 1]));
    }
    forall j | 0 <= j < |tail| ensures past(tail[j]) {
      assert Precedes(desc, key(all[i - 1]), key(all[i + j]));
    }
    FilterNone(past, head);
    FilterAll(past, tail);
    FilterConcat(past, head, tail);
  }

  /** Adding the cursor condition to the query cuts the full listing exactly at the cursor. */
  lemma BoundedListingIsSuffix<T>(key: T -> Key, desc: bool, keep: T -> bool, table: seq<T>, i: nat)
    requires DistinctKeys(key, table)
    requires i <= |Listing(key, desc, keep, table)|
    ensures var all := Listing(key, desc, keep, table);
            var bound := if i == 0 then None else Some(key(all[i - 1]));
            Listing(key, desc, Bounded(key, desc, keep, bound), table) == all[i..]
  {
    var kept := Filter(keep, table);
    var all := OrderBy(key, desc, kept);
    FilterKeepsDistinct(key, keep, table);
    if i == 0 {
      FilterTwice(keep, _ => true, Bounded(key, desc, keep, None), table);
      FilterAll(_ => true, kept);
    } else {
      var past := Past(key, desc, key(all[i - 1]));
      FilterTwice(keep, past, Bounded(key, desc, keep, Some(key(all[i - 1]))), table);
      FilterOrderBy(key, desc, past, kept);
      OrderByOrders(key, desc, kept);
      SuffixIsAfter(key, desc, all, i);
    }
  }

  /** The cursor a client holds after the first `i` rows. */
  function CursorAt<T>(c: Codec, key: T -> Key, all: seq<T>, i: nat): Option<string>
    requires i <= |all|
  {
    if i == 0 then None else Some(EncodeCursor(c, key(all[i - 1])))
  }

  /** The page that holds rows `i` onwards. */
  function PageFrom<T>(c: Codec, key: T -> Key, all: seq<T>, limit: nat, i: nat): Page<T>
    requires i <= |all|
  {
    if |all| - i > limit then Page(all[i..i + limit], CursorAt(c, key, all, i + limit)) else Page(all[i..], None)
  }

  lemma CutSuffix<T>(c: Codec, key: T -> Key, all: seq<T>, limit: nat, i: nat)
    requires limit >= 1 && i <= |all|
    ensures Cut(c, key, Take(all[i..], limit + 1), limit) == PageFrom(c, key, all, limit, i)
  {
    var rows := Take(all[i..], limit + 1);
    if |all| - i > limit {
      assert rows[..limit] == all[i..i + limit];
      assert rows[limit - 1] == all[i + limit - 1];
    }
  }

  lemma PageAtOffset<T>(c: Codec, key: T -> Key, desc: bool, keep: T -> bool, table: seq<T>, limit: nat, i: nat)
    requires Faithful(c) && limit >= 1 && DistinctKeys(key, table)
    requires i <= |Listing(key, desc, keep, table)|
    ensures var all := Listing(key, desc, keep, table);
            ListPage(c, key, desc, keep, table, CursorAt(c, key, all, i), limit)
            == Some(PageFrom(c, key, all, limit, i))
  {
    var all := Listing(key, desc, keep, table);
    BoundedListingIsSuffix(key, desc, keep, table, i);
    CutSuffix(c, key, all, limit, i);
    if i > 0 {
      CursorRoundTrip(c, key(all[i - 1]));
    }
  }

  /** After any number of rows of the listing, the page holds the rows that come next. */
  ghost predicate Continues<T>(c: Codec, key: T -> Key, all: seq<T>, limit: nat, cursor: Option<string>,
                               page: Option<Page<T>>) {
    forall i: nat {:trigger PageFrom(c, key, all, limit, i)} ::
      i <= |all| && cursor == CursorAt(c, key, all, i) ==> page == Some(PageFrom(c, key, all, limit, i))
  }

  lemma PageContinues<T>(c: Codec, key: T -> Key, desc: bool, keep: T -> bool, table: seq<T>, limit: nat,
                         cursor: Option<string>)
    requires Faithful(c) && limit >= 1 && DistinctKeys(key, table)
    ensures Continues(c, key, Listing(key, desc, keep, table), limit, cursor,
                      ListPage(c, key, desc, keep, table, cursor, limit))
  {
    var all := Listing(key, desc, keep, table);
    forall i: nat | i <= |all| && cursor == CursorAt(c, key, all, i)
      ensures ListPage(c, key, desc, keep, table, cursor, limit) == Some(PageFrom(c, key, all, limit, i))
    {
      PageAtOffset(c, key, desc, keep, table, limit, i);
    }
  }

  /** The shape of the five list methods: grow the condition, fetch one row too many, slice. With the cursor that
      follows the first `i` rows of the plain listing, the page holds the next rows of that listing. */
  method FetchPage<T>(c: Codec, key: T -> Key, desc: bool, keep: T -> bool, table: seq<T>, cursor: Option<string>,
                      limit: nat)
    returns (page: Option<Page<T>>)
    requires limit >= 1
    ensures page == ListPage(c, key, desc, keep, table, cursor, limit)
    ensures page.None? <==> cursor.Some? && DecodeCursor(c, cursor.value).None?
    ensures Faithful(c) && DistinctKeys(key, table) ==>
              Continues(c, key, Listing(key, desc, keep, table), limit, cursor, page)
  {
    page := QueryPage(c, key, desc, keep, table, cursor, limit);
    if Faithful(c) && DistinctKeys(key, table) {
      PageContinues(c, key, desc, keep, table, limit, cursor);
    }
  }

  /** Grow the condition, fetch one row too many, slice. */
  method QueryPage<T>(c: Codec, key: T -> Key, desc: bool, keep: T -> bool, table: seq<T>, cursor: Option<string>,
                      limit: nat)
    returns (page: Option<Page<T>>)
    requires limit >= 1
    ensures page == ListPage(c, key, desc, keep, table, cursor, limit)
  {
    var bound: Option<Key> := None;
    if cursor.Some? {
      bound := DecodeCursor(c, cursor.value);
      if bound.None? {
        return None;
      }
    }
    var rows := Take(Listing(key, desc, Bounded(key, desc, keep, bound), table), limit + 1);
    var next: Option<string> := None;
    if |rows| > limit {
      rows := rows[..limit];
      var last := rows[|rows| - 1];
      next := Some(EncodeCursor(c, key(last)));
    }
    return Some(Page(rows, next));
  }

  /** The cursor after any number of rows fetches the page that starts there. */
  ghost predicate Serves<T>(c: Codec, key: T -> Key, fetch: (nat, Option<string>) -> Option<Page<T>>, all: seq<T>,
                            limit: nat) {
    forall n: nat, j: nat {:trigger ServesAt(c, key, fetch, all, limit, n, j)} :: j <= |all| ==>
      ServesAt(c, key, fetch, all, limit, n, j)
  }

  ghost predicate ServesAt<T>(c: Codec, key: T -> Key, fetch: (nat, Option<string>) -> Option<Page<T>>, all: seq<T>,
                              limit: nat, n: nat, j: nat)
    requires j <= |all|
  {
    fetch(n, CursorAt(c, key, all, j)) == Some(PageFrom(c, key, all, limit, j))
  }

  lemma {:induction false} FollowFrom<T>(c: Codec, key: T -> Key, fetch: (nat, Option<string>) -> Option<Page<T>>,
                                         all: seq<T>, limit: nat, i: nat, k: nat, pages: seq<Page<T>>)
    requires limit >= 1
    requires Serves(c, key, fetch, all, limit)
    requires i == 0 || i < |all|
    requires Follows(fetch, k, CursorAt(c, key, all, i), pages)
    ensures Items(pages) == all[i..]
    ensures |pages| == PageCount(|all| - i, limit)
    decreases |pages|
  {
    assert ServesAt(c, key, fetch, all, limit, k, i);
    if |all| - i > limit {
      FollowFrom(c, key, fetch, all, limit, i + limit, k + 1, pages[1..]);
      assert all[i..i + limit] + all[i + limit..] == all[i..];
    } else {
      assert pages == [pages[0]];
    }
  }

  /** Following the cursors does come to an end. */
  lemma {:induction false} CursorsRunOut<T>(c: Codec, key: T -> Key, fetch: (nat, Option<string>) -> Option<Page<T>>,
                                            all: seq<T>, limit: nat, i: nat, k: nat) returns (pages: seq<Page<T>>)
    requires limit >= 1 && i <= |all|
    requires Serves(c, key, fetch, all, limit)
    ensures Follows(fetch, k, CursorAt(c, key, all, i), pages)
    decreases |all| - i
  {
    var page := PageFrom(c, key, all, limit, i);
    assert ServesAt(c, key, fetch, all, limit, k, i);
    if |all| - i > limit {
      var rest := CursorsRunOut(c, key, fetch, all, limit, i + limit, k + 1);
      pages := [page] + rest;
      assert pages[1..] == rest;
    } else {
      pages := [page];
    }
  }

  /** Following `next` to the end yields the plain filtered, sorted listing, each row once, in max(1, ceil(n / limit))
      pages. */
  lemma {:induction false} FollowingCursorsListsEverything<T>(c: Codec, key: T -> Key, desc: bool, keep: T -> bool,
                                           table: seq<T>, limit: nat, pages: seq<Page<T>>)
    requires Faithful(c) && limit >= 1 && DistinctKeys(key, table)
    requires Follows(Fetcher(c, key, desc, keep, Unchanging(table), limit), 0, None, pages)
    ensures Items(pages) == Listing(key, desc, keep, table)
    ensures |pages| == PageCount(|Listing(key, desc, keep, table)|, limit)
  {
    var all := Listing(key, desc, keep, table);
    EveryOffset(c, key, desc, keep, table, limit);
    FollowFrom(c, key, Fetcher(c, key, desc, keep, Unchanging(table), limit), all, limit, 0, 0, pages);
    assert all[0..] == all;
  }

  lemma FollowingTerminates<T>(c: Codec, key: T -> Key, desc: bool, keep: T -> bool, table: seq<T>, limit: nat)
    returns (pages: seq<Page<T>>)
    requires Faithful(c) && limit >= 1 && DistinctKeys(key, table)
    ensures Follows(Fetcher(c, key, desc, keep, Unchanging(table), limit), 0, None, pages)
  {
    EveryOffset(c, key, desc, keep, table, limit);
    pages := CursorsRunOut(c, key, Fetcher(c, key, desc, keep, Unchanging(table), limit),
                           Listing(key, desc, keep, table), limit, 0, 0);
  }

  lemma EveryOffset<T>(c: Codec, key: T -> Key, desc: bool, keep: T -> bool, table: seq<T>, limit: nat)
    requires Faithful(c) && limit >= 1 && DistinctKeys(key, table)
    ensures Serves(c, key, Fetcher(c, key, desc, keep, Unchanging(table), limit), Listing(key, desc, keep, table),
                   limit)
  {
    var all, fetch := Listing(key, desc, keep, table), Fetcher(c, key, desc, keep, Unchanging(table), limit);
    forall n: nat, j: nat | j <= |all| ensures ServesAt(c, key, fetch, all, limit, n, j) {
      PageAtOffset(c, key, desc, keep, table, limit, j);
    }
  }

  // ------------------------------------------------------------------ tables that change between fetches

  function Map<T, V>(view: T -> V, rows: seq<T>): (r: seq<V>)
    ensures |r| == |rows|
    ensures forall i :: 0 <= i < |rows| ==> r[i] == view(rows[i])
  {
    if rows == [] then [] else [view(rows[0])] + Map(view, rows[1..])
  }

  /** `key` and `keep` of a row depend only on its view. */
  ghost predicate Respects<T(!new), V>(view: T -> V, key: T -> Key, keep: T -> bool, viewKey: V -> Key,
                                       viewKeep: V -> bool)
  {
    forall t :: key(t) == viewKey(view(t)) && keep(t) == viewKeep(view(t))
  }

  lemma {:induction false} MapFilter<T, V>(view: T -> V, keep: T -> bool, viewKeep: V -> bool, rows: seq<T>)
    requires forall t :: t in rows ==> keep(t) == viewKeep(view(t))
    ensures Map(view, Filter(keep, rows)) == Filter(viewKeep, Map(view, rows))
  {
    if rows != [] {
      assert rows[0] in rows;
      forall t | t in rows[1..] ensures t in rows { }
      MapFilter(view, keep, viewKeep, rows[1..]);
      assert Map(view, rows)[1..] == Map(view, rows[1..]);
      assert Map(view, [rows[0]] + Filter(keep, rows[1..])) == [view(rows[0])] + Map(view, Filter(keep, rows[1..]));
    }
  }

  lemma {:induction false} MapInsert<T(!new), V>(view: T -> V, key: T -> Key, viewKey: V -> Key, desc: bool, x: T,
                                                 rows: seq<T>)
    requires forall t :: key(t) == viewKey(view(t))
    ensures Map(view, InsertInOrder(key, desc, x, rows)) == InsertInOrder(viewKey, desc, view(x), Map(view, rows))
  {
    if rows != [] && !Precedes(desc, key(x), key(rows[0])) {
      MapInsert(view, key, viewKey, desc, x, rows[1..]);
      assert Map(view, rows)[1..] == Map(view, rows[1..]);
      assert InsertInOrder(key, desc, x, rows)[1..] == InsertInOrder(key, desc, x, rows[1..]);
    } else {
      assert ([x] + rows)[1..] == rows;
    }
  }

  lemma {:induction false} MapOrderBy<T(!new), V>(view: T -> V, key: T -> Key, viewKey: V -> Key, desc: bool,
                                                  rows: seq<T>)
    requires forall t :: key(t) == viewKey(view(t))
    ensures Map(view, OrderBy(key, desc, rows)) == OrderBy(viewKey, desc, Map(view, rows))
  {
    if rows != [] {
      MapOrderBy(view, key, viewKey, desc, rows[1..]);
      MapInsert(view, key, viewKey, desc, rows[0], OrderBy(key, desc, rows[1..]));
      assert Map(view, rows)[1..] == Map(view, rows[1..]);
    }
  }

  function MapPage<T, V>(view: T -> V, p: Page<T>): Page<V> {
    Page(Map(view, p.items), p.next)
  }

  lemma PageOfView<T(!new), V>(c: Codec, view: T -> V, key: T -> Key, keep: T -> bool, viewKey: V -> Key,
                               viewKeep: V -> bool, desc: bool, table: seq<T>, cursor: Option<string>,
                               limit: nat, page: Page<T>)
    requires limit >= 1 && Respects(view, key, keep, viewKey, viewKeep)
    requires ListPage(c, key, desc, keep, table, cursor, limit) == Some(page)
    ensures ListPage(c, viewKey, desc, viewKeep, Map(view, table), cursor, limit) == Some(MapPage(view, page))
  {
    var bound := if cursor.None? then None else DecodeCursor(c, cursor.value);
    var narrow, viewNarrow := Bounded(key, desc, keep, bound), Bounded(viewKey, desc, viewKeep, bound);
    MapFilter(view, narrow, viewNarrow, table);
    MapOrderBy(view, key, viewKey, desc, Filter(narrow, table));
    CutOfView(c, view, key, viewKey, Listing(key, desc, narrow, table), limit);
  }

  lemma CutOfView<T(!new), V>(c: Codec, view: T -> V, key: T -> Key, viewKey: V -> Key, full: seq<T>, limit: nat)
    requires limit >= 1 && forall t :: key(t) == viewKey(view(t))
    ensures Cut(c, viewKey, Take(Map(view, full), limit + 1), limit)
            == MapPage(view, Cut(c, key, Take(full, limit + 1), limit))
  {
    var rows := Take(full, limit + 1);
    assert Map(view, rows) == Take(Map(view, full), limit + 1);
    if |rows| > limit {
      assert Map(view, rows[..limit]) == Map(view, rows)[..limit];
    }
  }

  lemma {:induction false} FollowView<T, V>(view: T -> V, fetch: (nat, Option<string>) -> Option<Page<T>>,
                                            viewFetch: (nat, Option<string>) -> Option<Page<V>>,
                                            k: nat, start: Option<string>, pages: seq<Page<T>>)
    requires forall n: nat, cursor {:trigger fetch(n, cursor)} :: fetch(n, cursor).Some? ==>
               viewFetch(n, cursor) == Some(MapPage(view, fetch(n, cursor).value))
    requires Follows(fetch, k, start, pages)
    ensures Follows(viewFetch, k, start, Map(p => MapPage(view, p), pages))
    ensures Items(Map(p => MapPage(view, p), pages)) == Map(view, Items(pages))
    decreases |pages|
  {
    var viewed := Map(p => MapPage(view, p), pages);
    assert viewed[1..] == Map(p => MapPage(view, p), pages[1..]);
    if pages[0].next.Some? {
      FollowView(view, fetch, viewFetch, k + 1, pages[0].next, pages[1..]);
    } else {
      assert pages[1..] == [] && viewed[1..] == [];
    }
    MapConcat(view, pages[0].items, Items(pages[1..]));
  }

  lemma MapConcat<T, V>(view: T -> V, a: seq<T>, b: seq<T>)
    ensures Map(view, a + b) == Map(view, a) + Map(view, b)
  {
  }

  /** Changes that leave every row's view alone may happen between fetches without a row being skipped or repeated. */
  lemma FollowingCursorsThroughChanges<T(!new), V>(c: Codec, view: T -> V, key: T -> Key, keep: T -> bool,
                                                   viewKey: V -> Key, viewKeep: V -> bool, desc: bool, base: seq<V>,
                                                   tables: nat -> seq<T>, limit: nat, pages: seq<Page<T>>)
    requires Faithful(c) && limit >= 1 && DistinctKeys(viewKey, base)
    requires Respects(view, key, keep, viewKey, viewKeep)
    requires forall n: nat :: Map(view, tables(n)) == base
    requires Follows(Fetcher(c, key, desc, keep, tables, limit), 0, None, pages)
    ensures Map(view, Items(pages)) == Listing(viewKey, desc, viewKeep, base)
    ensures |pages| == PageCount(|Listing(viewKey, desc, viewKeep, base)|, limit)
  {
    var fetch := Fetcher(c, key, desc, keep, tables, limit);
    var viewFetch := Fetcher(c, viewKey, desc, viewKeep, Unchanging(base), limit);
    forall n: nat, cursor | fetch(n, cursor).Some?
      ensures viewFetch(n, cursor) == Some(MapPage(view, fetch(n, cursor).value))
    {
      PageOfView(c, view, key, keep, viewKey, viewKeep, desc, tables(n), cursor, limit, fetch(n, cursor).value);
    }
    FollowView(view, fetch, viewFetch, 0, None, pages);
    FollowingCursorsListsEverything(c, viewKey, desc, viewKeep, base, limit, Map(p => MapPage(view, p), pages));
  }
}
