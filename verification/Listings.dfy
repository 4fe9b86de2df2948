/** The portal's listings as keyset queries, and the agent queue while tickets change hands. */
module Listings {
  import opened Prelude
  import opened Ordering
  import opened Pagination
  import opened Tickets

  /** `list_for_requester`: newest first by creation. */
  function CreatedKey(t: Ticket): Key {
    Key(t.createdAt, t.id)
  }

  function OfRequester(requester: nat): Ticket -> bool {
    (t: Ticket) => t.requester == requester
  }

  /** `list_for_agent_queue`: least recently updated first. */
  function UpdatedKey(t: Ticket): Key {
    Key(t.updatedAt, t.id)
  }

  datatype AssigneeFilter = Anyone | Nobody | Agent(id: nat)

  function Queue(status: Option<Status>, category: Option<string>, assignee: AssigneeFilter): Ticket -> bool {
    (t: Ticket) =>
      && (if status.None? then t.status != Closed else t.status == status.value)
      && (category.None? || t.category == category.value)
      && (assignee == Anyone || t.assignee == if assignee == Nobody then None else Some(assignee.id))
  }

  /** A customer's own tickets, followed to the end, are all of them, newest first. */
  lemma OwnTicketsComplete(c: Codec, table: seq<Ticket>, requester: nat, limit: nat, pages: seq<Page<Ticket>>)
    requires Pagination.Faithful(c) && limit >= 1 && DistinctKeys(CreatedKey, table)
    requires Follows(Fetcher(c, CreatedKey, true, OfRequester(requester), Unchanging(table), limit), 0, None, pages)
    ensures Items(pages) == OrderBy(CreatedKey, true, Filter(OfRequester(requester), table))
    ensures |pages| == PageCount(|Filter(OfRequester(requester), table)|, limit)
    ensures forall t :: t in Items(pages) <==> t in table && t.requester == requester
    ensures forall i, j :: 0 <= i < j < |Items(pages)| ==> Newer(Items(pages)[i], Items(pages)[j])
  {
    FollowingCursorsListsEverything(c, CreatedKey, true, OfRequester(requester), table, limit, pages);
    OrderByPermutes(CreatedKey, true, Filter(OfRequester(requester), table));
    forall t ensures t in Items(pages) <==> t in table && t.requester == requester {
      ListingMembers(CreatedKey, true, OfRequester(requester), table, t);
    }
    FilterKeepsDistinct(CreatedKey, OfRequester(requester), table);
    OrderByOrders(CreatedKey, true, Filter(OfRequester(requester), table));
    forall i, j | 0 <= i < j < |Items(pages)| ensures Newer(Items(pages)[i], Items(pages)[j]) {
      assert Precedes(true, CreatedKey(Items(pages)[i]), CreatedKey(Items(pages)[j]));
    }
  }

  /** Created later, or at the same time with the greater identifier. */
  predicate Newer(a: Ticket, b: Ticket) {
    a.createdAt > b.createdAt || (a.createdAt == b.createdAt && a.id > b.id)
  }

  /** Touched earlier, or at the same time with the smaller identifier. */
  predicate LongerWaiting(a: Ticket, b: Ticket) {
    a.updatedAt < b.updatedAt || (a.updatedAt == b.updatedAt && a.id < b.id)
  }

  /** The ticket is asked for: by status (everything not closed without one), by category, and by assignee. */
  predicate Wanted(t: Ticket, status: Option<Status>, category: Option<string>, assignee: AssigneeFilter) {
    && (status.None? ==> t.status != Closed) && (status.Some? ==> t.status == status.value)
    && (category.Some? ==> t.category == category.value)
    && (assignee.Nobody? ==> t.assignee.None?) && (assignee.Agent? ==> t.assignee == Some(assignee.id))
  }

  /** The agent queue, followed to the end: exactly the tickets asked for, the longest waiting first. */
  lemma QueueComplete(c: Codec, table: seq<Ticket>, status: Option<Status>, category: Option<string>,
                      assignee: AssigneeFilter, limit: nat, pages: seq<Page<Ticket>>)
    requires Pagination.Faithful(c) && limit >= 1 && DistinctKeys(UpdatedKey, table)
    requires var keep := Queue(status, category, assignee);
             Follows(Fetcher(c, UpdatedKey, false, keep, Unchanging(table), limit), 0, None, pages)
    ensures forall t :: t in Items(pages) <==> t in table && Wanted(t, status, category, assignee)
    ensures forall i, j :: 0 <= i < j < |Items(pages)| ==> LongerWaiting(Items(pages)[i], Items(pages)[j])
  {
    var keep := Queue(status, category, assignee);
    FollowingCursorsListsEverything(c, UpdatedKey, false, keep, table, limit, pages);
    forall t ensures t in Items(pages) <==> t in table && Wanted(t, status, category, assignee) {
      ListingMembers(UpdatedKey, false, keep, table, t);
    }
    FilterKeepsDistinct(UpdatedKey, keep, table);
    OrderByOrders(UpdatedKey, false, Filter(keep, table));
    forall i, j | 0 <= i < j < |Items(pages)| ensures LongerWaiting(Items(pages)[i], Items(pages)[j]) {
      assert Precedes(false, UpdatedKey(Items(pages)[i]), UpdatedKey(Items(pages)[j]));
    }
  }

  // ------------------------------------------------------------------ hand-overs between fetches

  /** One assign or unassign on row `at`, by a request that read some earlier row. */
  datatype HandOver = HandOver(at: nat, req: Request, seen: Ticket, now: int)

  function HandedOver(table: seq<Ticket>, h: HandOver): seq<Ticket> {
    if h.at < |table| && (h.req.Assign? || h.req.Unassign?) && Checks(table[h.at])
    then table[h.at := Performed(h.seen, table[h.at], h.now, h.req).row] else table
  }

  /** Any number of hand-overs, one after the other. */
  function AllHandedOver(table: seq<Ticket>, steps: seq<HandOver>): seq<Ticket>
    decreases |steps|
  {
    if steps == [] then table else AllHandedOver(HandedOver(table, steps[0]), steps[1..])
  }

  /** A ticket without its assignee. */
  function Unowned(t: Ticket): Ticket {
    t.(assignee := None)
  }

  lemma HandOverKeepsRow(seen: Ticket, row: Ticket, now: int, req: Request)
    requires (req.Assign? || req.Unassign?) && Checks(row)
    ensures Unowned(Performed(seen, row, now, req).row) == Unowned(row)
  {
  }

  lemma HandOverKeepsView(table: seq<Ticket>, h: HandOver)
    ensures Map(Unowned, HandedOver(table, h)) == Map(Unowned, table)
  {
    var after := HandedOver(table, h);
    if after != table {
      HandOverKeepsRow(h.seen, table[h.at], h.now, h.req);
      forall j | 0 <= j < |table| ensures Map(Unowned, after)[j] == Map(Unowned, table)[j] {
        assert j != h.at ==> after[j] == table[j];
      }
    }
  }

  lemma {:induction false} HandOversKeepView(table: seq<Ticket>, steps: seq<HandOver>)
    ensures Map(Unowned, AllHandedOver(table, steps)) == Map(Unowned, table)
    decreases |steps|
  {
    if steps != [] {
      HandOverKeepsView(table, steps[0]);
      HandOversKeepView(HandedOver(table, steps[0]), steps[1..]);
    }
  }

  lemma {:induction false} GapsKeepView(tables: nat -> seq<Ticket>, gaps: nat -> seq<HandOver>, n: nat)
    requires forall k: nat :: tables(k + 1) == AllHandedOver(tables(k), gaps(k))
    ensures Map(Unowned, tables(n)) == Map(Unowned, tables(0))
  {
    if n > 0 {
      GapsKeepView(tables, gaps, n - 1);
      HandOversKeepView(tables(n - 1), gaps(n - 1));
      assert tables(n - 1 + 1) == AllHandedOver(tables(n - 1), gaps(n - 1));
    }
  }

  /** Without an assignee filter, an agent who pages through the queue while any number of tickets are assigned and
      unassigned between two fetches sees every queued ticket exactly once, in order. */
  lemma QueueSurvivesHandOvers(c: Codec, tables: nat -> seq<Ticket>, gaps: nat -> seq<HandOver>,
                               status: Option<Status>, category: Option<string>, limit: nat, pages: seq<Page<Ticket>>)
    requires Pagination.Faithful(c) && limit >= 1
    requires DistinctKeys(UpdatedKey, tables(0))
    requires forall k: nat :: tables(k + 1) == AllHandedOver(tables(k), gaps(k))
    requires Follows(Fetcher(c, UpdatedKey, false, Queue(status, category, Anyone), tables, limit), 0, None, pages)
    ensures Map(Unowned, Items(pages))
            == Map(Unowned, Listing(UpdatedKey, false, Queue(status, category, Anyone), tables(0)))
    ensures |pages| == PageCount(|Listing(UpdatedKey, false, Queue(status, category, Anyone), tables(0))|, limit)
  {
    var keep := Queue(status, category, Anyone);
    var base := Map(Unowned, tables(0));
    forall n: nat ensures Map(Unowned, tables(n)) == base {
      GapsKeepView(tables, gaps, n);
    }
    FollowingCursorsThroughChanges(c, Unowned, UpdatedKey, keep, UpdatedKey, keep, false, base, tables, limit, pages);
    MapFilter(Unowned, keep, keep, tables(0));
    MapOrderBy(Unowned, UpdatedKey, UpdatedKey, false, Filter(keep, tables(0)));
  }
}
