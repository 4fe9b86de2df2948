/** The ticket services over one `tickets` table and the audit trail all tickets share. */
module SupportDesk {
  import opened Prelude
  import opened Tickets
  import opened TicketRuns

  // ------------------------------------------------------------------ the books

  type Entries = seq<(nat, Event)>

  /** The events of one ticket, in order. */
  function EventsOf(trail: Entries, id: nat): seq<Event> {
    if trail == [] then []
    else
      var last := trail[|trail| - 1];
      EventsOf(trail[..|trail| - 1], id) + if last.0 == id then [last.1] else []
  }

  function Labelled(id: nat, events: seq<Event>): Entries {
    seq(|events|, i requires 0 <= i < |events| => (id, events[i]))
  }

  /** Every ticket's own events replay to its row, and no event is about an unknown ticket. */
  ghost predicate Balanced(rows: map<nat, Ticket>, trail: Entries) {
    && (forall id {:trigger Recounted(rows, trail, id)} :: id in rows ==> Recounted(rows, trail, id))
    && (forall i :: 0 <= i < |trail| ==> trail[i].0 in rows)
  }

  ghost predicate Recounted(rows: map<nat, Ticket>, trail: Entries, id: nat)
    requires id in rows
  {
    rows[id].id == id && Faithful(rows[id], EventsOf(trail, id))
  }

  lemma EventsOfAppend(trail: Entries, entry: (nat, Event), id: nat)
    ensures EventsOf(trail + [entry], id)
            == if entry.0 == id then EventsOf(trail, id) + [entry.1] else EventsOf(trail, id)
  {
    assert (trail + [entry])[..|trail|] == trail;
    assert EventsOf(trail, id) + [] == EventsOf(trail, id);
  }

  lemma {:induction false} NoEventsOf(trail: Entries, id: nat)
    requires forall i :: 0 <= i < |trail| ==> trail[i].0 != id
    ensures EventsOf(trail, id) == []
  {
    if trail != [] {
      NoEventsOf(trail[..|trail| - 1], id);
    }
  }

  lemma EventsOfLabelled(trail: Entries, id: nat, events: seq<Event>, other: nat)
    requires |events| <= 1
    ensures EventsOf(trail + Labelled(id, events), other)
            == if other == id then EventsOf(trail, other) + events else EventsOf(trail, other)
  {
    if events == [] {
      assert trail + Labelled(id, events) == trail && EventsOf(trail, other) + [] == EventsOf(trail, other);
    } else {
      assert Labelled(id, events) == [(id, events[0])] && events == [events[0]];
      EventsOfAppend(trail, (id, events[0]), other);
    }
  }

  lemma CreationBalances(rows: map<nat, Ticket>, trail: Entries, id: nat, requester: nat, category: string, now: int)
    requires Balanced(rows, trail) && id !in rows
    ensures Balanced(rows[id := NewTicket(id, requester, category, now)], trail + [(id, Creation)])
  {
    var grown, entry := rows[id := NewTicket(id, requester, category, now)], (id, Creation);
    var longer := trail + [entry];
    NoEventsOf(trail, id);
    OpeningIsFaithful(id, requester, category, now);
    forall k | k in grown ensures Recounted(grown, longer, k) {
      EventsOfAppend(trail, entry, k);
      if k == id {
        assert EventsOf(longer, k) == [] + [Creation] == [Creation];
      } else {
        assert EventsOf(longer, k) == EventsOf(trail, k);
        assert Recounted(rows, trail, k);
      }
    }
    forall i | 0 <= i < |longer| ensures longer[i].0 in grown {
      assert i == |trail| ==> longer[i] == entry;
    }
  }

  /** Writing one ticket's row together with its entry keeps the books of all. */
  lemma EntryBalances(rows: map<nat, Ticket>, trail: Entries, id: nat, row: Ticket, events: seq<Event>)
    requires Balanced(rows, trail) && id in rows && row.id == id && |events| <= 1
    requires Faithful(row, EventsOf(trail, id) + events)
    ensures Balanced(rows[id := row], trail + Labelled(id, events))
  {
    var after, longer := rows[id := row], trail + Labelled(id, events);
    forall k | k in after ensures Recounted(after, longer, k) {
      EventsOfLabelled(trail, id, events, k);
      if k == id {
        assert EventsOf(longer, k) == EventsOf(trail, id) + events;
      } else {
        assert EventsOf(longer, k) == EventsOf(trail, k);
        assert Recounted(rows, trail, k);
      }
    }
    forall i | 0 <= i < |longer| ensures longer[i].0 in after {
      assert i >= |trail| ==> longer[i] == Labelled(id, events)[i - |trail|];
    }
  }

  lemma RequestBalances(rows: map<nat, Ticket>, trail: Entries, id: nat, now: int, req: Request)
    requires Balanced(rows, trail) && id in rows
    ensures var e := Performed(rows[id], rows[id], now, req);
            |e.events| <= 1 && Balanced(rows[id := e.row], trail + Labelled(id, e.events))
  {
    var e := Performed(rows[id], rows[id], now, req);
    assert Recounted(rows, trail, id);
    RequestMoves(rows[id], rows[id], now, req);
    WriteKeepsFaithful(rows[id], rows[id], now, req, EventsOf(trail, id));
    EntryBalances(rows, trail, id, e.row, e.events);
  }

  function AllSwept(rows: map<nat, Ticket>, now: int): map<nat, Ticket> {
    map id | id in rows :: Swept(rows[id], now)
  }

  function Closures(closed: seq<nat>): Entries {
    seq(|closed|, i requires 0 <= i < |closed| => (closed[i], AutoClosure))
  }

  predicate Distinct(ids: seq<nat>) {
    forall i, j :: 0 <= i < j < |ids| ==> ids[i] != ids[j]
  }

  lemma ClosuresAppend(closed: seq<nat>, id: nat)
    ensures Closures(closed + [id]) == Closures(closed) + [(id, AutoClosure)]
  {
  }

  lemma {:induction false} EventsOfClosures(trail: Entries, closed: seq<nat>, id: nat)
    requires Distinct(closed)
    ensures EventsOf(trail + Closures(closed), id)
            == if id in closed then EventsOf(trail, id) + [AutoClosure] else EventsOf(trail, id)
    decreases |closed|
  {
    if closed == [] {
      assert trail + Closures(closed) == trail;
    } else {
      var rest, last := closed[..|closed| - 1], closed[|closed| - 1];
      assert closed == rest + [last] && last !in rest;
      EventsOfClosures(trail, rest, id);
      ClosuresAppend(rest, last);
      assert trail + Closures(closed) == (trail + Closures(rest)) + [(last, AutoClosure)];
      EventsOfAppend(trail + Closures(rest), (last, AutoClosure), id);
    }
  }

  lemma SweepBalances(rows: map<nat, Ticket>, trail: Entries, now: int, closed: seq<nat>)
    requires Balanced(rows, trail) && Distinct(closed)
    requires forall id :: id in closed <==> id in rows && Sweepable(rows[id], now)
    ensures Balanced(AllSwept(rows, now), trail + Closures(closed))
  {
    var after, longer := AllSwept(rows, now), trail + Closures(closed);
    forall id | id in after ensures Recounted(after, longer, id) {
      assert Recounted(rows, trail, id);
      EventsOfClosures(trail, closed, id);
      SweepKeepsFaithful(rows[id], now, EventsOf(trail, id));
      assert EventsOf(trail, id) + [] == EventsOf(trail, id);
    }
    forall i | 0 <= i < |longer| ensures longer[i].0 in after {
      assert i >= |trail| ==> closed[i - |trail|] in closed;
    }
  }

  // ------------------------------------------------------------------ the services

  /** `TicketService`, `TicketReplyService` and the auto-close job. */
  class TicketDesk {
    var rows: map<nat, Ticket>
    var trail: Entries

    ghost predicate Valid()
      reads this
    {
      Balanced(rows, trail)
    }

    constructor ()
      ensures Valid() && rows == map[] && trail == []
    {
      rows, trail := map[], [];
    }

    /** The table and the trail after a serial request on `id`; nothing else changes. */
    ghost predicate Served(id: nat, now: int, req: Request, before: map<nat, Ticket>, trailBefore: Entries)
      reads this
    {
      if id !in before then rows == before && trail == trailBefore
      else
        var e := Performed(before[id], before[id], now, req);
        rows == before[id := e.row] && trail == trailBefore + Labelled(id, e.events)
    }

    /** The status a reply leaves: an agent's public reply hands an active ticket to the customer, the customer's
        answer hands it back, the customer's reply within seven days of the resolution reopens it, and nothing else
        moves it. */
    function NewStatus(t: Ticket, now: int, actor: nat, agent: bool, internal: bool, admitted: bool): Status {
      if !admitted || t.status == Closed || internal then t.status
      else if agent then (if t.status == Resolved then Resolved else WaitingOnCustomer)
      else if t.requester != actor then t.status
      else if t.status == WaitingOnCustomer then WaitingOnSupport
      else if t.status == Resolved && t.resolvedAt.Some? && now <= t.resolvedAt.value + SEVEN_DAYS then WaitingOnSupport
      else t.status
    }

    /** Writes the row and, with it, the audit entry. */
    method Store(id: nat, row: Ticket, event: Event)
      modifies this
      ensures rows == old(rows)[id := row] && trail == old(trail) + Labelled(id, [event])
    {
      rows := rows[id := row];
      trail := trail + [(id, event)];
    }

    /** The insert and the audit write of `create_ticket`, committed together. */
    method CreateTicket(id: nat, requester: nat, category: string, now: int)
      requires Valid() && id !in rows
      modifies this
      ensures Valid()
      ensures rows.Keys == old(rows).Keys + {id} && forall k :: k in old(rows) ==> rows[k] == old(rows)[k]
      ensures ViewOf(rows[id]) == View(Active, false) && EventsOf(trail, id) == [Creation]
      ensures rows[id] == Ticket(id, requester, category, now, now, Open, None, None, None, None, None, None)
    {
      CreationBalances(rows, trail, id, requester, category, now);
      NoEventsOf(trail, id);
      EventsOfAppend(trail, (id, Creation), id);
      rows := rows[id := NewTicket(id, requester, category, now)];
      trail := trail + [(id, Creation)];
    }

    /** A reply moves a ticket to another phase only by reopening it, which it records. */
    method CreateReply(id: nat, now: int, actor: nat, agent: bool, internal: bool, admitted: bool)
      returns (reopened: bool)
      requires Valid()
      modifies this
      ensures Valid() && Served(id, now, Reply(actor, agent, internal, admitted), old(rows), old(trail))
      ensures reopened <==>
              && id in old(rows) && !agent && !internal && admitted && old(rows)[id].requester == actor
              && old(rows)[id].status == Resolved && WithinWindow(old(rows)[id], now)
      ensures id in old(rows) ==>
              && id in rows
              && rows[id].status == NewStatus(old(rows)[id], now, actor, agent, internal, admitted)
      ensures id in old(rows) ==>
              rows[id].firstResponseAt
              == if admitted && agent && !internal && old(rows)[id].status != Closed
                    && old(rows)[id].firstResponseAt.None?
                 then Some(now) else old(rows)[id].firstResponseAt
      ensures reopened ==> rows[id].resolvedAt == None
      ensures id in old(rows) && !reopened ==> ViewOf(rows[id]) == ViewOf(old(rows)[id]) && trail == old(trail)
      ensures reopened ==> PhaseOf(rows[id]) == Active && trail == old(trail) + [(id, Reopening)]
    {
      reopened := false;
      if id !in rows { return; }
      var ticket := rows[id];
      RequestBalances(rows, trail, id, now, Reply(actor, agent, internal, admitted));
      assert Recounted(rows, trail, id);
      ReplyRules(ticket, ticket, now, Reply(actor, agent, internal, admitted));
      assert Recounted(rows, trail, id) && rows == rows[id := ticket] && trail == trail + [];
      if !agent && ticket.requester != actor { return; }
      if ticket.status == Closed { return; }
      if internal && !agent { return; }
      if !admitted { return; }
      var statusUpdate: Option<Status> := None;
      var firstResponseUpdate: Option<int> := None;
      if agent {
        if !internal {
          if ticket.firstResponseAt.None? { firstResponseUpdate := Some(now); }
          if ticket.status != Resolved { statusUpdate := Some(WaitingOnCustomer); }
        }
      } else if ticket.status == WaitingOnCustomer {
        statusUpdate := Some(WaitingOnSupport);
      } else if ticket.status == Resolved {
        var transitioned := Transitioned(ticket, now, REOPEN_ELIGIBLE, REOPENING);
        if transitioned.Some? {
          reopened := true;
          Store(id, transitioned.value, Reopening);
        }
      }
      if statusUpdate.Some? || firstResponseUpdate.Some? {
        rows := rows[id := Updated(ticket, now, statusUpdate, firstResponseUpdate)];
      }
    }

    /** Exactly an agent can resolve, and exactly an active ticket. */
    method ResolveTicket(id: nat, now: int, actor: nat, agent: bool, text: string) returns (done: bool)
      requires Valid()
      modifies this
      ensures Valid() && Served(id, now, Resolve(actor, agent, text), old(rows), old(trail))
      ensures done <==> id in old(rows) && agent && PhaseOf(old(rows)[id]) == Active
      ensures done ==> EventsOf(trail, id) == EventsOf(old(trail), id) + [Resolution] && PhaseOf(rows[id]) == Settled
      ensures done ==>
              rows[id] == old(rows)[id].(
                status := Resolved, resolvedAt := Some(now), note := Some(text), updatedAt := now)
      ensures !done ==> rows == old(rows) && trail == old(trail)
    {
      if id !in rows { return false; }
      var ticket := rows[id];
      RequestBalances(rows, trail, id, now, Resolve(actor, agent, text));
      assert Recounted(rows, trail, id) && rows == rows[id := ticket] && trail == trail + [];
      if !agent && ticket.requester != actor { return false; }
      if ticket.status !in RESOLVE_ELIGIBLE { return false; }
      if !agent { return false; }
      var transitioned := Transitioned(ticket, now, RESOLVE_ELIGIBLE, Resolving(now, text));
      if transitioned.None? { return false; }
      EventsOfLabelled(trail, id, [Resolution], id);
      Store(id, transitioned.value, Resolution);
      return true;
    }

    /** Exactly an agent or the requester can close, and exactly a ticket that is not closed. */
    method CloseTicket(id: nat, now: int, actor: nat, agent: bool) returns (done: bool)
      requires Valid()
      modifies this
      ensures Valid() && Served(id, now, Close(actor, agent), old(rows), old(trail))
      ensures done <==>
              id in old(rows) && (agent || old(rows)[id].requester == actor) && PhaseOf(old(rows)[id]) != Ended
      ensures done ==> EventsOf(trail, id) == EventsOf(old(trail), id) + [Closure] && PhaseOf(rows[id]) == Ended
      ensures done ==>
              rows[id] == old(rows)[id].(
                status := Closed, closedAt := Some(now), closedBy := Some(actor), updatedAt := now)
      ensures !done ==> rows == old(rows) && trail == old(trail)
    {
      if id !in rows { return false; }
      var ticket := rows[id];
      RequestBalances(rows, trail, id, now, Close(actor, agent));
      assert Recounted(rows, trail, id) && rows == rows[id := ticket] && trail == trail + [];
      if !agent && ticket.requester != actor { return false; }
      if ticket.status !in CLOSE_ELIGIBLE { return false; }
      var transitioned := Transitioned(ticket, now, CLOSE_ELIGIBLE, Closing(now, actor));
      if transitioned.None? { return false; }
      EventsOfLabelled(trail, id, [Closure], id);
      Store(id, transitioned.value, Closure);
      return true;
    }

    /** Exactly the resolved tickets that the sweep would leave alone can be reopened. */
    method ReopenTicket(id: nat, now: int, actor: nat, agent: bool) returns (done: bool)
      requires Valid()
      modifies this
      ensures Valid() && Served(id, now, Reopen(actor, agent), old(rows), old(trail))
      ensures done <==>
              && id in old(rows) && (agent || old(rows)[id].requester == actor)
              && old(rows)[id].status == Resolved && old(rows)[id].resolvedAt.Some?
              && now <= old(rows)[id].resolvedAt.value + SEVEN_DAYS
      ensures done ==> EventsOf(trail, id) == EventsOf(old(trail), id) + [Reopening] && PhaseOf(rows[id]) == Active
      ensures done ==> rows[id] == old(rows)[id].(status := WaitingOnSupport, resolvedAt := None, updatedAt := now)
      ensures done ==> forall later :: !Sweepable(rows[id], later)
      ensures !done ==> rows == old(rows) && trail == old(trail)
    {
      if id !in rows { return false; }
      var ticket := rows[id];
      RequestBalances(rows, trail, id, now, Reopen(actor, agent));
      assert Recounted(rows, trail, id) && rows == rows[id := ticket] && trail == trail + [];
      if !agent && ticket.requester != actor { return false; }
      if ticket.status !in REOPEN_ELIGIBLE { return false; }
      var transitioned := Transitioned(ticket, now, REOPEN_ELIGIBLE, REOPENING);
      if transitioned.None? { return false; }
      EventsOfLabelled(trail, id, [Reopening], id);
      Store(id, transitioned.value, Reopening);
      return true;
    }

    /** An assignment shows in the trail and in nothing but the assignee: queue position and phase stay. */
    method AssignTicket(id: nat, now: int, actor: nat, mayWrite: bool, assignee: nat, eligible: bool)
      returns (done: bool)
      requires Valid()
      modifies this
      ensures Valid() && Served(id, now, Assign(actor, mayWrite, assignee, eligible), old(rows), old(trail))
      ensures done <==> id in old(rows) && mayWrite && eligible && PhaseOf(old(rows)[id]) != Ended
      ensures done ==> EventsOf(trail, id) == EventsOf(old(trail), id) + [Assignment]
      ensures done ==> rows[id] == old(rows)[id].(assignee := Some(assignee))
      ensures !done ==> rows == old(rows) && trail == old(trail)
    {
      if id !in rows { return false; }
      var ticket := rows[id];
      RequestBalances(rows, trail, id, now, Assign(actor, mayWrite, assignee, eligible));
      assert Recounted(rows, trail, id) && rows == rows[id := ticket] && trail == trail + [];
      if !mayWrite { return false; }
      if ticket.status == Closed { return false; }
      if !eligible { return false; }
      var updated := AssignedTo(ticket, assignee, ticket.assignee);
      if updated.None? { return false; }
      EventsOfLabelled(trail, id, [Assignment], id);
      Store(id, updated.value, Assignment);
      return true;
    }

    method UnassignTicket(id: nat, now: int, actor: nat, mayWrite: bool) returns (done: bool)
      requires Valid()
      modifies this
      ensures Valid() && Served(id, now, Unassign(actor, mayWrite), old(rows), old(trail))
      ensures done <==> id in old(rows) && mayWrite && PhaseOf(old(rows)[id]) != Ended
      ensures done ==> EventsOf(trail, id) == EventsOf(old(trail), id) + [Unassignment]
      ensures done ==> rows[id] == old(rows)[id].(assignee := None)
      ensures !done ==> rows == old(rows) && trail == old(trail)
    {
      if id !in rows { return false; }
      var ticket := rows[id];
      RequestBalances(rows, trail, id, now, Unassign(actor, mayWrite));
      assert Recounted(rows, trail, id) && rows == rows[id := ticket] && trail == trail + [];
      if !mayWrite { return false; }
      if ticket.status == Closed { return false; }
      var updated := Unassigned(ticket);
      if updated.None? { return false; }
      EventsOfLabelled(trail, id, [Unassignment], id);
      Store(id, updated.value, Unassignment);
      return true;
    }

    /** `auto_close_resolved_past_window`: one batch UPDATE that returns the tickets it closed. */
    method CloseLapsed(now: int) returns (closed: seq<nat>)
      modifies this`rows
      ensures rows == AllSwept(old(rows), now) && Distinct(closed)
      ensures forall id :: id in closed <==> id in old(rows) && Sweepable(old(rows)[id], now)
    {
      closed := [];
      var pending := rows.Keys;
      ghost var before := rows;
      while pending != {}
        invariant rows.Keys == before.Keys && pending <= before.Keys
        invariant forall id :: id in before ==> rows[id] == if id in pending then before[id] else Swept(before[id], now)
        invariant forall id :: id in closed <==> id in before && id !in pending && Sweepable(before[id], now)
        invariant Distinct(closed)
        decreases pending
      {
        var id :| id in pending;
        pending := pending - {id};
        var ticket := rows[id];
        if ticket.status == Resolved && PastWindow(ticket, now) {
          rows := rows[id := Swept(ticket, now)];
          closed := closed + [id];
        }
      }
    }

    /** The batch, then one audit row per closed ticket: afterwards nothing is left to sweep. */
    method AutoCloseResolved(now: int) returns (closed: seq<nat>)
      requires Valid()
      modifies this
      ensures Valid() && rows == AllSwept(old(rows), now) && trail == old(trail) + Closures(closed)
      ensures Distinct(closed) && forall id :: id in closed <==> id in old(rows) && Sweepable(old(rows)[id], now)
      ensures forall id :: id in closed <==>
                && id in old(rows) && old(rows)[id].status == Resolved && old(rows)[id].resolvedAt.Some?
                && old(rows)[id].resolvedAt.value + SEVEN_DAYS < now
      ensures rows.Keys == old(rows).Keys
      ensures forall id :: id in closed ==>
                rows[id] == old(rows)[id].(
                  status := Closed, closedAt := Some(now), closedBy := Some(SYSTEM_ACTOR), updatedAt := now)
      ensures forall id :: id in rows && id !in closed ==> rows[id] == old(rows)[id]
      ensures forall id :: id in rows ==> !Sweepable(rows[id], now)
    {
      forall id | id in rows ensures Sweepable(rows[id], now) <==>
        rows[id].status == Resolved && rows[id].resolvedAt.Some? && rows[id].resolvedAt.value + SEVEN_DAYS < now
      {
        SweepRules(rows[id], now);
      }
      ghost var before := rows;
      closed := CloseLapsed(now);
      SweepBalances(before, trail, now, closed);
      for i := 0 to |closed|
        invariant rows == AllSwept(before, now) && trail == old(trail) + Closures(closed[..i])
      {
        ClosuresAppend(closed[..i], closed[i]);
        assert closed[..i + 1] == closed[..i] + [closed[i]];
        trail := trail + [(closed[i], AutoClosure)];
      }
      assert closed[..|closed|] == closed;
    }
  }
}
