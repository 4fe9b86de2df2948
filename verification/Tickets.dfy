/** Support tickets: the table's CHECK constraints, the repository's guarded writes and the service requests built on
    them. */
module Tickets {
  import opened Prelude

  const RESOLUTION_WINDOW: nat := 7 * 86400 * SECOND

  /** `closed_by` of tickets closed by the sweep. */
  const SYSTEM_ACTOR: nat := 0

  datatype Status = Open | WaitingOnSupport | WaitingOnCustomer | Resolved | Closed

  datatype Ticket = Ticket(
    id: nat, requester: nat, category: string, createdAt: int, updatedAt: int,
    status: Status, assignee: Option<nat>, firstResponseAt: Option<int>,
    resolvedAt: Option<int>, note: Option<string>, closedAt: Option<int>, closedBy: Option<nat>)

  /** `ck_tickets_closed_requires_closed_fields`. */
  predicate ClosedCheck(t: Ticket) {
    (t.status == Closed) == (t.closedAt.Some? && t.closedBy.Some?)
  }

  /** `ck_tickets_resolved_requires_resolution_fields`. */
  predicate ResolvedCheck(t: Ticket) {
    t.status != Resolved || (t.resolvedAt.Some? && t.note.Some?)
  }

  predicate Checks(t: Ticket) {
    ClosedCheck(t) && ResolvedCheck(t)
  }

  const RESOLVE_ELIGIBLE: set<Status> := {Open, WaitingOnSupport, WaitingOnCustomer}
  const CLOSE_ELIGIBLE: set<Status> := {Open, WaitingOnSupport, WaitingOnCustomer, Resolved}
  const REOPEN_ELIGIBLE: set<Status> := {Resolved}

  // ------------------------------------------------------------------ guarded writes

  /** `resolved_at >= now() - 7 days`; false when `resolved_at` is null. */
  predicate WithinWindow(t: Ticket, now: int) {
    t.resolvedAt.Some? && t.resolvedAt.value >= now - RESOLUTION_WINDOW
  }

  /** `resolved_at < now() - 7 days`; false when `resolved_at` is null. */
  predicate PastWindow(t: Ticket, now: int) {
    t.resolvedAt.Some? && t.resolvedAt.value < now - RESOLUTION_WINDOW
  }

  function OrKeep<T>(change: Option<T>, current: Option<T>): Option<T> {
    if change.Some? then change else current
  }

  /** The plain UPDATE, guarded by the identifier alone; no statement is issued when there is nothing to set. */
  function Updated(t: Ticket, now: int, status: Option<Status>, firstResponseAt: Option<int>): Ticket {
    if status.None? && firstResponseAt.None? then t
    else t.(status := if status.Some? then status.value else t.status,
            firstResponseAt := OrKeep(firstResponseAt, t.firstResponseAt), updatedAt := now)
  }

  datatype Change = Change(status: Status, resolvedAt: Option<int>, clearResolvedAt: bool, note: Option<string>,
                           closedAt: Option<int>, closedBy: Option<nat>, windowed: bool)

  /** The status-guarded UPDATE; absent when no row matches. */
  function Transitioned(t: Ticket, now: int, expected: set<Status>, c: Change): Option<Ticket> {
    if t.status !in expected || (c.windowed && !WithinWindow(t, now)) then None
    else Some(t.(status := c.status,
                 resolvedAt := if c.clearResolvedAt then None else OrKeep(c.resolvedAt, t.resolvedAt),
                 note := OrKeep(c.note, t.note),
                 closedAt := OrKeep(c.closedAt, t.closedAt), closedBy := OrKeep(c.closedBy, t.closedBy),
                 updatedAt := now))
  }

  function Resolving(now: int, note: string): Change {
    Change(Resolved, Some(now), false, Some(note), None, None, false)
  }

  function Closing(now: int, actor: nat): Change {
    Change(Closed, None, false, None, Some(now), Some(actor), false)
  }

  const REOPENING: Change := Change(WaitingOnSupport, None, true, None, None, None, true)

  /** Compare-and-set of the assignee; `updated_at` is set to itself. */
  function AssignedTo(t: Ticket, assignee: nat, expected: Option<nat>): Option<Ticket> {
    if t.status == Closed || t.assignee != expected then None else Some(t.(assignee := Some(assignee)))
  }

  function Unassigned(t: Ticket): Option<Ticket> {
    if t.status == Closed then None else Some(t.(assignee := None))
  }

  predicate Sweepable(t: Ticket, now: int) {
    t.status == Resolved && PastWindow(t, now)
  }

  function Swept(t: Ticket, now: int): Ticket {
    if Sweepable(t, now)
    then t.(status := Closed, closedAt := Some(now), closedBy := Some(SYSTEM_ACTOR), updatedAt := now) else t
  }

  // ------------------------------------------------------------------ service requests

  datatype Event = Creation | Resolution | Reopening | Closure | AutoClosure | Assignment | Unassignment

  /** `admitted` stands for the rate limit and the attachment checks, `eligible` for the target's scopes and account
      status. */
  datatype Request =
    | Reply(actor: nat, agent: bool, internal: bool, admitted: bool)
    | Resolve(actor: nat, agent: bool, text: string)
    | Close(actor: nat, agent: bool)
    | Reopen(actor: nat, agent: bool)
    | Assign(actor: nat, mayWrite: bool, assignee: nat, eligible: bool)
    | Unassign(actor: nat, mayWrite: bool)

  /** The row and the audit events a request would write. */
  datatype Effect = Effect(row: Ticket, events: seq<Event>)

  predicate Hidden(seen: Ticket, actor: nat, agent: bool) {
    !agent && seen.requester != actor
  }

  function Transition(t: Ticket, now: int, expected: set<Status>, c: Change, event: Event): Effect {
    var r := Transitioned(t, now, expected, c);
    if r.None? then Effect(t, []) else Effect(r.value, [event])
  }

  function ReplyEffect(seen: Ticket, t: Ticket, now: int, agent: bool, internal: bool): Effect {
    if agent then
      if internal then Effect(t, [])
      else
        Effect(Updated(t, now, if seen.status != Resolved then Some(WaitingOnCustomer) else None,
                       if seen.firstResponseAt.None? then Some(now) else None), [])
    else if seen.status == WaitingOnCustomer then Effect(Updated(t, now, Some(WaitingOnSupport), None), [])
    else if seen.status == Resolved then Transition(t, now, REOPEN_ELIGIBLE, REOPENING, Reopening)
    else Effect(t, [])
  }

  /** What a request that read the row as `seen` writes when the row has become `t`. */
  function Proposed(seen: Ticket, t: Ticket, now: int, req: Request): Effect {
    match req
    case Reply(actor, agent, internal, admitted) =>
      if Hidden(seen, actor, agent) || seen.status == Closed || (internal && !agent) || !admitted then Effect(t, [])
      else ReplyEffect(seen, t, now, agent, internal)
    case Resolve(actor, agent, text) =>
      if Hidden(seen, actor, agent) || seen.status !in RESOLVE_ELIGIBLE || !agent then Effect(t, [])
      else Transition(t, now, RESOLVE_ELIGIBLE, Resolving(now, text), Resolution)
    case Close(actor, agent) =>
      if Hidden(seen, actor, agent) || seen.status !in CLOSE_ELIGIBLE then Effect(t, [])
      else Transition(t, now, CLOSE_ELIGIBLE, Closing(now, actor), Closure)
    case Reopen(actor, agent) =>
      if Hidden(seen, actor, agent) || seen.status !in REOPEN_ELIGIBLE then Effect(t, [])
      else Transition(t, now, REOPEN_ELIGIBLE, REOPENING, Reopening)
    case Assign(actor, mayWrite, assignee, eligible) =>
      if !mayWrite || seen.status == Closed || !eligible then Effect(t, [])
      else
        var r := AssignedTo(t, assignee, seen.assignee);
        if r.None? then Effect(t, []) else Effect(r.value, [Assignment])
    case Unassign(actor, mayWrite) =>
      if !mayWrite || seen.status == Closed then Effect(t, [])
      else
        var r := Unassigned(t);
        if r.None? then Effect(t, []) else Effect(r.value, [Unassignment])
  }

  /** A row that fails a CHECK aborts the whole request. */
  function Performed(seen: Ticket, t: Ticket, now: int, req: Request): Effect {
    var e := Proposed(seen, t, now, req);
    if Checks(e.row) then e else Effect(t, [])
  }

  /** A freshly inserted ticket. */
  function NewTicket(id: nat, requester: nat, category: string, now: int): Ticket {
    Ticket(id, requester, category, now, now, Open, None, None, None, None, None, None)
  }
}
