/** What every serial run and every interleaving of ticket requests keeps. */
module TicketRuns {
  import opened Prelude
  import opened Tickets

  // ------------------------------------------------------------------ interleaved requests on one ticket

  /** A request's read and its guarded write are separate steps; the sweep is one statement. */
  datatype Step = Tick(dt: nat) | Read(r: nat, req: Request) | Write(r: nat) | Sweep

  datatype System = System(now: int, row: Ticket, log: seq<Event>, seen: map<nat, (Request, Ticket)>)

  function SweepEvents(t: Ticket, now: int): seq<Event> {
    if Sweepable(t, now) then [AutoClosure] else []
  }

  function Next(s: System, step: Step): System {
    match step
    case Tick(dt) => s.(now := s.now + dt)
    case Read(r, req) => s.(seen := s.seen[r := (req, s.row)])
    case Write(r) =>
      if r !in s.seen then s
      else
        var e := Performed(s.seen[r].1, s.row, s.now, s.seen[r].0);
        s.(row := e.row, log := s.log + e.events, seen := s.seen - {r})
    case Sweep => s.(row := Swept(s.row, s.now), log := s.log + SweepEvents(s.row, s.now))
  }

  function Run(s: System, steps: seq<Step>): System
    decreases |steps|
  {
    if steps == [] then s else Run(Next(s, steps[0]), steps[1..])
  }

  /** The fields a closed ticket never changes again. */
  predicate SameWhenClosed(a: Ticket, b: Ticket) {
    && a.status == b.status && a.closedAt == b.closedAt && a.closedBy == b.closedBy
    && a.resolvedAt == b.resolvedAt && a.note == b.note && a.assignee == b.assignee
  }

  /** Whatever a request read earlier, its write respects the constraints and cannot reach a closed row. */
  lemma WriteRespectsChecks(seen: Ticket, t: Ticket, now: int, req: Request)
    requires Checks(t)
    ensures Checks(Performed(seen, t, now, req).row)
    ensures t.status == Closed ==> SameWhenClosed(t, Performed(seen, t, now, req).row)
  {
  }

  lemma StepFromClosed(s: System, step: Step)
    requires Checks(s.row)
    ensures Checks(Next(s, step).row)
    ensures s.row.status == Closed ==> SameWhenClosed(s.row, Next(s, step).row)
  {
    if step.Write? && step.r in s.seen {
      WriteRespectsChecks(s.seen[step.r].1, s.row, s.now, s.seen[step.r].0);
    }
  }

  /** In every interleaving, with requests holding arbitrarily stale reads, a closed ticket stays exactly as it was
      closed. */
  lemma {:induction false} ClosedIsFrozen(s: System, steps: seq<Step>)
    requires Checks(s.row) && s.row.status == Closed
    ensures SameWhenClosed(s.row, Run(s, steps).row)
    decreases |steps|
  {
    if steps != [] {
      StepFromClosed(s, steps[0]);
      ClosedIsFrozen(Next(s, steps[0]), steps[1..]);
    }
  }

  /** It is the CHECK that stops a stale reply: its plain update proposes to take the ticket out of `closed`. */
  lemma StaleReplyIsStoppedByTheCheck(seen: Ticket, t: Ticket, now: int, actor: nat)
    requires Checks(t) && t.status == Closed && seen.status in RESOLVE_ELIGIBLE
    ensures var e := Proposed(seen, t, now, Reply(actor, true, false, true));
            e.row.status == WaitingOnCustomer && !ClosedCheck(e.row)
  {
  }

  /** A public agent reply that read the ticket as resolved and not yet answered. */
  predicate StampsFirstResponse(seen: Ticket, req: Request) {
    && req.Reply? && req.agent && !req.internal && req.admitted
    && seen.status == Resolved && seen.firstResponseAt.None?
  }

  /** The two fields left out of the guarantee change through exactly one kind of write: such a reply stamps the first
      response of a ticket that has been closed since. Every other write leaves a closed row as it is. */
  lemma FirstResponseIsNotFrozen(seen: Ticket, t: Ticket, now: int, req: Request)
    requires Checks(t) && t.status == Closed
    ensures Performed(seen, t, now, req).row
            == if StampsFirstResponse(seen, req) then t.(firstResponseAt := Some(now), updatedAt := now) else t
  {
  }

  // ------------------------------------------------------------------ what each write does

  predicate IsActive(t: Ticket) {
    t.status == Open || t.status == WaitingOnSupport || t.status == WaitingOnCustomer
  }

  const SEVEN_DAYS: int := 7 * 24 * 60 * 60 * SECOND

  /** Resolving, closing and reopening, by a request that read the row as `seen`: exactly when the write takes effect,
      and the whole row and event it leaves. */
  lemma TransitionRules(seen: Ticket, t: Ticket, now: int, req: Request)
    requires Tidy(t) && (req.Resolve? || req.Close? || req.Reopen?)
    ensures var e := Performed(seen, t, now, req); var visible := req.agent || seen.requester == req.actor;
            && (req.Resolve? ==>
                  e == if req.agent && IsActive(seen) && IsActive(t)
                       then Effect(t.(status := Resolved, resolvedAt := Some(now), note := Some(req.text),
                                      updatedAt := now), [Resolution])
                       else Effect(t, []))
            && (req.Close? ==>
                  e == if visible && seen.status != Closed && t.status != Closed
                       then Effect(t.(status := Closed, closedAt := Some(now), closedBy := Some(req.actor),
                                      updatedAt := now), [Closure])
                       else Effect(t, []))
            && (req.Reopen? ==>
                  e == if visible && seen.status == Resolved && t.status == Resolved
                          && now <= t.resolvedAt.value + SEVEN_DAYS
                       then Effect(t.(status := WaitingOnSupport, resolvedAt := None, updatedAt := now), [Reopening])
                       else Effect(t, []))
  {
  }

  /** An assignment is a compare-and-set: it takes effect only on the assignee it read. */
  lemma AssignmentRules(seen: Ticket, t: Ticket, now: int, req: Request)
    requires Tidy(t) && (req.Assign? || req.Unassign?)
    ensures var e := Performed(seen, t, now, req);
            && (req.Assign? ==>
                  e == if req.mayWrite && req.eligible && seen.status != Closed && t.status != Closed
                          && t.assignee == seen.assignee
                       then Effect(t.(assignee := Some(req.assignee)), [Assignment]) else Effect(t, []))
            && (req.Unassign? ==>
                  e == if req.mayWrite && seen.status != Closed && t.status != Closed
                       then Effect(t.(assignee := None), [Unassignment]) else Effect(t, []))
  {
  }

  /** Of two assignments that read the same row, only the first takes effect, unless it changed nothing. */
  lemma SecondAssignmentLoses(seen: Ticket, t: Ticket, now: int, later: int, first: Request, second: Request)
    requires Tidy(t) && first.Assign? && second.Assign?
    requires Performed(seen, t, now, first).events == [Assignment] && seen.assignee != Some(first.assignee)
    ensures var row := Performed(seen, t, now, first).row; Performed(seen, row, later, second) == Effect(row, [])
  {
    AssignmentRules(seen, t, now, first);
    AssignmentRules(seen, Performed(seen, t, now, first).row, later, second);
  }

  /** The reply is let in: the ticket was not closed, the author may see it, and customers do not write internal
      notes. */
  predicate Heard(seen: Ticket, req: Request) {
    && req.Reply? && req.admitted && seen.status != Closed
    && (req.agent || (seen.requester == req.actor && !req.internal))
  }

  /** Replies that set a status or a stamp: an agent's public reply and a customer's reply. */
  lemma ReplyRules(seen: Ticket, t: Ticket, now: int, req: Request)
    requires Tidy(t) && req.Reply?
    ensures var e := Performed(seen, t, now, req);
            var first := if seen.firstResponseAt.None? then Some(now) else t.firstResponseAt;
            && (!Heard(seen, req) || (req.agent && req.internal) ==> e == Effect(t, []))
            && (Heard(seen, req) && req.agent && !req.internal && seen.status != Resolved ==>
                  e == if t.status == Closed then Effect(t, [])
                       else Effect(t.(status := WaitingOnCustomer, firstResponseAt := first, updatedAt := now), []))
            && (Heard(seen, req) && req.agent && !req.internal && seen.status == Resolved ==>
                  e == if seen.firstResponseAt.Some? then Effect(t, [])
                       else Effect(t.(firstResponseAt := Some(now), updatedAt := now), []))
            && (Heard(seen, req) && !req.agent && seen.status == WaitingOnCustomer ==>
                  e == if t.status == Closed then Effect(t, [])
                       else Effect(t.(status := WaitingOnSupport, updatedAt := now), []))
            && (Heard(seen, req) && !req.agent && seen.status == Resolved ==>
                  e == if t.status == Resolved && now <= t.resolvedAt.value + SEVEN_DAYS
                       then Effect(t.(status := WaitingOnSupport, resolvedAt := None, updatedAt := now), [Reopening])
                       else Effect(t, []))
            && (Heard(seen, req) && !req.agent && seen.status != WaitingOnCustomer && seen.status != Resolved ==>
                  e == Effect(t, []))
  {
  }

  /** The sweep closes a ticket exactly when it was resolved more than seven days ago. */
  lemma SweepRules(t: Ticket, now: int)
    ensures Swept(t, now)
            == if t.status == Resolved && t.resolvedAt.Some? && t.resolvedAt.value + SEVEN_DAYS < now
               then t.(status := Closed, closedAt := Some(now), closedBy := Some(SYSTEM_ACTOR), updatedAt := now) else t
    ensures Sweepable(t, now) <==> t.status == Resolved && t.resolvedAt.Some? && t.resolvedAt.value + SEVEN_DAYS < now
  {
  }

  // ------------------------------------------------------------------ serial runs

  /** Requests one at a time, with the ticket's audit events in order. */
  datatype History = History(now: int, row: Ticket, log: seq<Event>)

  datatype Act = Wait(dt: nat) | Do(req: Request) | AutoClose

  function Then(h: History, a: Act): History {
    match a
    case Wait(dt) => h.(now := h.now + dt)
    case Do(req) =>
      var e := Performed(h.row, h.row, h.now, req);
      h.(row := e.row, log := h.log + e.events)
    case AutoClose =>
      h.(row := Swept(h.row, h.now), log := h.log + SweepEvents(h.row, h.now))
  }

  function Story(h: History, acts: seq<Act>): History
    decreases |acts|
  {
    if acts == [] then h else Story(Then(h, acts[0]), acts[1..])
  }

  function Opening(id: nat, requester: nat, category: string, now: int): History {
    History(now, NewTicket(id, requester, category, now), [Creation])
  }

  /** Rows that serial requests produce: closing fields are set exactly on closed tickets. */
  predicate Tidy(t: Ticket) {
    && Checks(t)
    && (t.status != Closed ==> t.closedAt.None? && t.closedBy.None?)
  }

  /** Serially, no request ever proposes a row that a CHECK would reject. */
  lemma SerialWritesNeverTripACheck(t: Ticket, now: int, req: Request)
    requires Tidy(t)
    ensures Tidy(Proposed(t, t, now, req).row)
    ensures Performed(t, t, now, req) == Proposed(t, t, now, req)
  {
  }

  datatype Phase = Active | Settled | Ended

  function PhaseOf(t: Ticket): Phase {
    if t.status == Closed then Ended else if t.status == Resolved then Settled else Active
  }

  datatype View = View(phase: Phase, owned: bool)

  function ViewOf(t: Ticket): View {
    View(PhaseOf(t), t.assignee.Some?)
  }

  /** What a reader of the audit trail alone believes. */
  function Replayed(log: seq<Event>): View {
    if log == [] then View(Active, false)
    else
      var v := Replayed(log[..|log| - 1]);
      match log[|log| - 1]
      case Creation => View(Active, false)
      case Resolution => v.(phase := Settled)
      case Reopening => v.(phase := Active)
      case Closure => v.(phase := Ended)
      case AutoClosure => v.(phase := Ended)
      case Assignment => v.(owned := true)
      case Unassignment => v.(owned := false)
  }

  predicate IsPhaseEvent(e: Event) {
    e != Assignment && e != Unassignment
  }

  function PhaseEvents(log: seq<Event>): seq<Event> {
    if log == [] then []
    else
      var init := PhaseEvents(log[..|log| - 1]);
      if IsPhaseEvent(log[|log| - 1]) then init + [log[|log| - 1]] else init
  }

  /** (resolved reopened)^k. */
  function Cycles(k: nat): seq<Event> {
    if k == 0 then [] else Cycles(k - 1) + [Resolution, Reopening]
  }

  /** The endings that leave a ticket in the given phase. */
  predicate Ending(tail: seq<Event>, p: Phase) {
    match p
    case Active => tail == []
    case Settled => tail == [Resolution]
    case Ended => tail == [Closure] || tail == [Resolution, Closure] || tail == [Resolution, AutoClosure]
  }

  /** created (resolved reopened)* followed by an ending of phase `p`. */
  ghost predicate WellFormed(events: seq<Event>, p: Phase) {
    exists k: nat, tail :: Ending(tail, p) && events == [Creation] + Cycles(k) + tail
  }

  /** The trail replays to the row's phase and assignment, and its phase events are well formed. */
  ghost predicate Faithful(row: Ticket, log: seq<Event>) {
    Tidy(row) && Replayed(log) == ViewOf(row) && WellFormed(PhaseEvents(log), PhaseOf(row))
  }

  lemma ReplayStep(log: seq<Event>, e: Event)
    ensures Replayed(log + [e]) == match e
              case Creation => View(Active, false)
              case Resolution => Replayed(log).(phase := Settled)
              case Reopening => Replayed(log).(phase := Active)
              case Closure => Replayed(log).(phase := Ended)
              case AutoClosure => Replayed(log).(phase := Ended)
              case Assignment => Replayed(log).(owned := true)
              case Unassignment => Replayed(log).(owned := false)
    ensures PhaseEvents(log + [e]) == if IsPhaseEvent(e) then PhaseEvents(log) + [e] else PhaseEvents(log)
  {
    assert (log + [e])[..|log + [e]| - 1] == log;
  }

  /** The phase moves the service makes extend a well-formed history to a well-formed one. */
  lemma PhaseMove(events: seq<Event>, p: Phase, e: Event, q: Phase)
    requires WellFormed(events, p)
    requires (p == Active && e == Resolution && q == Settled) || (p == Settled && e == Reopening && q == Active)
             || (p != Ended && e == Closure && q == Ended) || (p == Settled && e == AutoClosure && q == Ended)
    ensures WellFormed(events + [e], q)
  {
    var k: nat, tail :| Ending(tail, p) && events == [Creation] + Cycles(k) + tail;
    if e == Reopening {
      assert Ending([], q);
      assert events + [e] == [Creation] + Cycles(k + 1) + [];
    } else {
      assert Ending(tail + [e], q);
      assert events + [e] == [Creation] + Cycles(k) + (tail + [e]);
    }
  }

  /** The guard of the plain UPDATE of a reply that sets the status, as the reply read the ticket. */
  predicate SetsStatus(seen: Ticket, req: Request) {
    && req.Reply? && req.admitted && seen.status != Closed && !Hidden(seen, req.actor, req.agent)
    && (if req.agent then !req.internal && seen.status != Resolved
        else !req.internal && seen.status == WaitingOnCustomer)
  }

  /** The writes that move a ticket to another phase without an event are exactly the replies that read it before it
      was resolved and set its status afterwards. */
  lemma SilentMoveIffStaleStatusWrite(seen: Ticket, t: Ticket, now: int, req: Request)
    requires Tidy(t)
    ensures var e := Performed(seen, t, now, req);
            e.events == [] && PhaseOf(e.row) != PhaseOf(t) <==> t.status == Resolved && SetsStatus(seen, req)
  {
  }

  /** Every other write, however stale its read, either leaves phase and assignment alone and records nothing, or makes
      one legal move and records it. */
  lemma RequestMoves(seen: Ticket, t: Ticket, now: int, req: Request)
    requires Tidy(t)
    ensures var e := Performed(seen, t, now, req);
            && Tidy(e.row) && |e.events| <= 1
            && (e.events == [] && !(t.status == Resolved && SetsStatus(seen, req)) ==> ViewOf(e.row) == ViewOf(t))
            && (e.events != [] ==> Recordable(t, e.events[0], e.row))
  {
  }

  /** The moves of phase and assignment, with the event each one leaves. */
  predicate Recordable(t: Ticket, e: Event, u: Ticket) {
    match e
    case Creation => false
    case Assignment => ViewOf(u) == View(PhaseOf(t), true)
    case Unassignment => ViewOf(u) == View(PhaseOf(t), false)
    case Resolution => PhaseOf(t) == Active && ViewOf(u) == View(Settled, t.assignee.Some?)
    case Reopening => PhaseOf(t) == Settled && ViewOf(u) == View(Active, t.assignee.Some?)
    case Closure => PhaseOf(t) != Ended && ViewOf(u) == View(Ended, t.assignee.Some?)
    case AutoClosure => PhaseOf(t) == Settled && ViewOf(u) == View(Ended, t.assignee.Some?)
  }

  lemma Recorded(t: Ticket, log: seq<Event>, e: Event, u: Ticket)
    requires Faithful(t, log) && Tidy(u) && Recordable(t, e, u)
    ensures Faithful(u, log + [e])
  {
    ReplayStep(log, e);
    if IsPhaseEvent(e) {
      PhaseMove(PhaseEvents(log), PhaseOf(t), e, PhaseOf(u));
    }
  }

  lemma WriteKeepsFaithful(seen: Ticket, t: Ticket, now: int, req: Request, log: seq<Event>)
    requires Faithful(t, log) && !(t.status == Resolved && SetsStatus(seen, req))
    ensures var e := Performed(seen, t, now, req); Faithful(e.row, log + e.events)
  {
    RequestMoves(seen, t, now, req);
    var e := Performed(seen, t, now, req);
    if e.events == [] {
      assert log + [] == log;
    } else {
      Recorded(t, log, e.events[0], e.row);
      assert e.events == [e.events[0]];
    }
  }

  lemma SweepKeepsFaithful(t: Ticket, now: int, log: seq<Event>)
    requires Faithful(t, log)
    ensures Faithful(Swept(t, now), log + SweepEvents(t, now))
  {
    if Sweepable(t, now) {
      Recorded(t, log, AutoClosure, Swept(t, now));
    } else {
      assert log + [] == log;
    }
  }

  lemma OpeningIsFaithful(id: nat, requester: nat, category: string, now: int)
    ensures Faithful(NewTicket(id, requester, category, now), [Creation])
  {
    ReplayStep([], Creation);
    assert [] + [Creation] == [Creation];
    assert Ending([], Active);
    assert PhaseEvents([Creation]) == [Creation] + Cycles(0) + [];
  }

  lemma {:induction false} StoryKeepsFaithful(h: History, acts: seq<Act>)
    requires Faithful(h.row, h.log)
    ensures Faithful(Story(h, acts).row, Story(h, acts).log)
    decreases |acts|
  {
    if acts != [] {
      match acts[0] {
        case Wait(dt) =>
        case Do(req) => WriteKeepsFaithful(h.row, h.row, h.now, req, h.log);
        case AutoClose => SweepKeepsFaithful(h.row, h.now, h.log);
      }
      StoryKeepsFaithful(Then(h, acts[0]), acts[1..]);
    }
  }

  /** In every serial run the audit trail replays to the ticket's phase and assignment, and its phase events are
      created, (resolved reopened)*, then an optional resolved and an optional closing, auto-closing only after
      resolved. */
  lemma TrailTellsTheTicket(id: nat, requester: nat, category: string, now: int, acts: seq<Act>)
    ensures var h := Story(Opening(id, requester, category, now), acts);
            && Replayed(h.log) == ViewOf(h.row)
            && WellFormed(PhaseEvents(h.log), PhaseOf(h.row))
  {
    OpeningIsFaithful(id, requester, category, now);
    StoryKeepsFaithful(Opening(id, requester, category, now), acts);
  }

  /** In every serial run from creation no request ever proposes a row that a CHECK rejects. */
  lemma SerialRunsNeverTripACheck(id: nat, requester: nat, category: string, now: int, acts: seq<Act>, req: Request)
    ensures var h := Story(Opening(id, requester, category, now), acts);
            && Checks(h.row) && Checks(Proposed(h.row, h.row, h.now, req).row)
            && Performed(h.row, h.row, h.now, req) == Proposed(h.row, h.row, h.now, req)
  {
    var h := Story(Opening(id, requester, category, now), acts);
    OpeningIsFaithful(id, requester, category, now);
    StoryKeepsFaithful(Opening(id, requester, category, now), acts);
    SerialWritesNeverTripACheck(h.row, h.now, req);
  }

  // ------------------------------------------------------------------ whose turn it is

  /** Who spoke last on an active ticket, as far as its status tells: nobody yet, an agent, or the customer's side. */
  datatype Turn = Nobody | Agent | Customer

  /** Read off the acts alone: an agent's public reply gives the customer the turn; the customer's answer to it, and
      every reopening, gives it back. */
  function TurnAfter(turn: Turn, before: Ticket, after: Ticket, a: Act): Turn {
    if !a.Do? then turn
    else if PhaseOf(before) == Settled && PhaseOf(after) == Active then Customer
    else if PhaseOf(before) != Active || !Heard(before, a.req) then turn
    else if a.req.agent then (if a.req.internal then turn else Agent)
    else if turn == Agent then Customer
    else turn
  }

  function Turns(turn: Turn, h: History, acts: seq<Act>): Turn
    decreases |acts|
  {
    if acts == [] then turn
    else
      var next := Then(h, acts[0]);
      Turns(TurnAfter(turn, h.row, next.row, acts[0]), next, acts[1..])
  }

  predicate Shows(t: Ticket, turn: Turn) {
    match turn
    case Nobody => t.status == Open
    case Agent => t.status == WaitingOnCustomer
    case Customer => t.status == WaitingOnSupport
  }

  lemma ActKeepsTurn(h: History, a: Act, turn: Turn)
    requires Tidy(h.row) && (PhaseOf(h.row) == Active ==> Shows(h.row, turn))
    ensures var g := Then(h, a);
            Tidy(g.row) && (PhaseOf(g.row) == Active ==> Shows(g.row, TurnAfter(turn, h.row, g.row, a)))
  {
    if a.Do? {
      SerialWritesNeverTripACheck(h.row, h.now, a.req);
      match a.req
      case Reply(_, _, _, _) => ReplyRules(h.row, h.row, h.now, a.req);
      case Resolve(_, _, _) => TransitionRules(h.row, h.row, h.now, a.req);
      case Close(_, _) => TransitionRules(h.row, h.row, h.now, a.req);
      case Reopen(_, _) => TransitionRules(h.row, h.row, h.now, a.req);
      case Assign(_, _, _, _) => AssignmentRules(h.row, h.row, h.now, a.req);
      case Unassign(_, _) => AssignmentRules(h.row, h.row, h.now, a.req);
    }
  }

  lemma {:induction false} StoryKeepsTurn(h: History, acts: seq<Act>, turn: Turn)
    requires Tidy(h.row) && (PhaseOf(h.row) == Active ==> Shows(h.row, turn))
    ensures PhaseOf(Story(h, acts).row) == Active ==> Shows(Story(h, acts).row, Turns(turn, h, acts))
    decreases |acts|
  {
    if acts != [] {
      ActKeepsTurn(h, acts[0], turn);
      StoryKeepsTurn(Then(h, acts[0]), acts[1..], TurnAfter(turn, h.row, Then(h, acts[0]).row, acts[0]));
    }
  }

  /** In every serial run an active ticket waits on the customer exactly when an agent's public reply was the last to
      set the turn, on support when the customer's answer or a reopening was, and is open when nothing has. */
  lemma StatusTellsTheTurn(id: nat, requester: nat, category: string, now: int, acts: seq<Act>)
    ensures var h := Opening(id, requester, category, now); var row := Story(h, acts).row;
            PhaseOf(row) == Active ==>
              && (row.status == Open <==> Turns(Nobody, h, acts) == Nobody)
              && (row.status == WaitingOnCustomer <==> Turns(Nobody, h, acts) == Agent)
              && (row.status == WaitingOnSupport <==> Turns(Nobody, h, acts) == Customer)
  {
    StoryKeepsTurn(Opening(id, requester, category, now), acts, Nobody);
  }

  // ------------------------------------------------------------------ the trail under interleaving

  /** The step is a status-setting reply, read earlier, that lands on a resolved ticket. */
  predicate Silent(s: System, step: Step) {
    step.Write? && step.r in s.seen && s.row.status == Resolved && SetsStatus(s.seen[step.r].1, s.seen[step.r].0)
  }

  predicate NeverSilent(s: System, steps: seq<Step>)
    decreases |steps|
  {
    steps == [] || (!Silent(s, steps[0]) && NeverSilent(Next(s, steps[0]), steps[1..]))
  }

  lemma StepKeepsFaithful(s: System, step: Step)
    requires Faithful(s.row, s.log) && !Silent(s, step)
    ensures Faithful(Next(s, step).row, Next(s, step).log)
  {
    match step
    case Tick(dt) =>
    case Read(r, req) =>
    case Write(r) => if r in s.seen { WriteKeepsFaithful(s.seen[r].1, s.row, s.now, s.seen[r].0, s.log); }
    case Sweep => SweepKeepsFaithful(s.row, s.now, s.log);
  }

  lemma {:induction false} InterleavedTrailIsFaithful(s: System, steps: seq<Step>)
    requires Faithful(s.row, s.log) && NeverSilent(s, steps)
    ensures Faithful(Run(s, steps).row, Run(s, steps).log)
    decreases |steps|
  {
    if steps != [] {
      StepKeepsFaithful(s, steps[0]);
      InterleavedTrailIsFaithful(Next(s, steps[0]), steps[1..]);
    }
  }

  /** At every point of the run the trail tells the ticket's phase and assignment. */
  ghost predicate AlwaysTold(s: System, steps: seq<Step>) {
    forall n :: 0 <= n <= |steps| ==> Told(Run(s, steps[..n]))
  }

  predicate Told(s: System) {
    Replayed(s.log) == ViewOf(s.row)
  }

  lemma AlwaysToldUnfolds(s: System, steps: seq<Step>)
    requires steps != []
    ensures AlwaysTold(s, steps) <==> Told(s) && AlwaysTold(Next(s, steps[0]), steps[1..])
  {
    var next := Next(s, steps[0]);
    forall n | 0 < n <= |steps| ensures Run(s, steps[..n]) == Run(next, steps[1..][..n - 1]) {
      assert steps[..n][1..] == steps[1..][..n - 1];
    }
    assert Run(s, steps[..0]) == s;
    if AlwaysTold(s, steps) {
      assert Told(Run(s, steps[..0]));
      forall m | 0 <= m <= |steps[1..]| ensures Told(Run(next, steps[1..][..m])) {
        assert Told(Run(s, steps[..m + 1]));
      }
    }
    if Told(s) && AlwaysTold(next, steps[1..]) {
      forall n | 0 <= n <= |steps| ensures Told(Run(s, steps[..n])) {
        assert n > 0 ==> Told(Run(next, steps[1..][..n - 1]));
      }
    }
  }

  /** Under interleaving the trail keeps telling the ticket exactly in the runs in which no reply sets the status of a
      ticket that was resolved after the reply read it. */
  lemma {:induction false} TrailToldIffNeverSilent(s: System, steps: seq<Step>)
    requires Faithful(s.row, s.log)
    ensures AlwaysTold(s, steps) <==> NeverSilent(s, steps)
    decreases |steps|
  {
    if steps == [] {
      assert Run(s, steps[..0]) == s;
    } else {
      AlwaysToldUnfolds(s, steps);
      var next := Next(s, steps[0]);
      if Silent(s, steps[0]) {
        SilentIsUntold(s, steps[0]);
        assert AlwaysTold(next, steps[1..]) ==> Told(Run(next, steps[1..][..0]));
      } else {
        StepKeepsFaithful(s, steps[0]);
        TrailToldIffNeverSilent(next, steps[1..]);
      }
    }
  }

  lemma SilentIsUntold(s: System, step: Step)
    requires Tidy(s.row) && Told(s) && Silent(s, step)
    ensures !Told(Next(s, step)) && Next(s, step).log == s.log
  {
    SilentMoveIffStaleStatusWrite(s.seen[step.r].1, s.row, s.now, s.seen[step.r].0);
    assert s.log + [] == s.log;
  }

  lemma RunCons(s: System, step: Step, rest: seq<Step>)
    ensures Run(s, [step] + rest) == Run(Next(s, step), rest)
  {
    assert ([step] + rest)[1..] == rest;
  }

  /** Such runs exist: any reply that would set the status of an active ticket, from an agent or from the customer,
      takes it out of `resolved` when a resolution slips in between its read and its write, and the trail still says
      resolved. */
  lemma StaleReplyUnresolves(s: System, reply: Request, resolver: nat, text: string) returns (steps: seq<Step>)
    requires Faithful(s.row, s.log) && PhaseOf(s.row) == Active && SetsStatus(s.row, reply)
    ensures var end := Run(s, steps);
            && end.log == s.log + [Resolution] && Replayed(end.log).phase == Settled
            && PhaseOf(end.row) == Active && end.row.resolvedAt == Some(s.now)
  {
    var resolve := Resolve(resolver, true, text);
    var s1 := Next(s, Read(0, reply));
    var s2 := Next(s1, Read(1, resolve));
    var s3 := Next(s2, Write(1));
    assert s3.row.status == Resolved && s3.seen[0] == (reply, s.row) && s3.log == s.log + [Resolution];
    ReplayStep(s.log, Resolution);
    SilentMoveIffStaleStatusWrite(s.row, s3.row, s3.now, reply);
    steps := [Read(0, reply)] + ([Read(1, resolve)] + ([Write(1)] + ([Write(0)] + [])));
    RunCons(s, Read(0, reply), [Read(1, resolve)] + ([Write(1)] + ([Write(0)] + [])));
    RunCons(s1, Read(1, resolve), [Write(1)] + ([Write(0)] + []));
    RunCons(s2, Write(1), [Write(0)] + []);
    RunCons(s3, Write(0), []);
  }

  // ------------------------------------------------------------------ the resolution window

  /** A resolved ticket can, at any instant, either be reopened or be swept, never both and never neither. */
  lemma ReopenOrSweep(t: Ticket, now: int)
    requires Checks(t) && t.status == Resolved
    ensures Transitioned(t, now, REOPEN_ELIGIBLE, REOPENING).Some? <==> !Sweepable(t, now)
  {
  }

  predicate Lapsed(t: Ticket, now: int, resolvedAt: int) {
    t.status == Resolved && t.resolvedAt == Some(resolvedAt) && PastWindow(t, now)
  }

  /** Once its window has passed a resolved ticket only ever stays resolved or becomes closed. */
  lemma {:induction false} LapsedOnlyCloses(h: History, acts: seq<Act>, resolvedAt: int)
    requires Tidy(h.row) && (Lapsed(h.row, h.now, resolvedAt) || h.row.status == Closed)
    ensures var g := Story(h, acts); Lapsed(g.row, g.now, resolvedAt) || g.row.status == Closed
    decreases |acts|
  {
    if acts != [] {
      LapsedStep(h, acts[0], resolvedAt);
      LapsedOnlyCloses(Then(h, acts[0]), acts[1..], resolvedAt);
    }
  }

  lemma LapsedStep(h: History, a: Act, resolvedAt: int)
    requires Tidy(h.row) && (Lapsed(h.row, h.now, resolvedAt) || h.row.status == Closed)
    ensures var g := Then(h, a); Tidy(g.row) && (Lapsed(g.row, g.now, resolvedAt) || g.row.status == Closed)
  {
    if a.Do? {
      SerialWritesNeverTripACheck(h.row, h.now, a.req);
    }
  }

  /** A sweep closes exactly the lapsed tickets, and a second one at the same instant closes none. */
  lemma SweepIsExactAndIdempotent(rows: map<nat, Ticket>, now: int)
    ensures var once := map id | id in rows :: Swept(rows[id], now);
            && (forall id :: id in rows ==> (once[id] != rows[id] <==> Sweepable(rows[id], now)))
            && (forall id :: id in rows && Sweepable(rows[id], now) ==> once[id].status == Closed)
            && (forall id :: id in once ==> !Sweepable(once[id], now) && Swept(once[id], now) == once[id])
  {
  }
}
