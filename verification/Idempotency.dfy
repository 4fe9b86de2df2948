/** The claim / resolve / release gate that makes ticket creation idempotent per (user, key). */
module Idempotency {
  import opened Prelude

  const POLL_MAX_ATTEMPTS: nat := 5

  /** The cached envelope: the claimant's payload hash and, once resolved, its ticket. */
  datatype Envelope = Envelope(hash: nat, ticket: Option<nat>)

  // ------------------------------------------------------------------ the bounded poll

  datatype Replay = Found(ticket: nat) | KeyReused | Exhausted

  predicate Pending(e: Option<Envelope>, hash: nat) {
    e.Some? && e.value.hash == hash && e.value.ticket.None?
  }

  /** `gets[i]` is what the `i`-th GET of the envelope returns. */
  method ResolveReplay(gets: seq<Option<Envelope>>, hash: nat) returns (r: Replay)
    requires |gets| == POLL_MAX_ATTEMPTS + 1
    ensures forall t :: r == Found(t) <==>
              exists k :: 0 <= k < POLL_MAX_ATTEMPTS && gets[k] == Some(Envelope(hash, Some(t))) &&
                          forall j :: 0 <= j < k ==> Pending(gets[j], hash)
    ensures r == KeyReused <==>
              exists k :: 0 <= k < POLL_MAX_ATTEMPTS && gets[k].Some? && gets[k].value.hash != hash &&
                          forall j :: 0 <= j < k ==> Pending(gets[j], hash)
  {
    var envelope := gets[0];
    for i := 0 to POLL_MAX_ATTEMPTS
      invariant envelope == gets[i]
      invariant forall j :: 0 <= j < i ==> Pending(gets[j], hash)
    {
      if envelope.None? {
        assert !Pending(gets[i], hash);
        return Exhausted;
      }
      if envelope.value.hash != hash {
        assert !Pending(gets[i], hash);
        return KeyReused;
      }
      if envelope.value.ticket.Some? {
        assert !Pending(gets[i], hash);
        return Found(envelope.value.ticket.value);
      }
      envelope := gets[i + 1];
    }
    return Exhausted;
  }

  // ------------------------------------------------------------------ interleaved requests on one key

  const TTL: nat := 86400 * SECOND

  datatype Phase =
    | New
    | Working               // holds a claim, has committed nothing
    | Failing               // an exception was raised before the commit; the release is still to come
    | Inserted(id: nat)     // the ticket is committed; the envelope is not yet resolved
    | Polling(checks: nat)  // lost the claim
    | Returned(id: nat)
    | Refused
    | Dead                  // the process died; it will never take another step

  datatype Request = Request(hash: nat, phase: Phase)

  /** A committed ticket, with the request that created it as history. */
  datatype Ticket = Ticket(id: nat, hash: nat, author: nat)

  /** `claims` is history: when each request that still may have, or has, committed a ticket won the key. */
  datatype System = System(
    now: int, key: Option<Entry<Envelope>>, tickets: seq<Ticket>, reqs: map<nat, Request>, claims: map<nat, int>)

  datatype Step =
    | Tick(dt: nat)
    | Claim(r: nat) | Commit(r: nat, id: nat) | Fail(r: nat) | Release(r: nat) | Resolve(r: nat)
    | Poll(r: nat) | Die(r: nat)

  function Moved(s: System, r: nat, p: Phase): map<nat, Request>
    requires r in s.reqs
  {
    s.reqs[r := Request(s.reqs[r].hash, p)]
  }

  /** `GET` of the envelope. */
  function Readable(s: System): Option<Envelope> {
    if s.key.Some? && s.now < s.key.value.expiresAt then Some(s.key.value.value) else None
  }

  function Written(s: System, e: Envelope): Option<Entry<Envelope>> {
    Some(Entry(e, s.now + TTL))
  }

  predicate Stored(s: System, id: nat) {
    exists i :: 0 <= i < |s.tickets| && s.tickets[i].id == id
  }

  function AfterPoll(s: System, hash: nat, checks: nat): Phase {
    var e := Readable(s);
    if checks >= POLL_MAX_ATTEMPTS || e.None? || e.value.hash != hash then Refused
    else if e.value.ticket.None? then Polling(checks + 1)
    else if Stored(s, e.value.ticket.value) then Returned(e.value.ticket.value)
    else Refused
  }

  function AfterClaim(s: System, r: nat): System
    requires r in s.reqs
  {
    if Readable(s).None?
    then s.(key := Written(s, Envelope(s.reqs[r].hash, None)), reqs := Moved(s, r, Working),
            claims := s.claims[r := s.now])
    else s.(reqs := Moved(s, r, Polling(0)))
  }

  /** One atomic cache or database action; a step that is not enabled changes nothing. */
  function Next(s: System, step: Step): System {
    if step.Tick? then s.(now := s.now + step.dt)
    else if step.r !in s.reqs then s
    else
      var r := step.r;
      var q := s.reqs[r];
      match step
      case Claim(_) => if q.phase.New? then AfterClaim(s, r) else s
      case Commit(_, id) =>
        if !q.phase.Working? || Stored(s, id) then s
        else s.(tickets := s.tickets + [Ticket(id, q.hash, r)], reqs := Moved(s, r, Inserted(id)))
      case Fail(_) => if q.phase.Working? then s.(reqs := Moved(s, r, Failing)) else s
      case Release(_) =>
        if q.phase.Failing? then s.(key := None, reqs := Moved(s, r, Refused), claims := s.claims - {r}) else s
      case Resolve(_) =>
        if !q.phase.Inserted? then s
        else s.(key := Written(s, Envelope(q.hash, Some(q.phase.id))), reqs := Moved(s, r, Returned(q.phase.id)))
      case Poll(_) => if q.phase.Polling? then s.(reqs := Moved(s, r, AfterPoll(s, q.hash, q.phase.checks))) else s
      case Die(_) => s.(reqs := Moved(s, r, Dead))
  }

  function Run(s: System, steps: seq<Step>): System
    decreases |steps|
  {
    if steps == [] then s else Run(Next(s, steps[0]), steps[1..])
  }

  ghost predicate Initial(s: System) {
    s.key == None && s.tickets == [] && s.claims == map[] && forall r :: r in s.reqs ==> s.reqs[r].phase == New
  }

  // ------------------------------------------------------------------ what a success returns

  ghost predicate Created(s: System, id: nat, hash: nat) {
    exists i :: 0 <= i < |s.tickets| && s.tickets[i].id == id && s.tickets[i].hash == hash
  }

  /** Envelopes, committed requests and answers all name a ticket of their own payload hash. */
  ghost predicate Truthful(s: System) {
    && (s.key.Some? && s.key.value.value.ticket.Some? ==>
          Created(s, s.key.value.value.ticket.value, s.key.value.value.hash))
    && (forall r :: r in s.reqs && (s.reqs[r].phase.Inserted? || s.reqs[r].phase.Returned?) ==>
          Created(s, s.reqs[r].phase.id, s.reqs[r].hash))
  }

  lemma CommitKeepsCreated(s: System, t: Ticket, id: nat, hash: nat)
    requires Created(s, id, hash)
    ensures Created(s.(tickets := s.tickets + [t]), id, hash)
  {
    var i :| 0 <= i < |s.tickets| && s.tickets[i].id == id && s.tickets[i].hash == hash;
    assert (s.tickets + [t])[i] == s.tickets[i];
  }

  lemma StepKeepsTruth(s: System, step: Step)
    requires Truthful(s)
    ensures Truthful(Next(s, step))
  {
    var n := Next(s, step);
    if n.tickets == s.tickets {
      forall id, hash | Created(s, id, hash) ensures Created(n, id, hash) {
      }
    } else {
      var t := Ticket(step.id, s.reqs[step.r].hash, step.r);
      assert n.tickets[|s.tickets|] == t;
      forall id, hash | Created(s, id, hash) ensures Created(n, id, hash) {
        CommitKeepsCreated(s, t, id, hash);
      }
    }
  }

  // ------------------------------------------------------------------ how far apart two tickets are

  predicate Apart(a: int, b: int) {
    a + TTL <= b || b + TTL <= a
  }

  /** A claim younger than the time to live is protected by the key. */
  ghost predicate Shielded(s: System) {
    forall r :: r in s.claims ==>
      && s.claims[r] <= s.now
      && (s.now < s.claims[r] + TTL ==> s.key.Some? && s.claims[r] + TTL <= s.key.value.expiresAt)
  }

  ghost predicate ClaimsApart(s: System) {
    forall r, q :: r in s.claims && q in s.claims && r != q ==> Apart(s.claims[r], s.claims[q])
  }

  /** Whoever may commit, or has, holds a claim; a request commits at most once. */
  ghost predicate Claimants(s: System) {
    && (forall r :: r in s.claims ==> r in s.reqs && !s.reqs[r].phase.New?)
    && (forall r :: r in s.reqs && (s.reqs[r].phase.Working? || s.reqs[r].phase.Failing?) ==> r in s.claims)
    && (forall i :: 0 <= i < |s.tickets| ==> s.tickets[i].author in s.claims && Over(s, s.tickets[i].author))
    && (forall i, j :: 0 <= i < j < |s.tickets| ==> s.tickets[i].author != s.tickets[j].author)
  }

  predicate Over(s: System, r: nat) {
    r in s.reqs && (s.reqs[r].phase.Inserted? || s.reqs[r].phase.Returned? || s.reqs[r].phase.Dead?)
  }

  ghost predicate Gated(s: System) {
    Shielded(s) && ClaimsApart(s) && Claimants(s)
  }

  /** The release deletes a key that by now protects somebody else's claim. */
  ghost predicate Stray(s: System, step: Step) {
    && step.Release? && step.r in s.reqs && s.reqs[step.r].phase.Failing?
    && exists q :: q in s.claims && q != step.r && s.now < s.claims[q] + TTL
  }

  lemma StepKeepsShield(s: System, step: Step)
    requires Gated(s) && !Stray(s, step)
    ensures Shielded(Next(s, step)) && ClaimsApart(Next(s, step))
  {
  }

  lemma CommitKeepsClaimants(s: System, r: nat, id: nat)
    requires Claimants(s) && r in s.reqs && s.reqs[r].phase.Working? && !Stored(s, id)
    ensures Claimants(Next(s, Commit(r, id)))
  {
    var n := Next(s, Commit(r, id));
    assert n.tickets == s.tickets + [Ticket(id, s.reqs[r].hash, r)];
  }

  lemma StepKeepsClaimants(s: System, step: Step)
    requires Claimants(s)
    ensures Claimants(Next(s, step))
  {
    if step.Commit? && step.r in s.reqs && s.reqs[step.r].phase.Working? && !Stored(s, step.id) {
      CommitKeepsClaimants(s, step.r, step.id);
    }
  }

  ghost predicate NeverStray(s: System, steps: seq<Step>)
    decreases |steps|
  {
    steps == [] || (!Stray(s, steps[0]) && NeverStray(Next(s, steps[0]), steps[1..]))
  }

  lemma {:induction false} RunKeepsGate(s: System, steps: seq<Step>)
    requires Gated(s) && NeverStray(s, steps)
    ensures Gated(Run(s, steps))
    decreases |steps|
  {
    if steps != [] {
      StepKeepsShield(s, steps[0]);
      StepKeepsClaimants(s, steps[0]);
      RunKeepsGate(Next(s, steps[0]), steps[1..]);
    }
  }

  lemma {:induction false} RunKeepsTruth(s: System, steps: seq<Step>)
    requires Truthful(s)
    ensures Truthful(Run(s, steps))
    decreases |steps|
  {
    if steps != [] {
      StepKeepsTruth(s, steps[0]);
      RunKeepsTruth(Next(s, steps[0]), steps[1..]);
    }
  }

  /** In every interleaving in which no release deletes another request's key, two tickets of one key were claimed at
      least the time to live apart. */
  lemma TicketsATtlApart(s: System, steps: seq<Step>, i: nat, j: nat)
    requires Initial(s) && NeverStray(s, steps) && i < j < |Run(s, steps).tickets|
    ensures var end := Run(s, steps);
            && end.tickets[i].author in end.claims && end.tickets[j].author in end.claims
            && Apart(end.claims[end.tickets[i].author], end.claims[end.tickets[j].author])
  {
    RunKeepsGate(s, steps);
  }

  /** Every claim, and the time, is within one time to live after `since`. */
  ghost predicate Recent(s: System, since: int) {
    since <= s.now < since + TTL && forall r :: r in s.claims ==> since <= s.claims[r]
  }

  lemma RecentStepIsNotStray(s: System, step: Step, since: int)
    requires Gated(s) && Recent(s, since) && Next(s, step).now < since + TTL
    ensures !Stray(s, step) && Recent(Next(s, step), since)
  {
    assert forall r, q :: r in s.claims && q in s.claims ==> r == q;
  }

  lemma {:induction false} RecentRunsNeverStray(s: System, steps: seq<Step>, since: int)
    requires Gated(s) && Recent(s, since) && Run(s, steps).now < since + TTL
    ensures NeverStray(s, steps) && Recent(Run(s, steps), since)
    decreases |steps|
  {
    if steps != [] {
      TimePasses(Next(s, steps[0]), steps[1..]);
      RecentStepIsNotStray(s, steps[0], since);
      StepKeepsShield(s, steps[0]);
      StepKeepsClaimants(s, steps[0]);
      RecentRunsNeverStray(Next(s, steps[0]), steps[1..], since);
    }
  }

  lemma {:induction false} TimePasses(s: System, steps: seq<Step>)
    ensures s.now <= Run(s, steps).now
    decreases |steps|
  {
    if steps != [] {
      TimePasses(Next(s, steps[0]), steps[1..]);
    }
  }

  /** Two tickets stem from two claims. */
  ghost predicate TwoClaims(s: System, i: nat, j: nat) {
    i < j < |s.tickets| ==>
      s.tickets[i].author in s.claims && s.tickets[j].author in s.claims && s.tickets[i].author != s.tickets[j].author
  }

  /** Within the time to live every interleaving, with failures, releases and deaths, commits at most one ticket, and
      every success returns it to a request with its creator's payload hash. */
  lemma AtMostOneTicketPerKey(s: System, steps: seq<Step>)
    requires Initial(s) && Run(s, steps).now < s.now + TTL
    ensures var end := Run(s, steps);
            && |end.tickets| <= 1
            && forall r :: r in end.reqs && end.reqs[r].phase.Returned? ==>
                 && |end.tickets| == 1
                 && end.tickets[0].id == end.reqs[r].phase.id && end.tickets[0].hash == end.reqs[r].hash
  {
    RunKeepsTruth(s, steps);
    TimePasses(s, steps);
    RecentRunsNeverStray(s, steps, s.now);
    RunKeepsGate(s, steps);
    var end := Run(s, steps);
    assert forall r, q :: r in end.claims && q in end.claims ==> r == q;
    assert TwoClaims(end, 0, 1);
  }

  /** At any time, expired keys and stray releases included, a success returns a committed ticket with the caller's own
      payload hash, and an envelope that names a ticket names a committed one. */
  lemma SuccessesAreTruthful(s: System, steps: seq<Step>, r: nat)
    requires Initial(s)
    ensures var end := Run(s, steps);
            && (r in end.reqs && end.reqs[r].phase.Returned? ==> Created(end, end.reqs[r].phase.id, end.reqs[r].hash))
            && (Readable(end).Some? && Readable(end).value.ticket.Some? ==>
                  Stored(end, Readable(end).value.ticket.value))
  {
    RunKeepsTruth(s, steps);
  }

  lemma RunCons(s: System, step: Step, rest: seq<Step>)
    ensures Run(s, [step] + rest) == Run(Next(s, step), rest)
  {
    assert ([step] + rest)[1..] == rest;
  }

  // ------------------------------------------------------------------ what a poll answers

  /** A poll returns the ticket of a resolved envelope with the caller's hash, waits on a pending one for five polls in
      all, and is refused otherwise. */
  lemma PollRules(s: System, steps: seq<Step>, r: nat)
    requires Initial(s) && r in Run(s, steps).reqs && Run(s, steps).reqs[r].phase.Polling?
    ensures var end := Run(s, steps); var q := end.reqs[r]; var after := Next(end, Poll(r)).reqs[r].phase;
            var live := end.key.Some? && end.now < end.key.value.expiresAt && end.key.value.value.hash == q.hash;
            && (after.Returned? <==> q.phase.checks < 5 && live && end.key.value.value.ticket.Some?)
            && (after.Returned? ==> Some(after.id) == end.key.value.value.ticket)
            && (after.Polling? <==> q.phase.checks < 5 && live && end.key.value.value.ticket.None?)
            && (after.Polling? ==> after.checks == q.phase.checks + 1)
            && (!after.Returned? && !after.Polling? ==> after.Refused?)
  {
    RunKeepsTruth(s, steps);
  }

  /** A repeated request gets the ticket: once a request has resolved the key, another one with the same payload hash
      that comes within the time to live is answered with that ticket by its first poll. */
  lemma ReplayReturnsTheTicket(s: System, steps: seq<Step>, first: nat, id: nat, wait: nat, r: nat)
    requires Initial(s) && wait < TTL
    requires var end := Run(s, steps);
             && first in end.reqs && end.reqs[first].phase == Inserted(id)
             && r in end.reqs && end.reqs[r].phase.New? && end.reqs[r].hash == end.reqs[first].hash && r != first
    ensures var resolved := Next(Next(Run(s, steps), Resolve(first)), Tick(wait));
            Next(Next(resolved, Claim(r)), Poll(r)).reqs[r].phase == Returned(id)
  {
    RunKeepsTruth(s, steps);
    var end := Run(s, steps);
    var resolved := Next(Next(end, Resolve(first)), Tick(wait));
    assert Created(end, id, end.reqs[first].hash);
    assert Stored(resolved, id);
  }

  // ------------------------------------------------------------------ when a second ticket is possible

  lemma TwoTickets(s: System, r: nat, q: nat) returns (steps: seq<Step>)
    requires Initial(s) && r in s.reqs && q in s.reqs && r != q
    ensures var end := Run(s, steps);
            && end.now == s.now + TTL && |end.tickets| == 2 && end.claims == map[r := s.now, q := s.now + TTL]
  {
    var a, b, c, d, e := Claim(r), Tick(TTL), Claim(q), Commit(q, 1), Commit(r, 0);
    steps := [a] + ([b] + ([c] + ([d] + ([e] + []))));
    var s1 := Next(s, a);
    var s2 := Next(s1, b);
    var s3 := Next(s2, c);
    var s4 := Next(s3, d);
    assert s4.tickets == [Ticket(1, s.reqs[q].hash, q)] && s4.reqs[r].phase == Working;
    RunCons(s, a, [b] + ([c] + ([d] + ([e] + []))));
    RunCons(s1, b, [c] + ([d] + ([e] + [])));
    RunCons(s2, c, [d] + ([e] + []));
    RunCons(s3, d, [e] + []);
    RunCons(s4, e, []);
  }

  lemma {:induction false} RunKeepsClaimants(s: System, steps: seq<Step>)
    requires Claimants(s)
    ensures Claimants(Run(s, steps)) && Run(s, steps).reqs.Keys == s.reqs.Keys
    decreases |steps|
  {
    if steps != [] {
      StepKeepsClaimants(s, steps[0]);
      RunKeepsClaimants(Next(s, steps[0]), steps[1..]);
    }
  }

  lemma OneRequestOneTicket(s: System)
    requires Claimants(s) && |s.reqs| < 2
    ensures |s.tickets| <= 1
  {
    assert |s.reqs.Keys| == |s.reqs|;
    forall r, q | r in s.reqs && q in s.reqs ensures r == q {
      SubsetSize({r, q}, s.reqs.Keys);
    }
    assert TwoClaims(s, 0, 1);
  }

  /** Runs that end within `d` of their start commit at most one ticket exactly when `d` is less than the time to live,
      or there is only one request. */
  lemma OneTicketIffWithinTtl(s: System, d: nat)
    requires Initial(s)
    ensures (forall steps :: Run(s, steps).now <= s.now + d ==> |Run(s, steps).tickets| <= 1)
            <==> (d < TTL || |s.reqs| < 2)
  {
    assert |s.reqs.Keys| == |s.reqs|;
    if d < TTL || |s.reqs| < 2 {
      forall steps | Run(s, steps).now <= s.now + d ensures |Run(s, steps).tickets| <= 1 {
        if d < TTL {
          AtMostOneTicketPerKey(s, steps);
        } else {
          RunKeepsClaimants(s, steps);
          assert |Run(s, steps).reqs.Keys| == |Run(s, steps).reqs|;
          OneRequestOneTicket(Run(s, steps));
        }
      }
    } else {
      var r, q := PickTwo(s.reqs.Keys);
      var steps := TwoTickets(s, r, q);
      assert Run(s, steps).now <= s.now + d && |Run(s, steps).tickets| > 1;
    }
  }

  // ------------------------------------------------------------------ when two tickets can be close together

  /** Two tickets were claimed less than a time to live apart. */
  ghost predicate Twins(s: System) {
    exists i, j :: 0 <= i < j < |s.tickets| && Close(s, s.tickets[i].author, s.tickets[j].author)
  }

  ghost predicate TwinsAfter(s: System, steps: seq<Step>) {
    Twins(Run(s, steps))
  }

  predicate Close(s: System, r: nat, q: nat) {
    r in s.claims && q in s.claims && !Apart(s.claims[r], s.claims[q])
  }

  /** A request outlives its claim and fails after the next one has claimed: its release frees the key for a third. */
  lemma ReleaseFreesForeignKey(s: System, r: nat, q: nat) returns (steps: seq<Step>)
    requires Initial(s) && r in s.reqs && q in s.reqs && r != q
    ensures var end := Run(s, steps);
            && end.now == s.now + TTL && end.key == None && end.tickets == [] && end.claims == map[q := s.now + TTL]
            && end.reqs == s.reqs[r := Request(s.reqs[r].hash, Refused)][q := Request(s.reqs[q].hash, Working)]
  {
    var a, b, c, d, e := Claim(r), Tick(TTL), Claim(q), Fail(r), Release(r);
    steps := [a] + ([b] + ([c] + ([d] + ([e] + []))));
    var s1 := Next(s, a);
    var s2 := Next(s1, b);
    var s3 := Next(s2, c);
    var s4 := Next(s3, d);
    var s5 := Next(s4, e);
    assert s5.claims == map[q := s.now + TTL];
    RunCons(s, a, [b] + ([c] + ([d] + ([e] + []))));
    RunCons(s1, b, [c] + ([d] + ([e] + [])));
    RunCons(s2, c, [d] + ([e] + []));
    RunCons(s3, d, [e] + []);
    RunCons(s4, e, []);
  }

  /** With the key gone the request it protected and a new one both commit. */
  lemma BothCommit(s: System, q: nat, n: nat) returns (steps: seq<Step>)
    requires s.key == None && s.tickets == [] && s.claims == map[q := s.now]
    requires q in s.reqs && s.reqs[q].phase.Working? && n in s.reqs && s.reqs[n].phase.New? && n != q
    ensures Twins(Run(s, steps))
  {
    var a, b, c := Claim(n), Commit(n, 0), Commit(q, 1);
    steps := [a] + ([b] + ([c] + []));
    var s1 := Next(s, a);
    var s2 := Next(s1, b);
    var s3 := Next(s2, c);
    RunCons(s, a, [b] + ([c] + []));
    RunCons(s1, b, [c] + []);
    RunCons(s2, c, []);
    assert s2.tickets == [Ticket(0, s.reqs[n].hash, n)];
    assert s3.tickets[0].author == n && s3.tickets[1].author == q && Close(s3, n, q);
  }

  lemma ThreeRequestsTwins(s: System, r: nat, q: nat, n: nat) returns (steps: seq<Step>)
    requires Initial(s) && r in s.reqs && q in s.reqs && n in s.reqs && r != q && r != n && q != n
    ensures Twins(Run(s, steps))
  {
    var first := ReleaseFreesForeignKey(s, r, q);
    var rest := BothCommit(Run(s, first), q, n);
    RunConcat(s, first, rest);
    steps := first + rest;
  }

  /** With two requests, once a young claim has lost its key nobody is left to claim. */
  ghost predicate Settled(s: System) {
    && Claimants(s) && ClaimsApart(s)
    && (Shielded(s) || NobodyNew(s))
  }

  ghost predicate NobodyNew(s: System) {
    forall r :: r in s.reqs ==> !s.reqs[r].phase.New?
  }

  lemma StepKeepsNobodyNew(s: System, step: Step)
    requires NobodyNew(s)
    ensures NobodyNew(Next(s, step)) && Next(s, step).claims.Keys <= s.claims.Keys
    ensures forall r :: r in Next(s, step).claims ==> Next(s, step).claims[r] == s.claims[r]
  {
  }

  /** A stray release is about one request and done by another. */
  lemma StrayMeansNobodyNew(s: System, step: Step)
    requires Claimants(s) && Stray(s, step) && |s.reqs| <= 2
    ensures NobodyNew(s)
  {
    var q :| q in s.claims && q != step.r && s.now < s.claims[q] + TTL;
    assert |s.reqs.Keys| == |s.reqs|;
    forall x | x in s.reqs ensures x == q || x == step.r {
      SubsetSize({q, step.r, x}, s.reqs.Keys);
    }
  }

  lemma StepKeepsSettled(s: System, step: Step)
    requires Settled(s) && |s.reqs| <= 2
    ensures Settled(Next(s, step))
  {
    StepKeepsClaimants(s, step);
    if Shielded(s) && !Stray(s, step) {
      StepKeepsShield(s, step);
    } else {
      if Shielded(s) {
        StrayMeansNobodyNew(s, step);
      }
      StepKeepsNobodyNew(s, step);
    }
  }

  lemma StepKeepsRequests(s: System, step: Step)
    ensures |Next(s, step).reqs| == |s.reqs|
  {
    var n := Next(s, step);
    assert n.reqs.Keys == s.reqs.Keys && |n.reqs| == |n.reqs.Keys| && |s.reqs| == |s.reqs.Keys|;
  }

  lemma {:induction false} TwoRequestsNeverTwins(s: System, steps: seq<Step>)
    requires Settled(s) && |s.reqs| <= 2
    ensures !Twins(Run(s, steps))
    decreases |steps|
  {
    if steps != [] {
      StepKeepsSettled(s, steps[0]);
      StepKeepsRequests(s, steps[0]);
      TwoRequestsNeverTwins(Next(s, steps[0]), steps[1..]);
    }
  }

  /** Two tickets of one key can be claimed less than a time to live apart exactly when three requests use the key. */
  lemma TwinsIffThreeRequests(s: System)
    requires Initial(s)
    ensures (exists steps :: TwinsAfter(s, steps)) <==> |s.reqs| >= 3
  {
    assert |s.reqs.Keys| == |s.reqs|;
    if |s.reqs| >= 3 {
      var r, q := PickTwo(s.reqs.Keys);
      assert |s.reqs.Keys - {r, q}| > 0;
      var n :| n in s.reqs.Keys - {r, q};
      var steps := ThreeRequestsTwins(s, r, q, n);
      assert TwinsAfter(s, steps);
    } else {
      forall steps ensures !TwinsAfter(s, steps) {
        TwoRequestsNeverTwins(s, steps);
      }
    }
  }

  lemma {:induction false} RunConcat(s: System, a: seq<Step>, b: seq<Step>)
    ensures Run(s, a + b) == Run(Run(s, a), b)
    decreases |a|
  {
    if a == [] {
      assert a + b == b;
    } else {
      assert (a + b)[1..] == a[1..] + b;
      RunConcat(Next(s, a[0]), a[1..], b);
    }
  }

  /** Once the key of a young claim is gone, the next claimant commits. */
  lemma NextClaimantCommits(s: System, n: nat, id: nat) returns (steps: seq<Step>)
    requires s.key == None && n in s.reqs && s.reqs[n].phase.New? && !Stored(s, id)
    ensures Run(s, steps) == System(s.now, Written(s, Envelope(s.reqs[n].hash, None)),
                                    s.tickets + [Ticket(id, s.reqs[n].hash, n)],
                                    s.reqs[n := Request(s.reqs[n].hash, Inserted(id))], s.claims[n := s.now])
  {
    var a, b := Claim(n), Commit(n, id);
    var s1 := Next(s, a);
    steps := [a] + ([b] + []);
    RunCons(s, a, [b] + []);
    RunCons(s1, b, []);
    assert Next(s1, b).reqs == s.reqs[n := Request(s.reqs[n].hash, Inserted(id))];
  }

  /** Whatever the release strips of its key, a request still at work or one that has its ticket, the next claimant and
      it end up with tickets less than a time to live apart. */
  lemma StrayReleaseAdmitsATwin(s: System, r: nat, q: nat, n: nat, id: nat) returns (steps: seq<Step>)
    requires Gated(s) && r in s.reqs && s.reqs[r].phase.Failing? && !Stored(s, id) && !Stored(s, id + 1)
    requires q in s.claims && q != r && s.now < s.claims[q] + TTL
    requires q in s.reqs && (s.reqs[q].phase.Working? || Authored(s, q))
    requires n in s.reqs && s.reqs[n].phase.New?
    ensures Twins(Run(s, steps))
  {
    var s1 := Next(s, Release(r));
    var middle := NextClaimantCommits(s1, n, id);
    var s3 := Run(s1, middle);
    var d := Commit(q, id + 1);
    steps := [Release(r)] + (middle + ([d] + []));
    RunCons(s, Release(r), middle + ([d] + []));
    RunConcat(s1, middle, [d] + []);
    RunCons(s3, d, []);
    LastCommitTwins(s, s3, q, n, id + 1);
  }

  lemma LastCommitTwins(s: System, t: System, q: nat, n: nat, id: nat)
    requires |t.tickets| == |s.tickets| + 1 && t.tickets[..|s.tickets|] == s.tickets
    requires t.tickets[|s.tickets|].author == n
    requires n in t.claims && q in t.claims && !Apart(t.claims[n], t.claims[q]) && !Stored(t, id)
    requires q in t.reqs && (t.reqs[q].phase.Working? || Authored(s, q))
    ensures Twins(Next(t, Commit(q, id)))
  {
    var u := Next(t, Commit(q, id));
    if t.reqs[q].phase.Working? {
      assert u.tickets[|s.tickets|].author == n && u.tickets[|s.tickets| + 1].author == q && Close(u, n, q);
    } else {
      var i :| 0 <= i < |s.tickets| && s.tickets[i].author == q;
      assert t.tickets[..|s.tickets|][i] == s.tickets[i];
      assert u.tickets[i].author == q && u.tickets[|s.tickets|].author == n && Close(u, q, n);
    }
  }

  predicate Authored(s: System, q: nat) {
    exists i :: 0 <= i < |s.tickets| && s.tickets[i].author == q
  }
}
