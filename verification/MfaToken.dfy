/** The single-use MFA login token: it is looked up, a code is checked, and only then is the token consumed. */
module MfaToken {
  import opened Prelude

  const LOCKOUT_THRESHOLD: nat := 5

  datatype Phase = New | Resolved | Accepted | LoggedIn | Refused

  /** A request with the one-time code it would be accepted for, a recovery code or a TOTP step, if any. */
  datatype Request = Request(code: Option<nat>, phase: Phase)

  /** One token; `used` are the account's codes that are spent. */
  datatype System = System(token: bool, attempts: nat, used: set<nat>, reqs: map<nat, Request>)

  datatype Step = Lookup(r: nat) | Check(r: nat) | Finish(r: nat) | Lapse

  function Moved(s: System, r: nat, p: Phase): map<nat, Request>
    requires r in s.reqs
  {
    s.reqs[r := s.reqs[r].(phase := p)]
  }

  predicate Spendable(s: System, code: Option<nat>) {
    code.Some? && code.value !in s.used
  }

  /** The code is spent atomically; the last failure allowed deletes the token. */
  function AfterCheck(s: System, r: nat): System
    requires r in s.reqs
  {
    if Spendable(s, s.reqs[r].code)
    then s.(used := s.used + {s.reqs[r].code.value}, reqs := Moved(s, r, Accepted))
    else
      var failures := s.attempts + 1;
      s.(attempts := failures, token := s.token && failures < LOCKOUT_THRESHOLD, reqs := Moved(s, r, Refused))
  }

  function Next(s: System, step: Step): System {
    if step.Lapse? then s.(token := false)
    else if step.r !in s.reqs then s
    else
      var r, p := step.r, s.reqs[step.r].phase;
      match step
      case Lookup(_) => if p.New? then s.(reqs := Moved(s, r, if s.token then Resolved else Refused)) else s
      case Check(_) => if p.Resolved? then AfterCheck(s, r) else s
      case Finish(_) => if p.Accepted? then s.(token := false, reqs := Moved(s, r, LoggedIn)) else s
  }

  function Run(s: System, steps: seq<Step>): System
    decreases |steps|
  {
    if steps == [] then s else Run(Next(s, steps[0]), steps[1..])
  }

  function Sessions(s: System): set<nat> {
    set r | r in s.reqs && s.reqs[r].phase.LoggedIn?
  }

  function Codes(s: System): set<nat> {
    set r | r in s.reqs && s.reqs[r].code.Some? :: s.reqs[r].code.value
  }

  ghost predicate Initial(s: System) {
    s.token && s.attempts == 0 && forall r :: r in s.reqs ==> s.reqs[r].phase.New?
  }

  // ------------------------------------------------------------------ one request at a time

  /** A request from beginning to end. */
  function Served(s: System, r: nat): System {
    Next(Next(Next(s, Lookup(r)), Check(r)), Finish(r))
  }

  function AllServed(s: System, order: seq<nat>): System
    decreases |order|
  {
    if order == [] then s else AllServed(Served(s, order[0]), order[1..])
  }

  ghost predicate AtRest(s: System) {
    && (forall r :: r in s.reqs ==> !s.reqs[r].phase.Resolved? && !s.reqs[r].phase.Accepted?)
    && (forall r, q :: r in Sessions(s) && q in Sessions(s) ==> r == q)
    && (s.token ==> Sessions(s) == {})
  }

  lemma ServeKeepsRest(s: System, r: nat)
    requires AtRest(s)
    ensures AtRest(Served(s, r))
  {
    var n := Served(s, r);
    assert forall q :: q in s.reqs && q != r ==> q in n.reqs && n.reqs[q] == s.reqs[q];
    if r in Sessions(n) && r !in Sessions(s) {
      assert s.token && Sessions(n) == {r};
    } else {
      assert Sessions(n) == Sessions(s);
    }
  }

  /** One after the other, the requests that present a token open at most one session. */
  lemma {:induction false} SerialTokenIsSingleUse(s: System, order: seq<nat>)
    requires AtRest(s)
    ensures forall r, q :: r in Sessions(AllServed(s, order)) && q in Sessions(AllServed(s, order)) ==> r == q
    decreases |order|
  {
    if order != [] {
      ServeKeepsRest(s, order[0]);
      SerialTokenIsSingleUse(Served(s, order[0]), order[1..]);
    }
  }

  /** Wrong codes, one after the other: the token survives four of them and is gone with the fifth. */
  lemma {:induction false} FiveWrongCodesKillTheToken(s: System, order: seq<nat>)
    requires AtRest(s) && s.token && s.attempts < 5
    requires forall i :: 0 <= i < |order| ==>
               order[i] in s.reqs && s.reqs[order[i]].phase.New? && s.reqs[order[i]].code.None?
    requires forall i, j :: 0 <= i < j < |order| ==> order[i] != order[j]
    ensures AllServed(s, order).token <==> s.attempts + |order| < 5
    decreases |order|
  {
    if order != [] {
      ServeKeepsRest(s, order[0]);
      var n := Served(s, order[0]);
      assert n.attempts == s.attempts + 1 && (n.token <==> n.attempts < 5);
      if n.token {
        FiveWrongCodesKillTheToken(n, order[1..]);
      } else {
        DeadTokenStaysDead(n, order[1..]);
      }
    }
  }

  lemma {:induction false} DeadTokenStaysDead(s: System, order: seq<nat>)
    requires !s.token
    ensures !AllServed(s, order).token
    decreases |order|
  {
    if order != [] {
      DeadTokenStaysDead(Served(s, order[0]), order[1..]);
    }
  }

  /** A request that comes with a live token and an unspent code logs in, and the token is gone; without a live token
      nobody does. */
  lemma ServeRules(s: System, r: nat)
    requires r in s.reqs && s.reqs[r].phase.New?
    ensures Served(s, r).reqs[r].phase
            == if s.token && s.reqs[r].code.Some? && s.reqs[r].code.value !in s.used then LoggedIn else Refused
    ensures Served(s, r).reqs[r].phase.LoggedIn? ==>
              !Served(s, r).token && Served(s, r).used == s.used + {s.reqs[r].code.value}
  {
  }

  // ------------------------------------------------------------------ overlapping requests: at most one per code

  function Winners(s: System): set<nat> {
    set r | r in s.reqs && (s.reqs[r].phase.Accepted? || s.reqs[r].phase.LoggedIn?)
  }

  /** Every acceptance has spent a code of its own. */
  ghost predicate Paid(start: System, s: System) {
    && start.used <= s.used <= start.used + Codes(start) && Codes(s) == Codes(start)
    && |Winners(s)| + |start.used| == |s.used|
  }

  /** A change of phase leaves the codes presented alone. */
  lemma MoveKeepsCodes(s: System, n: System, r: nat, p: Phase)
    requires r in s.reqs && n.reqs == Moved(s, r, p)
    ensures Codes(n) == Codes(s)
  {
    forall c | c in Codes(s) ensures c in Codes(n) {
      var q :| q in s.reqs && s.reqs[q].code == Some(c);
      assert n.reqs[q].code == Some(c);
    }
    forall c | c in Codes(n) ensures c in Codes(s) {
      var q :| q in n.reqs && n.reqs[q].code == Some(c);
      assert s.reqs[q].code == Some(c);
    }
  }

  lemma MoveOfWinners(s: System, n: System, r: nat, p: Phase)
    requires r in s.reqs && n.reqs == Moved(s, r, p) && r !in Winners(s)
    ensures |Winners(n)| == |Winners(s)| + if p.Accepted? || p.LoggedIn? then 1 else 0
  {
    assert Winners(n) == if p.Accepted? || p.LoggedIn? then Winners(s) + {r} else Winners(s);
  }

  lemma CheckKeepsPaid(start: System, s: System, r: nat)
    requires Paid(start, s) && r in s.reqs && s.reqs[r].phase.Resolved?
    ensures Paid(start, AfterCheck(s, r))
  {
    var n := AfterCheck(s, r);
    MoveKeepsCodes(s, n, r, n.reqs[r].phase);
    MoveOfWinners(s, n, r, n.reqs[r].phase);
    if Spendable(s, s.reqs[r].code) {
      assert s.reqs[r].code.value in Codes(s);
    }
  }

  lemma StepKeepsPaid(start: System, s: System, step: Step)
    requires Paid(start, s)
    ensures Paid(start, Next(s, step))
  {
    var n := Next(s, step);
    if step.Check? && step.r in s.reqs && s.reqs[step.r].phase.Resolved? {
      CheckKeepsPaid(start, s, step.r);
    } else if n.reqs != s.reqs {
      MoveKeepsCodes(s, n, step.r, n.reqs[step.r].phase);
      assert Winners(n) == Winners(s);
    }
  }

  lemma {:induction false} AtMostOneSessionPerCode(start: System, s: System, steps: seq<Step>)
    requires Paid(start, s)
    ensures |Sessions(Run(s, steps))| <= |Codes(start) - start.used|
    decreases |steps|
  {
    if steps == [] {
      SubsetSize(Sessions(s), Winners(s));
      SubsetSize(s.used - start.used, Codes(start) - start.used);
      assert s.used == start.used + (s.used - start.used);
    } else {
      StepKeepsPaid(start, s, steps[0]);
      AtMostOneSessionPerCode(start, Next(s, steps[0]), steps[1..]);
    }
  }

  // ------------------------------------------------------------------ overlapping requests: as many as there are codes

  lemma RunCons(s: System, step: Step, rest: seq<Step>)
    ensures Run(s, [step] + rest) == Run(Next(s, step), rest)
  {
    assert ([step] + rest)[1..] == rest;
  }

  /** Requests with pairwise different unspent codes. */
  ghost predicate Choice(s: System, chosen: set<nat>) {
    && (forall r :: r in chosen ==> r in s.reqs && Spendable(s, s.reqs[r].code))
    && (forall r, q :: r in chosen && q in chosen && s.reqs[r].code == s.reqs[q].code ==> r == q)
  }

  lemma {:induction false} Choose(s: System, codes: set<nat>) returns (chosen: set<nat>)
    requires codes <= Codes(s) - s.used
    ensures Choice(s, chosen) && |chosen| == |codes| && forall r :: r in chosen ==> s.reqs[r].code.value in codes
    decreases |codes|
  {
    if codes == {} {
      chosen := {};
    } else {
      var c :| c in codes;
      var r :| r in s.reqs && s.reqs[r].code == Some(c);
      var rest := Choose(s, codes - {c});
      chosen := rest + {r};
    }
  }

  lemma {:induction false} LookupAll(s: System, chosen: set<nat>) returns (steps: seq<Step>)
    requires s.token && forall r :: r in chosen ==> r in s.reqs && s.reqs[r].phase.New?
    ensures var end := Run(s, steps);
            && end.used == s.used && end.reqs.Keys == s.reqs.Keys
            && (forall r :: r in chosen ==> end.reqs[r] == s.reqs[r].(phase := Resolved))
            && (forall r :: r in s.reqs && r !in chosen ==> end.reqs[r] == s.reqs[r])
    decreases |chosen|
  {
    if chosen == {} {
      steps := [];
    } else {
      var r :| r in chosen;
      var rest := LookupAll(Next(s, Lookup(r)), chosen - {r});
      RunCons(s, Lookup(r), rest);
      steps := [Lookup(r)] + rest;
    }
  }

  /** The token is gone after the first of them, and nobody looks. */
  lemma {:induction false} FinishAll(s: System, chosen: set<nat>) returns (steps: seq<Step>)
    requires Choice(s, chosen) && forall r :: r in chosen ==> s.reqs[r].phase.Resolved?
    ensures Sessions(s) + chosen <= Sessions(Run(s, steps))
    decreases |chosen|
  {
    if chosen == {} {
      steps := [];
    } else {
      var r :| r in chosen;
      var s1 := Next(s, Check(r));
      var s2 := Next(s1, Finish(r));
      assert Sessions(s) + {r} <= Sessions(s2);
      var rest := FinishAll(s2, chosen - {r});
      RunCons(s1, Finish(r), rest);
      RunCons(s, Check(r), [Finish(r)] + rest);
      steps := [Check(r)] + ([Finish(r)] + rest);
    }
  }

  lemma EveryCodeOpensASession(s: System) returns (steps: seq<Step>)
    requires Initial(s)
    ensures |Sessions(Run(s, steps))| >= |Codes(s) - s.used|
  {
    var chosen := Choose(s, Codes(s) - s.used);
    var first := LookupAll(s, chosen);
    var rest := FinishAll(Run(s, first), chosen);
    RunConcat(s, first, rest);
    steps := first + rest;
    SubsetSize(chosen, Sessions(Run(s, steps)));
  }

  lemma {:induction false} RunConcat(s: System, a: seq<Step>, b: seq<Step>)
    ensures Run(s, a + b) == Run(Run(s, a), b)
    decreases |a|
  {
    if a == [] {
      assert a + b == b;
    } else {
      assert (a + b)[1..] == a[1..] + b;
      RunConcat(Next(s, a[0]), a[1..], b);
    }
  }

  /** Overlapping requests with one token can open as many sessions as they present different unspent codes, and no
      more: the token is single-use exactly when there is at most one such code. */
  lemma SessionsPerTokenIffCodes(s: System, k: nat)
    requires Initial(s)
    ensures (exists steps :: |Sessions(Run(s, steps))| >= k) <==> k <= |Codes(s) - s.used|
  {
    if k <= |Codes(s) - s.used| {
      var steps := EveryCodeOpensASession(s);
      assert |Sessions(Run(s, steps))| >= k;
    } else {
      assert Winners(s) == {};
      forall steps ensures |Sessions(Run(s, steps))| < k {
        AtMostOneSessionPerCode(s, s, steps);
      }
    }
  }
}
