/** The session cap when logins of one user overlap: what the row lock ahead of count-and-evict does and does not
    serialize. */
module SessionCap {
  import opened Prelude

  /** Families are numbered in order of creation. `snapshot` is what the locking statement saw when it started, `rows`
      what it locked, `victim` what the login is going to evict. */
  datatype Phase =
    | Waiting
    | Queued(snapshot: set<nat>)
    | Holding(rows: set<nat>)
    | Counted(rows: set<nat>, victim: Option<nat>)
    | Done

  datatype System = System(live: set<nat>, next: nat, logins: map<nat, Phase>)

  datatype Step = Start(r: nat) | Acquire(r: nat) | Count(r: nat, oldest: nat) | Commit(r: nat)

  predicate Holder(p: Phase) {
    p.Holding? || p.Counted?
  }

  /** Somebody else has locked one of the rows. */
  predicate Blocked(s: System, r: nat, rows: set<nat>) {
    exists q | q in s.logins :: q != r && Holder(s.logins[q]) && s.logins[q].rows * rows != {}
  }

  predicate IsOldest(live: set<nat>, f: nat) {
    f in live && forall g | g in live :: f <= g
  }

  /** SELECT FOR UPDATE starts, waits for the rows it saw, and keeps those that are still live; the count is a later
      statement and sees every committed family; eviction and insertion commit together. */
  function Next(cap: nat, s: System, step: Step): System {
    if step.r !in s.logins then s
    else
      var r, p := step.r, s.logins[step.r];
      match step
      case Start(_) => if p.Waiting? then s.(logins := s.logins[r := Queued(s.live)]) else s
      case Acquire(_) =>
        if p.Queued? && !Blocked(s, r, p.snapshot) then s.(logins := s.logins[r := Holding(p.snapshot * s.live)]) else s
      case Count(_, oldest) =>
        if !p.Holding? then s
        else if |s.live| < cap then s.(logins := s.logins[r := Counted(p.rows, None)])
        else if IsOldest(s.live, oldest) then s.(logins := s.logins[r := Counted(p.rows, Some(oldest))])
        else s
      case Commit(_) =>
        if !p.Counted? then s
        else System(Replaced(s.live, p.victim, s.next), s.next + 1, s.logins[r := Done])
  }

  function Replaced(live: set<nat>, victim: Option<nat>, family: nat): set<nat> {
    (if victim.Some? then live - {victim.value} else live) + {family}
  }

  function Run(cap: nat, s: System, steps: seq<Step>): System
    decreases |steps|
  {
    if steps == [] then s else Run(cap, Next(cap, s, steps[0]), steps[1..])
  }

  /** `m` families are live and no login has begun. */
  ghost predicate Initial(s: System, m: nat) {
    s.live == Span(0, m) && s.next == m && forall r :: r in s.logins ==> s.logins[r] == Waiting
  }

  /** The families numbered from `a` up to but not including `b`. */
  function Span(a: nat, b: nat): (r: set<nat>)
    ensures forall i: nat :: i in r <==> a <= i < b
    ensures a <= b ==> |r| == b - a
    decreases b
  {
    if a >= b then {} else Span(a, b - 1) + {b - 1}
  }

  /** The oldest of the families that one login after the other leaves behind. */
  function Low(cap: nat, next: nat): nat {
    if next <= cap then 0 else next - cap
  }

  /** The families after `next` serial creations. */
  function Latest(cap: nat, next: nat): set<nat> {
    Span(Low(cap, next), next)
  }

  /** What a serial login evicts. */
  function Victim(cap: nat, next: nat): Option<nat> {
    if next < cap then None else Some(Low(cap, next))
  }

  lemma LatestMoves(cap: nat, next: nat)
    requires cap > 0
    ensures Replaced(Latest(cap, next), Victim(cap, next), next) == Latest(cap, next + 1)
  {
    if next < cap {
      assert Latest(cap, next) + {next} == Latest(cap, next + 1);
    } else {
      assert Latest(cap, next) - {Low(cap, next)} + {next} == Latest(cap, next + 1);
    }
  }

  lemma LatestFacts(cap: nat, next: nat)
    requires cap > 0
    ensures |Latest(cap, next)| == (if next < cap then next else cap)
    ensures next >= cap ==> IsOldest(Latest(cap, next), Low(cap, next))
    ensures next >= cap ==> forall f :: IsOldest(Latest(cap, next), f) ==> f == Low(cap, next)
    ensures forall f :: f in Latest(cap, next) ==> f < next
  {
    assert next >= cap ==> Low(cap, next) in Latest(cap, next);
  }

  // ------------------------------------------------------------------ few logins

  function Finished(s: System): set<nat> {
    set r | r in s.logins && s.logins[r].Done?
  }

  /** Two logins that are not done leave at most all the others done. */
  lemma TwoUnfinished(s: System, r: nat, q: nat)
    requires r in s.logins && q in s.logins && r != q && !s.logins[r].Done? && !s.logins[q].Done?
    ensures |Finished(s)| + 2 <= |s.logins|
  {
    SubsetSize(Finished(s) + {r, q}, s.logins.Keys);
    assert |s.logins.Keys| == |s.logins|;
  }

  /** Each login adds at most one family. */
  ghost predicate Sparse(s: System, m: nat) {
    |s.live| <= m + |Finished(s)|
  }

  lemma StepKeepsSparse(cap: nat, s: System, step: Step, m: nat)
    requires Sparse(s, m)
    ensures Sparse(Next(cap, s, step), m)
  {
    var n := Next(cap, s, step);
    if step.Commit? && step.r in s.logins && s.logins[step.r].Counted? {
      assert Finished(n) == Finished(s) + {step.r};
      assert n.live <= s.live + {s.next};
      SubsetSize(n.live, s.live + {s.next});
    } else {
      assert Finished(n) == Finished(s);
    }
  }

  /** The rows include every initial family that is still live. */
  ghost predicate Reaches(low: nat, m: nat, rows: set<nat>) {
    forall i: nat :: low <= i < m ==> i in rows
  }

  /** One login after the other leaves the latest families. */
  ghost predicate InOrder(cap: nat, s: System, m: nat) {
    s.next == m + |Finished(s)| && s.live == Latest(cap, s.next)
  }

  ghost predicate LocksReach(cap: nat, s: System, m: nat) {
    && (forall r :: r in s.logins && s.logins[r].Queued? ==> Reaches(Low(cap, s.next), m, s.logins[r].snapshot))
    && (forall r :: r in s.logins && Holder(s.logins[r]) ==> Reaches(Low(cap, s.next), m, s.logins[r].rows))
  }

  /** Only one login is between its lock and its commit, and what it counted is still so. */
  ghost predicate Exclusive(cap: nat, s: System) {
    && (forall r, q :: r in s.logins && q in s.logins && Holder(s.logins[r]) && Holder(s.logins[q]) ==> r == q)
    && (forall r :: r in s.logins && s.logins[r].Counted? ==>
          s.logins[r].victim == Victim(cap, s.next))
  }

  ghost predicate Serial(cap: nat, s: System, m: nat) {
    InOrder(cap, s, m) && LocksReach(cap, s, m) && Exclusive(cap, s)
  }

  /** While an initial family is live a second login waits; afterwards there is no second login. */
  lemma AcquireIsExclusive(cap: nat, s: System, m: nat, r: nat, q: nat)
    requires Serial(cap, s, m) && 0 < m <= cap && |s.logins| <= cap + 1
    requires r in s.logins && s.logins[r].Queued? && q in s.logins && Holder(s.logins[q])
    ensures Blocked(s, r, s.logins[r].snapshot)
  {
    var low := Low(cap, s.next);
    TwoUnfinished(s, r, q);
    assert low < m;
    assert low in s.logins[q].rows * s.logins[r].snapshot;
  }

  lemma OneMoreFinished(s: System, t: System, r: nat)
    requires r in s.logins && !s.logins[r].Done? && t.logins == s.logins[r := Done]
    ensures |Finished(t)| == |Finished(s)| + 1
  {
    assert Finished(t) == Finished(s) + {r};
  }

  lemma CommitKeepsOrder(cap: nat, s: System, m: nat, r: nat)
    requires InOrder(cap, s, m) && cap > 0
    requires r in s.logins && s.logins[r].Counted? && s.logins[r].victim == Victim(cap, s.next)
    ensures InOrder(cap, Next(cap, s, Commit(r)), m)
  {
    OneMoreFinished(s, Next(cap, s, Commit(r)), r);
    LatestMoves(cap, s.next);
  }

  lemma CommitKeepsLocks(cap: nat, s: System, m: nat, r: nat)
    requires Serial(cap, s, m) && r in s.logins && s.logins[r].Counted?
    ensures LocksReach(cap, Next(cap, s, Commit(r)), m) && Exclusive(cap, Next(cap, s, Commit(r)))
  {
    var n := Next(cap, s, Commit(r));
    assert Low(cap, s.next) <= Low(cap, n.next);
    assert forall q :: q in n.logins ==> !Holder(n.logins[q]);
    forall q | q in n.logins && n.logins[q].Queued? ensures Reaches(Low(cap, n.next), m, n.logins[q].snapshot) {
      assert Reaches(Low(cap, s.next), m, s.logins[q].snapshot);
    }
  }

  lemma StartKeepsLocks(cap: nat, s: System, m: nat, r: nat)
    requires Serial(cap, s, m) && cap > 0 && m <= s.next && r in s.logins && s.logins[r].Waiting?
    ensures LocksReach(cap, Next(cap, s, Start(r)), m) && Exclusive(cap, Next(cap, s, Start(r)))
  {
    assert Reaches(Low(cap, s.next), m, s.live);
  }

  lemma AcquireKeepsLocks(cap: nat, s: System, m: nat, r: nat)
    requires Serial(cap, s, m) && 0 < m <= cap && |s.logins| <= cap + 1
    requires r in s.logins && s.logins[r].Queued? && !Blocked(s, r, s.logins[r].snapshot)
    ensures LocksReach(cap, Next(cap, s, Acquire(r)), m) && Exclusive(cap, Next(cap, s, Acquire(r)))
  {
    forall q | q in s.logins ensures !Holder(s.logins[q]) {
      if Holder(s.logins[q]) {
        AcquireIsExclusive(cap, s, m, r, q);
      }
    }
    assert Reaches(Low(cap, s.next), m, s.logins[r].snapshot * s.live);
  }

  lemma CountKeepsLocks(cap: nat, s: System, m: nat, r: nat, oldest: nat)
    requires Serial(cap, s, m) && cap > 0 && r in s.logins && s.logins[r].Holding?
    ensures LocksReach(cap, Next(cap, s, Count(r, oldest)), m) && Exclusive(cap, Next(cap, s, Count(r, oldest)))
  {
    LatestFacts(cap, s.next);
  }

  lemma StepKeepsSerial(cap: nat, s: System, step: Step, m: nat)
    requires Serial(cap, s, m) && 0 < m <= cap && |s.logins| <= cap + 1
    ensures Serial(cap, Next(cap, s, step), m)
  {
    if step.r in s.logins {
      var r, p, n := step.r, s.logins[step.r], Next(cap, s, step);
      if step.Commit? && p.Counted? {
        CommitKeepsOrder(cap, s, m, r);
        CommitKeepsLocks(cap, s, m, r);
      } else {
        assert Finished(n) == Finished(s);
        if step.Start? && p.Waiting? {
          StartKeepsLocks(cap, s, m, r);
        } else if step.Acquire? && p.Queued? && !Blocked(s, r, p.snapshot) {
          AcquireKeepsLocks(cap, s, m, r);
        } else if step.Count? && p.Holding? {
          CountKeepsLocks(cap, s, m, r, step.oldest);
        }
      }
    }
  }

  lemma {:induction false} FewLoginsKeepTheCap(cap: nat, s: System, steps: seq<Step>, m: nat)
    requires m <= cap && |s.logins| <= if m == 0 then cap else cap + 1
    requires if m == 0 then Sparse(s, m) else Serial(cap, s, m)
    ensures |Run(cap, s, steps).live| <= cap
    decreases |steps|
  {
    if steps == [] {
      if m == 0 {
        SubsetSize(Finished(s), s.logins.Keys);
        assert |s.logins.Keys| == |s.logins|;
      } else {
        LatestFacts(cap, s.next);
      }
    } else {
      var n := Next(cap, s, steps[0]);
      assert n.logins.Keys == s.logins.Keys && |n.logins| == |n.logins.Keys| == |s.logins.Keys| == |s.logins|;
      if m == 0 {
        StepKeepsSparse(cap, s, steps[0], m);
      } else {
        StepKeepsSerial(cap, s, steps[0], m);
      }
      FewLoginsKeepTheCap(cap, n, steps[1..], m);
    }
  }

  // ------------------------------------------------------------------ many logins

  lemma RunCons(cap: nat, s: System, step: Step, rest: seq<Step>)
    ensures Run(cap, s, [step] + rest) == Run(cap, Next(cap, s, step), rest)
  {
    assert ([step] + rest)[1..] == rest;
  }

  lemma {:induction false} RunConcat(cap: nat, s: System, a: seq<Step>, b: seq<Step>)
    ensures Run(cap, s, a + b) == Run(cap, Run(cap, s, a), b)
    decreases |a|
  {
    if a == [] {
      assert a + b == b;
    } else {
      assert (a + b)[1..] == a[1..] + b;
      RunConcat(cap, Next(cap, s, a[0]), a[1..], b);
    }
  }

  ghost predicate Quiet(s: System) {
    forall r :: r in s.logins ==> !Holder(s.logins[r])
  }

  lemma LockAndCount(cap: nat, s: System, r: nat) returns (steps: seq<Step>)
    requires cap > 0 && Quiet(s) && s.live == Latest(cap, s.next) && r in s.logins && s.logins[r].Waiting?
    ensures Run(cap, s, steps) == s.(logins := s.logins[r := Counted(s.live, Victim(cap, s.next))])
  {
    var a, b, c := Start(r), Acquire(r), Count(r, Low(cap, s.next));
    steps := [a] + ([b] + ([c] + []));
    var s1 := Next(cap, s, a);
    assert s1 == s.(logins := s.logins[r := Queued(s.live)]) && !Blocked(s1, r, s.live);
    var s2 := Next(cap, s1, b);
    assert s.live * s.live == s.live;
    assert s2 == s.(logins := s.logins[r := Holding(s.live)]);
    LatestFacts(cap, s.next);
    RunCons(cap, s, a, [b] + ([c] + []));
    RunCons(cap, s1, b, [c] + []);
    RunCons(cap, s2, c, []);
  }

  /** One login from beginning to end, with nobody else between lock and commit. */
  lemma OneLogin(cap: nat, s: System, r: nat) returns (steps: seq<Step>)
    requires cap > 0 && Quiet(s) && s.live == Latest(cap, s.next) && r in s.logins && s.logins[r].Waiting?
    ensures Run(cap, s, steps) == System(Latest(cap, s.next + 1), s.next + 1, s.logins[r := Done])
  {
    var first := LockAndCount(cap, s, r);
    CommitOne(cap, s, Run(cap, s, first), r);
    RunConcat(cap, s, first, [Commit(r)] + []);
    steps := first + ([Commit(r)] + []);
  }

  lemma CommitOne(cap: nat, s: System, t: System, r: nat)
    requires cap > 0 && s.live == Latest(cap, s.next) && r in s.logins
    requires t == s.(logins := s.logins[r := Counted(s.live, Victim(cap, s.next))])
    ensures Run(cap, t, [Commit(r)] + []) == System(Latest(cap, s.next + 1), s.next + 1, s.logins[r := Done])
  {
    LatestMoves(cap, s.next);
    RunCons(cap, t, Commit(r), []);
    assert t.logins[r := Done] == s.logins[r := Done];
  }

  /** `todo` logins, one after the other. */
  lemma {:induction false} SomeLogins(cap: nat, s: System, ready: set<nat>, todo: nat) returns (steps: seq<Step>)
    requires cap > 0 && Quiet(s) && s.live == Latest(cap, s.next) && todo <= |ready|
    requires forall r :: r in ready ==> r in s.logins && s.logins[r].Waiting?
    ensures var end := Run(cap, s, steps);
            && Quiet(end) && end.next == s.next + todo && end.live == Latest(cap, end.next)
            && forall q :: q in s.logins && q !in ready ==> q in end.logins && end.logins[q] == s.logins[q]
    decreases todo
  {
    if todo == 0 {
      steps := [];
    } else {
      var r :| r in ready;
      var first := OneLogin(cap, s, r);
      var rest := SomeLogins(cap, Run(cap, s, first), ready - {r}, todo - 1);
      RunConcat(cap, s, first, rest);
      steps := first + rest;
    }
  }

  /** Two logins whose snapshots are gone, or were empty, lock nothing, count the same families and both insert. */
  lemma TwoAtOnce(cap: nat, s: System, b: nat, c: nat) returns (steps: seq<Step>)
    requires cap > 0 && Quiet(s) && s.live == Latest(cap, s.next) && cap <= |s.live| + 1
    requires b in s.logins && c in s.logins && b != c && s.logins[b].Queued? && s.logins[c].Queued?
    requires s.logins[b].snapshot * s.live == {} && s.logins[c].snapshot * s.live == {}
    ensures |Run(cap, s, steps).live| > cap
  {
    var low := Low(cap, s.next);
    var s1 := Next(cap, s, Acquire(b));
    var s2 := Next(cap, s1, Acquire(c));
    assert s2.logins[b] == Holding({}) && s2.logins[c] == Holding({});
    var s3 := Next(cap, s2, Count(b, low));
    var s4 := Next(cap, s3, Count(c, low));
    LatestFacts(cap, s.next);
    var victim := if |s.live| < cap then None else Some(low);
    assert s4.logins[b] == Counted({}, victim) && s4.logins[c] == Counted({}, victim);
    steps := [Acquire(b)] + ([Acquire(c)] + ([Count(b, low)] + ([Count(c, low)] + ([Commit(b)] + ([Commit(c)] + [])))));
    RunCons(cap, s, Acquire(b), steps[1..]);
    RunCons(cap, s1, Acquire(c), steps[2..]);
    RunCons(cap, s2, Count(b, low), steps[3..]);
    RunCons(cap, s3, Count(c, low), [Commit(b)] + ([Commit(c)] + []));
    BothCommit(cap, s4, b, c, victim);
  }

  lemma BothCommit(cap: nat, s: System, b: nat, c: nat, victim: Option<nat>)
    requires b in s.logins && c in s.logins && b != c
    requires s.logins[b] == Counted({}, victim) && s.logins[c] == Counted({}, victim)
    requires forall f :: f in s.live ==> f < s.next
    requires if victim.None? then |s.live| + 1 == cap else |s.live| == cap && victim.value in s.live
    ensures |Run(cap, s, [Commit(b)] + ([Commit(c)] + [])).live| == cap + 1
  {
    var s1 := Next(cap, s, Commit(b));
    var s2 := Next(cap, s1, Commit(c));
    RunCons(cap, s, Commit(b), [Commit(c)] + []);
    RunCons(cap, s1, Commit(c), []);
    var kept := if victim.Some? then s.live - {victim.value} else s.live;
    assert s2.live == kept + {s.next} + {s.next + 1};
  }

  /** After enough serial logins the initial families are gone. */
  lemma InitialGone(cap: nat, m: nat)
    requires 0 < cap && m <= cap
    ensures m == 0 ==> Span(0, m) * Latest(cap, cap - 1) == {} && |Latest(cap, cap - 1)| == cap - 1
    ensures m > 0 ==> Span(0, m) * Latest(cap, m + cap) == {} && |Latest(cap, m + cap)| == cap
  {
  }

  /** Two logins start, the initial families are displaced by others, and the two go on together. */
  lemma ManyLoginsExceedTheCap(cap: nat, s: System, m: nat, b: nat, c: nat) returns (steps: seq<Step>)
    requires Initial(s, m) && 0 < cap && m <= cap && b in s.logins && c in s.logins && b != c
    requires |s.logins.Keys - {b, c}| >= if m == 0 then cap - 1 else cap
    ensures |Run(cap, s, steps).live| > cap
  {
    var s1 := Next(cap, s, Start(b));
    var s2 := Next(cap, s1, Start(c));
    assert s2 == s.(logins := s.logins[b := Queued(s.live)][c := Queued(s.live)]);
    assert s.live == Latest(cap, s.next);
    var middle := SomeLogins(cap, s2, s.logins.Keys - {b, c}, if m == 0 then cap - 1 else cap);
    InitialGone(cap, m);
    var last := TwoAtOnce(cap, Run(cap, s2, middle), b, c);
    RunConcat(cap, s2, middle, last);
    RunCons(cap, s1, Start(c), middle + last);
    RunCons(cap, s, Start(b), [Start(c)] + (middle + last));
    steps := [Start(b)] + ([Start(c)] + (middle + last));
  }

  /** Overlapping logins of a user with `m` live families can exceed the cap exactly when there are more of them than
      the cap, or one more than that if the user has a live family to begin with. */
  lemma CapExceededIffTooManyLogins(cap: nat, s: System, m: nat)
    requires Initial(s, m) && 0 < cap && m <= cap
    ensures (exists steps :: |Run(cap, s, steps).live| > cap) <==> |s.logins| > if m == 0 then cap else cap + 1
  {
    if |s.logins| > if m == 0 then cap else cap + 1 {
      assert |s.logins.Keys| == |s.logins|;
      var b, c := PickTwo(s.logins.Keys);
      var steps := ManyLoginsExceedTheCap(cap, s, m, b, c);
      assert |Run(cap, s, steps).live| > cap;
    } else {
      assert Finished(s) == {};
      forall steps ensures |Run(cap, s, steps).live| <= cap {
        FewLoginsKeepTheCap(cap, s, steps, m);
      }
    }
  }
}
