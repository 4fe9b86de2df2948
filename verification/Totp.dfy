/** Time-based one-time passwords (section 5.2 of RFC 6238) and their replay protection. */
module Totp {
  import opened Prelude

  const STEP: nat := 30 * SECOND
  const SKEW_STEPS: int := 1
  const DIGITS: nat := 6

  type Byte = b: int | 0 <= b < 256

  /** An HMAC-SHA-1 value. */
  type Digest = d: seq<Byte> | |d| == 20 witness seq(20, _ => 0)

  // ------------------------------------------------------------------ HOTP, section 5.3 of RFC 4226

  function Truncate(d: Digest): nat {
    var o := d[19] % 16;
    (((d[o] as int * 256 + d[o + 1] as int) * 256 + d[o + 2] as int) * 256 + d[o + 3] as int) % 0x8000_0000
  }

  /** The low `width` decimal digits of `n`, zero-filled. */
  function Decimal(n: nat, width: nat): (r: string)
    ensures |r| == width
  {
    if width == 0 then "" else Decimal(n / 10, width - 1) + [('0' as int + n % 10) as char]
  }

  /** Four bytes from the offset in the low half of the last byte, big-endian, without the top bit. */
  lemma TruncateReadsFourBytes(d: Digest)
    ensures var o := d[19] as int % 16;
            Truncate(d)
            == (d[o] as int % 128) * 0x100_0000 + d[o + 1] as int * 0x1_0000 + d[o + 2] as int * 0x100 + d[o + 3] as int
  {
    var o := d[19] as int % 16;
    var first, rest := d[o] as int, d[o + 1] as int * 0x1_0000 + d[o + 2] as int * 0x100 + d[o + 3] as int;
    RemainderUnique(first * 0x100_0000 + rest, 0x8000_0000, first / 128, (first % 128) * 0x100_0000 + rest);
  }

  function Hotp(mac: int -> Digest, counter: int): string {
    Decimal(Truncate(mac(counter)), DIGITS)
  }

  function Pow10(k: nat): (p: nat)
    ensures p > 0
  {
    if k == 0 then 1 else 10 * Pow10(k - 1)
  }

  function Numeral(s: string): int {
    if s == "" then 0 else Numeral(s[..|s| - 1]) * 10 + (s[|s| - 1] as int - '0' as int)
  }

  /** A code reads back as the truncated digest modulo 10^6: zero-filling loses nothing. */
  lemma {:induction false} DecimalReadsBack(n: nat, width: nat)
    ensures Numeral(Decimal(n, width)) == n % Pow10(width)
  {
    if width > 0 {
      var r := Decimal(n, width);
      DecimalReadsBack(n / 10, width - 1);
      assert r[..|r| - 1] == Decimal(n / 10, width - 1);
      ModTen(n, Pow10(width - 1));
    }
  }

  lemma ModTen(n: nat, p: nat)
    requires p > 0
    ensures n % (10 * p) == (n / 10 % p) * 10 + n % 10
  {
    var m := n / 10;
    var q := m / p;
    var r := (m % p) * 10 + n % 10;
    assert m == p * q + m % p;
    assert n == (10 * p) * q + r;
    assert 0 <= r < 10 * p;
    RemainderUnique(n, 10 * p, q, r);
  }

  lemma RemainderUnique(n: int, d: int, q: int, r: int)
    requires d > 0 && n == d * q + r && 0 <= r < d
    ensures n % d == r
  {
    var e := n / d - q;
    assert d * e == r - n % d;
    assert e >= 1 ==> d * e >= d;
    assert e <= -1 ==> d * e <= -d;
  }

  // ------------------------------------------------------------------ verify_totp_code

  /** A code is the truncated digest modulo one million, in six digits. */
  lemma HotpIsSixDigits(mac: int -> Digest, counter: int)
    ensures |Hotp(mac, counter)| == 6 && Numeral(Hotp(mac, counter)) == Truncate(mac(counter)) % 1_000_000
  {
    DecimalReadsBack(Truncate(mac(counter)), 6);
    assert Pow10(6) == 1_000_000;
  }

  /** The worked example of section 5.4 of RFC 4226. */
  lemma Rfc4226Example(d: Digest)
    requires d == [0x1f, 0x86, 0x98, 0x69, 0x0e, 0x02, 0xca, 0x16, 0x61, 0x85,
                   0x50, 0xef, 0x7f, 0x19, 0xda, 0x8e, 0x94, 0x5b, 0x55, 0x5a]
    ensures Truncate(d) == 0x50ef7f19 && Numeral(Hotp(_ => d, 0)) == 872921
  {
    TruncateReadsFourBytes(d);
    HotpIsSixDigits(_ => d, 0);
  }

  function StepAt(now: int): int {
    now / STEP
  }

  predicate Matches(codeAt: int -> string, code: string, step: int) {
    codeAt(step) == code
  }

  /** The earliest step within the skew window whose code is `code`. */
  function MatchedStep(codeAt: int -> string, code: string, now: int): (r: Option<int>)
    ensures r.Some? ==> Matches(codeAt, code, r.value) && StepAt(now) - 1 <= r.value <= StepAt(now) + 1
  {
    var s := StepAt(now);
    if Matches(codeAt, code, s - 1) then Some(s - 1)
    else if Matches(codeAt, code, s) then Some(s)
    else if Matches(codeAt, code, s + 1) then Some(s + 1)
    else None
  }

  /** `step` is one of the three steps around `now` and the first of them whose code is `code`. */
  predicate FirstMatch(codeAt: int -> string, code: string, now: int, step: int) {
    && now / (30 * SECOND) - 1 <= step <= now / (30 * SECOND) + 1 && codeAt(step) == code
    && forall s | now / (30 * SECOND) - 1 <= s < step :: codeAt(s) != code
  }

  method VerifyTotpCode(codeAt: int -> string, code: string, now: int) returns (step: Option<int>)
    ensures step.None? <==> forall s | now / (30 * SECOND) - 1 <= s <= now / (30 * SECOND) + 1 :: codeAt(s) != code
    ensures step.Some? ==> FirstMatch(codeAt, code, now, step.value)
    ensures step == MatchedStep(codeAt, code, now)
  {
    var current := now / STEP;
    for offset := -SKEW_STEPS to SKEW_STEPS + 1
      invariant forall s | current - 1 <= s < current + offset :: codeAt(s) != code
    {
      var expected := codeAt(current + offset);
      if expected == code {
        MatchedIsFirstMatch(codeAt, code, now, current + offset);
        return Some(current + offset);
      }
    }
    NoMatchIsNone(codeAt, code, now);
    return None;
  }

  lemma NoMatchIsNone(codeAt: int -> string, code: string, now: int)
    ensures MatchedStep(codeAt, code, now).None?
            <==> forall s | now / (30 * SECOND) - 1 <= s <= now / (30 * SECOND) + 1 :: codeAt(s) != code
  {
    var c := now / (30 * SECOND);
    assert StepAt(now) == c;
    assert Matches(codeAt, code, c - 1) <==> codeAt(c - 1) == code;
    assert Matches(codeAt, code, c) <==> codeAt(c) == code;
    assert Matches(codeAt, code, c + 1) <==> codeAt(c + 1) == code;
  }

  /** The steps of the window are told apart by nothing but their code. */
  lemma MatchedIsFirstMatch(codeAt: int -> string, code: string, now: int, step: int)
    ensures MatchedStep(codeAt, code, now) == Some(step) <==> FirstMatch(codeAt, code, now, step)
  {
    var c := now / (30 * SECOND);
    assert StepAt(now) == c;
    assert Matches(codeAt, code, c - 1) <==> codeAt(c - 1) == code;
    assert Matches(codeAt, code, c) <==> codeAt(c) == code;
    assert Matches(codeAt, code, c + 1) <==> codeAt(c + 1) == code;
  }

  // ------------------------------------------------------------------ replay protection

  type Used = map<(int, int), Entry<()>>

  datatype Attempt = Attempt(user: int, codeAt: int -> string, code: string, now: int)

  /** The step a TOTP attempt is accepted for, if it is. */
  function AcceptedStep(used: Used, a: Attempt): Option<int> {
    var step := MatchedStep(a.codeAt, a.code, a.now);
    if step.Some? && Lookup(used, (a.user, step.value), a.now).None? then step else None
  }

  function AfterAttempt(used: Used, a: Attempt, ttl: nat): Used {
    var step := AcceptedStep(used, a);
    if step.Some? then Put(used, (a.user, step.value), (), a.now, ttl) else used
  }

  /** The TOTP branch of `verify_mfa`. */
  method CheckAttempt(used: TtlStore<(int, int), ()>, a: Attempt, ttl: nat) returns (accepted: Option<int>)
    modifies used
    ensures accepted == AcceptedStep(old(used.entries), a)
    ensures used.entries == AfterAttempt(old(used.entries), a, ttl)
  {
    var step := VerifyTotpCode(a.codeAt, a.code, a.now);
    accepted := None;
    if step.Some? {
      var unused := used.SetIfAbsent((a.user, step.value), (), a.now, ttl);
      if unused {
        accepted := step;
      }
    }
  }

  function UsedAfter(run: seq<Attempt>, ttl: nat, n: nat): Used
    requires n <= |run|
  {
    if n == 0 then map[] else AfterAttempt(UsedAfter(run, ttl, n - 1), run[n - 1], ttl)
  }

  function Outcome(run: seq<Attempt>, ttl: nat, i: nat): Option<int>
    requires i < |run|
  {
    AcceptedStep(UsedAfter(run, ttl, i), run[i])
  }

  ghost predicate InTimeOrder(run: seq<Attempt>) {
    forall i, j :: 0 <= i < j < |run| ==> run[i].now <= run[j].now
  }

  ghost predicate AcceptedTwice(run: seq<Attempt>, ttl: nat) {
    exists i, j :: 0 <= i < j < |run| && run[i].user == run[j].user &&
                   Outcome(run, ttl, i).Some? && Outcome(run, ttl, i) == Outcome(run, ttl, j)
  }

  /** Once set, a mark for a step never expires before its first acceptance plus the time to live. */
  lemma {:induction false} MarkPersists(run: seq<Attempt>, ttl: nat, i: nat, n: nat)
    requires InTimeOrder(run) && i < n <= |run| && Outcome(run, ttl, i).Some?
    ensures var k := (run[i].user, Outcome(run, ttl, i).value);
            k in UsedAfter(run, ttl, n) && run[i].now + ttl <= UsedAfter(run, ttl, n)[k].expiresAt
  {
    if n > i + 1 {
      MarkPersists(run, ttl, i, n - 1);
      assert run[i].now <= run[n - 1].now;
    }
  }

  lemma NeverTwice(run: seq<Attempt>, ttl: nat, i: nat, j: nat)
    requires InTimeOrder(run) && ttl >= 3 * STEP
    requires i < j < |run| && run[i].user == run[j].user && Outcome(run, ttl, i).Some?
    ensures Outcome(run, ttl, j) != Outcome(run, ttl, i)
  {
    MarkPersists(run, ttl, i, j);
    var step := Outcome(run, ttl, i).value;
    assert StepAt(run[i].now) >= step - 1;
  }

  /** A mark is only ever set by an acceptance. */
  lemma {:induction false} MarkMeansAcceptance(run: seq<Attempt>, ttl: nat, n: nat, user: int, step: int)
    requires n <= |run| && (user, step) in UsedAfter(run, ttl, n)
    ensures exists j :: 0 <= j < n && run[j].user == user && Outcome(run, ttl, j) == Some(step)
  {
    if (user, step) in UsedAfter(run, ttl, n - 1) {
      MarkMeansAcceptance(run, ttl, n - 1, user, step);
    } else {
      assert run[n - 1].user == user && Outcome(run, ttl, n - 1) == Some(step);
    }
  }

  /** With marks that outlive the window, an attempt is accepted for a step exactly when that step is the first in its
      window whose code was entered and the user has not been accepted for it before. */
  lemma AcceptedIffFirstUse(run: seq<Attempt>, ttl: nat, i: nat, step: int)
    requires InTimeOrder(run) && ttl >= 3 * STEP && i < |run|
    ensures Outcome(run, ttl, i) == Some(step)
            <==> (&& FirstMatch(run[i].codeAt, run[i].code, run[i].now, step)
                  && forall j :: 0 <= j < i && run[j].user == run[i].user ==> Outcome(run, ttl, j) != Some(step))
  {
    var a := run[i];
    MatchedIsFirstMatch(a.codeAt, a.code, a.now, step);
    if Outcome(run, ttl, i) == Some(step) {
      forall j | 0 <= j < i && run[j].user == a.user ensures Outcome(run, ttl, j) != Some(step) {
        if Outcome(run, ttl, j).Some? {
          NeverTwice(run, ttl, j, i);
        }
      }
    } else if FirstMatch(a.codeAt, a.code, a.now, step) {
      MarkMeansAcceptance(run, ttl, i, a.user, step);
    }
  }

  /** Every (user, step) is accepted at most once in every run exactly when a mark outlives the 90-second window in
      which its step can match. */
  lemma AcceptedOnceIffMarkOutlivesWindow(ttl: nat)
    ensures ttl >= 3 * STEP <==> forall run: seq<Attempt> :: InTimeOrder(run) ==> !AcceptedTwice(run, ttl)
  {
    if ttl >= 3 * STEP {
      forall run: seq<Attempt> | InTimeOrder(run) ensures !AcceptedTwice(run, ttl) {
        if AcceptedTwice(run, ttl) {
          var i, j :| 0 <= i < j < |run| && run[i].user == run[j].user &&
                      Outcome(run, ttl, i).Some? && Outcome(run, ttl, i) == Outcome(run, ttl, j);
          NeverTwice(run, ttl, i, j);
        }
      }
    } else {
      var run := ReplayRun();
      ReplaySucceeds(ttl);
      assert !(InTimeOrder(run) ==> !AcceptedTwice(run, ttl));
    }
  }

  function OneHot(step: int): Digest {
    seq(20, i => if i == 3 && step == 2 then 1 else 0)
  }

  function DemoCode(step: int): string {
    Hotp(OneHot, step)
  }

  /** The same code at the first and at the last instant at which step 2 can match. */
  function ReplayRun(): seq<Attempt> {
    [Attempt(0, DemoCode, DemoCode(2), STEP), Attempt(0, DemoCode, DemoCode(2), 4 * STEP - 1)]
  }

  lemma ReplayMatches()
    ensures MatchedStep(DemoCode, DemoCode(2), STEP) == Some(2)
    ensures MatchedStep(DemoCode, DemoCode(2), 4 * STEP - 1) == Some(2)
  {
    CodesDiffer();
    assert StepAt(STEP) == 1 && StepAt(4 * STEP - 1) == 3;
  }

  lemma ReplaySucceeds(ttl: nat)
    requires ttl < 3 * STEP
    ensures InTimeOrder(ReplayRun()) && AcceptedTwice(ReplayRun(), ttl)
  {
    var run := ReplayRun();
    ReplayMatches();
    assert UsedAfter(run, ttl, 0) == map[];
    assert Outcome(run, ttl, 0) == Some(2);
    assert UsedAfter(run, ttl, 1) == map[(0, 2) := Entry((), STEP + ttl)];
    assert Outcome(run, ttl, 1) == Some(2);
  }

  lemma CodesDiffer()
    ensures DemoCode(0) != DemoCode(2) && DemoCode(1) != DemoCode(2)
  {
    assert OneHot(2)[19] == 0 && OneHot(1)[19] == 0 && OneHot(0)[19] == 0;
    assert Truncate(OneHot(2)) == 1;
    assert Truncate(OneHot(1)) == 0 && Truncate(OneHot(0)) == 0;
    assert Decimal(1, 6)[5] == '1' && Decimal(0, 6)[5] == '0';
  }
}
