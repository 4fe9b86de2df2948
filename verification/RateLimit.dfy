/** The pipelined INCR + EXPIRE counters behind every rate limit of the portal. */
module RateLimit {
  import opened Prelude

  /** The counter key after `INCR key; EXPIRE key window` at time `now`. */
  function Bumped(key: Option<Entry<nat>>, now: int, window: nat): Entry<nat> {
    Entry((if key.Some? && now < key.value.expiresAt then key.value.value else 0) + 1, now + window)
  }

  /** One counter key, e.g. `ticket_create_rate:{user}` or `refresh_rate_limit:{family}`. */
  class Counter {
    var key: Option<Entry<nat>>

    constructor ()
      ensures key == None
    {
      key := None;
    }

    method RecordAndCheck(now: int, window: nat) returns (count: nat)
      modifies this
      ensures key == Some(Bumped(old(key), now, window))
      ensures count == key.value.value
    {
      var live := key.Some? && now < key.value.expiresAt;
      if !live {
        key := Some(Entry(0, now));
      }
      key := Some(Entry(key.value.value + 1, key.value.expiresAt));
      key := Some(Entry(key.value.value, now + window));
      count := key.value.value;
    }
  }

  // ------------------------------------------------------------------ runs of attempts

  ghost predicate Monotone(times: seq<int>) {
    forall i, j :: 0 <= i < j < |times| ==> times[i] <= times[j]
  }

  function KeyAfter(times: seq<int>, window: nat, n: nat): Option<Entry<nat>>
    requires n <= |times|
  {
    if n == 0 then None else Some(Bumped(KeyAfter(times, window, n - 1), times[n - 1], window))
  }

  /** What the counter reads for attempt `i`. */
  function Count(times: seq<int>, window: nat, i: nat): nat
    requires i < |times|
  {
    KeyAfter(times, window, i + 1).value.value
  }

  predicate Allowed(times: seq<int>, window: nat, max: nat, i: nat)
    requires i < |times|
  {
    Count(times, window, i) <= max
  }

  /** The counter restarts exactly after a quiet period of a full window. */
  lemma CountStep(times: seq<int>, window: nat, i: nat)
    requires 0 < i < |times|
    ensures Count(times, window, i) == if times[i] - times[i - 1] < window then Count(times, window, i - 1) + 1 else 1
  {
    assert KeyAfter(times, window, i) == Some(Bumped(KeyAfter(times, window, i - 1), times[i - 1], window));
  }

  /** Attempts that lie within one window of each other share a counter. */
  lemma {:induction false} CountsClimb(times: seq<int>, window: nat, i: nat, j: nat)
    requires Monotone(times) && i <= j < |times| && times[j] - times[i] < window
    ensures Count(times, window, j) == Count(times, window, i) + (j - i)
  {
    if i < j {
      CountsClimb(times, window, i, j - 1);
      CountStep(times, window, j);
    }
  }

  lemma CountPositive(times: seq<int>, window: nat, i: nat)
    requires i < |times|
    ensures Count(times, window, i) >= 1
  {
  }

  lemma {:induction false} IntervalSize(s: set<nat>, lo: nat, n: nat)
    requires forall i :: i in s ==> lo <= i < lo + n
    ensures |s| <= n
  {
    if n == 0 {
      assert s == {};
    } else {
      IntervalSize(s - {lo + n - 1}, lo, n - 1);
    }
  }

  /** The attempts let through during `[start, start + window)`. */
  function LetThrough(times: seq<int>, window: nat, max: nat, start: int): set<nat> {
    set i: nat | i < |times| && start <= times[i] < start + window && Allowed(times, window, max, i)
  }

  /** The fixed-key counter never admits more than a true sliding window would: any window holds at most `max` accepted
      attempts. */
  lemma AtMostMaxPerWindow(times: seq<int>, window: nat, max: nat, start: int)
    requires Monotone(times)
    ensures |LetThrough(times, window, max, start)| <= max
  {
    var s := LetThrough(times, window, max, start);
    if s != {} {
      var lo := FirstIn(s);
      CountPositive(times, window, lo);
      forall i | i in s ensures lo <= i < lo + max {
        CountsClimb(times, window, lo, i);
      }
      IntervalSize(s, lo, max);
    }
  }

  lemma {:induction false} FirstIn(s: set<nat>) returns (m: nat)
    requires s != {}
    ensures m in s && forall i :: i in s ==> m <= i
    decreases s
  {
    var x :| x in s;
    var rest := s - {x};
    m := x;
    if rest != {} {
      var r := FirstIn(rest);
      m := if r < x then r else x;
    }
    forall i | i in s ensures m <= i {
      assert i == x || i in rest;
    }
  }

  /** Refused attempts push the expiry forward too: a caller who never pauses for a full window is never let in
      again. */
  lemma {:induction false} ImpatientCallerStaysOut(times: seq<int>, window: nat, max: nat, i: nat)
    requires forall k :: 0 < k < |times| ==> times[k] - times[k - 1] < window
    requires i < |times|
    ensures Count(times, window, i) == i + 1
    ensures Allowed(times, window, max, i) <==> i < max
  {
    if i == 0 {
      assert KeyAfter(times, window, 0) == None;
    } else {
      ImpatientCallerStaysOut(times, window, max, i - 1);
      CountStep(times, window, i);
    }
  }
}
