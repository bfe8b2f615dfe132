/**
 Retrying with a growing, jittered delay (util/retry.go).  Durations are 64-bit integers.
 */
module Backoff {
  import opened Wrappers

  /** How one call of the operation ends: well, with an error to retry, or with an error that stops. */
  datatype Outcome<E> = Done | Failed(error: E) | Stopped(error: E)

  function ErrorOf<E>(o: Outcome<E>): Option<E> {
    if o.Done? then None else Some(o.error)
  }

  const MAX_DURATION := 0x7fff_ffff_ffff_ffff

  /** A sum of two durations that are not negative wraps. */
  function Wrap(x: int): int {
    if x > MAX_DURATION then x - 2 * MAX_DURATION - 2 else x
  }

  function Pow(base: nat, e: nat): (r: nat)
    ensures base > 0 ==> r > 0
  {
    if e == 0 then 1 else base * Pow(base, e - 1)
  }

  lemma PowSpelled(base: nat, e: nat)
    ensures Pow(base, 0) == 1 && Pow(base, e + 1) == base * Pow(base, e)
  {}

  /** The number of calls made. */
  function CallsMade<E>(outcome: nat -> Outcome<E>, first: nat, attempts: int): nat
    decreases attempts
  {
    if outcome(first).Failed? && attempts > 1 then 1 + CallsMade(outcome, first + 1, attempts - 1) else 1
  }

  /** Calls are made up to the first that does not fail, but no more than the limit. */
  lemma {:induction false} CallsMadeIs<E>(outcome: nat -> Outcome<E>, first: nat, attempts: int)
    ensures var n := CallsMade(outcome, first, attempts);
            && 1 <= n <= (if attempts > 1 then attempts else 1)
            && (forall k | first <= k < first + n - 1 :: outcome(k).Failed?)
            && (n < attempts ==> !outcome(first + n - 1).Failed?)
    decreases attempts
  {
    if outcome(first).Failed? && attempts > 1 {
      CallsMadeIs(outcome, first + 1, attempts - 1);
    }
  }

  /** The j-th of a list of waits is at least 2^j and less than 1.5 * 3^j times the first delay. */
  ghost predicate Growing(waits: seq<int>, sleep: int) {
    forall j | 0 <= j < |waits| :: Pow(2, j) * sleep <= waits[j] && 2 * waits[j] < 3 * Pow(3, j) * sleep
  }

  lemma GrowingNext(wait: int, waits: seq<int>, sleep: int)
    requires sleep <= wait && 2 * wait < 3 * sleep && Growing(waits, 2 * wait)
    ensures Growing([wait] + waits, sleep)
  {
    var all := [wait] + waits;
    forall j | 0 <= j < |all|
      ensures Pow(2, j) * sleep <= all[j] && 2 * all[j] < 3 * Pow(3, j) * sleep
    {
      if j > 0 {
        assert all[j] == waits[j - 1];
        LowNext(j, sleep, wait);
        HighNext(j, sleep, wait);
      }
    }
  }

  lemma LowNext(j: nat, sleep: int, wait: int)
    requires j > 0 && sleep <= wait
    ensures Pow(2, j) * sleep <= Pow(2, j - 1) * (2 * wait)
  {
    var p := Pow(2, j - 1);
    assert (2 * p) * sleep == p * (2 * sleep);
    Scale(p, 2 * sleep, 2 * wait);
  }

  lemma HighNext(j: nat, sleep: int, wait: int)
    requires j > 0 && 2 * wait <= 3 * sleep
    ensures 3 * Pow(3, j - 1) * (2 * wait) <= 3 * Pow(3, j) * sleep
  {
    var p := Pow(3, j - 1);
    assert (3 * (3 * p)) * sleep == (3 * p) * (3 * sleep);
    Scale(3 * p, 2 * wait, 3 * sleep);
  }

  lemma Scale(k: nat, x: int, y: int)
    requires x <= y
    ensures k * x <= k * y
  {}

  /** A delay that cannot overflow in the remaining attempts, whatever is drawn: every wait is less than 1.5 times
      the delay, which then doubles.  Without a further attempt the delay is not looked at. */
  predicate Fits(attempts: int, sleep: int)
    decreases attempts
  {
    attempts > 1 ==> 0 < sleep && 3 * sleep <= MAX_DURATION && Fits(attempts - 1, 3 * sleep)
  }

  lemma {:induction false} FitsIff(attempts: int, sleep: int)
    ensures Fits(attempts, sleep) <==> attempts <= 1 || (0 < sleep && sleep * Pow(3, attempts - 1) <= MAX_DURATION)
    decreases attempts
  {
    if attempts > 1 {
      FitsIff(attempts - 1, 3 * sleep);
      var p := Pow(3, attempts - 2);
      assert sleep * (3 * p) == (3 * sleep) * p;
      if sleep > 0 {
        Scale(3 * sleep, 1, p);
      }
    }
  }

  lemma {:induction false} FitsLess(attempts: int, sleep: int, less: int)
    requires Fits(attempts, sleep) && 0 < less <= sleep
    ensures Fits(attempts, less)
    decreases attempts
  {
    if attempts > 1 {
      FitsLess(attempts - 1, 3 * sleep, 3 * less);
    }
  }

  /** Each wait is at least the current delay and less than 1.5 times it; the next delay is twice the wait. */
  predicate Delays(waits: seq<int>, sleep: int) {
    waits != [] ==> sleep <= waits[0] && 2 * waits[0] < 3 * sleep && Delays(waits[1..], 2 * waits[0])
  }

  lemma {:induction false} DelaysGrow(waits: seq<int>, sleep: int)
    requires Delays(waits, sleep)
    ensures Growing(waits, sleep)
  {
    if waits != [] {
      DelaysGrow(waits[1..], 2 * waits[0]);
      GrowingNext(waits[0], waits[1..], sleep);
      assert waits == [waits[0]] + waits[1..];
    }
  }

  /** The calls made so far, the errors reported and the waits. */
  datatype State<E> = State(calls: nat, reported: seq<Outcome<E>>, waits: seq<int>)

  /** The contract of the random numbers: the k-th one drawn below `n`. */
  ghost predicate Random(draw: (nat, int) -> int) {
    forall k, n | n > 0 :: 0 <= draw(k, n) < n
  }

  function WaitFor(sleep: int, jitter: int): (wait: int)
    requires 0 <= jitter < sleep && 3 * sleep <= MAX_DURATION
    ensures wait == sleep + jitter / 2
    ensures sleep <= wait && 2 * wait < 3 * sleep
  {
    Wrap(sleep + jitter / 2)
  }

  function NextDelay(attempts: int, sleep: int, wait: int): (next: int)
    requires attempts > 1 && Fits(attempts, sleep) && sleep <= wait && 2 * wait < 3 * sleep
    ensures Fits(attempts - 1, next) && next == 2 * wait
  {
    FitsLess(attempts - 1, 3 * sleep, 2 * wait);
    Wrap(2 * wait)
  }

  /** If the first call fails, the delay must be positive and small enough; otherwise it is not looked at. */
  predicate Ready<E>(outcome: nat -> Outcome<E>, first: nat, attempts: int, sleep: int) {
    outcome(first).Failed? ==> Fits(attempts, sleep)
  }

  /** The state after `Retry` and the error it returns. */
  ghost function Retried<E>(outcome: nat -> Outcome<E>, draw: (nat, int) -> int, s: State<E>, attempts: int, sleep: int)
    : (r: (State<E>, Option<E>))
    requires Ready(outcome, s.calls, attempts, sleep) && Random(draw)
    decreases attempts
  {
    var result := outcome(s.calls);
    var called := s.(calls := s.calls + 1);
    if result.Failed? && attempts > 1 then
      var wait := WaitFor(sleep, draw(|s.waits|, sleep));
      var paused := called.(reported := s.reported + [result], waits := s.waits + [wait]);
      Retried(outcome, draw, paused, attempts - 1, NextDelay(attempts, sleep, wait))
    else (called, ErrorOf(result))
  }

  /** Exactly the calls up to the first that does not fail, at most `attempts` and at least one, and the error
      returned is that of the last call. */
  lemma {:induction false} RetriedCalls<E>(outcome: nat -> Outcome<E>, draw: (nat, int) -> int, s: State<E>,
                                           attempts: int, sleep: int)
    requires Ready(outcome, s.calls, attempts, sleep) && Random(draw)
    ensures var (after, err) := Retried(outcome, draw, s, attempts, sleep);
            && after.calls == s.calls + CallsMade(outcome, s.calls, attempts)
            && err == match outcome(after.calls - 1)
                      case Done => None
                      case Failed(e) => Some(e)
                      case Stopped(e) => Some(e)
    decreases attempts
  {
    if outcome(s.calls).Failed? && attempts > 1 {
      var wait := WaitFor(sleep, draw(|s.waits|, sleep));
      var paused := State(s.calls + 1, s.reported + [outcome(s.calls)], s.waits + [wait]);
      RetriedCalls(outcome, draw, paused, attempts - 1, NextDelay(attempts, sleep, wait));
    }
  }

  function Outcomes<E>(outcome: nat -> Outcome<E>, first: nat, n: int): (r: seq<Outcome<E>>)
    ensures |r| == (if n <= 0 then 0 else n) && forall i | 0 <= i < |r| :: r[i] == outcome(first + i)
    decreases n
  {
    if n <= 0 then [] else [outcome(first)] + Outcomes(outcome, first + 1, n - 1)
  }

  /** Every error but the last is reported, in order. */
  lemma {:induction false} RetriedReports<E>(outcome: nat -> Outcome<E>, draw: (nat, int) -> int, s: State<E>,
                                             attempts: int, sleep: int)
    requires Ready(outcome, s.calls, attempts, sleep) && Random(draw)
    ensures Retried(outcome, draw, s, attempts, sleep).0.reported ==
            s.reported + Outcomes(outcome, s.calls, CallsMade(outcome, s.calls, attempts) - 1)
    decreases attempts
  {
    if outcome(s.calls).Failed? && attempts > 1 {
      var wait := WaitFor(sleep, draw(|s.waits|, sleep));
      var paused := State(s.calls + 1, s.reported + [outcome(s.calls)], s.waits + [wait]);
      RetriedReports(outcome, draw, paused, attempts - 1, NextDelay(attempts, sleep, wait));
      var rest := Outcomes(outcome, s.calls + 1, CallsMade(outcome, s.calls + 1, attempts - 1) - 1);
      assert s.reported + [outcome(s.calls)] + rest == s.reported + ([outcome(s.calls)] + rest);
    }
  }

  lemma DelaysNext(before: seq<int>, wait: int, after: seq<int>, sleep: int)
    requires sleep <= wait && 2 * wait < 3 * sleep
    requires before + [wait] <= after && Delays(after[|before| + 1..], 2 * wait)
    ensures before <= after && Delays(after[|before|..], sleep)
  {
    assert after[|before|..][1..] == after[|before| + 1..];
  }

  lemma {:induction false} RetriedDelays<E>(outcome: nat -> Outcome<E>, draw: (nat, int) -> int, s: State<E>,
                                            attempts: int, sleep: int)
    requires Ready(outcome, s.calls, attempts, sleep) && Random(draw)
    ensures var waits := Retried(outcome, draw, s, attempts, sleep).0.waits;
            && |waits| == |s.waits| + CallsMade(outcome, s.calls, attempts) - 1
            && s.waits <= waits && Delays(waits[|s.waits|..], sleep)
    decreases attempts
  {
    if outcome(s.calls).Failed? && attempts > 1 {
      var wait := WaitFor(sleep, draw(|s.waits|, sleep));
      var paused := State(s.calls + 1, s.reported + [outcome(s.calls)], s.waits + [wait]);
      var next := NextDelay(attempts, sleep, wait);
      RetriedDelays(outcome, draw, paused, attempts - 1, next);
      DelaysNext(s.waits, wait, Retried(outcome, draw, paused, attempts - 1, next).0.waits, sleep);
    }
  }

  /** Between two calls there is one wait, the j-th from 0 at least 2^j and less than 1.5 * 3^j times the delay. */
  lemma RetriedWaits<E>(outcome: nat -> Outcome<E>, draw: (nat, int) -> int, s: State<E>, attempts: int, sleep: int)
    requires Ready(outcome, s.calls, attempts, sleep) && Random(draw)
    ensures var waits := Retried(outcome, draw, s, attempts, sleep).0.waits;
            && |waits| == |s.waits| + CallsMade(outcome, s.calls, attempts) - 1
            && s.waits <= waits && Growing(waits[|s.waits|..], sleep)
  {
    RetriedDelays(outcome, draw, s, attempts, sleep);
    DelaysGrow(Retried(outcome, draw, s, attempts, sleep).0.waits[|s.waits|..], sleep);
  }

  class Retrier<E> {
    /** The results of the calls, and the random numbers drawn, in order. */
    const outcome: nat -> Outcome<E>
    const draw: (nat, int) -> int
    var calls: nat
    var reported: seq<Outcome<E>>
    var waits: seq<int>

    function Value(): State<E>
      reads this
    {
      State(calls, reported, waits)
    }

    constructor (outcome: nat -> Outcome<E>, draw: (nat, int) -> int)
      ensures Value() == State(0, [], [])
    {
      this.outcome, this.draw := outcome, draw;
      calls, reported, waits := 0, [], [];
    }

    /** If the first call fails, the delay must be positive, and small enough not to overflow. */
    method Retry(attempts: int, sleep: int) returns (err: Option<E>)
      requires Ready(outcome, calls, attempts, sleep) && Random(draw)
      modifies this
      ensures (Value(), err) == Retried(outcome, draw, old(Value()), attempts, sleep)
      decreases attempts
    {
      var result := outcome(calls);
      calls := calls + 1;
      if result.Done? {
        return None;
      }
      if result.Stopped? || attempts - 1 <= 0 {
        return Some(result.error);
      }
      var jitter := draw(|waits|, sleep);
      var wait := Wrap(sleep + jitter / 2);
      reported := reported + [result];
      waits := waits + [wait];
      err := Retry(attempts - 1, NextDelay(attempts, sleep, wait));
    }
  }
}
