/**
 * `run_supervised_connector` (runtime.py): restarting the runner after transient
 * failures, with a delay that doubles while the connector does not reach READY.
 */
module Backoff {
  /** The exceptions of the runner, in the order the handlers test them. */
  datatype Outcome =
    | ReturnedNormally
    | TerminalFatal        // Mt5TerminalFatalError
    | TerminalError        // Mt5TerminalError
    | TransientApi         // ConnectorTransientError, requests.RequestException
    | ApiRejected          // ConnectorApiError
    | OtherException

  /** One call of the runner and what the stop event does around its delay. */
  datatype Attempt = Attempt(reachedReady: bool, outcome: Outcome, stopped: bool, stopDuringWait: bool)

  datatype Verdict = ExitZero | Reraised(outcome: Outcome)

  /** `_assert_ok` (client.py): which statuses raise, and how. */
  function StatusOutcome(status: int): Outcome {
    if 200 <= status < 300 then ReturnedNormally
    else if status in {408, 425, 429} || status >= 500 then TransientApi
    else ApiRejected
  }

  function Max(x: real, y: real): real { if x >= y then x else y }

  function Min(x: real, y: real): real { if x <= y then x else y }

  function Pow2(n: nat): real {
    if n == 0 then 1.0 else 2.0 * Pow2(n - 1)
  }

  /** `base` doubled `n` times, without a cap. */
  function Doubled(base: real, n: nat): real {
    if n == 0 then base else Doubled(base, n - 1) * 2.0
  }

  lemma {:induction false} DoubledIs(base: real, n: nat)
    ensures Doubled(base, n) == base * Pow2(n)
  {
    if n == 0 {
      assert Pow2(0) == 1.0;
    } else {
      DoubledIs(base, n - 1);
      assert base * Pow2(n) == base * (2.0 * Pow2(n - 1)) == (base * Pow2(n - 1)) * 2.0;
    }
  }

  function BaseDelay(initial: real): real { Max(0.1, initial) }

  function MaxDelay(initial: real, maximum: real): real { Max(BaseDelay(initial), maximum) }

  /** How many attempts just before attempt `i` failed without reaching READY; 0 if `i` reached it. */
  function FailedStreak(attempts: seq<Attempt>, i: nat): nat
    requires i < |attempts|
  {
    if attempts[i].reachedReady then 0 else NotReadyBefore(attempts, i)
  }

  function NotReadyBefore(attempts: seq<Attempt>, i: nat): nat
    requires i <= |attempts|
  {
    if i == 0 || attempts[i - 1].reachedReady then 0 else 1 + NotReadyBefore(attempts, i - 1)
  }

  /** The delays of one streak never shrink and never pass the cap. */
  lemma {:induction false} StreakDelaysGrow(cap: real, base: real, m: nat, n: nat)
    requires 0.0 < base <= cap && m <= n
    ensures base <= Doubled(base, m) <= Doubled(base, n)
    ensures base <= Min(cap, Doubled(base, m)) <= Min(cap, Doubled(base, n)) <= cap
    decreases n
  {
    if m < n {
      StreakDelaysGrow(cap, base, m, n - 1);
    } else if 0 < m {
      StreakDelaysGrow(cap, base, m - 1, n - 1);
    }
  }

  /** The delay after a failure that is number `j` of its streak, counting from 0. */
  function Delay(initial: real, maximum: real, j: nat): real {
    Min(MaxDelay(initial, maximum), Doubled(BaseDelay(initial), j))
  }

  lemma FirstDelay(initial: real, maximum: real)
    ensures Delay(initial, maximum, 0) == BaseDelay(initial)
  {
  }

  /** Doubling the delay up to the cap gives the delay of the next failure. */
  lemma NextDelay(initial: real, maximum: real, j: nat)
    ensures Min(MaxDelay(initial, maximum), Delay(initial, maximum, j) * 2.0) == Delay(initial, maximum, j + 1)
  {
    StreakDelaysGrow(MaxDelay(initial, maximum), BaseDelay(initial), 0, j);
  }

  /** The closed form of the delay, with base and cap spelled out: at least 0.1, never less than the base. */
  lemma DelayIs(initial: real, maximum: real, j: nat)
    ensures var base := if initial > 0.1 then initial else 0.1;
      var cap := if maximum > base then maximum else base;
      Delay(initial, maximum, j) == if base * Pow2(j) < cap then base * Pow2(j) else cap
  {
    DoubledIs(BaseDelay(initial), j);
  }

  /** How many attempts in a row just before `i` failed before READY. */
  lemma {:induction false} NotReadyIs(attempts: seq<Attempt>, i: nat)
    requires i <= |attempts|
    ensures var n := NotReadyBefore(attempts, i);
      && n <= i && (forall k :: i - n <= k < i ==> !attempts[k].reachedReady)
      && (n < i ==> attempts[i - n - 1].reachedReady)
  {
    if i > 0 && !attempts[i - 1].reachedReady {
      NotReadyIs(attempts, i - 1);
    }
  }

  /** The streak that counts for attempt `i`: none if it reached READY itself. */
  lemma FailedStreakIs(attempts: seq<Attempt>, i: nat)
    requires i < |attempts|
    ensures var n := FailedStreak(attempts, i);
      if attempts[i].reachedReady then n == 0
      else n <= i && (forall k :: i - n <= k < i ==> !attempts[k].reachedReady)
           && (n < i ==> attempts[i - n - 1].reachedReady)
  {
    NotReadyIs(attempts, i);
  }

  ghost predicate DelaysAre(attempts: seq<Attempt>, initial: real, maximum: real, delays: seq<real>) {
    && |delays| <= |attempts|
    && forall i :: 0 <= i < |delays| ==> delays[i] == Delay(initial, maximum, FailedStreak(attempts, i))
  }

  /** After this attempt there is no other: it did not fail transiently, or the stop event was set. */
  ghost predicate Ends(a: Attempt) {
    a.outcome !in {TerminalError, TransientApi} || a.stopped || a.stopDuringWait
  }

  /**
   * How the loop ends after `used` attempts: the last of them is the first that ends it,
   * if any does.  A delay follows each but one that is not retried or finds the stop
   * event set; what is not retried is raised, a normal return excepted.
   */
  ghost predicate EndsRight(attempts: seq<Attempt>, used: nat, delays: nat, verdict: Verdict) {
    && used <= |attempts|
    && (forall i :: 0 <= i < used - 1 ==> !Ends(attempts[i]))
    && (used < |attempts| ==> used > 0 && Ends(attempts[used - 1]))
    && if used == 0 then delays == 0 && verdict == ExitZero else
         var last := attempts[used - 1];
         && delays == (if last.outcome in {TerminalError, TransientApi} && !last.stopped then used else used - 1)
         && verdict == if last.outcome in {TerminalError, TransientApi, ReturnedNormally} then ExitZero
                       else Reraised(last.outcome)
  }

  /**
   * An API answer that is not a success ends the loop unless it is 408, 425, 429 or a
   * server error; after one of these there is another attempt unless the stop event is set.
   */
  lemma RejectedStatusIsFinal(attempts: seq<Attempt>, used: nat, delays: nat, verdict: Verdict, n: nat, status: int)
    requires EndsRight(attempts, used, delays, verdict)
    requires n < used && attempts[n].outcome == StatusOutcome(status) && !(200 <= status < 300)
    ensures status !in {408, 425, 429} && status < 500 ==> verdict == Reraised(ApiRejected) && n == used - 1
    ensures status in {408, 425, 429} || status >= 500 ==>
      n + 1 < used || n + 1 == |attempts| || attempts[n].stopped || attempts[n].stopDuringWait
  {
    assert attempts[n].outcome == ApiRejected ==> Ends(attempts[n]);
  }

  /**
   * The loop over `attempts`; running out of them stands for the stop event being
   * set at the loop head.  The delays waited are in closed form, and the loop goes on
   * exactly after retryable failures without the stop event.
   */
  method RunSupervised(attempts: seq<Attempt>, initial: real, maximum: real)
    returns (delays: seq<real>, used: nat, verdict: Verdict)
    ensures DelaysAre(attempts, initial, maximum, delays)
    ensures EndsRight(attempts, used, |delays|, verdict)
  {
    var backoff := BaseDelay(initial);
    var maxBackoff := Max(backoff, maximum);
    delays, used := [], 0;
    FirstDelay(initial, maximum);
    while used < |attempts|
      invariant used == |delays| <= |attempts|
      invariant backoff == Delay(initial, maximum, NotReadyBefore(attempts, used))
      invariant DelaysAre(attempts, initial, maximum, delays)
      invariant forall i :: 0 <= i < used ==> !Ends(attempts[i])
    {
      var attempt := attempts[used];
      if attempt.reachedReady {
        backoff := BaseDelay(initial);
      }
      assert backoff == Delay(initial, maximum, FailedStreak(attempts, used));
      used := used + 1;
      match attempt.outcome {
        case ReturnedNormally => return delays, used, ExitZero;
        case TerminalFatal => return delays, used, Reraised(TerminalFatal);
        case ApiRejected => return delays, used, Reraised(ApiRejected);
        case OtherException => return delays, used, Reraised(OtherException);
        case _ =>
      }
      if attempt.stopped {
        return delays, used, ExitZero;
      }
      delays := delays + [backoff];
      if attempt.stopDuringWait {
        return delays, used, ExitZero;
      }
      if !attempt.reachedReady {
        NextDelay(initial, maximum, NotReadyBefore(attempts, used - 1));
        backoff := Min(maxBackoff, backoff * 2.0);
      }
    }
    verdict := ExitZero;
  }
}
