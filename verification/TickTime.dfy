/**
  Decisions on the wrapping tick count (FreeRTOS/Source/tasks.c): block times measured across several
  calls, and periodic delays.  Unbounded times are `nat`; the kernel only sees them modulo 2^32,
  together with the number of wraps.
*/
module TickTime {

  const EPOCH: int := 0x1_0000_0000
  const MAX_DELAY: int := EPOCH - 1

  function Wrap(n: int): (r: nat)
    ensures r < EPOCH
  {
    n % EPOCH
  }

  // ---------- xTaskCheckForTimeOut ----------

  datatype TimeOut = TimeOut(overflows: nat, entered: nat)

  datatype Verdict = Expired | Remaining(state: TimeOut, wait: nat)

  /** vTaskSetTimeOutState at unbounded time `now` */
  function Started(now: nat): TimeOut {
    TimeOut(now / EPOCH, now % EPOCH)
  }

  /** xTaskCheckForTimeOut with the kernel's tick count and overflow count */
  function Check(s: TimeOut, wait: nat, overflows: nat, tick: nat): Verdict {
    if wait == MAX_DELAY then Remaining(s, wait)
    else if overflows != s.overflows && tick >= s.entered then Expired
    else if Wrap(tick - s.entered) < wait then
      Remaining(TimeOut(overflows, tick), wait - Wrap(tick - s.entered))
    else Expired
  }

  /** The verdict at unbounded time `now` for a block time that began at `start`. */
  function CheckAt(start: nat, wait: nat, now: nat): Verdict {
    Check(Started(start), wait, now / EPOCH, now % EPOCH)
  }

  lemma Difference(a: nat, b: nat)
    requires a <= b
    ensures Wrap(b % EPOCH - a % EPOCH) == (b - a) % EPOCH
    ensures b / EPOCH == a / EPOCH ==> b - a == b % EPOCH - a % EPOCH
    ensures b / EPOCH == a / EPOCH + 1 ==> b - a == EPOCH + b % EPOCH - a % EPOCH
    ensures b / EPOCH > a / EPOCH + 1 ==> b - a > EPOCH
  {
    assert a == EPOCH * (a / EPOCH) + a % EPOCH && b == EPOCH * (b / EPOCH) + b % EPOCH;
  }

  /** With at most one wrap since `start` the verdict is the unbounded one, and the remaining time keeps
      the deadline where it was. */
  lemma VerdictIsExact(start: nat, wait: nat, now: nat)
    requires start <= now && wait != MAX_DELAY && wait < EPOCH
    requires now / EPOCH <= start / EPOCH + 1
    ensures CheckAt(start, wait, now) ==
            if now - start >= wait then Expired else Remaining(Started(now), wait - (now - start))
  {
    Difference(start, now);
  }

  /** After any number of wraps the code is right exactly when one of three readings of its own
      variables holds: at most one wrap, a tick count at or past the entry time, or a remainder that
      already reaches the block time. */
  lemma VerdictRightIff(start: nat, wait: nat, now: nat)
    requires start <= now && wait != MAX_DELAY && wait < EPOCH
    ensures (CheckAt(start, wait, now).Expired? <==> now - start >= wait)
       <==> || now / EPOCH <= start / EPOCH + 1
            || now % EPOCH >= start % EPOCH
            || Wrap(now % EPOCH - start % EPOCH) >= wait
  {
    Difference(start, now);
  }

  /** Two wraps between calls can hide an expired block time. */
  lemma TwoWrapsHideATimeOut()
    ensures CheckAt(EPOCH - 1, 10, 2 * EPOCH) == Remaining(Started(2 * EPOCH), 9)
  {
    assert (EPOCH - 1) / EPOCH == 0 && (2 * EPOCH) / EPOCH == 2 && (2 * EPOCH) % EPOCH == 0;
  }

  /** Which of the successive checks reports the timeout first, if any. */
  function FirstExpiry(s: TimeOut, wait: nat, times: seq<nat>): (i: nat)
    ensures i <= |times|
    decreases |times|
  {
    if times == [] then 0
    else match Check(s, wait, times[0] / EPOCH, times[0] % EPOCH)
      case Expired => 0
      case Remaining(s', wait') => 1 + FirstExpiry(s', wait', times[1..])
  }

  /** Each check comes no earlier, and at most one wrap later, than the one before. */
  ghost predicate Close(start: nat, times: seq<nat>)
    decreases |times|
  {
    times == [] || (start <= times[0] && times[0] / EPOCH <= start / EPOCH + 1 && Close(times[0], times[1..]))
  }

  /** A block time checked again and again is measured against the original budget: the checks before
      the reported one all lie inside it, and the reported one does not. */
  lemma {:induction false} FirstExpiryIsExact(start: nat, budget: nat, times: seq<nat>)
    requires Close(start, times) && budget != MAX_DELAY && budget < EPOCH
    ensures var i := FirstExpiry(Started(start), budget, times);
            && (forall j | 0 <= j < i :: times[j] - start < budget)
            && (i < |times| ==> times[i] - start >= budget)
    decreases |times|
  {
    if times != [] {
      var now := times[0];
      VerdictIsExact(start, budget, now);
      if now - start < budget {
        FirstExpiryIsExact(now, budget - (now - start), times[1..]);
      }
    }
  }

  /** A call made to wait for portMAX_DELAY never times out. */
  lemma {:induction false} ForeverNeverExpires(s: TimeOut, times: seq<nat>)
    ensures FirstExpiry(s, MAX_DELAY, times) == |times|
    decreases |times|
  {
    if times != [] {
      ForeverNeverExpires(s, times[1..]);
    }
  }

  // ---------- vTaskDelayUntil ----------

  /** The two wrap cases of vTaskDelayUntil */
  predicate ShouldDelay(previous: nat, increment: nat, tick: nat) {
    var wake := Wrap(previous + increment);
    if tick < previous then wake < previous && wake > tick
    else wake < previous || wake > tick
  }

  /** Whatever the wraps, the decision compares the increment with the time since `previous` modulo
      2^32. */
  lemma ShouldDelayMeaning(previous: nat, increment: nat, tick: nat)
    requires previous < EPOCH && tick < EPOCH && 0 < increment < EPOCH
    ensures ShouldDelay(previous, increment, tick) <==> increment > Wrap(tick - previous)
  {
  }

  /** It is the decision on unbounded times exactly when less than 2^32 ticks have passed since
      `previous` or the increment is no more than their remainder. */
  lemma DelayUntilRightIff(previous: nat, increment: nat, now: nat)
    requires previous <= now && 0 < increment < EPOCH
    ensures (ShouldDelay(previous % EPOCH, increment, now % EPOCH) <==> previous + increment > now)
       <==> (now - previous < EPOCH || increment <= Wrap(now % EPOCH - previous % EPOCH))
  {
    Difference(previous, now);
    ShouldDelayMeaning(previous % EPOCH, increment, now % EPOCH);
  }

  /** prvAddCurrentTaskToDelayedList picks the list of the right epoch for any wait below 2^32. */
  lemma OverflowListIsNextEpoch(now: nat, wait: nat)
    requires wait < EPOCH
    ensures Wrap(now % EPOCH + wait) == (now + wait) % EPOCH
    ensures Wrap(now % EPOCH + wait) < now % EPOCH <==> (now + wait) / EPOCH == now / EPOCH + 1
    ensures Wrap(now % EPOCH + wait) >= now % EPOCH <==> (now + wait) / EPOCH == now / EPOCH
  {
    assert now == EPOCH * (now / EPOCH) + now % EPOCH;
  }

  datatype Delay = Delay(delayed: bool, wake: nat)

  /** What vTaskDelayUntil does in successive calls made at the times `calls`, with the wrapped value of
      the task's own variable handed from call to call. */
  function PeriodicDelays(previous: nat, increment: nat, calls: seq<nat>): (r: seq<Delay>)
    ensures |r| == |calls|
    decreases |calls|
  {
    if calls == [] then []
    else [Delay(ShouldDelay(previous, increment, calls[0] % EPOCH), Wrap(previous + increment))]
         + PeriodicDelays(Wrap(previous + increment), increment, calls[1..])
  }

  /** Call n comes after wake time n and before another 2^32 ticks have passed. */
  ghost predicate OnTime(start: nat, increment: nat, calls: seq<nat>)
    decreases |calls|
  {
    calls == [] || (start <= calls[0] < start + EPOCH && OnTime(start + increment, increment, calls[1..]))
  }

  /** The time that call n waits for: `start` plus n + 1 periods. */
  function Deadline(start: nat, increment: nat, n: nat): (d: nat)
    ensures d == start + (n + 1) * increment
    decreases n
  {
    if n == 0 then start + increment
    else
      assert (start + increment) + ((n - 1) + 1) * increment == start + (n + 1) * increment;
      Deadline(start + increment, increment, n - 1)
  }

  lemma FirstDelay(start: nat, increment: nat, now: nat)
    requires 0 < increment < EPOCH && start <= now < start + EPOCH
    ensures Wrap(Wrap(start) + increment) == Wrap(start + increment)
    ensures ShouldDelay(Wrap(start), increment, now % EPOCH) <==> start + increment > now
  {
    DelayUntilRightIff(start, increment, now);
  }

  /** Periodic delays do not drift: call n waits for its own deadline, and sleeps exactly when that time
      is still ahead. */
  lemma {:induction false} PeriodicDelaysDoNotDrift(start: nat, increment: nat, calls: seq<nat>, n: nat)
    requires 0 < increment < EPOCH && OnTime(start, increment, calls) && n < |calls|
    ensures PeriodicDelays(Wrap(start), increment, calls)[n] ==
            Delay(Deadline(start, increment, n) > calls[n], Wrap(Deadline(start, increment, n)))
    decreases n
  {
    FirstDelay(start, increment, calls[0]);
    if n > 0 {
      PeriodicDelaysDoNotDrift(start + increment, increment, calls[1..], n - 1);
    }
  }
}
