/** Deadlines: xTaskCheckForTimeOut as the blocking calls use it in their retry loops, and
    xTaskDelayUntil, both against unbounded time. */
module Timeouts {
  import opened Arithmetic
  import opened TwoLists
  import opened Scheduler
  import Ticks

  /** xNumOfOverflows and xTickCount: a point of time. */
  datatype Clock = Clock(overflows: nat, tick: nat)

  /** Unbounded time. */
  function Time(c: Clock, m: Modulus): nat {
    c.overflows * m + c.tick
  }

  /** TimeOut_t, as vTaskInternalSetTimeOutState fills it in, is the point of time on
      entering the wait.  The result is whether the wait is over, and what is left of it. */
  datatype Checked = Checked(expired: bool, entered: Clock, ticksToWait: nat)

  /** xTaskCheckForTimeOut */
  function Check(m: Modulus, now: Clock, entered: Clock, ticksToWait: nat): (r: Checked)
    requires now.tick < m && entered.tick < m
    ensures r.entered.tick < m
  {
    var elapsed := Sub(m, now.tick, entered.tick);
    if ticksToWait == m - 1 then Checked(false, entered, ticksToWait)
    else if now.overflows != entered.overflows && now.tick >= entered.tick then Checked(true, entered, 0)
    else if elapsed < ticksToWait then Checked(false, now, ticksToWait - elapsed)
    else Checked(true, entered, 0)
  }

  method CheckForTimeOut(m: Modulus, now: Clock, entered: Clock, ticksToWait: nat)
    returns (expired: bool, e: Clock, left: nat)
    requires now.tick < m && entered.tick < m
    ensures Checked(expired, e, left) == Check(m, now, entered, ticksToWait)
  {
    e, left := entered, ticksToWait;
    var elapsed := Sub(m, now.tick, entered.tick);
    if ticksToWait == m - 1 {
      expired := false;
    } else if now.overflows != entered.overflows && now.tick >= entered.tick {
      expired, left := true, 0;
    } else if elapsed < ticksToWait {
      expired, e, left := false, now, ticksToWait - elapsed;
    } else {
      expired, left := true, 0;
    }
  }

  lemma OverflowsApart(m: Modulus, a: nat, b: nat)
    requires a <= b
    ensures b * m == a * m + (b - a) * m
    ensures b - a >= 2 ==> (b - a) * m >= 2 * m
  {
    if b - a >= 2 { Monotonic(2, b - a, m); }
  }

  /** With at most one overflow since the last check, the check reports the end of the wait
      exactly when the deadline has passed, and otherwise keeps the deadline. */
  lemma CheckIsExact(m: Modulus, now: Clock, entered: Clock, ticksToWait: nat)
    requires now.tick < m && entered.tick < m && Time(entered, m) <= Time(now, m) && ticksToWait < m - 1
    requires entered.overflows <= now.overflows <= entered.overflows + 1
    ensures var r, deadline := Check(m, now, entered, ticksToWait), Time(entered, m) + ticksToWait;
            && (r.expired <==> Time(now, m) >= deadline)
            && (!r.expired ==> r.entered == now && Time(r.entered, m) + r.ticksToWait == deadline)
            && (r.expired ==> r.ticksToWait == 0)
  {
    OverflowsApart(m, entered.overflows, now.overflows);
    assert now.overflows == entered.overflows + 1 ==> (now.overflows - entered.overflows) * m == m;
  }

  /** For any number of overflows in between: the check is right unless two or more have
      happened, the tick count has not yet come round to where it was, and the wrapped
      difference falls short of the wait.  Then, and only then, it misses the deadline. */
  lemma CheckIsExactUnless(m: Modulus, now: Clock, entered: Clock, ticksToWait: nat)
    requires now.tick < m && entered.tick < m && entered.overflows <= now.overflows
    requires Time(entered, m) <= Time(now, m) && ticksToWait < m - 1
    ensures var missed := now.overflows - entered.overflows >= 2 && now.tick < entered.tick
                          && Sub(m, now.tick, entered.tick) < ticksToWait;
            (Check(m, now, entered, ticksToWait).expired <==> Time(now, m) >= Time(entered, m) + ticksToWait) <==>
              !missed
  {
    OverflowsApart(m, entered.overflows, now.overflows);
    if now.overflows - entered.overflows <= 1 {
      CheckIsExact(m, now, entered, ticksToWait);
    }
  }

  /** Such a miss: twenty ticks into unbounded time, with the deadline at eleven. */
  lemma CheckMissesADeadline()
    ensures var now, entered := Clock(2, 0), Clock(0, 5);
            !Check(10, now, entered, 6).expired && Time(now, 10) >= Time(entered, 10) + 6
  {
  }

  /** portMAX_DELAY never expires. */
  lemma MaximumDelayNeverExpires(m: Modulus, now: Clock, entered: Clock)
    requires now.tick < m && entered.tick < m
    ensures Check(m, now, entered, m - 1) == Checked(false, entered, m - 1)
  {
  }

  // ----- the retry loop of a blocking call

  /** Points of time at which a waiting call checks, in order, each at most one overflow
      after the one before. */
  ghost predicate Checks(m: Modulus, from: Clock, at: seq<Clock>)
    decreases |at|
  {
    at != [] ==>
      && at[0].tick < m && Time(from, m) <= Time(at[0], m) && from.overflows <= at[0].overflows <= from.overflows + 1
      && Checks(m, at[0], at[1..])
  }

  /** The checks of a loop that goes on until one of them reports the end of the wait. */
  function Retry(m: Modulus, entered: Clock, ticksToWait: nat, at: seq<Clock>): Checked
    requires entered.tick < m && forall i :: 0 <= i < |at| ==> at[i].tick < m
    decreases |at|
  {
    if at == [] then Checked(false, entered, ticksToWait)
    else
      var r := Check(m, at[0], entered, ticksToWait);
      if r.expired then r else Retry(m, r.entered, r.ticksToWait, at[1..])
  }

  /** Any number of spurious wake-ups leaves the deadline where it was: the loop ends at the
      first check that is not before it, and not earlier. */
  lemma {:induction false} RetryKeepsDeadline(m: Modulus, entered: Clock, ticksToWait: nat, at: seq<Clock>)
    requires entered.tick < m && 0 < ticksToWait < m - 1 && Checks(m, entered, at)
    requires forall i :: 0 <= i < |at| ==> at[i].tick < m
    ensures var r, deadline := Retry(m, entered, ticksToWait, at), Time(entered, m) + ticksToWait;
            && (r.expired <==> exists i :: 0 <= i < |at| && Time(at[i], m) >= deadline)
            && (!r.expired ==> Time(r.entered, m) + r.ticksToWait == deadline)
    decreases |at|
  {
    if at != [] {
      CheckIsExact(m, at[0], entered, ticksToWait);
      var r := Check(m, at[0], entered, ticksToWait);
      if !r.expired {
        hide Time, Check;
        RetryKeepsDeadline(m, at[0], r.ticksToWait, at[1..]);
        var deadline := Time(entered, m) + ticksToWait;
        assert forall i :: 1 <= i < |at| ==> at[i] == at[1..][i - 1];
        if i :| 0 <= i < |at| && Time(at[i], m) >= deadline {
          assert Time(at[1..][i - 1], m) >= deadline;
        }
      }
    }
  }

  /** The scheduler's tick count and overflow count are such a point of time. */
  lemma {:induction false} CountsAreTime(s: Sched, k: nat)
    requires s.base == s.overflows * s.m
    ensures var r := Ticks.LiveTicks(s, k); r.m == s.m && r.base == r.overflows * r.m
    ensures var r := Ticks.LiveTicks(s, k); r.Now() == Time(Clock(r.overflows, r.tick), r.m)
    decreases k
  {
    if k > 0 {
      TickKeepsCounts(s);
      hide Ticks.TickOnce;
      CountsAreTime(Ticks.TickOnce(s).0, k - 1);
    }
  }

  lemma TickKeepsCounts(s: Sched)
    requires s.base == s.overflows * s.m
    ensures var r := Ticks.TickOnce(s).0; r.m == s.m && r.base == r.overflows * r.m
  {
    hide Ticks.Unblock;
    UnblockKeepsCounts(Ticks.Advanced(s));
    OneMore(s.overflows, s.m);
  }

  lemma {:induction false} UnblockKeepsCounts(s: Sched)
    ensures var r := Ticks.Unblock(s).0; r.m == s.m && r.base == s.base && r.overflows == s.overflows
    decreases |s.lists.delayed|
  {
    if s.lists.delayed != [] && s.tick >= s.lists.delayed[0].value {
      UnblockKeepsCounts(Ticks.WakeHead(s));
    }
  }

  // ----- delaying until a point of time

  /** xTaskDelayUntil: whether it delays, for how many ticks, and the new wake time. */
  datatype Delay = Delay(delays: bool, ticks: nat, wake: nat)

  function DelayUntil(m: Modulus, tick: nat, previous: nat, increment: nat): (r: Delay)
    requires tick < m && previous < m && increment < m
    ensures r.wake < m
  {
    var wake := Add(m, previous, increment);
    var delays := if tick < previous then wake < previous && wake > tick else wake < previous || wake > tick;
    Delay(delays, if delays then Sub(m, wake, tick) else 0, wake)
  }

  method TaskDelayUntil(m: Modulus, tick: nat, previous: nat, increment: nat)
    returns (shouldDelay: bool, ticks: nat, wake: nat)
    requires tick < m && previous < m && 0 < increment < m
    ensures Delay(shouldDelay, ticks, wake) == DelayUntil(m, tick, previous, increment)
  {
    shouldDelay, ticks := false, 0;
    wake := Add(m, previous, increment);
    if tick < previous {
      if wake < previous && wake > tick {
        shouldDelay := true;
      }
    } else {
      if wake < previous || wake > tick {
        shouldDelay := true;
      }
    }
    if shouldDelay {
      ticks := Sub(m, wake, tick);
    }
  }

  /** The new wake time as a point of time. */
  function NextWake(m: Modulus, now: Clock, previous: Clock, increment: nat): (c: Clock)
    requires now.tick < m && previous.tick < m && increment < m
    ensures c.tick < m
  {
    var wake := DelayUntil(m, now.tick, previous.tick, increment).wake;
    Clock(if wake < previous.tick then previous.overflows + 1 else previous.overflows, wake)
  }

  /** The wrapped tests decide unbounded time, if the previous wake time is less than M ticks
      back: it delays exactly when the wake time is still to come, for exactly the ticks that
      are missing, and the new wake time is the old one plus the increment. */
  lemma DelayUntilIsExact(m: Modulus, now: Clock, previous: Clock, increment: nat)
    requires now.tick < m && previous.tick < m && 0 < increment < m
    requires now.overflows == (if now.tick < previous.tick then previous.overflows + 1 else previous.overflows)
    ensures var r, target := DelayUntil(m, now.tick, previous.tick, increment), Time(previous, m) + increment;
            && (r.delays <==> target > Time(now, m))
            && (r.delays ==> Time(now, m) + r.ticks == target)
            && target == Time(NextWake(m, now, previous, increment), m)
  {
    assert (previous.overflows + 1) * m == previous.overflows * m + m;
  }

  /** When the task comes q whole wraps later, the code cannot tell: its answer is right
      exactly when q is 0, or the increment lies behind even in the last wrap. */
  lemma DelayUntilIsExactUnless(m: Modulus, now: Clock, previous: Clock, increment: nat, q: nat)
    requires now.tick < m && previous.tick < m && 0 < increment < m
    requires now.overflows == q + (if now.tick < previous.tick then previous.overflows + 1 else previous.overflows)
    ensures var r, target := DelayUntil(m, now.tick, previous.tick, increment), Time(previous, m) + increment;
            (r.delays <==> target > Time(now, m)) <==> (q == 0 || increment <= Sub(m, now.tick, previous.tick))
  {
    hide DelayUntil, Sub;
    Wraps(previous.overflows, q, now.tick < previous.tick, m);
    WrapsLate(m, now.tick, previous.tick, increment, previous.overflows * m, q * m, now.overflows * m);
  }

  lemma Wraps(p: nat, q: nat, more: bool, m: Modulus)
    ensures (p + q + if more then 1 else 0) * m == p * m + q * m + if more then m else 0
    ensures q * m == 0 || q * m >= m
    ensures q * m == 0 <==> q == 0
  {
    assert (p + q) * m == p * m + q * m;
    assert (p + q + 1) * m == (p + q) * m + m;
    if q > 0 { Monotonic(1, q, m); }
  }

  /** The same with the products given. */
  lemma WrapsLate(m: Modulus, tick: nat, previous: nat, increment: nat, start: nat, late: nat, now: nat)
    requires tick < m && previous < m && 0 < increment < m
    requires now == start + late + (if tick < previous then m else 0) && (late == 0 || late >= m)
    ensures (DelayUntil(m, tick, previous, increment).delays <==> start + previous + increment > now + tick) <==>
            (late == 0 || increment <= Sub(m, tick, previous))
  {
  }

  /** Such a mistake: one wrap late, at time 16, the task is delayed until a wake time of 11. */
  lemma DelayUntilMissesAWrap()
    ensures var now, previous := Clock(1, 6), Clock(0, 5);
            DelayUntil(10, now.tick, previous.tick, 6).delays && Time(previous, 10) + 6 <= Time(now, 10)
  {
  }

  /** A periodic task: at the points of time in `at` it calls with the wake time that the
      call before has left. */
  function Targets(m: Modulus, previous: Clock, increment: nat, at: seq<Clock>): seq<Clock>
    requires previous.tick < m && increment < m && forall i :: 0 <= i < |at| ==> at[i].tick < m
    decreases |at|
  {
    if at == [] then []
    else
      var next := NextWake(m, at[0], previous, increment);
      [next] + Targets(m, next, increment, at[1..])
  }

  /** Each call comes less than M ticks after the wake time it starts from. */
  ghost predicate InTime(m: Modulus, previous: Clock, increment: nat, at: seq<Clock>)
    requires increment < m
    decreases |at|
  {
    at != [] ==>
      && previous.tick < m && at[0].tick < m
      && at[0].overflows == (if at[0].tick < previous.tick then previous.overflows + 1 else previous.overflows)
      && InTime(m, NextWake(m, at[0], previous, increment), increment, at[1..])
  }

  /** No drift: the k-th wake time is the start plus k increments, however late each call. */
  lemma {:induction false} NoDrift(m: Modulus, start: Clock, increment: nat, at: seq<Clock>, k: nat)
    requires start.tick < m && 0 < increment < m && InTime(m, start, increment, at) && k < |at|
    requires forall i :: 0 <= i < |at| ==> at[i].tick < m
    ensures k < |Targets(m, start, increment, at)|
    ensures Time(Targets(m, start, increment, at)[k], m) == Time(start, m) + (k + 1) * increment
    decreases k
  {
    DelayUntilIsExact(m, at[0], start, increment);
    OneMore(k, increment);
    hide Time, DelayUntil, NextWake;
    if k > 0 {
      NoDrift(m, NextWake(m, at[0], start, increment), increment, at[1..], k - 1);
    }
  }

  lemma OneMore(k: nat, increment: nat)
    ensures (k + 1) * increment == k * increment + increment
  {
  }
}
