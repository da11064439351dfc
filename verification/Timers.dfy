/** The timer daemon of timers.c.  Every time it handles is a wrapped tick count; the ghost
    state says which unbounded times are meant, and the contracts speak of those. */
module Timers {
  import opened Arithmetic
  import opened ListSpec
  import opened TwoLists

  type TimerId = Owner

  datatype Timer = Timer(xTimerPeriodInTicks: nat, autoReload: bool, active: bool)

  datatype Command = Start | Stop | ChangePeriod(newPeriod: nat) | Delete(dynamic: bool)

  datatype Action = ListsSwitched | TimerProcessed | Blocked(ticks: nat, indefinitely: bool)

  /** When a timer started at `start` expires next, having expired n times. */
  ghost function Expiry(start: nat, period: nat, n: nat): nat {
    if n == 0 then start + period else Expiry(start, period, n - 1) + period
  }

  lemma NextExpiry(start: nat, period: nat, n: nat)
    ensures Expiry(start, period, n + 1) == Expiry(start, period, n) + period
    ensures Expiry(start, period, 0) == start + period
  {
  }

  lemma {:induction false} ExpiryIs(start: nat, period: nat, n: nat)
    ensures Expiry(start, period, n) == start + (n + 1) * period
  {
    if n > 0 {
      ExpiryIs(start, period, n - 1);
      assert (n + 1) * period == n * period + period;
    }
  }

  /** n callbacks of the same timer. */
  function Times(t: TimerId, n: nat): (s: seq<TimerId>)
    ensures |s| == n
  {
    if n == 0 then [] else Times(t, n - 1) + [t]
  }

  lemma TimesIs(log: seq<TimerId>, t: TimerId, n: nat)
    ensures log + Times(t, n) + [t] == log + Times(t, n + 1)
    ensures Times(t, 1) == [t] && log + Times(t, 0) == log
  {
  }

  lemma {:induction false} CallsAfter(log: seq<TimerId>, t: TimerId, n: nat, x: TimerId)
    ensures multiset(log + Times(t, n))[x] == multiset(log)[x] + (if x == t then n else 0)
  {
    if n == 0 {
      assert log + Times(t, 0) == log;
    } else {
      CallsAfter(log, t, n - 1, x);
      assert log + Times(t, n) == log + Times(t, n - 1) + [t];
    }
  }

  /** The wrapped form of a time in the epoch that begins at base, or in the one before. */
  ghost predicate Stamps(stamp: nat, time: nat, base: nat, m: nat) {
    if time >= base then time < base + m && stamp == time - base
    else base <= time + m && stamp == time + m - base
  }

  /** How many periods have elapsed when that many expiries have passed. */
  lemma PeriodsElapsed(start: nat, period: nat, n: nat, now: nat)
    requires period > 0
    requires n > 0 ==> Expiry(start, period, n - 1) <= now
    requires start <= now < Expiry(start, period, n)
    ensures n == (now - start) / period
  {
    ExpiryIs(start, period, n);
    if n > 0 {
      ExpiryIs(start, period, n - 1);
    }
    DivisionIs(now - start, period, n);
  }

  lemma DivisionIs(a: nat, b: nat, q: nat)
    requires b > 0 && q * b <= a < (q + 1) * b
    ensures a / b == q
  {
    var d := a / b;
    assert d * b <= a < (d + 1) * b;
    Monotonic(d + 1, q, b);
    Monotonic(q + 1, d, b);
  }

  /** The heart of prvInsertTimerInActiveList, on wrapped times alone. */
  predicate ProcessNow(m: nat, next: nat, now: nat, command: nat, period: nat)
    requires next < m && now < m && command < m
  {
    if next <= now then Sub(m, now, command) >= period
    else now < command && next >= command
  }

  /** It decides in unbounded time, exactly: with less than M ticks between command and now,
      the timer is to be processed at once if and only if command time plus period has
      passed, and otherwise it is listed for the epoch in which that moment lies. */
  lemma WrappedDecisionIsExact(m: nat, base: nat, now: nat, command: nat, stamp: nat, period: nat)
    requires now < m && 0 < period < m
    requires command <= base + now < command + m && Stamps(stamp, command, base, m)
    ensures var next := Add(m, stamp, period); var time := command + period;
            && (ProcessNow(m, next, now, stamp, period) <==> time <= base + now)
            && (time > base + now ==>
                  && (next <= now <==> time >= base + m)
                  && next == if time < base + m then time - base else time - base - m)
            && (time <= base + now ==> Stamps(next, time, base, m))
  {
  }

  /** Of a timer's last start: its unbounded time, the expirations since, and the callbacks
      that had been made before it. */
  datatype History = History(start: nat, fired: nat, before: nat)

  /** A timer that started then and has expired so often is due at that time; a one-shot
      timer is listed only until it expires. */
  ghost predicate Lawful(timer: Timer, h: History, time: nat) {
    time == Expiry(h.start, timer.xTimerPeriodInTicks, h.fired) && (!timer.autoReload ==> h.fired == 0)
  }

  /** What the daemon knows and has done: the timers, the unbounded expiry times of those
      that are listed, their history, and the callbacks in order. */
  datatype Books = Books(timers: map<TimerId, Timer>, due: map<TimerId, nat>,
                         history: map<TimerId, History>, callbacks: seq<TimerId>)
  {
    function Calls(t: TimerId): nat { multiset(callbacks)[t] }
  }

  ghost predicate Laws(b: Books) {
    && b.history.Keys == b.timers.Keys
    && (forall t :: t in b.due ==> t in b.timers && b.timers[t].active && Lawful(b.timers[t], b.history[t], b.due[t]))
  }

  /** Between steps, except for the timers being worked on: a timer is listed exactly when
      it is active, and has been called back once per expiration. */
  ghost predicate Settled(b: Books, except: set<TimerId>) {
    forall t :: t in b.timers && t !in except ==>
      && (b.timers[t].active <==> t in b.due)
      && t in b.history && b.Calls(t) == b.history[t].before + b.history[t].fired
  }

  /** Nothing about this timer has changed. */
  ghost predicate Untouched(b: Books, c: Books, t: TimerId) {
    && (t in b.timers <==> t in c.timers) && (t in b.timers ==> b.timers[t] == c.timers[t])
    && (t in b.history <==> t in c.history) && (t in b.history ==> b.history[t] == c.history[t])
    && (t in b.due <==> t in c.due) && (t in b.due ==> b.due[t] == c.due[t])
    && b.Calls(t) == c.Calls(t)
  }

  /** The callbacks made since the start of a listed timer: one for every whole period between
      its start and the expiry it is now armed for, except that last one. */
  lemma CallbacksMatchArmedExpiry(b: Books, t: TimerId)
    requires Laws(b) && Settled(b, {}) && t in b.due && b.timers[t].xTimerPeriodInTicks > 0
    ensures var made := b.Calls(t) - b.history[t].before; var period := b.timers[t].xTimerPeriodInTicks;
            && (made + 1) * period == b.due[t] - b.history[t].start
            && made == (b.due[t] - b.history[t].start) / period - 1
            && (!b.timers[t].autoReload ==> made == 0)
  {
    var h, period := b.history[t], b.timers[t].xTimerPeriodInTicks;
    ExpiryIs(h.start, period, h.fired);
    Monotonic(0, 1, period);
    assert (h.fired + 2) * period == (h.fired + 1) * period + period;
    DivisionIs(b.due[t] - h.start, period, h.fired + 1);
  }

  /** Once a timer's next expiry is still to come, it has been called back exactly once for
      every period that has elapsed since its start. */
  lemma OneCallbackPerPeriod(b: Books, t: TimerId, now: nat)
    requires Laws(b) && Settled(b, {}) && Recent(b, now) && t in b.due && now < b.due[t]
    requires b.timers[t].xTimerPeriodInTicks > 0
    ensures b.history[t].start <= now
    ensures b.Calls(t) - b.history[t].before == (now - b.history[t].start) / b.timers[t].xTimerPeriodInTicks
  {
    var h := b.history[t];
    PeriodsElapsed(h.start, b.timers[t].xTimerPeriodInTicks, h.fired, now);
  }

  /** No timer was started in the future, and none is armed for more than its next expiry. */
  ghost predicate Recent(b: Books, now: nat) {
    forall t :: t in b.due ==>
      && t in b.history && t in b.timers
      && b.history[t].start <= now && b.due[t] <= now + b.timers[t].xTimerPeriodInTicks
  }

  /** What every step of the daemon keeps of a listed auto-reload timer that it is not about. */
  ghost predicate Carried(b: Books, c: Books, t: TimerId) {
    && t in b.timers && t in c.timers && c.timers[t] == b.timers[t] && t in c.due
    && t in b.history && t in c.history
    && c.history[t].start == b.history[t].start && c.history[t].before == b.history[t].before
  }

  /** Untouched or processed, a listed auto-reload timer stays listed, with the same start. */
  lemma AutoReloadIsCarried(b: Books, c: Books, t: TimerId, limit: nat)
    requires Laws(b) && t in b.due && b.timers[t].autoReload
    requires Untouched(b, c, t) || Handled(b, c, t, limit)
    ensures Carried(b, c, t)
  {
  }

  /** A step that passes time from one reading of the clock to another keeps timers armed for
      their next expiry only. */
  lemma StaysRecent(b: Books, c: Books, last: nat, now: nat, limit: nat, except: set<TimerId>)
    requires Laws(b) && Laws(c) && Recent(b, last) && last <= now && limit <= now
    requires forall x :: x !in except ==> Untouched(b, c, x) || Handled(b, c, x, limit)
    requires forall x :: x in except && x in c.due ==>
               c.history[x].start <= now && c.due[x] <= now + c.timers[x].xTimerPeriodInTicks
    ensures Recent(c, now)
  {
    forall x | x in c.due
      ensures c.history[x].start <= now && c.due[x] <= now + c.timers[x].xTimerPeriodInTicks
    {
      if x !in except {
        assert Untouched(b, c, x) || Handled(b, c, x, limit);
      }
    }
  }

  lemma UntouchedTwice(b: Books, m: Books, c: Books, t: TimerId)
    requires forall x :: x != t ==> Untouched(b, m, x)
    requires forall x :: x != t ==> Untouched(m, c, x)
    ensures forall x :: x != t ==> Untouched(b, c, x)
  {
    forall x | x != t ensures Untouched(b, c, x) {
      assert Untouched(b, m, x) && Untouched(m, c, x);
    }
  }

  /** A listed timer expires: an auto-reload timer once and then `further` more times at
      once, a one-shot timer for good. */
  ghost function Expire(b: Books, t: TimerId, further: nat): Books
    requires t in b.timers && t in b.history && t in b.due
  {
    var timer, h := b.timers[t], b.history[t];
    if timer.autoReload then
      b.(due := b.due[t := Expiry(h.start, timer.xTimerPeriodInTicks, h.fired + further + 1)],
         history := b.history[t := h.(fired := h.fired + further + 1)],
         callbacks := b.callbacks + Times(t, further + 1))
    else
      b.(timers := b.timers[t := timer.(active := false)], due := b.due - {t},
         history := b.history[t := h.(fired := h.fired + 1)],
         callbacks := b.callbacks + [t])
  }

  lemma ExpireKeepsBooks(b: Books, t: TimerId, further: nat, except: set<TimerId>)
    requires Laws(b) && Settled(b, except) && t in b.due && t !in except
    ensures Laws(Expire(b, t, further)) && Settled(Expire(b, t, further), except)
    ensures forall x :: x != t ==> Untouched(b, Expire(b, t, further), x)
    ensures Expire(b, t, further).due.Keys <= b.due.Keys
  {
    var c := Expire(b, t, further);
    ExpireLaws(b, t, further);
    ExpireCalls(b, t, further);
    forall x | x != t ensures Untouched(b, c, x) {
      assert c.Calls(x) == b.Calls(x);
    }
    forall x | x in c.timers && x !in except
      ensures (c.timers[x].active <==> x in c.due) && c.Calls(x) == c.history[x].before + c.history[x].fired
    {
      assert x != t ==> Untouched(b, c, x);
    }
  }

  lemma ExpireLaws(b: Books, t: TimerId, further: nat)
    requires Laws(b) && t in b.due
    ensures Laws(Expire(b, t, further))
  {
    var c := Expire(b, t, further);
    forall x | x in c.due ensures x in c.timers && c.timers[x].active && Lawful(c.timers[x], c.history[x], c.due[x]) {
      if x != t {
        assert x in b.due;
      }
    }
  }

  lemma ExpireCalls(b: Books, t: TimerId, further: nat)
    requires Laws(b) && t in b.due
    ensures var c := Expire(b, t, further);
            && c.Calls(t) == b.Calls(t) + c.history[t].fired - b.history[t].fired
            && forall x :: x != t ==> c.Calls(x) == b.Calls(x)
  {
    var n := if b.timers[t].autoReload then further + 1 else 1;
    assert Times(t, 1) == [t];
    CallsAfter(b.callbacks, t, n, t);
    forall x | x != t ensures Expire(b, t, further).Calls(x) == b.Calls(x) {
      CallsAfter(b.callbacks, t, n, x);
    }
  }

  /** A start at that time begins the timer's history anew. */
  ghost function Restart(b: Books, t: TimerId, timer: Timer, time: nat): Books {
    b.(timers := b.timers[t := timer],
       due := b.due[t := Expiry(time, timer.xTimerPeriodInTicks, 0)],
       history := b.history[t := History(time, 0, b.Calls(t))])
  }

  /** A timer that is not listed is stopped, or deleted. */
  function Stopped(b: Books, t: TimerId): Books
    requires t in b.timers
  {
    b.(timers := b.timers[t := b.timers[t].(active := false)])
  }

  function Deleted(b: Books, t: TimerId): Books {
    b.(timers := b.timers - {t}, history := b.history - {t})
  }

  lemma StopKeepsBooks(b: Books, t: TimerId)
    requires Laws(b) && Settled(b, {t}) && t in b.timers && t !in b.due && t in b.history
    requires b.Calls(t) == b.history[t].before + b.history[t].fired
    ensures Laws(Stopped(b, t)) && Settled(Stopped(b, t), {})
    ensures forall x :: x != t ==> Untouched(b, Stopped(b, t), x)
  {
    assert forall x :: Stopped(b, t).Calls(x) == b.Calls(x);
  }

  lemma DeleteKeepsBooks(b: Books, t: TimerId)
    requires Laws(b) && Settled(b, {t}) && t !in b.due
    ensures Laws(Deleted(b, t)) && Settled(Deleted(b, t), {})
    ensures forall x :: x != t ==> Untouched(b, Deleted(b, t), x)
  {
    assert forall x :: Deleted(b, t).Calls(x) == b.Calls(x);
  }

  /** The timer leaves its list, if it is on one. */
  function Unlisted(b: Books, t: TimerId): Books {
    b.(due := b.due - {t})
  }

  lemma UnlistKeepsBooks(b: Books, t: TimerId)
    requires Laws(b) && Settled(b, {})
    ensures Laws(Unlisted(b, t)) && Settled(Unlisted(b, t), {t})
  {
    assert forall x :: Unlisted(b, t).Calls(x) == b.Calls(x);
  }

  /** A timer is created. */
  function Created(b: Books, t: TimerId, timer: Timer, now: nat): Books {
    b.(timers := b.timers[t := timer], history := b.history[t := History(now, 0, b.Calls(t))])
  }

  lemma CreateKeepsBooks(b: Books, t: TimerId, timer: Timer, now: nat)
    requires Laws(b) && Settled(b, {}) && t !in b.timers && !timer.active
    ensures Laws(Created(b, t, timer, now)) && Settled(Created(b, t, timer, now), {})
    ensures forall x :: x != t ==> Untouched(b, Created(b, t, timer, now), x)
  {
    assert forall x :: Created(b, t, timer, now).Calls(x) == b.Calls(x);
  }

  /** Taken off its list and listed again, or not. */
  lemma RelistedIs(due: map<TimerId, nat>, t: TimerId, time: nat)
    ensures (due - {t})[t := time] == due[t := time]
    ensures t !in due ==> due - {t} == due
  {
  }

  lemma StampOfNow(stamp: nat, base: nat, m: nat)
    requires stamp < m
    ensures Stamps(stamp, base + stamp, base, m)
  {
  }

  lemma StampInRange(stamp: nat, time: nat, base: nat, m: nat)
    requires Stamps(stamp, time, base, m)
    ensures stamp < m
  {
  }

  /** A start that comes too late to list the timer: what is left to record. */
  lemma RestartThenExpire(b: Books, t: TimerId, timer: Timer, time: nat, further: nat)
    requires Laws(b) && t in b.timers && t !in b.due && (!timer.autoReload ==> further == 0)
    ensures var h := History(time, further + 1, b.Calls(t));
            Expire(Restart(b, t, timer, time), t, further) == Books(
              b.timers[t := if timer.autoReload then timer else timer.(active := false)],
              if timer.autoReload then b.due[t := Expiry(time, timer.xTimerPeriodInTicks, further + 1)] else b.due,
              b.history[t := h],
              b.callbacks + Times(t, further + 1))
  {
    assert Times(t, 1) == [t];
    assert b.due[t := Expiry(time, timer.xTimerPeriodInTicks, 0)] - {t} == b.due;
  }

  lemma RestartKeepsBooks(b: Books, t: TimerId, timer: Timer, time: nat, except: set<TimerId>)
    requires Laws(b) && Settled(b, except + {t}) && t in b.timers && timer.active
    ensures Laws(Restart(b, t, timer, time)) && Settled(Restart(b, t, timer, time), except)
    ensures forall x :: x != t ==> Untouched(b, Restart(b, t, timer, time), x)
  {
  }

  /** The moment is the first of all expiries and of the wrap. */
  ghost predicate WakesFor(due: map<TimerId, nat>, wrap: nat, wake: nat) {
    && wake <= wrap && (forall t :: t in due ==> wake <= due[t])
    && (wake == wrap || exists t :: t in due && due[t] == wake)
  }

  /** Between b and c the timer, due up to the limit in b, has been processed: it is listed
      for its first expiry beyond the limit and has been called back once for each expiration,
      or has been called back once and has expired for good. */
  ghost predicate Handled(b: Books, c: Books, t: TimerId, limit: nat) {
    && t in b.due && b.due[t] <= limit
    && t in b.timers && t in c.timers && t in b.history && t in c.history
    && c.history[t].start == b.history[t].start && c.history[t].before == b.history[t].before
    && (if b.timers[t].autoReload then
          c.timers[t] == b.timers[t]
          && t in c.due && limit < c.due[t] <= limit + b.timers[t].xTimerPeriodInTicks
          && c.Calls(t) - b.Calls(t) == c.history[t].fired - b.history[t].fired
        else
          c.timers[t] == b.timers[t].(active := false) && t !in c.due && c.Calls(t) == b.Calls(t) + 1)
  }

  /** Some of the timers that are due up to the limit have been processed. */
  ghost predicate Progress(b: Books, c: Books, limit: nat) {
    forall t :: Untouched(b, c, t) || Handled(b, c, t, limit)
  }

  /** Work on timer t, in which the epoch may have changed from the one that began at `before`
      to the one that begins at `after`, leaves every other timer alone, except for processing
      what had fallen due in the epoch that has ended. */
  ghost predicate OthersStand(b: Books, c: Books, t: TimerId, before: nat, after: nat) {
    forall x :: x != t ==> Untouched(b, c, x) || (after > before && Handled(b, c, x, after - 1))
  }

  lemma OthersStandThrough(b: Books, m: Books, c: Books, t: TimerId, before: nat, after: nat)
    requires OthersStand(b, m, t, before, after) && forall x :: x != t ==> Untouched(m, c, x)
    ensures OthersStand(b, c, t, before, after)
  {
    forall x | x != t ensures Untouched(b, c, x) || (after > before && Handled(b, c, x, after - 1)) {
      assert Untouched(m, c, x);
      assert Untouched(b, m, x) || Handled(b, m, x, after - 1);
    }
  }

  /** Taking t off its list touches no other timer. */
  lemma OthersStandAtBegin(b: Books, m: Books, t: TimerId, before: nat, after: nat)
    requires var u := b.(due := b.due - {t});
             if after == before then m == u else after > before && Progress(u, m, after - 1)
    ensures OthersStand(b, m, t, before, after)
  {
    var u := b.(due := b.due - {t});
    forall x | x != t ensures Untouched(b, m, x) || (after > before && Handled(b, m, x, after - 1)) {
      assert Untouched(b, u, x);
      assert after > before ==> Untouched(u, m, x) || Handled(u, m, x, after - 1);
    }
  }

  /** Work on timer t has begun: it is off its list and otherwise as it was. */
  ghost predicate Begun(b: Books, c: Books, t: TimerId, before: nat, after: nat) {
    && OthersStand(b, c, t, before, after)
    && t in b.timers && t in c.timers && c.timers[t] == b.timers[t] && t !in c.due && t in c.history
    && c.Calls(t) == c.history[t].before + c.history[t].fired == b.Calls(t)
  }

  lemma BeginningIs(b: Books, c: Books, t: TimerId, before: nat, after: nat)
    requires Laws(b) && Settled(b, {}) && t in b.timers
    requires if after == before then c == Unlisted(b, t) else after > before && Progress(Unlisted(b, t), c, after - 1)
    ensures Begun(b, c, t, before, after)
  {
    OthersStandAtBegin(b, c, t, before, after);
    hide OthersStand, Progress;
    if after > before {
      NotDueStands(Unlisted(b, t), c, t, after - 1);
    }
  }

  lemma NotDueStands(b: Books, c: Books, t: TimerId, limit: nat)
    requires Progress(b, c, limit) && t !in b.due
    ensures Untouched(b, c, t)
  {
    assert Untouched(b, c, t) || Handled(b, c, t, limit);
  }

  lemma NoProgress(b: Books, limit: nat)
    ensures Progress(b, b, limit)
  {
    assert forall t :: Untouched(b, b, t);
  }

  lemma ExpireHandles(b: Books, t: TimerId, further: nat, limit: nat)
    requires Laws(b) && t in b.due && b.due[t] <= limit
    requires var c := Expire(b, t, further);
             t in c.due ==> limit < c.due[t] <= limit + b.timers[t].xTimerPeriodInTicks
    ensures Handled(b, Expire(b, t, further), t, limit)
  {
    ExpireCalls(b, t, further);
  }

  lemma ExpireProgresses(a: Books, b: Books, t: TimerId, further: nat, limit: nat)
    requires Progress(a, b, limit) && Laws(b) && t in b.due && b.due[t] <= limit
    requires var c := Expire(b, t, further);
             t in c.due ==> limit < c.due[t] <= limit + b.timers[t].xTimerPeriodInTicks
    ensures Progress(a, Expire(b, t, further), limit)
  {
    var c := Expire(b, t, further);
    hide Expire;
    ExpireKeepsUntouched(b, t, further);
    ExpireHandles(b, t, further, limit);
    assert Untouched(a, b, t);
    assert Handled(a, c, t, limit);
    forall x | x != t ensures Untouched(a, c, x) || Handled(a, c, x, limit) {
      assert Untouched(b, c, x);
      assert Untouched(a, b, x) || Handled(a, b, x, limit);
      if Untouched(a, b, x) {
        assert Untouched(a, c, x);
      } else {
        assert Handled(a, c, x, limit);
      }
    }
  }

  lemma ExpireKeepsUntouched(b: Books, t: TimerId, further: nat)
    requires Laws(b) && t in b.due
    ensures forall x :: x != t ==> Untouched(b, Expire(b, t, further), x)
  {
    ExpireCalls(b, t, further);
  }

  class TimerDaemon {
    const M: nat
    var pxCurrentTimerList: seq<Entry>
    var pxOverflowTimerList: seq<Entry>
    var xLastTime: nat
    var timers: map<TimerId, Timer>
    var callbacks: seq<TimerId>          // the callbacks made, in order
    ghost var base: nat                  // the unbounded time at which this epoch began
    ghost var due: map<TimerId, nat>     // unbounded expiry times of the listed timers
    ghost var history: map<TimerId, History>

    /** The unbounded time of the last sample. */
    ghost function Now(): nat
      reads `base, `xLastTime
    {
      base + xLastTime
    }

    ghost function State(): Books
      reads `timers, `due, `history, `callbacks
    {
      Books(timers, due, history, callbacks)
    }

    /** The lists hold the due timers under their wrapped times. */
    ghost predicate Lists()
      reads `pxCurrentTimerList, `pxOverflowTimerList, `xLastTime, `timers, `base, `due
    {
      && M >= 2 && xLastTime < M
      && Match(pxCurrentTimerList, pxOverflowTimerList, due, base, M)
      && (forall t :: t in timers ==> 0 < timers[t].xTimerPeriodInTicks < M)
    }

    ghost predicate Valid()
      reads this
    {
      Lists() && Laws(State())
    }

    /** What the fields, the lists and the head of the current list say. */
    lemma StateHas()
      ensures State().timers == timers && State().due == due && State().history == history
              && State().callbacks == callbacks
    {
    }

    lemma ListsMean()
      requires Lists()
      ensures M >= 2 && xLastTime < M && forall t :: t in timers ==> 0 < timers[t].xTimerPeriodInTicks < M
    {
      hide Match;
    }

    lemma HeadIsDue()
      requires Lists() && pxCurrentTimerList != []
      ensures var e := pxCurrentTimerList[0];
              e.value < M && e.owner in due && due[e.owner] == base + e.value
    {
      HeadIsEarliest(pxCurrentTimerList, pxOverflowTimerList, due, base, M);
      hide Match;
    }

    /** prvCheckForValidListAndQueue, and the first sample of a clock that starts at 0. */
    constructor (modulus: nat)
      requires modulus >= 2
      ensures Valid() && Settled(State(), {}) && M == modulus && Now() == 0 && timers == map[]
    {
      M := modulus;
      pxCurrentTimerList, pxOverflowTimerList, xLastTime := [], [], 0;
      timers, callbacks, base, due, history := map[], [], 0, map[], map[];
      new;
      var none: seq<Entry> := [];
      assert Members(none) == {} == Window(due, base, M) == Window(due, base + M, M);
    }

    /** prvInitialiseNewTimer */
    method CreateTimer(t: TimerId, xTimerPeriodInTicks: nat, xAutoReload: bool)
      requires Valid() && Settled(State(), {}) && t !in timers && 0 < xTimerPeriodInTicks < M
      modifies this`timers, this`history
      ensures Valid() && Settled(State(), {})
      ensures timers == old(timers)[t := Timer(xTimerPeriodInTicks, xAutoReload, false)]
      ensures forall x :: x != t ==> Untouched(old(State()), State(), x)
    {
      hide Laws, Settled, Untouched, Match;
      CreateKeepsBooks(State(), t, Timer(xTimerPeriodInTicks, xAutoReload, false), Now());
      timers := timers[t := Timer(xTimerPeriodInTicks, xAutoReload, false)];
      history := history[t := History(Now(), 0, multiset(callbacks)[t])];
    }

    /** vListInsert into one of the two lists. */
    method ListInsert(t: TimerId, value: nat, overflow: bool, ghost time: nat)
      requires Lists() && t !in due && value < M
      requires time == base + value + (if overflow then M else 0)
      modifies this`pxCurrentTimerList, this`pxOverflowTimerList, this`due
      ensures Lists() && due == old(due)[t := time]
      ensures if overflow then pxCurrentTimerList == old(pxCurrentTimerList)
              else pxOverflowTimerList == old(pxOverflowTimerList)
    {
      hide Match, Insert;
      InsertMatches(pxCurrentTimerList, pxOverflowTimerList, due, base, M, t, time);
      if overflow {
        pxOverflowTimerList := Insert(pxOverflowTimerList, Entry(t, value));
      } else {
        pxCurrentTimerList := Insert(pxCurrentTimerList, Entry(t, value));
      }
      due := due[t := time];
    }

    /** prvInsertTimerInActiveList decides in unbounded time: the timer is to be processed
        now if and only if command time plus period has passed; otherwise it is listed under
        exactly that time. */
    method InsertTimerInActiveList(t: TimerId, xNextExpiryTime: nat, xTimeNow: nat, xCommandTime: nat,
                                   ghost command: nat)
      returns (xProcessTimerNow: bool)
      requires Lists() && t in timers && t !in due && xTimeNow < M
      requires command <= base + xTimeNow < command + M && Stamps(xCommandTime, command, base, M)
      requires xNextExpiryTime == Add(M, xCommandTime, timers[t].xTimerPeriodInTicks)
      modifies this`pxCurrentTimerList, this`pxOverflowTimerList, this`due
      ensures Lists()
      ensures var time := command + timers[t].xTimerPeriodInTicks;
              && (xProcessTimerNow <==> time <= base + xTimeNow)
              && due == (if xProcessTimerNow then old(due) else old(due)[t := time])
              && (xProcessTimerNow || time >= base + M ==> pxCurrentTimerList == old(pxCurrentTimerList))
              && (xProcessTimerNow || time < base + M ==> pxOverflowTimerList == old(pxOverflowTimerList))
    {
      ghost var time := command + timers[t].xTimerPeriodInTicks;
      WrappedDecisionIsExact(M, base, xTimeNow, command, xCommandTime, timers[t].xTimerPeriodInTicks);
      xProcessTimerNow := false;
      if xNextExpiryTime <= xTimeNow {
        if Sub(M, xTimeNow, xCommandTime) >= timers[t].xTimerPeriodInTicks {
          xProcessTimerNow := true;
        } else {
          ListInsert(t, xNextExpiryTime, true, time);
        }
      } else {
        if xTimeNow < xCommandTime && xNextExpiryTime >= xCommandTime {
          xProcessTimerNow := true;
        } else {
          ListInsert(t, xNextExpiryTime, false, time);
        }
      }
    }

    /** prvReloadTimer: the expiration at hand is the caller's to call back; this calls back
        for every further one that has passed, and lists the timer for the first that has
        not. */
    method ReloadTimer(t: TimerId, xExpired: nat, xTimeNow: nat, ghost start: nat, ghost fired: nat)
      returns (ghost further: nat)
      requires Lists() && t in timers && t !in due && xTimeNow < M
      requires var time := Expiry(start, timers[t].xTimerPeriodInTicks, fired);
               time <= base + xTimeNow < time + M && Stamps(xExpired, time, base, M)
      modifies this`pxCurrentTimerList, this`pxOverflowTimerList, this`due, this`callbacks
      ensures Lists()
      ensures var time := Expiry(start, timers[t].xTimerPeriodInTicks, fired + further + 1);
              && due == old(due)[t := time]
              && base + xTimeNow < time <= base + xTimeNow + timers[t].xTimerPeriodInTicks
              && (time >= base + M ==> pxCurrentTimerList == old(pxCurrentTimerList))
      ensures callbacks == old(callbacks) + Times(t, further)
    {
      hide Lists, Stamps, Add, ProcessNow, Expiry, Times;
      ListsMean();
      var xExpiredTime: nat := xExpired;
      ghost var period := timers[t].xTimerPeriodInTicks;
      ghost var expired := Expiry(start, period, fired);
      StampInRange(xExpired, expired, base, M);
      TimesIs(callbacks, t, 0);
      further := 0;
      var now := InsertTimerInActiveList(t, Add(M, xExpiredTime, timers[t].xTimerPeriodInTicks), xTimeNow,
                                         xExpiredTime, expired);
      while now
        invariant Lists() && xExpiredTime < M
        invariant expired <= base + xTimeNow < expired + M && Stamps(xExpiredTime, expired, base, M)
        invariant expired == Expiry(start, period, fired + further)
        invariant now <==> expired + period <= base + xTimeNow
        invariant due == if now then old(due) else old(due)[t := expired + period]
        invariant callbacks == old(callbacks) + Times(t, further)
        invariant now || expired + period >= base + M ==> pxCurrentTimerList == old(pxCurrentTimerList)
        decreases base + xTimeNow - expired
      {
        WrappedDecisionIsExact(M, base, xTimeNow, expired, xExpiredTime, period);
        xExpiredTime := Add(M, xExpiredTime, timers[t].xTimerPeriodInTicks);
        expired := expired + period;
        NextExpiry(start, period, fired + further);
        TimesIs(old(callbacks), t, further);
        callbacks := callbacks + [t];
        further := further + 1;
        now := InsertTimerInActiveList(t, Add(M, xExpiredTime, timers[t].xTimerPeriodInTicks), xTimeNow, xExpiredTime,
                                       expired);
      }
      NextExpiry(start, period, fired + further);
    }

    /** prvProcessExpiredTimer: the head of the current list has expired. */
    method ProcessExpiredTimer(xNextExpireTime: nat, xTimeNow: nat) returns (t: TimerId, ghost further: nat)
      requires Valid() && xTimeNow < M
      requires pxCurrentTimerList != [] && xNextExpireTime == pxCurrentTimerList[0].value <= xTimeNow
      modifies this`pxCurrentTimerList, this`pxOverflowTimerList, this`due, this`callbacks, this`history, this`timers
      ensures Lists()
      ensures t == old(pxCurrentTimerList)[0].owner && t in old(due) && old(due)[t] == base + xNextExpireTime
      ensures t in old(timers) && t in old(history)
      ensures State() == Expire(old(State()), t, further)
      ensures t in due ==> base + xTimeNow < due[t] <= base + xTimeNow + old(timers)[t].xTimerPeriodInTicks
      ensures (t in due ==> due[t] >= base + M) ==> pxCurrentTimerList == old(pxCurrentTimerList)[1..]
    {
      hide Lists, Laws;
      ghost var h;
      t, h := TakeHead();
      further := 0;
      var timer := timers[t];
      if timer.autoReload {
        further := ReloadTimer(t, xNextExpireTime, xTimeNow, h.start, h.fired);
      } else {
        Deactivate(t);
      }
      callbacks := callbacks + [t];
      history := history[t := h.(fired := h.fired + further + 1)];
      RelistedIs(old(due), t, Expiry(h.start, timer.xTimerPeriodInTicks, h.fired + further + 1));
      TimesIs(old(callbacks), t, further);
    }

    /** uxListRemove of the head of the current list. */
    method TakeHead() returns (t: TimerId, ghost h: History)
      requires Valid() && pxCurrentTimerList != []
      modifies this`pxCurrentTimerList, this`due
      ensures Lists() && t == old(pxCurrentTimerList)[0].owner
      ensures t in old(due) && old(due)[t] == base + old(pxCurrentTimerList)[0].value < base + M
      ensures due == old(due) - {t} && pxCurrentTimerList == old(pxCurrentTimerList)[1..]
      ensures t in timers && t in history && h == history[t] && Lawful(timers[t], h, old(due)[t])
    {
      hide Match, Lawful;
      HeadIsEarliest(pxCurrentTimerList, pxOverflowTimerList, due, base, M);
      t := pxCurrentTimerList[0].owner;
      TakeHeadMatches(pxCurrentTimerList, pxOverflowTimerList, due, base, M);
      pxCurrentTimerList := pxCurrentTimerList[1..];
      due := due - {t};
      h := history[t];
    }

    /** The call of prvProcessExpiredTimer, and what it does for the books since b. */
    method ExpireHead(xNextExpireTime: nat, xTimeNow: nat, ghost b: Books, ghost except: set<TimerId>)
      requires Valid() && xTimeNow < M && Settled(State(), except) && except !! due.Keys
      requires pxCurrentTimerList != [] && xNextExpireTime == pxCurrentTimerList[0].value <= xTimeNow
      requires Progress(b, State(), base + xTimeNow)
      modifies this`pxCurrentTimerList, this`pxOverflowTimerList, this`due, this`callbacks, this`history, this`timers
      ensures Valid() && Settled(State(), except) && except !! due.Keys
      ensures Progress(b, State(), base + xTimeNow)
      ensures Handled(old(State()), State(), old(pxCurrentTimerList)[0].owner, base + xTimeNow)
      ensures xTimeNow == M - 1 ==> pxCurrentTimerList == old(pxCurrentTimerList)[1..]
    {
      hide Lists, Laws, Settled, Progress, Handled, Untouched, State, Expire;
      ghost var c := State();
      HeadIsDue();
      StateHas();
      ghost var t, further;
      t, further := ProcessExpiredTimer(xNextExpireTime, xTimeNow);
      StateHas();
      ExpireKeepsBooks(c, t, further, except);
      ExpireHandles(c, t, further, base + xTimeNow);
      ExpireProgresses(b, c, t, further, base + xTimeNow);
    }

    /** prvSwitchTimerLists: what is left in the current list has expired; it is processed as
        of the last tick of the epoch, so nothing returns to the list being drained. */
    method SwitchTimerLists(ghost except: set<TimerId>)
      requires Valid() && Settled(State(), except) && except !! due.Keys
      modifies this`pxCurrentTimerList, this`pxOverflowTimerList, this`due, this`callbacks, this`history, this`timers
      modifies this`base
      ensures Valid() && Settled(State(), except) && except !! due.Keys
      ensures base == old(base) + M && pxOverflowTimerList == []
      ensures Progress(old(State()), State(), base - 1)
      ensures forall t :: t in due ==> base <= due[t]
    {
      hide Lists, Laws, Settled, Progress, State;
      ghost var b := State();
      ListsMean();
      NoProgress(b, base + M - 1);
      while pxCurrentTimerList != []
        invariant Valid() && Settled(State(), except) && except !! due.Keys
        invariant base == old(base) && Progress(b, State(), base + M - 1)
        decreases |pxCurrentTimerList|
      {
        HeadIsDue();
        ExpireHead(pxCurrentTimerList[0].value, M - 1, b, except);
      }
      ExchangeLists();
    }

    /** The exchange of the two list pointers when the current list has run empty. */
    method ExchangeLists()
      requires Lists() && pxCurrentTimerList == []
      modifies this`pxCurrentTimerList, this`pxOverflowTimerList, this`base
      ensures Lists() && base == old(base) + M && pxOverflowTimerList == []
      ensures forall t :: t in due ==> base <= due[t]
    {
      hide Match;
      SwitchMatches(pxOverflowTimerList, due, base, M);
      EmptyMeansLater(pxOverflowTimerList, due, base, M);
      pxCurrentTimerList, pxOverflowTimerList := pxOverflowTimerList, pxCurrentTimerList;
      base := base + M;
    }

    /** prvSampleTimeNow: as long as less than M ticks have passed since the last sample, a
        smaller count means one wrap, and the daemon knows the unbounded time. */
    method SampleTimeNow(xTickCount: nat, ghost time: nat, ghost except: set<TimerId>)
      returns (xTimeNow: nat, xTimerListsWereSwitched: bool)
      requires Valid() && Settled(State(), except) && except !! due.Keys
      requires xTickCount < M && Now() <= time < Now() + M
      requires time == base + xTickCount || time == base + M + xTickCount
      modifies this`pxCurrentTimerList, this`pxOverflowTimerList, this`due, this`callbacks, this`history, this`timers
      modifies this`base, this`xLastTime
      ensures Valid() && Settled(State(), except) && except !! due.Keys
      ensures Now() == time && xTimeNow == xTickCount == xLastTime
      ensures base == old(base) + (if xTimerListsWereSwitched then M else 0)
      ensures if xTimerListsWereSwitched then Progress(old(State()), State(), base - 1)
              else
                && State() == old(State())
                && pxCurrentTimerList == old(pxCurrentTimerList) && pxOverflowTimerList == old(pxOverflowTimerList)
    {
      xTimeNow := xTickCount;
      xTimerListsWereSwitched := xTimeNow < xLastTime;
      if xTimerListsWereSwitched {
        SwitchTimerLists(except);
      }
      xLastTime := xTimeNow;
    }

    /** prvGetNextExpireTime */
    method GetNextExpireTime() returns (xNextExpireTime: nat, xListWasEmpty: bool)
      requires Valid()
      ensures xListWasEmpty <==> pxCurrentTimerList == []
      ensures xNextExpireTime == if xListWasEmpty then 0 else pxCurrentTimerList[0].value
    {
      xListWasEmpty := pxCurrentTimerList == [];
      xNextExpireTime := if xListWasEmpty then 0 else pxCurrentTimerList[0].value;
    }

    /** prvProcessTimerOrBlockTask.  The daemon blocks only when nothing has expired, and then
        until the first expiry or the wrap of the tick count, whichever comes first; without
        limit exactly when no timer is listed. */
    method ProcessTimerOrBlockTask(xNextExpireTime: nat, xListWasEmpty: bool, xTickCount: nat, ghost time: nat)
      returns (action: Action)
      requires Valid() && Settled(State(), {})
      requires xListWasEmpty <==> pxCurrentTimerList == []
      requires xNextExpireTime == if xListWasEmpty then 0 else pxCurrentTimerList[0].value
      requires xTickCount < M && Now() <= time < Now() + M
      requires time == base + xTickCount || time == base + M + xTickCount
      modifies this`pxCurrentTimerList, this`pxOverflowTimerList, this`due, this`callbacks, this`history, this`timers
      modifies this`base, this`xLastTime
      ensures Valid() && Settled(State(), {}) && Now() == time && (base == old(base) || base == old(base) + M)
      ensures action == ListsSwitched <==> base == old(base) + M
      ensures Progress(old(State()), State(), if action == ListsSwitched then base - 1 else time)
      ensures action.Blocked? ==>
                && State() == old(State())
                && (forall t :: t in due ==> time < due[t]) && (action.indefinitely <==> due == map[])
      ensures old(Recent(State(), Now())) && action.Blocked? && !action.indefinitely ==>
                action.ticks > 0 && WakesFor(due, base + M, time + action.ticks)
      ensures action == TimerProcessed ==>
                && old(pxCurrentTimerList) != []
                && Handled(old(State()), State(), old(pxCurrentTimerList)[0].owner, time)
    {
      hide Lists, Laws, Settled, Progress, Handled, State, Recent;
      ghost var b, recent := State(), Recent(State(), Now());
      NoProgress(b, time);
      ListsMean();
      if pxCurrentTimerList != [] { HeadIsDue(); }
      var xTimeNow, switched := SampleTimeNow(xTickCount, time, {});
      if switched {
        action := ListsSwitched;
      } else if !xListWasEmpty && xNextExpireTime <= xTimeNow {
        ExpireHead(xNextExpireTime, xTimeNow, b, {});
        action := TimerProcessed;
      } else {
        var indefinitely := xListWasEmpty && pxOverflowTimerList == [];
        NothingExpired(xTimeNow);
        SomethingListed();
        if recent && xTimeNow == 0 && pxCurrentTimerList == [] { NothingForTheNextEpoch(); }
        action := Blocked(Sub(M, xNextExpireTime, xTimeNow), indefinitely);
      }
    }

    /** A list with a timer on it means a timer that is due. */
    lemma SomethingListed()
      requires Lists()
      ensures pxCurrentTimerList != [] || pxOverflowTimerList != [] ==> due != map[]
      ensures pxCurrentTimerList != [] ==>
                var e := pxCurrentTimerList[0]; e.owner in due && due[e.owner] == base + e.value
    {
      if pxCurrentTimerList != [] {
        HeadIsEarliest(pxCurrentTimerList, pxOverflowTimerList, due, base, M);
      } else if due == map[] {
        NoneLater(pxOverflowTimerList, due, base, M);
      }
    }

    /** At the beginning of an epoch no timer is armed for the next one, so a daemon with
        nothing on the current list has nothing at all to wait for. */
    lemma NothingForTheNextEpoch()
      requires Lists() && Recent(State(), base) && pxCurrentTimerList == []
      ensures pxOverflowTimerList == []
    {
      hide Match;
      NoneLater(pxOverflowTimerList, due, base, M);
    }

    lemma NothingExpired(xTimeNow: nat)
      requires Lists() && xTimeNow < M
      requires pxCurrentTimerList != [] ==> xTimeNow < pxCurrentTimerList[0].value
      ensures forall t :: t in due ==> base + xTimeNow < due[t]
      ensures pxCurrentTimerList != [] ==> pxCurrentTimerList[0].value < M
      ensures pxCurrentTimerList != [] ==> forall t :: t in due ==> base + pxCurrentTimerList[0].value <= due[t]
      ensures pxCurrentTimerList == [] ==> forall t :: t in due ==> base + M <= due[t]
      ensures pxCurrentTimerList == [] && pxOverflowTimerList == [] ==> due == map[]
    {
      if pxCurrentTimerList != [] {
        HeadIsEarliest(pxCurrentTimerList, pxOverflowTimerList, due, base, M);
      } else {
        EmptyMeansLater(pxOverflowTimerList, due, base, M);
        if pxOverflowTimerList == [] {
          SwitchMatches(pxOverflowTimerList, due, base, M);
          EmptyMeansLater([], due, base + M, M);
        }
      }
    }

    // ----- prvProcessReceivedCommands, one command at a time

    /** What every command begins with: the timer leaves its list, then the time is sampled. */
    method BeginCommand(t: TimerId, xTickCount: nat, ghost time: nat)
      requires Valid() && Settled(State(), {}) && t in timers
      requires xTickCount < M && Now() <= time < Now() + M
      requires time == base + xTickCount || time == base + M + xTickCount
      modifies this`pxCurrentTimerList, this`pxOverflowTimerList, this`due, this`callbacks, this`history, this`timers
      modifies this`base, this`xLastTime
      ensures Valid() && Settled(State(), {t}) && Now() == time && xLastTime == xTickCount
      ensures base == old(base) || base == old(base) + M
      ensures Begun(old(State()), State(), t, old(base), base)
    {
      hide Lists, Laws, Settled, Progress, State, Begun;
      StateHas();
      ghost var b := State();
      UnlistKeepsBooks(b, t);
      LeaveList(t);
      StateHas();
      var now, switched := SampleTimeNow(xTickCount, time, {t});
      BeginningIs(b, State(), t, old(base), base);
    }

    /** The timer leaves its list if it is on one. */
    method LeaveList(t: TimerId)
      requires Lists()
      modifies this`pxCurrentTimerList, this`pxOverflowTimerList, this`due
      ensures Lists() && State() == Unlisted(old(State()), t) && t !in due
    {
      ghost var d := due;
      RelistedIs(due, t, 0);
      FindMatches(pxCurrentTimerList, pxOverflowTimerList, due, base, M, t);
      hide Match, Find;
      if Find(pxCurrentTimerList, t) < |pxCurrentTimerList| || Find(pxOverflowTimerList, t) < |pxOverflowTimerList| {
        RemoveFromList(t);
      }
      assert due == d - {t};
    }

    /** uxListRemove, from whichever of the two lists holds the timer. */
    method RemoveFromList(t: TimerId)
      requires Lists() && t in due
      modifies this`pxCurrentTimerList, this`pxOverflowTimerList, this`due
      ensures Lists() && due == old(due) - {t}
    {
      hide Match, Without, Find;
      FindMatches(pxCurrentTimerList, pxOverflowTimerList, due, base, M, t);
      WithoutMatches(pxCurrentTimerList, pxOverflowTimerList, due, base, M, t);
      var i, j := Find(pxCurrentTimerList, t), Find(pxOverflowTimerList, t);
      if i < |pxCurrentTimerList| {
        pxCurrentTimerList := RemoveAt(pxCurrentTimerList, i);
      } else {
        pxOverflowTimerList := RemoveAt(pxOverflowTimerList, j);
      }
      due := due - {t};
    }

    /** tmrCOMMAND_START and tmrCOMMAND_RESET, issued at the unbounded time `command`: if the
        first expiry is still to come the timer is listed for it; otherwise it has expired,
        and every expiration up to now is called back. */
    method CommandStart(t: TimerId, xMessageValue: nat, xTickCount: nat, ghost time: nat, ghost command: nat)
      requires Valid() && Settled(State(), {}) && t in timers
      requires xTickCount < M && Now() <= time < Now() + M
      requires time == base + xTickCount || time == base + M + xTickCount
      requires command <= time < command + M && Stamps(xMessageValue, command, time - xTickCount, M)
      modifies this`pxCurrentTimerList, this`pxOverflowTimerList, this`due, this`callbacks, this`history, this`timers
      modifies this`base, this`xLastTime
      ensures Valid() && Settled(State(), {}) && Now() == time && (base == old(base) || base == old(base) + M)
      ensures OthersStand(old(State()), State(), t, old(base), base)
      ensures t in timers && t in history && history[t].start == command && history[t].before == old(State().Calls(t))
      ensures timers[t].xTimerPeriodInTicks == old(timers)[t].xTimerPeriodInTicks
              && timers[t].autoReload == old(timers)[t].autoReload
      ensures var period := timers[t].xTimerPeriodInTicks;
              if command + period > time then t in due && due[t] == command + period && history[t].fired == 0
              else if timers[t].autoReload then t in due && time < due[t] <= time + period && history[t].fired > 0
              else t !in due && !timers[t].active && history[t].fired == 1
    {
      hide Lists, Laws, Settled, State, OthersStand, Untouched;
      StateHas();
      BeginCommand(t, xTickCount, time);
      StateHas();
      ghost var m := State();
      StartTimer(t, xMessageValue, xTickCount, command);
      OthersStandThrough(old(State()), m, State(), t, old(base), base);
    }

    /** The switch case of the start and reset commands. */
    method StartTimer(t: TimerId, xMessageValue: nat, xTimeNow: nat, ghost command: nat)
      requires Valid() && Settled(State(), {t}) && t in timers && t !in due && xTimeNow == xLastTime
      requires command <= base + xTimeNow < command + M && Stamps(xMessageValue, command, base, M)
      modifies this`pxCurrentTimerList, this`pxOverflowTimerList, this`due, this`callbacks, this`history, this`timers
      ensures Valid() && Settled(State(), {}) && forall x :: x != t ==> Untouched(old(State()), State(), x)
      ensures t in timers && t in history && history[t].start == command && history[t].before == old(State().Calls(t))
      ensures timers[t].xTimerPeriodInTicks == old(timers)[t].xTimerPeriodInTicks
              && timers[t].autoReload == old(timers)[t].autoReload
      ensures var period, now := timers[t].xTimerPeriodInTicks, base + xTimeNow;
              if command + period > now then t in due && due[t] == command + period && history[t].fired == 0
              else if timers[t].autoReload then t in due && now < due[t] <= now + period && history[t].fired > 0
              else t !in due && !timers[t].active && history[t].fired == 1
    {
      hide Lists, Laws, Settled, Untouched, Stamps, Add, ProcessNow, Expire;
      ListsMean();
      ghost var b := State();
      var timer := timers[t].(active := true);
      assert {} + {t} == {t};
      RestartKeepsBooks(b, t, timer, command, {});
      BeginAnew(t, timer, command);
      StampInRange(xMessageValue, command, base, M);
      var xNextExpiryTime := Add(M, xMessageValue, timers[t].xTimerPeriodInTicks);
      var now := InsertTimerInActiveList(t, xNextExpiryTime, xTimeNow, xMessageValue, command);
      if now {
        WrappedDecisionIsExact(M, base, xTimeNow, command, xMessageValue, timer.xTimerPeriodInTicks);
        ghost var further := StartExpired(t, xNextExpiryTime, xTimeNow, b, timer, command);
        ExpireKeepsBooks(Restart(b, t, timer, command), t, further, {});
        UntouchedTwice(b, Restart(b, t, timer, command), State(), t);
      } else {
        assert State() == Restart(b, t, timer, command);
      }
    }

    /** The timer's new status and period are recorded, and its history begins anew. */
    method BeginAnew(t: TimerId, timer: Timer, ghost command: nat)
      requires Lists() && 0 < timer.xTimerPeriodInTicks < M
      modifies this`timers, this`history
      ensures Lists() && timers == old(timers)[t := timer]
      ensures history == old(history)[t := History(command, 0, old(State().Calls(t)))]
    {
      hide Match;
      timers := timers[t := timer];
      history := history[t := History(command, 0, State().Calls(t))];
    }

    /** The timer expired before it was added to a list. */
    method StartExpired(t: TimerId, xNextExpiryTime: nat, xTimeNow: nat,
                        ghost b: Books, ghost timer: Timer, ghost command: nat)
      returns (ghost further: nat)
      requires Lists() && Laws(b) && t in b.timers && t !in b.due && xTimeNow < M && timer.active
      requires timers == b.timers[t := timer] && due == b.due && callbacks == b.callbacks
      requires history == b.history[t := History(command, 0, b.Calls(t))]
      requires var time := command + timer.xTimerPeriodInTicks;
               time <= base + xTimeNow < time + M && Stamps(xNextExpiryTime, time, base, M)
      modifies this`pxCurrentTimerList, this`pxOverflowTimerList, this`due, this`callbacks, this`history, this`timers
      ensures Lists()
      ensures State() == Expire(Restart(b, t, timer, command), t, further)
      ensures t in timers && timers[t] == timer.(active := timer.autoReload)
      ensures t in history && history[t] == History(command, further + 1, b.Calls(t))
      ensures if timer.autoReload
              then t in due && base + xTimeNow < due[t] <= base + xTimeNow + timer.xTimerPeriodInTicks
              else t !in due && further == 0
    {
      hide Lists, Laws, Stamps, Expire, Restart, Expiry, Times;
      NextExpiry(command, timer.xTimerPeriodInTicks, 0);
      TimesIs(b.callbacks, t, 0);
      further := 0;
      if timers[t].autoReload {
        further := ReloadTimer(t, xNextExpiryTime, xTimeNow, command, 0);
      } else {
        Deactivate(t);
      }
      callbacks := callbacks + [t];
      history := history[t := history[t].(fired := further + 1)];
      TimesIs(b.callbacks, t, further);
      RestartThenExpire(b, t, timer, command, further);
    }

    /** The status bit of the timer is cleared. */
    method Deactivate(t: TimerId)
      requires Lists() && t in timers
      modifies this`timers
      ensures Lists() && t in old(State()).timers && State() == Stopped(old(State()), t)
      ensures timers == old(timers)[t := old(timers)[t].(active := false)]
    {
      hide Match;
      timers := timers[t := timers[t].(active := false)];
    }

    /** The memory of the timer is freed. */
    method Free(t: TimerId)
      requires Lists()
      modifies this`timers, this`history
      ensures Lists() && State() == Deleted(old(State()), t) && timers == old(timers) - {t}
    {
      hide Match;
      timers := timers - {t};
      history := history - {t};
    }

    /** tmrCOMMAND_STOP */
    method CommandStop(t: TimerId, xTickCount: nat, ghost time: nat)
      requires Valid() && Settled(State(), {}) && t in timers
      requires xTickCount < M && Now() <= time < Now() + M
      requires time == base + xTickCount || time == base + M + xTickCount
      modifies this`pxCurrentTimerList, this`pxOverflowTimerList, this`due, this`callbacks, this`history, this`timers
      modifies this`base, this`xLastTime
      ensures Valid() && Settled(State(), {}) && Now() == time && (base == old(base) || base == old(base) + M)
      ensures OthersStand(old(State()), State(), t, old(base), base)
      ensures t in timers && t !in due && timers[t] == old(timers)[t].(active := false)
      ensures State().Calls(t) == old(State().Calls(t))
    {
      hide Lists, Laws, Settled, State, OthersStand, Untouched;
      StateHas();
      BeginCommand(t, xTickCount, time);
      StateHas();
      ghost var m := State();
      StopKeepsBooks(m, t);
      Deactivate(t);
      OthersStandThrough(old(State()), m, State(), t, old(base), base);
    }

    /** tmrCOMMAND_CHANGE_PERIOD counts from now; it never finds the timer expired. */
    method CommandChangePeriod(t: TimerId, newPeriod: nat, xTickCount: nat, ghost time: nat)
      requires Valid() && Settled(State(), {}) && t in timers && 0 < newPeriod < M
      requires xTickCount < M && Now() <= time < Now() + M
      requires time == base + xTickCount || time == base + M + xTickCount
      modifies this`pxCurrentTimerList, this`pxOverflowTimerList, this`due, this`callbacks, this`history, this`timers
      modifies this`base, this`xLastTime
      ensures Valid() && Settled(State(), {}) && Now() == time && (base == old(base) || base == old(base) + M)
      ensures OthersStand(old(State()), State(), t, old(base), base)
      ensures t in timers && timers[t] == old(timers)[t].(active := true, xTimerPeriodInTicks := newPeriod)
      ensures t in due && due[t] == time + newPeriod
      ensures t in history && history[t] == History(time, 0, old(State().Calls(t)))
    {
      hide Lists, Laws, Settled, OthersStand, Untouched, Stamps, Add, ProcessNow;
      BeginCommand(t, xTickCount, time);
      ghost var b := State();
      RestartNow(t, newPeriod, xTickCount);
      OthersStandThrough(old(State()), b, State(), t, old(base), base);
    }

    /** The switch case of the command. */
    method RestartNow(t: TimerId, newPeriod: nat, xTimeNow: nat)
      requires Valid() && Settled(State(), {t}) && t in timers && t !in due && xTimeNow == xLastTime
               && 0 < newPeriod < M
      modifies this`pxCurrentTimerList, this`pxOverflowTimerList, this`due, this`history, this`timers
      ensures Valid() && Settled(State(), {}) && forall x :: x != t ==> Untouched(old(State()), State(), x)
      ensures timers == old(timers)[t := old(timers)[t].(active := true, xTimerPeriodInTicks := newPeriod)]
      ensures due == old(due)[t := base + xTimeNow + newPeriod]
      ensures history == old(history)[t := History(base + xTimeNow, 0, old(State().Calls(t)))]
    {
      hide Lists, Laws, Settled, Untouched, Stamps, Add, ProcessNow;
      ListsMean();
      ghost var b := State();
      var timer := timers[t].(active := true, xTimerPeriodInTicks := newPeriod);
      assert {} + {t} == {t};
      RestartKeepsBooks(b, t, timer, base + xTimeNow, {});
      BeginAnew(t, timer, base + xTimeNow);
      StampOfNow(xTimeNow, base, M);
      var now := InsertTimerInActiveList(t, Add(M, xTimeNow, newPeriod), xTimeNow, xTimeNow, base + xTimeNow);
      assert State() == Restart(b, t, timer, base + xTimeNow);
    }

    /** tmrCOMMAND_DELETE */
    method CommandDelete(t: TimerId, dynamicallyAllocated: bool, xTickCount: nat, ghost time: nat)
      requires Valid() && Settled(State(), {}) && t in timers
      requires xTickCount < M && Now() <= time < Now() + M
      requires time == base + xTickCount || time == base + M + xTickCount
      modifies this`pxCurrentTimerList, this`pxOverflowTimerList, this`due, this`callbacks, this`history, this`timers
      modifies this`base, this`xLastTime
      ensures Valid() && Settled(State(), {}) && Now() == time && (base == old(base) || base == old(base) + M)
      ensures OthersStand(old(State()), State(), t, old(base), base)
      ensures t !in due && (t in timers <==> !dynamicallyAllocated) && (t in timers ==> !timers[t].active)
    {
      hide Lists, Laws, Settled, State, OthersStand, Untouched;
      BeginCommand(t, xTickCount, time);
      StateHas();
      ghost var m := State();
      if dynamicallyAllocated {
        DeleteKeepsBooks(m, t);
        Free(t);
      } else {
        StopKeepsBooks(m, t);
        Deactivate(t);
      }
      OthersStandThrough(old(State()), m, State(), t, old(base), base);
    }
  }
}
