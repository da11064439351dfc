/** The timer task: the loop of prvTimerTask and the loop of prvProcessReceivedCommands, run
    over any sequence of rounds and commands.  What the task reads off the clock and what a
    command carries are wrapped; ghost values say which unbounded times are meant. */
module TimerTask {
  import opened Arithmetic
  import opened TwoLists
  import opened Timers

  /** A round of prvProcessTimerOrBlockTask, or a command taken from the queue, with the tick
      count that is read in it. */
  datatype Event =
    | Round(xTickCount: nat)
    | Received(t: TimerId, command: Command, xMessageValue: nat, xTickCount: nat)

  /** The unbounded time of an event, and for a start command that of its issue. */
  datatype At = At(time: nat, command: nat)

  predicate IsAbout(e: Event, t: TimerId) {
    e.Received? && e.t == t
  }

  /** The timers that exist after an event. */
  function Known(known: set<TimerId>, e: Event): set<TimerId> {
    if e.Received? && e.command == Delete(true) then known - {e.t} else known
  }

  /** Less than M ticks since the last reading, commands to timers that exist, periods in
      range, and start commands less than M ticks old. */
  ghost predicate Fits(M: nat, base: nat, last: nat, known: set<TimerId>, e: Event, at: At) {
    && e.xTickCount < M && base + last <= at.time < base + last + M
    && (at.time == base + e.xTickCount || at.time == base + M + e.xTickCount)
    && (e.Received? ==>
          && e.t in known
          && (e.command.ChangePeriod? ==> 0 < e.command.newPeriod < M)
          && (e.command == Start ==>
                at.command <= at.time < at.command + M
                  && Stamps(e.xMessageValue, at.command, at.time - e.xTickCount, M)))
  }

  ghost predicate AllFit(M: nat, base: nat, last: nat, known: set<TimerId>, events: seq<Event>, ats: seq<At>)
    requires |events| == |ats|
    decreases |events|
  {
    events != [] ==>
      && Fits(M, base, last, known, events[0], ats[0])
      && AllFit(M, ats[0].time - events[0].xTickCount, events[0].xTickCount, Known(known, events[0]), events[1..],
                ats[1..])
  }

  /** The daemon between two events. */
  ghost predicate Ready(d: TimerDaemon)
    reads d
  {
    d.Valid() && Settled(d.State(), {}) && Recent(d.State(), d.Now())
  }

  /** All timers but t, if there is a t, are untouched or were processed up to the limit. */
  ghost predicate Others(b: Books, c: Books, e: Event, limit: nat) {
    forall x :: !IsAbout(e, x) ==> Untouched(b, c, x) || Handled(b, c, x, limit)
  }

  /** One round of the timer task. */
  method RunRound(d: TimerDaemon, xTickCount: nat, ghost time: nat) returns (action: Action, ghost limit: nat)
    requires Ready(d)
    requires xTickCount < d.M && d.Now() <= time < d.Now() + d.M
    requires time == d.base + xTickCount || time == d.base + d.M + xTickCount
    modifies d
    ensures Ready(d) && d.Now() == time && d.base == time - xTickCount && limit <= time
    ensures Progress(old(d.State()), d.State(), limit)
    ensures action.Blocked? ==> forall t :: t in d.due ==> time < d.due[t]
    ensures action.Blocked? ==> (action.indefinitely <==> d.due == map[])
    ensures action.Blocked? && !action.indefinitely ==>
              action.ticks > 0 && WakesFor(d.due, d.base + d.M, time + action.ticks)
    ensures action == TimerProcessed ==> exists t :: Handled(old(d.State()), d.State(), t, time)
    ensures action == TimerProcessed ==> limit == time
    ensures action == ListsSwitched <==> d.base == old(d.base) + d.M
  {
    var next, empty := d.GetNextExpireTime();
    action := d.ProcessTimerOrBlockTask(next, empty, xTickCount, time);
    limit := if action == ListsSwitched then d.base - 1 else time;
    StaysRecent(old(d.State()), d.State(), old(d.Now()), time, limit, {});
  }

  /** One command of prvProcessReceivedCommands. */
  method RunCommand(d: TimerDaemon, e: Event, ghost at: At) returns (ghost limit: nat)
    requires Ready(d) && e.Received? && Fits(d.M, d.base, d.xLastTime, d.timers.Keys, e, at)
    modifies d
    ensures Ready(d) && d.Now() == at.time && d.base == at.time - e.xTickCount && limit <= at.time
    ensures Others(old(d.State()), d.State(), e, limit)
    ensures d.timers.Keys == Known(old(d.timers.Keys), e)
  {
    hide TimerDaemon.Lists, TimerDaemon.State, Laws, Settled, Recent, OthersStand, Untouched, Handled, Stamps, Others;
    d.StateHas();
    ghost var b, last, base := d.State(), d.Now(), d.base;
    match e.command {
      case Start => d.CommandStart(e.t, e.xMessageValue, e.xTickCount, at.time, at.command);
      case Stop => d.CommandStop(e.t, e.xTickCount, at.time);
      case ChangePeriod(newPeriod) => d.CommandChangePeriod(e.t, newPeriod, e.xTickCount, at.time);
      case Delete(dynamic) => d.CommandDelete(e.t, dynamic, e.xTickCount, at.time);
    }
    d.StateHas();
    d.ListsMean();
    limit := if d.base > base then d.base - 1 else 0;
    OthersAfterCommand(b, d.State(), e, base, d.base, limit);
    StaysRecent(b, d.State(), last, at.time, limit, {e.t});
    KeysAfter(b, d.State(), e, limit);
  }

  lemma OthersAfterCommand(b: Books, c: Books, e: Event, before: nat, after: nat, limit: nat)
    requires e.Received? && OthersStand(b, c, e.t, before, after) && (after > before ==> limit == after - 1)
    ensures Others(b, c, e, limit)
    ensures forall x :: x !in {e.t} ==> Untouched(b, c, x) || Handled(b, c, x, limit)
  {
  }

  /** No event but a deletion takes a timer away, and none brings one. */
  lemma KeysAfter(b: Books, c: Books, e: Event, limit: nat)
    requires Others(b, c, e, limit)
    requires e.Received? ==> e.t in b.timers && (e.t in c.timers <==> e.command != Delete(true))
    ensures c.timers.Keys == Known(b.timers.Keys, e)
  {
    forall x ensures x in c.timers.Keys <==> x in Known(b.timers.Keys, e) {
      if !IsAbout(e, x) {
        assert Untouched(b, c, x) || Handled(b, c, x, limit);
      }
    }
  }

  /** One event of either kind. */
  method Run(d: TimerDaemon, e: Event, ghost at: At) returns (ghost limit: nat)
    requires Ready(d) && Fits(d.M, d.base, d.xLastTime, d.timers.Keys, e, at)
    modifies d
    ensures Ready(d) && d.Now() == at.time && d.base == at.time - e.xTickCount && limit <= at.time
    ensures Others(old(d.State()), d.State(), e, limit)
    ensures d.timers.Keys == Known(old(d.timers.Keys), e)
  {
    if e.Round? {
      var action;
      action, limit := RunRound(d, e.xTickCount, at.time);
      OthersAfterRound(old(d.State()), d.State(), e, limit);
      KeysAfter(old(d.State()), d.State(), e, limit);
    } else {
      limit := RunCommand(d, e, at);
    }
  }

  lemma OthersAfterRound(b: Books, c: Books, e: Event, limit: nat)
    requires e.Round? && Progress(b, c, limit)
    ensures Others(b, c, e, limit)
  {
  }

  /** A listed auto-reload timer, and no command about it. */
  ghost predicate RunsFree(b: Books, events: seq<Event>, t: TimerId) {
    t in b.due && t in b.timers && b.timers[t].autoReload && forall e :: e in events ==> !IsAbout(e, t)
  }

  /** What holds of a timer that has been running by itself: it is still listed, with its last
      start as it was; its callbacks since then are the expiries before the one it is armed
      for; and once that one lies ahead, they are one for each period that has elapsed. */
  ghost predicate KeepsTime(b: Books, c: Books, t: TimerId, now: nat) {
    && Carried(b, c, t) && c.timers[t].xTimerPeriodInTicks > 0
    && var period, start, made := c.timers[t].xTimerPeriodInTicks, c.history[t].start, c.Calls(t) - c.history[t].before;
       && (made + 1) * period == c.due[t] - start
       && (now < c.due[t] ==> start <= now && made == (now - start) / period)
  }

  lemma CarriedKeepsTime(b: Books, c: Books, t: TimerId, now: nat)
    requires Laws(c) && Settled(c, {}) && Recent(c, now) && Carried(b, c, t) && c.timers[t].xTimerPeriodInTicks > 0
    ensures KeepsTime(b, c, t, now)
  {
    CallbacksMatchArmedExpiry(c, t);
    if now < c.due[t] {
      OneCallbackPerPeriod(c, t, now);
    }
  }

  lemma CarriedOn(a: Books, b: Books, c: Books, e: Event, limit: nat, t: TimerId)
    requires Carried(a, b, t) && a.timers[t].autoReload && Laws(b) && Others(b, c, e, limit) && !IsAbout(e, t)
    ensures Carried(a, c, t)
  {
    AutoReloadIsCarried(b, c, t, limit);
  }

  /** The books after each event of a run. */
  ghost predicate Trace(bs: seq<Books>, events: seq<Event>, limits: seq<nat>) {
    && |bs| == |events| + 1 == |limits| + 1
    && (forall i :: 0 <= i < |bs| ==> Laws(bs[i]))
    && (forall i :: 0 <= i < |events| ==> Others(bs[i], bs[i + 1], events[i], limits[i]))
  }

  /** Whatever happens to other timers, for however long, a timer that runs free keeps its
      start and loses no callback. */
  lemma {:induction false} RunsFreeForever(bs: seq<Books>, events: seq<Event>, limits: seq<nat>, t: TimerId, now: nat)
    requires Trace(bs, events, limits) && RunsFree(bs[0], events, t) && bs[0].timers[t].xTimerPeriodInTicks > 0
    requires var c := bs[|events|]; Settled(c, {}) && Recent(c, now)
    ensures KeepsTime(bs[0], bs[|events|], t, now)
  {
    var i := 0;
    while i < |events|
      invariant i <= |events| && Carried(bs[0], bs[i], t)
    {
      CarriedOn(bs[0], bs[i], bs[i + 1], events[i], limits[i], t);
      i := i + 1;
    }
    CarriedKeepsTime(bs[0], bs[i], t, now);
  }

  lemma AllCarriedOn(a: Books, b: Books, c: Books, events: seq<Event>, e: Event, limit: nat)
    requires Laws(b) && Others(b, c, e, limit) && (e.Round? || e in events)
    requires forall t :: RunsFree(a, events, t) ==> Carried(a, b, t)
    ensures forall t :: RunsFree(a, events, t) ==> Carried(a, c, t)
  {
    hide Carried, Others, Laws;
    forall t | RunsFree(a, events, t) ensures Carried(a, c, t) {
      CarriedOn(a, b, c, e, limit, t);
    }
  }

  lemma AllKeepTime(b: Books, c: Books, events: seq<Event>, now: nat)
    requires Laws(c) && Settled(c, {}) && Recent(c, now)
    requires forall t :: t in c.timers ==> c.timers[t].xTimerPeriodInTicks > 0
    requires forall t :: RunsFree(b, events, t) ==> Carried(b, c, t)
    ensures forall t :: RunsFree(b, events, t) ==> KeepsTime(b, c, t, now)
  {
    hide Laws, Settled, Recent, KeepsTime, RunsFree;
    forall t | RunsFree(b, events, t) ensures KeepsTime(b, c, t, now) {
      CarriedKeepsTime(b, c, t, now);
    }
  }

  lemma AllCarriedAtFirst(b: Books, events: seq<Event>)
    requires Laws(b)
    ensures forall t :: RunsFree(b, events, t) ==> Carried(b, b, t)
  {
  }

  /** Over any sequence of rounds and of commands to other timers, whatever wraps come between,
      every listed auto-reload timer keeps time. */
  method RunEvents(d: TimerDaemon, events: seq<Event>, ghost ats: seq<At>)
    requires Ready(d) && |events| == |ats| && AllFit(d.M, d.base, d.xLastTime, d.timers.Keys, events, ats)
    modifies d
    ensures Ready(d) && (events != [] ==> d.Now() == ats[|ats| - 1].time)
    ensures forall t :: RunsFree(old(d.State()), events, t) ==> KeepsTime(old(d.State()), d.State(), t, d.Now())
  {
    hide TimerDaemon.Lists, TimerDaemon.State, Laws, Settled, Recent, Others, RunsFree, Carried, KeepsTime, Fits;
    ghost var b := d.State();
    AllCarriedAtFirst(b, events);
    var i := 0;
    while i < |events|
      invariant i <= |events| && Ready(d) && (i > 0 ==> d.Now() == ats[i - 1].time)
      invariant AllFit(d.M, d.base, d.xLastTime, d.timers.Keys, events[i..], ats[i..])
      invariant forall t :: RunsFree(b, events, t) ==> Carried(b, d.State(), t)
    {
      ghost var c := d.State();
      assert events[i..][0] == events[i] && events[i..][1..] == events[i + 1..];
      assert ats[i..][0] == ats[i] && ats[i..][1..] == ats[i + 1..];
      ghost var limit := Run(d, events[i], ats[i]);
      AllCarriedOn(b, c, d.State(), events, events[i], limit);
      i := i + 1;
    }
    d.ListsMean();
    d.StateHas();
    AllKeepTime(b, d.State(), events, d.Now());
  }

  // ----- catching up

  ghost function Overdue(b: Books, time: nat): set<TimerId> {
    set t | t in b.due && b.due[t] <= time
  }

  /** A round makes no timer overdue that was not, and one that processes a timer leaves one
      fewer. */
  lemma OverdueShrinks(b: Books, c: Books, limit: nat, time: nat)
    requires Progress(b, c, limit) && limit <= time
    ensures Overdue(c, time) <= Overdue(b, time)
    ensures limit == time && (exists t :: Handled(b, c, t, time)) ==> |Overdue(c, time)| < |Overdue(b, time)|
  {
    forall x | x in Overdue(c, time) ensures x in Overdue(b, time) {
      assert Untouched(b, c, x) || Handled(b, c, x, limit);
    }
    if limit == time {
      if t :| Handled(b, c, t, time) {
        assert t in Overdue(b, time) && t !in Overdue(c, time);
        Fewer(Overdue(c, time), Overdue(b, time), t);
      }
    }
  }

  lemma Fewer<T>(a: set<T>, b: set<T>, t: T)
    requires a <= b && t in b && t !in a
    ensures |a| < |b|
  {
    assert |b - a| > 0;
    assert b == a + (b - a);
  }

  /** Rounds at one reading of the clock end in a round that blocks, and then every timer's
      next expiry lies ahead: every auto-reload timer that was listed has been called back
      exactly once for each period that has elapsed since its start. */
  method CatchUp(d: TimerDaemon, xTickCount: nat, ghost time: nat)
    requires Ready(d) && Fits(d.M, d.base, d.xLastTime, d.timers.Keys, Round(xTickCount), At(time, 0))
    modifies d
    ensures Ready(d) && d.Now() == time && forall t :: t in d.due ==> time < d.due[t]
    ensures forall t :: RunsFree(old(d.State()), [], t) ==> KeepsTime(old(d.State()), d.State(), t, time)
  {
    hide TimerDaemon.Lists, TimerDaemon.State, Laws, Settled, Recent, Progress, Handled, RunsFree, Carried, KeepsTime,
         Overdue, Others;
    ghost var b, limit := d.State(), 0;
    AllCarriedAtFirst(b, []);
    var action;
    action, limit := RunRound(d, xTickCount, time);
    OthersAfterRound(b, d.State(), Round(xTickCount), limit);
    AllCarriedOn(b, b, d.State(), [], Round(xTickCount), limit);
    while !action.Blocked?
      invariant Ready(d) && d.Now() == time && d.base == time - xTickCount
      invariant action.Blocked? ==> forall t :: t in d.due ==> time < d.due[t]
      invariant forall t :: RunsFree(b, [], t) ==> Carried(b, d.State(), t)
      decreases |Overdue(d.State(), time)|, if action.Blocked? then 0 else 1
    {
      ghost var c := d.State();
      action, limit := RunRound(d, xTickCount, time);
      OverdueShrinks(c, d.State(), limit, time);
      SmallerSet(Overdue(d.State(), time), Overdue(c, time));
      OthersAfterRound(c, d.State(), Round(xTickCount), limit);
      AllCarriedOn(b, c, d.State(), [], Round(xTickCount), limit);
    }
    d.ListsMean();
    d.StateHas();
    AllKeepTime(b, d.State(), [], time);
  }
}
