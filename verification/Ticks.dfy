/** The tick interrupt and the deferral of ticks and of wake-ups while the scheduler is
    suspended, as functions on the scheduler's state, related to unbounded time. */
module Ticks {
  import opened ListSpec
  import opened TwoLists
  import opened Priorities
  import opened Scheduler

  // ----- what one tick does

  /** prvResetNextTaskUnblockTime */
  function NextUnblock(delayed: seq<Entry>, m: Modulus): nat
  {
    if delayed == [] then m - 1 else delayed[0].value
  }

  function SwapPlace(p: Place): Place {
    match p
    case Delayed => Overflow
    case Overflow => Delayed
    case _ => p
  }

  function SwapPlaces(place: map<Task, Place>): map<Task, Place> {
    map t | t in place :: SwapPlace(place[t])
  }

  function SwappedLists(l: TaskLists): TaskLists {
    l.(place := SwapPlaces(l.place), delayed := l.overflow, overflow := l.delayed)
  }

  /** taskSWITCH_DELAYED_LISTS */
  function SwitchDelayedLists(s: Sched): Sched
  {
    s.(lists := SwappedLists(s.lists), base := s.base + s.m, overflows := s.overflows + 1,
       next := NextUnblock(s.lists.overflow, s.m))
  }

  /** The head of the delayed list leaves it for its ready list, and whatever event list
      the task is on. */
  function WakeHead(s: Sched): Sched
    requires s.lists.delayed != []
  {
    var l, t := s.lists, s.lists.delayed[0].owner;
    s.(lists := AddReady(l.(place := l.place - {t}, due := l.due - {t}, delayed := l.delayed[1..]), s.prios.Of(t), t),
       onEvent := s.onEvent - {t})
  }

  /** The loop of xTaskIncrementTick, and whether it has woken a task above the running one. */
  function Unblock(s: Sched): (Sched, bool)
    decreases |s.lists.delayed|
  {
    if s.lists.delayed == [] then (s.(next := s.m - 1), false)
    else if s.tick < s.lists.delayed[0].value then (s.(next := s.lists.delayed[0].value), false)
    else
      var r := Unblock(WakeHead(s));
      (r.0, r.1 || s.prios.Of(s.lists.delayed[0].owner) > s.prios.Of(s.current))
  }

  /** More than one ready task at the priority of the running one. */
  predicate SharesPriority(s: Sched) {
    var p := s.prios.Of(s.current);
    p < |s.lists.ready| && |s.lists.ready[p].items| > 1
  }

  function Advanced(s: Sched): Sched
  {
    var s := s.(tick := if s.tick + 1 == s.m then 0 else s.tick + 1);
    if s.tick == 0 then SwitchDelayedLists(s) else s
  }

  /** xTaskIncrementTick while the scheduler is not suspended, and whether it asks for a
      context switch. */
  function TickOnce(s: Sched): (Sched, bool)
  {
    var s := Advanced(s);
    var r := if s.tick >= s.next then Unblock(s) else (s, false);
    (r.0, r.1 || SharesPriority(r.0) || r.0.yieldPending)
  }

  // ----- and what that means in unbounded time

  function Expired(due: map<Task, nat>, now: nat): set<Task> {
    set t | t in due && due[t] <= now
  }

  /** The tasks of a set become ready at their priorities, all others stay where they are. */
  function Readied(place: map<Task, Place>, ts: set<Task>, ps: Prios): map<Task, Place> {
    map t | t in place :: if t in ts then Ready(ps.Of(t)) else place[t]
  }

  lemma SwapKeepsHomes(l: TaskLists, ps: Prios, base: nat, m: Modulus)
    requires Homes(l, ps, base, m) && l.delayed == []
    ensures Homes(SwappedLists(l), ps, base + m, m)
  {
    hide ReadyPart, SuspendedPart, DelayPart;
    SwapReady(l, ps);
    SwapSuspended(l);
    SwapDelay(l, base, m);
  }

  lemma SwapReady(l: TaskLists, ps: Prios)
    requires ReadyPart(l.ready, l.top, l.place, ps)
    ensures ReadyPart(l.ready, l.top, SwapPlaces(l.place), ps)
  {
    var place := SwapPlaces(l.place);
    forall k: Place | k.Ready? ensures At(place, k) == At(l.place, k) {}
    SameReadyLists(l.ready, l.place, l.ready, place, |l.ready|);
  }

  lemma SwapSuspended(l: TaskLists)
    requires SuspendedPart(l.suspended, l.place)
    ensures SuspendedPart(l.suspended, SwapPlaces(l.place))
  {
    assert At(SwapPlaces(l.place), Suspended) == At(l.place, Suspended);
  }

  lemma SwapDelay(l: TaskLists, base: nat, m: Modulus)
    requires DelayPart(l.delayed, l.overflow, l.due, base, m, l.place) && l.delayed == []
    ensures DelayPart(l.overflow, [], l.due, base + m, m, SwapPlaces(l.place))
  {
    SwitchMatches(l.overflow, l.due, base, m);
    EmptyMeansLater(l.overflow, l.due, base, m);
    hide Match;
  }

  lemma NoneDelayed(l: TaskLists, ps: Prios, base: nat, m: Modulus)
    requires Homes(l, ps, base, m) && l.delayed == []
    ensures forall t :: t in l.due ==> base + m <= l.due[t]
  {
    EmptyMeansLater(l.overflow, l.due, base, m);
  }

  /** The head of the delayed list is the task that is due first. */
  lemma HeadOfDelayed(l: TaskLists, ps: Prios, base: nat, m: Modulus)
    requires Homes(l, ps, base, m) && l.delayed != []
    ensures var t := l.delayed[0].owner;
            && t in l.place && l.place[t] == Delayed && t in ps.prio
            && t in l.due && l.due[t] == base + l.delayed[0].value && l.delayed[0].value < m
            && (forall x :: x in l.due ==> l.due[t] <= l.due[x])
            && EntriesWithout(l.delayed, t) == l.delayed[1..]
  {
    hide ReadyLists, SuspendedPart;
    HeadIsEarliest(l.delayed, l.overflow, l.due, base, m);
  }

  lemma WakeHeadKeepsHomes(s: Sched)
    requires Homes(s.lists, s.prios, s.base, s.m) && s.lists.delayed != []
    ensures var t, l := s.lists.delayed[0].owner, WakeHead(s).lists;
            && l.place == s.lists.place[t := Ready(s.prios.Of(t))] && l.due == s.lists.due - {t}
            && l.delayed == s.lists.delayed[1..]
            && Homes(l, s.prios, s.base, s.m)
            && WakeHead(s) == s.(lists := MakeReady(s.lists, s.prios, t), onEvent := s.onEvent - {t})
  {
    hide ReadyPart, SuspendedPart, DelayPart;
    var l, t := s.lists, s.lists.delayed[0].owner;
    HeadOfDelayed(l, s.prios, s.base, s.m);
    MakeReadyKeepsHomes(l, s.prios, s.base, s.m, t);
  }

  /** What is left after the loop, seen as one step. */
  ghost predicate Woken(before: Sched, after: Sched) {
    var ts := Expired(before.lists.due, before.Now());
    && after.lists.due == before.lists.due - ts
    && after.lists.place == Readied(before.lists.place, ts, before.prios)
    && after.onEvent == before.onEvent - ts
    && after == before.(lists := after.lists, onEvent := after.onEvent, next := after.next)
  }

  lemma NoneWoken(s: Sched, next: nat)
    requires Expired(s.lists.due, s.Now()) == {}
    ensures Woken(s, s.(next := next))
  {
  }

  lemma OneWokenThenMore(s: Sched, w: Sched, r: Sched, t: Task)
    requires t in s.lists.place && t in s.lists.due && s.lists.due[t] <= s.Now()
    requires w == s.(lists := w.lists, onEvent := s.onEvent - {t})
    requires w.lists.place == s.lists.place[t := Ready(s.prios.Of(t))] && w.lists.due == s.lists.due - {t}
    requires Woken(w, r)
    ensures Woken(s, r)
  {
    assert Expired(s.lists.due, s.Now()) == Expired(w.lists.due, w.Now()) + {t};
  }

  /** The loop wakes exactly the tasks whose time has come, and leaves the next unblock time
      at the earliest wake time in the list, or at its maximum. */
  lemma {:induction false} UnblockExact(s: Sched)
    requires Homes(s.lists, s.prios, s.base, s.m) && s.tick < s.m
    ensures var r := Unblock(s).0;
            && Woken(s, r)
            && Homes(r.lists, s.prios, s.base, s.m) && Clock(r.lists.due, s.base, s.tick, r.next, s.m)
    decreases |s.lists.delayed|
  {
    hide Homes, Woken;
    var l := s.lists;
    if l.delayed == [] {
      NoneDelayed(l, s.prios, s.base, s.m);
      NoneWoken(s, s.m - 1);
    } else {
      HeadOfDelayed(l, s.prios, s.base, s.m);
      if s.tick < l.delayed[0].value {
        NoneWoken(s, l.delayed[0].value);
      } else {
        WakeHeadKeepsHomes(s);
        UnblockExact(WakeHead(s));
        OneWokenThenMore(s, WakeHead(s), Unblock(s).0, l.delayed[0].owner);
      }
    }
  }

  /** Where the tasks are, not minding on which side of the wrap they wake. */
  function Standings(place: map<Task, Place>): map<Task, Place> {
    map t | t in place :: if place[t] == Overflow then Delayed else place[t]
  }

  /** From s to r exactly the tasks of a set have become ready. */
  ghost predicate Moved(s: Sched, r: Sched, ts: set<Task>) {
    && r.lists.due == s.lists.due - ts
    && Standings(r.lists.place) == Readied(Standings(s.lists.place), ts, s.prios)
    && r.onEvent == s.onEvent - ts
  }

  /** From s to r, k ticks of unbounded time have passed: exactly the delayed tasks whose
      time has come have left the delayed lists and the event lists for the ready lists of
      their priorities, and nothing else has happened. */
  ghost predicate Passed(s: Sched, r: Sched, k: nat) {
    && r.Now() == s.Now() + k
    && Moved(s, r, Expired(s.lists.due, s.Now() + k))
    && r == s.(lists := r.lists, onEvent := r.onEvent, next := r.next, tick := r.tick, base := r.base,
               overflows := r.overflows)
  }

  lemma PassedCompose(s: Sched, q: Sched, r: Sched, a: nat, b: nat, k: nat)
    requires Passed(s, q, a) && Passed(q, r, b) && a + b == k
    ensures Passed(s, r, k)
  {
    assert Expired(s.lists.due, s.Now() + a + b) ==
           Expired(s.lists.due, s.Now() + a) + Expired(q.lists.due, q.Now() + b);
    assert Readied(Standings(s.lists.place), Expired(s.lists.due, s.Now() + a + b), s.prios)
        == Readied(Standings(q.lists.place), Expired(q.lists.due, q.Now() + b), s.prios);
  }

  /** Advancing the tick count, and changing the lists at the wrap, when the list for the
      epoch that ends has run empty. */
  lemma AdvancedIsLater(s: Sched)
    requires Core(s)
    ensures s.tick == s.m - 1 ==> s.lists.delayed == []
    ensures var a := Advanced(s);
            && Homes(a.lists, s.prios, a.base, s.m) && a.tick < s.m && a.next < s.m
            && a.Now() == s.Now() + 1 && a.lists.due == s.lists.due
            && Standings(a.lists.place) == Standings(s.lists.place)
            && (forall t :: t in a.lists.due ==> a.base + a.next <= a.lists.due[t])
            && a == s.(lists := a.lists, next := a.next, tick := a.tick, base := a.base, overflows := a.overflows)
  {
    hide ReadyPart, SuspendedPart, DelayPart;
    var a, l := Advanced(s), s.lists;
    if s.tick == s.m - 1 {
      if l.delayed != [] {
        HeadOfDelayed(l, s.prios, s.base, s.m);
        assert false;
      }
      SwapKeepsHomes(l, s.prios, s.base, s.m);
      if l.overflow != [] {
        HeadOfDelayed(a.lists, s.prios, a.base, s.m);
      } else {
        NoneDelayed(a.lists, s.prios, a.base, s.m);
      }
    }
  }

  /** The invariant outlives a change in which some tasks became ready. */
  lemma MovedKeepsTasks(s: Sched, r: Sched, ts: set<Task>)
    requires Moved(s, r, ts)
    ensures Tasks(s.lists.place, s.prios.prio, s.current, s.idle) ==>
            Tasks(r.lists.place, s.prios.prio, s.current, s.idle)
    ensures s.pending == [] && Events(s.pending, s.onEvent, s.lists.place) ==>
            Events(s.pending, r.onEvent, r.lists.place)
  {
    var p, q := s.lists.place, r.lists.place;
    assert Standings(q).Keys == Readied(Standings(p), ts, s.prios).Keys;
    forall t | t in p
      ensures t in q && (q[t].Ready? <==> t in ts || p[t].Ready?)
    {
      assert t in Readied(Standings(p), ts, s.prios);
      assert Standings(q)[t] == Readied(Standings(p), ts, s.prios)[t];
    }
    forall t | t in q ensures t in p { assert t in Standings(q); }
  }

  /** A tick passes one unit of unbounded time: whoever is due at the new time becomes ready
      at exactly this tick, nobody else does, on whichever side of the wrap it is. */
  lemma TickExact(s: Sched)
    requires Core(s) && s.pending == []
    ensures var r := TickOnce(s).0; Core(r) && Passed(s, r, 1)
  {
    hide Homes, Tasks, Events, Moved, Woken, Unblock, SwitchDelayedLists;
    AdvancedIsLater(s);
    var a, r := Advanced(s), TickOnce(s).0;
    hide Advanced;
    AfterLoop(a);
    WokenIsMoved(s, a, r);
    hide TickOnce;
    MovedKeepsTasks(s, r, Expired(s.lists.due, s.Now() + 1));
  }

  /** The loop, or skipping it because the next unblock time has not been reached. */
  lemma AfterLoop(a: Sched)
    requires Homes(a.lists, a.prios, a.base, a.m) && a.tick < a.m && a.next < a.m
    requires forall t :: t in a.lists.due ==> a.base + a.next <= a.lists.due[t]
    ensures var r := if a.tick >= a.next then Unblock(a).0 else a;
            Woken(a, r) && Homes(r.lists, a.prios, a.base, a.m) && Clock(r.lists.due, a.base, a.tick, r.next, a.m)
  {
    if a.tick >= a.next {
      UnblockExact(a);
    } else {
      hide Homes;
      assert Expired(a.lists.due, a.Now()) == {};
      NoneWoken(a, a.next);
    }
  }

  lemma WokenIsMoved(s: Sched, a: Sched, r: Sched)
    requires a.lists.due == s.lists.due && Standings(a.lists.place) == Standings(s.lists.place)
    requires a.onEvent == s.onEvent && a.prios == s.prios && Woken(a, r)
    ensures Moved(s, r, Expired(s.lists.due, a.Now()))
    ensures r == a.(lists := r.lists, onEvent := r.onEvent, next := r.next)
  {
    var ts := Expired(s.lists.due, a.Now());
    forall t | t in a.lists.place
      ensures Standings(r.lists.place)[t] == Readied(Standings(s.lists.place), ts, s.prios)[t]
    {
      assert Standings(a.lists.place)[t] == Standings(s.lists.place)[t];
    }
    assert Standings(s.lists.place).Keys == Standings(a.lists.place).Keys;
  }

  // ----- the context switch request

  /** Some task of a set is above the running one. */
  ghost predicate Outranked(s: Sched, ts: set<Task>) {
    exists t :: t in ts && s.prios.Of(t) > s.prios.Of(s.current)
  }

  /** The loop asks for a switch exactly when it has woken a task above the running one. */
  lemma {:induction false} UnblockAsks(s: Sched)
    requires Homes(s.lists, s.prios, s.base, s.m) && s.tick < s.m
    ensures Unblock(s).1 <==> Outranked(s, Expired(s.lists.due, s.Now()))
    decreases |s.lists.delayed|
  {
    hide Homes;
    var l, ts := s.lists, Expired(s.lists.due, s.Now());
    if l.delayed == [] {
      NoneDelayed(l, s.prios, s.base, s.m);
      assert ts == {};
    } else {
      HeadOfDelayed(l, s.prios, s.base, s.m);
      var t := l.delayed[0].owner;
      if s.tick < l.delayed[0].value {
        assert ts == {};
      } else {
        WakeHeadKeepsHomes(s);
        UnblockAsks(WakeHead(s));
        assert ts == Expired(WakeHead(s).lists.due, s.Now()) + {t};
      }
    }
  }

  /** Two different tasks are ready at one priority. */
  ghost predicate TwoReady(place: map<Task, Place>, p: nat) {
    exists t, u :: t != u && t in place && u in place && place[t] == Ready(p) && place[u] == Ready(p)
  }

  lemma SharedMeansTwoReady(l: TaskLists, ps: Prios, p: nat)
    requires ReadyPart(l.ready, l.top, l.place, ps) && p < |l.ready|
    ensures |l.ready[p].items| > 1 <==> TwoReady(l.place, p)
  {
    var items := l.ready[p].items;
    assert ReadyList(l.ready[p], p, l.place);
    assert forall t :: t in items <==> t in At(l.place, Ready(p));
    assert forall t :: t in l.place && l.place[t] == Ready(p) ==> t in At(l.place, Ready(p));
    if |items| > 1 {
      assert Differ(items, 0, 1);
      assert items[0] in At(l.place, Ready(p)) && items[1] in At(l.place, Ready(p));
    } else {
      assert forall t, u :: t in items && u in items ==> t == u;
    }
  }

  lemma SharingIsExact(s: Sched)
    requires Homes(s.lists, s.prios, s.base, s.m)
    ensures SharesPriority(s) <==> TwoReady(s.lists.place, s.prios.Of(s.current))
  {
    hide ReadyLists, SuspendedPart, DelayPart;
    SharedMeansTwoReady(s.lists, s.prios, s.prios.Of(s.current));
  }

  /** A tick asks for a switch exactly when it wakes a task above the running one, or two
      tasks of the running priority are ready, or a switch was asked for before. */
  lemma TickAsks(s: Sched)
    requires Core(s)
    ensures TickOnce(s).1 <==>
              || Outranked(s, Expired(s.lists.due, s.Now() + 1))
              || TwoReady(TickOnce(s).0.lists.place, s.prios.Of(s.current)) || s.yieldPending
  {
    hide Homes, Tasks, Events, SharesPriority, TwoReady;
    AdvancedIsLater(s);
    var a := Advanced(s);
    AfterLoop(a);
    SharingIsExact(TickOnce(s).0);
    if a.tick >= a.next {
      UnblockAsks(a);
    } else {
      assert Expired(s.lists.due, a.Now()) == {};
    }
  }

  // ----- many ticks

  function LiveTicks(s: Sched, k: nat): Sched
    decreases k
  {
    if k == 0 then s else LiveTicks(TickOnce(s).0, k - 1)
  }

  lemma NoTimePassed(s: Sched)
    requires Core(s)
    ensures Passed(s, s, 0)
  {
    hide Homes, Tasks, Events;
    assert Expired(s.lists.due, s.Now()) == {};
    assert Standings(s.lists.place) == Readied(Standings(s.lists.place), {}, s.prios);
  }

  /** Two-list wrap-around refines unbounded time, for any number of ticks and wraps. */
  lemma {:induction false} LiveTicksExact(s: Sched, k: nat)
    requires Core(s) && s.pending == []
    ensures var r := LiveTicks(s, k); Core(r) && Passed(s, r, k)
    decreases k
  {
    hide Core, Moved, TickOnce;
    if k == 0 {
      NoTimePassed(s);
    } else {
      var q := TickOnce(s).0;
      TickExact(s);
      assert q.pending == [];
      hide Passed;
      LiveTicksExact(q, k - 1);
      PassedCompose(s, q, LiveTicks(q, k - 1), 1, k - 1, k);
    }
  }
}
