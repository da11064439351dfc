/** The imperative scheduler of tasks.c: the global variables as fields, the loops as loops.
    Every method is proved to do to the state what the functions of Scheduler, Ticks,
    Suspension and SchedulerMachine say, whose properties are proved there. */
module Kernel {
  import opened ListSpec
  import opened TwoLists
  import opened Priorities
  import opened Scheduler
  import opened Ticks
  import opened Suspension
  import opened SchedulerMachine

  class Kernel {
    const m: Modulus
    const idle: Task
    var prios: Prios
    var container: map<Task, Place>              // of the state list items
    var ready: seq<Ring<Task>>
    var topReadyPriority: nat
    var delayed: seq<Entry>
    var overflow: seq<Entry>
    var suspended: seq<Task>
    var pendingReady: seq<Task>
    var onEvent: set<Task>                       // tasks whose event list item is on an event list
    var tickCount: nat
    var numOfOverflows: nat
    var nextTaskUnblockTime: nat
    var current: Task
    var schedulerSuspended: nat
    var pendedTicks: nat
    var yieldPending: bool
    ghost var due: map<Task, nat>                // wake times in unbounded time
    ghost var base: nat                          // unbounded time at which the tick count last wrapped

    ghost function Lists(): TaskLists
      reads `container, `ready, `topReadyPriority, `delayed, `overflow, `due, `suspended
    {
      TaskLists(container, ready, topReadyPriority, delayed, overflow, due, suspended)
    }

    ghost function State(): Sched
      reads this
    {
      Sched(m, idle, base, prios, Lists(), pendingReady, onEvent, tickCount, numOfOverflows, nextTaskUnblockTime,
            current, schedulerSuspended, pendedTicks, yieldPending)
    }

    /** What the abstract value says of some fields. */
    lemma StateHas()
      ensures State().onEvent == onEvent && State().depth == schedulerSuspended && State().prios == prios
      ensures State().lists == Lists() && Lists().place == container
    {
    }

    constructor (m: Modulus, max: nat, idle: Task)
      requires max > 0
      ensures State() == Start(m, max, idle) && Inv(State())
    {
      this.m, this.idle, current := m, idle, idle;
      prios := Create(Prios(max, map[], map[], map[], map[], {}), idle, 0);
      container := map[idle := Ready(0)];
      ready := [Ring([idle], 0)] + seq(max - 1, _ => Ring([], 0));
      topReadyPriority, delayed, overflow, suspended, pendingReady, onEvent := 0, [], [], [], [], {};
      tickCount, numOfOverflows, nextTaskUnblockTime := 0, 0, m - 1;
      schedulerSuspended, pendedTicks, yieldPending := 0, 0, false;
      due, base := map[], 0;
      new;
      StartKeepsInv(m, max, idle);
    }

    /** prvAddTaskToReadyList */
    method AddTaskToReadyList(t: Task)
      requires Homes(Lists(), prios, base, m) && t in prios.prio && t !in container
      modifies `ready, `topReadyPriority, `container
      ensures Lists() == AddReady(old(Lists()), prios.Of(t), t) && Homes(Lists(), prios, base, m)
    {
      AddReadyKeepsHomes(Lists(), prios, base, m, t);
      var p := prios.prio[t];
      assert ReadyList(ready[p], p, container);
      hide Homes;
      if p > topReadyPriority {
        topReadyPriority := p;
      }
      ready := ready[p := InsertEnd(ready[p], t)];
      container := container[t := Ready(p)];
    }

    /** uxListRemove of a state list item. */
    method RemoveStateItem(t: Task)
      requires Homes(Lists(), prios, base, m) && t in container
      modifies `ready, `suspended, `delayed, `overflow, `container, `due
      ensures Lists() == Detach(old(Lists()), t) && Homes(Lists(), prios, base, m)
    {
      hide ReadyPart, SuspendedPart, DelayPart, Homes, RingWithout, Without, EntriesWithout;
      DetachKeepsHomes(Lists(), prios, base, m, t);
      if container[t].Ready? { PlacedInRange(Lists(), prios, base, m, t); }
      ghost var l := Lists();
      match container[t] {
        case Ready(p) => ready := ready[p := RingWithout(ready[p], t)];
        case Suspended => suspended := Without(suspended, t);
        case Delayed => delayed := EntriesWithout(delayed, t);
        case Overflow => overflow := EntriesWithout(overflow, t);
      }
      container, due := container - {t}, due - {t};
      assert Lists() == Detach(l, t);
      hide Detach;
    }

    /** Both, as everywhere where a task becomes ready. */
    method ReadyTask(t: Task)
      requires Homes(Lists(), prios, base, m) && t in container && t in prios.prio
      modifies `ready, `suspended, `delayed, `overflow, `container, `due, `topReadyPriority
      ensures State() == Readying(old(State()), t) && Homes(Lists(), prios, base, m)
    {
      hide Homes, Detach, AddReady;
      ghost var l := Lists();
      RemoveStateItem(t);
      DetachKeepsHomes(l, prios, base, m, t);
      AddTaskToReadyList(t);
    }

    /** prvResetNextTaskUnblockTime */
    method ResetNextTaskUnblockTime()
      modifies `nextTaskUnblockTime
      ensures nextTaskUnblockTime == NextUnblock(delayed, m)
      ensures var s := old(State()); State() == s.(next := NextUnblock(s.lists.delayed, s.m))
    {
      if delayed == [] {
        nextTaskUnblockTime := m - 1;
      } else {
        nextTaskUnblockTime := delayed[0].value;
      }
    }

    /** taskSWITCH_DELAYED_LISTS, with what its assertion demands. */
    method SwitchDelayedLists()
      requires delayed == []
      modifies `delayed, `overflow, `container, `numOfOverflows, `base, `nextTaskUnblockTime
      ensures Lists() == SwappedLists(old(Lists())) && base == old(base) + m
      ensures numOfOverflows == old(numOfOverflows) + 1 && nextTaskUnblockTime == NextUnblock(old(overflow), m)
    {
      hide SwapPlaces, NextUnblock, State;
      delayed, overflow := overflow, delayed;
      container := SwapPlaces(container);
      numOfOverflows := numOfOverflows + 1;
      base := base + m;
      ResetNextTaskUnblockTime();
    }

    /** One round of the loop of xTaskIncrementTick: the head has to be woken. */
    method WakeHeadOfDelayed() returns (preempts: bool)
      requires Homes(Lists(), prios, base, m) && delayed != [] && current in prios.prio
      modifies `ready, `suspended, `delayed, `overflow, `container, `due, `topReadyPriority, `onEvent
      ensures State() == WakeHead(old(State())) && Homes(Lists(), prios, base, m)
      ensures |Lists().delayed| < |old(Lists()).delayed|
      ensures preempts <==> prios.Of(old(delayed[0].owner)) > prios.Of(current)
    {
      hide Homes, WakeHead, MakeReady;
      HeadCanBeWoken(State());
      var t := delayed[0].owner;
      ReadyTask(t);
      onEvent := onEvent - {t};
      preempts := prios.prio[t] > prios.prio[current];
    }
  
    /** The loop of xTaskIncrementTick. */
    method UnblockDelayedTasks() returns (preempts: bool)
      requires Homes(Lists(), prios, base, m) && current in prios.prio
      modifies `ready, `suspended, `delayed, `overflow, `container, `due, `topReadyPriority, `onEvent
      modifies `nextTaskUnblockTime
      ensures (State(), preempts) == Unblock(old(State()))
    {
      hide Homes, WakeHead;
      ghost var goal := Unblock(State());
      preempts := false;
      while true
        invariant Homes(Lists(), prios, base, m) && current in prios.prio
        invariant goal == (Unblock(State()).0, preempts || Unblock(State()).1)
        decreases |delayed|
      {
        if delayed == [] {
          nextTaskUnblockTime := m - 1;
          break;
        }
        if tickCount < delayed[0].value {
          nextTaskUnblockTime := delayed[0].value;
          break;
        }
        WakeHeadOnce(State(), preempts);
        var higher := WakeHeadOfDelayed();
        if higher {
          preempts := true;
        }
      }
    }

    /** Advancing the tick count: AdvancedIsLater shows that the assertion of
        taskSWITCH_DELAYED_LISTS is met. */
    method AdvanceTickCount()
      requires tickCount == m - 1 ==> delayed == []
      modifies `delayed, `overflow, `container, `numOfOverflows, `base, `nextTaskUnblockTime, `tickCount
      ensures State() == Advanced(old(State()))
    {
      hide SwappedLists, NextUnblock;
      tickCount := if tickCount + 1 == m then 0 else tickCount + 1;
      if tickCount == 0 {
        SwitchDelayedLists();
      }
    }

    /** xTaskIncrementTick while the scheduler is not suspended. */
    method ApplyTick() returns (switchRequired: bool)
      requires Core(State()) && pendingReady == []
      modifies this
      ensures (State(), switchRequired) == TickOnce(old(State()))
    {
      hide Core, Homes, Advanced, Unblock, SharesPriority;
      ghost var s := State();
      AdvancedIsLater(s);
      CurrentHasList(s);
      AdvanceTickCount();
      switchRequired := false;
      if tickCount >= nextTaskUnblockTime {
        switchRequired := UnblockDelayedTasks();
      }
      var sharing := RunningTaskShares();
      if sharing {
        switchRequired := true;
      }
      if yieldPending {
        switchRequired := true;
      }
    }

    /** The test for time slicing. */
    method RunningTaskShares() returns (sharing: bool)
      requires current in prios.prio && prios.Of(current) < |ready|
      ensures sharing == SharesPriority(State())
    {
      sharing := |ready[prios.prio[current]].items| > 1;
    }

    /** xTaskIncrementTick */
    method IncrementTick() returns (switchRequired: bool)
      requires Core(State()) && (schedulerSuspended == 0 ==> pendingReady == [])
      modifies this
      ensures (State(), switchRequired) == Tick(old(State()))
      ensures Core(State())
    {
      if schedulerSuspended == 0 {
        TickExact(State());
        hide Core, TickOnce;
        switchRequired := ApplyTick();
      } else {
        hide Homes, Clock, Events, Tasks;
        switchRequired := false;
        pendedTicks := pendedTicks + 1;
      }
    }

    /** The part of prvAddCurrentTaskToDelayedList that computes the wake time and chooses
        the list by whether it has wrapped. */
    method InsertByWakeTime(t: Task, ticks: nat)
      requires tickCount < m && ticks < m
      modifies `delayed, `overflow, `container, `due, `nextTaskUnblockTime
      ensures Lists() == AddDelayed(old(Lists()), t, WakeTime(m, base, tickCount, ticks), base, m)
      ensures nextTaskUnblockTime == var wake, next := Add(m, tickCount, ticks), old(nextTaskUnblockTime);
                                     if tickCount <= wake < next then wake else next
    {
      hide TwoLists.Insert;
      var wake := Add(m, tickCount, ticks);
      if wake < tickCount {
        overflow := TwoLists.Insert(overflow, Entry(t, wake));
        container := container[t := Overflow];
      } else {
        delayed := TwoLists.Insert(delayed, Entry(t, wake));
        container := container[t := Delayed];
        if wake < nextTaskUnblockTime {
          nextTaskUnblockTime := wake;
        }
      }
      due := due[t := base + tickCount + ticks];
    }

    method AddTaskToSuspendedList(t: Task)
      modifies `suspended, `container
      ensures Lists() == AddSuspended(old(Lists()), t)
    {
      suspended := suspended + [t];
      container := container[t := Suspended];
    }

    /** prvAddCurrentTaskToDelayedList */
    method AddCurrentTaskToDelayedList(ticks: nat, canBlockIndefinitely: bool)
      requires Homes(Lists(), prios, base, m) && current in container && tickCount < m && ticks < m
      modifies `ready, `suspended, `delayed, `overflow, `container, `due, `nextTaskUnblockTime
      ensures State() == BlockCurrent(old(State()), ticks, canBlockIndefinitely, false)
    {
      hide Homes, Detach, AddDelayed, AddSuspended, WakeTime, Lists;
      RemoveStateItem(current);
      if ticks == m - 1 && canBlockIndefinitely {
        AddTaskToSuspendedList(current);
      } else {
        InsertByWakeTime(current, ticks);
      }
    }

    /** vTaskPlaceOnEventList */
    method PlaceOnEventList(ticks: nat)
      requires Homes(Lists(), prios, base, m) && current in container && tickCount < m && ticks < m
      modifies `onEvent, `ready, `suspended, `delayed, `overflow, `container, `due, `nextTaskUnblockTime
      ensures State() == BlockCurrent(old(State()), ticks, true, true)
    {
      hide Homes, Detach, AddDelayed, AddSuspended;
      onEvent := onEvent + {current};
      AddCurrentTaskToDelayedList(ticks, true);
    }

    /** vTaskPlaceOnUnorderedEventList: the event group's bits go into the item value. */
    method PlaceOnUnorderedEventList(value: nat, ticks: nat)
      requires Homes(Lists(), prios, base, m) && current in container && tickCount < m && ticks < m
      modifies `prios, `onEvent, `ready, `suspended, `delayed, `overflow, `container, `due, `nextTaskUnblockTime
      ensures State() == BlockCurrent(old(State().(prios := UseEventItem(prios, current, value))), ticks, true, true)
    {
      SamePriorities(Lists(), prios, UseEventItem(prios, current, value), base, m);
      hide Homes, Detach, AddDelayed, AddSuspended;
      prios := UseEventItem(prios, current, value);
      PlaceOnEventList(ticks);
    }

    /** uxTaskResetEventItemValue */
    method ResetEventItemValue() returns (value: nat)
      requires prios.Valid() && current in prios.prio
      modifies `prios
      ensures prios == ResetEventItem(old(prios), current) && value == old(prios.event[current])
      ensures prios.event[current] == prios.max - prios.prio[current] && current !in prios.inUse
    {
      value := prios.event[current];
      prios := ResetEventItem(prios, current);
    }

    /** A task that has a higher priority than the running one asks for a context switch. */
    method YieldTo(t: Task) returns (higher: bool)
      requires t in prios.prio && current in prios.prio
      modifies `yieldPending
      ensures higher <==> prios.Of(t) > prios.Of(current)
      ensures State() == YieldingTo(old(State()), t)
    {
      hide Lists;
      higher := prios.prio[t] > prios.prio[current];
      if higher {
        yieldPending := true;
      }
    }

    /** The event list item comes off its event list. */
    method RemoveEventItem(t: Task)
      modifies `onEvent
      ensures State() == old(State()).(onEvent := old(onEvent) - {t})
    {
      hide Lists;
      onEvent := onEvent - {t};
    }

    method ReadyOrPend(t: Task)
      requires Homes(Lists(), prios, base, m) && t in container && t in prios.prio
      modifies `pendingReady, `ready, `suspended, `delayed, `overflow, `container, `due, `topReadyPriority
      ensures var s := old(State());
              State() == if s.depth == 0 then Readying(s, t) else s.(pending := s.pending + [t])
    {
      hide Homes, MakeReady, Lists, Readying;
      if schedulerSuspended == 0 {
        ReadyTask(t);
      } else {
        pendingReady := pendingReady + [t];
      }
    }

    /** xTaskRemoveFromEventList for the task at the head; the answer is whether it has a
        higher priority than the running one. */
    method RemoveFromEventList(t: Task) returns (higher: bool)
      requires Homes(Lists(), prios, base, m) && t in container && t in prios.prio && current in prios.prio
      modifies `onEvent, `pendingReady, `yieldPending
      modifies `ready, `suspended, `delayed, `overflow, `container, `due, `topReadyPriority
      ensures State() == SchedulerMachine.RemoveFromEventList(old(State()), t)
      ensures higher <==> prios.Of(t) > prios.Of(current)
    {
      hide Homes, Lists, State, Readying, YieldingTo, SchedulerMachine.RemoveFromEventList;
      StateHas();
      RemovalInSteps(State(), t, onEvent);
      RemoveEventItem(t);
      ReadyOrPend(t);
      higher := YieldTo(t);
    }

    method MoveToSuspendedList(t: Task)
      requires Homes(Lists(), prios, base, m) && t in container
      modifies `ready, `suspended, `delayed, `overflow, `container, `due
      ensures var s := old(State());
              t in s.lists.place && State() == s.(lists := AddSuspended(Detach(s.lists, t), t))
    {
      hide Homes, Detach, AddSuspended, Lists;
      StateHas();
      RemoveStateItem(t);
      AddTaskToSuspendedList(t);
    }

    /** The event list item comes off the pending ready list, if it is there. */
    method RemovePending(t: Task)
      modifies `pendingReady
      ensures var s := old(State()); State() == s.(pending := Without(s.pending, t))
    {
      hide Lists, Without;
      pendingReady := Without(pendingReady, t);
    }

    /** vTaskSuspend */
    method SuspendTask(t: Task)
      requires Homes(Lists(), prios, base, m) && t in container
      modifies `onEvent, `pendingReady, `nextTaskUnblockTime
      modifies `ready, `suspended, `delayed, `overflow, `container, `due
      ensures State() == SchedulerMachine.SuspendTask(old(State()), t)
    {
      hide Homes, Detach, Without, NextUnblock, AddSuspended, State, Lists;
      StateHas();
      MoveToSuspendedList(t);
      StateHas();
      RemoveEventItem(t);
      RemovePending(t);
      ResetNextTaskUnblockTime();
    }

    /** The search of taskSELECT_HIGHEST_PRIORITY_TASK.  Its assertion that it does not run
        below priority 0 holds because the idle task is ready. */
    method FindTopReady() returns (p: nat)
      requires ReadyPart(ready, topReadyPriority, container, prios) && idle in container && container[idle].Ready?
      ensures p == TopReady(ready, topReadyPriority) && ready[p].items != [] && ready[p].index <= |ready[p].items|
    {
      TopReadyIsHighest(Lists(), prios, idle);
      hide ReadyPart;
      p := topReadyPriority;
      while ready[p].items == []
        invariant p <= topReadyPriority && TopReady(ready, p) == TopReady(ready, topReadyPriority)
        decreases p
      {
        assert p > 0;
        p := p - 1;
      }
    }

    /** listGET_OWNER_OF_NEXT_ENTRY into pxCurrentTCB. */
    method SelectFrom(p: nat, r: Ring<Task>)
      requires p < |ready| && 0 < r.index <= |r.items|
      modifies `yieldPending, `ready, `topReadyPriority, `current
      ensures State() == Choose(old(State()), p, r)
    {
      hide Selected;
      yieldPending, ready, topReadyPriority, current := false, ready[p := r], p, Selected(r);
    }

    /** vTaskSwitchContext */
    method SwitchContext()
      requires ReadyPart(ready, topReadyPriority, container, prios) && idle in container && container[idle].Ready?
      modifies `yieldPending, `ready, `topReadyPriority, `current
      ensures State() == SchedulerMachine.SwitchContext(old(State()))
    {
      assert topReadyPriority < |ready|;
      hide SchedulerMachine.SwitchContext, ReadyPart, TopReady;
      if schedulerSuspended > 0 {
        SwitchHeldBack(State());
        yieldPending := true;
      } else {
        var p := FindTopReady();
        var r := NextEntry(ready[p]);
        assert 0 < r.index <= |r.items|;
        SwitchFinds(State(), p);
        hide NextEntry, Selected;
        SelectFrom(p, r);
      }
    }

    /** One round of the loop of xTaskResumeAll over the pending ready list. */
    method ReadyPendingHead()
      requires Homes(Lists(), prios, base, m) && pendingReady != [] && current in prios.prio
      requires pendingReady[0] in container && pendingReady[0] in prios.prio
      modifies `pendingReady, `yieldPending
      modifies `ready, `suspended, `delayed, `overflow, `container, `due, `topReadyPriority
      ensures State() == DrainHead(old(State()))
    {
      hide Homes, Lists, Readying, YieldingTo;
      DrainHeadInSteps(State());
      var t := pendingReady[0];
      pendingReady := pendingReady[1..];
      ReadyTask(t);
      var _ := YieldTo(t);
    }

    /** The loop of xTaskResumeAll over the pending ready list. */
    method DrainPendingReady()
      requires Drainable(State())
      modifies `pendingReady, `yieldPending
      modifies `ready, `suspended, `delayed, `overflow, `container, `due, `topReadyPriority
      ensures State() == Drain(old(State()))
    {
      ghost var s := State();
      while pendingReady != []
        invariant Drainable(State()) && Drain(State()) == Drain(s)
        decreases |pendingReady|
      {
        ghost var q := State();
        DrainHeadKeepsDrainable(q);
        hide Drainable, DrainHead;
        ReadyPendingHead();
      }
    }

    /** The loop of xTaskResumeAll over the pended ticks. */
    method ReplayPendedTicks()
      requires Core(State()) && pendingReady == [] && schedulerSuspended == 0
      modifies this
      ensures State() == Replay(old(State()), old(pendedTicks)).(pended := 0)
    {
      ghost var s := State();
      hide Core, TickOnce;
      var k := pendedTicks;
      while k > 0
        invariant Core(State()) && pendingReady == [] && schedulerSuspended == 0
        invariant Replay(State(), k) == Replay(s, old(pendedTicks))
        decreases k
      {
        ghost var q := State();
        TickExact(q);
        var switchRequired := IncrementTick();
        assert (State(), switchRequired) == TickOnce(q);
        if switchRequired {
          yieldPending := true;
        }
        CoreIgnoresRecord(TickOnce(q).0, State());
        k := k - 1;
      }
      pendedTicks := 0;
    }

    /** What the outermost xTaskResumeAll does before it looks at the ticks. */
    method ReadyAllPending()
      requires Drainable(State()) && schedulerSuspended == 1
      modifies `schedulerSuspended, `pendingReady, `yieldPending, `nextTaskUnblockTime
      modifies `ready, `suspended, `delayed, `overflow, `container, `due, `topReadyPriority
      ensures State() == Drained(old(State()))
    {
      hide Drainable, Drain, NextUnblock;
      ghost var s := State();
      schedulerSuspended := 0;
      assert State() == s.(depth := 0);
      DrainableIgnoresDepth(s, State());
      var some := pendingReady != [];
      DrainPendingReady();
      if some {
        ResetNextTaskUnblockTime();
      }
    }

    /** xTaskResumeAll */
    method ResumeAll() returns (alreadyYielded: bool)
      requires Inv(State()) && schedulerSuspended > 0
      modifies this
      ensures (State(), alreadyYielded) == Suspension.ResumeAll(old(State()))
    {
      DrainedExact(State());
      CoreIsDrainable(State());
      hide Core, Drainable, Moved, Drained, Replay;
      alreadyYielded := false;
      if schedulerSuspended == 1 {
        ReadyAllPending();
        ReplayPendedTicks();
        alreadyYielded := yieldPending;
      } else {
        schedulerSuspended := schedulerSuspended - 1;
      }
    }

    /** A ready task is taken off its list, gets its new priority fields and joins its new list. */
    method MoveToNewList(ps: Prios, t: Task)
      requires Homes(Lists(), prios, base, m) && t in container && t in ps.prio
      requires Homes(Detach(Lists(), t), ps, base, m) && t !in Detach(Lists(), t).place
      modifies `prios, `ready, `suspended, `delayed, `overflow, `container, `due, `topReadyPriority
      ensures Lists() == AddReady(Detach(old(Lists()), t), ps.Of(t), t) && prios == ps
    {
      hide Homes, Detach, AddReady, State;
      RemoveStateItem(t);
      prios := ps;
      AddTaskToReadyList(t);
    }

    /** What the four changes of priority have in common. */
    method ChangePriorityFields(ps: Prios, t: Task)
      requires Homes(Lists(), prios, base, m) && t in container && OnlyChanges(prios, ps, t)
      modifies `prios, `ready, `suspended, `delayed, `overflow, `container, `due, `topReadyPriority
      ensures State() == Reprioritise(old(State()), ps, t) && prios == ps
    {
      hide Homes, OnlyChanges, Detach, AddReady, Prios.Valid, Lists;
      StateHas();
      if container[t] == Ready(prios.Of(t)) {
        DetachForChange(Lists(), prios, ps, base, m, t);
        MoveToNewList(ps, t);
      } else {
        prios := ps;
      }
    }

    /** xTaskPriorityInherit by the running task; the answer is whether inheritance occurred. */
    method PriorityInherit(holder: Task) returns (inherited: bool)
      requires Homes(Lists(), prios, base, m) && holder in container && holder in prios.prio && current in prios.prio
      modifies `prios, `ready, `suspended, `delayed, `overflow, `container, `due, `topReadyPriority
      ensures State() == SchedulerMachine.PriorityInherit(old(State()), holder)
      ensures holder in old(prios.prio) && current in old(prios.prio) && old(prios).Valid()
      ensures var before := old(prios);
              && ComesToRunAt(before, prios, holder, Max(before.prio[holder], before.prio[current]),
                              holder in before.inUse)
              && prios.held == before.held
      ensures inherited == InheritanceOccurred(old(prios), holder, current)
    {
      hide Homes, Reprioritise, Lists, Prios.Valid, OnlyChanges, ComesToRunAt;
      StateHas();
      KnownTask(Lists(), prios, base, m, holder);
      InheritRaises(prios, holder, current);
      inherited := false;
      var p := prios.prio[current];
      if prios.prio[holder] < p {
        InheritChangesOne(prios, holder, current);
        ChangePriorityFields(prios.With(holder, p), holder);
        inherited := true;
      } else if prios.base[holder] < p {
        inherited := true;
      }
    }

    /** xTaskPriorityDisinherit by the running task; the answer is whether it lost a priority. */
    method PriorityDisinherit() returns (disinherited: bool)
      requires Homes(Lists(), prios, base, m) && current in container && current in prios.prio
               && prios.held[current] > 0
      modifies `prios, `ready, `suspended, `delayed, `overflow, `container, `due, `topReadyPriority
      ensures State() == SchedulerMachine.PriorityDisinherit(old(State()))
      ensures current in old(prios.prio) && current in old(prios.base) && current in old(prios.held)
              && old(prios).Valid()
      ensures var before := old(prios);
              && ComesToRunAt(before, prios, current,
                              if before.held[current] == 1 then before.base[current] else before.prio[current], false)
              && prios.held == before.held[current := before.held[current] - 1]
      ensures disinherited <==> old(prios.prio[current] != prios.base[current] && prios.held[current] == 1)
    {
      hide Homes, Reprioritise, Lists, Prios.Valid, Disinherit, OnlyChanges, ComesToRunAt;
      StateHas();
      KnownTask(Lists(), prios, base, m, current);
      DisinheritRestores(prios, current);
      DisinheritedFields(prios, current);
      disinherited := false;
      var ps := prios.(held := prios.held[current := prios.held[current] - 1]);
      var b := prios.base[current];
      if prios.prio[current] != b && ps.held[current] == 0 {
        ps := ps.(prio := ps.prio[current := b], event := ps.event[current := ps.max - b]);
        ChangePriorityFields(ps, current);
        disinherited := true;
      } else {
        prios := ps;
      }
    }

    /** vTaskPriorityDisinheritAfterTimeout */
    method PriorityDisinheritAfterTimeout(holder: Task, highestWaiting: nat)
      requires Homes(Lists(), prios, base, m) && holder in container && holder in prios.prio
               && highestWaiting < prios.max
      modifies `prios, `ready, `suspended, `delayed, `overflow, `container, `due, `topReadyPriority
      ensures State() == SchedulerMachine.PriorityDisinheritAfterTimeout(old(State()), holder, highestWaiting)
      ensures holder in old(prios.prio) && holder in old(prios.base) && holder in old(prios.held) && old(prios).Valid()
      ensures var before := old(prios);
              && ComesToRunAt(before, prios, holder,
                              if before.held[holder] == 1 then Max(before.base[holder], highestWaiting)
                              else before.prio[holder],
                              holder in before.inUse)
              && prios.held == before.held
    {
      hide Homes, Reprioritise, Lists, Prios.Valid, DisinheritAfterTimeout, OnlyChanges, ComesToRunAt;
      StateHas();
      KnownTask(Lists(), prios, base, m, holder);
      TimeoutLowers(prios, holder, highestWaiting);
      AfterTimeoutFields(prios, holder, highestWaiting);
      var use := prios.base[holder];
      if use < highestWaiting {
        use := highestWaiting;
      }
      if prios.prio[holder] != use && prios.held[holder] == 1 {
        ChangePriorityFields(prios.With(holder, use), holder);
      }
    }

    /** vTaskPrioritySet */
    method PrioritySet(t: Task, newPriority: nat)
      requires Homes(Lists(), prios, base, m) && t in container && t in prios.prio && newPriority < prios.max
      modifies `prios, `ready, `suspended, `delayed, `overflow, `container, `due, `topReadyPriority
      ensures State() == SchedulerMachine.PrioritySet(old(State()), t, newPriority)
    {
      assert prios.Valid();
      hide Homes, Reprioritise, OnlyChanges;
      if prios.base[t] != newPriority {
        SetChangesOne(prios, t, newPriority);
        var prio := prios.prio;
        if prios.base[t] == prios.prio[t] {
          prio := prio[t := newPriority];
        }
        var event := if t in prios.inUse then prios.event else prios.event[t := prios.max - newPriority];
        var ps := prios.(prio := prio, base := prios.base[t := newPriority], event := event);
        assert ps == SetPriority(prios, t, newPriority);
        hide SetPriority, Prios.Valid;
        ChangePriorityFields(ps, t);
      }
    }
  }

  /** A task becomes ready, and asks for a context switch if it outranks the running one. */
  function Readying(s: Sched, t: Task): Sched {
    s.(lists := MakeReady(s.lists, s.prios, t))
  }

  function YieldingTo(s: Sched, t: Task): Sched {
    s.(yieldPending := s.yieldPending || s.prios.Of(t) > s.prios.Of(s.current))
  }

  lemma RemovalInSteps(s: Sched, t: Task, onEvent: set<Task>)
    requires s.onEvent == onEvent
    ensures var q := s.(onEvent := onEvent - {t});
            SchedulerMachine.RemoveFromEventList(s, t) ==
            YieldingTo(if q.depth == 0 then Readying(q, t) else q.(pending := q.pending + [t]), t)
  {
    hide MakeReady;
  }

  lemma DrainHeadInSteps(s: Sched)
    requires s.pending != []
    ensures DrainHead(s) == YieldingTo(Readying(s.(pending := s.pending[1..]), s.pending[0]), s.pending[0])
  {
    hide MakeReady;
  }

  lemma HeadCanBeWoken(s: Sched)
    requires Homes(s.lists, s.prios, s.base, s.m) && s.lists.delayed != []
    ensures var t := s.lists.delayed[0].owner; var l := MakeReady(s.lists, s.prios, t);
            && t in s.lists.place && t in s.prios.prio
            && WakeHead(s) == Readying(s, t).(onEvent := s.onEvent - {t}) && |l.delayed| < |s.lists.delayed|
  {
    hide Homes, MakeReady, WakeHead;
    WakeHeadKeepsHomes(s);
    HeadOfDelayed(s.lists, s.prios, s.base, s.m);
  }

  /** A task that is on a list has all its priority fields. */
  lemma KnownTask(l: TaskLists, ps: Prios, base: nat, m: Modulus, t: Task)
    requires Homes(l, ps, base, m) && t in l.place
    ensures ps.Valid() && t in ps.prio && t in ps.base && t in ps.held && t in ps.event && ps.base[t] < ps.max
  {
    hide SuspendedPart, DelayPart, ReadyLists;
  }

  lemma DisinheritedFields(ps: Prios, t: Task)
    requires ps.Valid() && t in ps.prio && t in ps.base && t in ps.held && t in ps.event && ps.held[t] > 0
             && ps.base[t] < ps.max
    ensures var r := ps.(held := ps.held[t := ps.held[t] - 1]);
            Disinherit(ps, t) == if ps.prio[t] != ps.base[t] && r.held[t] == 0
                                 then r.(prio := r.prio[t := r.base[t]], event := r.event[t := r.max - r.base[t]])
                                 else r
    ensures OnlyChanges(ps, Disinherit(ps, t), t)
  {
  }

  lemma InheritChangesOne(ps: Prios, holder: Task, waiter: Task)
    requires ps.Valid() && holder in ps.prio && waiter in ps.prio
    ensures ps.prio[waiter] < ps.max && OnlyChanges(ps, ps.With(holder, ps.prio[waiter]), holder)
  {
  }

  lemma AfterTimeoutFields(ps: Prios, h: Task, w: nat)
    requires ps.Valid() && h in ps.prio && h in ps.base && h in ps.held && ps.base[h] < ps.max && w < ps.max
    ensures var use, r := if ps.base[h] < w then w else ps.base[h], DisinheritAfterTimeout(ps, h, w);
            && r == (if ps.prio[h] != use && ps.held[h] == 1 then ps.With(h, use) else ps)
            && (r == ps <==> !(ps.prio[h] != use && ps.held[h] == 1)) && OnlyChanges(ps, r, h)
  {
    var r := DisinheritAfterTimeout(ps, h, w);
    assert r.prio[h] != ps.prio[h] ==> r != ps;
  }

  lemma PlacedInRange(l: TaskLists, ps: Prios, base: nat, m: Modulus, t: Task)
    requires Homes(l, ps, base, m) && t in l.place && l.place[t].Ready?
    ensures l.place[t].priority < |l.ready|
  {
    hide SuspendedPart, DelayPart;
  }

  /** The task under the walking pointer of list p, which is now r, becomes current. */
  function Choose(s: Sched, p: nat, r: Ring<Task>): Sched
    requires p < |s.lists.ready| && 0 < r.index <= |r.items|
  {
    s.(yieldPending := false, lists := s.lists.(ready := s.lists.ready[p := r], top := p), current := Selected(r))
  }

  lemma SwitchFinds(s: Sched, p: nat)
    requires s.depth == 0 && s.lists.top < |s.lists.ready| && p == TopReady(s.lists.ready, s.lists.top)
    requires s.lists.ready[p].items != [] && s.lists.ready[p].index <= |s.lists.ready[p].items|
    ensures var r := NextEntry(s.lists.ready[p]);
            SchedulerMachine.SwitchContext(s) == Choose(s, p, r)
  {
    hide TopReady;
  }

  /** One round of the loop, as the recursion of Unblock has it. */
  lemma WakeHeadOnce(s: Sched, preempts: bool)
    requires s.lists.delayed != [] && s.tick >= s.lists.delayed[0].value
    ensures var r := Unblock(WakeHead(s));
            Unblock(s) == (r.0, r.1 || s.prios.Of(s.lists.delayed[0].owner) > s.prios.Of(s.current))
  {
  }

  /** The running task's priority is that of a ready list, before and after a tick. */
  lemma CurrentHasList(s: Sched)
    requires Core(s) && s.pending == []
    ensures s.current in s.prios.prio && s.prios.Of(s.current) < |TickOnce(s).0.lists.ready|
  {
    TickExact(s);
    hide TickOnce, ReadyLists, SuspendedPart, DelayPart, Moved;
    assert s.current in s.prios.prio.Keys;
  }

  /** What draining needs and keeps. */
  ghost predicate Drainable(s: Sched) {
    && Homes(s.lists, s.prios, s.base, s.m) && Events(s.pending, s.onEvent, s.lists.place)
    && s.lists.place.Keys == s.prios.prio.Keys && s.current in s.lists.place
  }

  lemma DrainHeadKeepsDrainable(s: Sched)
    requires Drainable(s) && s.pending != []
    ensures Drainable(DrainHead(s)) && DrainHead(s).pending == s.pending[1..]
    ensures Homes(s.lists, s.prios, s.base, s.m) && s.current in s.prios.prio
    ensures s.pending[0] in s.lists.place && s.pending[0] in s.prios.prio
  {
    var t := s.pending[0];
    PendingTail(s, s.lists.place[t := Ready(s.prios.Of(t))], Ready(s.prios.Of(t)));
    assert t in s.prios.prio.Keys && s.current in s.prios.prio.Keys;
    hide Homes, MakeReady, Events;
    MakeReadyKeepsHomes(s.lists, s.prios, s.base, s.m, t);
  }

  lemma CoreIsDrainable(s: Sched)
    requires Core(s)
    ensures Drainable(s)
  {
  }

  lemma DrainableIgnoresDepth(s: Sched, r: Sched)
    requires Drainable(s) && r == s.(depth := r.depth)
    ensures Drainable(r)
  {
  }

  lemma DetachForChange(l: TaskLists, ps: Prios, ps': Prios, base: nat, m: Modulus, t: Task)
    requires Homes(l, ps, base, m) && t in l.place && OnlyChanges(ps, ps', t)
    ensures t in ps'.prio && Homes(Detach(l, t), ps', base, m) && t !in Detach(l, t).place
  {
    assert t in ps'.prio;
    hide Homes, OnlyChanges;
    DetachKeepsHomes(l, ps, base, m, t);
    HomesUnder(Detach(l, t), ps, ps', base, m, t);
  }
}
