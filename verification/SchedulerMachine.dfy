/** The scheduler as a state machine: tasks, interrupts and the tick take steps in any order,
    and whatever the order, the lists stay a partition of the tasks, no tick is lost and
    nobody who is delayed wakes early or late. */
module SchedulerMachine {
  import opened ListSpec
  import opened TwoLists
  import opened Priorities
  import opened Scheduler
  import opened Ticks
  import opened Suspension

  // ----- the remaining steps

  /** xTaskRemoveFromEventList for the task at the head of an event list. */
  function RemoveFromEventList(s: Sched, t: Task): Sched {
    var s := s.(onEvent := s.onEvent - {t}, yieldPending := s.yieldPending || s.prios.Of(t) > s.prios.Of(s.current));
    if s.depth == 0 then s.(lists := MakeReady(s.lists, s.prios, t)) else s.(pending := s.pending + [t])
  }

  /** vTaskRemoveFromUnorderedEventList, used with the scheduler suspended. */
  function RemoveFromUnorderedEventList(s: Sched, t: Task): Sched {
    s.(onEvent := s.onEvent - {t}, yieldPending := s.yieldPending || s.prios.Of(t) > s.prios.Of(s.current),
       lists := MakeReady(s.lists, s.prios, t))
  }

  /** vTaskSuspend */
  function SuspendTask(s: Sched, t: Task): Sched
    requires t in s.lists.place
  {
    var l := AddSuspended(Detach(s.lists, t), t);
    s.(lists := l, onEvent := s.onEvent - {t}, pending := Without(s.pending, t), next := NextUnblock(l.delayed, s.m))
  }

  /** prvTaskIsTaskSuspended: not merely waiting without a timeout, and not resumed already. */
  predicate IsSuspended(s: Sched, t: Task) {
    t in s.lists.place && s.lists.place[t] == Suspended && t !in s.pending && t !in s.onEvent
  }

  /** vTaskResume */
  function ResumeTask(s: Sched, t: Task): Sched {
    if t != s.current && IsSuspended(s, t) then s.(lists := MakeReady(s.lists, s.prios, t)) else s
  }

  /** xTaskResumeFromISR */
  function ResumeFromISR(s: Sched, t: Task): Sched {
    if !IsSuspended(s, t) then s
    else if s.depth == 0 then
      s.(yieldPending := s.yieldPending || s.prios.Of(t) > s.prios.Of(s.current),
         lists := MakeReady(s.lists, s.prios, t))
    else s.(pending := s.pending + [t])
  }

  /** prvAddNewTaskToReadyList, with the scheduler running. */
  function CreateTask(s: Sched, t: Task, p: nat): Sched
    requires p < s.prios.max
  {
    s.(prios := Create(s.prios, t, p), lists := AddReady(s.lists, p, t))
  }

  /** A task takes on new priority fields, and if it is ready it moves to the end of the ready
      list that now is its own. */
  function Reprioritise(s: Sched, ps: Prios, t: Task): Sched
    requires t in s.lists.place
  {
    s.(prios := ps, lists := Relist(s.lists, s.prios, ps, t))
  }

  function Relist(l: TaskLists, before: Prios, after: Prios, t: Task): TaskLists
    requires t in l.place
  {
    if l.place[t] == Ready(before.Of(t)) then AddReady(Detach(l, t), after.Of(t), t) else l
  }

  /** vTaskPrioritySet */
  function PrioritySet(s: Sched, t: Task, p: nat): Sched
    requires s.prios.Valid() && t in s.prios.prio && t in s.lists.place && p < s.prios.max
  {
    if s.prios.base[t] == p then s else Reprioritise(s, SetPriority(s.prios, t, p), t)
  }

  /** xTaskPriorityInherit for the running task. */
  function PriorityInherit(s: Sched, holder: Task): Sched
    requires s.prios.Valid() && holder in s.prios.prio && s.current in s.prios.prio && holder in s.lists.place
  {
    if s.prios.prio[holder] < s.prios.prio[s.current]
    then Reprioritise(s, Inherit(s.prios, holder, s.current), holder) else s
  }

  /** xTaskPriorityDisinherit by the running task. */
  function PriorityDisinherit(s: Sched): Sched
    requires s.prios.Valid() && s.current in s.prios.prio && s.current in s.lists.place && s.prios.held[s.current] > 0
  {
    var ps := Disinherit(s.prios, s.current);
    if s.prios.prio[s.current] != s.prios.base[s.current] && ps.held[s.current] == 0
    then Reprioritise(s, ps, s.current) else s.(prios := ps)
  }

  /** vTaskPriorityDisinheritAfterTimeout */
  function PriorityDisinheritAfterTimeout(s: Sched, holder: Task, highestWaiting: nat): Sched
    requires s.prios.Valid() && holder in s.prios.prio && holder in s.lists.place && highestWaiting < s.prios.max
  {
    var ps := DisinheritAfterTimeout(s.prios, holder, highestWaiting);
    if ps == s.prios then s else Reprioritise(s, ps, holder)
  }

  /** The search of taskSELECT_HIGHEST_PRIORITY_TASK for a list that is not empty. */
  function TopReady(ready: seq<Ring<Task>>, p: nat): (q: nat)
    requires p < |ready|
    ensures q <= p
    ensures forall k :: q < k <= p ==> ready[k].items == []
    ensures (exists k :: 0 <= k <= p && ready[k].items != []) ==> ready[q].items != []
    decreases p
  {
    if ready[p].items != [] || p == 0 then p else TopReady(ready, p - 1)
  }

  /** vTaskSwitchContext */
  function SwitchContext(s: Sched): Sched {
    if s.depth > 0 then s.(yieldPending := true)
    else
      var s := s.(yieldPending := false);
      if s.lists.top >= |s.lists.ready| then s
      else
        var p := TopReady(s.lists.ready, s.lists.top);
        var r := s.lists.ready[p];
        if r.items == [] || r.index > |r.items| then s
        else s.(lists := s.lists.(ready := s.lists.ready[p := NextEntry(r)], top := p),
                current := Selected(NextEntry(r)))
  }

  // ----- each keeps the invariant

  /** No time passes. */
  ghost predicate SameTime(s: Sched, r: Sched) {
    r.m == s.m && r.base == s.base && r.tick == s.tick && r.pended == s.pended
  }

  lemma RemoveFromEventListKeepsInv(s: Sched, t: Task)
    requires Inv(s) && t in s.onEvent
    ensures var r := RemoveFromEventList(s, t);
            && Inv(r) && SameTime(s, r) && (r.lists.due == s.lists.due || r.lists.due == s.lists.due - {t})
            && r.onEvent == s.onEvent - {t} && (r.yieldPending <==> s.yieldPending || Outranked(s, {t}))
            && (if s.depth == 0 then r.lists.place == s.lists.place[t := Ready(s.prios.Of(t))] && r.pending == s.pending
                else r.lists == s.lists && r.pending == s.pending + [t])
  {
    hide Homes;
    if s.depth == 0 {
      MakeReadyKeepsHomes(s.lists, s.prios, s.base, s.m, t);
    } else {
      assert t !in s.pending;
      AppendMembers(s.pending, t);
    }
  }

  lemma RemoveFromUnorderedKeepsInv(s: Sched, t: Task)
    requires Inv(s) && t in s.onEvent
    ensures var r := RemoveFromUnorderedEventList(s, t);
            && Inv(r) && SameTime(s, r) && r.lists.due == s.lists.due - {t}
            && r.lists.place == s.lists.place[t := Ready(s.prios.Of(t))]
            && r.onEvent == s.onEvent - {t} && r.pending == s.pending
            && (r.yieldPending <==> s.yieldPending || Outranked(s, {t}))
  {
    hide Homes;
    MakeReadyKeepsHomes(s.lists, s.prios, s.base, s.m, t);
  }

  /** The next unblock time as recomputed is right whenever no wake time has passed. */
  lemma NextUnblockKeepsClock(l: TaskLists, ps: Prios, base: nat, m: Modulus, tick: nat)
    requires Homes(l, ps, base, m) && tick < m && forall t :: t in l.due ==> base + tick < l.due[t]
    ensures Clock(l.due, base, tick, NextUnblock(l.delayed, m), m)
  {
    hide Homes;
    if l.delayed == [] {
      NoneDelayed(l, ps, base, m);
    } else {
      HeadOfDelayed(l, ps, base, m);
    }
  }

  lemma SuspendTaskKeepsInv(s: Sched, t: Task)
    requires Inv(s) && t in s.lists.place && t != s.idle
    ensures var r := SuspendTask(s, t);
            && Inv(r) && SameTime(s, r) && r.lists.due == s.lists.due - {t}
            && r.lists.place == s.lists.place[t := Suspended]
            && r.onEvent == s.onEvent - {t} && (forall x :: x in r.pending <==> x in s.pending && x != t)
  {
    hide Homes, Detach;
    var d, r := Detach(s.lists, t), SuspendTask(s, t);
    DetachKeepsHomes(s.lists, s.prios, s.base, s.m, t);
    AddSuspendedKeepsHomes(d, s.prios, s.base, s.m, t);
    NextUnblockKeepsClock(r.lists, s.prios, s.base, s.m, s.tick);
    if t in s.pending {
      RemoveAtMembers(s.pending, IndexOf(s.pending, t));
    }
  }

  lemma SuspendedIsNotDelayed(s: Sched, t: Task)
    requires Inv(s) && IsSuspended(s, t)
    ensures t !in s.lists.due && s.lists.due - {t} == s.lists.due
  {
  }

  lemma ReadySuspendedKeepsInv(s: Sched, t: Task, y: bool)
    requires Inv(s) && IsSuspended(s, t)
    ensures var r := s.(lists := MakeReady(s.lists, s.prios, t), yieldPending := y);
            && Inv(r) && SameTime(s, r) && r.lists.due == s.lists.due
            && r.lists.place == s.lists.place[t := Ready(s.prios.Of(t))]
  {
    SuspendedIsNotDelayed(s, t);
    assert t in s.prios.prio.Keys;
    hide Homes, MakeReady, Clock, Events, Tasks;
    MakeReadyKeepsHomes(s.lists, s.prios, s.base, s.m, t);
    EventsAfterReady(s.pending, s.onEvent, s.lists.place, t, Ready(s.prios.Of(t)));
    TasksAfterReady(s.lists.place, s.prios.prio, s.current, s.idle, t, Ready(s.prios.Of(t)));
  }

  lemma TasksAfterReady(place: map<Task, Place>, prio: map<Task, nat>, current: Task, idle: Task, t: Task, k: Place)
    requires Tasks(place, prio, current, idle) && t in place && k.Ready?
    ensures Tasks(place[t := k], prio, current, idle)
  {
  }

  lemma ResumeTaskKeepsInv(s: Sched, t: Task)
    requires Inv(s)
    ensures var r := ResumeTask(s, t);
            && Inv(r) && SameTime(s, r) && r.lists.due == s.lists.due && r.pending == s.pending
               && r.onEvent == s.onEvent
            && (if t != s.current && IsSuspended(s, t) then r.lists.place == s.lists.place[t := Ready(s.prios.Of(t))]
                else r == s)
  {
    hide Core, MakeReady;
    if IsSuspended(s, t) { ReadySuspendedKeepsInv(s, t, s.yieldPending); }
  }

  lemma ResumeFromISRKeepsInv(s: Sched, t: Task)
    requires Inv(s)
    ensures var r := ResumeFromISR(s, t);
            && Inv(r) && SameTime(s, r) && r.lists.due == s.lists.due && r.onEvent == s.onEvent
            && (if !IsSuspended(s, t) then r == s
                else if s.depth == 0 then r.lists.place == s.lists.place[t := Ready(s.prios.Of(t))]
                  && r.pending == s.pending && (r.yieldPending <==> s.yieldPending || Outranked(s, {t}))
                else r.lists == s.lists && r.pending == s.pending + [t])
    ensures IsSuspended(s, t) ==> t !in s.lists.due
  {
    hide Homes, Clock, MakeReady;
    if IsSuspended(s, t) {
      SuspendedIsNotDelayed(s, t);
      ReadySuspendedKeepsInv(s, t, ResumeFromISR(s, t).yieldPending);
      AppendMembers(s.pending, t);
    }
  }

  /** Other priority fields, with the same priorities for all known tasks but one. */
  ghost predicate OnlyChanges(ps: Prios, ps': Prios, t: Task) {
    && ps'.Valid() && ps'.max == ps.max && ps.prio.Keys <= ps'.prio.Keys && t in ps'.prio
    && (forall x :: x in ps.prio && x != t ==> ps'.prio[x] == ps.prio[x])
  }

  /** The lists do not mind the change while the task is on no ready list. */
  lemma HomesUnder(l: TaskLists, ps: Prios, ps': Prios, base: nat, m: Modulus, t: Task)
    requires Homes(l, ps, base, m) && OnlyChanges(ps, ps', t) && (t !in l.place || !l.place[t].Ready?)
    ensures Homes(l, ps', base, m)
  {
    hide ReadyLists, SuspendedPart, DelayPart;
  }

  lemma CreateChangesOne(ps: Prios, t: Task, p: nat)
    requires ps.Valid() && t !in ps.prio && p < ps.max
    ensures OnlyChanges(ps, Create(ps, t, p), t) && Create(ps, t, p).prio[t] == p
  {
  }

  lemma CreateKeepsHomes(l: TaskLists, ps: Prios, base: nat, m: Modulus, t: Task, p: nat)
    requires Homes(l, ps, base, m) && t !in l.place && p < ps.max && ps.Valid() && t !in ps.prio
    ensures Homes(AddReady(l, p, t), Create(ps, t, p), base, m)
  {
    hide Homes, OnlyChanges, Create, AddReady;
    var ps' := Create(ps, t, p);
    CreateChangesOne(ps, t, p);
    HomesUnder(l, ps, ps', base, m, t);
    AddReadyKeepsHomes(l, ps', base, m, t);
  }

  lemma CreateTaskKeepsInv(s: Sched, t: Task, p: nat)
    requires Inv(s) && t !in s.lists.place && p < s.prios.max
    ensures var r := CreateTask(s, t, p);
            && Inv(r) && SameTime(s, r) && r.lists.due == s.lists.due
            && r.lists.place == s.lists.place[t := Ready(p)] && r.pending == s.pending && r.onEvent == s.onEvent
            && r.prios.prio == s.prios.prio[t := p] && r.prios.base == s.prios.base[t := p]
            && r.prios.held == s.prios.held[t := 0] && r.prios.event == s.prios.event[t := s.prios.max - p]
  {
    CreateKeepsHomes(s.lists, s.prios, s.base, s.m, t, p);
    assert t !in s.pending && t !in s.onEvent;
    hide Homes, Clock, Events, Tasks;
    EventsAfterReady(s.pending, s.onEvent, s.lists.place, t, Ready(p));
    TasksAfterCreate(s.lists.place, s.prios, s.current, s.idle, t, p);
  }

  lemma TasksAfterCreate(place: map<Task, Place>, ps: Prios, current: Task, idle: Task, t: Task, p: nat)
    requires Tasks(place, ps.prio, current, idle) && t !in place && p < ps.max
    ensures Tasks(place[t := Ready(p)], Create(ps, t, p).prio, current, idle)
  {
  }

  /** A task that waits for nothing is put on a ready list. */
  lemma EventsAfterReady(pending: seq<Task>, onEvent: set<Task>, place: map<Task, Place>, t: Task, k: Place)
    requires Events(pending, onEvent, place) && t !in pending
    ensures t !in onEvent ==> Events(pending, onEvent, place[t := k])
    ensures Events(pending, onEvent - {t}, place[t := k])
  {
  }

  lemma RelistReadyKeepsHomes(l: TaskLists, ps: Prios, ps': Prios, base: nat, m: Modulus, t: Task)
    requires Homes(l, ps, base, m) && OnlyChanges(ps, ps', t) && t in l.place && l.place[t] == Ready(ps.Of(t))
    ensures var l' := Relist(l, ps, ps', t);
            Homes(l', ps', base, m) && l'.due == l.due && l'.place == l.place[t := Ready(ps'.Of(t))]
  {
    assert t in ps'.prio && ps'.Of(t) == ps'.prio[t];
    hide ReadyPart, SuspendedPart, DelayPart, Homes, OnlyChanges, Detach, AddReady;
    var d := Detach(l, t);
    DetachKeepsHomes(l, ps, base, m, t);
    HomesUnder(d, ps, ps', base, m, t);
    AddReadyKeepsHomes(d, ps', base, m, t);
    PutBack(l.place, t, Ready(ps'.prio[t]));
    AddReadyFields(d, ps'.prio[t], t);
  }

  lemma PutBack(place: map<Task, Place>, t: Task, k: Place)
    ensures (place - {t})[t := k] == place[t := k]
  {
  }

  lemma AddReadyFields(l: TaskLists, p: nat, t: Task)
    ensures AddReady(l, p, t).place == l.place[t := Ready(p)] && AddReady(l, p, t).due == l.due
  {
  }

  lemma RelistKeepsHomes(l: TaskLists, ps: Prios, ps': Prios, base: nat, m: Modulus, t: Task)
    requires Homes(l, ps, base, m) && OnlyChanges(ps, ps', t) && t in l.place
    ensures var l' := Relist(l, ps, ps', t);
            && Homes(l', ps', base, m) && l'.due == l.due
            && l'.place == if l.place[t].Ready? then l.place[t := Ready(ps'.Of(t))] else l.place
  {
    assert l.place[t].Ready? ==> l.place[t] == Ready(ps.Of(t));
    hide Homes, OnlyChanges, Detach, AddReady;
    if l.place[t].Ready? {
      RelistReadyKeepsHomes(l, ps, ps', base, m, t);
    } else {
      HomesUnder(l, ps, ps', base, m, t);
    }
  }

  /** A change of one task's priority fields moves it to the ready list where it now belongs. */
  lemma ReprioritiseKeepsInv(s: Sched, ps: Prios, t: Task)
    requires Inv(s) && t in s.lists.place && OnlyChanges(s.prios, ps, t) && ps.prio.Keys == s.prios.prio.Keys
    ensures var r := Reprioritise(s, ps, t);
            && Inv(r) && SameTime(s, r) && r.lists.due == s.lists.due
            && r.lists.place == if s.lists.place[t].Ready? then s.lists.place[t := Ready(ps.Of(t))] else s.lists.place
  {
    RelistKeepsHomes(s.lists, s.prios, ps, s.base, s.m, t);
    hide Homes, Relist, OnlyChanges, Clock, Events, Tasks;
    SameReadiness(s, Relist(s.lists, s.prios, ps, t).place, t, ps);
  }

  lemma SameReadiness(s: Sched, place: map<Task, Place>, t: Task, ps: Prios)
    requires Events(s.pending, s.onEvent, s.lists.place) && Tasks(s.lists.place, s.prios.prio, s.current, s.idle)
    requires t in s.lists.place && ps.prio.Keys == s.prios.prio.Keys
    requires place == if s.lists.place[t].Ready? then s.lists.place[t := Ready(ps.Of(t))] else s.lists.place
    ensures Events(s.pending, s.onEvent, place) && Tasks(place, ps.prio, s.current, s.idle)
  {
  }

  lemma SetChangesOne(ps: Prios, t: Task, p: nat)
    requires ps.Valid() && t in ps.prio && p < ps.max
    ensures OnlyChanges(ps, SetPriority(ps, t, p), t) && SetPriority(ps, t, p).prio.Keys == ps.prio.Keys
  {
  }

  /** A task is on the ready list of priority p if it was on a ready list before; no other
      task is elsewhere than before, and nothing but priority fields has changed besides. */
  ghost predicate Relisted(s: Sched, r: Sched, t: Task, p: nat)
    requires t in s.lists.place
  {
    && r == s.(prios := r.prios, lists := r.lists) && r.lists.due == s.lists.due
    && r.lists.place == if s.lists.place[t].Ready? then s.lists.place[t := Ready(p)] else s.lists.place
  }

  lemma NothingRelisted(s: Sched, t: Task, ps: Prios)
    requires Inv(s) && t in s.lists.place && ps.Valid() && ps.max == s.prios.max && ps.prio == s.prios.prio
    ensures t in ps.prio && Inv(s.(prios := ps)) && Relisted(s, s.(prios := ps), t, ps.prio[t])
  {
    hide ReadyLists, SuspendedPart, DelayPart, Clock, Events;
    SamePriorities(s.lists, s.prios, ps, s.base, s.m);
    assert t in s.prios.prio.Keys;
    assert s.lists.place[t].Ready? ==> s.lists.place[t := Ready(ps.prio[t])] == s.lists.place;
  }

  lemma ChangedTask(ps: Prios, ps': Prios, t: Task)
    requires OnlyChanges(ps, ps', t)
    ensures t in ps'.prio && ps'.Of(t) == ps'.prio[t]
  {
  }

  lemma OneRelisted(s: Sched, t: Task, ps: Prios)
    requires Inv(s) && t in s.lists.place && OnlyChanges(s.prios, ps, t) && ps.prio.Keys == s.prios.prio.Keys
    ensures t in ps.prio && Reprioritise(s, ps, t).prios == ps
    ensures Inv(Reprioritise(s, ps, t)) && Relisted(s, Reprioritise(s, ps, t), t, ps.prio[t])
  {
    hide Core, Relist, OnlyChanges;
    ChangedTask(s.prios, ps, t);
    ReprioritiseKeepsInv(s, ps, t);
  }

  /** Every task on a list has all its priority fields. */
  lemma HasFields(s: Sched, t: Task)
    requires Inv(s) && t in s.lists.place
    ensures var ps := s.prios;
            && ps.Valid() && t in ps.prio && t in ps.base && t in ps.held && t in ps.event && ps.prio[t] < ps.max
            && ps.base[t] < ps.max && s.current in ps.prio && ps.prio[s.current] < ps.max
  {
    hide ReadyLists, SuspendedPart, DelayPart, Clock, Events;
    assert t in s.prios.prio.Keys;
  }

  /** A new base priority is also the new priority unless the task inherits one; the task is
      on the ready list of its priority if it is ready, and nobody else is touched. */
  lemma PrioritySetKeepsInv(s: Sched, t: Task, p: nat)
    requires Inv(s) && t in s.lists.place && p < s.prios.max
    ensures s.prios.Valid() && t in s.prios.prio && t in s.prios.base && t in s.prios.event
    ensures var r, ps := PrioritySet(s, t, p), s.prios;
            && Inv(r) && t in r.prios.prio && Relisted(s, r, t, r.prios.prio[t])
            && r.prios.base == ps.base[t := p] && r.prios.held == ps.held
            && r.prios.max == ps.max && r.prios.inUse == ps.inUse
            && r.prios.prio == ps.prio[t := if ps.base[t] == ps.prio[t] then p else ps.prio[t]]
            && r.prios.event == ps.event[t := if p == ps.base[t] || t in ps.inUse then ps.event[t] else ps.max - p]
  {
    hide Core, Relisted, OnlyChanges, Reprioritise, Prios.Valid, SetPriority;
    HasFields(s, t);
    SetTakesEffect(s.prios, t, p);
    SetChangesOne(s.prios, t, p);
    NothingRelisted(s, t, s.prios);
    OneRelisted(s, t, SetPriority(s.prios, t, p));
    assert s.(prios := s.prios) == s;
  }

  /** The holder comes to run at the greater of its own and the running task's priority; it is
      on the ready list of that priority if it is ready, and nobody else is touched. */
  lemma PriorityInheritKeepsInv(s: Sched, holder: Task)
    requires Inv(s) && holder in s.lists.place
    ensures s.prios.Valid() && holder in s.prios.prio && s.current in s.prios.prio
    ensures s.prios.prio[holder] < s.prios.max && s.prios.prio[s.current] < s.prios.max
    ensures var r, p := PriorityInherit(s, holder), Max(s.prios.prio[holder], s.prios.prio[s.current]);
            && Inv(r) && Relisted(s, r, holder, p) && r.prios.held == s.prios.held
            && ComesToRunAt(s.prios, r.prios, holder, p, holder in s.prios.inUse)
  {
    hide Core, Relisted, OnlyChanges, Reprioritise, Prios.Valid, Inherit;
    HasFields(s, holder);
    InheritRaises(s.prios, holder, s.current);
    NothingRelisted(s, holder, s.prios);
    assert s.(prios := s.prios) == s;
    if s.prios.prio[holder] < s.prios.prio[s.current] {
      InheritChanges(s.prios, holder, s.current);
      OneRelisted(s, holder, Inherit(s.prios, holder, s.current));
    }
  }

  lemma InheritChanges(ps: Prios, holder: Task, waiter: Task)
    requires ps.Valid() && holder in ps.prio && waiter in ps.prio
    ensures OnlyChanges(ps, Inherit(ps, holder, waiter), holder)
    ensures Inherit(ps, holder, waiter).prio.Keys == ps.prio.Keys
  {
  }

  /** A holder of one mutex falls to the greater of its base priority and the highest one
      still waiting, any other keeps its priority; and the rest as for inheriting. */
  lemma PriorityDisinheritAfterTimeoutKeepsInv(s: Sched, holder: Task, w: nat)
    requires Inv(s) && holder in s.lists.place && w < s.prios.max
    ensures s.prios.Valid() && holder in s.prios.prio && holder in s.prios.base && holder in s.prios.held
    ensures s.prios.prio[holder] < s.prios.max && s.prios.base[holder] < s.prios.max
    ensures var r := PriorityDisinheritAfterTimeout(s, holder, w);
            var p := if s.prios.held[holder] == 1 then Max(s.prios.base[holder], w) else s.prios.prio[holder];
            && Inv(r) && Relisted(s, r, holder, p) && r.prios.held == s.prios.held
            && ComesToRunAt(s.prios, r.prios, holder, p, holder in s.prios.inUse)
  {
    hide Core, Relisted, OnlyChanges, Reprioritise, Prios.Valid, DisinheritAfterTimeout;
    HasFields(s, holder);
    TimeoutLowers(s.prios, holder, w);
    NothingRelisted(s, holder, s.prios);
    AfterTimeoutChanges(s.prios, holder, w);
    assert s.(prios := s.prios) == s;
    if DisinheritAfterTimeout(s.prios, holder, w) != s.prios {
      OneRelisted(s, holder, DisinheritAfterTimeout(s.prios, holder, w));
    }
  }

  lemma AfterTimeoutChanges(ps: Prios, holder: Task, w: nat)
    requires ps.Valid() && holder in ps.prio && w < ps.max
    ensures OnlyChanges(ps, DisinheritAfterTimeout(ps, holder, w), holder)
    ensures DisinheritAfterTimeout(ps, holder, w).prio.Keys == ps.prio.Keys
  {
  }

  /** The running task holds one mutex less; with the last it falls to its base priority, and
      to the ready list of that; and nobody else is touched. */
  lemma PriorityDisinheritKeepsInv(s: Sched)
    requires Inv(s) && s.current in s.prios.held && s.prios.held[s.current] > 0
    ensures s.prios.Valid() && s.current in s.lists.place && s.current in s.prios.prio && s.current in s.prios.base
    ensures s.prios.prio[s.current] < s.prios.max && s.prios.base[s.current] < s.prios.max
    ensures var r, t := PriorityDisinherit(s), s.current;
            var p := if s.prios.held[t] == 1 then s.prios.base[t] else s.prios.prio[t];
            && Inv(r) && Relisted(s, r, t, p) && r.prios.held == s.prios.held[t := s.prios.held[t] - 1]
            && ComesToRunAt(s.prios, r.prios, t, p, false)
  {
    var t := s.current;
    assert t in s.lists.place by { hide Homes; }
    HasFields(s, t);
    hide Core, Relisted, OnlyChanges, Reprioritise;
    DisinheritRestores(s.prios, t);
    DisinheritChanges(s.prios, t);
    if s.prios.prio[t] != s.prios.base[t] && s.prios.held[t] == 1 {
      OneRelisted(s, t, Disinherit(s.prios, t));
    } else {
      NothingRelisted(s, t, Disinherit(s.prios, t));
    }
  }

  lemma DisinheritChanges(ps: Prios, t: Task)
    requires ps.Valid() && t in ps.prio && t in ps.held && ps.held[t] > 0
    ensures OnlyChanges(ps, Disinherit(ps, t), t) && Disinherit(ps, t).prio.Keys == ps.prio.Keys
  {
  }

  lemma SamePriorities(l: TaskLists, ps: Prios, ps': Prios, base: nat, m: Modulus)
    requires Homes(l, ps, base, m) && ps'.Valid() && ps'.max == ps.max && ps'.prio == ps.prio
    ensures Homes(l, ps', base, m)
  {
  }

  /** The use of an event list item by an event group does not concern the scheduler. */
  lemma ItemKeepsInv(s: Sched, ps: Prios)
    requires Inv(s) && s.current in s.lists.place
    requires (exists value :: ps == UseEventItem(s.prios, s.current, value)) || ps == ResetEventItem(s.prios, s.current)
    ensures var r := s.(prios := ps); Inv(r) && SameTime(s, r)
  {
    hide ReadyLists, SuspendedPart, DelayPart, Clock, Events;
    assert s.current in s.prios.prio.Keys;
    SamePriorities(s.lists, s.prios, ps, s.base, s.m);
  }

  // ----- the context switch

  /** The search ends at the highest list with a ready task: the idle task is always there. */
  lemma TopReadyIsHighest(l: TaskLists, ps: Prios, t: Task)
    requires ReadyPart(l.ready, l.top, l.place, ps) && t in l.place && l.place[t].Ready?
    ensures var q := TopReady(l.ready, l.top);
            && l.ready[q].items != [] && ps.Of(t) <= q && ps.Of(t) < |l.ready| && t in l.ready[ps.Of(t)].items
            && l.ready[q].Valid()
            && (forall x :: x in l.ready[q].items ==> x in l.place && l.place[x] == Ready(q))
  {
    var p, q := ps.Of(t), TopReady(l.ready, l.top);
    assert ReadyList(l.ready[p], p, l.place) && ReadyList(l.ready[q], q, l.place);
    assert t in At(l.place, Ready(p));
    assert t in Members(l.ready[p].items);
    forall x | x in l.ready[q].items ensures x in l.place && l.place[x] == Ready(q) {
      assert x in Members(l.ready[q].items);
    }
  }

  lemma NextEntryKeepsReady(l: TaskLists, ps: Prios, q: nat)
    requires ReadyPart(l.ready, l.top, l.place, ps) && q == TopReady(l.ready, l.top)
    requires l.ready[q].items != [] && l.ready[q].Valid()
    ensures ReadyPart(l.ready[q := NextEntry(l.ready[q])], q, l.place, ps)
  {
    var ready := l.ready[q := NextEntry(l.ready[q])];
    assert ReadyList(l.ready[q], q, l.place);
    SameReadyLists(l.ready, l.place, ready, l.place, q);
  }

  /** The task at the front of the serving order of a ready list is now current, and that
      order has moved on.  No ready task outranks it. */
  ghost predicate Selects(s: Sched, r: Sched) {
    var p := s.prios.Of(r.current);
    && r.current in r.lists.place && r.lists.place[r.current] == Ready(p)
    && (forall t :: t in r.lists.place && r.lists.place[t].Ready? ==> s.prios.Of(t) <= p)
    && p < |s.lists.ready| == |r.lists.ready| && s.lists.ready[p].Valid() && r.lists.ready[p].Valid()
    && var order := s.lists.ready[p].ServingOrder();
       && order != [] && r.current == order[0]
       && r.lists.ready[p].ServingOrder() == order[1..] + [order[0]]
  }

  /** A context switch selects, and cannot fail to find a task. */
  lemma SwitchContextSelects(s: Sched)
    requires Inv(s) && s.depth == 0
    ensures var r := SwitchContext(s);
            && Inv(r) && SameTime(s, r) && !r.yieldPending && r.lists.place == s.lists.place
               && r.lists.due == s.lists.due
            && Selects(s, r)
  {
    hide SuspendedPart, DelayPart, Clock, Events;
    var l, p, r := s.lists, TopReady(s.lists.ready, s.lists.top), SwitchContext(s);
    TopReadyIsHighest(l, s.prios, s.idle);
    NextEntryKeepsReady(l, s.prios, p);
    NextEntryRotates(l.ready[p]);
    forall t | t in l.place && l.place[t].Ready? ensures s.prios.Of(t) <= p {
      TopReadyIsHighest(l, s.prios, t);
    }
    hide ReadyLists;
    assert r.current in l.ready[p].items;
  }

  lemma SwitchKeepsInv(s: Sched)
    requires Inv(s)
    ensures var r := SwitchContext(s);
            && Inv(r) && SameTime(s, r) && r.lists.due == s.lists.due && r.pending == s.pending
            && r.lists.place == s.lists.place && r.onEvent == s.onEvent
            && (s.depth > 0 ==> r == s.(yieldPending := true))
  {
    SwitchLeavesWaits(s);
    hide Homes, Clock, Events, Tasks, SwitchContext, Selects;
    if s.depth == 0 { SwitchContextSelects(s); } else { SwitchHeldBack(s); }
  }

  lemma SwitchLeavesWaits(s: Sched)
    ensures var r := SwitchContext(s); SameTime(s, r) && r.pending == s.pending && r.onEvent == s.onEvent
  {
    hide TopReady;
  }

  lemma SwitchHeldBack(s: Sched)
    requires s.depth > 0
    ensures SwitchContext(s) == s.(yieldPending := true)
  {
  }

  // ----- time

  lemma TickKeepsInv(s: Sched)
    requires Inv(s)
    ensures Inv(Tick(s).0) && Tick(s).0.Now() + Tick(s).0.pended == s.Now() + s.pended + 1 && Tick(s).0.m == s.m
    ensures Tick(s).0.Now() >= s.Now()
  {
    hide TickOnce, Homes, Moved, Clock, Events, Tasks;
    if s.depth == 0 { TickExact(s); }
  }

  lemma SuspendAllKeepsInv(s: Sched)
    requires Inv(s)
    ensures var r := SuspendAll(s);
            Inv(r) && SameTime(s, r) && r.lists == s.lists && r.pending == s.pending && r.onEvent == s.onEvent
  {
    hide Homes, Clock, Events, Tasks;
  }

  lemma ResumeKeepsInv(s: Sched)
    requires Inv(s) && s.depth > 0
    ensures var r := ResumeAll(s).0;
            Inv(r) && r.Now() + r.pended == s.Now() + s.pended && r.m == s.m && r.Now() >= s.Now()
  {
    hide Replay, Drained, Homes, Moved, Clock, Events, Tasks;
    if s.depth == 1 { ResumeAllExact(s); }
  }

  /** The list that a task blocks on. */
  function BlockedOn(s: Sched, ticks: nat, indefinitely: bool): Place {
    if ticks == s.m - 1 && indefinitely then Suspended else if s.tick + ticks < s.m then Delayed else Overflow
  }

  lemma BlockPlaces(s: Sched, ticks: nat, indefinitely: bool, onEventList: bool)
    requires s.current in s.lists.place && s.tick < s.m && 0 < ticks < s.m
    ensures var r := BlockCurrent(s, ticks, indefinitely, onEventList);
            && SameTime(s, r) && r.pending == s.pending
            && r.lists.place == s.lists.place[s.current := BlockedOn(s, ticks, indefinitely)]
            && r.onEvent == if onEventList then s.onEvent + {s.current} else s.onEvent
  {
    DetachedPlace(s.lists, s.current);
    hide Detach, TwoLists.Insert;
    PutBack(s.lists.place, s.current, BlockedOn(s, ticks, indefinitely));
    assert Add(s.m, s.tick, ticks) < s.tick <==> s.tick + ticks >= s.m;
    hide Add;
  }

  lemma DetachedPlace(l: TaskLists, t: Task)
    requires t in l.place
    ensures Detach(l, t).place == l.place - {t}
  {
  }

  lemma BlockKeepsInv(s: Sched, ticks: nat, indefinitely: bool, onEventList: bool)
    requires Inv(s) && s.current in s.lists.place && s.lists.place[s.current].Ready?
    requires 0 < ticks < s.m && s.current != s.idle
    ensures var r := BlockCurrent(s, ticks, indefinitely, onEventList);
            && Inv(r) && SameTime(s, r) && r.pending == s.pending
            && r.lists.due == (if ticks == s.m - 1 && indefinitely then s.lists.due
                               else s.lists.due[s.current := s.Now() + ticks])
            && r.lists.place == s.lists.place[s.current := BlockedOn(s, ticks, indefinitely)]
            && r.onEvent == if onEventList then s.onEvent + {s.current} else s.onEvent
  {
    BlockPlaces(s, ticks, indefinitely, onEventList);
    hide Core, BlockCurrent;
    if ticks == s.m - 1 && indefinitely {
      BlockForeverKeepsInv(s, onEventList);
    } else {
      DelayCurrentKeepsInv(s, ticks, indefinitely, onEventList);
    }
  }

  // ----- the machine

  datatype Step =
    | TickInterrupt
    | SuspendScheduler | ResumeScheduler                              // vTaskSuspendAll, xTaskResumeAll
    | Block(ticks: nat, indefinitely: bool, onEventList: bool)
    | Event(t: Task) | UnorderedEvent(t: Task)        // the two forms of RemoveFromEventList
    | SuspendOf(t: Task) | ResumeOf(t: Task) | ResumeOfFromISR(t: Task)
    | CreateOf(t: Task, p: nat)
    | PrioritySetOf(t: Task, p: nat)
    | InheritFor(holder: Task) | GiveBack | AfterTimeout(holder: Task, highestWaiting: nat)
    | UseItem(value: nat) | ResetItem                 // of the running task, for an event group
    | Switch

  /** What the callers guarantee: only the running task blocks, never the idle task, and not
      for zero ticks; what is taken off an event list was on one; the counts match. */
  ghost predicate Enabled(s: Sched, a: Step) {
    match a
    case TickInterrupt => true
    case SuspendScheduler => true
    case ResumeScheduler => s.depth > 0
    case Block(ticks, _, _) => Running(s) && 0 < ticks < s.m && s.current != s.idle
    case Event(t) => t in s.onEvent
    case UnorderedEvent(t) => t in s.onEvent && s.depth > 0
    case SuspendOf(t) => t in s.lists.place && t != s.idle
    case ResumeOf(t) => true
    case ResumeOfFromISR(t) => true
    case CreateOf(t, p) => t !in s.lists.place && p < s.prios.max
    case PrioritySetOf(t, p) => t in s.lists.place && p < s.prios.max
    case InheritFor(holder) => holder in s.lists.place
    case GiveBack => s.current in s.prios.held && s.prios.held[s.current] > 0
    case AfterTimeout(holder, w) => holder in s.lists.place && w < s.prios.max
    case UseItem(value) => Running(s) && s.depth > 0
    case ResetItem => Running(s)
    case Switch => true
  }

  /** The current task has not just given up the processor. */
  predicate Running(s: Sched) {
    s.current in s.lists.place && s.lists.place[s.current].Ready?
  }

  function Apply(s: Sched, a: Step): Sched
    requires Inv(s) && Enabled(s, a)
  {
    hide ReadyLists, SuspendedPart, DelayPart, Events;
    match a
    case TickInterrupt => Tick(s).0
    case SuspendScheduler => SuspendAll(s)
    case ResumeScheduler => ResumeAll(s).0
    case Block(ticks, indefinitely, onEventList) => BlockCurrent(s, ticks, indefinitely, onEventList)
    case Event(t) => RemoveFromEventList(s, t)
    case UnorderedEvent(t) => RemoveFromUnorderedEventList(s, t)
    case SuspendOf(t) => SuspendTask(s, t)
    case ResumeOf(t) => ResumeTask(s, t)
    case ResumeOfFromISR(t) => ResumeFromISR(s, t)
    case CreateOf(t, p) => CreateTask(s, t, p)
    case PrioritySetOf(t, p) => PrioritySet(s, t, p)
    case InheritFor(holder) => PriorityInherit(s, holder)
    case GiveBack => PriorityDisinherit(s)
    case AfterTimeout(holder, w) => PriorityDisinheritAfterTimeout(s, holder, w)
    case UseItem(value) => s.(prios := UseEventItem(s.prios, s.current, value))
    case ResetItem => s.(prios := ResetEventItem(s.prios, s.current))
    case Switch => SwitchContext(s)
  }

  /** Every step keeps the invariant, and accounts for every tick: ticks applied and ticks
      held back together are the ticks delivered. */
  lemma StepKeepsInv(s: Sched, a: Step)
    requires Inv(s) && Enabled(s, a)
    ensures var r := Apply(s, a);
            && Inv(r) && r.m == s.m && r.Now() >= s.Now()
            && r.Now() + r.pended == s.Now() + s.pended + if a.TickInterrupt? then 1 else 0
  {
    hide Core, Tick, SuspendAll, ResumeAll, SwitchContext, BlockCurrent, RemoveFromEventList,
         RemoveFromUnorderedEventList, SuspendTask, ResumeTask, ResumeFromISR, CreateTask, PrioritySet,
         PriorityInherit, PriorityDisinherit, PriorityDisinheritAfterTimeout;
    match a {
      case TickInterrupt => TickKeepsInv(s);
      case SuspendScheduler => SuspendAllKeepsInv(s);
      case ResumeScheduler => ResumeKeepsInv(s);
      case Block(ticks, indefinitely, onEventList) => BlockKeepsInv(s, ticks, indefinitely, onEventList);
      case Event(t) => RemoveFromEventListKeepsInv(s, t);
      case UnorderedEvent(t) => RemoveFromUnorderedKeepsInv(s, t);
      case SuspendOf(t) => SuspendTaskKeepsInv(s, t);
      case ResumeOf(t) => ResumeTaskKeepsInv(s, t);
      case ResumeOfFromISR(t) => ResumeFromISRKeepsInv(s, t);
      case CreateOf(t, p) => CreateTaskKeepsInv(s, t, p);
      case PrioritySetOf(t, p) => PrioritySetKeepsInv(s, t, p);
      case InheritFor(holder) => PriorityInheritKeepsInv(s, holder);
      case GiveBack => PriorityDisinheritKeepsInv(s);
      case AfterTimeout(holder, w) => PriorityDisinheritAfterTimeoutKeepsInv(s, holder, w);
      case UseItem(value) => ItemKeepsInv(s, UseEventItem(s.prios, s.current, value));
      case ResetItem => ItemKeepsInv(s, ResetEventItem(s.prios, s.current));
      case Switch => SwitchKeepsInv(s);
    }
  }

  // ----- where the steps put tasks

  /** Where the task of a step is afterwards; all other tasks stay where they are. */
  function Destination(s: Sched, a: Step): map<Task, Place>
    requires Inv(s) && Enabled(s, a)
  {
    var p := s.lists.place;
    match a
    case Block(ticks, indefinitely, _) =>
      p[s.current := BlockedOn(s, ticks, indefinitely)]
    case Event(t) => if s.depth == 0 then p[t := Ready(s.prios.Of(t))] else p
    case UnorderedEvent(t) => p[t := Ready(s.prios.Of(t))]
    case SuspendOf(t) => p[t := Suspended]
    case ResumeOf(t) => if t != s.current && IsSuspended(s, t) then p[t := Ready(s.prios.Of(t))] else p
    case ResumeOfFromISR(t) => if IsSuspended(s, t) && s.depth == 0 then p[t := Ready(s.prios.Of(t))] else p
    case CreateOf(t, priority) => p[t := Ready(priority)]
    case _ => p
  }

  /** Steps of tasks and interrupts move only the task they are about, and only there.  (For
      the tick and the resumption of the scheduler see TickExact and ResumeAllExact.) */
  lemma StepMovesOneTask(s: Sched, a: Step)
    requires Inv(s) && Enabled(s, a) && !a.TickInterrupt? && !a.ResumeScheduler? && !ChangesPriority(a)
    ensures Apply(s, a).lists.place == Destination(s, a)
  {
    hide Core, Tick, SuspendAll, ResumeAll, SwitchContext, BlockCurrent, RemoveFromEventList,
         RemoveFromUnorderedEventList, SuspendTask, ResumeTask, ResumeFromISR, CreateTask, PrioritySet,
         PriorityInherit, PriorityDisinherit, PriorityDisinheritAfterTimeout, SameTime;
    match a {
      case Block(ticks, indefinitely, onEventList) => BlockKeepsInv(s, ticks, indefinitely, onEventList);
      case Event(t) => RemoveFromEventListKeepsInv(s, t);
      case UnorderedEvent(t) => RemoveFromUnorderedKeepsInv(s, t);
      case SuspendOf(t) => SuspendTaskKeepsInv(s, t);
      case ResumeOf(t) => ResumeTaskKeepsInv(s, t);
      case ResumeOfFromISR(t) => ResumeFromISRKeepsInv(s, t);
      case CreateOf(t, p) => CreateTaskKeepsInv(s, t, p);
      case SuspendScheduler => SuspendAllKeepsInv(s);
      case UseItem(value) =>
      case ResetItem =>
      case Switch => SwitchKeepsInv(s);
    }
  }

  /** The tasks on event lists, and those held pending, after such a step. */
  function WaitingAfter(s: Sched, a: Step): set<Task> {
    match a
    case Block(_, _, onEventList) => if onEventList then s.onEvent + {s.current} else s.onEvent
    case Event(t) => s.onEvent - {t}
    case UnorderedEvent(t) => s.onEvent - {t}
    case SuspendOf(t) => s.onEvent - {t}
    case _ => s.onEvent
  }

  function PendingAfter(s: Sched, a: Step): set<Task> {
    match a
    case Event(t) => if s.depth > 0 then Members(s.pending) + {t} else Members(s.pending)
    case ResumeOfFromISR(t) =>
      if IsSuspended(s, t) && s.depth > 0 then Members(s.pending) + {t} else Members(s.pending)
    case SuspendOf(t) => Members(s.pending) - {t}
    case _ => Members(s.pending)
  }

  lemma StepChangesWaits(s: Sched, a: Step)
    requires Inv(s) && Enabled(s, a) && !a.TickInterrupt? && !a.ResumeScheduler?
    ensures Apply(s, a).onEvent == WaitingAfter(s, a) && Members(Apply(s, a).pending) == PendingAfter(s, a)
  {
    hide Core, Tick, SuspendAll, ResumeAll, SwitchContext, BlockCurrent, RemoveFromEventList,
         RemoveFromUnorderedEventList, SuspendTask, ResumeTask, ResumeFromISR, CreateTask, PrioritySet,
         PriorityInherit, PriorityDisinherit, PriorityDisinheritAfterTimeout, SameTime, IsSuspended, Members;
    match a {
      case Block(ticks, indefinitely, onEventList) => BlockKeepsInv(s, ticks, indefinitely, onEventList);
      case Event(t) => RemoveFromEventListKeepsInv(s, t); MembersAppend(s.pending, t);
      case UnorderedEvent(t) => RemoveFromUnorderedKeepsInv(s, t);
      case SuspendOf(t) => SuspendedWaits(s, t);
      case ResumeOf(t) => ResumeTaskKeepsInv(s, t);
      case ResumeOfFromISR(t) => ResumeFromISRKeepsInv(s, t); MembersAppend(s.pending, t);
      case CreateOf(t, p) => CreateTaskKeepsInv(s, t, p);
      case SuspendScheduler => SuspendAllKeepsInv(s);
      case UseItem(value) =>
      case ResetItem =>
      case Switch => SwitchKeepsInv(s);
      case _ => PriorityChangesLeaveWaits(s, a);
    }
  }

  lemma SuspendedWaits(s: Sched, t: Task)
    requires Inv(s) && t in s.lists.place
    ensures SuspendTask(s, t).onEvent == s.onEvent - {t}
            && Members(SuspendTask(s, t).pending) == Members(s.pending) - {t}
  {
    assert NoDup(s.pending);
    MembersWithout(s.pending, t);
    hide Core, Detach, AddSuspended, NextUnblock, Members, Without;
  }

  lemma PriorityChangesLeaveWaits(s: Sched, a: Step)
    requires Inv(s) && Enabled(s, a) && ChangesPriority(a)
    ensures Apply(s, a).onEvent == s.onEvent && Apply(s, a).pending == s.pending
  {
    hide Core, Relist, SetPriority, Inherit, Disinherit, DisinheritAfterTimeout;
  }

  lemma MembersAppend(s: seq<Task>, t: Task)
    ensures Members(s + [t]) == Members(s) + {t}
  {
    AppendMembers(s, t);
  }

  lemma MembersWithout(s: seq<Task>, t: Task)
    requires NoDup(s)
    ensures Members(Without(s, t)) == Members(s) - {t}
  {
    if t in s { RemoveAtMembers(s, IndexOf(s, t)); }
  }

  predicate ChangesPriority(a: Step) {
    a.PrioritySetOf? || a.InheritFor? || a.GiveBack? || a.AfterTimeout?
  }

  // ----- runs

  /** prvInitialiseTaskLists, and the idle task as the first task. */
  function Start(m: Modulus, max: nat, idle: Task): Sched
    requires max > 0
  {
    var ready := [Ring([idle], 0)] + seq(max - 1, _ => Ring([], 0));
    Sched(m, idle, 0, Create(Prios(max, map[], map[], map[], map[], {}), idle, 0),
          TaskLists(map[idle := Ready(0)], ready, 0, [], [], map[], []), [], {}, 0, 0, m - 1, idle, 0, 0, false)
  }

  lemma StartKeepsInv(m: Modulus, max: nat, idle: Task)
    requires max > 0
    ensures Inv(Start(m, max, idle)) && Start(m, max, idle).Now() == 0
  {
    var l := Start(m, max, idle).lists;
    assert Members(l.delayed) == Window(l.due, 0, m) && Members(l.overflow) == Window(l.due, m, m);
    forall p | 0 <= p < max ensures Members(l.ready[p].items) == At(l.place, Ready(p)) {}
    assert Members(l.suspended) == At(l.place, Suspended);
  }

  ghost predicate Run(s: Sched, steps: seq<Step>)
    requires Inv(s)
    decreases |steps|
  {
    steps != [] ==> Enabled(s, steps[0]) && (StepKeepsInv(s, steps[0]); Run(Apply(s, steps[0]), steps[1..]))
  }

  ghost function After(s: Sched, steps: seq<Step>): Sched
    requires Inv(s) && Run(s, steps)
    decreases |steps|
  {
    if steps == [] then s else (StepKeepsInv(s, steps[0]); After(Apply(s, steps[0]), steps[1..]))
  }

  function Delivered(steps: seq<Step>): nat {
    if steps == [] then 0 else (if steps[0].TickInterrupt? then 1 else 0) + Delivered(steps[1..])
  }

  /** In every reachable state each task is on exactly one list, the one it should be on, and
      no tick has been lost. */
  lemma {:induction false} RunKeepsInv(s: Sched, steps: seq<Step>)
    requires Inv(s) && Run(s, steps)
    ensures var r := After(s, steps);
            Inv(r) && r.m == s.m && r.Now() + r.pended == s.Now() + s.pended + Delivered(steps)
    decreases |steps|
  {
    hide Core, Apply, Enabled;
    if steps != [] {
      StepKeepsInv(s, steps[0]);
      RunKeepsInv(Apply(s, steps[0]), steps[1..]);
    }
  }

  /** Steps that end a task's wait before its time. */
  predicate Ends(a: Step, t: Task) {
    a == Event(t) || a == UnorderedEvent(t) || a == SuspendOf(t)
  }

  /** The task is blocked until that unbounded time. */
  ghost predicate DelayedUntil(s: Sched, t: Task, wake: nat) {
    t in s.lists.due && s.lists.due[t] == wake && t !in s.pending
  }

  ghost predicate IsReady(s: Sched, t: Task) {
    t in s.lists.place && s.lists.place[t] == Ready(s.prios.Of(t))
  }

  lemma NotYetDue(s: Sched, t: Task, wake: nat)
    requires Inv(s) && DelayedUntil(s, t, wake)
    ensures s.Now() < wake && t in s.lists.place && !s.lists.place[t].Ready? && t !in Members(s.pending)
  {
  }

  lemma MovedAt(s: Sched, r: Sched, ts: set<Task>, t: Task, wake: nat)
    requires Moved(s, r, ts) && DelayedUntil(s, t, wake) && t in s.lists.place && t !in r.pending && r.prios == s.prios
    ensures if t in ts then IsReady(r, t) else DelayedUntil(r, t, wake)
  {
    if t in ts { StaysReady(s, r, ts, t); }
  }

  lemma TickAt(s: Sched, t: Task, wake: nat)
    requires Inv(s) && s.depth == 0 && DelayedUntil(s, t, wake)
    ensures var r := TickOnce(s).0; if r.Now() < wake then DelayedUntil(r, t, wake) else IsReady(r, t)
  {
    hide TickOnce, Homes, Moved, Clock, Tasks;
    NotYetDue(s, t, wake);
    TickExact(s);
    MovedAt(s, TickOnce(s).0, Expired(s.lists.due, s.Now() + 1), t, wake);
  }

  lemma ResumeAt(s: Sched, t: Task, wake: nat)
    requires Inv(s) && s.depth == 1 && DelayedUntil(s, t, wake)
    ensures var r := ResumeAll(s).0; if r.Now() < wake then DelayedUntil(r, t, wake) else IsReady(r, t)
  {
    hide ResumeAll, Homes, Moved, Clock, Tasks;
    NotYetDue(s, t, wake);
    ResumeAllExact(s);
    MovedAt(s, ResumeAll(s).0, Members(s.pending) + Expired(s.lists.due, s.Now() + s.pended), t, wake);
  }

  /** A step that passes time leaves a task delayed as long as its time has not come. */
  lemma TimeStepOnTime(s: Sched, a: Step, t: Task, wake: nat)
    requires Inv(s) && Enabled(s, a) && DelayedUntil(s, t, wake) && (a.TickInterrupt? || a.ResumeScheduler?)
    ensures var r := Apply(s, a); if r.Now() < wake then DelayedUntil(r, t, wake) else IsReady(r, t)
  {
    NotYetDue(s, t, wake);
    if a.TickInterrupt? && s.depth == 0 {
      TickAt(s, t, wake);
    } else if a.ResumeScheduler? && s.depth == 1 {
      ResumeAt(s, t, wake);
    }
  }

  /** The steps that leave the delayed tasks alone altogether. */
  predicate NotAboutDelays(a: Step) {
    a.SuspendScheduler? || a.CreateOf? || a.PrioritySetOf? || a.InheritFor? || a.GiveBack? || a.AfterTimeout?
      || a.Switch?
    || a.UseItem? || a.ResetItem?
  }

  lemma NotAboutDelaysKeepsThem(s: Sched, a: Step)
    requires Inv(s) && Enabled(s, a) && NotAboutDelays(a)
    ensures var r := Apply(s, a); SameTime(s, r) && r.lists.due == s.lists.due && r.pending == s.pending
  {
    hide Core, Relist;
    match a {
      case SuspendScheduler =>
      case CreateOf(x, p) => CreateTaskKeepsInv(s, x, p);
      case PrioritySetOf(x, p) => PrioritySetKeepsInv(s, x, p);
      case InheritFor(holder) => PriorityInheritKeepsInv(s, holder);
      case GiveBack => PriorityDisinheritKeepsInv(s);
      case AfterTimeout(holder, w) => PriorityDisinheritAfterTimeoutKeepsInv(s, holder, w);
      case UseItem(value) => ItemKeepsInv(s, UseEventItem(s.prios, s.current, value));
      case ResetItem => ItemKeepsInv(s, ResetEventItem(s.prios, s.current));
      case Switch => SwitchKeepsInv(s);
    }
  }

  lemma BlockOnTime(s: Sched, ticks: nat, indefinitely: bool, onEventList: bool, t: Task, wake: nat)
    requires Inv(s) && Running(s) && 0 < ticks < s.m && s.current != s.idle && DelayedUntil(s, t, wake)
    ensures var r := BlockCurrent(s, ticks, indefinitely, onEventList); r.Now() == s.Now() && DelayedUntil(r, t, wake)
  {
    hide Core, BlockCurrent, BlockedOn;
    NotYetDue(s, t, wake);
    BlockKeepsInv(s, ticks, indefinitely, onEventList);
  }

  lemma EventOnTime(s: Sched, x: Task, t: Task, wake: nat)
    requires Inv(s) && DelayedUntil(s, t, wake) && x != t
    ensures x in s.onEvent ==> DelayedUntil(RemoveFromEventList(s, x), t, wake)
    ensures x in s.onEvent ==> DelayedUntil(RemoveFromUnorderedEventList(s, x), t, wake)
    ensures x in s.lists.place && x != s.idle ==> DelayedUntil(SuspendTask(s, x), t, wake)
  {
    hide Core, MakeReady, AddSuspended;
    if x in s.onEvent {
      RemoveFromEventListKeepsInv(s, x);
      RemoveFromUnorderedKeepsInv(s, x);
    }
    if x in s.lists.place && x != s.idle {
      SuspendTaskKeepsInv(s, x);
    }
  }

  lemma ResumeOnTime(s: Sched, x: Task, t: Task, wake: nat)
    requires Inv(s) && DelayedUntil(s, t, wake)
    ensures DelayedUntil(ResumeTask(s, x), t, wake) && DelayedUntil(ResumeFromISR(s, x), t, wake)
  {
    hide Core, ResumeTask, ResumeFromISR;
    ResumeTaskKeepsInv(s, x);
    ResumeFromISRKeepsInv(s, x);
  }

  /** No other step touches a delayed task's wake time, unless it ends the wait. */
  lemma OtherStepOnTime(s: Sched, a: Step, t: Task, wake: nat)
    requires Inv(s) && Enabled(s, a) && DelayedUntil(s, t, wake)
    requires !a.TickInterrupt? && !a.ResumeScheduler? && !Ends(a, t)
    ensures Apply(s, a).Now() == s.Now() && DelayedUntil(Apply(s, a), t, wake)
  {
    if NotAboutDelays(a) {
      hide Apply, Core;
      NotAboutDelaysKeepsThem(s, a);
    } else {
      hide Core, BlockCurrent, MakeReady, SuspendTask, ResumeTask, ResumeFromISR, DelayedUntil;
      match a {
        case Block(ticks, indefinitely, onEventList) => BlockOnTime(s, ticks, indefinitely, onEventList, t, wake);
        case Event(x) => EventOnTime(s, x, t, wake);
        case UnorderedEvent(x) => EventOnTime(s, x, t, wake);
        case SuspendOf(x) => EventOnTime(s, x, t, wake); SuspendTaskKeepsInv(s, x);
        case ResumeOf(x) => ResumeOnTime(s, x, t, wake); ResumeTaskKeepsInv(s, x);
        case ResumeOfFromISR(x) => ResumeOnTime(s, x, t, wake); ResumeFromISRKeepsInv(s, x);
      }
    }
  }

  /** Any number of steps that do not end the wait leave the task delayed while its time has
      not come. */
  lemma {:induction false} StaysDelayed(s: Sched, steps: seq<Step>, t: Task, wake: nat)
    requires Inv(s) && Run(s, steps) && DelayedUntil(s, t, wake)
    requires forall a :: a in steps ==> !Ends(a, t)
    requires After(s, steps).Now() < wake
    ensures DelayedUntil(After(s, steps), t, wake)
    decreases |steps|
  {
    hide Core, Apply, Enabled, DelayedUntil, Ends;
    if steps != [] {
      var a, r := steps[0], Apply(s, steps[0]);
      StepKeepsInv(s, a);
      if r.Now() >= wake {
        TimeOnlyPasses(r, steps[1..]);
      } else if a.TickInterrupt? || a.ResumeScheduler? {
        TimeStepOnTime(s, a, t, wake);
        StaysDelayed(r, steps[1..], t, wake);
      } else {
        OtherStepOnTime(s, a, t, wake);
        StaysDelayed(r, steps[1..], t, wake);
      }
    }
  }

  lemma {:induction false} TimeOnlyPasses(s: Sched, steps: seq<Step>)
    requires Inv(s) && Run(s, steps)
    ensures After(s, steps).Now() >= s.Now()
    decreases |steps|
  {
    hide Core, Apply, Enabled;
    if steps != [] {
      StepKeepsInv(s, steps[0]);
      TimeOnlyPasses(Apply(s, steps[0]), steps[1..]);
    }
  }

  /** A delayed task that no event wakes becomes ready at the very step at which unbounded
      time reaches its wake time: delayed before that step, on its ready list after it. */
  lemma WakesExactlyOnTime(s: Sched, steps: seq<Step>, last: Step, t: Task, wake: nat)
    requires Inv(s) && Run(s, steps) && DelayedUntil(s, t, wake)
    requires forall a :: a in steps ==> !Ends(a, t)
    requires !Ends(last, t)
    requires var q := After(s, steps); Inv(q) && Enabled(q, last) && q.Now() < wake <= Apply(q, last).Now()
    ensures var q := After(s, steps); DelayedUntil(q, t, wake) && IsReady(Apply(q, last), t)
  {
    hide Core, Apply, Enabled, DelayedUntil, Ends, IsReady;
    var q := After(s, steps);
    StaysDelayed(s, steps, t, wake);
    if last.TickInterrupt? || last.ResumeScheduler? {
      TimeStepOnTime(q, last, t, wake);
    } else {
      OtherStepOnTime(q, last, t, wake);
    }
  }
}
