/** The priority fields of the task control blocks and the four rules by which tasks.c
    changes them.  Scheduler moves tasks between ready lists accordingly; MutexProtocol
    builds priority inheritance on them. */
module Priorities {

  type Task = nat

  /** uxPriority, uxBasePriority, uxMutexesHeld and the event list item value of every task,
      and the tasks whose item value an event group is using (the value then carries
      taskEVENT_LIST_ITEM_VALUE_IN_USE); max is configMAX_PRIORITIES. */
  datatype Prios = Prios(
    max: nat, prio: map<Task, nat>, base: map<Task, nat>, held: map<Task, nat>,
    event: map<Task, nat>, inUse: set<Task>)
  {
    ghost predicate Valid() {
      && prio.Keys == base.Keys == held.Keys == event.Keys
      && (forall t :: t in prio ==> prio[t] < max)
      && (forall t :: t in base ==> base[t] < max)
    }

    function Of(t: Task): nat {
      if t in prio then prio[t] else 0
    }

    /** A changed priority also changes the value under which event lists sort the task, if
        that value is not being used for anything else. */
    function With(t: Task, p: nat): Prios
      requires p < max
    {
      this.(prio := prio[t := p], event := if t in inUse then event else event[t := max - p])
    }
  }

  /** xTaskPriorityInherit */
  function Inherit(ps: Prios, holder: Task, waiter: Task): Prios
    requires ps.Valid() && holder in ps.prio && waiter in ps.prio
  {
    if ps.prio[holder] < ps.prio[waiter] then ps.With(holder, ps.prio[waiter]) else ps
  }

  /** Its result: whether the holder runs, now or already, above its base for this waiter. */
  predicate InheritanceOccurred(ps: Prios, holder: Task, waiter: Task)
    requires ps.Valid() && holder in ps.prio && waiter in ps.prio
  {
    ps.prio[holder] < ps.prio[waiter] || ps.base[holder] < ps.prio[waiter]
  }

  /** xTaskPriorityDisinherit, when the task gives a mutex back. */
  function Disinherit(ps: Prios, t: Task): Prios
    requires ps.Valid() && t in ps.prio && ps.held[t] > 0
  {
    var ps := ps.(held := ps.held[t := ps.held[t] - 1]);
    if ps.prio[t] != ps.base[t] && ps.held[t] == 0
    then ps.(prio := ps.prio[t := ps.base[t]], event := ps.event[t := ps.max - ps.base[t]])
    else ps
  }

  /** vTaskPriorityDisinheritAfterTimeout, when a waiter gives up. */
  function DisinheritAfterTimeout(ps: Prios, holder: Task, highestWaiting: nat): Prios
    requires ps.Valid() && holder in ps.prio && highestWaiting < ps.max
  {
    var use := if ps.base[holder] < highestWaiting then highestWaiting else ps.base[holder];
    if ps.prio[holder] != use && ps.held[holder] == 1 then ps.With(holder, use) else ps
  }

  /** pvTaskIncrementMutexHeldCount */
  function IncrementHeld(ps: Prios, t: Task): Prios
    requires ps.Valid() && t in ps.prio
  {
    ps.(held := ps.held[t := ps.held[t] + 1])
  }

  /** vTaskPrioritySet: an inherited priority stays in force. */
  function SetPriority(ps: Prios, t: Task, newPriority: nat): Prios
    requires ps.Valid() && t in ps.prio && newPriority < ps.max
  {
    if ps.base[t] == newPriority then ps
    else ps.(prio := if ps.base[t] == ps.prio[t] then ps.prio[t := newPriority] else ps.prio,
             base := ps.base[t := newPriority],
             event := if t in ps.inUse then ps.event else ps.event[t := ps.max - newPriority])
  }

  function Create(ps: Prios, t: Task, p: nat): Prios
    requires p < ps.max
  {
    Prios(ps.max, ps.prio[t := p], ps.base[t := p], ps.held[t := 0], ps.event[t := ps.max - p], ps.inUse - {t})
  }

  /** vTaskPlaceOnUnorderedEventList: an event group uses the item value of a waiting task. */
  function UseEventItem(ps: Prios, t: Task, value: nat): Prios {
    ps.(event := ps.event[t := value], inUse := ps.inUse + {t})
  }

  /** uxTaskResetEventItemValue: back to the value that mirrors the priority, whatever has
      happened to the priority meanwhile. */
  function ResetEventItem(ps: Prios, t: Task): Prios {
    var p := ps.Of(t);
    ps.(event := ps.event[t := if p <= ps.max then ps.max - p else 0], inUse := ps.inUse - {t})
  }

  function Max(a: nat, b: nat): (m: nat)
    ensures m >= a && m >= b && (m == a || m == b)
  {
    if a < b then b else a
  }

  /** One task comes to run at priority p; its event list value follows a change unless it is
      used otherwise.  Every other task, and every base priority, is as before. */
  ghost predicate ComesToRunAt(ps: Prios, r: Prios, t: Task, p: nat, used: bool)
    requires t in ps.prio && p <= ps.max
  {
    && r.max == ps.max && r.inUse == ps.inUse && r.base == ps.base && r.prio == ps.prio[t := p]
    && r.event == (if p == ps.prio[t] || used then ps.event else ps.event[t := ps.max - p])
  }

  /** The holder of a mutex comes to run at no less than the priority of the waiter, and at
      what it had if that is more. */
  lemma InheritRaises(ps: Prios, holder: Task, waiter: Task)
    requires ps.Valid() && holder in ps.prio && waiter in ps.prio
    ensures var r := Inherit(ps, holder, waiter);
            r.held == ps.held && ComesToRunAt(ps, r, holder, Max(ps.prio[holder], ps.prio[waiter]), holder in ps.inUse)
  {
    assert ps.prio[holder := ps.prio[holder]] == ps.prio;
  }

  /** With the last mutex the task is back at its base priority, and not before.  It is
      running, so its event list item is not in use. */
  lemma DisinheritRestores(ps: Prios, t: Task)
    requires ps.Valid() && t in ps.prio && t in ps.held && ps.held[t] > 0
    ensures t in ps.base
    ensures var r := Disinherit(ps, t);
            && r.held == ps.held[t := ps.held[t] - 1]
            && ComesToRunAt(ps, r, t, if ps.held[t] == 1 then ps.base[t] else ps.prio[t], false)
  {
    assert ps.prio[t := ps.prio[t]] == ps.prio;
  }

  /** A holder of one mutex falls to its base or to the highest priority that still waits,
      whichever is more; a holder of several stays where it is. */
  lemma TimeoutLowers(ps: Prios, holder: Task, highestWaiting: nat)
    requires ps.Valid() && holder in ps.prio && highestWaiting < ps.max
    ensures holder in ps.held && holder in ps.base
    ensures var r := DisinheritAfterTimeout(ps, holder, highestWaiting);
            && r.held == ps.held
            && ComesToRunAt(ps, r, holder,
                            if ps.held[holder] == 1 then Max(ps.base[holder], highestWaiting) else ps.prio[holder],
                            holder in ps.inUse)
  {
    assert ps.prio[holder := ps.prio[holder]] == ps.prio;
  }

  /** A new base priority takes effect at once unless the task inherits a priority; its event
      list value follows the new base unless an event group is using it. */
  lemma SetTakesEffect(ps: Prios, t: Task, p: nat)
    requires ps.Valid() && t in ps.prio && p < ps.max
    ensures t in ps.base && t in ps.event
    ensures var r := SetPriority(ps, t, p);
            && r.max == ps.max && r.inUse == ps.inUse && r.held == ps.held && r.base == ps.base[t := p]
            && r.prio == ps.prio[t := if ps.base[t] == ps.prio[t] then p else ps.prio[t]]
            && r.event == ps.event[t := if p == ps.base[t] || t in ps.inUse then ps.event[t] else ps.max - p]
  {
    assert ps.prio[t := ps.prio[t]] == ps.prio && ps.base[t := ps.base[t]] == ps.base;
    assert ps.event[t := ps.event[t]] == ps.event;
  }

  /** While a task inherits, vTaskPrioritySet changes its base priority only, so a priority
      that was not below the base stays so exactly if the new base does not exceed what the
      task has inherited, or nothing is inherited. */
  lemma PrioritySetMayOutgrowInheritance(ps: Prios, t: Task, newPriority: nat)
    requires ps.Valid() && t in ps.prio && newPriority < ps.max && ps.prio[t] >= ps.base[t]
    ensures var r := SetPriority(ps, t, newPriority);
            && r.base[t] == newPriority && (r.prio[t] == newPriority || (r.prio[t] == ps.prio[t] > ps.base[t]))
            && (r.prio[t] >= r.base[t] <==> ps.prio[t] == ps.base[t] || newPriority <= ps.prio[t])
  {
  }

  /** Such a case: a task of base priority 1 that has inherited 3 is given base priority 4,
      and goes on at 3. */
  lemma BaseOutgrowsPriority()
    ensures var ps := Prios(5, map[0 := 3], map[0 := 1], map[0 := 1], map[0 := 2], {});
            ps.Valid() && SetPriority(ps, 0, 4).base[0] == 4 && SetPriority(ps, 0, 4).prio[0] == 3
  {
  }
}
