/** The task lists of tasks.c as values: which list holds each task's state list item, the
    delayed lists against unbounded time, and the operations that move tasks between lists.
    Kernel runs the loops of tasks.c against these functions. */
module Scheduler {
  import opened ListSpec
  import opened TwoLists
  import opened Priorities

  /** pxContainer of a task's state list item. */
  datatype Place = Ready(priority: nat) | Delayed | Overflow | Suspended

  /** The lists that state list items are on, with the wake times of delayed tasks in
      unbounded time. */
  datatype TaskLists = TaskLists(
    place: map<Task, Place>,
    ready: seq<Ring<Task>>,            // pxReadyTasksLists
    top: nat,                          // uxTopReadyPriority
    delayed: seq<Entry>,               // pxDelayedTaskList
    overflow: seq<Entry>,              // pxOverflowDelayedTaskList
    due: map<Task, nat>,
    suspended: seq<Task>)              // xSuspendedTaskList

  /** The tick type wraps at this number; portMAX_DELAY is one less. */
  type Modulus = m: nat | 1 < m witness 2

  datatype Sched = Sched(
    m: Modulus, idle: Task, base: nat,     // tick modulus, idle task, unbounded begin of the tick epoch
    prios: Prios,
    lists: TaskLists,
    pending: seq<Task>,                // xPendingReadyList
    onEvent: set<Task>,                // tasks whose event list item is on an event list
    tick: nat, overflows: nat, next: nat,         // xTickCount, xNumOfOverflows, xNextTaskUnblockTime
    current: Task,                                // pxCurrentTCB
    depth: nat, pended: nat, yieldPending: bool)  // uxSchedulerSuspended, xPendedTicks, xYieldPending
  {
    function Now(): nat { base + tick }
  }

  function At(place: map<Task, Place>, l: Place): set<Task> {
    set t | t in place && place[t] == l
  }

  // ----- the invariant

  ghost predicate ReadyList(r: Ring<Task>, p: nat, place: map<Task, Place>) {
    r.Valid() && Members(r.items) == At(place, Ready(p))
  }

  /** Ready list p holds exactly the tasks placed there, each once. */
  ghost predicate ReadyLists(ready: seq<Ring<Task>>, place: map<Task, Place>) {
    && (forall p {:trigger ReadyList(ready[p], p, place)} :: 0 <= p < |ready| ==> ReadyList(ready[p], p, place))
    && (forall t :: t in place && place[t].Ready? ==> place[t].priority < |ready|)
  }

  /** The delayed lists hold the delayed tasks under their wake times, each in the list of
      the epoch in which it is to wake. */
  ghost predicate DelayPart(delayed: seq<Entry>, overflow: seq<Entry>, due: map<Task, nat>, base: nat, m: Modulus,
                            place: map<Task, Place>) {
    && Match(delayed, overflow, due, base, m)
    && (forall t :: (t in due <==> t in place && (place[t] == Delayed || place[t] == Overflow))
                 && (t in due ==> (place[t] == Delayed <==> due[t] < base + m)))
  }

  ghost predicate SuspendedPart(suspended: seq<Task>, place: map<Task, Place>) {
    NoDup(suspended) && Members(suspended) == At(place, Suspended)
  }

  /** Ready tasks are on the list of their priority, and no list above top has any. */
  ghost predicate ReadyPart(ready: seq<Ring<Task>>, top: nat, place: map<Task, Place>, ps: Prios) {
    && ps.Valid() && |ready| == ps.max && place.Keys <= ps.prio.Keys
    && ReadyLists(ready, place)
    && (forall t :: t in place && place[t].Ready? ==> place[t].priority == ps.prio[t])
    && top < |ready| && (forall p :: top < p < |ready| ==> ready[p].items == [])
  }

  /** Every placed task is on exactly the list it is placed on, exactly once. */
  ghost predicate Homes(l: TaskLists, ps: Prios, base: nat, m: Modulus) {
    && ReadyPart(l.ready, l.top, l.place, ps)
    && SuspendedPart(l.suspended, l.place)
    && DelayPart(l.delayed, l.overflow, l.due, base, m, l.place)
  }

  /** No wake time has been passed, and the cached next unblock time is not above any. */
  ghost predicate Clock(due: map<Task, nat>, base: nat, tick: nat, next: nat, m: Modulus) {
    && tick < m && next < m
    && (forall t :: t in due ==> base + tick < due[t] && base + next <= due[t])
  }

  /** Tasks that wait for an event, or have been readied while the scheduler is suspended,
      are on no ready list yet. */
  ghost predicate Events(pending: seq<Task>, onEvent: set<Task>, place: map<Task, Place>) {
    && NoDup(pending)
    && (forall t :: t in pending ==> t in place && !place[t].Ready? && t !in onEvent)
    && (forall t :: t in onEvent ==> t in place && !place[t].Ready?)
  }

  ghost predicate Core(s: Sched) {
    && Homes(s.lists, s.prios, s.base, s.m)
    && Clock(s.lists.due, s.base, s.tick, s.next, s.m)
    && Events(s.pending, s.onEvent, s.lists.place)
    && Tasks(s.lists.place, s.prios.prio, s.current, s.idle)
  }

  /** Every task is somewhere, and the idle task never leaves the ready lists. */
  ghost predicate Tasks(place: map<Task, Place>, prio: map<Task, nat>, current: Task, idle: Task) {
    && place.Keys == prio.Keys
    && current in place
    && idle in place && place[idle].Ready?
  }

  /** While the scheduler is not suspended nothing is deferred. */
  ghost predicate Inv(s: Sched) {
    Core(s) && (s.depth == 0 ==> s.pending == [] && s.pended == 0)
  }

  // ----- single moves of a task between lists

  /** prvAddTaskToReadyList of a task that is on no list. */
  function AddReady(l: TaskLists, p: nat, t: Task): TaskLists {
    l.(place := l.place[t := Ready(p)],
       ready := if p < |l.ready| && l.ready[p].index <= |l.ready[p].items| then l.ready[p := InsertEnd(l.ready[p], t)]
                else l.ready,
       top := if p > l.top then p else l.top)
  }

  function RingWithout(r: Ring<Task>, t: Task): Ring<Task> {
    if t in r.items && r.index <= |r.items| then Remove(r, t) else r
  }

  function EntriesWithout(s: seq<Entry>, t: Task): seq<Entry> {
    if Find(s, t) < |s| then RemoveAt(s, Find(s, t)) else s
  }

  /** uxListRemove of the state list item, whichever list it is on. */
  function Detach(l: TaskLists, t: Task): TaskLists
    requires t in l.place
  {
    var d := l.(place := l.place - {t}, due := l.due - {t});
    match l.place[t]
    case Ready(p) => if p < |l.ready| then d.(ready := l.ready[p := RingWithout(l.ready[p], t)]) else d
    case Suspended => d.(suspended := Without(l.suspended, t))
    case Delayed => d.(delayed := EntriesWithout(l.delayed, t))
    case Overflow => d.(overflow := EntriesWithout(l.overflow, t))
  }

  /** A blocked task goes to the ready list of its priority. */
  function MakeReady(l: TaskLists, ps: Prios, t: Task): TaskLists {
    if t in l.place then AddReady(Detach(l, t), ps.Of(t), t) else l
  }

  /** vListInsert into the delayed list of the epoch in which that unbounded time lies. */
  function AddDelayed(l: TaskLists, t: Task, time: nat, base: nat, m: Modulus): TaskLists
    requires time >= base
  {
    if time < base + m then
      l.(place := l.place[t := Delayed], delayed := Insert(l.delayed, Entry(t, time - base)), due := l.due[t := time])
    else
      l.(place := l.place[t := Overflow], overflow := Insert(l.overflow, Entry(t, time - base - m)),
         due := l.due[t := time])
  }

  function AddSuspended(l: TaskLists, t: Task): TaskLists {
    l.(place := l.place[t := Suspended], suspended := l.suspended + [t])
  }

  lemma PlaceMoves(place: map<Task, Place>, t: Task, l: Place)
    ensures t !in place ==> At(place[t := l], l) == At(place, l) + {t}
    ensures t !in place ==> forall k :: k != l ==> At(place[t := l], k) == At(place, k)
    ensures t in place && place[t] == l ==> At(place - {t}, l) == At(place, l) - {t}
    ensures t in place && place[t] == l ==> forall k :: k != l ==> At(place - {t}, k) == At(place, k)
  {
    var up, down := place[t := l], place - {t};
    assert forall x :: x in up <==> x in place || x == t;
    assert forall x :: x in down <==> x in place && x != t;
    if t in place && place[t] == l {
      forall k | k != l ensures At(down, k) == At(place, k) {}
    }
    if t !in place {
      forall k | k != l ensures At(up, k) == At(place, k) {}
    }
  }

  lemma RingInsertEnd(r: Ring<Task>, t: Task)
    requires r.Valid() && t !in r.items
    ensures InsertEnd(r, t).Valid() && Members(InsertEnd(r, t).items) == Members(r.items) + {t}
  {
    if r.index == 0 {
      AppendMembers(r.items, t);
    } else {
      InsertAtMembers(r.items, r.index - 1, t);
    }
  }

  lemma RingRemove(r: Ring<Task>, t: Task)
    requires r.Valid() && t in r.items
    ensures Remove(r, t).Valid() && Members(Remove(r, t).items) == Members(r.items) - {t}
  {
    RemoveAtMembers(r.items, IndexOf(r.items, t));
  }

  // Each part under the arrival and the departure of a task.

  /** Of the ready lists only list k, if any, has changed. */
  lemma SameReadyLists(ready: seq<Ring<Task>>, place: map<Task, Place>, ready': seq<Ring<Task>>,
                       place': map<Task, Place>, k: nat)
    requires ReadyLists(ready, place) && |ready'| == |ready|
    requires forall p :: 0 <= p < |ready| && p != k ==>
             ready'[p] == ready[p] && At(place', Ready(p)) == At(place, Ready(p))
    requires k < |ready| ==> ReadyList(ready'[k], k, place')
    requires forall t :: t in place' && place'[t].Ready? ==>
             place'[t].priority == k || (t in place && place[t] == place'[t])
    requires forall t :: t in place' && place'[t].Ready? ==> place'[t].priority < |ready|
    ensures ReadyLists(ready', place')
  {
    forall p | 0 <= p < |ready'| ensures ReadyList(ready'[p], p, place') {
      assert ReadyList(ready[p], p, place);
    }
  }

  lemma ReadyArrival(ready: seq<Ring<Task>>, top: nat, place: map<Task, Place>, ps: Prios, t: Task)
    requires ReadyPart(ready, top, place, ps) && t in ps.prio && t !in place
    ensures var p := ps.prio[t];
            && ready[p].index <= |ready[p].items|
            && ReadyPart(ready[p := InsertEnd(ready[p], t)], if p > top then p else top, place[t := Ready(p)], ps)
  {
    var p := ps.prio[t];
    PlaceMoves(place, t, Ready(p));
    assert ReadyList(ready[p], p, place);
    assert t !in ready[p].items by { assert t !in Members(ready[p].items); }
    RingInsertEnd(ready[p], t);
    SameReadyLists(ready, place, ready[p := InsertEnd(ready[p], t)], place[t := Ready(p)], p);
  }

  lemma ReadyDeparture(ready: seq<Ring<Task>>, top: nat, place: map<Task, Place>, ps: Prios, t: Task)
    requires ReadyPart(ready, top, place, ps) && t in place && place[t].Ready?
    ensures var p := place[t].priority;
            && p < |ready| && t in ready[p].items && ready[p].index <= |ready[p].items|
            && ReadyPart(ready[p := RingWithout(ready[p], t)], top, place - {t}, ps)
  {
    var p := place[t].priority;
    assert ReadyList(ready[p], p, place);
    assert t in Members(ready[p].items) by { assert t in At(place, Ready(p)); }
    PlaceMoves(place, t, Ready(p));
    RingRemove(ready[p], t);
    SameReadyLists(ready, place, ready[p := RingWithout(ready[p], t)], place - {t}, p);
    assert p <= top;
  }

  lemma ReadyUnaffected(ready: seq<Ring<Task>>, top: nat, place: map<Task, Place>, ps: Prios, t: Task, l: Place)
    requires ReadyPart(ready, top, place, ps) && !l.Ready? && t in ps.prio
    ensures t !in place ==> ReadyPart(ready, top, place[t := l], ps)
    ensures t in place && place[t] == l ==> ReadyPart(ready, top, place - {t}, ps)
  {
    PlaceMoves(place, t, l);
    if t !in place { SameReadyLists(ready, place, ready, place[t := l], |ready|); }
    if t in place && place[t] == l { SameReadyLists(ready, place, ready, place - {t}, |ready|); }
  }

  lemma SuspendedArrival(suspended: seq<Task>, place: map<Task, Place>, t: Task)
    requires SuspendedPart(suspended, place) && t !in place
    ensures SuspendedPart(suspended + [t], place[t := Suspended])
  {
    PlaceMoves(place, t, Suspended);
    assert t !in suspended by { assert t !in Members(suspended); }
    AppendMembers(suspended, t);
    assert Members(suspended + [t]) == Members(suspended) + {t};
  }

  lemma SuspendedDeparture(suspended: seq<Task>, place: map<Task, Place>, t: Task)
    requires SuspendedPart(suspended, place) && t in place && place[t] == Suspended
    ensures SuspendedPart(Without(suspended, t), place - {t})
  {
    assert t in Members(suspended) by { assert t in At(place, Suspended); }
    PlaceMoves(place, t, Suspended);
    RemoveAtMembers(suspended, IndexOf(suspended, t));
    assert Members(RemoveAt(suspended, IndexOf(suspended, t))) == Members(suspended) - {t};
  }

  lemma SuspendedUnaffected(suspended: seq<Task>, place: map<Task, Place>, t: Task, l: Place)
    requires SuspendedPart(suspended, place) && l != Suspended
    ensures t !in place ==> SuspendedPart(suspended, place[t := l])
    ensures t in place && place[t] == l ==> SuspendedPart(suspended, place - {t})
  {
    PlaceMoves(place, t, l);
  }

  lemma DelayArrival(delayed: seq<Entry>, overflow: seq<Entry>, due: map<Task, nat>, base: nat, m: Modulus,
                     place: map<Task, Place>, t: Task, time: nat)
    requires DelayPart(delayed, overflow, due, base, m, place) && t !in place && base <= time < base + m + m
    ensures time < base + m ==>
              DelayPart(Insert(delayed, Entry(t, time - base)), overflow, due[t := time], base, m, place[t := Delayed])
    ensures time >= base + m ==>
              DelayPart(delayed, Insert(overflow, Entry(t, time - base - m)), due[t := time], base, m,
                        place[t := Overflow])
  {
    assert t !in due;
    InsertMatches(delayed, overflow, due, base, m, t, time);
  }

  lemma DelayDeparture(delayed: seq<Entry>, overflow: seq<Entry>, due: map<Task, nat>, base: nat, m: Modulus,
                       place: map<Task, Place>, t: Task)
    requires DelayPart(delayed, overflow, due, base, m, place) && t in place
    ensures place[t] == Delayed ==>
              DelayPart(EntriesWithout(delayed, t), overflow, due - {t}, base, m, place - {t})
    ensures place[t] == Overflow ==>
              DelayPart(delayed, EntriesWithout(overflow, t), due - {t}, base, m, place - {t})
  {
    if t in due {
      FindMatches(delayed, overflow, due, base, m, t);
      WithoutMatches(delayed, overflow, due, base, m, t);
    }
  }

  lemma DelayUnaffected(delayed: seq<Entry>, overflow: seq<Entry>, due: map<Task, nat>, base: nat, m: Modulus,
                        place: map<Task, Place>, t: Task, l: Place)
    requires DelayPart(delayed, overflow, due, base, m, place) && l != Delayed && l != Overflow
    ensures t !in place ==> t !in due && DelayPart(delayed, overflow, due, base, m, place[t := l])
    ensures t in place && place[t] == l ==>
              t !in due && due - {t} == due && DelayPart(delayed, overflow, due, base, m, place - {t})
  {
  }

  /** Every move keeps the lists in order. */
  lemma AddReadyKeepsHomes(l: TaskLists, ps: Prios, base: nat, m: Modulus, t: Task)
    requires Homes(l, ps, base, m) && t in ps.prio && t !in l.place
    ensures Homes(AddReady(l, ps.prio[t], t), ps, base, m)
  {
    var k := Ready(ps.prio[t]);
    ReadyArrival(l.ready, l.top, l.place, ps, t);
    SuspendedUnaffected(l.suspended, l.place, t, k);
    DelayUnaffected(l.delayed, l.overflow, l.due, base, m, l.place, t, k);
  }

  lemma DetachKeepsHomes(l: TaskLists, ps: Prios, base: nat, m: Modulus, t: Task)
    requires Homes(l, ps, base, m) && t in l.place
    ensures Homes(Detach(l, t), ps, base, m)
    ensures Detach(l, t).place == l.place - {t} && Detach(l, t).due == l.due - {t}
    ensures l.place[t].Ready? || l.place[t] == Suspended ==> Detach(l, t).due == l.due
  {
    var k := l.place[t];
    if k.Ready? {
      ReadyDeparture(l.ready, l.top, l.place, ps, t);
    } else {
      ReadyUnaffected(l.ready, l.top, l.place, ps, t, k);
    }
    if k == Suspended {
      SuspendedDeparture(l.suspended, l.place, t);
    } else {
      SuspendedUnaffected(l.suspended, l.place, t, k);
    }
    if k == Delayed || k == Overflow {
      DelayDeparture(l.delayed, l.overflow, l.due, base, m, l.place, t);
    } else {
      DelayUnaffected(l.delayed, l.overflow, l.due, base, m, l.place, t, k);
    }
  }

  lemma MakeReadyKeepsHomes(l: TaskLists, ps: Prios, base: nat, m: Modulus, t: Task)
    requires Homes(l, ps, base, m) && t in l.place && t in ps.prio
    ensures var l' := MakeReady(l, ps, t);
            && Homes(l', ps, base, m)
            && l'.place == l.place[t := Ready(ps.Of(t))] && l'.due == l.due - {t}
  {
    hide ReadyPart, SuspendedPart, DelayPart;
    DetachKeepsHomes(l, ps, base, m, t);
    AddReadyKeepsHomes(Detach(l, t), ps, base, m, t);
  }

  lemma AddDelayedKeepsHomes(l: TaskLists, ps: Prios, base: nat, m: Modulus, t: Task, time: nat)
    requires Homes(l, ps, base, m) && t in ps.prio && t !in l.place && base <= time < base + m + m
    ensures Homes(AddDelayed(l, t, time, base, m), ps, base, m)
  {
    var k := if time < base + m then Delayed else Overflow;
    ReadyUnaffected(l.ready, l.top, l.place, ps, t, k);
    SuspendedUnaffected(l.suspended, l.place, t, k);
    DelayArrival(l.delayed, l.overflow, l.due, base, m, l.place, t, time);
  }

  lemma AddSuspendedKeepsHomes(l: TaskLists, ps: Prios, base: nat, m: Modulus, t: Task)
    requires Homes(l, ps, base, m) && t in ps.prio && t !in l.place
    ensures Homes(AddSuspended(l, t), ps, base, m)
  {
    ReadyUnaffected(l.ready, l.top, l.place, ps, t, Suspended);
    SuspendedArrival(l.suspended, l.place, t);
    DelayUnaffected(l.delayed, l.overflow, l.due, base, m, l.place, t, Suspended);
  }

  /** Among tasks of equal priority a task that becomes ready is served after all others,
      except the one being served; no other ready list is touched. */
  lemma ReadyTaskIsServedLast(l: TaskLists, ps: Prios, base: nat, m: Modulus, t: Task)
    requires Homes(l, ps, base, m) && t in ps.prio && t !in l.place
    ensures var p, r := ps.prio[t], AddReady(l, ps.prio[t], t);
            && p < |l.ready| == |r.ready| && l.ready[p].Valid() && r.ready[p].Valid()
            && (forall q :: 0 <= q < |l.ready| && q != p ==> r.ready[q] == l.ready[q])
            && var order := l.ready[p].ServingOrder(); var n := |order|;
               r.ready[p].ServingOrder() ==
                 if l.ready[p].index == 0 then order + [t] else order[..n - 1] + [t] + [order[n - 1]]
  {
    hide Homes, NoDup, InsertEnd, Ring<Task>.ServingOrder;
    var p := ps.prio[t];
    AddReadyKeepsHomes(l, ps, base, m, t);
    RingsAreValid(l, ps, base, m);
    RingsAreValid(AddReady(l, p, t), ps, base, m);
    InsertEndServesLast(l.ready[p], t);
  }

  lemma RingsAreValid(l: TaskLists, ps: Prios, base: nat, m: Modulus)
    requires Homes(l, ps, base, m)
    ensures |l.ready| == ps.max && forall p :: 0 <= p < |l.ready| ==> l.ready[p].Valid()
    ensures forall t :: t in ps.prio ==> ps.prio[t] < ps.max
  {
    hide SuspendedPart, DelayPart, NoDup;
    forall p | 0 <= p < |l.ready| ensures l.ready[p].Valid() {
      assert ReadyList(l.ready[p], p, l.place);
    }
  }

  // ----- blocking

  /** The unbounded time that is meant by a wake time on either side of the wrap. */
  function WakeTime(m: Modulus, base: nat, tick: nat, ticks: nat): (time: nat)
    requires tick < m && ticks < m
    ensures time == base + tick + ticks
  {
    var wake := Add(m, tick, ticks);
    if wake < tick then base + m + wake else base + wake
  }

  /** prvAddCurrentTaskToDelayedList, after vTaskPlaceOnEventList if onEventList: the wake
      time is computed in wrapped ticks, and whether it has wrapped decides between the two
      lists. */
  function BlockCurrent(s: Sched, ticks: nat, canBlockIndefinitely: bool, onEventList: bool): Sched
    requires s.current in s.lists.place && s.tick < s.m && ticks < s.m
  {
    var t, d := s.current, Detach(s.lists, s.current);
    var s := s.(onEvent := if onEventList then s.onEvent + {t} else s.onEvent);
    if ticks == s.m - 1 && canBlockIndefinitely then s.(lists := AddSuspended(d, t))
    else
      var wake := Add(s.m, s.tick, ticks);
      s.(lists := AddDelayed(d, t, WakeTime(s.m, s.base, s.tick, ticks), s.base, s.m),
         next := if s.tick <= wake < s.next then wake else s.next)
  }

  /** A task leaves the ready lists; it may join an event list. */
  lemma EventsAfterBlock(pending: seq<Task>, onEvent: set<Task>, place: map<Task, Place>, t: Task, k: Place)
    requires Events(pending, onEvent, place) && t in place && place[t].Ready? && !k.Ready?
    ensures Events(pending, onEvent, place[t := k]) && Events(pending, onEvent + {t}, place[t := k])
  {
  }

  /** Blocking for a number of ticks means waking at now plus that number, in unbounded time,
      on whichever side of the wrap that is. */
  lemma DelayCurrentKeepsInv(s: Sched, ticks: nat, canBlockIndefinitely: bool, onEventList: bool)
    requires Inv(s) && 0 < ticks < s.m && s.lists.place[s.current].Ready? && s.current != s.idle
    requires !(ticks == s.m - 1 && canBlockIndefinitely)
    ensures var s' := BlockCurrent(s, ticks, canBlockIndefinitely, onEventList);
            Inv(s') && s'.Now() == s.Now() && s'.lists.due == s.lists.due[s.current := s.Now() + ticks]
  {
    hide Homes, Detach, Events, TwoLists.Insert;
    var t, d, time := s.current, Detach(s.lists, s.current), s.Now() + ticks;
    DetachKeepsHomes(s.lists, s.prios, s.base, s.m, t);
    AddDelayedKeepsHomes(d, s.prios, s.base, s.m, t, time);
    var l := AddDelayed(d, t, time, s.base, s.m);
    assert l.place == s.lists.place[t := l.place[t]];
    EventsAfterBlock(s.pending, s.onEvent, s.lists.place, t, l.place[t]);
  }

  /** The longest wait, where it is allowed, means for ever: no tick ever ends it. */
  lemma BlockForeverKeepsInv(s: Sched, onEventList: bool)
    requires Inv(s) && s.lists.place[s.current].Ready? && s.current != s.idle
    ensures var s' := BlockCurrent(s, s.m - 1, true, onEventList);
            Inv(s') && s'.Now() == s.Now() && s'.lists.due == s.lists.due
              && s'.lists.place == s.lists.place[s.current := Suspended]
  {
    hide ReadyPart, SuspendedPart, DelayPart;
    var t, d := s.current, Detach(s.lists, s.current);
    DetachKeepsHomes(s.lists, s.prios, s.base, s.m, t);
    AddSuspendedKeepsHomes(d, s.prios, s.base, s.m, t);
    assert AddSuspended(d, t).place == s.lists.place[t := Suspended];
    EventsAfterBlock(s.pending, s.onEvent, s.lists.place, t, Suspended);
  }
}
