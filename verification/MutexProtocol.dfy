/** Mutexes and recursive mutexes of queue.c with the priority inheritance of tasks.c, as a
    state machine in which the critical sections of any number of tasks interleave freely. */
module MutexProtocol {
  import opened ListSpec
  import opened Priorities

  type Name = nat

  datatype Holder = Nobody | HeldBy(t: Task)

  /** uxMessagesWaiting, xMutexHolder, uxRecursiveCallCount and xTasksWaitingToReceive of a
      mutex.  `under` is history: the waiters that blocked while the present holder held it. */
  datatype Mutex = Mutex(recursive: bool, count: nat, holder: Holder, calls: nat, waiters: seq<Task>, under: set<Task>)

  /** Where in xQueueSemaphoreTake or in the recursive calls a task is. */
  datatype Pc =
    | Outside
    | Trying(m: Name)      // at the top of the loop
    | Checking(m: Name)    // the mutex was not free; about to look at the timeout
    | Waiting(m: Name)     // on the event list
    | Undoing(m: Name)     // timed out, about to take back the inheritance
    | Counting(m: Name)    // has the mutex, about to count the recursive call
    | Releasing(m: Name)   // has counted down to 0, about to give

  /** What callers have seen: a take that has returned success, a give that has. */
  datatype Done = Took(t: Task, m: Name) | Gave(t: Task, m: Name)

  datatype State = State(
    ps: Prios, ms: map<Name, Mutex>, pc: map<Task, Pc>,
    inherited: set<Task>,                                  // xInheritanceOccurred of each task's call
    log: seq<Done>)

  // ----- what the critical sections do

  function EventValues(ps: Prios, ts: seq<Task>): (v: seq<nat>)
    ensures |v| == |ts|
  {
    seq(|ts|, i requires 0 <= i < |ts| => if ts[i] in ps.event then ps.event[ts[i]] else 0)
  }

  /** vListInsert of a task's event list item. */
  function InsertWaiter(ps: Prios, ts: seq<Task>, t: Task): seq<Task>
    requires t in ps.event
  {
    InsertAt(ts, InsertPos(EventValues(ps, ts), ps.event[t]), t)
  }

  /** prvGetDisinheritPriorityAfterTimeout */
  function HighestWaiting(ps: Prios, ts: seq<Task>): nat {
    if ts == [] || ts[0] !in ps.event || ps.event[ts[0]] > ps.max then 0 else ps.max - ps.event[ts[0]]
  }

  /** The successful path of xQueueSemaphoreTake. */
  function Acquire(x: Mutex, t: Task): Mutex
    requires x.count > 0
  {
    x.(count := x.count - 1, holder := HeldBy(t), under := {})
  }

  /** prvCopyDataToQueue and the wake-up of the first waiter in xQueueGenericSend. */
  function Release(x: Mutex): Mutex {
    x.(count := x.count + 1, holder := Nobody, under := {}, waiters := if x.waiters == [] then [] else x.waiters[1..])
  }

  datatype Step =
    | BeginTake(t: Task, m: Name)
    | TryTake(t: Task, mayWait: bool)
    | CountCall(t: Task)
    | Check(t: Task, timedOut: bool)
    | Undo(t: Task)
    | Expire(t: Task)                 // the tick ends a wait
    | UseItem(t: Task, value: nat)    // the task waits for an event group,
    | ResetItem(t: Task)              // and is back
    | Give(t: Task, m: Name)
    | GiveRecursive(t: Task, m: Name)
    | DoRelease(t: Task)

  ghost predicate Typed(s: State) {
    && s.ps.Valid() && s.pc.Keys == s.ps.prio.Keys
    && (forall t :: t in s.pc && s.pc[t] != Outside ==> s.pc[t].m in s.ms && t !in s.ps.inUse)
    && (forall m :: m in s.ms && s.ms[m].holder.HeldBy? ==> s.ms[m].holder.t in s.ps.prio)
  }

  /** Callers only give what they hold, use a mutex as what it was made, and do not block on a
      mutex while they hold one.  A task that waits for an event group calls nothing. */
  ghost predicate Enabled(s: State, a: Step)
    requires Typed(s)
  {
    a.t in s.pc &&
    match a
    case BeginTake(t, m) => s.pc[t] == Outside && m in s.ms && t !in s.ps.inUse
    case TryTake(t, _) => s.pc[t].Trying?
    case CountCall(t) => s.pc[t].Counting?
    case Check(t, timedOut) => s.pc[t].Checking? && (timedOut || s.ps.held[t] == 0)
    case Undo(t) => s.pc[t].Undoing?
    case Expire(t) => s.pc[t].Waiting?
    case Give(t, m) =>
      && s.pc[t] == Outside && m in s.ms && t !in s.ps.inUse
      && !s.ms[m].recursive && (s.ms[m].holder == HeldBy(t) || s.ms[m].count == 1)
    case GiveRecursive(t, m) => s.pc[t] == Outside && m in s.ms && t !in s.ps.inUse && s.ms[m].recursive
    case UseItem(t, _) => s.pc[t] == Outside && t !in s.ps.inUse
    case ResetItem(t) => t in s.ps.inUse
    case DoRelease(t) => s.pc[t].Releasing?
  }

  function AfterRelease(pc: map<Task, Pc>, x: Mutex, t: Task, m: Name): map<Task, Pc> {
    if x.waiters == [] then pc[t := Outside] else pc[t := Outside][x.waiters[0] := Trying(m)]
  }

  /** xQueueGenericSend on a mutex that the task holds. */
  function ReleaseBy(s: State, t: Task, m: Name): State
    requires s.ps.Valid() && t in s.ps.prio && m in s.ms
  {
    s.(ps := if s.ps.held[t] > 0 then Disinherit(s.ps, t) else s.ps, ms := s.ms[m := Release(s.ms[m])],
       pc := AfterRelease(s.pc, s.ms[m], t, m))
  }

  /** Blocking on a mutex that is held: inherit, then wait. */
  function BlockBy(s: State, t: Task, m: Name): State
    requires Typed(s) && t in s.ps.prio && m in s.ms
  {
    var x := s.ms[m];
    var (ps, i) := if x.holder.HeldBy?
      then (Inherit(s.ps, x.holder.t, t),
            if InheritanceOccurred(s.ps, x.holder.t, t) then s.inherited + {t} else s.inherited - {t})
      else (s.ps, s.inherited - {t});
    s.(ps := ps, inherited := i, pc := s.pc[t := Waiting(m)],
       ms := s.ms[m := x.(waiters := InsertWaiter(ps, x.waiters, t), under := x.under + {t})])
  }

  function TakeBy(s: State, t: Task, m: Name): State
    requires s.ps.Valid() && t in s.ps.prio && m in s.ms && s.ms[m].count > 0
  {
    s.(ps := IncrementHeld(s.ps, t), ms := s.ms[m := Acquire(s.ms[m], t)],
       pc := s.pc[t := if s.ms[m].recursive then Counting(m) else Outside],
       log := if s.ms[m].recursive then s.log else s.log + [Took(t, m)])
  }

  function UndoBy(s: State, t: Task, m: Name): State
    requires Typed(s) && t in s.pc && m in s.ms
  {
    var x := s.ms[m];
    var w := HighestWaiting(s.ps, x.waiters);
    s.(ps := if x.holder.HeldBy? && w < s.ps.max then DisinheritAfterTimeout(s.ps, x.holder.t, w) else s.ps,
       pc := s.pc[t := Outside])
  }

  /** What is left of the list when a task stops waiting. */
  function Quit(x: Mutex, t: Task): Mutex {
    x.(waiters := Without(x.waiters, t), under := x.under - {t})
  }

  function ExpireBy(s: State, t: Task, m: Name): State
    requires m in s.ms
  {
    s.(pc := s.pc[t := Trying(m)], ms := s.ms[m := Quit(s.ms[m], t)])
  }

  function Apply(s: State, a: Step): State
    requires Typed(s) && Enabled(s, a)
  {
    match a
    case BeginTake(t, m) =>
      if s.ms[m].recursive && s.ms[m].holder == HeldBy(t) then
        s.(ms := s.ms[m := s.ms[m].(calls := s.ms[m].calls + 1)], log := s.log + [Took(t, m)])
      else s.(pc := s.pc[t := Trying(m)], inherited := s.inherited - {t})
    case TryTake(t, mayWait) =>
      var m := s.pc[t].m;
      if s.ms[m].count > 0 then TakeBy(s, t, m)
      else s.(pc := s.pc[t := if mayWait then Checking(m) else Outside])
    case CountCall(t) =>
      var m := s.pc[t].m;
      s.(pc := s.pc[t := Outside], ms := s.ms[m := s.ms[m].(calls := s.ms[m].calls + 1)], log := s.log + [Took(t, m)])
    case Check(t, timedOut) =>
      var m := s.pc[t].m;
      if s.ms[m].count != 0 then s.(pc := s.pc[t := Trying(m)])
      else if !timedOut then BlockBy(s, t, m)
      else s.(pc := s.pc[t := if t in s.inherited then Undoing(m) else Outside])
    case Undo(t) => UndoBy(s, t, s.pc[t].m)
    case Expire(t) =>
      ExpireBy(s, t, s.pc[t].m)
    case Give(t, m) =>
      if s.ms[m].count >= 1 then s else ReleaseBy(s.(log := s.log + [Gave(t, m)]), t, m)
    case GiveRecursive(t, m) =>
      var x := s.ms[m];
      if x.holder != HeldBy(t) || x.calls == 0 then s
      else
        s.(ms := s.ms[m := x.(calls := x.calls - 1)], pc := s.pc[t := if x.calls == 1 then Releasing(m) else Outside],
           log := s.log + [Gave(t, m)])
    case DoRelease(t) => ReleaseBy(s, t, s.pc[t].m)
    case UseItem(t, value) => s.(ps := UseEventItem(s.ps, t, value))
    case ResetItem(t) => s.(ps := ResetEventItem(s.ps, t))
  }

  // ----- the invariant, one predicate for each concern

  /** The event list value mirrors the priority unless an event group uses it, and a task
      that holds no mutex runs at its base priority. */
  ghost predicate PrioritiesOk(ps: Prios) {
    && ps.Valid()
    && (forall t :: t in ps.prio && t !in ps.inUse ==> ps.event[t] == ps.max - ps.prio[t])
    && (forall t :: t in ps.prio ==> (ps.held[t] == 0 ==> ps.prio[t] == ps.base[t]))
  }

  function Held(ms: map<Name, Mutex>, t: Task): set<Name> {
    set m | m in ms && ms[m].holder == HeldBy(t)
  }

  /** uxMutexesHeld is the number of mutexes that name the task as their holder. */
  ghost predicate Accounts(held: map<Task, nat>, ms: map<Name, Mutex>) {
    forall t :: t in held ==> held[t] == |Held(ms, t)|
  }

  /** A mutex is free exactly when nobody holds it; the recursive calls are counted from the
      first to the last and between them the holder is somewhere in its calls. */
  ghost predicate MutexOk(x: Mutex, m: Name, pc: map<Task, Pc>) {
    && x.count == (if x.holder == Nobody then 1 else 0)
    && (x.holder == Nobody || !x.recursive ==> x.calls == 0)
    && (x.holder.HeldBy? && x.recursive ==>
          && x.holder.t in pc
          && (x.calls == 0 <==> pc[x.holder.t] == Counting(m) || pc[x.holder.t] == Releasing(m)))
    && (forall t :: t in pc && (pc[t] == Counting(m) || pc[t] == Releasing(m)) ==> x.recursive && x.holder == HeldBy(t))
  }

  /** On the list are the tasks that wait, once each, by descending priority, and they hold
      no mutex. */
  ghost predicate WaitersOk(ws: seq<Task>, m: Name, ps: Prios, pc: map<Task, Pc>) {
    && NoDup(ws)
    && (forall t :: t in ws <==> t in pc && pc[t] == Waiting(m))
    && (forall t :: t in ws ==> t in ps.held && ps.held[t] == 0 && t in ps.event && t !in ps.inUse)
    && Sorted(EventValues(ps, ws))
  }

  /** Priority inheritance: the holder runs at least at the priority of every task that
      blocked on the mutex under it and still waits. */
  ghost predicate Guarantee(x: Mutex, ps: Prios) {
    && (forall w :: w in x.under ==> w in x.waiters)
    && (x.holder.HeldBy? ==> x.holder.t in ps.prio)
    && (x.holder.HeldBy? ==> forall w :: w in x.under ==> w in ps.prio && ps.prio[w] <= ps.prio[x.holder.t])
  }

  ghost predicate Fine(x: Mutex, m: Name, ps: Prios, pc: map<Task, Pc>) {
    MutexOk(x, m, pc) && WaitersOk(x.waiters, m, ps, pc) && Guarantee(x, ps)
  }

  ghost predicate Inv(s: State) {
    && Typed(s) && PrioritiesOk(s.ps) && Accounts(s.ps.held, s.ms)
    && AllFine(s.ms, s.ps, s.pc)
  }

  ghost predicate AllFine(ms: map<Name, Mutex>, ps: Prios, pc: map<Task, Pc>) {
    forall m {:trigger Fine(ms[m], m, ps, pc)} :: m in ms ==> Fine(ms[m], m, ps, pc)
  }

  // ----- accounting

  lemma HeldChanges(ms: map<Name, Mutex>, m: Name, x: Mutex, t: Task)
    requires m in ms
    ensures x.holder == HeldBy(t) ==> Held(ms[m := x], t) == Held(ms, t) + {m}
    ensures x.holder != HeldBy(t) ==> Held(ms[m := x], t) == Held(ms, t) - {m}
    ensures m in Held(ms, t) <==> ms[m].holder == HeldBy(t)
  {
  }

  lemma AccountsAfterTake(held: map<Task, nat>, ms: map<Name, Mutex>, m: Name, x: Mutex, t: Task)
    requires Accounts(held, ms) && t in held && m in ms && ms[m].holder == Nobody && x.holder == HeldBy(t)
    ensures Accounts(held[t := held[t] + 1], ms[m := x])
  {
    forall u | u in held ensures held[t := held[t] + 1][u] == |Held(ms[m := x], u)| {
      HeldChanges(ms, m, x, u);
      assert u != t ==> Held(ms, u) - {m} == Held(ms, u);
    }
  }

  lemma AccountsAfterGive(held: map<Task, nat>, ms: map<Name, Mutex>, m: Name, x: Mutex, t: Task)
    requires Accounts(held, ms) && t in held && m in ms && ms[m].holder == HeldBy(t) && x.holder == Nobody
    ensures held[t] > 0 && Accounts(held[t := held[t] - 1], ms[m := x])
  {
    HeldChanges(ms, m, x, t);
    forall u | u in held ensures held[u] == |Held(ms, u)| == |Held(ms[m := x], u)| + if u == t then 1 else 0 {
      HeldChanges(ms, m, x, u);
      assert u != t ==> Held(ms, u) - {m} == Held(ms, u);
    }
  }

  lemma AccountsAfterOther(held: map<Task, nat>, ms: map<Name, Mutex>, m: Name, x: Mutex)
    requires Accounts(held, ms) && m in ms && x.holder == ms[m].holder
    ensures Accounts(held, ms[m := x])
  {
    forall u | u in held ensures Held(ms[m := x], u) == Held(ms, u) {
      HeldChanges(ms, m, x, u);
    }
  }

  /** A task that holds only this mutex is the holder of no other. */
  lemma OnlyMutexHeld(held: map<Task, nat>, ms: map<Name, Mutex>, m: Name, k: Name, t: Task)
    requires Accounts(held, ms) && t in held && held[t] == 1 && m in ms && k in ms
    requires ms[m].holder == HeldBy(t) && ms[k].holder == HeldBy(t)
    ensures k == m
  {
    assert m in Held(ms, t) && k in Held(ms, t);
    assert |Held(ms, t) - {m}| == 0;
    assert k !in Held(ms, t) - {m};
  }

  // ----- waiting

  /** Tasks that hold mutexes may change their priorities and other tasks their places
      without any effect on who waits here. */
  lemma WaitersUnaffected(ws: seq<Task>, m: Name, ps: Prios, pc: map<Task, Pc>, ps': Prios, pc': map<Task, Pc>)
    requires WaitersOk(ws, m, ps, pc)
    requires forall t :: (t in pc && pc[t] == Waiting(m)) <==> (t in pc' && pc'[t] == Waiting(m))
    requires forall t :: t in ws ==>
               t in ps'.held && ps'.held[t] == 0 && t in ps'.event && ps'.event[t] == ps.event[t] && t !in ps'.inUse
    ensures WaitersOk(ws, m, ps', pc')
  {
    assert EventValues(ps', ws) == EventValues(ps, ws);
  }

  lemma WaiterArrives(ws: seq<Task>, m: Name, ps: Prios, pc: map<Task, Pc>, t: Task)
    requires WaitersOk(ws, m, ps, pc) && t in ps.event && t in ps.held && ps.held[t] == 0 && t !in ps.inUse
    requires t in pc && pc[t] != Waiting(m)
    ensures WaitersOk(InsertWaiter(ps, ws, t), m, ps, pc[t := Waiting(m)])
  {
    var p := InsertPos(EventValues(ps, ws), ps.event[t]);
    InsertIsStableAndSorted(EventValues(ps, ws), ps.event[t]);
    InsertAtMembers(ws, p, t);
    EventValuesInsert(ps, ws, p, t);
    hide InsertAt, InsertPos, EventValues, Sorted, NoDup;
  }

  lemma EventValuesInsert(ps: Prios, ws: seq<Task>, p: nat, t: Task)
    requires p <= |ws| && t in ps.event
    ensures EventValues(ps, InsertAt(ws, p, t)) == InsertAt(EventValues(ps, ws), p, ps.event[t])
  {
  }

  lemma WaiterLeaves(ws: seq<Task>, m: Name, ps: Prios, pc: map<Task, Pc>, t: Task, pc': map<Task, Pc>)
    requires WaitersOk(ws, m, ps, pc) && t in ws
    requires forall u :: (u in pc' && pc'[u] == Waiting(m)) <==> (u in pc && pc[u] == Waiting(m) && u != t)
    ensures WaitersOk(Without(ws, t), m, ps, pc')
  {
    var i := IndexOf(ws, t);
    RemoveAtMembers(ws, i);
    var v, w := EventValues(ps, ws), EventValues(ps, RemoveAt(ws, i));
    forall a, b | 0 <= a < b < |w| ensures w[a] <= w[b] {
      assert v[if a < i then a else a + 1] <= v[if b < i then b else b + 1];
    }
  }

  /** Nobody waits at a higher priority than the head of the list. */
  lemma HeadWaitsHighest(ws: seq<Task>, m: Name, ps: Prios, pc: map<Task, Pc>, t: Task)
    requires WaitersOk(ws, m, ps, pc) && PrioritiesOk(ps) && t in ws && t in ps.prio
    ensures ps.prio[t] <= HighestWaiting(ps, ws) < ps.max
  {
    var i := IndexOf(ws, t);
    assert EventValues(ps, ws)[0] <= EventValues(ps, ws)[i];
    assert ws[0] in ws && ws[0] in ps.prio;
  }

  /** A holder of several mutexes keeps its priority.  A holder of this one alone falls
      to its base priority or to that of the first of those who still wait, and not below
      either of them. */
  ghost predicate FallsTo(ps: Prios, h: Task, ws: seq<Task>, p: nat)
    requires h in ps.prio && h in ps.base && h in ps.held
  {
    && (ps.held[h] != 1 ==> p == ps.prio[h])
    && (ps.held[h] == 1 ==>
          && p >= ps.base[h] && (forall w :: w in ws ==> w in ps.prio && p >= ps.prio[w])
          && (p == ps.base[h] || (ws != [] && ws[0] in ps.prio && p == ps.prio[ws[0]])))
  }

  /** A waiter's timeout leaves a holder that holds nothing else at the greater of its base
      priority and the highest priority still waiting, and any other holder as it is. */
  lemma TimeoutLowersExactly(s: State, t: Task, m: Name)
    requires Inv(s) && t in s.pc && s.pc[t] == Undoing(m) && s.ms[m].holder.HeldBy?
    ensures var h := s.ms[m].holder.t;
            FallsTo(s.ps, h, s.ms[m].waiters, UndoBy(s, t, m).ps.prio[h])
  {
    hide MutexOk, Guarantee, Accounts;
    var h, ws := s.ms[m].holder.t, s.ms[m].waiters;
    assert Fine(s.ms[m], m, s.ps, s.pc);
    hide AllFine;
    HighestWaitingInRange(ws, m, s.ps, s.pc);
    forall w | w in ws ensures w in s.ps.prio && s.ps.prio[w] <= HighestWaiting(s.ps, ws) {
      assert w in s.ps.held;
      HeadWaitsHighest(ws, m, s.ps, s.pc, w);
    }
    if ws != [] { assert ws[0] in ws; }
  }

  // ----- the priority rules keep the priority fields in order

  lemma InheritOk(ps: Prios, h: Task, t: Task)
    requires PrioritiesOk(ps) && h in ps.prio && t in ps.prio && ps.held[h] > 0
    ensures PrioritiesOk(Inherit(ps, h, t))
  {
  }

  lemma DisinheritOk(ps: Prios, t: Task)
    requires PrioritiesOk(ps) && t in ps.prio && ps.held[t] > 0
    ensures PrioritiesOk(Disinherit(ps, t))
  {
  }

  lemma DisinheritAfterTimeoutOk(ps: Prios, h: Task, w: nat)
    requires PrioritiesOk(ps) && h in ps.prio && w < ps.max
    ensures PrioritiesOk(DisinheritAfterTimeout(ps, h, w))
  {
  }

  lemma IncrementHeldOk(ps: Prios, t: Task)
    requires PrioritiesOk(ps) && t in ps.prio
    ensures PrioritiesOk(IncrementHeld(ps, t))
  {
  }

  // ----- a step at one mutex leaves the others in order

  predicate About(p: Pc, m: Name) {
    p == Waiting(m) || p == Counting(m) || p == Releasing(m)
  }

  ghost predicate PcQuiet(pc: map<Task, Pc>, pc': map<Task, Pc>, m: Name) {
    pc.Keys == pc'.Keys && forall t :: t in pc && pc[t] != pc'[t] ==> !About(pc[t], m) && !About(pc'[t], m)
  }

  /** Nothing changes for those who wait, and the holder loses no priority. */
  ghost predicate PsQuiet(ps: Prios, ps': Prios, x: Mutex)
    requires ps.Valid()
  {
    && ps'.Valid() && ps'.prio.Keys == ps.prio.Keys
    && (forall t :: t in x.waiters && t in ps.prio ==>
          && t in ps'.held && ps'.held[t] == ps.held[t] && ps'.event[t] == ps.event[t] && ps'.prio[t] == ps.prio[t]
          && (t in ps.inUse <==> t in ps'.inUse))
    && (x.holder.HeldBy? && x.holder.t in ps.prio ==> ps'.prio[x.holder.t] >= ps.prio[x.holder.t])
  }

  lemma Elsewhere(x: Mutex, m: Name, ps: Prios, pc: map<Task, Pc>, ps': Prios, pc': map<Task, Pc>)
    requires ps.Valid() && Fine(x, m, ps, pc) && PcQuiet(pc, pc', m) && PsQuiet(ps, ps', x)
    ensures Fine(x, m, ps', pc')
  {
    assert MutexOk(x, m, pc') by { hide WaitersOk, PsQuiet; }
    WaitersUnaffected(x.waiters, m, ps, pc, ps', pc');
    assert Guarantee(x, ps') by { hide MutexOk, PcQuiet; }
  }

  ghost predicate QuietElsewhere(ms: map<Name, Mutex>, ps: Prios, pc: map<Task, Pc>, ps': Prios, pc': map<Task, Pc>,
                                 m: Name)
    requires ps.Valid()
  {
    forall k :: k in ms && k != m ==> PcQuiet(pc, pc', k) && PsQuiet(ps, ps', ms[k])
  }

  lemma Assemble(ms: map<Name, Mutex>, ps: Prios, pc: map<Task, Pc>, x: Mutex, ps': Prios, pc': map<Task, Pc>, m: Name)
    requires ps.Valid() && AllFine(ms, ps, pc)
    requires Fine(x, m, ps', pc') && QuietElsewhere(ms, ps, pc, ps', pc', m)
    ensures AllFine(ms[m := x], ps', pc')
  {
    hide Prios.Valid, Fine, PcQuiet, PsQuiet;
    forall k | k in ms && k != m ensures Fine(ms[k], k, ps', pc') {
      Elsewhere(ms[k], k, ps, pc, ps', pc');
    }
  }

  lemma TypedStep(s: State, r: State, m: Name, t: Task)
    requires Typed(s) && m in s.ms && m in r.ms && r.ms == s.ms[m := r.ms[m]] && t in s.pc && t in r.pc
    requires r.ps.Valid() && r.ps.prio.Keys == s.ps.prio.Keys && r.ps.inUse == s.ps.inUse
    requires r.pc == s.pc[t := r.pc[t]] && (r.pc[t] == Outside || (r.pc[t].m == m && t !in s.ps.inUse))
    requires r.ms[m].holder.HeldBy? ==> r.ms[m].holder.t in s.ps.prio
    ensures Typed(r)
  {
    hide Prios.Valid;
    assert r.pc.Keys == s.pc.Keys;
  }

  lemma OneMoves(pc: map<Task, Pc>, t: Task, p: Pc, m: Name)
    requires t in pc && !About(pc[t], m) && !About(p, m)
    ensures PcQuiet(pc, pc[t := p], m)
  {
  }

  /** The counting of mutexes held is not noticed by those who wait. */
  lemma HeldQuiet(ps: Prios, t: Task, n: nat, x: Mutex, m: Name, pc: map<Task, Pc>)
    requires ps.Valid() && t in ps.prio && Fine(x, m, ps, pc) && (t !in pc || pc[t] != Waiting(m))
    ensures PsQuiet(ps, ps.(held := ps.held[t := n]), x)
  {
  }

  lemma HeldQuietElsewhere(ms: map<Name, Mutex>, ps: Prios, pc: map<Task, Pc>, t: Task, n: nat, p: Pc, m: Name)
    requires ps.Valid() && AllFine(ms, ps, pc) && t in ps.prio && t in pc
    requires (pc[t] == Outside || pc[t].m == m) && (p == Outside || p.m == m)
    ensures QuietElsewhere(ms, ps, pc, ps.(held := ps.held[t := n]), pc[t := p], m)
  {
    assert t in ps.held;
    hide Prios.Valid, Fine, PcQuiet, PsQuiet;
    forall k | k in ms && k != m
      ensures PcQuiet(pc, pc[t := p], k) && PsQuiet(ps, ps.(held := ps.held[t := n]), ms[k])
    {
      OneMoves(pc, t, p, k);
      HeldQuiet(ps, t, n, ms[k], k, pc);
    }
  }

  /** Priority fields that differ only for one task. */
  ghost predicate Agree(ps: Prios, ps': Prios, h: Task) {
    && ps'.Valid() && ps'.max == ps.max && ps'.inUse == ps.inUse
    && ps'.prio.Keys == ps.prio.Keys == ps.held.Keys == ps.event.Keys == ps'.held.Keys == ps'.event.Keys
    && (forall t :: t in ps.prio && t != h ==>
          ps'.prio[t] == ps.prio[t] && ps'.held[t] == ps.held[t] && ps'.event[t] == ps.event[t])
  }

  /** A holder's change of priority is not noticed by those who wait, nor by the mutexes it
      holds as long as it is not lowered. */
  lemma ChangeQuietElsewhere(ms: map<Name, Mutex>, ps: Prios, pc: map<Task, Pc>, ps': Prios, pc': map<Task, Pc>,
                             h: Task, m: Name)
    requires ps.Valid() && AllFine(ms, ps, pc) && Agree(ps, ps', h) && h in ps.prio && ps.held[h] > 0
    requires forall k :: k in ms && k != m ==> PcQuiet(pc, pc', k)
    requires ps'.prio[h] < ps.prio[h] ==> forall k :: k in ms && k != m ==> ms[k].holder != HeldBy(h)
    ensures QuietElsewhere(ms, ps, pc, ps', pc', m)
  {
    hide PcQuiet, MutexOk;
    forall k | k in ms && k != m ensures PsQuiet(ps, ps', ms[k]) {
      assert Fine(ms[k], k, ps, pc);
    }
  }

  /** What a mutex's holder and count say about each other and about the holder's call. */
  lemma HolderFacts(s: State, m: Name, t: Task)
    requires Inv(s) && m in s.ms && t in s.pc
    ensures var x := s.ms[m];
            && (x.count == if x.holder == Nobody then 1 else 0)
            && (x.holder == Nobody || !x.recursive ==> x.calls == 0)
            && (x.holder == HeldBy(t) && x.recursive && s.pc[t] == Outside ==> x.calls > 0)
            && (s.pc[t] == Counting(m) || s.pc[t] == Releasing(m) ==>
                x.recursive && x.holder == HeldBy(t) && x.calls == 0)
  {
    hide WaitersOk, Guarantee, PrioritiesOk, Accounts;
    assert Fine(s.ms[m], m, s.ps, s.pc);
  }

  // ----- the critical sections keep the invariant

  lemma TakeFine(x: Mutex, m: Name, ps: Prios, pc: map<Task, Pc>, t: Task)
    requires ps.Valid() && Fine(x, m, ps, pc) && t in pc && t in ps.prio && pc[t] == Trying(m) && x.count > 0
    ensures x.holder == Nobody
    ensures Fine(Acquire(x, t), m, IncrementHeld(ps, t), pc[t := if x.recursive then Counting(m) else Outside])
  {
    var pc' := pc[t := if x.recursive then Counting(m) else Outside];
    assert MutexOk(Acquire(x, t), m, pc') by { hide WaitersOk, Guarantee; }
    WaitersUnaffected(x.waiters, m, ps, pc, IncrementHeld(ps, t), pc');
  }

  lemma TakeAllFine(ms: map<Name, Mutex>, ps: Prios, pc: map<Task, Pc>, t: Task, m: Name)
    requires ps.Valid() && AllFine(ms, ps, pc) && t in ps.prio && t in pc && pc[t] == Trying(m) && m in ms
             && ms[m].count > 0
    ensures ms[m].holder == Nobody
    ensures AllFine(ms[m := Acquire(ms[m], t)], IncrementHeld(ps, t),
                    pc[t := if ms[m].recursive then Counting(m) else Outside])
  {
    hide Fine, QuietElsewhere;
    var pc' := pc[t := if ms[m].recursive then Counting(m) else Outside];
    TakeFine(ms[m], m, ps, pc, t);
    HeldQuietElsewhere(ms, ps, pc, t, ps.held[t] + 1, pc'[t], m);
    hide AllFine;
    Assemble(ms, ps, pc, Acquire(ms[m], t), IncrementHeld(ps, t), pc', m);
  }

  /** The taker becomes the holder of what was a free mutex; no priority changes. */
  lemma TakeKeepsInv(s: State, t: Task, m: Name)
    requires Inv(s) && t in s.pc && s.pc[t] == Trying(m) && s.ms[m].count > 0
    ensures s.ms[m].holder == Nobody
    ensures var r := TakeBy(s, t, m);
            && Inv(r) && m in r.ms && r.ms == s.ms[m := r.ms[m]]
            && r.ms[m].holder == HeldBy(t) && r.ms[m].count == 0 && r.ms[m].waiters == s.ms[m].waiters
            && r.ps.held == s.ps.held[t := s.ps.held[t] + 1] && r.ps.prio == s.ps.prio
  {
    HolderFacts(s, m, t);
    hide AllFine, Accounts;
    var r := TakeBy(s, t, m);
    TakeAllFine(s.ms, s.ps, s.pc, t, m);
    AccountsAfterTake(s.ps.held, s.ms, m, r.ms[m], t);
    IncrementHeldOk(s.ps, t);
    assert r.ps.Valid();
    hide PrioritiesOk, Prios.Valid;
    TypedStep(s, r, m, t);
  }

  // Blocking.

  lemma BlockedMutexOk(x: Mutex, m: Name, pc: map<Task, Pc>, t: Task, ws: seq<Task>, under: set<Task>)
    requires MutexOk(x, m, pc) && t in pc && pc[t] == Checking(m)
    ensures MutexOk(x.(waiters := ws, under := under), m, pc[t := Waiting(m)])
  {
  }

  lemma BlockedWaiters(ws: seq<Task>, m: Name, ps: Prios, pc: map<Task, Pc>, ps': Prios, h: Task, t: Task)
    requires WaitersOk(ws, m, ps, pc) && Agree(ps, ps', h) && ps'.held == ps.held && h in ps.held && ps.held[h] > 0
    requires t in pc && t in ps.prio && pc[t] == Checking(m) && t in ps.held && ps.held[t] == 0 && t !in ps.inUse
    ensures t in ps'.event && WaitersOk(InsertWaiter(ps', ws, t), m, ps', pc[t := Waiting(m)])
  {
    hide Prios.Valid, InsertWaiter;
    WaitersUnaffected(ws, m, ps, pc, ps', pc);
    hide WaitersOk, Agree;
    WaiterArrives(ws, m, ps', pc, t);
  }

  lemma BlockedGuarantee(x: Mutex, ps: Prios, ps': Prios, h: Task, t: Task, ws: seq<Task>)
    requires Guarantee(x, ps) && x.holder == HeldBy(h) && Agree(ps, ps', h) && h !in x.under && h != t
    requires h in ps.prio && t in ps.prio && ps'.prio[h] >= ps.prio[h] && ps'.prio[h] >= ps.prio[t]
    requires forall u :: u in ws <==> u in x.waiters || u == t
    ensures Guarantee(x.(waiters := ws, under := x.under + {t}), ps')
  {
    hide Prios.Valid;
  }

  lemma BlockFine(x: Mutex, m: Name, ps: Prios, pc: map<Task, Pc>, h: Task, t: Task)
    requires PrioritiesOk(ps) && Fine(x, m, ps, pc) && x.holder == HeldBy(h) && h in ps.prio && ps.held[h] > 0
    requires t in pc && t in ps.prio && pc[t] == Checking(m) && ps.held[t] == 0 && t !in ps.inUse
    ensures var ps' := Inherit(ps, h, t);
            Fine(x.(waiters := InsertWaiter(ps', x.waiters, t), under := x.under + {t}), m, ps', pc[t := Waiting(m)])
  {
    var ps' := Inherit(ps, h, t);
    var ws := InsertWaiter(ps', x.waiters, t);
    InheritAgrees(ps, h, t);
    InsertAtMembers(x.waiters, InsertPos(EventValues(ps', x.waiters), ps'.event[t]), t);
    assert h !in x.under;
    hide Inherit, PrioritiesOk, Prios.Valid, InsertWaiter, MutexOk, WaitersOk, Guarantee, Agree;
    BlockedMutexOk(x, m, pc, t, ws, x.under + {t});
    BlockedWaiters(x.waiters, m, ps, pc, ps', h, t);
    BlockedGuarantee(x, ps, ps', h, t, ws);
  }

  lemma InheritAgrees(ps: Prios, h: Task, t: Task)
    requires PrioritiesOk(ps) && h in ps.prio && t in ps.prio
    ensures ps.Valid() && t in ps.event && var ps' := Inherit(ps, h, t);
            && Agree(ps, ps', h) && ps'.held == ps.held && h in ps'.prio && t in ps'.prio
            && ps'.prio[h] >= ps.prio[h] && ps'.prio[h] >= ps.prio[t]
  {
  }

  lemma BlockAllFine(ms: map<Name, Mutex>, ps: Prios, pc: map<Task, Pc>, h: Task, t: Task, m: Name)
    requires PrioritiesOk(ps) && AllFine(ms, ps, pc) && m in ms && ms[m].holder == HeldBy(h) && h in ps.prio
             && ps.held[h] > 0
    requires t in pc && t in ps.prio && pc[t] == Checking(m) && ps.held[t] == 0 && t !in ps.inUse
    ensures var x, ps' := ms[m], Inherit(ps, h, t);
            AllFine(ms[m := x.(waiters := InsertWaiter(ps', x.waiters, t), under := x.under + {t})], ps',
                    pc[t := Waiting(m)])
  {
    var x, ps', pc' := ms[m], Inherit(ps, h, t), pc[t := Waiting(m)];
    var y := x.(waiters := InsertWaiter(ps', x.waiters, t), under := x.under + {t});
    InheritAgrees(ps, h, t);
    hide Fine, QuietElsewhere, Agree;
    BlockFine(x, m, ps, pc, h, t);
    MovesQuietly(ms, pc, t, Waiting(m), m);
    ChangeQuietElsewhere(ms, ps, pc, ps', pc', h, m);
    hide AllFine;
    Assemble(ms, ps, pc, y, ps', pc', m);
  }

  lemma HolderHolds(held: map<Task, nat>, ms: map<Name, Mutex>, m: Name, h: Task)
    requires Accounts(held, ms) && m in ms && ms[m].holder == HeldBy(h) && h in held
    ensures held[h] > 0
  {
    assert m in Held(ms, h);
  }

  /** A mutex that is not free has a holder, who holds at least one mutex. */
  lemma TakenHasHolder(s: State, m: Name)
    requires Inv(s) && m in s.ms && s.ms[m].count == 0
    ensures var x := s.ms[m]; x.holder.HeldBy? && x.holder.t in s.ps.prio && s.ps.held[x.holder.t] > 0
  {
    hide WaitersOk, Guarantee, PrioritiesOk;
    assert Fine(s.ms[m], m, s.ps, s.pc);
    assert s.ms[m].holder.t in s.ps.held;
    HolderHolds(s.ps.held, s.ms, m, s.ms[m].holder.t);
  }

  lemma WaiterIsNew(s: State, t: Task, m: Name, ps: Prios)
    requires Inv(s) && t in s.pc && s.pc[t] != Waiting(m) && m in s.ms && t in ps.event
    ensures t !in s.ms[m].waiters && Without(InsertWaiter(ps, s.ms[m].waiters, t), t) == s.ms[m].waiters
  {
    assert Fine(s.ms[m], m, s.ps, s.pc);
    hide AllFine, Accounts, PrioritiesOk, Typed;
    var ws := s.ms[m].waiters;
    WithoutInserted(ws, InsertPos(EventValues(ps, ws), ps.event[t]), t);
  }

  /** Blocking raises the holder to the priority of the task that blocks, if that is more,
      and puts that task on the list and under the holder's protection; nobody else's
      priority, place or mutex changes. */
  lemma BlockKeepsInv(s: State, t: Task, m: Name)
    requires Inv(s) && t in s.pc && s.pc[t] == Checking(m) && s.ms[m].count == 0 && s.ps.held[t] == 0
    ensures var x := s.ms[m];
            x.holder.HeldBy? && x.holder.t in s.ps.prio && x.holder.t in s.ps.base && t in s.ps.prio
    ensures var r, x := BlockBy(s, t, m), s.ms[m];
            && Inv(r) && m in r.ms && r.ms == s.ms[m := r.ms[m]] && r.pc == s.pc[t := Waiting(m)]
            && r.ps.held == s.ps.held && r.ps.base == s.ps.base
            && r.ps.prio == s.ps.prio[x.holder.t := Max(s.ps.prio[x.holder.t], s.ps.prio[t])]
            && (t in r.inherited <==>
                r.ps.prio[x.holder.t] > s.ps.prio[x.holder.t] || s.ps.base[x.holder.t] < s.ps.prio[t])
            && r.ms[m].under == x.under + {t}
            && r.ms[m] == x.(waiters := r.ms[m].waiters, under := r.ms[m].under)
               && Without(r.ms[m].waiters, t) == x.waiters
  {
    TakenHasHolder(s, m);
    hide AllFine, Accounts;
    var r, h := BlockBy(s, t, m), s.ms[m].holder.t;
    assert t in Inherit(s.ps, h, t).event;
    WaiterIsNew(s, t, m, Inherit(s.ps, h, t));
    BlockAllFine(s.ms, s.ps, s.pc, h, t, m);
    AccountsAfterOther(s.ps.held, s.ms, m, r.ms[m]);
    InheritOk(s.ps, h, t);
    InheritRaises(s.ps, h, t);
    TypedStep(s, r, m, t);
  }

  // Giving up.

  lemma UndoFine(x: Mutex, m: Name, ps: Prios, pc: map<Task, Pc>, h: Task, w: nat, t: Task)
    requires PrioritiesOk(ps) && Fine(x, m, ps, pc) && x.holder == HeldBy(h) && h in ps.prio && ps.held[h] > 0
    requires w == HighestWaiting(ps, x.waiters) < ps.max
    requires t in pc && pc[t] == Undoing(m)
    ensures Fine(x, m, DisinheritAfterTimeout(ps, h, w), pc[t := Outside])
  {
    var ps', pc' := DisinheritAfterTimeout(ps, h, w), pc[t := Outside];
    assert WaitersOk(x.waiters, m, ps', pc') by {
      hide MutexOk, Guarantee;
      assert forall u :: u in x.waiters ==> u != h;
      WaitersUnaffected(x.waiters, m, ps, pc, ps', pc');
    }
    assert MutexOk(x, m, pc') by { hide WaitersOk, Guarantee, PrioritiesOk; }
    UndoneGuarantee(x, m, ps, pc, h, w);
    hide MutexOk, WaitersOk, Guarantee, PrioritiesOk;
  }

  lemma UndoneGuarantee(x: Mutex, m: Name, ps: Prios, pc: map<Task, Pc>, h: Task, w: nat)
    requires PrioritiesOk(ps) && WaitersOk(x.waiters, m, ps, pc) && Guarantee(x, ps) && x.holder == HeldBy(h)
    requires h in ps.prio && ps.held[h] > 0 && w == HighestWaiting(ps, x.waiters) < ps.max
    ensures Guarantee(x, DisinheritAfterTimeout(ps, h, w))
  {
    forall u | u in x.under ensures ps.prio[u] <= w {
      HeadWaitsHighest(x.waiters, m, ps, pc, u);
    }
    hide HighestWaiting;
  }

  lemma HighestWaitingInRange(ws: seq<Task>, m: Name, ps: Prios, pc: map<Task, Pc>)
    requires PrioritiesOk(ps) && WaitersOk(ws, m, ps, pc) && ps.max > 0
    ensures HighestWaiting(ps, ws) < ps.max
  {
    if ws != [] {
      assert ws[0] in ws && ws[0] in ps.prio;
    }
  }

  lemma MovesQuietly(ms: map<Name, Mutex>, pc: map<Task, Pc>, t: Task, p: Pc, m: Name)
    requires t in pc && (pc[t] == Outside || pc[t].m == m) && (p == Outside || p.m == m)
    ensures forall k :: k in ms && k != m ==> PcQuiet(pc, pc[t := p], k)
  {
    hide PcQuiet;
    forall k | k in ms && k != m ensures PcQuiet(pc, pc[t := p], k) { OneMoves(pc, t, p, k); }
  }

  lemma HoldsNoOther(held: map<Task, nat>, ms: map<Name, Mutex>, m: Name, h: Task)
    requires Accounts(held, ms) && h in held && held[h] == 1 && m in ms && ms[m].holder == HeldBy(h)
    ensures forall k :: k in ms && k != m ==> ms[k].holder != HeldBy(h)
  {
    forall k | k in ms && k != m ensures ms[k].holder != HeldBy(h) {
      if ms[k].holder == HeldBy(h) { OnlyMutexHeld(held, ms, m, k, h); }
    }
  }

  lemma AfterTimeoutAgrees(ps: Prios, h: Task, w: nat)
    requires PrioritiesOk(ps) && h in ps.prio && w < ps.max
    ensures var ps' := DisinheritAfterTimeout(ps, h, w);
            && ps.Valid() && Agree(ps, ps', h) && h in ps'.prio && h in ps.held
               && (ps'.prio[h] < ps.prio[h] ==> ps.held[h] == 1)
  {
  }

  lemma UndoQuietElsewhere(ms: map<Name, Mutex>, ps: Prios, pc: map<Task, Pc>, h: Task, w: nat, t: Task, m: Name)
    requires PrioritiesOk(ps) && AllFine(ms, ps, pc) && m in ms && ms[m].holder == HeldBy(h) && h in ps.prio
    requires Accounts(ps.held, ms) && t in pc && pc[t] == Undoing(m) && w < ps.max
    ensures QuietElsewhere(ms, ps, pc, DisinheritAfterTimeout(ps, h, w), pc[t := Outside], m)
  {
    AfterTimeoutAgrees(ps, h, w);
    hide PrioritiesOk, AllFine, QuietElsewhere, Agree, Accounts, PcQuiet, DisinheritAfterTimeout, Prios.Valid;
    var ps' := DisinheritAfterTimeout(ps, h, w);
    HolderHolds(ps.held, ms, m, h);
    MovesQuietly(ms, pc, t, Outside, m);
    if ps'.prio[h] < ps.prio[h] {
      HoldsNoOther(ps.held, ms, m, h);
    }
    ChangeQuietElsewhere(ms, ps, pc, ps', pc[t := Outside], h, m);
  }

  lemma UndoAllFine(ms: map<Name, Mutex>, ps: Prios, pc: map<Task, Pc>, h: Task, w: nat, t: Task, m: Name)
    requires PrioritiesOk(ps) && AllFine(ms, ps, pc) && m in ms && ms[m].holder == HeldBy(h) && h in ps.prio
    requires Accounts(ps.held, ms) && t in pc && pc[t] == Undoing(m) && w == HighestWaiting(ps, ms[m].waiters) < ps.max
    ensures AllFine(ms, DisinheritAfterTimeout(ps, h, w), pc[t := Outside])
  {
    assert h in ps.held;
    HolderHolds(ps.held, ms, m, h);
    hide Fine, QuietElsewhere, Accounts;
    UndoFine(ms[m], m, ps, pc, h, w, t);
    UndoQuietElsewhere(ms, ps, pc, h, w, t, m);
    hide AllFine;
    Assemble(ms, ps, pc, ms[m], DisinheritAfterTimeout(ps, h, w), pc[t := Outside], m);
    assert ms[m := ms[m]] == ms;
  }

  /** A task that is about its own business at one mutex moves on. */
  lemma MoveAllFine(ms: map<Name, Mutex>, ps: Prios, pc: map<Task, Pc>, t: Task, p: Pc)
    requires ps.Valid() && AllFine(ms, ps, pc) && t in pc
    requires forall m :: m in ms ==> !About(pc[t], m) && !About(p, m)
    ensures AllFine(ms, ps, pc[t := p])
  {
    hide Fine, PcQuiet, PsQuiet;
    forall m | m in ms ensures Fine(ms[m], m, ps, pc[t := p]) {
      OneMoves(pc, t, p, m);
      assert PsQuiet(ps, ps, ms[m]) by { NoChangeIsQuiet(ps, ms[m]); }
      Elsewhere(ms[m], m, ps, pc, ps, pc[t := p]);
    }
  }

  lemma NoChangeIsQuiet(ps: Prios, x: Mutex)
    requires ps.Valid()
    ensures PsQuiet(ps, ps, x)
  {
  }

  lemma UndoHeldKeepsInv(s: State, t: Task, m: Name, h: Task)
    requires Inv(s) && t in s.pc && s.pc[t] == Undoing(m) && s.ms[m].holder == HeldBy(h)
    requires HighestWaiting(s.ps, s.ms[m].waiters) < s.ps.max
    ensures Inv(UndoBy(s, t, m))
  {
    hide AllFine, Accounts;
    var r, w := UndoBy(s, t, m), HighestWaiting(s.ps, s.ms[m].waiters);
    assert h in s.ps.prio;
    UndoAllFine(s.ms, s.ps, s.pc, h, w, t, m);
    DisinheritAfterTimeoutOk(s.ps, h, w);
    AfterTimeoutAgrees(s.ps, h, w);
    assert r.ps == DisinheritAfterTimeout(s.ps, h, w) && r.ms == s.ms && r.pc == s.pc[t := Outside];
    hide HighestWaiting, PrioritiesOk, DisinheritAfterTimeout, UndoBy, Prios.Valid;
    TypedStep(s, r, m, t);
  }

  lemma UndoKeepsInv(s: State, t: Task, m: Name)
    requires Inv(s) && t in s.pc && s.pc[t] == Undoing(m)
    ensures var r := UndoBy(s, t, m);
            && Inv(r) && r.ms == s.ms && r.pc == s.pc[t := Outside] && (s.ms[m].holder == Nobody ==> r.ps == s.ps)
  {
    hide AllFine, Accounts, HighestWaiting, PrioritiesOk;
    var x, r := s.ms[m], UndoBy(s, t, m);
    if x.holder.HeldBy? && HighestWaiting(s.ps, x.waiters) < s.ps.max {
      UndoHeldKeepsInv(s, t, m, x.holder.t);
    } else {
      MoveAllFine(s.ms, s.ps, s.pc, t, Outside);
      TypedStep(s, r, m, t);
    }
  }

  /** A step at one mutex that leaves all priorities alone. */
  lemma LocalAllFine(ms: map<Name, Mutex>, ps: Prios, pc: map<Task, Pc>, x: Mutex, pc': map<Task, Pc>, m: Name)
    requires ps.Valid() && AllFine(ms, ps, pc) && Fine(x, m, ps, pc')
    requires forall k :: k in ms && k != m ==> PcQuiet(pc, pc', k)
    ensures AllFine(ms[m := x], ps, pc')
  {
    hide Prios.Valid, AllFine, Fine, PcQuiet, PsQuiet;
    forall k | k in ms ensures PsQuiet(ps, ps, ms[k]) { NoChangeIsQuiet(ps, ms[k]); }
    Assemble(ms, ps, pc, x, ps, pc', m);
  }

  // Waking up from the wait.

  lemma ExpireFine(x: Mutex, m: Name, ps: Prios, pc: map<Task, Pc>, t: Task)
    requires Fine(x, m, ps, pc) && t in pc && pc[t] == Waiting(m)
    ensures Fine(Quit(x, t), m, ps, pc[t := Trying(m)])
  {
    var y, pc' := Quit(x, t), pc[t := Trying(m)];
    assert t in x.waiters && NoDup(x.waiters);
    assert WaitersOk(y.waiters, m, ps, pc') by { WaiterLeaves(x.waiters, m, ps, pc, t, pc'); }
    assert MutexOk(y, m, pc') by { hide WaitersOk, Guarantee; }
    assert Guarantee(y, ps) by {
      hide WaitersOk, MutexOk;
      RemoveAtMembers(x.waiters, IndexOf(x.waiters, t));
    }
  }

  lemma ExpireAllFine(ms: map<Name, Mutex>, ps: Prios, pc: map<Task, Pc>, t: Task, m: Name)
    requires ps.Valid() && AllFine(ms, ps, pc) && m in ms && t in pc && pc[t] == Waiting(m)
    ensures AllFine(ms[m := Quit(ms[m], t)], ps, pc[t := Trying(m)])
  {
    hide Prios.Valid, Fine, PcQuiet;
    ExpireFine(ms[m], m, ps, pc, t);
    MovesQuietly(ms, pc, t, Trying(m), m);
    hide AllFine, Quit;
    LocalAllFine(ms, ps, pc, Quit(ms[m], t), pc[t := Trying(m)], m);
  }

  lemma WaiterIsListed(s: State, t: Task, m: Name)
    requires Inv(s) && t in s.pc && s.pc[t] == Waiting(m)
    ensures t in s.ms[m].waiters
  {
    assert Fine(s.ms[m], m, s.ps, s.pc);
  }

  /** A wait that ends takes its task off the list, wherever it stood, and moves nobody else. */
  lemma ExpireKeepsInv(s: State, t: Task, m: Name)
    requires Inv(s) && t in s.pc && s.pc[t] == Waiting(m)
    ensures var r, ws := ExpireBy(s, t, m), s.ms[m].waiters;
            && Inv(r) && m in r.ms && r.ms == s.ms[m := r.ms[m]] && r.ps == s.ps && r.pc == s.pc[t := Trying(m)]
            && t !in r.ms[m].under
            && exists i :: 0 <= i < |ws| && ws[i] == t && r.ms[m].waiters == ws[..i] + ws[i + 1..]
  {
    WaiterIsListed(s, t, m);
    hide AllFine, Accounts, PrioritiesOk;
    ExpireAllFine(s.ms, s.ps, s.pc, t, m);
    AccountsAfterOther(s.ps.held, s.ms, m, Quit(s.ms[m], t));
    TypedStep(s, ExpireBy(s, t, m), m, t);
  }

  // Counting recursive calls.

  lemma CallsFine(x: Mutex, m: Name, ps: Prios, pc: map<Task, Pc>, t: Task, calls: nat, p: Pc)
    requires Fine(x, m, ps, pc) && t in pc && x.recursive && x.holder == HeldBy(t)
    requires (pc[t] == Outside || pc[t] == Counting(m)) && (p == Outside || p == Releasing(m))
    requires calls == 0 <==> p == Releasing(m)
    ensures Fine(x.(calls := calls), m, ps, pc[t := p])
  {
    assert MutexOk(x.(calls := calls), m, pc[t := p]) by { hide WaitersOk, Guarantee; }
    WaitersUnaffected(x.waiters, m, ps, pc, ps, pc[t := p]);
    assert Guarantee(x.(calls := calls), ps) by { hide WaitersOk, MutexOk; }
  }

  lemma CallsKeepInv(s: State, t: Task, m: Name, calls: nat, p: Pc, log: seq<Done>)
    requires Inv(s) && t in s.pc && m in s.ms && s.ms[m].recursive && s.ms[m].holder == HeldBy(t)
    requires (s.pc[t] == Outside || s.pc[t] == Counting(m)) && (p == Outside || p == Releasing(m))
    requires t !in s.ps.inUse && (calls == 0 <==> p == Releasing(m))
    ensures Inv(s.(ms := s.ms[m := s.ms[m].(calls := calls)], pc := s.pc[t := p], log := log))
  {
    var r := s.(ms := s.ms[m := s.ms[m].(calls := calls)], pc := s.pc[t := p], log := log);
    assert Fine(s.ms[m], m, s.ps, s.pc);
    hide AllFine, Accounts, PrioritiesOk, PcQuiet, Fine;
    CallsFine(s.ms[m], m, s.ps, s.pc, t, calls, p);
    MovesQuietly(s.ms, s.pc, t, p, m);
    LocalAllFine(s.ms, s.ps, s.pc, r.ms[m], r.pc, m);
    AccountsAfterOther(s.ps.held, s.ms, m, r.ms[m]);
    TypedStep(s, r, m, t);
  }

  // Giving.

  lemma ReleaseWaiters(ws: seq<Task>, m: Name, ps: Prios, pc: map<Task, Pc>, t: Task, ps': Prios, pc': map<Task, Pc>)
    requires WaitersOk(ws, m, ps, pc) && t in pc && pc[t] != Waiting(m) && ps.Valid() && Agree(ps, ps', t)
             && ps'.Valid()
    requires pc' == if ws == [] then pc[t := Outside] else pc[t := Outside][ws[0] := Trying(m)]
    ensures WaitersOk(if ws == [] then [] else ws[1..], m, ps', pc')
  {
    assert t !in ws;
    if ws == [] {
      WaitersUnaffected(ws, m, ps, pc, ps', pc');
    } else {
      WithoutFirst(ws);
      RemoveAtMembers(ws, 0);
      hide Without, Prios.Valid;
      WaiterLeaves(ws, m, ps, pc, ws[0], pc');
      WaitersUnaffected(ws[1..], m, ps, pc', ps', pc');
    }
  }

  lemma ReleaseFine(x: Mutex, m: Name, ps: Prios, pc: map<Task, Pc>, t: Task)
    requires PrioritiesOk(ps) && Fine(x, m, ps, pc) && x.holder == HeldBy(t) && t in ps.prio && ps.held[t] > 0
    requires t in pc && (pc[t] == Outside || pc[t] == Releasing(m)) && x.calls == 0
    ensures Fine(Release(x), m, Disinherit(ps, t), AfterRelease(pc, x, t, m))
  {
    assert t in ps.held;
    hide PrioritiesOk, Prios.Valid, Disinherit, MutexOk, WaitersOk, Guarantee, Agree;
    DisinheritAgrees(ps, t);
    ReleasedMutexOk(x, m, pc, t);
    assert pc[t] != Waiting(m);
    ReleaseWaiters(x.waiters, m, ps, pc, t, Disinherit(ps, t), AfterRelease(pc, x, t, m));
    NobodyHolds(Release(x), Disinherit(ps, t));
  }

  lemma ReleasedMutexOk(x: Mutex, m: Name, pc: map<Task, Pc>, t: Task)
    requires MutexOk(x, m, pc) && x.holder == HeldBy(t) && x.calls == 0
    requires t in pc && (pc[t] == Outside || pc[t] == Releasing(m))
    ensures MutexOk(Release(x), m, AfterRelease(pc, x, t, m))
  {
  }

  lemma NobodyHolds(x: Mutex, ps: Prios)
    requires x.holder == Nobody && x.under == {}
    ensures Guarantee(x, ps)
  {
  }

  lemma FirstWaiter(ms: map<Name, Mutex>, ps: Prios, pc: map<Task, Pc>, m: Name)
    requires AllFine(ms, ps, pc) && m in ms && ms[m].waiters != []
    ensures var w := ms[m].waiters[0]; w in pc && pc[w] == Waiting(m)
  {
    assert Fine(ms[m], m, ps, pc);
    assert ms[m].waiters[0] in ms[m].waiters;
  }

  lemma ReleaseMovesQuietly(ms: map<Name, Mutex>, pc: map<Task, Pc>, x: Mutex, t: Task, m: Name)
    requires t in pc && (pc[t] == Outside || pc[t] == Releasing(m))
    requires x.waiters != [] ==> x.waiters[0] in pc && pc[x.waiters[0]] == Waiting(m) && x.waiters[0] != t
    ensures forall k :: k in ms && k != m ==> PcQuiet(pc, AfterRelease(pc, x, t, m), k)
  {
    hide PcQuiet;
    MovesQuietly(ms, pc, t, Outside, m);
    if x.waiters != [] {
      MovesQuietly(ms, pc[t := Outside], x.waiters[0], Trying(m), m);
      forall k | k in ms && k != m ensures PcQuiet(pc, AfterRelease(pc, x, t, m), k) {
        QuietTwice(pc, pc[t := Outside], AfterRelease(pc, x, t, m), k);
      }
    }
  }

  lemma DisinheritAgrees(ps: Prios, t: Task)
    requires PrioritiesOk(ps) && t in ps.prio && t in ps.held && ps.held[t] > 0
    ensures var ps' := Disinherit(ps, t);
            && ps.Valid() && Agree(ps, ps', t) && t in ps'.prio && (ps'.prio[t] < ps.prio[t] ==> ps.held[t] == 1)
            && ps'.held == ps.held[t := ps.held[t] - 1] && ps'.Valid() && ps'.prio.Keys == ps.prio.Keys
  {
  }

  lemma ReleaseQuietElsewhere(ms: map<Name, Mutex>, ps: Prios, pc: map<Task, Pc>, t: Task, m: Name)
    requires PrioritiesOk(ps) && AllFine(ms, ps, pc) && m in ms && ms[m].holder == HeldBy(t) && t in ps.prio
    requires Accounts(ps.held, ms) && t in ps.held && ps.held[t] > 0 && t in pc
             && (pc[t] == Outside || pc[t] == Releasing(m))
    ensures QuietElsewhere(ms, ps, pc, Disinherit(ps, t), AfterRelease(pc, ms[m], t, m), m)
  {
    var x, ps', pc' := ms[m], Disinherit(ps, t), AfterRelease(pc, ms[m], t, m);
    hide PrioritiesOk, AllFine, QuietElsewhere, Agree, Accounts, PcQuiet, Disinherit, Prios.Valid, AfterRelease;
    DisinheritAgrees(ps, t);
    if x.waiters != [] { FirstWaiter(ms, ps, pc, m); }
    ReleaseMovesQuietly(ms, pc, x, t, m);
    if ps'.prio[t] < ps.prio[t] {
      HoldsNoOther(ps.held, ms, m, t);
    }
    ChangeQuietElsewhere(ms, ps, pc, ps', pc', t, m);
  }

  lemma QuietTwice(pc: map<Task, Pc>, pc': map<Task, Pc>, pc'': map<Task, Pc>, k: Name)
    requires PcQuiet(pc, pc', k) && PcQuiet(pc', pc'', k)
    ensures PcQuiet(pc, pc'', k)
  {
  }

  lemma ReleaseAllFine(ms: map<Name, Mutex>, ps: Prios, pc: map<Task, Pc>, t: Task, m: Name)
    requires PrioritiesOk(ps) && AllFine(ms, ps, pc) && m in ms && ms[m].holder == HeldBy(t) && t in ps.prio
    requires Accounts(ps.held, ms) && t in ps.held && ps.held[t] > 0 && t in pc
             && (pc[t] == Outside || pc[t] == Releasing(m))
    requires ms[m].calls == 0
    ensures AllFine(ms[m := Release(ms[m])], Disinherit(ps, t), AfterRelease(pc, ms[m], t, m))
  {
    hide Fine, QuietElsewhere, Accounts;
    ReleaseFine(ms[m], m, ps, pc, t);
    ReleaseQuietElsewhere(ms, ps, pc, t, m);
    hide AllFine;
    Assemble(ms, ps, pc, Release(ms[m]), Disinherit(ps, t), AfterRelease(pc, ms[m], t, m), m);
  }

  lemma ReleaseIsTyped(s: State, r: State, t: Task, m: Name)
    requires Typed(s) && t in s.pc && m in s.ms
    requires s.ms[m].waiters != [] ==> s.ms[m].waiters[0] in s.pc && s.pc[s.ms[m].waiters[0]] != Outside
    requires r.ps.Valid() && r.ps.prio.Keys == s.ps.prio.Keys && r.ps.inUse == s.ps.inUse
    requires r.ms == s.ms[m := Release(s.ms[m])] && r.pc == AfterRelease(s.pc, s.ms[m], t, m)
    ensures Typed(r)
  {
    hide Prios.Valid;
  }

  lemma ReleaseParts(s: State, t: Task, m: Name)
    requires s.ps.Valid() && t in s.ps.prio && t in s.ps.held && m in s.ms && s.ps.held[t] > 0
    ensures ReleaseBy(s, t, m) ==
            s.(ps := Disinherit(s.ps, t), ms := s.ms[m := Release(s.ms[m])], pc := AfterRelease(s.pc, s.ms[m], t, m))
  {
  }

  lemma ReleaseKeepsBooks(s: State, t: Task, m: Name)
    requires Typed(s) && PrioritiesOk(s.ps) && t in s.ps.prio && t in s.ps.held && s.ps.held[t] > 0 && t in s.pc
             && m in s.ms
    requires s.ms[m].waiters != [] ==> s.ms[m].waiters[0] in s.pc && s.pc[s.ms[m].waiters[0]] != Outside
    ensures var r := ReleaseBy(s, t, m);
            && Typed(r) && PrioritiesOk(r.ps)
            && r.ps.held == s.ps.held[t := s.ps.held[t] - 1] && r.ms == s.ms[m := Release(s.ms[m])]
            && r.ps == Disinherit(s.ps, t) && r.pc == AfterRelease(s.pc, s.ms[m], t, m)
  {
    hide AfterRelease, PrioritiesOk, Disinherit, Release, Agree, Prios.Valid;
    DisinheritAgrees(s.ps, t);
    DisinheritOk(s.ps, t);
    ReleaseParts(s, t, m);
    ReleaseIsTyped(s, ReleaseBy(s, t, m), t, m);
  }

  lemma ReleaseInOrder(s: State, t: Task, m: Name)
    requires Inv(s) && t in s.pc && m in s.ms && s.ms[m].holder == HeldBy(t) && s.ms[m].calls == 0
    requires s.pc[t] == Outside || s.pc[t] == Releasing(m)
    ensures t in s.ps.held && s.ps.held[t] > 0 && Inv(ReleaseBy(s, t, m))
    ensures ReleaseBy(s, t, m).ps == Disinherit(s.ps, t) && ReleaseBy(s, t, m).ms == s.ms[m := Release(s.ms[m])]
    ensures ReleaseBy(s, t, m).pc == AfterRelease(s.pc, s.ms[m], t, m)
  {
    assert t in s.ps.held && s.ps.Valid();
    hide AllFine, Accounts, AfterRelease, PrioritiesOk, Disinherit, ReleaseBy, Release, Prios.Valid;
    AccountsAfterRelease(s.ps.held, s.ms, m, t);
    ReleaseAllFine(s.ms, s.ps, s.pc, t, m);
    if s.ms[m].waiters != [] { FirstWaiter(s.ms, s.ps, s.pc, m); }
    ReleaseKeepsBooks(s, t, m);
    hide Typed;
  }

  /** Of the waiters the first leaves the list and goes on to try; of the other tasks only
      the one that gives moves. */
  lemma ReleaseWakesTheFirst(s: State, t: Task, m: Name)
    requires Inv(s) && t in s.pc && m in s.ms && s.ms[m].holder == HeldBy(t) && s.pc[t] != Waiting(m)
    ensures var x, ws := Release(s.ms[m]), s.ms[m].waiters;
            && (ws == [] ==> x.waiters == [] && AfterRelease(s.pc, s.ms[m], t, m) == s.pc[t := Outside])
            && (ws != [] ==>
                && ws[0] in s.pc && s.pc[ws[0]] == Waiting(m) && ws[0] != t && x.waiters == ws[1..]
                && AfterRelease(s.pc, s.ms[m], t, m) == s.pc[t := Outside][ws[0] := Trying(m)])
  {
    if s.ms[m].waiters != [] { FirstWaiter(s.ms, s.ps, s.pc, m); }
  }

  /** A give frees the mutex, takes the first waiter, if there is one, off the list and moves
      it on to try, and nobody else; the priority drops exactly with the last mutex held. */
  lemma ReleaseKeepsInv(s: State, t: Task, m: Name)
    requires Inv(s) && t in s.pc && m in s.ms && s.ms[m].holder == HeldBy(t) && s.ms[m].calls == 0
    requires s.pc[t] == Outside || s.pc[t] == Releasing(m)
    ensures t in s.ps.held && s.ps.held[t] > 0 && t in s.ps.base && t in s.ps.prio
    ensures var r, ws := ReleaseBy(s, t, m), s.ms[m].waiters;
            && Inv(r) && m in r.ms && r.ms == s.ms[m := r.ms[m]] && r.ms[m].holder == Nobody && r.ms[m].count == 1
            && r.ps.held == s.ps.held[t := s.ps.held[t] - 1]
            && r.ps.prio == s.ps.prio[t := if s.ps.held[t] == 1 then s.ps.base[t] else s.ps.prio[t]]
            && (ws == [] ==> r.ms[m].waiters == [] && r.pc == s.pc[t := Outside])
            && (ws != [] ==>
                && ws[0] in s.pc && s.pc[ws[0]] == Waiting(m) && ws[0] != t
                && r.ms[m].waiters == ws[1..] && r.pc == s.pc[t := Outside][ws[0] := Trying(m)])
  {
    assert t in s.ps.prio && s.ps.Valid();
    hide AllFine, Accounts, AfterRelease, PrioritiesOk, Disinherit, ReleaseBy, Prios.Valid, Typed;
    ReleaseInOrder(s, t, m);
    HolderFacts(s, m, t);
    DisinheritRestores(s.ps, t);
    ReleaseWakesTheFirst(s, t, m);
  }

  lemma AccountsAfterRelease(held: map<Task, nat>, ms: map<Name, Mutex>, m: Name, t: Task)
    requires Accounts(held, ms) && t in held && m in ms && ms[m].holder == HeldBy(t)
    ensures held[t] > 0 && Accounts(held[t := held[t] - 1], ms[m := Release(ms[m])])
  {
    AccountsAfterGive(held, ms, m, Release(ms[m]), t);
  }

  // ----- every step

  /** A task moves on in its own code. */
  lemma MoveKeepsInv(s: State, t: Task, p: Pc, inherited: set<Task>)
    requires Inv(s) && t in s.pc && (forall m :: !About(s.pc[t], m) && !About(p, m))
    requires p == Outside || (p.m in s.ms && t !in s.ps.inUse)
    ensures Inv(s.(pc := s.pc[t := p], inherited := inherited))
  {
    hide AllFine, Accounts, PrioritiesOk;
    assert s.ps.Valid();
    MoveAllFine(s.ms, s.ps, s.pc, t, p);
  }

  lemma InvIgnoresLog(s: State, log: seq<Done>)
    requires Inv(s)
    ensures Inv(s.(log := log))
  {
  }

  lemma StepKeepsInv(s: State, a: Step)
    requires Inv(s) && Enabled(s, a)
    ensures Inv(Apply(s, a))
  {
    var t := a.t;
    hide AllFine, Accounts, PrioritiesOk, Prios.Valid;
    match a {
      case BeginTake(_, m) =>
        HolderFacts(s, m, t);
        if s.ms[m].recursive && s.ms[m].holder == HeldBy(t) {
          CallsKeepInv(s, t, m, s.ms[m].calls + 1, Outside, s.log + [Took(t, m)]);
          assert s.pc[t := Outside] == s.pc;
        } else {
          MoveKeepsInv(s, t, Trying(m), s.inherited - {t});
        }
      case TryTake(_, mayWait) =>
        if s.ms[s.pc[t].m].count > 0 {
          TakeKeepsInv(s, t, s.pc[t].m);
        } else {
          MoveKeepsInv(s, t, if mayWait then Checking(s.pc[t].m) else Outside, s.inherited);
        }
      case CountCall(_) =>
        HolderFacts(s, s.pc[t].m, t);
        CallsKeepInv(s, t, s.pc[t].m, s.ms[s.pc[t].m].calls + 1, Outside, s.log + [Took(t, s.pc[t].m)]);
      case Check(_, timedOut) => CheckKeepsInv(s, t, timedOut);
      case Undo(_) => UndoKeepsInv(s, t, s.pc[t].m);
      case Expire(_) => ExpireKeepsInv(s, t, s.pc[t].m);
      case Give(_, m) => GiveKeepsInv(s, t, m);
      case GiveRecursive(_, m) => GiveRecursiveKeepsInv(s, t, m);
      case DoRelease(_) =>
        HolderFacts(s, s.pc[t].m, t);
        ReleaseKeepsInv(s, t, s.pc[t].m);
      case UseItem(_, value) =>
        ItemChanges(s.ps, t, value);
        ItemKeepsInv(s, t, UseEventItem(s.ps, t, value));
      case ResetItem(_) =>
        ItemChanges(s.ps, t, 0);
        ItemKeepsInv(s, t, ResetEventItem(s.ps, t));
    }
  }

  /** The item value of t, and whether it is in use, are all that changes. */
  ghost predicate OnlyItem(ps: Prios, ps': Prios, t: Task) {
    && ps' == ps.(event := ps'.event, inUse := ps'.inUse) && ps'.event.Keys == ps.event.Keys
    && (forall u :: u in ps.event && u != t ==> ps'.event[u] == ps.event[u])
    && (forall u :: u != t ==> (u in ps'.inUse <==> u in ps.inUse))
  }

  lemma ItemChanges(ps: Prios, t: Task, value: nat)
    requires PrioritiesOk(ps) && t in ps.prio
    ensures OnlyItem(ps, UseEventItem(ps, t, value), t) && PrioritiesOk(UseEventItem(ps, t, value))
    ensures OnlyItem(ps, ResetEventItem(ps, t), t) && PrioritiesOk(ResetEventItem(ps, t))
  {
  }

  lemma ItemAllFine(ms: map<Name, Mutex>, ps: Prios, pc: map<Task, Pc>, ps': Prios, t: Task)
    requires ps.Valid() && AllFine(ms, ps, pc) && OnlyItem(ps, ps', t) && t in ps.prio && (t in pc ==> pc[t] == Outside)
    ensures AllFine(ms, ps', pc)
  {
    hide Prios.Valid, Fine, PcQuiet, PsQuiet, OnlyItem;
    forall m {:trigger Fine(ms[m], m, ps', pc)} | m in ms ensures Fine(ms[m], m, ps', pc) {
      assert Fine(ms[m], m, ps, pc);
      ItemIsQuiet(ms[m], m, ps, pc, ps', t);
      NobodyMoves(pc, m);
      Elsewhere(ms[m], m, ps, pc, ps', pc);
    }
  }

  /** An event group's use of a task's item value concerns nobody at any mutex. */
  lemma ItemKeepsInv(s: State, t: Task, ps: Prios)
    requires Inv(s) && t in s.pc && s.pc[t] == Outside && OnlyItem(s.ps, ps, t) && PrioritiesOk(ps)
    ensures Inv(s.(ps := ps))
  {
    assert t in s.ps.prio.Keys && s.ps.Valid();
    hide PrioritiesOk, Accounts, AllFine;
    ItemAllFine(s.ms, s.ps, s.pc, ps, t);
  }

  lemma NobodyMoves(pc: map<Task, Pc>, m: Name)
    ensures PcQuiet(pc, pc, m)
  {
  }

  lemma ItemIsQuiet(x: Mutex, m: Name, ps: Prios, pc: map<Task, Pc>, ps': Prios, t: Task)
    requires ps.Valid() && Fine(x, m, ps, pc) && t in ps.prio && (t in pc ==> pc[t] != Waiting(m))
    requires OnlyItem(ps, ps', t)
    ensures PsQuiet(ps, ps', x)
  {
  }

  lemma CheckKeepsInv(s: State, t: Task, timedOut: bool)
    requires Inv(s) && Enabled(s, Check(t, timedOut))
    ensures Inv(Apply(s, Check(t, timedOut)))
  {
    hide AllFine, Accounts, PrioritiesOk, BlockBy;
    var m := s.pc[t].m;
    if s.ms[m].count != 0 {
      MoveKeepsInv(s, t, Trying(m), s.inherited);
    } else if !timedOut {
      BlockKeepsInv(s, t, m);
    } else {
      MoveKeepsInv(s, t, if t in s.inherited then Undoing(m) else Outside, s.inherited);
    }
  }

  lemma GiveKeepsInv(s: State, t: Task, m: Name)
    requires Inv(s) && Enabled(s, Give(t, m))
    ensures Inv(Apply(s, Give(t, m)))
  {
    hide AllFine, Accounts, PrioritiesOk, ReleaseBy;
    HolderFacts(s, m, t);
    if s.ms[m].count == 0 {
      InvIgnoresLog(s, s.log + [Gave(t, m)]);
      ReleaseKeepsInv(s.(log := s.log + [Gave(t, m)]), t, m);
    }
  }

  lemma GiveRecursiveKeepsInv(s: State, t: Task, m: Name)
    requires Inv(s) && Enabled(s, GiveRecursive(t, m))
    ensures Inv(Apply(s, GiveRecursive(t, m)))
  {
    hide AllFine, Accounts, PrioritiesOk;
    HolderFacts(s, m, t);
    var x := s.ms[m];
    if x.holder == HeldBy(t) {
      CallsKeepInv(s, t, m, x.calls - 1, if x.calls == 1 then Releasing(m) else Outside, s.log + [Gave(t, m)]);
    }
  }

  lemma HasPriority(s: State, t: Task)
    requires Inv(s) && t in s.pc
    ensures s.ps.Valid() && t in s.ps.prio && t in s.ps.base && t in s.ps.held
  {
  }

  lemma HolderHasPriority(s: State, m: Name)
    requires Inv(s) && m in s.ms && s.ms[m].count == 0
    ensures var x := s.ms[m];
            x.holder.HeldBy? && x.holder.t in s.ps.prio && x.holder.t in s.ps.base && x.holder.t in s.ps.held
  {
    TakenHasHolder(s, m);
  }

  /** A task that gives up goes back on the inheritance it caused: through its last two steps
      the holder falls as a time-out demands, and nobody else's priority changes. */
  lemma GivingUpLowers(s: State, t: Task)
    requires Inv(s) && Enabled(s, Check(t, true)) && t in s.inherited && s.ms[s.pc[t].m].count == 0
    ensures var x := s.ms[s.pc[t].m];
            x.holder.HeldBy? && x.holder.t in s.ps.prio && x.holder.t in s.ps.base && x.holder.t in s.ps.held
    ensures var q := Apply(s, Check(t, true));
            && Inv(q) && Enabled(q, Undo(t))
            && var r, x := Apply(q, Undo(t)), s.ms[s.pc[t].m]; var h := x.holder.t;
               && Inv(r) && r.pc == s.pc[t := Outside] && r.ms == s.ms && h in r.ps.prio
               && r.ps.prio == s.ps.prio[h := r.ps.prio[h]] && FallsTo(s.ps, h, x.waiters, r.ps.prio[h])
  {
    hide AllFine, Accounts, PrioritiesOk, Prios.Valid, FallsTo, UndoBy, BlockBy;
    var m, q := s.pc[t].m, Apply(s, Check(t, true));
    HolderHasPriority(s, m);
    CheckKeepsInv(s, t, true);
    assert q == s.(pc := s.pc[t := Undoing(m)]);
    UndoKeepsInv(q, t, m);
    TimeoutLowersExactly(q, t, m);
    UndoTouchesHolder(q, t, m);
    assert q.pc[t := Outside] == s.pc[t := Outside];
  }

  lemma UndoTouchesHolder(s: State, t: Task, m: Name)
    requires Typed(s) && t in s.pc && m in s.ms && s.ms[m].holder.HeldBy?
    ensures var h, r := s.ms[m].holder.t, UndoBy(s, t, m); h in r.ps.prio && r.ps.prio == s.ps.prio[h := r.ps.prio[h]]
  {
    hide HighestWaiting;
    var h := s.ms[m].holder.t;
    assert s.ps.prio[h := s.ps.prio[h]] == s.ps.prio;
  }

  // ----- nobody sleeps at a free mutex

  ghost predicate SomebodyTries(pc: map<Task, Pc>, m: Name) {
    exists u :: u in pc && pc[u] == Trying(m)
  }

  /** No lost wake-up: while tasks wait for a mutex that is free, somebody is at the top of
      the loop for it, with nothing left that could put that task back on the list. */
  ghost predicate Served(ms: map<Name, Mutex>, pc: map<Task, Pc>) {
    forall m {:trigger SomebodyTries(pc, m)} :: m in ms && ms[m].count > 0 && ms[m].waiters != [] ==>
      SomebodyTries(pc, m)
  }

  lemma ServedElsewhere(ms: map<Name, Mutex>, pc: map<Task, Pc>, m: Name, x: Mutex, pc': map<Task, Pc>)
    requires Served(ms, pc)
    requires forall u :: u in pc && pc[u].Trying? && pc[u].m != m ==> u in pc' && pc'[u] == pc[u]
    requires x.count > 0 && x.waiters != [] ==> SomebodyTries(pc', m)
    ensures Served(ms[m := x], pc')
  {
    forall k | k in ms && k != m && ms[k].count > 0 && ms[k].waiters != [] ensures SomebodyTries(pc', k) {
      assert SomebodyTries(pc, k);
      var u :| u in pc && pc[u] == Trying(k);
      assert pc'[u] == Trying(k);
    }
  }

  /** Who was not trying moves: no mutex loses the one who tries for it. */
  lemma ServedStill(ms: map<Name, Mutex>, pc: map<Task, Pc>, t: Task, p: Pc, m: Name, x: Mutex)
    requires Served(ms, pc) && t in pc && !pc[t].Trying? && m in ms
    requires x.count == ms[m].count && (x.waiters == [] <==> ms[m].waiters == [])
    ensures Served(ms[m := x], pc[t := p])
  {
    if x.count > 0 && x.waiters != [] {
      assert SomebodyTries(pc, m);
      var u :| u in pc && pc[u] == Trying(m);
      assert pc[t := p][u] == Trying(m);
    }
    ServedElsewhere(ms, pc, m, x, pc[t := p]);
  }

  lemma StaysServed(ms: map<Name, Mutex>, pc: map<Task, Pc>, t: Task, p: Pc)
    requires Served(ms, pc) && t in pc && !pc[t].Trying?
    ensures Served(ms, pc[t := p])
  {
    if m :| m in ms {
      ServedStill(ms, pc, t, p, m, ms[m]);
      assert ms[m := ms[m]] == ms;
    }
  }

  lemma ReleaseKeepsServed(s: State, t: Task, m: Name)
    requires Inv(s) && Served(s.ms, s.pc) && t in s.pc && m in s.ms && s.ms[m].holder == HeldBy(t)
    requires s.ms[m].calls == 0 && (s.pc[t] == Outside || s.pc[t] == Releasing(m))
    ensures Served(ReleaseBy(s, t, m).ms, ReleaseBy(s, t, m).pc)
  {
    hide Inv, ReleaseBy, Served, Prios.Valid;
    HasPriority(s, t);
    ReleaseKeepsInv(s, t, m);
    var r, ws := ReleaseBy(s, t, m), s.ms[m].waiters;
    assert ws != [] ==> r.pc[ws[0]] == Trying(m);
    ServedElsewhere(s.ms, s.pc, m, r.ms[m], r.pc);
  }

  lemma TryKeepsServed(s: State, t: Task, mayWait: bool)
    requires Inv(s) && Served(s.ms, s.pc) && Enabled(s, TryTake(t, mayWait))
    ensures Served(Apply(s, TryTake(t, mayWait)).ms, Apply(s, TryTake(t, mayWait)).pc)
  {
    hide AllFine, Accounts, PrioritiesOk, Served;
    var m, r := s.pc[t].m, Apply(s, TryTake(t, mayWait));
    HolderFacts(s, m, t);
    ServedElsewhere(s.ms, s.pc, m, r.ms[m], r.pc);
    assert r.ms == s.ms[m := r.ms[m]];
  }

  lemma CheckKeepsServed(s: State, t: Task, timedOut: bool)
    requires Inv(s) && Served(s.ms, s.pc) && Enabled(s, Check(t, timedOut))
    ensures Served(Apply(s, Check(t, timedOut)).ms, Apply(s, Check(t, timedOut)).pc)
  {
    hide AllFine, Accounts, PrioritiesOk, Served, Inherit, InsertWaiter;
    var m, r := s.pc[t].m, Apply(s, Check(t, timedOut));
    if s.ms[m].count == 0 && !timedOut {
      ServedElsewhere(s.ms, s.pc, m, r.ms[m], r.pc);
    } else {
      StaysServed(s.ms, s.pc, t, r.pc[t]);
    }
  }

  lemma ExpireKeepsServed(s: State, t: Task, m: Name)
    requires Inv(s) && Served(s.ms, s.pc) && t in s.pc && s.pc[t] == Waiting(m)
    ensures Served(ExpireBy(s, t, m).ms, ExpireBy(s, t, m).pc)
  {
    hide AllFine, Accounts, PrioritiesOk, Served;
    var r := ExpireBy(s, t, m);
    assert r.pc[t] == Trying(m);
    ServedElsewhere(s.ms, s.pc, m, r.ms[m], r.pc);
  }

  lemma StepKeepsServed(s: State, a: Step)
    requires Inv(s) && Enabled(s, a) && Served(s.ms, s.pc)
    ensures Served(Apply(s, a).ms, Apply(s, a).pc)
  {
    hide AllFine, Accounts, PrioritiesOk, Prios.Valid, Served, BlockBy, TakeBy, DisinheritAfterTimeout, HighestWaiting;
    var t, r := a.t, Apply(s, a);
    match a {
      case BeginTake(_, m) =>
        HolderFacts(s, m, t);
        ServedStill(s.ms, s.pc, t, r.pc[t], m, r.ms[m]);
        assert r.ms == s.ms[m := r.ms[m]] && r.pc == s.pc[t := r.pc[t]];
      case TryTake(_, mayWait) => TryKeepsServed(s, t, mayWait);
      case CountCall(_) => ServedStill(s.ms, s.pc, t, Outside, s.pc[t].m, r.ms[s.pc[t].m]);
      case Check(_, timedOut) => CheckKeepsServed(s, t, timedOut);
      case Undo(_) => StaysServed(s.ms, s.pc, t, Outside);
      case Expire(_) => ExpireKeepsServed(s, t, s.pc[t].m);
      case Give(_, m) =>
        HolderFacts(s, m, t);
        if s.ms[m].count == 0 {
          InvIgnoresLog(s, s.log + [Gave(t, m)]);
          ReleaseKeepsServed(s.(log := s.log + [Gave(t, m)]), t, m);
        }
      case GiveRecursive(_, m) =>
        if s.ms[m].holder == HeldBy(t) && s.ms[m].calls > 0 {
          ServedStill(s.ms, s.pc, t, r.pc[t], m, r.ms[m]);
        }
      case DoRelease(_) =>
        HolderFacts(s, s.pc[t].m, t);
        ReleaseKeepsServed(s, t, s.pc[t].m);
      case UseItem(_, _) =>
      case ResetItem(_) =>
    }
  }

  // ----- what callers see

  /** Successful takes less successful gives. */
  function Depth(log: seq<Done>, m: Name): int {
    if log == [] then 0
    else
      var e := log[|log| - 1];
      Depth(log[..|log| - 1], m) + if e.m != m then 0 else if e.Took? then 1 else -1
  }

  function LastUser(log: seq<Done>, m: Name): Holder {
    if log == [] then Nobody
    else if log[|log| - 1].m == m then HeldBy(log[|log| - 1].t)
    else LastUser(log[..|log| - 1], m)
  }

  /** Mutual exclusion, as a property of what the calls have answered: from a first take to
      the give that matches it, nobody else takes or gives the mutex. */
  ghost predicate Exclusive(log: seq<Done>) {
    log == [] ||
    var before, e := log[..|log| - 1], log[|log| - 1];
    && Exclusive(before)
    && Depth(before, e.m) >= (if e.Gave? then 1 else 0)
    && (Depth(before, e.m) > 0 ==> LastUser(before, e.m) == HeldBy(e.t))
  }

  /** How deep the holder is nested: the recursive call count, or for a plain mutex whether
      it is held. */
  function Nesting(x: Mutex): nat {
    if x.recursive then x.calls else if x.holder == Nobody then 0 else 1
  }

  ghost predicate LogOk(ms: map<Name, Mutex>, log: seq<Done>) {
    && Exclusive(log)
    && (forall m :: m in ms ==>
        Depth(log, m) == Nesting(ms[m]) && (Depth(log, m) > 0 ==> LastUser(log, m) == ms[m].holder))
  }

  lemma LogGrows(log: seq<Done>, e: Done, m: Name)
    ensures Depth(log + [e], m) == Depth(log, m) + if e.m != m then 0 else if e.Took? then 1 else -1
    ensures LastUser(log + [e], m) == if e.m == m then HeldBy(e.t) else LastUser(log, m)
    ensures Exclusive(log + [e]) <==> Exclusive(log) && Depth(log, e.m) >= (if e.Gave? then 1 else 0)
                                      && (Depth(log, e.m) > 0 ==> LastUser(log, e.m) == HeldBy(e.t))
  {
    assert (log + [e])[..|log + [e]| - 1] == log;
  }

  lemma LogAfter(ms: map<Name, Mutex>, log: seq<Done>, m: Name, x: Mutex, e: Done)
    requires LogOk(ms, log) && m in ms && e.m == m && ms[m].recursive == x.recursive
    requires Nesting(ms[m]) > 0 ==> ms[m].holder == HeldBy(e.t)
    requires Nesting(x) == Nesting(ms[m]) + if e.Took? then 1 else -1
    requires Nesting(x) > 0 ==> x.holder == HeldBy(e.t)
    ensures LogOk(ms[m := x], log + [e])
  {
    assert Depth(log, m) == Nesting(ms[m]);
    LogGrows(log, e, m);
    hide Depth, LastUser, Exclusive;
    forall k | k in ms[m := x]
      ensures Depth(log + [e], k) == Nesting(ms[m := x][k])
      ensures Depth(log + [e], k) > 0 ==> LastUser(log + [e], k) == ms[m := x][k].holder
    {
      LogGrows(log, e, k);
    }
  }

  lemma LogSame(ms: map<Name, Mutex>, log: seq<Done>, m: Name, x: Mutex)
    requires LogOk(ms, log) && m in ms && Nesting(x) == Nesting(ms[m]) && (Nesting(x) > 0 ==> x.holder == ms[m].holder)
    ensures LogOk(ms[m := x], log)
  {
    hide Depth, LastUser, Exclusive;
  }

  /** Every step keeps mutual exclusion, and the recursive call count equals the nesting that
      the callers have seen. */
  lemma StepKeepsLog(s: State, a: Step)
    requires Inv(s) && Enabled(s, a) && LogOk(s.ms, s.log)
    ensures LogOk(Apply(s, a).ms, Apply(s, a).log)
  {
    hide AllFine, Accounts, PrioritiesOk, Prios.Valid, LogOk, Inherit, DisinheritAfterTimeout, Disinherit;
    if a.UseItem? || a.ResetItem? {
      return;
    }
    var t, r := a.t, Apply(s, a);
    var m := if a.BeginTake? || a.Give? || a.GiveRecursive? then a.m else if s.pc[t] == Outside then 0 else s.pc[t].m;
    HolderFacts(s, m, t);
    var x, y := s.ms[m], r.ms[m];
    assert r.ms == s.ms[m := y];
    if r.log == s.log {
      LogSame(s.ms, s.log, m, y);
    } else {
      assert r.log == s.log + [if a.Give? || a.GiveRecursive? then Gave(t, m) else Took(t, m)];
      LogAfter(s.ms, s.log, m, y, if a.Give? || a.GiveRecursive? then Gave(t, m) else Took(t, m));
    }
  }

  // ----- runs

  /** Mutexes as prvInitialiseMutex leaves them, and tasks that hold none. */
  ghost predicate Initial(s: State) {
    && Typed(s) && s.log == []
    && s.ps.inUse == {}
    && (forall t :: t in s.pc ==> s.pc[t] == Outside)
    && (forall t :: t in s.ps.prio ==>
          s.ps.held[t] == 0 && s.ps.prio[t] == s.ps.base[t] && s.ps.event[t] == s.ps.max - s.ps.prio[t])
    && (forall m :: m in s.ms ==> s.ms[m] == Mutex(s.ms[m].recursive, 1, Nobody, 0, [], {}))
  }

  lemma InitialKeepsInv(s: State)
    requires Initial(s)
    ensures Inv(s) && LogOk(s.ms, s.log) && Served(s.ms, s.pc)
  {
    assert Accounts(s.ps.held, s.ms) by {
      forall t | t in s.ps.held ensures |Held(s.ms, t)| == 0 {
        assert Held(s.ms, t) == {};
      }
    }
    assert PrioritiesOk(s.ps) by { hide Accounts; }
    assert LogOk(s.ms, s.log) by { hide PrioritiesOk, Accounts, Prios.Valid; }
    hide PrioritiesOk, Accounts, LogOk, Prios.Valid;
    forall m {:trigger Fine(s.ms[m], m, s.ps, s.pc)} | m in s.ms ensures Fine(s.ms[m], m, s.ps, s.pc) {
      assert s.ms[m].waiters == [] && s.ms[m].under == {};
    }
  }

  ghost predicate Run(s: State, steps: seq<Step>)
    requires Inv(s)
    decreases |steps|
  {
    steps != [] ==> Enabled(s, steps[0]) && (StepKeepsInv(s, steps[0]); Run(Apply(s, steps[0]), steps[1..]))
  }

  ghost function After(s: State, steps: seq<Step>): State
    requires Inv(s) && Run(s, steps)
    decreases |steps|
  {
    if steps == [] then s else (StepKeepsInv(s, steps[0]); After(Apply(s, steps[0]), steps[1..]))
  }

  /** In every reachable state: held counts, mutex counts and holders agree, who holds
      nothing runs at its base priority, inheritance holds, the recursive counts are the
      nesting depths, the calls so far exclude each other, and nobody waits for a free mutex
      unless somebody is about to try for it. */
  lemma {:induction false} RunKeepsInv(s: State, steps: seq<Step>)
    requires Inv(s) && LogOk(s.ms, s.log) && Served(s.ms, s.pc) && Run(s, steps)
    ensures var r := After(s, steps); Inv(r) && LogOk(r.ms, r.log) && Served(r.ms, r.pc)
    decreases |steps|
  {
    hide Apply, Enabled, LogOk, Served, AllFine, Accounts, PrioritiesOk, Typed;
    if steps != [] {
      StepKeepsInv(s, steps[0]);
      StepKeepsLog(s, steps[0]);
      StepKeepsServed(s, steps[0]);
      RunKeepsInv(Apply(s, steps[0]), steps[1..]);
    }
  }

  // ----- inheritance is not passed on

  ghost predicate Guaranteed(ms: map<Name, Mutex>, prio: map<Task, nat>) {
    forall m, w :: m in ms && ms[m].holder.HeldBy? && ms[m].holder.t in prio && w in ms[m].under && w in prio ==>
      prio[w] <= prio[ms[m].holder.t]
  }

  /** A holder that itself waits for a mutex under a task of too low a priority. */
  ghost predicate PassedOver(ms: map<Name, Mutex>, prio: map<Task, nat>, h: Task, p: nat) {
    exists k :: k in ms && ms[k].holder.HeldBy? && ms[k].holder.t in prio && ms[k].holder.t != h
      && h in ms[k].under && prio[ms[k].holder.t] < p
  }

  /** When a task blocks on a mutex, its holder h inherits, but nobody inherits from h.  So,
      if tasks do block while they hold mutexes, the guarantee survives the step exactly when
      h does not in turn wait under a holder of lower priority than the blocking task. */
  lemma InheritanceIsNotTransitive(ms: map<Name, Mutex>, ps: Prios, m: Name, h: Task, t: Task)
    requires ps.Valid() && Guaranteed(ms, ps.prio) && m in ms && ms[m].holder == HeldBy(h)
    requires h in ps.prio && t in ps.prio && h != t
    ensures Guaranteed(ms[m := ms[m].(under := ms[m].under + {t})], Inherit(ps, h, t).prio) <==>
            !PassedOver(ms, ps.prio, h, ps.prio[t])
  {
    var ms', prio' := ms[m := ms[m].(under := ms[m].under + {t})], Inherit(ps, h, t).prio;
    if PassedOver(ms, ps.prio, h, ps.prio[t]) {
      var k :| k in ms && ms[k].holder.HeldBy? && ms[k].holder.t in ps.prio && ms[k].holder.t != h
               && h in ms[k].under && ps.prio[ms[k].holder.t] < ps.prio[t];
      assert prio'[h] > prio'[ms'[k].holder.t];
    } else {
      forall k, w | k in ms' && ms'[k].holder.HeldBy? && ms'[k].holder.t in prio' && w in ms'[k].under && w in prio'
        ensures prio'[w] <= prio'[ms'[k].holder.t]
      {
        if w == h && ms[k].holder.t != h && h in ms[k].under {
          assert ps.prio[ms[k].holder.t] >= ps.prio[t];
        }
      }
    }
  }

  /** Three tasks show it: from a start at which nobody holds anything, 0 and 1 take a mutex
      each, 1 blocks on the mutex of 0, and the guarantee is lost when 2, of higher priority,
      blocks on that of 1. */
  lemma ChainOfThree() returns (a: State, b: State, c: State, d: State, e: State)
    ensures Initial(a) && a.pc.Keys == {0, 1, 2} && a.ms.Keys == {0, 1}
    ensures b == TakeBy(a, 0, 0)
    ensures Typed(b) && 1 in b.ps.prio && 1 in b.ms && b.ms[1].count > 0 && c == TakeBy(b, 1, 1)
    ensures Typed(c) && 1 in c.ps.prio && 0 in c.ms && d == BlockBy(c, 1, 0)
    ensures Typed(d) && 2 in d.ps.prio && 1 in d.ms && e == BlockBy(d, 2, 1)
    ensures Guaranteed(d.ms, d.ps.prio) && !Guaranteed(e.ms, e.ps.prio)
  {
    a := ThreeTasks();
    hide TakeBy, BlockBy, Typed, Initial, Guaranteed, Prios.Valid;
    TakeIsTyped(a, 0, 0);
    b := TakeBy(a, 0, 0);
    TakeIsTyped(b, 1, 1);
    c := TakeBy(b, 1, 1);
    FirstBlock(c);
    d := BlockBy(c, 1, 0);
    LastBlock(d);
    e := BlockBy(d, 2, 1);
  }

  lemma ThreeTasks() returns (a: State)
    ensures Initial(a) && Typed(a) && a.ps.Valid() && a.pc.Keys == a.ps.prio.Keys == {0, 1, 2} && a.ms.Keys == {0, 1}
    ensures a.ps.prio[0] == a.ps.prio[1] < a.ps.prio[2] && a.ps.inUse == {}
    ensures a.ms[0] == a.ms[1] == Mutex(false, 1, Nobody, 0, [], {})
  {
    var prio, free := map[0 := 2, 1 := 2, 2 := 3], Mutex(false, 1, Nobody, 0, [], {});
    a := State(Prios(5, prio, prio, map[0 := 0, 1 := 0, 2 := 0], map[0 := 3, 1 := 3, 2 := 2], {}),
               map[0 := free, 1 := free], map[0 := Outside, 1 := Outside, 2 := Outside], {}, []);
  }

  lemma TakeIsTyped(s: State, t: Task, m: Name)
    requires Typed(s) && s.ps.Valid() && t in s.ps.prio && t in s.pc && m in s.ms && s.ms[m].count > 0
             && !s.ms[m].recursive
    ensures var r := TakeBy(s, t, m);
            && Typed(r) && r.ps.Valid() && r.ps.prio == s.ps.prio && r.ps.inUse == s.ps.inUse && r.pc.Keys == s.pc.Keys
            && r.ms == s.ms[m := Acquire(s.ms[m], t)]
  {
    assert t in s.ps.held;
    TypedStep(s, TakeBy(s, t, m), m, t);
  }

  lemma FirstBlock(c: State)
    requires Typed(c) && c.ps.prio.Keys == {0, 1, 2} && c.ms.Keys == {0, 1} && c.ps.prio[0] == c.ps.prio[1]
    requires c.ms[0].holder == HeldBy(0) && c.ms[1].holder == HeldBy(1) && c.ms[0].under == {} && c.ms[1].under == {}
    requires c.ps.inUse == {}
    ensures var d := BlockBy(c, 1, 0);
            && Typed(d) && d.ps.prio == c.ps.prio && d.ms.Keys == {0, 1} && d.ms[1] == c.ms[1]
            && d.ms[0].holder == HeldBy(0) && d.ms[0].under == {1} && Guaranteed(d.ms, d.ps.prio)
  {
    hide InsertWaiter;
    assert 1 in c.pc;
    TypedStep(c, BlockBy(c, 1, 0), 0, 1);
  }

  lemma LastBlock(d: State)
    requires Typed(d) && d.ps.prio.Keys == {0, 1, 2} && d.ms.Keys == {0, 1}
             && d.ps.prio[0] == d.ps.prio[1] < d.ps.prio[2]
    requires d.ms[0].holder == HeldBy(0) && d.ms[1].holder == HeldBy(1) && 1 in d.ms[0].under
    ensures !Guaranteed(BlockBy(d, 2, 1).ms, BlockBy(d, 2, 1).ps.prio)
  {
    var e := BlockBy(d, 2, 1);
    assert e.ps.prio[1] == d.ps.prio[2] && e.ms[0] == d.ms[0];
  }
}
