/** The blocking protocol of queue.c as a state machine.  A step is one critical section of
    a task, or one interrupt.  Interrupts may come between any two steps; other tasks run
    only while no task has the scheduler suspended.  Two questions are settled for every
    run: no receiver and no sender sleeps through its wake-up, and the lock counts, although
    capped at the number of tasks, lose none. */
module QueueProtocol {
  import opened Arithmetic
  import opened ListSpec

  type Task = nat

  /** The part of Queue_t that the protocol is about.  A lock count of -1 is queueUNLOCKED. */
  datatype Core = Core(
    length: nat, messages: nat, txLock: int, rxLock: int,
    waitingToReceive: seq<Task>, waitingToSend: seq<Task>)

  const UNLOCKED := -1
  const LOCKED_UNMODIFIED := 0
  const INT8_MAX := 127

  /** What an operation leaves behind, and whom it has taken off an event list. */
  datatype Outcome = Outcome(core: Core, woken: seq<Task>)

  function Count(lock: int): nat { if lock < 0 then 0 else lock }

  predicate HasRoom(c: Core, overwrite: bool) {
    c.messages < c.length || overwrite
  }

  /** queueOVERWRITE of a full queue replaces its one item. */
  function Posted(c: Core, overwrite: bool): Core {
    if overwrite && c.messages > 0 then c else c.(messages := c.messages + 1)
  }

  function WakeReceiver(c: Core): Outcome {
    if c.waitingToReceive == [] then Outcome(c, [])
    else Outcome(c.(waitingToReceive := c.waitingToReceive[1..]), [c.waitingToReceive[0]])
  }

  function WakeSender(c: Core): Outcome {
    if c.waitingToSend == [] then Outcome(c, [])
    else Outcome(c.(waitingToSend := c.waitingToSend[1..]), [c.waitingToSend[0]])
  }

  function Increment(lock: int, tasks: nat): int {
    if lock < tasks then lock + 1 else lock
  }

  function Send(c: Core, overwrite: bool): Outcome {
    WakeReceiver(Posted(c, overwrite))
  }

  function SendFromISR(c: Core, overwrite: bool, tasks: nat): Outcome {
    var c := Posted(c, overwrite);
    if c.txLock == UNLOCKED then WakeReceiver(c)
    else Outcome(c.(txLock := Increment(c.txLock, tasks)), [])
  }

  function Receive(c: Core): Outcome
    requires c.messages > 0
  {
    WakeSender(c.(messages := c.messages - 1))
  }

  function ReceiveFromISR(c: Core, tasks: nat): Outcome
    requires c.messages > 0
  {
    var c := c.(messages := c.messages - 1);
    if c.rxLock == UNLOCKED then WakeSender(c)
    else Outcome(c.(rxLock := Increment(c.rxLock, tasks)), [])
  }

  /** The item stays, so the next receiver is woken for it. */
  function Peek(c: Core): Outcome { WakeReceiver(c) }

  function Lock(c: Core): Core {
    c.(rxLock := if c.rxLock == UNLOCKED then LOCKED_UNMODIFIED else c.rxLock,
       txLock := if c.txLock == UNLOCKED then LOCKED_UNMODIFIED else c.txLock)
  }

  /** The two halves of prvUnlockQueue, each a critical section of its own. */
  function UnlockTx(c: Core): Outcome {
    var n := Min(Count(c.txLock), |c.waitingToReceive|);
    Outcome(c.(txLock := UNLOCKED, waitingToReceive := c.waitingToReceive[n..]), c.waitingToReceive[..n])
  }

  function UnlockRx(c: Core): Outcome {
    var n := Min(Count(c.rxLock), |c.waitingToSend|);
    Outcome(c.(rxLock := UNLOCKED, waitingToSend := c.waitingToSend[n..]), c.waitingToSend[..n])
  }

  /** xQueueGenericReset of a queue in use: one sender is woken. */
  function Reset(c: Core): Outcome {
    WakeSender(c.(messages := 0, txLock := UNLOCKED, rxLock := UNLOCKED))
  }

  // ----- tasks

  datatype Call = Receiving | Peeking | Sending

  /** Where a task is inside xQueueReceive, xQueuePeek, xQueueSemaphoreTake or
      xQueueGenericSend. */
  datatype Pc =
    | Outside
    | Try(call: Call, woken: bool)   // at the top of the loop; woken: by the queue, not yet retried
    | Failed(call: Call)             // found nothing; about to suspend the scheduler and lock
    | Locked(call: Call)             // locked; time-out and queue state not yet examined
    | MustWait(call: Call)           // examined under the lock: still nothing
    | Waiting(call: Call)            // on the event list
    | Expired(call: Call)            // the time-out has expired

  /** Who has the scheduler suspended for this queue, and how far it has unlocked. */
  datatype Holder = Nobody | Holding(task: Task) | TxDone(task: Task)

  datatype State = State(core: Core, pc: map<Task, Pc>, holder: Holder,
                         posts: nat, takes: nat)  // what interrupts moved since the lock

  datatype Step =
    | Begin(task: Task, call: Call)
    | Attempt(task: Task, overwrite: bool, block: bool)
    | LockQueue(task: Task)
    | Examine(task: Task, expired: bool)
    | Place(task: Task, pos: nat)    // any place: whatever the priorities are
    | FinishTx(task: Task)
    | FinishRx(task: Task)
    | Leave(task: Task)
    | TimeOut(task: Task)
    | IsrSend(overwrite: bool)
    | IsrReceive
    | ResetQueue
    | CreateTask(task: Task)

  predicate Receives(call: Call) { call != Sending }

  predicate Enabled(s: State, e: Step) {
    match e
    case Begin(t, call) => s.holder == Nobody && t in s.pc && s.pc[t] == Outside
    case Attempt(t, overwrite, block) =>
      s.holder == Nobody && t in s.pc && s.pc[t].Try? && (overwrite ==> s.core.length == 1)
    case LockQueue(t) => s.holder == Nobody && t in s.pc && s.pc[t].Failed?
    case Examine(t, expired) => s.holder == Holding(t) && t in s.pc && s.pc[t].Locked?
    case Place(t, pos) =>
      && s.holder == Holding(t) && t in s.pc && s.pc[t].MustWait?
      && pos <= |if Receives(s.pc[t].call) then s.core.waitingToReceive else s.core.waitingToSend|
    case FinishTx(t) => s.holder == Holding(t) && t in s.pc && !s.pc[t].Locked? && !s.pc[t].MustWait?
    case FinishRx(t) => s.holder == TxDone(t)
    case Leave(t) => s.holder == Nobody && t in s.pc && s.pc[t].Expired?
    case TimeOut(t) => s.holder == Nobody && t in s.pc && s.pc[t].Waiting?
    case IsrSend(overwrite) => overwrite ==> s.core.length == 1
    case IsrReceive => true
    case ResetQueue => s.holder == Nobody
    case CreateTask(t) => s.holder == Nobody && t !in s.pc && |s.pc| < INT8_MAX
  }

  /** Tasks taken off an event list by the queue are at the top of their loop again. */
  function Wake(pc: map<Task, Pc>, woken: seq<Task>): map<Task, Pc> {
    map t | t in pc :: if t in woken && pc[t].Waiting? then Try(pc[t].call, true) else pc[t]
  }

  function After(s: State, o: Outcome): State {
    s.(core := o.core, pc := Wake(s.pc, o.woken))
  }

  function Set(s: State, t: Task, pc: Pc): State {
    s.(pc := s.pc[t := pc])
  }

  function Apply(s: State, e: Step): State
    requires Enabled(s, e)
  {
    match e
    case Begin(t, call) => Set(s, t, Try(call, false))
    case Attempt(t, overwrite, block) =>
      var call := s.pc[t].call;
      if call == Sending && HasRoom(s.core, overwrite) then After(Set(s, t, Outside), Send(s.core, overwrite))
      else if call == Receiving && s.core.messages > 0 then After(Set(s, t, Outside), Receive(s.core))
      else if call == Peeking && s.core.messages > 0 then After(Set(s, t, Outside), Peek(s.core))
      else Set(s, t, if block then Failed(call) else Outside)
    case LockQueue(t) =>
      Set(s, t, Locked(s.pc[t].call)).(core := Lock(s.core), holder := Holding(t), posts := 0, takes := 0)
    case Examine(t, expired) =>
      var call := s.pc[t].call;
      if expired then Set(s, t, Expired(call))
      else if (if Receives(call) then s.core.messages == 0 else s.core.messages == s.core.length)
      then Set(s, t, MustWait(call))
      else Set(s, t, Try(call, false))
    case Place(t, pos) =>
      var call := s.pc[t].call;
      Set(s, t, Waiting(call)).(core :=
        if Receives(call) then s.core.(waitingToReceive := InsertAt(s.core.waitingToReceive, pos, t))
        else s.core.(waitingToSend := InsertAt(s.core.waitingToSend, pos, t)))
    case FinishTx(t) => After(s, UnlockTx(s.core)).(holder := TxDone(t))
    case FinishRx(t) => After(s, UnlockRx(s.core)).(holder := Nobody)
    case Leave(t) =>
      // a receiver whose time-out expired still takes what has arrived meanwhile
      var call := s.pc[t].call;
      Set(s, t, if Receives(call) && s.core.messages > 0 then Try(call, false) else Outside)
    case TimeOut(t) =>
      var call := s.pc[t].call;
      Set(s, t, Try(call, false)).(core :=
        if Receives(call) then s.core.(waitingToReceive := Without(s.core.waitingToReceive, t))
        else s.core.(waitingToSend := Without(s.core.waitingToSend, t)))
    case IsrSend(overwrite) =>
      if HasRoom(s.core, overwrite)
      then After(s, SendFromISR(s.core, overwrite, |s.pc|)).(posts := s.posts + 1) else s
    case IsrReceive =>
      if s.core.messages > 0
      then After(s, ReceiveFromISR(s.core, |s.pc|)).(takes := s.takes + 1) else s
    case ResetQueue => After(s, Reset(s.core))
    case CreateTask(t) => Set(s, t, Outside)
  }

  // ----- the invariant

  function WokenBy(pc: map<Task, Pc>, receivers: bool): set<Task> {
    set t | t in pc && IsWoken(pc[t], receivers)
  }

  predicate IsWoken(x: Pc, receivers: bool) {
    x.Try? && x.woken && Receives(x.call) == receivers
  }

  /** The tasks whose event-list membership the lists must agree with. */
  ghost predicate OnList(pc: map<Task, Pc>, l: seq<Task>, receivers: bool) {
    && NoDup(l)
    && (forall t :: t in l <==> t in pc && pc[t].Waiting? && Receives(pc[t].call) == receivers)
  }

  ghost predicate Pending(pc: map<Task, Pc>, l: seq<Task>, receivers: bool) {
    l != [] || exists t :: t in pc && pc[t].MustWait? && Receives(pc[t].call) == receivers
  }

  /** What is there to be had is spoken for: by woken tasks that have not retried yet, or by
      the wake-ups the unlock is going to make. */
  ghost predicate SpokenFor(available: int, pc: map<Task, Pc>, lock: int, receivers: bool) {
    available <= |WokenBy(pc, receivers)| + Count(lock) || lock >= |pc|
  }

  ghost predicate LocksMatch(s: State) {
    && (s.core.txLock >= 0 <==> s.holder.Holding?) && s.core.txLock >= UNLOCKED
    && (s.core.rxLock >= 0 <==> s.holder != Nobody) && s.core.rxLock >= UNLOCKED
    && (s.holder.Holding? ==> s.core.txLock == Min(s.posts, |s.pc|))
    && (s.holder != Nobody ==> s.core.rxLock == Min(s.takes, |s.pc|))
    && |s.pc| <= INT8_MAX
    && (s.holder != Nobody ==> s.holder.task in s.pc)
    && (forall t :: t in s.pc && (s.pc[t].Locked? || s.pc[t].MustWait?) ==> s.holder == Holding(t))
  }

  ghost predicate Structure(s: State) {
    && OnList(s.pc, s.core.waitingToReceive, true)
    && OnList(s.pc, s.core.waitingToSend, false)
    && s.core.messages <= s.core.length
    && LocksMatch(s)
  }

  ghost predicate ReceiversServed(s: State) {
    Pending(s.pc, s.core.waitingToReceive, true) ==> SpokenFor(s.core.messages, s.pc, s.core.txLock, true)
  }

  ghost predicate SendersServed(s: State) {
    Pending(s.pc, s.core.waitingToSend, false) ==>
      SpokenFor(s.core.length - s.core.messages, s.pc, s.core.rxLock, false)
  }

  /** The claim about senders is optional: xQueueGenericReset does not keep it. */
  ghost predicate Inv(s: State, senders: bool) {
    Structure(s) && ReceiversServed(s) && (senders ==> SendersServed(s))
  }

  // ----- how the steps move the counts and the lists

  lemma WakeCounts(pc: map<Task, Pc>, w: seq<Task>, receivers: bool)
    requires NoDup(w)
    requires forall t :: t in w ==> t in pc && pc[t].Waiting? && Receives(pc[t].call) == receivers
    ensures |Wake(pc, w)| == |pc|
    ensures |WokenBy(Wake(pc, w), receivers)| == |WokenBy(pc, receivers)| + |w|
    ensures WokenBy(Wake(pc, w), !receivers) == WokenBy(pc, !receivers)
  {
    var pc' := Wake(pc, w);
    assert pc'.Keys == pc.Keys;
    assert WokenBy(pc', receivers) == WokenBy(pc, receivers) + Members(w);
    NoDupCardinality(w);
  }

  lemma {:induction false} NoDupCardinality(w: seq<Task>)
    requires NoDup(w)
    ensures |Members(w)| == |w|
  {
    if w == [] {
      assert Members(w) == {};
    } else {
      var last := |w| - 1;
      var init := w[..last];
      assert NoDup(init) by {
        forall i, j | 0 <= i < j < |init| ensures Differ(init, i, j) { assert Differ(w, i, j); }
      }
      assert w[last] !in init by {
        forall i | 0 <= i < |init| ensures init[i] != w[last] { assert Differ(w, i, last); }
      }
      NoDupCardinality(init);
      assert w == init + [w[last]];
      assert Members(w) == Members(init) + {w[last]};
    }
  }

  lemma SetCounts(pc: map<Task, Pc>, t: Task, x: Pc, receivers: bool)
    ensures |WokenBy(pc[t := x], receivers)|
         == |WokenBy(pc, receivers)| - (if t in WokenBy(pc, receivers) then 1 else 0)
            + (if IsWoken(x, receivers) then 1 else 0)
  {
    var pc' := pc[t := x];
    var after, before := WokenBy(pc', receivers), WokenBy(pc, receivers);
    forall u | u != t ensures u in after <==> u in before {
    }
    ChangeAt(before, after, t);
  }

  lemma ChangeAt<T>(before: set<T>, after: set<T>, t: T)
    requires forall u :: u != t ==> (u in after <==> u in before)
    ensures |after| == |before| - (if t in before then 1 else 0) + (if t in after then 1 else 0)
  {
    assert after - {t} == before - {t};
    Discard(after, t);
    Discard(before, t);
  }

  lemma SetSize(pc: map<Task, Pc>, t: Task, x: Pc)
    ensures |pc[t := x]| == |pc| + (if t in pc then 0 else 1)
  {
    assert pc[t := x].Keys == pc.Keys + {t};
    Discard(pc[t := x].Keys, t);
    assert t !in pc ==> pc[t := x].Keys - {t} == pc.Keys;
    assert t in pc ==> pc[t := x].Keys == pc.Keys;
  }

  lemma Discard<T>(a: set<T>, t: T)
    ensures |a - {t}| == |a| - (if t in a then 1 else 0)
  {
    if t in a { assert a == (a - {t}) + {t}; } else { assert a - {t} == a; }
  }

  /** Taking the first n tasks off a list and waking them leaves both lists in step. */
  lemma WakePrefix(pc: map<Task, Pc>, l: seq<Task>, other: seq<Task>, n: nat, receivers: bool)
    requires OnList(pc, l, receivers) && OnList(pc, other, !receivers) && n <= |l|
    ensures OnList(Wake(pc, l[..n]), l[n..], receivers) && OnList(Wake(pc, l[..n]), other, !receivers)
    ensures |Wake(pc, l[..n])| == |pc| && Wake(pc, l[..n]).Keys == pc.Keys
    ensures |WokenBy(Wake(pc, l[..n]), receivers)| == |WokenBy(pc, receivers)| + n
    ensures WokenBy(Wake(pc, l[..n]), !receivers) == WokenBy(pc, !receivers)
    ensures forall t :: t in pc && !pc[t].Waiting? ==> Wake(pc, l[..n])[t] == pc[t]
    ensures forall t :: t in pc && pc[t].Waiting? ==> Wake(pc, l[..n])[t].Try? || Wake(pc, l[..n])[t].Waiting?
  {
    var pc' := Wake(pc, l[..n]);
    assert l == l[..n] + l[n..];
    forall i, j | 0 <= i < j < n ensures Differ(l[..n], i, j) { assert Differ(l, i, j); }
    forall i, j | 0 <= i < j < |l[n..]| ensures Differ(l[n..], i, j) { assert Differ(l, i + n, j + n); }
    forall t | t in l[..n] ensures t !in l[n..] {
      var i :| 0 <= i < n && l[i] == t;
      forall j | 0 <= j < |l[n..]| ensures l[n..][j] != t { assert Differ(l, i, j + n); }
    }
    WakeCounts(pc, l[..n], receivers);
  }

  lemma NobodyWoken(pc: map<Task, Pc>)
    ensures Wake(pc, []) == pc
  {
  }

  /** A list is no longer than there are tasks. */
  lemma ListFits(pc: map<Task, Pc>, l: seq<Task>, receivers: bool)
    requires OnList(pc, l, receivers)
    ensures |l| <= |pc|
  {
    NoDupCardinality(l);
    SmallerSet(Members(l), pc.Keys);
  }

  /** Moving a task between places that are not on a list leaves the lists in step. */
  lemma SetOffList(pc: map<Task, Pc>, t: Task, x: Pc, l: seq<Task>, receivers: bool)
    requires OnList(pc, l, receivers) && !x.Waiting? && (t in pc ==> !pc[t].Waiting?)
    ensures OnList(pc[t := x], l, receivers)
  {
  }

  /** A task joins a list, leaves it, or neither. */
  lemma JoinsList(pc: map<Task, Pc>, t: Task, x: Pc, l: seq<Task>, pos: nat, receivers: bool)
    requires OnList(pc, l, receivers) && t in pc && !pc[t].Waiting? && pos <= |l|
    requires x.Waiting? && Receives(x.call) == receivers
    ensures OnList(pc[t := x], InsertAt(l, pos, t), receivers)
  {
    InsertAtMembers(l, pos, t);
  }

  lemma LeavesList(pc: map<Task, Pc>, t: Task, x: Pc, l: seq<Task>, receivers: bool)
    requires OnList(pc, l, receivers) && t in pc && pc[t].Waiting? && Receives(pc[t].call) == receivers && !x.Waiting?
    ensures OnList(pc[t := x], Without(l, t), receivers)
  {
    RemoveAtMembers(l, IndexOf(l, t));
  }

  lemma OffThisList(pc: map<Task, Pc>, t: Task, x: Pc, l: seq<Task>, receivers: bool)
    requires OnList(pc, l, receivers) && t in pc
    requires pc[t].Waiting? ==> Receives(pc[t].call) != receivers
    requires x.Waiting? ==> Receives(x.call) != receivers
    ensures OnList(pc[t := x], l, receivers)
  {
  }

  lemma PendingStays(pc: map<Task, Pc>, t: Task, x: Pc, l: seq<Task>, l': seq<Task>, receivers: bool)
    requires t in pc && !x.MustWait?
    requires l' != [] ==> l != [] || (pc[t].MustWait? && Receives(pc[t].call) == receivers)
    ensures Pending(pc[t := x], l', receivers) ==> Pending(pc, l, receivers)
  {
  }

  // ----- every step keeps the invariant

  /** An operation that changes the item count and the lock counts and wakes the first n
      tasks of one list. */
  lemma WakingStep(s: State, o: Outcome, n: nat, receivers: bool)
    requires OnList(s.pc, s.core.waitingToReceive, true) && OnList(s.pc, s.core.waitingToSend, false)
    requires var l := if receivers then s.core.waitingToReceive else s.core.waitingToSend;
             && n <= |l| && o.woken == l[..n]
             && o.core.waitingToReceive == (if receivers then l[n..] else s.core.waitingToReceive)
             && o.core.waitingToSend == (if receivers then s.core.waitingToSend else l[n..])
    ensures var s' := After(s, o);
            && OnList(s'.pc, s'.core.waitingToReceive, true) && OnList(s'.pc, s'.core.waitingToSend, false)
            && |s'.pc| == |s.pc| && s'.pc.Keys == s.pc.Keys
            && |WokenBy(s'.pc, receivers)| == |WokenBy(s.pc, receivers)| + n
            && |WokenBy(s'.pc, !receivers)| == |WokenBy(s.pc, !receivers)|
            && (forall t :: t in s.pc ==>
                (s'.pc[t].Locked? <==> s.pc[t].Locked?) && (s'.pc[t].MustWait? <==> s.pc[t].MustWait?))
            && (Pending(s'.pc, s'.core.waitingToReceive, true) ==> Pending(s.pc, s.core.waitingToReceive, true))
            && (Pending(s'.pc, s'.core.waitingToSend, false) ==> Pending(s.pc, s.core.waitingToSend, false))
  {
    var l := if receivers then s.core.waitingToReceive else s.core.waitingToSend;
    var other := if receivers then s.core.waitingToSend else s.core.waitingToReceive;
    WakePrefix(s.pc, l, other, n, receivers);
    hide OnList, WokenBy, Wake;
    assert forall t :: t in s.pc ==> After(s, o).pc[t].MustWait? == s.pc[t].MustWait?
                                     && (s.pc[t].MustWait? ==> After(s, o).pc[t] == s.pc[t]);
  }

  /** Waking the head of a list, if there is one. */
  lemma WakeOne(s: State, c: Core, receivers: bool)
    requires OnList(s.pc, s.core.waitingToReceive, true) && OnList(s.pc, s.core.waitingToSend, false)
    requires c.waitingToReceive == s.core.waitingToReceive && c.waitingToSend == s.core.waitingToSend
    ensures var l := if receivers then c.waitingToReceive else c.waitingToSend;
            var o := if receivers then WakeReceiver(c) else WakeSender(c);
            var n := Min(1, |l|);
            && o.woken == l[..n]
            && o.core == (if receivers then c.(waitingToReceive := l[n..]) else c.(waitingToSend := l[n..]))
  {
    var l := if receivers then c.waitingToReceive else c.waitingToSend;
    if l == [] { assert l[..0] == [] && l[0..] == l; } else { assert l[..1] == [l[0]]; }
  }

  /** A task that is neither on a list nor between the lock and its check moves on. */
  lemma MoveOn(s: State, t: Task, x: Pc)
    requires Structure(s) && t in s.pc && !s.pc[t].Waiting? && !x.Waiting?
    requires x.Locked? || x.MustWait? ==> s.holder == Holding(t)
    ensures Structure(Set(s, t, x)) && |Set(s, t, x).pc| == |s.pc|
  {
    SetOffList(s.pc, t, x, s.core.waitingToReceive, true);
    SetOffList(s.pc, t, x, s.core.waitingToSend, false);
    SetSize(s.pc, t, x);
  }

  /** The task leaves its call, or goes on to block: it no longer counts as woken. */
  lemma Retried(s: State, t: Task, x: Pc)
    requires Structure(s) && t in s.pc && s.pc[t].Try? && (x == Outside || x.Failed?)
    ensures Structure(Set(s, t, x)) && |Set(s, t, x).pc| == |s.pc|
    ensures forall r :: |WokenBy(Set(s, t, x).pc, r)| == |WokenBy(s.pc, r)| - (if IsWoken(s.pc[t], r) then 1 else 0)
    ensures forall l, r :: Pending(Set(s, t, x).pc, l, r) ==> Pending(s.pc, l, r)
  {
    MoveOn(s, t, x);
    SetCounts(s.pc, t, x, true);
    SetCounts(s.pc, t, x, false);
  }

  /** Between the lock and the check there is somebody only while the queue is locked. */
  lemma NobodyMustWait(s: State)
    requires Structure(s) && !s.holder.Holding?
    ensures forall l, r :: Pending(s.pc, l, r) ==> l != []
  {
    hide OnList;
  }

  lemma SendKeeps(s: State, senders: bool, t: Task, overwrite: bool)
    requires Inv(s, senders) && s.holder == Nobody && t in s.pc && s.pc[t].Try? && s.pc[t].call == Sending
    requires HasRoom(s.core, overwrite) && (overwrite ==> s.core.length == 1)
    ensures Inv(After(Set(s, t, Outside), Send(s.core, overwrite)), senders)
  {
    hide OnList, WokenBy, Wake, Pending;
    Retried(s, t, Outside);
    NobodyMustWait(s);
    var done := Set(s, t, Outside);
    WakeOne(done, Posted(s.core, overwrite), true);
    WakingStep(done, Send(s.core, overwrite), Min(1, |s.core.waitingToReceive|), true);
    var r := After(done, Send(s.core, overwrite));
    assert Structure(r) by { hide ReceiversServed, SendersServed; }
    hide LocksMatch;
    assert ReceiversServed(r);
    assert senders ==> SendersServed(r);
  }

  lemma ReceiveKeeps(s: State, senders: bool, t: Task)
    requires Inv(s, senders) && s.holder == Nobody && t in s.pc && s.pc[t].Try? && s.pc[t].call == Receiving
    requires s.core.messages > 0
    ensures Inv(After(Set(s, t, Outside), Receive(s.core)), senders)
  {
    hide OnList, WokenBy, Wake, Pending;
    Retried(s, t, Outside);
    NobodyMustWait(s);
    var done := Set(s, t, Outside);
    WakeOne(done, s.core.(messages := s.core.messages - 1), false);
    WakingStep(done, Receive(s.core), Min(1, |s.core.waitingToSend|), false);
    var r := After(done, Receive(s.core));
    assert Structure(r) by { hide ReceiversServed, SendersServed; }
    hide LocksMatch;
    assert ReceiversServed(r);
    assert senders ==> SendersServed(r);
  }

  lemma PeekKeeps(s: State, senders: bool, t: Task)
    requires Inv(s, senders) && s.holder == Nobody && t in s.pc && s.pc[t].Try? && s.pc[t].call == Peeking
    requires s.core.messages > 0
    ensures Inv(After(Set(s, t, Outside), Peek(s.core)), senders)
  {
    hide OnList, WokenBy, Wake, Pending;
    Retried(s, t, Outside);
    NobodyMustWait(s);
    var done := Set(s, t, Outside);
    WakeOne(done, s.core, true);
    WakingStep(done, Peek(s.core), Min(1, |s.core.waitingToReceive|), true);
    var r := After(done, Peek(s.core));
    assert Structure(r) by { hide ReceiversServed, SendersServed; }
    hide LocksMatch;
    assert ReceiversServed(r);
    assert senders ==> SendersServed(r);
  }

  lemma FailKeeps(s: State, senders: bool, t: Task, x: Pc)
    requires Inv(s, senders) && s.holder == Nobody && t in s.pc && s.pc[t].Try? && (x == Outside || x.Failed?)
    requires if s.pc[t].call == Sending then s.core.messages == s.core.length else s.core.messages == 0
    ensures Inv(Set(s, t, x), senders)
  {
    hide OnList, WokenBy, Pending;
    Retried(s, t, x);
  }

  lemma AttemptKeeps(s: State, senders: bool, t: Task, overwrite: bool, block: bool)
    requires Inv(s, senders) && Enabled(s, Attempt(t, overwrite, block))
    ensures Inv(Apply(s, Attempt(t, overwrite, block)), senders)
  {
    var call := s.pc[t].call;
    if call == Sending && HasRoom(s.core, overwrite) {
      SendKeeps(s, senders, t, overwrite);
    } else if call == Receiving && s.core.messages > 0 {
      ReceiveKeeps(s, senders, t);
    } else if call == Peeking && s.core.messages > 0 {
      PeekKeeps(s, senders, t);
    } else {
      FailKeeps(s, senders, t, if block then Failed(call) else Outside);
    }
  }

  /** A move that neither wakes nor retries anybody. */
  lemma Shift(s: State, t: Task, x: Pc)
    requires Structure(s) && t in s.pc && !s.pc[t].Waiting? && !x.Waiting?
    requires !IsWoken(s.pc[t], true) && !IsWoken(s.pc[t], false) && !IsWoken(x, true) && !IsWoken(x, false)
    requires x.Locked? || x.MustWait? ==> s.holder == Holding(t)
    ensures Structure(Set(s, t, x)) && |Set(s, t, x).pc| == |s.pc|
    ensures forall r :: |WokenBy(Set(s, t, x).pc, r)| == |WokenBy(s.pc, r)|
  {
    MoveOn(s, t, x);
    SetCounts(s.pc, t, x, true);
    SetCounts(s.pc, t, x, false);
  }

  lemma LockKeeps(s: State, senders: bool, t: Task)
    requires Inv(s, senders) && Enabled(s, LockQueue(t))
    ensures Inv(Apply(s, LockQueue(t)), senders)
  {
    var x := Locked(s.pc[t].call);
    SetOffList(s.pc, t, x, s.core.waitingToReceive, true);
    SetOffList(s.pc, t, x, s.core.waitingToSend, false);
    SetSize(s.pc, t, x);
    SetCounts(s.pc, t, x, true);
    SetCounts(s.pc, t, x, false);
  }

  lemma ExamineKeeps(s: State, senders: bool, t: Task, expired: bool)
    requires Inv(s, senders) && Enabled(s, Examine(t, expired))
    ensures Inv(Apply(s, Examine(t, expired)), senders)
  {
    var call := s.pc[t].call;
    Shift(s, t, Expired(call));
    Shift(s, t, MustWait(call));
    Shift(s, t, Try(call, false));
    hide OnList, WokenBy;
    var r := Apply(s, Examine(t, expired));
    assert Structure(r) by { hide ReceiversServed, SendersServed; }
    hide LocksMatch;
    assert ReceiversServed(r);
    assert senders ==> SendersServed(r);
  }

  lemma LocksStay(s: State, r: State, t: Task)
    requires LocksMatch(s) && t in s.pc && t in r.pc && r.pc == s.pc[t := r.pc[t]] && |r.pc| == |s.pc|
    requires r.holder == s.holder && r.posts == s.posts && r.takes == s.takes
    requires r.core.txLock == s.core.txLock && r.core.rxLock == s.core.rxLock
    requires !r.pc[t].Locked? && !r.pc[t].MustWait?
    ensures LocksMatch(r)
  {
  }

  lemma PlaceKeeps(s: State, senders: bool, t: Task, pos: nat)
    requires Inv(s, senders) && Enabled(s, Place(t, pos))
    ensures Inv(Apply(s, Place(t, pos)), senders)
  {
    var r, call := Apply(s, Place(t, pos)), s.pc[t].call;
    var x, receiving := Waiting(call), Receives(call);
    SetSize(s.pc, t, x);
    SetCounts(s.pc, t, x, true);
    SetCounts(s.pc, t, x, false);
    LocksStay(s, r, t);
    hide OnList, WokenBy, Pending, LocksMatch;
    PendingStays(s.pc, t, x, s.core.waitingToReceive, r.core.waitingToReceive, true);
    PendingStays(s.pc, t, x, s.core.waitingToSend, r.core.waitingToSend, false);
    JoinsList(s.pc, t, x, if receiving then s.core.waitingToReceive else s.core.waitingToSend, pos, receiving);
    OffThisList(s.pc, t, x, if receiving then s.core.waitingToSend else s.core.waitingToReceive, !receiving);
    assert Structure(r) by { hide ReceiversServed, SendersServed; }
    assert ReceiversServed(r);
    assert senders ==> SendersServed(r);
  }

  lemma FinishTxKeeps(s: State, senders: bool, t: Task)
    requires Inv(s, senders) && Enabled(s, FinishTx(t))
    ensures Inv(Apply(s, FinishTx(t)), senders)
  {
    ListFits(s.pc, s.core.waitingToReceive, true);
    WakingStep(s, UnlockTx(s.core), Min(s.core.txLock, |s.core.waitingToReceive|), true);
  }

  lemma FinishRxKeeps(s: State, senders: bool, t: Task)
    requires Inv(s, senders) && Enabled(s, FinishRx(t))
    ensures Inv(Apply(s, FinishRx(t)), senders)
  {
    ListFits(s.pc, s.core.waitingToSend, false);
    WakingStep(s, UnlockRx(s.core), Min(s.core.rxLock, |s.core.waitingToSend|), false);
  }

  lemma TimeOutKeeps(s: State, senders: bool, t: Task)
    requires Inv(s, senders) && Enabled(s, TimeOut(t))
    ensures Inv(Apply(s, TimeOut(t)), senders)
  {
    var r, call := Apply(s, TimeOut(t)), s.pc[t].call;
    var x, receiving := Try(call, false), Receives(call);
    SetSize(s.pc, t, x);
    SetCounts(s.pc, t, x, true);
    SetCounts(s.pc, t, x, false);
    LocksStay(s, r, t);
    hide OnList, WokenBy, Pending, LocksMatch;
    PendingStays(s.pc, t, x, s.core.waitingToReceive, r.core.waitingToReceive, true);
    PendingStays(s.pc, t, x, s.core.waitingToSend, r.core.waitingToSend, false);
    LeavesList(s.pc, t, x, if receiving then s.core.waitingToReceive else s.core.waitingToSend, receiving);
    OffThisList(s.pc, t, x, if receiving then s.core.waitingToSend else s.core.waitingToReceive, !receiving);
    assert Structure(r) by { hide ReceiversServed, SendersServed; }
    assert ReceiversServed(r);
    assert senders ==> SendersServed(r);
  }

  lemma IsrSendKeeps(s: State, senders: bool, overwrite: bool)
    requires Inv(s, senders) && Enabled(s, IsrSend(overwrite))
    ensures Inv(Apply(s, IsrSend(overwrite)), senders)
  {
    hide OnList, WokenBy, Wake, Pending, LocksMatch, ReceiversServed, SendersServed;
    if HasRoom(s.core, overwrite) {
      if s.core.txLock == UNLOCKED {
        IsrSendWakes(s, senders, overwrite);
      } else {
        IsrSendCounts(s, senders, overwrite);
      }
    }
  }

  lemma IsrSendWakes(s: State, senders: bool, overwrite: bool)
    requires Inv(s, senders) && Enabled(s, IsrSend(overwrite)) && HasRoom(s.core, overwrite)
             && s.core.txLock == UNLOCKED
    ensures Inv(Apply(s, IsrSend(overwrite)), senders)
  {
    hide OnList, WokenBy, Wake, Pending;
    NobodyMustWait(s);
    WakeOne(s, Posted(s.core, overwrite), true);
    WakingStep(s, SendFromISR(s.core, overwrite, |s.pc|), Min(1, |s.core.waitingToReceive|), true);
    var r := Apply(s, IsrSend(overwrite));
    assert Structure(r) by { hide ReceiversServed, SendersServed; }
    hide LocksMatch;
    assert ReceiversServed(r);
    assert senders ==> SendersServed(r);
  }

  lemma IsrSendCounts(s: State, senders: bool, overwrite: bool)
    requires Inv(s, senders) && Enabled(s, IsrSend(overwrite)) && HasRoom(s.core, overwrite)
             && s.core.txLock != UNLOCKED
    ensures Inv(Apply(s, IsrSend(overwrite)), senders)
  {
    hide OnList, WokenBy, Wake, Pending;
    NobodyWoken(s.pc);
    var r := Apply(s, IsrSend(overwrite));
    assert Structure(r) by { hide ReceiversServed, SendersServed; }
    assert ReceiversServed(r) && (senders ==> SendersServed(r)) by { hide OnList; }
    hide LocksMatch, ReceiversServed, SendersServed;
  }

  lemma IsrReceiveKeeps(s: State, senders: bool)
    requires Inv(s, senders)
    ensures Inv(Apply(s, IsrReceive), senders)
  {
    hide OnList, WokenBy, Wake, Pending;
    if s.core.rxLock == UNLOCKED { NobodyMustWait(s); }
    if s.core.messages > 0 {
      if s.core.rxLock == UNLOCKED {
        WakeOne(s, s.core.(messages := s.core.messages - 1), false);
        WakingStep(s, ReceiveFromISR(s.core, |s.pc|), Min(1, |s.core.waitingToSend|), false);
      } else {
        NobodyWoken(s.pc);
      }
    }
  }

  lemma BeginLeaveCreateKeep(s: State, senders: bool, e: Step)
    requires Inv(s, senders) && Enabled(s, e) && (e.Begin? || e.Leave? || e.CreateTask?)
    ensures Inv(Apply(s, e), senders)
  {
    hide OnList, WokenBy;
    if e.CreateTask? {
      CreateKeeps(s, senders, e.task);
    } else {
      Shift(s, e.task, Apply(s, e).pc[e.task]);
    }
  }

  lemma CreateKeeps(s: State, senders: bool, t: Task)
    requires Inv(s, senders) && Enabled(s, CreateTask(t))
    ensures Inv(Set(s, t, Outside), senders)
  {
    hide OnList, WokenBy;
    SetOffList(s.pc, t, Outside, s.core.waitingToReceive, true);
    SetOffList(s.pc, t, Outside, s.core.waitingToSend, false);
    SetSize(s.pc, t, Outside);
    SetCounts(s.pc, t, Outside, true);
    SetCounts(s.pc, t, Outside, false);
    NewIsNotWoken(s.pc, t);
  }

  lemma NewIsNotWoken(pc: map<Task, Pc>, t: Task)
    requires t !in pc
    ensures t !in WokenBy(pc, true) && t !in WokenBy(pc, false)
  {
  }

  /** A reset keeps the claim about receivers.  It wakes one sender although it may make
      room for more, so the claim about senders survives exactly when at most one waited or
      those woken are as many as there are places. */
  lemma ResetKeepsReceivers(s: State, senders: bool)
    requires Inv(s, senders) && Enabled(s, ResetQueue)
    ensures Inv(Apply(s, ResetQueue), false)
    ensures SendersServed(Apply(s, ResetQueue)) <==>
              |s.core.waitingToSend| <= 1 || s.core.length <= |WokenBy(s.pc, false)| + 1
  {
    var c := s.core.(messages := 0, txLock := UNLOCKED, rxLock := UNLOCKED);
    WakeOne(s, c, false);
    WakingStep(s, Reset(s.core), Min(1, |s.core.waitingToSend|), false);
    var s' := Apply(s, ResetQueue);
    assert s'.core.waitingToSend == s.core.waitingToSend[Min(1, |s.core.waitingToSend|)..];
    assert forall t :: t in s'.pc ==> !s'.pc[t].MustWait?;
    ListFits(s.pc, s.core.waitingToSend, false);
  }

  lemma StepKeepsInv(s: State, senders: bool, e: Step)
    requires Inv(s, senders) && Enabled(s, e) && (e == ResetQueue ==> !senders)
    ensures Inv(Apply(s, e), senders)
  {
    match e
    case Begin(_, _) => BeginLeaveCreateKeep(s, senders, e);
    case Attempt(t, overwrite, block) => AttemptKeeps(s, senders, t, overwrite, block);
    case LockQueue(t) => LockKeeps(s, senders, t);
    case Examine(t, expired) => ExamineKeeps(s, senders, t, expired);
    case Place(t, pos) => PlaceKeeps(s, senders, t, pos);
    case FinishTx(t) => FinishTxKeeps(s, senders, t);
    case FinishRx(t) => FinishRxKeeps(s, senders, t);
    case Leave(_) => BeginLeaveCreateKeep(s, senders, e);
    case TimeOut(t) => TimeOutKeeps(s, senders, t);
    case IsrSend(overwrite) => IsrSendKeeps(s, senders, overwrite);
    case IsrReceive => IsrReceiveKeeps(s, senders);
    case ResetQueue => ResetKeepsReceivers(s, senders);
    case CreateTask(_) => BeginLeaveCreateKeep(s, senders, e);
  }

  // ----- all runs

  ghost predicate Init(s: State) {
    && s.holder == Nobody && s.core.messages <= s.core.length
    && s.core.txLock == UNLOCKED && s.core.rxLock == UNLOCKED
    && s.core.waitingToReceive == [] && s.core.waitingToSend == []
    && |s.pc| <= INT8_MAX && (forall t :: t in s.pc ==> s.pc[t] == Outside)
  }

  ghost predicate Run(s: State, steps: seq<Step>, s': State)
    decreases |steps|
  {
    if steps == [] then s == s'
    else Enabled(s, steps[0]) && Run(Apply(s, steps[0]), steps[1..], s')
  }

  lemma {:induction false} RunKeepsInv(s: State, steps: seq<Step>, s': State, senders: bool)
    requires Inv(s, senders) && Run(s, steps, s') && (senders ==> ResetQueue !in steps)
    ensures Inv(s', senders)
    decreases |steps|
  {
    if steps != [] {
      StepKeepsInv(s, senders, steps[0]);
      assert forall e :: e in steps[1..] ==> e in steps;
      RunKeepsInv(Apply(s, steps[0]), steps[1..], s', senders);
    }
  }

  lemma InitInv(s: State)
    requires Init(s)
    ensures Inv(s, true)
  {
    assert WokenBy(s.pc, true) == {} && WokenBy(s.pc, false) == {};
  }

  lemma {:induction false} RunOneMore(s: State, steps: seq<Step>, q: State, e: Step)
    requires Run(s, steps, q) && Enabled(q, e)
    ensures Run(s, steps + [e], Apply(q, e))
    decreases |steps|
  {
    hide Enabled, Apply;
    if steps == [] {
      assert ([] + [e])[1..] == [];
    } else {
      assert (steps + [e])[1..] == steps[1..] + [e];
      RunOneMore(Apply(s, steps[0]), steps[1..], q, e);
    }
  }

  /** There is nothing to be had for a call. */
  predicate InVain(c: Core, call: Call) {
    if Receives(call) then c.messages == 0 else c.messages == c.length
  }

  /** A caller that finds nothing goes all the way to its wait, at whatever place its priority
      gives it on the list for its kind of call, and leaves the queue unlocked. */
  lemma CallerBlocks(s: State, before: seq<Step>, q: State, t: Task, call: Call, pos: nat)
    returns (steps: seq<Step>, r: State)
    requires Run(s, before, q) && q.holder == Nobody && t in q.pc && q.pc[t] == Outside && InVain(q.core, call)
    requires q.core.txLock == q.core.rxLock == UNLOCKED
    requires pos <= |if Receives(call) then q.core.waitingToReceive else q.core.waitingToSend|
    ensures Run(s, steps, r) && forall e :: e in steps ==> e in before || e != ResetQueue
    ensures r.core == if Receives(call) then q.core.(waitingToReceive := InsertAt(q.core.waitingToReceive, pos, t))
                      else q.core.(waitingToSend := InsertAt(q.core.waitingToSend, pos, t))
    ensures r.pc == q.pc[t := Waiting(call)] && r.holder == Nobody
  {
    hide Run, InsertAt, Apply, Enabled;
    var locked;
    steps, locked := CallerLocks(s, before, q, t, call);
    UnlocksWaiting(locked, t, call, pos);
    RunOneMore(s, steps, locked, Place(t, pos));
    steps := steps + [Place(t, pos)];
    var waiting := Apply(locked, Place(t, pos));
    RunOneMore(s, steps, waiting, FinishTx(t));
    steps := steps + [FinishTx(t)];
    var half := Apply(waiting, FinishTx(t));
    RunOneMore(s, steps, half, FinishRx(t));
    steps, r := steps + [FinishRx(t)], Apply(half, FinishRx(t));
  }

  /** From the check on, nothing else happening: the wait, and the two halves of the unlock. */
  lemma UnlocksWaiting(s: State, t: Task, call: Call, pos: nat)
    requires s.holder == Holding(t) && t in s.pc && s.pc[t] == MustWait(call)
    requires s.core.txLock == s.core.rxLock == LOCKED_UNMODIFIED
    requires pos <= |if Receives(call) then s.core.waitingToReceive else s.core.waitingToSend|
    ensures Enabled(s, Place(t, pos)) && Enabled(Apply(s, Place(t, pos)), FinishTx(t))
    ensures var half := Apply(Apply(s, Place(t, pos)), FinishTx(t));
            && Enabled(half, FinishRx(t))
            && var r, c := Apply(half, FinishRx(t)), s.core.(txLock := UNLOCKED, rxLock := UNLOCKED);
               && r.pc == s.pc[t := Waiting(call)] && r.holder == Nobody
               && r.core == if Receives(call) then c.(waitingToReceive := InsertAt(c.waitingToReceive, pos, t))
                            else c.(waitingToSend := InsertAt(c.waitingToSend, pos, t))
  {
    hide InsertAt;
    NobodyWoken(Apply(s, Place(t, pos)).pc);
  }

  /** Its way up to the check under the lock. */
  lemma CallerLocks(s: State, before: seq<Step>, q: State, t: Task, call: Call) returns (steps: seq<Step>, r: State)
    requires Run(s, before, q) && q.holder == Nobody && t in q.pc && q.pc[t] == Outside && InVain(q.core, call)
    requires q.core.txLock == q.core.rxLock == UNLOCKED
    ensures Run(s, steps, r) && forall e :: e in steps ==> e in before || e != ResetQueue
    ensures r == State(q.core.(txLock := LOCKED_UNMODIFIED, rxLock := LOCKED_UNMODIFIED),
                       q.pc[t := MustWait(call)], Holding(t), 0, 0)
  {
    hide Run;
    RunOneMore(s, before, q, Begin(t, call));
    var a := Apply(q, Begin(t, call));
    RunOneMore(s, before + [Begin(t, call)], a, Attempt(t, false, true));
    var b := Apply(a, Attempt(t, false, true));
    steps := before + [Begin(t, call)] + [Attempt(t, false, true)];
    RunOneMore(s, steps, b, LockQueue(t));
    var c := Apply(b, LockQueue(t));
    RunOneMore(s, steps + [LockQueue(t)], c, Examine(t, false));
    steps, r := steps + [LockQueue(t)] + [Examine(t, false)], Apply(c, Examine(t, false));
  }

  /** An interrupt fills a queue of length two, and two senders block on it; a reset then
      empties it and wakes only one of them. */
  lemma ResetCanStrandASender() returns (init: State, steps: seq<Step>, s: State)
    ensures Init(init) && Run(init, steps, s) && ResetQueue !in steps
    ensures Inv(s, true) && Enabled(s, ResetQueue) && !SendersServed(Apply(s, ResetQueue))
  {
    hide Run, Init, Structure, ReceiversServed, SendersServed, Apply;
    init, steps, s := TwoSendersWait();
    InitInv(init);
    RunKeepsInv(init, steps, s, true);
    ResetKeepsReceivers(s, true);
  }

  lemma TwoSendersWait() returns (init: State, steps: seq<Step>, s: State)
    ensures Init(init) && Run(init, steps, s) && ResetQueue !in steps
    ensures s.holder == Nobody && s.core.length == 2 && |s.core.waitingToSend| == 2 && |WokenBy(s.pc, false)| == 0
  {
    hide Run, Enabled, Apply;
    init := TwoTasks();
    var full := FilledByInterrupt(init);
    var first;
    steps, first := CallerBlocks(init, [IsrSend(false), IsrSend(false)], full, 0, Sending, 0);
    steps, s := CallerBlocks(init, steps, first, 1, Sending, 0);
    assert WokenBy(s.pc, false) == {};
  }

  lemma TwoTasks() returns (init: State)
    ensures Init(init) && init.core == Core(2, 0, UNLOCKED, UNLOCKED, [], [])
    ensures init.pc == map[0 := Outside, 1 := Outside] && init.holder == Nobody
  {
    init := State(Core(2, 0, UNLOCKED, UNLOCKED, [], []), map[0 := Outside, 1 := Outside], Nobody, 0, 0);
    assert |init.pc| == 2;
  }

  lemma FilledByInterrupt(init: State) returns (full: State)
    requires init.core == Core(2, 0, UNLOCKED, UNLOCKED, [], [])
    ensures Run(init, [IsrSend(false), IsrSend(false)], full)
    ensures full.core == init.core.(messages := 2) && full.pc == init.pc && full.holder == init.holder
  {
    NobodyWoken(init.pc);
    var half := Apply(init, IsrSend(false));
    full := Apply(half, IsrSend(false));
    assert Run(init, [], init);
    RunOneMore(init, [], init, IsrSend(false));
    RunOneMore(init, [] + [IsrSend(false)], half, IsrSend(false));
    assert [] + [IsrSend(false)] + [IsrSend(false)] == [IsrSend(false), IsrSend(false)];
  }

  /** No lost wake-up: in every reachable state in which the queue is unlocked and a
      receiver is blocked on it, the items present do not outnumber the receivers that have
      been woken and have not retried yet.  So if there is an item at all, such a receiver
      exists, and its next attempt succeeds. */
  lemma NoReceiverSleepsThrough(s: State, steps: seq<Step>, s': State)
    requires Init(s) && Run(s, steps, s')
    requires s'.core.txLock == UNLOCKED && s'.core.waitingToReceive != []
    ensures s'.core.messages <= |WokenBy(s'.pc, true)|
    ensures s'.core.messages > 0 ==> exists t :: t in WokenBy(s'.pc, true)
    ensures s'.holder == Nobody && s'.core.messages > 0 ==>
              forall t :: t in WokenBy(s'.pc, true) ==>
                Enabled(s', Attempt(t, false, true)) && Apply(s', Attempt(t, false, true)).pc[t] == Outside
  {
    hide SendersServed;
    InitInv(s);
    RunKeepsInv(s, steps, s', false);
    hide Run, Init;
    if s'.core.messages > 0 {
      assert WokenBy(s'.pc, true) != {};
      if s'.holder == Nobody {
        hide Inv;
        forall t | t in WokenBy(s'.pc, true)
          ensures Enabled(s', Attempt(t, false, true)) && Apply(s', Attempt(t, false, true)).pc[t] == Outside
        {
          RetrySucceeds(s', t);
        }
      }
    }
  }

  lemma RetrySucceeds(s: State, t: Task)
    requires s.holder == Nobody && s.core.messages > 0 && t in WokenBy(s.pc, true)
    ensures Enabled(s, Attempt(t, false, true)) && Apply(s, Attempt(t, false, true)).pc[t] == Outside
  {
  }

  /** The same for senders, over runs without a reset. */
  lemma NoSenderSleepsThrough(s: State, steps: seq<Step>, s': State)
    requires Init(s) && Run(s, steps, s') && ResetQueue !in steps
    requires s'.core.rxLock == UNLOCKED && s'.core.waitingToSend != []
    ensures s'.core.length - s'.core.messages <= |WokenBy(s'.pc, false)|
    ensures s'.core.messages < s'.core.length ==> exists t :: t in WokenBy(s'.pc, false)
  {
    InitInv(s);
    RunKeepsInv(s, steps, s', true);
    if s'.core.messages < s'.core.length {
      assert WokenBy(s'.pc, false) != {};
    }
  }

  /** The lock counts stop at the number of tasks, and stay inside an int8_t; the unlock
      nevertheless wakes whom a count of every post and every removal would have woken. */
  lemma CappedLockCountsLoseNothing(s: State, steps: seq<Step>, s': State)
    requires Init(s) && Run(s, steps, s')
    ensures s'.core.txLock <= INT8_MAX && s'.core.rxLock <= INT8_MAX
    ensures s'.holder.Holding? ==>
              UnlockTx(s'.core) == UnlockTx(s'.core.(txLock := s'.posts))
    ensures s'.holder != Nobody ==>
              UnlockRx(s'.core) == UnlockRx(s'.core.(rxLock := s'.takes))
  {
    InitInv(s);
    RunKeepsInv(s, steps, s', false);
    ListFits(s'.pc, s'.core.waitingToReceive, true);
    ListFits(s'.pc, s'.core.waitingToSend, false);
  }

  // ----- whom a step wakes

  /** Exactly the first n tasks have left a list; they are at the top of their loop again,
      and of the other tasks only those in `moved` have gone anywhere. */
  ghost predicate WokeFirst(pc: map<Task, Pc>, pc': map<Task, Pc>, l: seq<Task>, l': seq<Task>, n: nat,
                            moved: set<Task>) {
    && n <= |l| && l' == l[n..] && pc'.Keys == pc.Keys
    && (forall u :: u in l[..n] ==> u in pc && pc[u].Waiting? && pc'[u] == Try(pc[u].call, true))
    && (forall u :: u in pc && u !in l[..n] && u !in moved ==> pc'[u] == pc[u])
  }

  lemma WakeIsExact(pc: map<Task, Pc>, l: seq<Task>, n: nat, receivers: bool)
    requires OnList(pc, l, receivers) && n <= |l|
    ensures WokeFirst(pc, Wake(pc, l[..n]), l, l[n..], n, {})
  {
    assert forall u :: u in l[..n] ==> u in l;
  }

  lemma MovedToo(pc: map<Task, Pc>, t: Task, x: Pc, pc': map<Task, Pc>, l: seq<Task>, l': seq<Task>, n: nat)
    requires t in pc && !pc[t].Waiting? && !x.Waiting? && WokeFirst(pc[t := x], pc', l, l', n, {})
    ensures WokeFirst(pc, pc', l, l', n, {t}) && pc'[t] == x
  {
  }

  /** prvUnlockQueue wakes one receiver for each post that interrupts have made since the
      lock, those at the front of the list, as long as there are any; nobody else moves. */
  lemma UnlockWakesOnePerPost(init: State, steps: seq<Step>, s: State, t: Task)
    requires Init(init) && Run(init, steps, s) && Enabled(s, FinishTx(t))
    ensures var r, l := Apply(s, FinishTx(t)), s.core.waitingToReceive;
            && WokeFirst(s.pc, r.pc, l, r.core.waitingToReceive, Min(s.posts, |l|), {})
            && r.core.waitingToSend == s.core.waitingToSend && r.core.messages == s.core.messages
  {
    InitInv(init);
    RunKeepsInv(init, steps, s, false);
    ListFits(s.pc, s.core.waitingToReceive, true);
    WakeIsExact(s.pc, s.core.waitingToReceive, Min(s.posts, |s.core.waitingToReceive|), true);
  }

  /** And one sender for each item that interrupts have taken. */
  lemma UnlockWakesOnePerRemoval(init: State, steps: seq<Step>, s: State, t: Task)
    requires Init(init) && Run(init, steps, s) && Enabled(s, FinishRx(t))
    ensures var r, l := Apply(s, FinishRx(t)), s.core.waitingToSend;
            && WokeFirst(s.pc, r.pc, l, r.core.waitingToSend, Min(s.takes, |l|), {})
            && r.core.waitingToReceive == s.core.waitingToReceive && r.core.messages == s.core.messages
            && r.holder == Nobody
  {
    InitInv(init);
    RunKeepsInv(init, steps, s, false);
    ListFits(s.pc, s.core.waitingToSend, false);
    WakeIsExact(s.pc, s.core.waitingToSend, Min(s.takes, |s.core.waitingToSend|), false);
  }

  /** A successful send, receive or peek leaves its caller done, moves one item or none, and
      wakes the first task that waits for what it left. */
  lemma AttemptWakesOne(s: State, senders: bool, t: Task, overwrite: bool, block: bool)
    requires Inv(s, senders) && Enabled(s, Attempt(t, overwrite, block))
    ensures var r, call, full := Apply(s, Attempt(t, overwrite, block)), s.pc[t].call, s.core.messages == s.core.length;
            var receivers, sending := s.core.waitingToReceive, s.core.waitingToSend;
            && (call == Sending && (!full || overwrite) ==>
                && WokeFirst(s.pc, r.pc, receivers, r.core.waitingToReceive, Min(1, |receivers|), {t})
                && r.pc[t] == Outside && r.core.waitingToSend == sending
                && r.core.messages == (if full then s.core.messages else s.core.messages + 1))
            && (call == Receiving && s.core.messages > 0 ==>
                && WokeFirst(s.pc, r.pc, sending, r.core.waitingToSend, Min(1, |sending|), {t})
                && r.pc[t] == Outside && r.core.waitingToReceive == receivers
                && r.core.messages == s.core.messages - 1)
            && (call == Peeking && s.core.messages > 0 ==>
                && WokeFirst(s.pc, r.pc, receivers, r.core.waitingToReceive, Min(1, |receivers|), {t})
                && r.pc[t] == Outside && r.core.waitingToSend == sending && r.core.messages == s.core.messages)
            && ((if call == Sending then full && !overwrite else s.core.messages == 0) ==>
                r == s.(pc := s.pc[t := if block then Failed(call) else Outside]))
  {
    var call := s.pc[t].call;
    if call == Sending && HasRoom(s.core, overwrite) {
      WokenAfter(s, t, Posted(s.core, overwrite), true);
    } else if call == Receiving && s.core.messages > 0 {
      WokenAfter(s, t, s.core.(messages := s.core.messages - 1), false);
    } else if call == Peeking && s.core.messages > 0 {
      WokenAfter(s, t, s.core, true);
    }
  }

  lemma WokenAfter(s: State, t: Task, c: Core, receivers: bool)
    requires Structure(s) && t in s.pc && s.pc[t].Try?
    requires c.waitingToReceive == s.core.waitingToReceive && c.waitingToSend == s.core.waitingToSend
    ensures var l := if receivers then c.waitingToReceive else c.waitingToSend;
            var o := if receivers then WakeReceiver(c) else WakeSender(c);
            var n := Min(1, |l|);
            && WokeFirst(s.pc, After(Set(s, t, Outside), o).pc, l, l[n..], n, {t})
            && After(Set(s, t, Outside), o).pc[t] == Outside
            && o.core == (if receivers then c.(waitingToReceive := l[n..]) else c.(waitingToSend := l[n..]))
  {
    MoveOn(s, t, Outside);
    var done := Set(s, t, Outside);
    WakeOne(done, c, receivers);
    var l := if receivers then c.waitingToReceive else c.waitingToSend;
    var n := Min(1, |l|);
    WakeIsExact(done.pc, l, n, receivers);
    MovedToo(s.pc, t, Outside, Wake(done.pc, l[..n]), l, l[n..], n);
  }

  lemma WokenAtOnce(s: State, c: Core, receivers: bool)
    requires Structure(s)
    requires c.waitingToReceive == s.core.waitingToReceive && c.waitingToSend == s.core.waitingToSend
    ensures var l := if receivers then c.waitingToReceive else c.waitingToSend;
            var o := if receivers then WakeReceiver(c) else WakeSender(c);
            var n := Min(1, |l|);
            && WokeFirst(s.pc, After(s, o).pc, l, l[n..], n, {})
            && o.core == (if receivers then c.(waitingToReceive := l[n..]) else c.(waitingToSend := l[n..]))
  {
    WakeOne(s, c, receivers);
    var l := if receivers then c.waitingToReceive else c.waitingToSend;
    WakeIsExact(s.pc, l, Min(1, |l|), receivers);
  }

  lemma NobodyWoke(s: State, o: Outcome, l: seq<Task>)
    requires o.woken == []
    ensures WokeFirst(s.pc, s.pc, l, l, 0, {}) && After(s, o).pc == s.pc
  {
    NobodyWoken(s.pc);
  }

  /** A post by an interrupt wakes the first waiting receiver at once if the queue is
      unlocked, and nobody if it is locked: then it is only counted. */
  lemma InterruptPostWakesOne(s: State, senders: bool, overwrite: bool)
    requires Inv(s, senders) && Enabled(s, IsrSend(overwrite))
    ensures var r, full, l := Apply(s, IsrSend(overwrite)), s.core.messages == s.core.length, s.core.waitingToReceive;
            var unheard := (full && !overwrite) || s.holder.Holding?;
            && WokeFirst(s.pc, r.pc, l, r.core.waitingToReceive, if unheard then 0 else Min(1, |l|), {})
            && r.core.waitingToSend == s.core.waitingToSend && r.holder == s.holder
            && r.core.messages == (if full then s.core.messages else s.core.messages + 1)
            && r.posts == (if full && !overwrite then s.posts else s.posts + 1) && r.takes == s.takes
  {
    var posted := Posted(s.core, overwrite);
    WokenAtOnce(s, posted, true);
    NobodyWoke(s, Outcome(posted, []), s.core.waitingToReceive);
    hide WokeFirst, OnList, WokenBy, Wake, Pending, ReceiversServed, SendersServed, WakeReceiver;
  }

  lemma InterruptRemovalWakesOne(s: State, senders: bool)
    requires Inv(s, senders)
    ensures var r, empty, l := Apply(s, IsrReceive), s.core.messages == 0, s.core.waitingToSend;
            var unheard := empty || s.holder != Nobody;
            && WokeFirst(s.pc, r.pc, l, r.core.waitingToSend, if unheard then 0 else Min(1, |l|), {})
            && r.core.waitingToReceive == s.core.waitingToReceive && r.holder == s.holder
            && r.core.messages == (if empty then 0 else s.core.messages - 1)
            && r.takes == (if empty then s.takes else s.takes + 1) && r.posts == s.posts
  {
    NobodyWoke(s, Outcome(s.core, []), s.core.waitingToSend);
    if s.core.messages > 0 {
      var c := s.core.(messages := s.core.messages - 1);
      WokenAtOnce(s, c, false);
    }
    hide WokeFirst, OnList, WokenBy, Wake, Pending, ReceiversServed, SendersServed, WakeSender;
  }

  /** A reset empties and unlocks the queue and wakes the first waiting sender alone. */
  lemma ResetWakesOneSender(s: State, senders: bool)
    requires Inv(s, senders) && Enabled(s, ResetQueue)
    ensures var r, l := Apply(s, ResetQueue), s.core.waitingToSend;
            && WokeFirst(s.pc, r.pc, l, r.core.waitingToSend, Min(1, |l|), {})
            && r.core.waitingToReceive == s.core.waitingToReceive && r.core.messages == 0
            && r.core.txLock == r.core.rxLock == UNLOCKED
  {
    hide OnList, WokeFirst, WokenBy, Wake, Pending, ReceiversServed, SendersServed;
    WokenAtOnce(s, s.core.(messages := 0, txLock := UNLOCKED, rxLock := UNLOCKED), false);
  }

  /** A time-out takes its task off the list, wherever it stood, and moves nobody else; the
      task tries again. */
  lemma TimeOutMovesOne(s: State, senders: bool, t: Task)
    requires Inv(s, senders) && Enabled(s, TimeOut(t))
    ensures var r, call := Apply(s, TimeOut(t)), s.pc[t].call;
            var l, l' := if Receives(call) then s.core.waitingToReceive else s.core.waitingToSend,
                         if Receives(call) then r.core.waitingToReceive else r.core.waitingToSend;
            && r.pc == s.pc[t := Try(call, false)] && r.holder == s.holder
            && r.core == (if Receives(call) then s.core.(waitingToReceive := l') else s.core.(waitingToSend := l'))
            && exists i :: 0 <= i < |l| && l[i] == t && l' == l[..i] + l[i + 1..]
  {
    hide WokenBy, Wake, Pending, ReceiversServed, SendersServed, LocksMatch;
    var l := if Receives(s.pc[t].call) then s.core.waitingToReceive else s.core.waitingToSend;
    assert t in l;
  }

  /** A receiver whose time-out has expired still takes an item that has arrived meanwhile. */
  lemma LateItemIsTaken(s: State, t: Task, block: bool)
    requires s.holder == Nobody && Enabled(s, Leave(t)) && s.pc[t].call == Receiving && s.core.messages > 0
    ensures var q := Apply(s, Leave(t));
            && Enabled(q, Attempt(t, false, block))
            && var r := Apply(q, Attempt(t, false, block));
               r.pc[t] == Outside && r.core.messages == s.core.messages - 1
  {
  }
}
