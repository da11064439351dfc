/** xEventGroupSync as a barrier: n tasks that own disjoint bits and all wait for the union
    of them, each entering and leaving at its own pace, round after round. */
module Barrier {
  import opened EventSpec

  /** The mask of each task, the rounds each has entered and returned from, and the value a
      task that was last to arrive is about to return.  `round` is history: the number of
      times the barrier has opened. */
  datatype State = State(
    g: Group, masks: seq<Bits>, entered: seq<nat>, returned: seq<nat>, leaving: map<Task, Bits>, round: nat)

  // ----- unions of masks

  /** The union of the masks of those among the first n tasks that have entered a round
      after round k. */
  function Present(masks: seq<Bits>, entered: seq<nat>, k: nat, n: nat): Bits
    requires n <= |masks| == |entered|
  {
    if n == 0 then 0
    else Union(Present(masks, entered, k, n - 1), if entered[n - 1] > k then masks[n - 1] else 0)
  }

  function All(masks: seq<Bits>, n: nat): Bits
    requires n <= |masks|
  {
    if n == 0 then 0 else Union(All(masks, n - 1), masks[n - 1])
  }

  /** What every task waits for. */
  function Rendezvous(masks: seq<Bits>): Bits {
    All(masks, |masks|)
  }

  /** Each task owns some of the user's bits, and none of another's. */
  ghost predicate Masks(masks: seq<Bits>) {
    && masks != []
    && (forall i :: 0 <= i < |masks| ==> UserBits(masks[i]) && masks[i] != 0)
    && (forall i, j :: 0 <= i < j < |masks| ==> !Meets(masks[i], masks[j]))
  }

  lemma MeetsBothWays(a: Bits, b: Bits)
    ensures Meets(a, b) <==> Meets(b, a)
    ensures Meets(a, a) <==> a != 0
  {
  }

  lemma {:induction false} AllIsPresent(masks: seq<Bits>, entered: seq<nat>, k: nat, n: nat)
    requires n <= |masks| == |entered| && forall i :: 0 <= i < n ==> entered[i] > k
    ensures Present(masks, entered, k, n) == All(masks, n)
  {
    hide Union;
    if n > 0 { AllIsPresent(masks, entered, k, n - 1); }
  }

  lemma {:induction false} NoneIsPresent(masks: seq<Bits>, entered: seq<nat>, k: nat, n: nat)
    requires n <= |masks| == |entered| && forall i :: 0 <= i < n ==> entered[i] <= k
    ensures Present(masks, entered, k, n) == 0
  {
    if n > 0 {
      NoneIsPresent(masks, entered, k, n - 1);
      ClearNothing(0);
      hide Union;
    }
  }

  lemma {:induction false} AllMeets(masks: seq<Bits>, n: nat, j: nat)
    requires j < n <= |masks| && masks[j] != 0
    ensures Meets(All(masks, n), masks[j])
  {
    UnionMeets(All(masks, n - 1), masks[n - 1], masks[j]);
    MeetsBothWays(masks[j], masks[j]);
    hide Union, Meets;
    if j < n - 1 { AllMeets(masks, n - 1, j); }
  }

  lemma {:induction false} AbsentMissing(masks: seq<Bits>, entered: seq<nat>, k: nat, n: nat, j: nat)
    requires Masks(masks) && n <= |masks| == |entered| && j < |masks| && entered[j] <= k
    ensures !Meets(Present(masks, entered, k, n), masks[j])
  {
    hide Union, Meets;
    NothingMeets(masks[j]);
    if n > 0 {
      AbsentMissing(masks, entered, k, n - 1, j);
      if entered[n - 1] > k {
        MeetsBothWays(masks[n - 1], masks[j]);
        UnionMeets(Present(masks, entered, k, n - 1), masks[n - 1], masks[j]);
      } else {
        UnionMeets(Present(masks, entered, k, n - 1), 0, masks[j]);
      }
    }
  }

  lemma Lacks(have: Bits, all: Bits, some: Bits)
    requires Meets(all, some) && !Meets(have, some)
    ensures !Met(have, all, true)
  {
    assert have & all == all ==> all & some == (have & some) & all;
  }

  /** The union contains everything exactly when nobody is missing. */
  lemma MetWhenAllPresent(masks: seq<Bits>, entered: seq<nat>, k: nat)
    requires Masks(masks) && |entered| == |masks|
    ensures Met(Present(masks, entered, k, |masks|), Rendezvous(masks), true) <==>
            forall i :: 0 <= i < |entered| ==> entered[i] > k
  {
    hide Met, Present, All;
    if j :| 0 <= j < |entered| && entered[j] <= k {
      AbsentMissing(masks, entered, k, |masks|, j);
      AllMeets(masks, |masks|, j);
      Lacks(Present(masks, entered, k, |masks|), Rendezvous(masks), masks[j]);
    } else {
      AllIsPresent(masks, entered, k, |masks|);
      MetByItself(Rendezvous(masks));
    }
  }

  lemma MetByItself(x: Bits)
    ensures Met(x, x, true)
  {
  }

  lemma {:induction false} OneArrives(masks: seq<Bits>, entered: seq<nat>, k: nat, n: nat, i: nat)
    requires n <= |masks| == |entered| && i < |masks| && entered[i] == k
    ensures Present(masks, entered[i := k + 1], k, n) ==
            if i < n then Union(Present(masks, entered, k, n), masks[i]) else Present(masks, entered, k, n)
  {
    hide Union;
    if n > 0 {
      OneArrives(masks, entered, k, n - 1, i);
      var p := Present(masks, entered, k, n - 1);
      if i < n - 1 {
        Swap(p, masks[i], if entered[n - 1] > k then masks[n - 1] else 0);
      } else if i == n - 1 {
        ClearNothing(p);
      }
    }
  }

  lemma Swap(x: Bits, y: Bits, z: Bits)
    ensures Union(Union(x, y), z) == Union(Union(x, z), y)
  {
    Associate(x, y, z);
    Associate(x, z, y);
    Commute(y, z);
    hide Union;
  }

  lemma Commute(x: Bits, y: Bits)
    ensures Union(x, y) == Union(y, x)
  {
  }

  // ----- setting bits among waiters that all wait for the same

  /** Every waiter is one of the tasks, waiting for the rendezvous. */
  ghost predicate AllWaitFor(ws: seq<Waiter>, wanted: Bits) {
    forall i :: 0 <= i < |ws| ==> ws[i].value == Encode(wanted, true, true)
  }

  lemma SameWait(w: Waiter, wanted: Bits, bits: Bits)
    requires w.value == Encode(wanted, true, true) && UserBits(wanted)
    ensures Satisfied(w, bits) <==> Met(bits, wanted, true)
  {
    EncodeDecode(wanted, true, true);
  }

  lemma {:induction false} NobodyIsUnblocked(ws: seq<Waiter>, wanted: Bits, bits: Bits, item: map<Task, Bits>)
    requires AllWaitFor(ws, wanted) && UserBits(wanted) && !Met(bits, wanted, true)
    ensures Kept(ws, bits) == ws && ClearMask(ws, bits) == 0 && Delivered(ws, bits, item) == item
  {
    ClearNothing(0);
    hide Encode, Satisfied, Met, Union, UserBits;
    if ws != [] {
      SameWait(ws[0], wanted, bits);
      NobodyIsUnblocked(ws[1..], wanted, bits, item);
    }
  }

  lemma {:induction false} EverybodyIsUnblocked(ws: seq<Waiter>, wanted: Bits, bits: Bits)
    requires AllWaitFor(ws, wanted) && UserBits(wanted) && Met(bits, wanted, true)
    ensures Kept(ws, bits) == []
  {
    hide Encode, Satisfied, Met, UserBits;
    if ws != [] {
      SameWait(ws[0], wanted, bits);
      EverybodyIsUnblocked(ws[1..], wanted, bits);
    }
  }

  // ----- the machine

  datatype Step = Enter(i: Task) | Return(i: Task)

  /** A task enters when it is not inside a call, and returns once it has been unblocked. */
  ghost predicate Enabled(s: State, a: Step) {
    && a.i < |s.masks| == |s.entered| == |s.returned|
    && match a
       case Enter(i) => s.entered[i] == s.returned[i]
       case Return(i) => s.entered[i] > s.returned[i] && (i in s.leaving || i in s.g.item)
  }

  function EnterBy(s: State, i: Task): State
    requires i < |s.masks| == |s.entered|
  {
    var (g, o) := Sync(s.g, i, s.masks[i], Rendezvous(s.masks), true);
    var s := s.(g := g, entered := s.entered[i := s.entered[i] + 1]);
    if o.Returns? then s.(leaving := s.leaving[i := o.bits], round := s.round + 1) else s
  }

  /** The value that the call returns. */
  function Answer(s: State, i: Task): Outcome
    requires i in s.leaving || i in s.g.item
  {
    if i in s.leaving then Returns(s.leaving[i]) else Finish(s.g, i, Rendezvous(s.masks), true, true).1
  }

  function ReturnBy(s: State, i: Task): State
    requires i < |s.returned| && (i in s.leaving || i in s.g.item)
  {
    var s' := s.(returned := s.returned[i := s.returned[i] + 1]);
    if i in s.leaving then s'.(leaving := s.leaving - {i})
    else s'.(g := Finish(s.g, i, Rendezvous(s.masks), true, true).0)
  }

  function Apply(s: State, a: Step): State
    requires Enabled(s, a)
  {
    match a
    case Enter(i) => EnterBy(s, i)
    case Return(i) => ReturnBy(s, i)
  }

  /** The task is on the list of waiting tasks. */
  ghost predicate Waits(ws: seq<Waiter>, t: Task) {
    exists w :: w in ws && w.t == t
  }

  lemma OneMoreWaits(ws: seq<Waiter>, w: Waiter, t: Task)
    ensures Waits(ws + [w], t) <==> Waits(ws, t) || w.t == t
  {
    assert w in ws + [w];
    assert forall v :: v in ws ==> v in ws + [w];
  }

  /** Where task i is, in the time between two openings of the barrier. */
  ghost predicate TaskOk(s: State, i: Task)
    requires i < |s.masks| == |s.entered| == |s.returned|
  {
    var waits, done := Waits(s.g.waiters, i), i in s.leaving || i in s.g.item;
    || (s.entered[i] == s.round + 1 && s.returned[i] == s.round && waits && !done)
    || (s.entered[i] == s.round && s.returned[i] == s.round && !waits && !done)
    || (s.entered[i] == s.round && s.returned[i] + 1 == s.round && !waits && done)
  }

  /** Whoever is about to return has been given the whole union. */
  ghost predicate AnswersOk(s: State) {
    && (forall i :: i in s.leaving ==> Met(s.leaving[i], Rendezvous(s.masks), true) && i !in s.g.item)
    && (forall i :: i in s.g.item ==> s.g.item[i] == UnblockedValue(Rendezvous(s.masks)))
  }

  ghost predicate Inv(s: State) {
    && Masks(s.masks) && |s.masks| == |s.entered| == |s.returned|
    && UserBits(Rendezvous(s.masks))
    && AllWaitFor(s.g.waiters, Rendezvous(s.masks))
    && s.g.bits == Present(s.masks, s.entered, s.round, |s.masks|)
    && (exists i :: 0 <= i < |s.entered| && s.entered[i] <= s.round)
    && (forall i :: 0 <= i < |s.masks| ==> TaskOk(s, i))
    && (forall w :: w in s.g.waiters ==> w.t < |s.masks|)
    && AnswersOk(s)
  }

  // ----- steps

  lemma ClearNone(b: Bits)
    ensures Minus(b, 0) == b
  {
  }

  lemma ClearAll(b: Bits, mask: Bits)
    ensures Minus(Minus(b, mask), b) == 0
  {
  }

  /** The bits with which a task's arrival leaves the group, before anything is cleared. */
  lemma Arrival(s: State, i: Task)
    requires Inv(s) && i < |s.masks| && s.entered[i] == s.returned[i]
    ensures s.entered[i] == s.round && i !in s.leaving && i !in s.g.item && UserBits(s.masks[i])
    ensures !Waits(s.g.waiters, i)
    ensures Union(s.g.bits, s.masks[i]) == Present(s.masks, s.entered[i := s.round + 1], s.round, |s.masks|)
  {
    assert TaskOk(s, i);
    hide TaskOk, Union, UserBits, AllWaitFor, AnswersOk;
    OneArrives(s.masks, s.entered, s.round, |s.masks|, i);
  }

  /** A task that is not the last to arrive blocks, and disturbs nobody. */
  lemma ArrivalBlocks(s: State, i: Task)
    requires Inv(s) && i < |s.masks| && s.entered[i] == s.returned[i]
    requires exists j :: 0 <= j < |s.masks| && j != i && s.entered[j] <= s.round
    ensures EnterBy(s, i) ==
            s.(g := Block(s.g.(bits := Union(s.g.bits, s.masks[i])), i, Rendezvous(s.masks), true, true),
                                entered := s.entered[i := s.round + 1])
  {
    Arrival(s, i);
    var b, e := Union(s.g.bits, s.masks[i]), s.entered[i := s.round + 1];
    var j :| 0 <= j < |s.masks| && j != i && s.entered[j] <= s.round;
    assert e[j] <= s.round;
    hide Union, Encode, Met, Present, UserBits, Masks, TaskOk;
    MetWhenAllPresent(s.masks, e, s.round);
    NobodyIsUnblocked(s.g.waiters, Rendezvous(s.masks), b, s.g.item);
    ClearNone(b);
    hide AllWaitFor, AnswersOk, Kept, ClearMask, Delivered;
    assert SetBits(s.g, s.masks[i]) == s.g.(bits := b);
  }

  lemma BlockedArrivalKeepsInv(s: State, i: Task)
    requires Inv(s) && i < |s.masks| && s.entered[i] == s.returned[i]
    requires exists j :: 0 <= j < |s.masks| && j != i && s.entered[j] <= s.round
    ensures Inv(EnterBy(s, i))
  {
    Arrival(s, i);
    ArrivalBlocks(s, i);
    var r := EnterBy(s, i);
    hide EnterBy, Union, Encode, Met, Present, UserBits, Masks, All, UnblockedValue;
    var w := Waiter(i, Encode(Rendezvous(s.masks), true, true));
    assert r.g.waiters == s.g.waiters + [w] && w in r.g.waiters;
    var k :| 0 <= k < |s.masks| && k != i && s.entered[k] <= s.round;
    assert r.entered[k] <= r.round && AnswersOk(r);
    hide AnswersOk, Rendezvous;
    forall v | v in r.g.waiters ensures v.t < |s.masks| { assert v in s.g.waiters || v == w; }
    hide Waits, AllWaitFor, TaskOk;
    forall j | 0 <= j < |s.masks| ensures TaskOk(r, j) {
      assert TaskOk(s, j);
      NowWaits(s, r, i, w, j);
    }
    assert AllWaitFor(r.g.waiters, Rendezvous(s.masks)) by { EverybodyWaits(s.g.waiters, w, Rendezvous(s.masks)); }
  }

  lemma NowWaits(s: State, r: State, i: Task, w: Waiter, j: Task)
    requires j < |s.masks| == |s.entered| == |s.returned| && TaskOk(s, j) && i < |s.masks| && w.t == i
    requires s.entered[i] == s.returned[i] == s.round && i !in s.leaving && i !in s.g.item
    requires r == s.(g := r.g, entered := s.entered[i := s.round + 1])
    requires r.g.waiters == s.g.waiters + [w] && r.g.item == s.g.item
    ensures TaskOk(r, j)
  {
    OneMoreWaits(s.g.waiters, w, j);
    hide Waits;
  }

  lemma EverybodyWaits(ws: seq<Waiter>, w: Waiter, wanted: Bits)
    requires AllWaitFor(ws, wanted) && w.value == Encode(wanted, true, true)
    ensures AllWaitFor(ws + [w], wanted)
  {
    hide Encode;
  }

  /** The last task to arrive opens the barrier: the whole union is there, everybody gets it,
      and nothing of it stays set. */
  lemma LastArrivalOpens(s: State, i: Task)
    requires Inv(s) && i < |s.masks| && s.entered[i] == s.returned[i]
    requires forall j :: 0 <= j < |s.masks| && j != i ==> s.entered[j] > s.round
    ensures var r, all := EnterBy(s, i), Rendezvous(s.masks);
            && r.g.waiters == [] && r.g.bits == 0 && Met(all, all, true)
            && r == s.(g := r.g, entered := s.entered[i := s.round + 1], leaving := s.leaving[i := all],
                       round := s.round + 1)
            && (forall t :: if Waits(s.g.waiters, t) then t in r.g.item && r.g.item[t] == UnblockedValue(all)
                            else (t in r.g.item <==> t in s.g.item) && (t in s.g.item ==> r.g.item[t] == s.g.item[t]))
  {
    Arrival(s, i);
    var all, e := Rendezvous(s.masks), s.entered[i := s.round + 1];
    hide Union, Encode, Present, UserBits, Masks, TaskOk, UnblockedValue, All, Met;
    AllIsPresent(s.masks, e, s.round, |s.masks|);
    assert Union(s.g.bits, s.masks[i]) == all;
    MetByItself(all);
    EverybodyIsUnblocked(s.g.waiters, all, all);
    ClearAll(all, ClearMask(s.g.waiters, all));
    hide AnswersOk, Kept, ClearMask, Delivered;
    assert SetBits(s.g, s.masks[i]).waiters == [];
    hide AllWaitFor, Waits;
    var r := EnterBy(s, i);
    forall t ensures if Waits(s.g.waiters, t) then t in r.g.item && r.g.item[t] == UnblockedValue(all)
                     else (t in r.g.item <==> t in s.g.item) && (t in s.g.item ==> r.g.item[t] == s.g.item[t])
    {
      SetBitsDelivers(s.g, s.masks[i], t);
      AllSatisfied(s.g.waiters, all, t);
    }
  }

  lemma AllSatisfied(ws: seq<Waiter>, all: Bits, t: Task)
    requires AllWaitFor(ws, all) && UserBits(all) && Met(all, all, true)
    ensures Unblocks(ws, all, t) <==> Waits(ws, t)
  {
    hide Encode, Satisfied, Met, UserBits;
    forall w | w in ws ensures Satisfied(w, all) {
      SameWait(w, all, all);
    }
  }

  lemma LastArrivalKeepsInv(s: State, i: Task)
    requires Inv(s) && i < |s.masks| && s.entered[i] == s.returned[i]
    requires forall j :: 0 <= j < |s.masks| && j != i ==> s.entered[j] > s.round
    ensures Inv(EnterBy(s, i))
  {
    hide EnterBy, Union, Encode, Met, Present, UserBits, All, UnblockedValue, Masks;
    Arrival(s, i);
    LastArrivalOpens(s, i);
    var r := EnterBy(s, i);
    forall j | 0 <= j < |s.masks| ensures r.entered[j] == r.round { assert TaskOk(s, j); }
    NoneIsPresent(s.masks, r.entered, r.round, |s.masks|);
    assert s.masks != [] by { NotEmpty(s.masks); }
    assert r.entered[0] <= r.round;
    forall j | 0 <= j < |s.masks| ensures TaskOk(r, j) {
      assert TaskOk(s, j);
    }
    forall j | j in r.leaving ensures j !in r.g.item {
      if j != i { LeavingIsNotWaiting(s, j); }
    }
  }

  lemma LeavingIsNotWaiting(s: State, i: Task)
    requires Inv(s) && i in s.leaving
    ensures forall w :: w in s.g.waiters ==> w.t != i
  {
    forall w | w in s.g.waiters ensures w.t != i {
      assert TaskOk(s, w.t);
    }
  }

  lemma NotEmpty(masks: seq<Bits>)
    requires Masks(masks)
    ensures masks != []
  {
  }

  lemma ReturnKeepsInv(s: State, i: Task)
    requires Inv(s) && Enabled(s, Return(i))
    ensures Inv(ReturnBy(s, i)) && Answer(s, i).Returns? && Met(Answer(s, i).bits, Rendezvous(s.masks), true)
    ensures ReturnBy(s, i).entered == s.entered && ReturnBy(s, i).g.bits == s.g.bits
  {
    AnswerIsAll(s, i);
    assert TaskOk(s, i);
    hide Union, Encode, Met, Present, UserBits, All, UnblockedValue, Masks, Waits, AllWaitFor, Finish, Answer;
    var r := ReturnBy(s, i);
    forall j | 0 <= j < |s.masks| ensures TaskOk(r, j) {
      assert TaskOk(s, j);
    }
  }

  lemma AnswerIsAll(s: State, i: Task)
    requires AnswersOk(s) && UserBits(Rendezvous(s.masks)) && (i in s.leaving || i in s.g.item)
    ensures Answer(s, i).Returns? && Met(Answer(s, i).bits, Rendezvous(s.masks), true)
    ensures i !in s.leaving ==> Finish(s.g, i, Rendezvous(s.masks), true, true).0 == s.g.(item := s.g.item - {i})
  {
    UnblockedRoundTrip(Rendezvous(s.masks));
    MetByItself(Rendezvous(s.masks));
    hide Met, UnblockedValue, UserBits, Rendezvous;
  }

  /** Every step keeps the invariant; a return hands out the whole union. */
  lemma StepKeepsInv(s: State, a: Step)
    requires Inv(s) && Enabled(s, a)
    ensures Inv(Apply(s, a))
    ensures a.Return? ==> Answer(s, a.i).Returns? && Met(Answer(s, a.i).bits, Rendezvous(s.masks), true)
  {
    hide Inv, EnterBy, ReturnBy, Met, Rendezvous;
    match a {
      case Enter(i) =>
        assert |s.entered| == |s.masks|;
        if exists j :: 0 <= j < |s.masks| && j != i && s.entered[j] <= s.round {
          BlockedArrivalKeepsInv(s, i);
        } else {
          LastArrivalKeepsInv(s, i);
        }
      case Return(i) => ReturnKeepsInv(s, i);
    }
  }

  // ----- runs

  ghost predicate Run(s: State, steps: seq<Step>)
    requires Inv(s)
    decreases |steps|
  {
    steps != [] ==> Enabled(s, steps[0]) && (StepKeepsInv(s, steps[0]); Run(Apply(s, steps[0]), steps[1..]))
  }

  ghost function After(s: State, steps: seq<Step>): State
    requires Inv(s) && Run(s, steps)
    decreases |steps|
  {
    if steps == [] then s else (StepKeepsInv(s, steps[0]); After(Apply(s, steps[0]), steps[1..]))
  }

  lemma {:induction false} RunKeepsInv(s: State, steps: seq<Step>)
    requires Inv(s) && Run(s, steps)
    ensures Inv(After(s, steps))
    decreases |steps|
  {
    hide Inv, Apply, Enabled;
    if steps != [] {
      StepKeepsInv(s, steps[0]);
      RunKeepsInv(Apply(s, steps[0]), steps[1..]);
    }
  }

  /** The barrier before anybody has come. */
  function Start(masks: seq<Bits>): State {
    State(Group(0, [], map[]), masks, seq(|masks|, _ => 0), seq(|masks|, _ => 0), map[], 0)
  }

  lemma {:induction false} AllIsUsers(masks: seq<Bits>, n: nat)
    requires Masks(masks) && n <= |masks|
    ensures UserBits(All(masks, n))
  {
    NothingToUnion(0);
    if n > 0 {
      AllIsUsers(masks, n - 1);
      UsersUnion(All(masks, n - 1), masks[n - 1]);
      hide UserBits, Union;
    }
  }

  lemma UsersUnion(x: Bits, y: Bits)
    requires UserBits(x) && UserBits(y)
    ensures UserBits(Union(x, y))
  {
    Distribute(x, y, CONTROL_BYTES);
  }

  lemma StartKeepsInv(masks: seq<Bits>)
    requires Masks(masks)
    ensures Inv(Start(masks))
  {
    var s := Start(masks);
    AllIsUsers(masks, |masks|);
    NoneIsPresent(masks, s.entered, 0, |masks|);
    hide Present, All, Met, UserBits, Encode, UnblockedValue;
    assert s.entered[0] <= 0;
    forall i | 0 <= i < |masks| ensures TaskOk(s, i) {}
  }

  /** Safety of the barrier, over all runs and however unevenly the tasks run: no task has
      returned from a round that some task has not entered, even if fast tasks have come back
      for the next round before slow ones have left this one. */
  lemma NobodyReturnsEarly(masks: seq<Bits>, steps: seq<Step>, i: Task, j: Task)
    requires Masks(masks) && i < |masks| && j < |masks|
    requires Inv(Start(masks)) && Run(Start(masks), steps)
    ensures var s := After(Start(masks), steps);
            |s.returned| == |s.entered| == |masks| && s.returned[i] <= s.entered[j] <= s.returned[j] + 1
  {
    var s := After(Start(masks), steps);
    RunKeepsInv(Start(masks), steps);
    MasksStay(Start(masks), steps);
    assert TaskOk(s, i) && TaskOk(s, j);
  }

  lemma {:induction false} MasksStay(s: State, steps: seq<Step>)
    requires Inv(s) && Run(s, steps)
    ensures After(s, steps).masks == s.masks
    decreases |steps|
  {
    hide Inv, Enabled, Sync, Finish;
    if steps != [] {
      StepKeepsInv(s, steps[0]);
      MasksStay(Apply(s, steps[0]), steps[1..]);
    }
  }

  /** When the barrier opens, it leaves no bit of the rendezvous set: the bits are always
      those of the tasks that have entered the round that is being gathered. */
  lemma BitsAreThoseOfTheNextRound(s: State, a: Step)
    requires Inv(s) && Enabled(s, a)
    ensures Apply(s, a).round == s.round || (Apply(s, a).round == s.round + 1 && Apply(s, a).g.bits == 0)
    ensures forall j :: 0 <= j < |s.masks| ==> (Meets(s.g.bits, s.masks[j]) <==> s.entered[j] > s.round)
  {
    StepKeepsInv(s, a);
    if a.Enter? {
      if exists j :: 0 <= j < |s.masks| && j != a.i && s.entered[j] <= s.round {
        ArrivalBlocks(s, a.i);
      } else {
        LastArrivalOpens(s, a.i);
      }
    }
    forall j | 0 <= j < |s.masks| ensures Meets(s.g.bits, s.masks[j]) <==> s.entered[j] > s.round {
      if s.entered[j] <= s.round {
        AbsentMissing(s.masks, s.entered, s.round, |s.masks|, j);
      } else {
        PresentMeets(s.masks, s.entered, s.round, |s.masks|, j);
      }
    }
  }

  lemma {:induction false} PresentMeets(masks: seq<Bits>, entered: seq<nat>, k: nat, n: nat, j: nat)
    requires j < n <= |masks| == |entered| && masks[j] != 0 && entered[j] > k
    ensures Meets(Present(masks, entered, k, n), masks[j])
  {
    UnionMeets(Present(masks, entered, k, n - 1), if entered[n - 1] > k then masks[n - 1] else 0, masks[j]);
    MeetsBothWays(masks[j], masks[j]);
    hide Union, Meets;
    if j < n - 1 { PresentMeets(masks, entered, k, n - 1, j); }
  }
}
