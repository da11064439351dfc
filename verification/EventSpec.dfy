/** Event groups: what setting, waiting for and clearing bits does to the bits and to the
    waiting tasks, on values; module EventGroup runs the loop of event_groups.c. */
module EventSpec {

  type Task = nat
  type Bits = bv64

  // The top byte of a 32-bit value carries control flags in a waiting task's event list item.
  const CLEAR_EVENTS_ON_EXIT: Bits := 0x0100_0000
  const UNBLOCKED_DUE_TO_BIT_SET: Bits := 0x0200_0000
  const WAIT_FOR_ALL: Bits := 0x0400_0000
  const ITEM_VALUE_IN_USE: Bits := 0x8000_0000
  const CONTROL_BYTES: Bits := 0xff00_0000

  /** A task on xTasksWaitingForBits with the value of its event list item. */
  datatype Waiter = Waiter(t: Task, value: Bits)

  /** The bits, the waiting tasks, and the item values left to tasks that were unblocked. */
  datatype Group = Group(bits: Bits, waiters: seq<Waiter>, item: map<Task, Bits>)

  predicate UserBits(b: Bits) {
    b & CONTROL_BYTES == 0
  }

  function Union(a: Bits, b: Bits): Bits {
    a | b
  }

  function Minus(a: Bits, b: Bits): Bits {
    a & !b
  }

  /** prvTestWaitCondition */
  predicate Met(current: Bits, wanted: Bits, all: bool) {
    if all then current & wanted == wanted else current & wanted != 0
  }

  // ----- the value in the list item

  function Encode(wanted: Bits, clear: bool, all: bool): Bits {
    wanted | (if clear then CLEAR_EVENTS_ON_EXIT else 0) | (if all then WAIT_FOR_ALL else 0) | ITEM_VALUE_IN_USE
  }

  function Wanted(value: Bits): Bits {
    value & !CONTROL_BYTES
  }

  predicate ClearsOnExit(value: Bits) {
    value & CLEAR_EVENTS_ON_EXIT != 0
  }

  predicate WaitsForAll(value: Bits) {
    value & WAIT_FOR_ALL != 0
  }

  /** What a wait is for survives its journey through the list item. */
  lemma EncodeDecode(wanted: Bits, clear: bool, all: bool)
    requires UserBits(wanted)
    ensures var v := Encode(wanted, clear, all);
            Wanted(v) == wanted && ClearsOnExit(v) == clear && WaitsForAll(v) == all
  {
  }

  predicate Satisfied(w: Waiter, bits: Bits) {
    Met(bits, Wanted(w.value), WaitsForAll(w.value))
  }

  /** The item value of a task that is unblocked, and what its call makes of it. */
  function UnblockedValue(bits: Bits): Bits {
    bits | UNBLOCKED_DUE_TO_BIT_SET | ITEM_VALUE_IN_USE
  }

  lemma UnblockedRoundTrip(bits: Bits)
    requires UserBits(bits)
    ensures UnblockedValue(bits) & UNBLOCKED_DUE_TO_BIT_SET != 0
    ensures UnblockedValue(bits) & !CONTROL_BYTES == bits
  {
  }

  // ----- setting bits

  function Kept(ws: seq<Waiter>, bits: Bits): seq<Waiter> {
    if ws == [] then []
    else if Satisfied(ws[0], bits) then Kept(ws[1..], bits)
    else [ws[0]] + Kept(ws[1..], bits)
  }

  /** What an unblocked waiter wants cleared. */
  function ClearedFor(w: Waiter, bits: Bits): Bits {
    if Satisfied(w, bits) && ClearsOnExit(w.value) then Wanted(w.value) else 0
  }

  /** The union of what the unblocked waiters want cleared. */
  function ClearMask(ws: seq<Waiter>, bits: Bits): Bits {
    if ws == [] then 0
    else
      Union(ClearMask(ws[1..], bits), ClearedFor(ws[0], bits))
  }

  /** Each unblocked task finds the same value in its item. */
  function Delivered(ws: seq<Waiter>, bits: Bits, item: map<Task, Bits>): map<Task, Bits> {
    if ws == [] then item
    else Delivered(ws[1..], bits, if Satisfied(ws[0], bits) then item[ws[0].t := UnblockedValue(bits)] else item)
  }

  /** xEventGroupSetBits */
  function SetBits(g: Group, set_: Bits): Group {
    var bits := Union(g.bits, set_);
    Group(Minus(bits, ClearMask(g.waiters, bits)), Kept(g.waiters, bits), Delivered(g.waiters, bits, g.item))
  }

  /** Every wait is for something, and no waiter has what it waits for. */
  ghost predicate Inv(g: Group) {
    && UserBits(g.bits)
    && (forall i :: 0 <= i < |g.waiters| ==> Wanted(g.waiters[i].value) != 0 && !Satisfied(g.waiters[i], g.bits))
  }

  // ----- what setting bits means

  lemma FewerBits(bits: Bits, mask: Bits, wanted: Bits)
    ensures bits & !mask & wanted == wanted ==> bits & wanted == wanted
    ensures bits & !mask & wanted != 0 ==> bits & wanted != 0
  {
  }

  lemma FewerBitsMeetLess(bits: Bits, mask: Bits, wanted: Bits, all: bool)
    requires Met(Minus(bits, mask), wanted, all)
    ensures Met(bits, wanted, all)
  {
    FewerBits(bits, mask, wanted);
  }

  lemma FewerBitsSatisfyLess(w: Waiter, bits: Bits, mask: Bits)
    requires Satisfied(w, Minus(bits, mask))
    ensures Satisfied(w, bits)
  {
    hide Met, Minus, Wanted, WaitsForAll;
    FewerBitsMeetLess(bits, mask, Wanted(w.value), WaitsForAll(w.value));
  }

  lemma {:induction false} KeptExactly(ws: seq<Waiter>, bits: Bits)
    ensures forall w :: w in Kept(ws, bits) <==> w in ws && !Satisfied(w, bits)
  {
    if ws != [] {
      KeptExactly(ws[1..], bits);
      assert ws == [ws[0]] + ws[1..];
    }
  }

  lemma {:induction false} KeptAsOften(ws: seq<Waiter>, bits: Bits, w: Waiter)
    ensures multiset(Kept(ws, bits))[w] == if Satisfied(w, bits) then 0 else multiset(ws)[w]
  {
    hide Satisfied;
    if ws != [] {
      KeptAsOften(ws[1..], bits, w);
      assert ws == [ws[0]] + ws[1..];
    }
  }

  lemma {:induction false} DeliveredExactly(ws: seq<Waiter>, bits: Bits, item: map<Task, Bits>, t: Task)
    ensures var d := Delivered(ws, bits, item);
            if exists w :: w in ws && w.t == t && Satisfied(w, bits) then t in d && d[t] == UnblockedValue(bits)
            else (t in d <==> t in item) && (t in item ==> d[t] == item[t])
  {
    if ws != [] {
      var rest := if Satisfied(ws[0], bits) then item[ws[0].t := UnblockedValue(bits)] else item;
      DeliveredExactly(ws[1..], bits, rest, t);
      assert ws == [ws[0]] + ws[1..];
      assert ws[0] in ws;
    }
  }

  predicate Meets(mask: Bits, some: Bits) {
    mask & some != 0
  }

  lemma Distribute(x: Bits, y: Bits, some: Bits)
    ensures (x | y) & some == (x & some) | (y & some)
  {
  }

  lemma UnionIsZero(x: Bits, y: Bits)
    ensures x | y == 0 <==> x == 0 && y == 0
  {
  }

  lemma OrMeets(x: Bits, y: Bits, some: Bits)
    ensures Meets(x | y, some) <==> Meets(x, some) || Meets(y, some)
  {
    Distribute(x, y, some);
    UnionIsZero(x & some, y & some);
  }

  lemma UnionMeets(x: Bits, y: Bits, some: Bits)
    ensures Meets(Union(x, y), some) <==> Meets(x, some) || Meets(y, some)
  {
    OrMeets(x, y, some);
    hide Meets;
  }

  lemma NothingMeets(some: Bits)
    ensures !Meets(0, some)
  {
  }

  /** Of some bits any is cleared exactly when some unblocked waiter waited for it and asked
      for that. */
  lemma {:induction false} ClearMaskIsUnion(ws: seq<Waiter>, bits: Bits, some: Bits)
    ensures Meets(ClearMask(ws, bits), some) <==> exists w :: w in ws && Meets(ClearedFor(w, bits), some)
  {
    hide Meets, ClearedFor, Union;
    NothingMeets(some);
    if ws != [] {
      ClearMaskIsUnion(ws[1..], bits, some);
      UnionMeets(ClearMask(ws[1..], bits), ClearedFor(ws[0], bits), some);
      assert ws == [ws[0]] + ws[1..];
      assert ws[0] in ws;
    }
  }

  /** The bits can only come from the set bits, so the user's bits stay the user's. */
  lemma ClearedIsLess(bits: Bits, set_: Bits, mask: Bits)
    requires UserBits(bits) && UserBits(set_)
    ensures UserBits(Minus(Union(bits, set_), mask))
  {
  }

  /** Setting bits unblocks exactly the waiters that the old bits together with the new ones
      satisfy, leaves the others waiting, and leaves nobody waiting for what is there. */
  lemma SetBitsExact(g: Group, set_: Bits)
    requires Inv(g) && UserBits(set_)
    ensures var r, bits := SetBits(g, set_), Union(g.bits, set_);
            && Inv(r)
            && (forall w :: w in r.waiters <==> w in g.waiters && !Satisfied(w, bits))
  {
    hide Satisfied, Wanted, UserBits, Union, Minus, ClearMask;
    var r, bits := SetBits(g, set_), Union(g.bits, set_);
    KeptExactly(g.waiters, bits);
    ClearedIsLess(g.bits, set_, ClearMask(g.waiters, bits));
    forall i | 0 <= i < |r.waiters| ensures Wanted(r.waiters[i].value) != 0 && !Satisfied(r.waiters[i], r.bits) {
      assert r.waiters[i] in Kept(g.waiters, bits);
      if Satisfied(r.waiters[i], r.bits) {
        FewerBitsSatisfyLess(r.waiters[i], bits, ClearMask(g.waiters, bits));
      }
    }
  }

  /** Some waiter of that task is satisfied. */
  ghost predicate Unblocks(ws: seq<Waiter>, bits: Bits, t: Task) {
    exists w :: w in ws && w.t == t && Satisfied(w, bits)
  }

  /** All unblocked tasks are left the same value, the old bits together with the new ones;
      nobody else is left anything. */
  lemma SetBitsDelivers(g: Group, set_: Bits, t: Task)
    ensures var r, bits := SetBits(g, set_), Union(g.bits, set_);
            if Unblocks(g.waiters, bits, t) then t in r.item && r.item[t] == UnblockedValue(bits)
            else (t in r.item <==> t in g.item) && (t in g.item ==> r.item[t] == g.item[t])
  {
    hide Satisfied, UnblockedValue, Union;
    DeliveredExactly(g.waiters, Union(g.bits, set_), g.item, t);
  }

  /** The order in which the waiters are visited does not matter: not for the bits, not for
      who stays, not for what is delivered. */
  lemma SetBitsIgnoresOrder(g: Group, h: Group, set_: Bits)
    requires g.bits == h.bits && g.item == h.item && multiset(g.waiters) == multiset(h.waiters)
    ensures var r, q := SetBits(g, set_), SetBits(h, set_);
            && r.bits == q.bits && r.item == q.item
            && multiset(r.waiters) == multiset(q.waiters)
  {
    hide Satisfied, UnblockedValue, ClearMask, Kept, Delivered, Union, Minus;
    var bits, a, b := Union(g.bits, set_), g.waiters, h.waiters;
    forall w ensures w in a <==> w in b {
      assert w in a <==> w in multiset(a);
      assert w in b <==> w in multiset(b);
    }
    SameBits(a, b, bits);
    var r, q := SetBits(g, set_), SetBits(h, set_);
    forall w ensures multiset(r.waiters)[w] == multiset(q.waiters)[w] {
      KeptAsOften(a, bits, w);
      KeptAsOften(b, bits, w);
    }
    forall t ensures (t in r.item <==> t in q.item) && (t in r.item ==> r.item[t] == q.item[t]) {
      SetBitsDelivers(g, set_, t);
      SetBitsDelivers(h, set_, t);
    }
  }

  lemma SameBits(a: seq<Waiter>, b: seq<Waiter>, bits: Bits)
    requires forall w :: w in a <==> w in b
    ensures ClearMask(a, bits) == ClearMask(b, bits)
  {
    hide Meets, ClearedFor, ClearMask, Minus;
    var x, y := ClearMask(a, bits), ClearMask(b, bits);
    var p, q := Minus(x, y), Minus(y, x);
    ClearMaskIsUnion(a, bits, p);
    ClearMaskIsUnion(b, bits, p);
    ClearMaskIsUnion(a, bits, q);
    ClearMaskIsUnion(b, bits, q);
    NoDifference(x, y);
  }

  lemma NoDifference(x: Bits, y: Bits)
    requires Meets(x, Minus(x, y)) == Meets(y, Minus(x, y)) && Meets(x, Minus(y, x)) == Meets(y, Minus(y, x))
    ensures x == y
  {
    EachWay(x, y);
    EachWay(y, x);
    if x & !y == 0 && y & !x == 0 {
      Antisymmetric(x, y);
    }
  }

  lemma EachWay(x: Bits, y: Bits)
    ensures Meets(x, Minus(x, y)) <==> x & !y != 0
    ensures !Meets(y, Minus(x, y))
  {
    assert x & (x & !y) == x & !y;
    assert y & (x & !y) == 0;
  }

  lemma Antisymmetric(x: Bits, y: Bits)
    requires x & !y == 0 && y & !x == 0
    ensures x == y
  {
  }

  // ----- the calls

  /** What the first, atomic part of a call comes to. */
  datatype Outcome = Returns(bits: Bits) | TimesOut(bits: Bits) | Blocks

  /** xEventGroupClearBits */
  function ClearBits(g: Group, mask: Bits): Group {
    g.(bits := Minus(g.bits, mask))
  }

  /** vTaskPlaceOnUnorderedEventList */
  function Block(g: Group, t: Task, wanted: Bits, clear: bool, all: bool): Group {
    g.(waiters := g.waiters + [Waiter(t, Encode(wanted, clear, all))])
  }

  /** xEventGroupWaitBits up to the point where it blocks or is done. */
  function WaitBits(g: Group, t: Task, wanted: Bits, clear: bool, all: bool, mayBlock: bool): (Group, Outcome) {
    if Met(g.bits, wanted, all) then (if clear then ClearBits(g, wanted) else g, Returns(g.bits))
    else if !mayBlock then (g, TimesOut(g.bits))
    else (Block(g, t, wanted, clear, all), Blocks)
  }

  /** xEventGroupSync up to the point where it blocks or is done. */
  function Sync(g: Group, t: Task, set_: Bits, wanted: Bits, mayBlock: bool): (Group, Outcome) {
    var r := SetBits(g, set_);
    if Met(Union(g.bits, set_), wanted, true) then (ClearBits(r, wanted), Returns(Union(g.bits, set_)))
    else if mayBlock then (Block(r, t, wanted, true, true), Blocks)
    else (r, TimesOut(r.bits))
  }

  /** A wait is ended by the tick: the item keeps its value. */
  function Expire(g: Group, i: nat): Group
    requires i < |g.waiters|
  {
    var w := g.waiters[i];
    g.(waiters := g.waiters[..i] + g.waiters[i + 1..], item := g.item[w.t := w.value])
  }

  /** The part of either call that runs when the task has been unblocked. */
  function Finish(g: Group, t: Task, wanted: Bits, clear: bool, all: bool): (Group, Outcome)
    requires t in g.item
  {
    var v := g.item[t];
    var h := g.(item := g.item - {t});
    if v & UNBLOCKED_DUE_TO_BIT_SET != 0 then (h, Returns(Wanted(v)))
    else (if Met(g.bits, wanted, all) && clear then ClearBits(h, wanted) else h, TimesOut(Wanted(g.bits)))
  }

  lemma ClearKeepsInv(g: Group, mask: Bits)
    requires Inv(g)
    ensures Inv(ClearBits(g, mask))
  {
    var r := ClearBits(g, mask);
    NothingToUnion(g.bits);
    ClearedIsLess(g.bits, 0, mask);
    hide Satisfied, Wanted, UserBits, Minus, Union;
    forall i | 0 <= i < |g.waiters| ensures !Satisfied(g.waiters[i], r.bits) {
      if Satisfied(g.waiters[i], r.bits) { FewerBitsSatisfyLess(g.waiters[i], g.bits, mask); }
    }
  }

  lemma NothingToUnion(a: Bits)
    ensures Union(a, 0) == a && UserBits(0)
  {
  }

  lemma BlockKeepsInv(g: Group, t: Task, wanted: Bits, clear: bool, all: bool)
    requires Inv(g) && UserBits(wanted) && wanted != 0 && !Met(g.bits, wanted, all)
    ensures Inv(Block(g, t, wanted, clear, all))
  {
    EncodeDecode(wanted, clear, all);
    hide Encode, Wanted, Met, WaitsForAll, ClearsOnExit, UserBits;
  }

  /** Waiting keeps the invariant; a call that does not time out returns bits that meet its
      condition. */
  lemma WaitBitsKeepsInv(g: Group, t: Task, wanted: Bits, clear: bool, all: bool, mayBlock: bool)
    requires Inv(g) && UserBits(wanted) && wanted != 0
    ensures var (r, o) := WaitBits(g, t, wanted, clear, all, mayBlock);
            Inv(r) && (o.Returns? ==> Met(o.bits, wanted, all))
  {
    hide Inv, Met, Block, ClearBits;
    if Met(g.bits, wanted, all) {
      ClearKeepsInv(g, wanted);
    } else if mayBlock {
      BlockKeepsInv(g, t, wanted, clear, all);
    }
  }

  lemma SyncKeepsInv(g: Group, t: Task, set_: Bits, wanted: Bits, mayBlock: bool)
    requires Inv(g) && UserBits(wanted) && wanted != 0 && UserBits(set_)
    ensures var (r, o) := Sync(g, t, set_, wanted, mayBlock);
            Inv(r) && (o.Returns? ==> Met(o.bits, wanted, true))
  {
    var r, bits := SetBits(g, set_), Union(g.bits, set_);
    SetBitsExact(g, set_);
    hide Inv, Block, ClearBits, SetBits, Union;
    if Met(bits, wanted, true) {
      ClearKeepsInv(r, wanted);
    } else if mayBlock {
      assert r.bits == Minus(bits, ClearMask(g.waiters, bits)) by { SetBitsClears(g, set_); }
      if Met(r.bits, wanted, true) { FewerBitsMeetLess(bits, ClearMask(g.waiters, bits), wanted, true); }
      BlockKeepsInv(r, t, wanted, true, true);
    }
  }

  lemma SetBitsClears(g: Group, set_: Bits)
    ensures SetBits(g, set_).bits == Minus(Union(g.bits, set_), ClearMask(g.waiters, Union(g.bits, set_)))
  {
  }

  lemma ExpireKeepsInv(g: Group, i: nat)
    requires Inv(g) && i < |g.waiters|
    ensures Inv(Expire(g, i))
  {
    hide Satisfied, Wanted, UserBits;
  }

  /** The second part of a call keeps the invariant too; a task unblocked by set bits returns
      exactly the value that satisfied it. */
  lemma FinishKeepsInv(g: Group, t: Task, wanted: Bits, clear: bool, all: bool)
    requires Inv(g) && t in g.item
    ensures var (r, o) := Finish(g, t, wanted, clear, all);
            && Inv(r)
            && (forall bits :: UserBits(bits) && g.item[t] == UnblockedValue(bits) ==> o == Returns(bits))
  {
    ClearKeepsInv(g.(item := g.item - {t}), wanted);
    forall bits | UserBits(bits) && g.item[t] == UnblockedValue(bits)
      ensures Finish(g, t, wanted, clear, all).1 == Returns(bits)
    {
      UnblockedRoundTrip(bits);
      hide UnblockedValue, UserBits;
    }
    hide UserBits, Satisfied, Wanted, Met, ClearBits;
  }

  // ----- the same, bit by bit

  /** A power of two. */
  predicate OneBit(b: Bits) {
    b != 0 && b & (b - 1) == 0
  }

  /** All of the wanted bits are there, or one of them is. */
  ghost predicate Holds(current: Bits, wanted: Bits, all: bool) {
    if all then forall b :: OneBit(b) && Meets(wanted, b) ==> Meets(current, b)
    else exists b :: OneBit(b) && Meets(wanted, b) && Meets(current, b)
  }

  lemma LowestBit(x: Bits)
    requires x != 0
    ensures OneBit(x & (0 - x)) && Meets(x, x & (0 - x))
  {
  }

  lemma InOrOut(x: Bits, b: Bits)
    requires OneBit(b)
    ensures b != 0 && (x & b == 0 || x & b == b)
  {
  }

  lemma CommonBit(x: Bits, y: Bits, b: Bits)
    requires OneBit(b)
    ensures Meets(x & y, b) <==> Meets(x, b) && Meets(y, b)
  {
  }

  lemma TakenAway(x: Bits, y: Bits, b: Bits)
    requires y & b == b
    ensures x & !y & b == 0
  {
  }

  lemma LeftAlone(x: Bits, y: Bits, b: Bits)
    requires y & b == 0
    ensures x & !y & b == x & b
  {
  }

  lemma WithoutMeets(x: Bits, y: Bits, b: Bits)
    requires OneBit(b)
    ensures Meets(x & !y, b) <==> Meets(x, b) && !Meets(y, b)
  {
    hide OneBit;
    InOrOut(y, b);
    if y & b == 0 { LeftAlone(x, y, b); } else { TakenAway(x, y, b); }
  }

  lemma MinusBit(x: Bits, y: Bits, b: Bits)
    requires OneBit(b)
    ensures Meets(Minus(x, y), b) <==> Meets(x, b) && !Meets(y, b)
  {
    hide OneBit, Meets;
    WithoutMeets(x, y, b);
  }

  lemma NothingMissing(current: Bits, wanted: Bits)
    ensures Minus(wanted, current) == 0 ==> current & wanted == wanted
  {
  }

  lemma NothingLacks(current: Bits, wanted: Bits)
    ensures current & wanted == wanted ==> Minus(wanted, current) == 0
  {
  }

  lemma AllMeansEach(current: Bits, wanted: Bits)
    ensures Met(current, wanted, true) <==> Holds(current, wanted, true)
  {
    hide OneBit, Meets, Minus;
    NothingMissing(current, wanted);
    NothingLacks(current, wanted);
    var missing := Minus(wanted, current);
    forall b | OneBit(b) ensures Meets(missing, b) <==> Meets(wanted, b) && !Meets(current, b) {
      MinusBit(wanted, current, b);
    }
    if missing == 0 {
      forall b: Bits ensures !Meets(missing, b) { NothingMeets(b); }
    } else {
      LowestBit(missing);
    }
  }

  lemma AnyMeansSome(current: Bits, wanted: Bits)
    ensures Met(current, wanted, false) <==> Holds(current, wanted, false)
  {
    hide OneBit, Meets;
    var common := current & wanted;
    if common != 0 {
      LowestBit(common);
      CommonBit(current, wanted, common & (0 - common));
    }
    forall b | OneBit(b) && Meets(wanted, b) && Meets(current, b) ensures common != 0 {
      CommonBit(current, wanted, b);
      NothingMeets(b);
    }
  }

  /** The test of the masks is the test of the single bits. */
  lemma MetIsHolds(current: Bits, wanted: Bits, all: bool)
    ensures Met(current, wanted, all) <==> Holds(current, wanted, all)
  {
    hide Met, Holds;
    AllMeansEach(current, wanted);
    AnyMeansSome(current, wanted);
  }

  /** The waiter that a call leaves behind waits for just what the call asked for. */
  ghost predicate JoinedBy(g: Group, r: Group, t: Task, wanted: Bits, clear: bool, all: bool) {
    && |r.waiters| == |g.waiters| + 1 && r.waiters[..|g.waiters|] == g.waiters
    && var w := r.waiters[|g.waiters|];
       w.t == t && Wanted(w.value) == wanted && ClearsOnExit(w.value) == clear && WaitsForAll(w.value) == all
  }

  lemma BlockJoins(g: Group, t: Task, wanted: Bits, clear: bool, all: bool)
    requires UserBits(wanted)
    ensures JoinedBy(g, Block(g, t, wanted, clear, all), t, wanted, clear, all)
  {
    EncodeDecode(wanted, clear, all);
    hide Encode, Wanted, ClearsOnExit, WaitsForAll;
  }

  /** A wait returns at once exactly if all, or one, of the bits it wants are set, and then
      clears just those, exactly if it was asked to; otherwise no bit changes, and the task
      waits unless it must not. */
  lemma WaitBitsExact(g: Group, t: Task, wanted: Bits, clear: bool, all: bool, mayBlock: bool, b: Bits)
    requires UserBits(wanted) && OneBit(b)
    ensures var (r, o) := WaitBits(g, t, wanted, clear, all, mayBlock);
            && o == (if Holds(g.bits, wanted, all) then Returns(g.bits)
                     else if mayBlock then Blocks else TimesOut(g.bits))
            && (Meets(r.bits, b) <==> Meets(g.bits, b) && !(o.Returns? && clear && Meets(wanted, b)))
            && r.item == g.item
            && (if o.Blocks? then JoinedBy(g, r, t, wanted, clear, all) else r.waiters == g.waiters)
  {
    hide Met, Holds, JoinedBy, Meets, Minus, UserBits, OneBit, Encode;
    MetIsHolds(g.bits, wanted, all);
    MinusBit(g.bits, wanted, b);
    BlockJoins(g, t, wanted, clear, all);
  }

  /** Setting bits adds them, and takes away just those that an unblocked waiter wanted and
      asked to have cleared. */
  lemma SetBitsBits(g: Group, set_: Bits, b: Bits)
    requires OneBit(b)
    ensures var bits := Union(g.bits, set_);
            Meets(SetBits(g, set_).bits, b) <==>
            && (Meets(g.bits, b) || Meets(set_, b))
            && !exists w :: w in g.waiters && Satisfied(w, bits) && ClearsOnExit(w.value) && Meets(Wanted(w.value), b)
  {
    hide Meets, Satisfied, ClearsOnExit, Wanted, OneBit, Minus, Union, ClearMask;
    var bits := Union(g.bits, set_);
    SetBitsClears(g, set_);
    MinusBit(bits, ClearMask(g.waiters, bits), b);
    UnionMeets(g.bits, set_, b);
    ClearMaskIsUnion(g.waiters, bits, b);
    NothingMeets(b);
    assert forall w :: Meets(ClearedFor(w, bits), b) <==>
                       Satisfied(w, bits) && ClearsOnExit(w.value) && Meets(Wanted(w.value), b);
  }

  /** A rendezvous sets its bits, and returns at once exactly if all bits it waits for were
      set or are set with that; it then leaves them cleared. */
  lemma SyncExact(g: Group, t: Task, set_: Bits, wanted: Bits, mayBlock: bool, b: Bits)
    requires UserBits(wanted) && OneBit(b)
    ensures var (r, o) := Sync(g, t, set_, wanted, mayBlock);
            var s, bits := SetBits(g, set_), Union(g.bits, set_);
            && o == (if Holds(bits, wanted, true) then Returns(bits) else if mayBlock then Blocks else TimesOut(s.bits))
            && (Meets(r.bits, b) <==> Meets(s.bits, b) && !(o.Returns? && Meets(wanted, b)))
            && r.item == s.item
            && (if o.Blocks? then JoinedBy(s, r, t, wanted, true, true) else r.waiters == s.waiters)
  {
    hide Met, Holds, JoinedBy, Meets, Minus, UserBits, OneBit, Encode, SetBits, Union;
    var s := SetBits(g, set_);
    MetIsHolds(Union(g.bits, set_), wanted, true);
    MinusBit(s.bits, wanted, b);
    BlockJoins(s, t, wanted, true, true);
  }

  lemma StillMarkedWaiting(wanted: Bits, clear: bool, all: bool)
    requires UserBits(wanted)
    ensures Encode(wanted, clear, all) & UNBLOCKED_DUE_TO_BIT_SET == 0
  {
  }

  /** A wait that has timed out says so, and still clears the bits it wanted, exactly if they
      have come meanwhile and it was asked to. */
  lemma FinishAfterTimeout(g: Group, t: Task, wanted: Bits, clear: bool, all: bool, b: Bits)
    requires Inv(g) && UserBits(wanted) && OneBit(b) && t in g.item && g.item[t] == Encode(wanted, clear, all)
    ensures var (r, o) := Finish(g, t, wanted, clear, all);
            && o == TimesOut(g.bits) && r.waiters == g.waiters && r.item == g.item - {t}
            && (Meets(r.bits, b) <==>
                Meets(g.bits, b) && !(clear && Holds(g.bits, wanted, all) && Meets(wanted, b)))
  {
    StillMarkedWaiting(wanted, clear, all);
    NoControlBits(g.bits);
    hide Met, Holds, Meets, Minus, UserBits, OneBit, Encode, Wanted;
    MetIsHolds(g.bits, wanted, all);
    MinusBit(g.bits, wanted, b);
  }

  /** From the wait to the time-out: the task is off the list, the others are where they
      were, no bit has changed, and the call answers that it timed out. */
  lemma WaitThenTimeout(g: Group, t: Task, wanted: Bits, clear: bool, all: bool)
    requires Inv(g) && UserBits(wanted) && wanted != 0 && !Met(g.bits, wanted, all)
    ensures var q := WaitBits(g, t, wanted, clear, all, true).0;
            && |q.waiters| == |g.waiters| + 1
            && var r := Expire(q, |g.waiters|);
               && r.bits == g.bits && r.waiters == g.waiters && t in r.item
               && Finish(r, t, wanted, clear, all) == (r.(item := r.item - {t}), TimesOut(g.bits))
  {
    StillMarkedWaiting(wanted, clear, all);
    NoControlBits(g.bits);
    hide Met, Encode, Wanted, UserBits;
    var q := WaitBits(g, t, wanted, clear, all, true).0;
    assert q.waiters[..|g.waiters|] + q.waiters[|g.waiters| + 1..] == g.waiters;
  }

  /** From the wait to the wake-up: bits set meanwhile that meet the condition take the task
      off the list, and the call returns all the bits that were set at that moment, those
      included that the wake-up has cleared again. */
  lemma WaitThenSet(g: Group, t: Task, wanted: Bits, clear: bool, all: bool, set_: Bits)
    requires Inv(g) && UserBits(wanted) && wanted != 0 && UserBits(set_)
    requires !Met(g.bits, wanted, all) && Met(Union(g.bits, set_), wanted, all)
    ensures var q := WaitBits(g, t, wanted, clear, all, true).0; var r := SetBits(q, set_);
            && q.waiters != [] && q.waiters[|g.waiters|] !in r.waiters && t in r.item
            && Finish(r, t, wanted, clear, all).1 == Returns(Union(g.bits, set_))
  {
    EncodeDecode(wanted, clear, all);
    UnionIsUsers(g.bits, set_);
    UnblockedRoundTrip(Union(g.bits, set_));
    hide Met, Encode, Wanted, UserBits, Union, UnblockedValue, WaitsForAll, ClearsOnExit, Kept, Delivered, ClearMask;
    var q := WaitBits(g, t, wanted, clear, all, true).0;
    var w := q.waiters[|g.waiters|];
    assert w in q.waiters && w.t == t && Satisfied(w, Union(g.bits, set_));
    KeptExactly(q.waiters, Union(g.bits, set_));
    SetBitsDelivers(q, set_, t);
    assert Unblocks(q.waiters, Union(g.bits, set_), t);
  }

  lemma UnionIsUsers(a: Bits, b: Bits)
    requires UserBits(a) && UserBits(b)
    ensures UserBits(Union(a, b))
  {
  }

  lemma NoControlBits(bits: Bits)
    ensures UserBits(bits) ==> Wanted(bits) == bits
  {
  }

  // ----- runs

  datatype Call =
    | Set(set_: Bits) | Clear(mask: Bits)
    | Wait(t: Task, wanted: Bits, clear: bool, all: bool, mayBlock: bool)
    | Meet(t: Task, set_: Bits, wanted: Bits, mayBlock: bool)
    | Timeout(i: nat)
    | Wake(t: Task, wanted: Bits, clear: bool, all: bool)

  /** What the assertions in the code demand of callers. */
  ghost predicate Allowed(g: Group, c: Call) {
    match c
    case Set(b) => UserBits(b)
    case Clear(b) => UserBits(b)
    case Wait(_, wanted, _, _, _) => UserBits(wanted) && wanted != 0
    case Meet(_, b, wanted, _) => UserBits(b) && UserBits(wanted) && wanted != 0
    case Timeout(i) => i < |g.waiters|
    case Wake(t, _, _, _) => t in g.item
  }

  function Apply(g: Group, c: Call): Group
    requires Allowed(g, c)
  {
    match c
    case Set(b) => SetBits(g, b)
    case Clear(b) => ClearBits(g, b)
    case Wait(t, wanted, clear, all, mayBlock) => WaitBits(g, t, wanted, clear, all, mayBlock).0
    case Meet(t, b, wanted, mayBlock) => Sync(g, t, b, wanted, mayBlock).0
    case Timeout(i) => Expire(g, i)
    case Wake(t, wanted, clear, all) => Finish(g, t, wanted, clear, all).0
  }

  lemma CallKeepsInv(g: Group, c: Call)
    requires Inv(g) && Allowed(g, c)
    ensures Inv(Apply(g, c))
  {
    hide Inv, UserBits, SetBits, ClearBits, WaitBits, Sync, Expire, Finish;
    match c {
      case Set(b) => SetBitsExact(g, b);
      case Clear(b) => ClearKeepsInv(g, b);
      case Wait(t, wanted, clear, all, mayBlock) => WaitBitsKeepsInv(g, t, wanted, clear, all, mayBlock);
      case Meet(t, b, wanted, mayBlock) => SyncKeepsInv(g, t, b, wanted, mayBlock);
      case Timeout(i) => ExpireKeepsInv(g, i);
      case Wake(t, wanted, clear, all) => FinishKeepsInv(g, t, wanted, clear, all);
    }
  }

  ghost predicate Run(g: Group, calls: seq<Call>)
    decreases |calls|
  {
    calls != [] ==> Allowed(g, calls[0]) && Run(Apply(g, calls[0]), calls[1..])
  }

  ghost function After(g: Group, calls: seq<Call>): Group
    requires Run(g, calls)
    decreases |calls|
  {
    if calls == [] then g else After(Apply(g, calls[0]), calls[1..])
  }

  /** Between any two calls, whatever they are and in whatever order they come, no task is
      left waiting for bits that are set. */
  lemma {:induction false} NobodyWaitsInVain(g: Group, calls: seq<Call>, w: Waiter)
    requires Inv(g) && Run(g, calls) && w in After(g, calls).waiters
    ensures !Satisfied(w, After(g, calls).bits)
    decreases |calls|
  {
    hide Satisfied, Apply, Allowed;
    if calls != [] {
      CallKeepsInv(g, calls[0]);
      NobodyWaitsInVain(Apply(g, calls[0]), calls[1..], w);
    }
  }

  // ----- the union built up in one walk

  lemma ClearNothing(x: Bits)
    ensures Union(x, 0) == x && Union(0, x) == x
  {
  }

  lemma ClearFirst(ws: seq<Waiter>, bits: Bits, sofar: Bits)
    requires ws != []
    ensures Union(ClearMask(ws, bits), sofar) == Union(ClearMask(ws[1..], bits), Union(sofar, ClearedFor(ws[0], bits)))
    ensures Union(sofar, 0) == sofar
  {
    Associate(ClearMask(ws[1..], bits), ClearedFor(ws[0], bits), sofar);
    ClearNothing(sofar);
  }

  lemma Associate(x: Bits, y: Bits, z: Bits)
    ensures Union(Union(x, y), z) == Union(x, Union(z, y))
  {
  }

  /** How far one walk along the list `all` has come: the first i of what is left of it stay,
      the rest has still to be visited. */
  ghost predicate Walked(all: seq<Waiter>, before: map<Task, Bits>, bits: Bits,
                         left: seq<Waiter>, i: nat, toClear: Bits, item: map<Task, Bits>) {
    && i <= |left|
    && Kept(all, bits) == left[..i] + Kept(left[i..], bits)
    && ClearMask(all, bits) == Union(ClearMask(left[i..], bits), toClear)
    && Delivered(all, bits, before) == Delivered(left[i..], bits, item)
  }

  lemma WalkStarts(all: seq<Waiter>, item: map<Task, Bits>, bits: Bits)
    ensures Walked(all, item, bits, all, 0, 0, item)
  {
    ClearNothing(ClearMask(all, bits));
    assert all[0..] == all;
  }

  lemma WalkUnblocks(all: seq<Waiter>, before: map<Task, Bits>, bits: Bits, left: seq<Waiter>, i: nat, toClear: Bits,
                     item: map<Task, Bits>)
    requires Walked(all, before, bits, left, i, toClear, item) && i < |left| && Satisfied(left[i], bits)
    ensures Walked(all, before, bits, left[..i] + left[i + 1..], i, Union(toClear, ClearedFor(left[i], bits)),
                   item[left[i].t := UnblockedValue(bits)])
  {
    hide Satisfied, Union, ClearedFor, UnblockedValue;
    ClearFirst(left[i..], bits, toClear);
    assert left[i..][1..] == left[i + 1..];
    assert (left[..i] + left[i + 1..])[i..] == left[i + 1..];
    assert (left[..i] + left[i + 1..])[..i] == left[..i];
  }

  lemma WalkPasses(all: seq<Waiter>, before: map<Task, Bits>, bits: Bits, left: seq<Waiter>, i: nat, toClear: Bits,
                   item: map<Task, Bits>)
    requires Walked(all, before, bits, left, i, toClear, item) && i < |left| && !Satisfied(left[i], bits)
    ensures Walked(all, before, bits, left, i + 1, toClear, item)
  {
    ClearFirst(left[i..], bits, toClear);
    hide Satisfied, Union, UnblockedValue;
    assert left[i..][1..] == left[i + 1..];
    assert left[..i + 1] == left[..i] + [left[i]];
  }

  lemma WalkEnds(all: seq<Waiter>, before: map<Task, Bits>, bits: Bits, left: seq<Waiter>, toClear: Bits,
                 item: map<Task, Bits>)
    requires Walked(all, before, bits, left, |left|, toClear, item)
    ensures left == Kept(all, bits) && toClear == ClearMask(all, bits) && item == Delivered(all, bits, before)
  {
    ClearNothing(toClear);
    assert left[..|left|] == left;
  }
}
