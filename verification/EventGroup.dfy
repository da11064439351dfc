/** The event group of event_groups.c as an object.  Each method is proved to do what the
    function of the same name in EventSpec says; what that means is proved there. */
module EventGroup {
  import opened EventSpec

  class EventGroup {
    var bits: Bits
    var waiters: seq<Waiter>             // xTasksWaitingForBits
    var item: map<Task, Bits>            // item values of tasks that have been taken off the list

    ghost function State(): Group
      reads this
    {
      Group(bits, waiters, item)
    }

    constructor ()
      ensures State() == Group(0, [], map[]) && Inv(State())
    {
      bits, waiters, item := 0, [], map[];
    }

    /** xEventGroupSetBits: one walk along the list that takes off whoever is satisfied. */
    method SetBits(set_: Bits) returns (result: Bits)
      modifies this
      ensures State() == EventSpec.SetBits(old(State()), set_) && result == bits
    {
      hide Satisfied, Union, UnblockedValue, Wanted, ClearsOnExit, Minus, Walked, Kept, ClearMask, Delivered;
      var toClear: Bits := 0;
      bits := Union(bits, set_);
      var i := 0;
      ghost var all, before := waiters, item;
      WalkStarts(all, item, bits);
      while i < |waiters|
        invariant i <= |waiters| && bits == Union(old(bits), set_)
        invariant Walked(all, before, bits, waiters, i, toClear, item)
        decreases |waiters| - i
      {
        var w := waiters[i];
        if Satisfied(w, bits) {
          WalkUnblocks(all, before, bits, waiters, i, toClear, item);
          ClearNothing(toClear);
          if ClearsOnExit(w.value) {
            toClear := Union(toClear, Wanted(w.value));
          }
          item := item[w.t := UnblockedValue(bits)];
          waiters := waiters[..i] + waiters[i + 1..];
        } else {
          WalkPasses(all, before, bits, waiters, i, toClear, item);
          i := i + 1;
        }
      }
      WalkEnds(all, before, bits, waiters, toClear, item);
      bits := Minus(bits, toClear);
      result := bits;
    }

    /** xEventGroupClearBits */
    method ClearBits(mask: Bits) returns (before: Bits)
      modifies `bits
      ensures State() == EventSpec.ClearBits(old(State()), mask) && before == old(bits)
    {
      before := bits;
      bits := Minus(bits, mask);
    }

    /** The first part of xEventGroupWaitBits. */
    method WaitBits(t: Task, wanted: Bits, clear: bool, all: bool, mayBlock: bool) returns (o: Outcome)
      modifies this
      ensures (State(), o) == EventSpec.WaitBits(old(State()), t, wanted, clear, all, mayBlock)
    {
      hide Met, Encode, Minus;
      if Met(bits, wanted, all) {
        o := Returns(bits);
        if clear {
          bits := Minus(bits, wanted);
        }
      } else if !mayBlock {
        o := TimesOut(bits);
      } else {
        waiters := waiters + [Waiter(t, Encode(wanted, clear, all))];
        o := Blocks;
      }
    }

    /** The first part of xEventGroupSync. */
    method Sync(t: Task, set_: Bits, wanted: Bits, mayBlock: bool) returns (o: Outcome)
      modifies this
      ensures (State(), o) == EventSpec.Sync(old(State()), t, set_, wanted, mayBlock)
    {
      hide Met, Encode, Minus, Union, EventSpec.SetBits;
      var original := bits;
      var _ := SetBits(set_);
      if Met(Union(original, set_), wanted, true) {
        o := Returns(Union(original, set_));
        bits := Minus(bits, wanted);
      } else if mayBlock {
        waiters := waiters + [Waiter(t, Encode(wanted, true, true))];
        o := Blocks;
      } else {
        o := TimesOut(bits);
      }
    }
  }
}
