/** The scheme that tasks.c uses for delayed tasks and timers.c for active timers: times are
    kept in a type that wraps at M, one sorted list holds the times of the present epoch and
    another those of the next, and the lists change places when the tick count wraps.  Here
    the two lists are related to unbounded time: a map from owners to the unbounded times at
    which they are due, and the unbounded time `base` at which the present epoch began. */
module TwoLists {
  import opened ListSpec

  type Owner = nat

  datatype Entry = Entry(owner: Owner, value: nat)

  /** Sum and difference in the wrapping tick type. */
  function Add(m: nat, a: nat, b: nat): (c: nat)
    requires a < m && b < m
    ensures c < m
  {
    if a + b < m then a + b else a + b - m
  }

  function Sub(m: nat, a: nat, b: nat): (c: nat)
    requires a < m && b < m
    ensures c < m
  {
    if a >= b then a - b else a + m - b
  }

  function Values(l: seq<Entry>): (v: seq<nat>)
    ensures |v| == |l| && forall i :: 0 <= i < |v| ==> v[i] == l[i].value
  {
    seq(|l|, i requires 0 <= i < |l| => l[i].value)
  }

  /** vListInsert */
  function Insert(l: seq<Entry>, e: Entry): seq<Entry> {
    InsertAt(l, InsertPos(Values(l), e.value), e)
  }

  ghost predicate Ordered(l: seq<Entry>) {
    Sorted(Values(l)) && NoDup(l)
  }

  lemma InsertOrdered(l: seq<Entry>, e: Entry)
    requires Ordered(l) && e !in l
    ensures Ordered(Insert(l, e))
    ensures forall x :: x in Insert(l, e) <==> x in l || x == e
    ensures Members(Insert(l, e)) == Members(l) + {e}
  {
    var p := InsertPos(Values(l), e.value);
    InsertIsStableAndSorted(Values(l), e.value);
    InsertAtMembers(l, p, e);
    assert Values(Insert(l, e)) == InsertAt(Values(l), p, e.value);
  }

  lemma WithoutOrdered(l: seq<Entry>, e: Entry)
    requires Ordered(l) && e in l
    ensures Ordered(Without(l, e))
    ensures forall x :: x in Without(l, e) <==> x in l && x != e
    ensures Members(Without(l, e)) == Members(l) - {e}
  {
    var i := IndexOf(l, e);
    RemoveAtMembers(l, i);
    var v := Values(l);
    forall a, b | 0 <= a < b < |Without(l, e)| ensures Values(Without(l, e))[a] <= Values(Without(l, e))[b] {
      assert v[if a < i then a else a + 1] <= v[if b < i then b else b + 1];
    }
  }

  /** What is due in the epoch that begins at lo, with times relative to lo. */
  function Window(due: map<Owner, nat>, lo: nat, m: nat): set<Entry> {
    set t | t in due && lo <= due[t] < lo + m :: Entry(t, due[t] - lo)
  }

  /** The lists hold exactly what is due in the present and in the next epoch. */
  ghost predicate Match(cur: seq<Entry>, ovf: seq<Entry>, due: map<Owner, nat>, base: nat, m: nat) {
    && Ordered(cur) && Members(cur) == Window(due, base, m)
    && Ordered(ovf) && Members(ovf) == Window(due, base + m, m)
    && (forall t :: t in due ==> base <= due[t] < base + m + m)
  }

  lemma InWindow(due: map<Owner, nat>, t: Owner, lo: nat, m: nat)
    requires t in due && lo <= due[t] < lo + m
    ensures Entry(t, due[t] - lo) in Window(due, lo, m)
  {
  }

  /** A list and a window after one arrival, and after one departure. */
  lemma Arrival(l: seq<Entry>, due: map<Owner, nat>, lo: nat, m: nat, t: Owner, time: nat)
    requires Ordered(l) && Members(l) == Window(due, lo, m) && t !in due
    ensures lo <= time < lo + m ==>
              var l' := Insert(l, Entry(t, time - lo)); Ordered(l') && Members(l') == Window(due[t := time], lo, m)
    ensures !(lo <= time < lo + m) ==> Members(l) == Window(due[t := time], lo, m)
  {
    hide Ordered, Window, Members, Insert;
    WindowGrows(due, lo, m, t, time);
    if lo <= time < lo + m {
      InMembers(l, Entry(t, time - lo));
      InsertOrdered(l, Entry(t, time - lo));
    }
  }

  lemma WindowGrows(due: map<Owner, nat>, lo: nat, m: nat, t: Owner, time: nat)
    requires t !in due
    ensures if lo <= time < lo + m then
              && Window(due[t := time], lo, m) == Window(due, lo, m) + {Entry(t, time - lo)}
              && Entry(t, time - lo) !in Window(due, lo, m)
            else Window(due[t := time], lo, m) == Window(due, lo, m)
  {
    var due' := due[t := time];
    assert forall x :: x in due <==> x in due' && x != t;
    assert forall x :: x in due ==> due'[x] == due[x];
  }

  lemma Departure(l: seq<Entry>, due: map<Owner, nat>, lo: nat, m: nat, t: Owner)
    requires Ordered(l) && Members(l) == Window(due, lo, m) && t in due
    ensures lo <= due[t] < lo + m ==>
              && Entry(t, due[t] - lo) in l
              && var l' := Without(l, Entry(t, due[t] - lo)); Ordered(l') && Members(l') == Window(due - {t}, lo, m)
    ensures !(lo <= due[t] < lo + m) ==> Members(l) == Window(due - {t}, lo, m)
  {
    hide Ordered, Window, Members, Without;
    WindowShrinks(due, lo, m, t);
    if lo <= due[t] < lo + m {
      InMembers(l, Entry(t, due[t] - lo));
      WithoutOrdered(l, Entry(t, due[t] - lo));
    }
  }

  lemma WindowShrinks(due: map<Owner, nat>, lo: nat, m: nat, t: Owner)
    requires t in due
    ensures if lo <= due[t] < lo + m then
              && Window(due - {t}, lo, m) == Window(due, lo, m) - {Entry(t, due[t] - lo)}
              && Entry(t, due[t] - lo) in Window(due, lo, m)
            else Window(due - {t}, lo, m) == Window(due, lo, m)
  {
    var due' := due - {t};
    assert forall x :: x in due' <==> x in due && x != t;
    assert forall x :: x in due' ==> due'[x] == due[x];
  }

  lemma InMembers(l: seq<Entry>, e: Entry)
    ensures e in Members(l) <==> e in l
  {
  }

  lemma InsertMatches(cur: seq<Entry>, ovf: seq<Entry>, due: map<Owner, nat>, base: nat, m: nat, t: Owner, time: nat)
    requires Match(cur, ovf, due, base, m) && t !in due && base <= time < base + m + m
    ensures time < base + m ==> Match(Insert(cur, Entry(t, time - base)), ovf, due[t := time], base, m)
    ensures time >= base + m ==> Match(cur, Insert(ovf, Entry(t, time - base - m)), due[t := time], base, m)
  {
    Arrival(cur, due, base, m, t, time);
    Arrival(ovf, due, base + m, m, t, time);
  }

  lemma WithoutMatches(cur: seq<Entry>, ovf: seq<Entry>, due: map<Owner, nat>, base: nat, m: nat, t: Owner)
    requires Match(cur, ovf, due, base, m) && t in due
    ensures due[t] < base + m ==>
              Entry(t, due[t] - base) in cur && Match(Without(cur, Entry(t, due[t] - base)), ovf, due - {t}, base, m)
    ensures due[t] >= base + m ==>
              Entry(t, due[t] - base - m) in ovf
                && Match(cur, Without(ovf, Entry(t, due[t] - base - m)), due - {t}, base, m)
  {
    Departure(cur, due, base, m, t);
    Departure(ovf, due, base + m, m, t);
  }

  /** When the present list has run empty the lists may change places. */
  lemma SwitchMatches(ovf: seq<Entry>, due: map<Owner, nat>, base: nat, m: nat)
    requires Match([], ovf, due, base, m)
    ensures Match(ovf, [], due, base + m, m)
  {
    EmptyMeansLater(ovf, due, base, m);
    var none: seq<Entry> := [];
    assert Window(due, base + m + m, m) == {} == Members(none);
  }

  /** The head of the present list is due first of all. */
  lemma HeadIsEarliest(cur: seq<Entry>, ovf: seq<Entry>, due: map<Owner, nat>, base: nat, m: nat)
    requires Match(cur, ovf, due, base, m) && cur != []
    ensures cur[0].owner in due && due[cur[0].owner] == base + cur[0].value && cur[0].value < m
    ensures forall t :: t in due ==> base + cur[0].value <= due[t]
    ensures Without(cur, cur[0]) == cur[1..]
  {
    WithoutFirst(cur);
    assert cur[0] in Members(cur);
    forall t | t in due ensures base + cur[0].value <= due[t] {
      if due[t] < base + m {
        var e := Entry(t, due[t] - base);
        assert e in Window(due, base, m);
        assert e in Members(cur);
        assert Values(cur)[0] <= Values(cur)[IndexOf(cur, e)];
      }
    }
  }

  lemma EmptyMeansLater(ovf: seq<Entry>, due: map<Owner, nat>, base: nat, m: nat)
    requires Match([], ovf, due, base, m)
    ensures forall t :: t in due ==> base + m <= due[t]
  {
    forall t | t in due ensures base + m <= due[t] {
      var none: seq<Entry> := [];
      assert Members(none) == {};
      if due[t] < base + m {
        InWindow(due, t, base, m);
      }
    }
  }

  /** Nothing is listed if the present list is empty and nothing is due in the next epoch. */
  lemma NoneLater(ovf: seq<Entry>, due: map<Owner, nat>, base: nat, m: nat)
    requires Match([], ovf, due, base, m) && forall t :: t in due ==> due[t] < base + m
    ensures ovf == []
  {
    assert Members(ovf) == Window(due, base + m, m) == {};
    NoMembers(ovf);
  }

  /** Taking the head off the present list. */
  lemma TakeHeadMatches(cur: seq<Entry>, ovf: seq<Entry>, due: map<Owner, nat>, base: nat, m: nat)
    requires Match(cur, ovf, due, base, m) && cur != []
    ensures Match(cur[1..], ovf, due - {cur[0].owner}, base, m)
  {
    hide Match, Without;
    HeadIsEarliest(cur, ovf, due, base, m);
    var t := cur[0].owner;
    WithoutMatches(cur, ovf, due, base, m, t);
    assert Entry(t, due[t] - base) == cur[0];
  }

  /** The place of an owner's entry, or the length of the list. */
  function Find(l: seq<Entry>, t: Owner): (i: nat)
    ensures i <= |l| && (i < |l| ==> l[i].owner == t)
    ensures forall k :: 0 <= k < i ==> l[k].owner != t
  {
    if l == [] || l[0].owner == t then 0 else
      assert forall k :: 0 <= k < |l[1..]| ==> l[1..][k] == l[k + 1];
      1 + Find(l[1..], t)
  }

  /** An owner is found in the list of the epoch in which it is due, and in no other. */
  lemma FindMatches(cur: seq<Entry>, ovf: seq<Entry>, due: map<Owner, nat>, base: nat, m: nat, t: Owner)
    requires Match(cur, ovf, due, base, m)
    ensures var i, j := Find(cur, t), Find(ovf, t);
            && (i < |cur| <==> t in due && due[t] < base + m)
            && (j < |ovf| <==> t in due && base + m <= due[t])
            && (i < |cur| ==>
                  cur[i] == Entry(t, due[t] - base) && cur[i] in cur && RemoveAt(cur, i) == Without(cur, cur[i]))
            && (j < |ovf| ==>
                  ovf[j] == Entry(t, due[t] - base - m) && ovf[j] in ovf
                  && RemoveAt(ovf, j) == Without(ovf, ovf[j]))
  {
    hide Ordered, Window, Members, Without, Find;
    FindInWindow(cur, due, base, m, t);
    FindInWindow(ovf, due, base + m, m, t);
  }

  lemma FindInWindow(l: seq<Entry>, due: map<Owner, nat>, lo: nat, m: nat, t: Owner)
    requires Ordered(l) && Members(l) == Window(due, lo, m)
    ensures var i := Find(l, t);
            if t in due && lo <= due[t] < lo + m then
              && i < |l| && l[i] == Entry(t, due[t] - lo)
              && l[i] in l && RemoveAt(l, i) == Without(l, l[i])
            else i == |l|
  {
    var i := Find(l, t);
    if i < |l| {
      assert l[i] in Members(l);
      NoDupIndex(l, i);
    }
    if t in due && lo <= due[t] < lo + m {
      InWindow(due, t, lo, m);
    }
  }
}
