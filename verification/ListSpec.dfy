/** The kernel's lists as values: what vListInsert, vListInsertEnd, uxListRemove and
    listGET_OWNER_OF_NEXT_ENTRY do to the order of the items.  Module List proves the
    pointer code against these functions; the scheduler and the timers are built on them. */
module ListSpec {

  /** Where vListInsert puts a value: in front of the first larger one. */
  function InsertPos(vals: seq<nat>, v: nat): (p: nat)
    ensures p <= |vals|
    ensures forall i :: 0 <= i < p ==> vals[i] <= v
    ensures p < |vals| ==> v < vals[p]
  {
    if vals == [] || v < vals[0] then 0 else 1 + InsertPos(vals[1..], v)
  }

  function InsertAt<T>(s: seq<T>, p: nat, x: T): seq<T>
    requires p <= |s|
  {
    s[..p] + [x] + s[p..]
  }

  ghost predicate Sorted(vals: seq<nat>) {
    forall i, j :: 0 <= i < j < |vals| ==> vals[i] <= vals[j]
  }

  /** No item twice.  The pairs are named so that a proof mentions the ones it needs. */
  ghost predicate NoDup<T>(s: seq<T>) {
    forall i, j {:trigger Differ(s, i, j)} :: 0 <= i < j < |s| ==> Differ(s, i, j)
  }

  ghost predicate Differ<T>(s: seq<T>, i: int, j: int)
    requires 0 <= i < |s| && 0 <= j < |s|
  {
    s[i] != s[j]
  }

  /** vListInsert keeps a sorted list sorted, and is stable: whatever was there with a
      value up to v stays in front of the new item, everything larger behind it. */
  lemma InsertIsStableAndSorted(vals: seq<nat>, v: nat)
    requires Sorted(vals)
    ensures var p := InsertPos(vals, v);
            && Sorted(InsertAt(vals, p, v))
            && (forall i :: 0 <= i < |vals| ==> (vals[i] <= v <==> i < p))
  {
    hide InsertPos, InsertAt;
    var p := InsertPos(vals, v);
    forall i | 0 <= i < |vals| ensures vals[i] <= v <==> i < p {
      if p < i { assert vals[p] <= vals[i]; }
    }
    InsertSorted(vals, p, v);
  }

  lemma InsertSorted(vals: seq<nat>, p: nat, v: nat)
    requires Sorted(vals) && p <= |vals| && forall i :: 0 <= i < |vals| ==> (vals[i] <= v <==> i < p)
    ensures Sorted(InsertAt(vals, p, v))
  {
    var t := InsertAt(vals, p, v);
    forall i | 0 <= i < |t| ensures t[i] == if i < p then vals[i] else if i == p then v else vals[i - 1] {
    }
  }

  /** A list together with its walking pointer: index 0 is the end marker, index k the
      item at position k - 1. */
  datatype Ring<T> = Ring(items: seq<T>, index: nat) {
    ghost predicate Valid() { NoDup(items) && index <= |items| }

    /** The items in the order in which later selections serve them. */
    function ServingOrder(): seq<T>
      requires index <= |items|
    {
      items[index..] + items[..index]
    }
  }

  function InsertEnd<T>(r: Ring<T>, x: T): Ring<T>
    requires r.index <= |r.items|
  {
    if r.index == 0 then Ring(r.items + [x], 0)
    else Ring(InsertAt(r.items, r.index - 1, x), r.index + 1)
  }

  function IndexOf<T(==)>(s: seq<T>, x: T): (i: nat)
    requires x in s
    ensures i < |s| && s[i] == x
    ensures x !in s[..i]
  {
    if s[0] == x then 0 else
      assert forall k :: 0 <= k < |s[1..]| ==> s[1..][k] == s[k + 1];
      var i := IndexOf(s[1..], x);
      assert s[..i + 1] == [s[0]] + s[1..][..i];
      i + 1
  }

  function RemoveAt<T>(s: seq<T>, i: nat): (r: seq<T>)
    requires i < |s|
    ensures |r| == |s| - 1
    ensures forall k :: 0 <= k < i ==> r[k] == s[k]
    ensures forall k :: i <= k < |r| ==> r[k] == s[k + 1]
  {
    s[..i] + s[i + 1..]
  }

  /** What is left of a list when an item has gone, and who is on a list. */
  function Without<T(==)>(s: seq<T>, x: T): seq<T> {
    if x in s then RemoveAt(s, IndexOf(s, x)) else s
  }

  function Members<T(==)>(s: seq<T>): set<T> {
    set x | x in s
  }

  function Remove<T(==)>(r: Ring<T>, x: T): Ring<T>
    requires x in r.items && r.index <= |r.items|
  {
    var i := IndexOf(r.items, x);
    Ring(RemoveAt(r.items, i), if i < r.index then r.index - 1 else r.index)
  }

  function NextEntry<T>(r: Ring<T>): Ring<T>
    requires r.items != [] && r.index <= |r.items|
  {
    Ring(r.items, if r.index == |r.items| then 1 else r.index + 1)
  }

  /** The item listGET_OWNER_OF_NEXT_ENTRY has just selected. */
  function Selected<T>(r: Ring<T>): T
    requires 0 < r.index <= |r.items|
  {
    r.items[r.index - 1]
  }

  /** NextEntry serves the front of the serving order and sends it to the back. */
  lemma NextEntryRotates<T>(r: Ring<T>)
    requires r.items != [] && r.index <= |r.items|
    ensures var r' := NextEntry(r); var order := r.ServingOrder();
            && Selected(r') == order[0]
            && r'.ServingOrder() == order[1..] + [order[0]]
  {
    var order, n := r.ServingOrder(), |r.items|;
    if r.index == n {
      assert order == r.items;
    } else {
      assert order[1..] + [order[0]] == r.items[r.index + 1..] + r.items[..r.index + 1];
    }
  }

  /** The j-th of a run of selections. */
  function Advance<T>(r: Ring<T>, j: nat): (s: Ring<T>)
    requires r.items != [] && r.index <= |r.items|
    ensures s.items == r.items && s.index <= |s.items|
    ensures j > 0 ==> s.index > 0
  {
    if j == 0 then r else NextEntry(Advance(r, j - 1))
  }

  lemma {:induction false} AdvanceRotates<T>(r: Ring<T>, j: nat)
    requires r.items != [] && r.index <= |r.items| && j <= |r.items|
    ensures var order := r.ServingOrder();
            && Advance(r, j).ServingOrder() == order[j..] + order[..j]
            && (j > 0 ==> Selected(Advance(r, j)) == order[j - 1])
  {
    var order := r.ServingOrder();
    if j == 0 {
      assert order[0..] + order[..0] == order;
    } else {
      AdvanceRotates(r, j - 1);
      var before := Advance(r, j - 1);
      NextEntryRotates(before);
      RotateOnce(order, j - 1);
      hide Ring<T>.ServingOrder, NextEntry;
    }
  }

  lemma RotateOnce<T>(s: seq<T>, j: nat)
    requires j < |s|
    ensures var o := s[j..] + s[..j];
            o[0] == s[j] && o[1..] + [o[0]] == s[j + 1..] + s[..j + 1]
  {
  }

  /** The serving order lists each item once. */
  lemma ServingOrderNoDup<T>(r: Ring<T>)
    requires r.Valid()
    ensures |r.ServingOrder()| == |r.items|
    ensures NoDup(r.ServingOrder())
  {
    var order, k, n := r.ServingOrder(), r.index, |r.items|;
    forall a, b | 0 <= a < b < n ensures Differ(order, a, b) {
      var i, j := if a + k < n then a + k else a + k - n, if b + k < n then b + k else b + k - n;
      assert order[a] == r.items[i] && order[b] == r.items[j];
      assert if i < j then Differ(r.items, i, j) else Differ(r.items, j, i);
    }
  }

  lemma ServingPlace<T>(r: Ring<T>, x: T) returns (j: nat)
    requires r.Valid() && x in r.items
    ensures j < |r.items| && r.ServingOrder()[j] == x
    ensures var i := IndexOf(r.items, x);
            j == if r.index <= i then i - r.index else i + |r.items| - r.index
  {
    var i := IndexOf(r.items, x);
    j := if r.index <= i then i - r.index else i + |r.items| - r.index;
  }

  /** Round robin: over a fixed list of n items, n successive selections serve every
      item exactly once, and the n-th selection leaves the serving order as it was. */
  lemma RoundRobinIsFair<T>(r: Ring<T>, x: T)
    requires r.Valid() && x in r.items
    ensures Advance(r, |r.items|).ServingOrder() == r.ServingOrder()
    ensures exists j :: 0 < j <= |r.items| && Selected(Advance(r, j)) == x
    ensures forall j, k :: 0 < j < k <= |r.items| ==> Selected(Advance(r, j)) != Selected(Advance(r, k))
  {
    var order, n := r.ServingOrder(), |r.items|;
    AdvanceRotates(r, n);
    assert order[n..] + order[..n] == order;
    var place := ServingPlace(r, x);
    AdvanceRotates(r, place + 1);
    assert Selected(Advance(r, place + 1)) == x;
    ServingOrderNoDup(r);
    forall j, k | 0 < j < k <= n
      ensures Selected(Advance(r, j)) != Selected(Advance(r, k))
    {
      AdvanceRotates(r, j);
      AdvanceRotates(r, k);
      assert Differ(order, j - 1, k - 1);
    }
  }

  /** vListInsertEnd puts the new item last in the serving order, or last but one when
      the walking pointer rests on an item: every item but that one is served first. */
  lemma InsertEndServesLast<T>(r: Ring<T>, x: T)
    requires r.index <= |r.items|
    ensures var order := r.ServingOrder(); var n := |order|;
            InsertEnd(r, x).ServingOrder() ==
              if r.index == 0 then order + [x] else order[..n - 1] + [x] + [order[n - 1]]
  {
    var order := r.ServingOrder();
    var n := |order|;
    if r.index != 0 {
      var k := r.index;
      assert InsertEnd(r, x).items[k + 1..] == r.items[k..];
      assert order[n - 1] == r.items[k - 1];
      assert order[..n - 1] == r.items[k..] + r.items[..k - 1];
    }
  }

  lemma RotateRemove<T>(s: seq<T>, k: nat, i: nat)
    requires k <= |s| && i < |s|
    ensures var t := RemoveAt(s, i);
            if k <= i then t[k..] + t[..k] == RemoveAt(s[k..] + s[..k], i - k)
            else t[k - 1..] + t[..k - 1] == RemoveAt(s[k..] + s[..k], i + |s| - k)
  {
    var t := RemoveAt(s, i);
    if k <= i {
      assert t[k..] == s[k..i] + s[i + 1..];
      assert t[..k] == s[..k];
      assert RemoveAt(s[k..] + s[..k], i - k) == s[k..i] + s[i + 1..] + s[..k];
    } else {
      assert t[k - 1..] == s[k..];
      assert t[..k - 1] == s[..i] + s[i + 1..k];
      assert RemoveAt(s[k..] + s[..k], i + |s| - k) == s[k..] + (s[..i] + s[i + 1..k]);
    }
  }

  lemma ServingIndex<T>(r: Ring<T>, x: T)
    requires r.Valid() && x in r.items
    ensures x in r.ServingOrder()
    ensures var i := IndexOf(r.items, x);
            IndexOf(r.ServingOrder(), x) == if r.index <= i then i - r.index else i + |r.items| - r.index
  {
    var j := ServingPlace(r, x);
    ServingOrderNoDup(r);
    hide NoDup;
    NoDupIndex(r.ServingOrder(), j);
  }

  lemma RemoveIsValid<T>(r: Ring<T>, x: T)
    requires r.Valid() && x in r.items
    ensures Remove(r, x).Valid()
  {
    RemoveAtMembers(r.items, IndexOf(r.items, x));
  }

  /** Removing an item, even the one under the walking pointer, leaves the others in the
      same serving order. */
  lemma RemoveKeepsServingOrder<T>(r: Ring<T>, x: T)
    requires r.Valid() && x in r.items
    ensures x in r.ServingOrder()
    ensures Remove(r, x).Valid()
    ensures Remove(r, x).ServingOrder() == RemoveAt(r.ServingOrder(), IndexOf(r.ServingOrder(), x))
  {
    hide NoDup, IndexOf, RemoveAt;
    RemoveIsValid(r, x);
    ServingIndex(r, x);
    RotateRemove(r.items, r.index, IndexOf(r.items, x));
  }

  /** Membership after the three list updates, for clients that only care who is on a list. */
  lemma InsertAtMembers<T>(s: seq<T>, p: nat, x: T)
    requires p <= |s|
    ensures forall y :: y in InsertAt(s, p, x) <==> y in s || y == x
    ensures NoDup(s) && x !in s ==> NoDup(InsertAt(s, p, x))
  {
    var t := InsertAt(s, p, x);
    forall y | y in s ensures y in t {
      var i :| 0 <= i < |s| && s[i] == y;
      assert t[if i < p then i else i + 1] == y;
    }
    assert t[p] == x;
    if NoDup(s) && x !in s {
      forall a, b | 0 <= a < b < |t| ensures Differ(t, a, b) {
        var i, j := if a < p then a else a - 1, if b < p then b else b - 1;
        if a != p && b != p {
          assert t[a] == s[i] && t[b] == s[j] && Differ(s, i, j);
        } else {
          assert t[a] == if a == p then x else s[i];
          assert t[b] == if b == p then x else s[j];
        }
      }
    }
  }

  lemma RemoveAtMembers<T>(s: seq<T>, i: nat)
    requires i < |s| && NoDup(s)
    ensures forall y :: y in RemoveAt(s, i) <==> y in s && y != s[i]
    ensures NoDup(RemoveAt(s, i))
  {
    var t := RemoveAt(s, i);
    forall y | y in s && y != s[i] ensures y in t {
      var k :| 0 <= k < |s| && s[k] == y;
      assert t[if k < i then k else k - 1] == y;
    }
    forall y | y in t ensures y in s && y != s[i] {
      var k :| 0 <= k < |t| && t[k] == y;
      assert if k < i then Differ(s, k, i) else Differ(s, i, k + 1);
    }
    forall a, b | 0 <= a < b < |t| ensures Differ(t, a, b) {
      assert Differ(s, if a < i then a else a + 1, if b < i then b else b + 1);
    }
  }

  lemma NoMembers<T>(s: seq<T>)
    ensures Members(s) == {} <==> s == []
  {
    if s != [] { assert s[0] in Members(s); }
  }

  lemma WithoutFirst<T>(s: seq<T>)
    requires s != []
    ensures s[0] in s && Without(s, s[0]) == s[1..]
  {
  }

  lemma {:induction false} FirstPlace<T>(s: seq<T>, p: nat, x: T)
    requires p < |s| && s[p] == x && forall k :: 0 <= k < p ==> s[k] != x
    ensures x in s && IndexOf(s, x) == p
  {
    if p > 0 {
      FirstPlace(s[1..], p - 1, x);
    }
  }

  lemma WithoutInserted<T>(s: seq<T>, p: nat, x: T)
    requires p <= |s| && x !in s
    ensures Without(InsertAt(s, p, x), x) == s
  {
    hide IndexOf;
    var t := InsertAt(s, p, x);
    FirstPlace(t, p, x);
    assert RemoveAt(t, p) == s;
  }

  lemma OnlyPlace<T>(s: seq<T>, i: nat)
    requires NoDup(s) && i < |s|
    ensures forall k :: 0 <= k < |s| && k != i ==> s[k] != s[i]
  {
    forall k | 0 <= k < |s| && k != i ensures s[k] != s[i] {
      assert if k < i then Differ(s, k, i) else Differ(s, i, k);
    }
  }

  /** In a list without duplicates an item is found at its only place. */
  lemma NoDupIndex<T>(s: seq<T>, i: nat)
    requires NoDup(s) && i < |s|
    ensures IndexOf(s, s[i]) == i
  {
    var k := IndexOf(s, s[i]);
    assert k != i ==> Differ(s, if k < i then k else i, if k < i then i else k);
  }

  lemma AppendMembers<T>(s: seq<T>, x: T)
    ensures forall y :: y in s + [x] <==> y in s || y == x
    ensures NoDup(s) && x !in s ==> NoDup(s + [x])
  {
    InsertAtMembers(s, |s|, x);
    assert InsertAt(s, |s|, x) == s + [x];
  }
}
