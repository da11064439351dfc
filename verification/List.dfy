/** The intrusive doubly linked ring of list.c, at pointer level.  The ghost sequence of
    items is what the other modules see; every method is proved to do to it what the
    function of the same name in ListSpec says. */
module List {
  import opened ListSpec

  class ListItem {
    var xItemValue: nat
    var pxNext: ListItem?
    var pxPrevious: ListItem?
    var pxContainer: List?
    var pvOwner: nat

    /** vListInitialiseItem: the item is on no list. */
    constructor (value: nat, owner: nat)
      ensures xItemValue == value && pvOwner == owner && pxContainer == null
    {
      xItemValue, pvOwner := value, owner;
      pxNext, pxPrevious, pxContainer := null, null, null;
    }
  }

  /** Neighbours point at each other all the way round. */
  ghost predicate Linked(nodes: seq<ListItem>)
    reads nodes`pxNext, nodes`pxPrevious
  {
    && (forall i {:trigger nodes[i].pxNext} :: 0 <= i < |nodes| ==> nodes[i].pxNext == nodes[After(nodes, i)])
    && (forall i {:trigger nodes[i].pxPrevious} :: 0 <= i < |nodes| ==> nodes[i].pxPrevious == nodes[Before(nodes, i)])
  }

  /** All but the end marker name the list as their container. */
  ghost predicate Owned(nodes: seq<ListItem>, l: List)
    reads nodes`pxContainer, nodes`xItemValue
  {
    forall i :: 1 <= i < |nodes| ==> OwnedItem(nodes[i], l)
  }

  ghost predicate OwnedItem(x: ListItem, l: List)
    reads x`pxContainer, x`xItemValue
  {
    x.pxContainer == l && x.xItemValue <= l.portMAX_DELAY
  }

  lemma OwnedWith(nodes: seq<ListItem>, at: nat, x: ListItem, l: List)
    requires 0 < at <= |nodes| && Owned(nodes, l) && OwnedItem(x, l)
    ensures Owned(InsertAt(nodes, at, x), l)
  {
    hide OwnedItem;
    var t := InsertAt(nodes, at, x);
    forall k | 1 <= k < |t| ensures OwnedItem(t[k], l) {
      if k != at {
        assert t[k] == nodes[if k < at then k else k - 1];
        assert OwnedItem(nodes[if k < at then k else k - 1], l);
      }
    }
  }

  lemma OwnedWithout(nodes: seq<ListItem>, i: nat, l: List)
    requires 0 < i < |nodes| && forall k :: 1 <= k < |nodes| && k != i ==> OwnedItem(nodes[k], l)
    ensures Owned(RemoveAt(nodes, i), l)
  {
    hide OwnedItem;
    var t := RemoveAt(nodes, i);
    forall k | 1 <= k < |t| ensures OwnedItem(t[k], l) {
      assert t[k] == nodes[if k < i then k else k + 1];
      assert OwnedItem(nodes[if k < i then k else k + 1], l);
    }
  }

  ghost function After(nodes: seq<ListItem>, i: nat): (j: nat)
    requires i < |nodes|
    ensures j < |nodes|
  {
    if i + 1 == |nodes| then 0 else i + 1
  }

  ghost function Before(nodes: seq<ListItem>, i: nat): (j: nat)
    requires i < |nodes|
    ensures j < |nodes|
  {
    if i == 0 then |nodes| - 1 else i - 1
  }

  /** Linking x between the nodes at positions at - 1 and at keeps the ring linked. */
  lemma InsertKeepsLinked(nodes: seq<ListItem>, at: nat, x: ListItem)
    requires 0 < at <= |nodes|
    requires forall i {:trigger nodes[i].pxNext} ::
               0 <= i < |nodes| && i != at - 1 ==> nodes[i].pxNext == nodes[After(nodes, i)]
    requires forall i {:trigger nodes[i].pxPrevious} ::
               0 <= i < |nodes| && i != After(nodes, at - 1) ==> nodes[i].pxPrevious == nodes[Before(nodes, i)]
    requires nodes[at - 1].pxNext == x && x.pxPrevious == nodes[at - 1]
    requires nodes[After(nodes, at - 1)].pxPrevious == x && x.pxNext == nodes[After(nodes, at - 1)]
    ensures Linked(InsertAt(nodes, at, x))
  {
    var t := InsertAt(nodes, at, x);
    forall i {:trigger t[i].pxNext} | 0 <= i < |t| ensures t[i].pxNext == t[After(t, i)] {
      if i < at {
        assert t[i] == nodes[i];
      } else if at < i {
        assert t[i] == nodes[i - 1];
      }
    }
    forall i {:trigger t[i].pxPrevious} | 0 <= i < |t| ensures t[i].pxPrevious == t[Before(t, i)] {
      if i < at {
        assert t[i] == nodes[i];
      } else if at < i {
        assert t[i] == nodes[i - 1];
      }
    }
  }

  /** Bypassing the node at position i keeps the others linked. */
  lemma RemoveKeepsLinked(nodes: seq<ListItem>, i: nat)
    requires 0 < i < |nodes|
    requires forall k {:trigger nodes[k].pxNext} ::
               0 <= k < |nodes| && k != i - 1 && k != i ==> nodes[k].pxNext == nodes[After(nodes, k)]
    requires forall k {:trigger nodes[k].pxPrevious} ::
               0 <= k < |nodes| && k != After(nodes, i) && k != i ==> nodes[k].pxPrevious == nodes[Before(nodes, k)]
    requires nodes[i - 1].pxNext == nodes[After(nodes, i)] && nodes[After(nodes, i)].pxPrevious == nodes[i - 1]
    ensures Linked(RemoveAt(nodes, i))
  {
    var t := RemoveAt(nodes, i);
    forall k {:trigger t[k].pxNext} | 0 <= k < |t| ensures t[k].pxNext == t[After(t, k)] {
      assert t[k] == nodes[if k < i then k else k + 1];
    }
    forall k {:trigger t[k].pxPrevious} | 0 <= k < |t| ensures t[k].pxPrevious == t[Before(t, k)] {
      assert t[k] == nodes[if k < i then k else k + 1];
    }
  }

  /** The writes that put x between two neighbours of a list's ring. */
  method Splice(pxList: List, pred: ListItem, x: ListItem, succ: ListItem,
                ghost nodes: seq<ListItem>, ghost at: nat)
    requires Linked(nodes) && NoDup(nodes) && x !in nodes && 0 < at <= |nodes|
    requires pred == nodes[at - 1] && succ == nodes[After(nodes, at - 1)]
    modifies pred`pxNext, succ`pxPrevious, x`pxNext, x`pxPrevious, x`pxContainer
    ensures Linked(InsertAt(nodes, at, x)) && x.pxContainer == pxList
  {
    x.pxNext := succ;
    x.pxPrevious := pred;
    succ.pxPrevious := x;
    pred.pxNext := x;
    x.pxContainer := pxList;
    forall i | 0 <= i < |nodes| && i != at - 1 ensures nodes[i] != pred {
      assert if i < at - 1 then Differ(nodes, i, at - 1) else Differ(nodes, at - 1, i);
    }
    forall i | 0 <= i < |nodes| && i != After(nodes, at - 1) ensures nodes[i] != succ {
      var k := After(nodes, at - 1);
      assert if i < k then Differ(nodes, i, k) else Differ(nodes, k, i);
    }
    InsertKeepsLinked(nodes, at, x);
  }

  /** The two writes that take the node at position i out of a ring. */
  method Unsplice(x: ListItem, pred: ListItem, succ: ListItem, ghost nodes: seq<ListItem>, ghost i: nat)
    requires Linked(nodes) && NoDup(nodes) && 0 < i < |nodes| && x == nodes[i]
    requires pred == x.pxPrevious && succ == x.pxNext
    modifies pred`pxNext, succ`pxPrevious, x`pxContainer
    ensures Linked(RemoveAt(nodes, i)) && x.pxContainer == null
  {
    assert x.pxNext == nodes[After(nodes, i)] && x.pxPrevious == nodes[i - 1];
    succ.pxPrevious := pred;
    pred.pxNext := succ;
    x.pxContainer := null;
    forall k | 0 <= k < |nodes| && k != i - 1 ensures nodes[k] != pred {
      assert if k < i - 1 then Differ(nodes, k, i - 1) else Differ(nodes, i - 1, k);
    }
    forall k | 0 <= k < |nodes| && k != After(nodes, i) ensures nodes[k] != succ {
      var j := After(nodes, i);
      assert if k < j then Differ(nodes, k, j) else Differ(nodes, j, k);
    }
    RemoveKeepsLinked(nodes, i);
  }

  lemma JoinedNodes<T>(nodes: seq<T>, at: nat, x: T, index: nat)
    requires 0 < at <= |nodes| && index < |nodes| && NoDup(nodes) && x !in nodes
    ensures var t := InsertAt(nodes, at, x);
            && NoDup(t) && |t| == |nodes| + 1 && t[0] == nodes[0]
            && t[if at <= index then index + 1 else index] == nodes[index]
  {
    InsertAtMembers(nodes, at, x);
  }

  lemma LeftNodes<T>(nodes: seq<T>, i: nat)
    requires 0 < i < |nodes| && NoDup(nodes)
    ensures NoDup(RemoveAt(nodes, i)) && RemoveAt(nodes, i)[0] == nodes[0]
  {
    RemoveAtMembers(nodes, i);
  }

  lemma TailOfInsert<T>(nodes: seq<T>, p: nat, x: T)
    requires p < |nodes|
    ensures InsertAt(nodes, p + 1, x)[1..] == InsertAt(nodes[1..], p, x)
  {
  }

  lemma TailOfRemove<T>(nodes: seq<T>, i: nat)
    requires i + 1 < |nodes|
    ensures RemoveAt(nodes, i + 1)[1..] == RemoveAt(nodes[1..], i)
  {
  }

  class List {
    const portMAX_DELAY: nat
    const xListEnd: ListItem
    var uxNumberOfItems: nat
    var pxIndex: ListItem
    /** The ring: the end marker, then the items. */
    ghost var nodes: seq<ListItem>
    ghost var index: nat

    ghost predicate Valid()
      reads this, xListEnd, nodes
    {
      && uxNumberOfItems + 1 == |nodes| && nodes[0] == xListEnd
      && NoDup(nodes)
      && Linked(nodes)
      && index < |nodes| && pxIndex == nodes[index]
      && xListEnd.xItemValue == portMAX_DELAY && xListEnd.pxContainer == null
      && Owned(nodes, this)
    }

    ghost function Items(): seq<ListItem>
      requires nodes != []
      reads this
    {
      nodes[1..]
    }

    /** The list as a value. */
    ghost function View(): Ring<ListItem>
      requires nodes != []
      reads this
    {
      Ring(Items(), index)
    }

    ghost function Values(): (v: seq<nat>)
      requires nodes != []
      reads this, nodes
      ensures |v| == |nodes| - 1 && forall i :: 0 <= i < |v| ==> v[i] == nodes[i + 1].xItemValue
    {
      ValuesFrom(1)
    }

    ghost function ValuesFrom(k: nat): (v: seq<nat>)
      requires k <= |nodes|
      reads this, nodes
      ensures |v| == |nodes| - k && forall i :: 0 <= i < |v| ==> v[i] == nodes[k + i].xItemValue
      decreases |nodes| - k
    {
      if k == |nodes| then [] else [nodes[k].xItemValue] + ValuesFrom(k + 1)
    }

    /** vListInitialise */
    constructor (maxDelay: nat)
      ensures Valid() && Items() == [] && index == 0 && portMAX_DELAY == maxDelay
      ensures fresh(xListEnd)
    {
      portMAX_DELAY := maxDelay;
      var end := new ListItem(maxDelay, 0);
      xListEnd := end;
      pxIndex := end;
      uxNumberOfItems, nodes, index := 0, [end], 0;
      new;
      xListEnd.pxNext := xListEnd;
      xListEnd.pxPrevious := xListEnd;
    }

    /** vListInsertEnd: in front of the item under pxIndex. */
    method InsertEnd(pxNewListItem: ListItem)
      requires Valid()
      requires pxNewListItem.pxContainer == null && pxNewListItem != xListEnd
      requires pxNewListItem.xItemValue <= portMAX_DELAY
      modifies this, nodes`pxNext, nodes`pxPrevious
      modifies pxNewListItem`pxNext, pxNewListItem`pxPrevious, pxNewListItem`pxContainer
      ensures Valid()
      ensures View() == ListSpec.InsertEnd(old(View()), pxNewListItem)
    {
      ghost var at := if index == 0 then |nodes| else index;
      Join(pxIndex.pxPrevious, pxNewListItem, pxIndex, at);
      TailOfInsert(old(nodes), at - 1, pxNewListItem);
      if old(index) == 0 {
        assert InsertAt(old(Items()), at - 1, pxNewListItem) == old(Items()) + [pxNewListItem];
      }
    }

    /** vListInsert: walk to the first larger value, or to the end for portMAX_DELAY. */
    method Insert(pxNewListItem: ListItem)
      requires Valid()
      requires pxNewListItem.pxContainer == null && pxNewListItem != xListEnd
      requires pxNewListItem.xItemValue <= portMAX_DELAY
      modifies this, nodes`pxNext, nodes`pxPrevious
      modifies pxNewListItem`pxNext, pxNewListItem`pxPrevious, pxNewListItem`pxContainer
      ensures Valid()
      ensures var p := InsertPos(old(Values()), pxNewListItem.xItemValue);
              && Items() == InsertAt(old(Items()), p, pxNewListItem)
              && index == if p < old(index) then old(index) + 1 else old(index)
    {
      var xValueOfInsertion := pxNewListItem.xItemValue;
      ghost var p := InsertPos(Values(), xValueOfInsertion);
      var pxIterator;
      if xValueOfInsertion == portMAX_DELAY {
        pxIterator := xListEnd.pxPrevious;
        assert p == |nodes| - 1;
      } else {
        pxIterator := xListEnd;
        ghost var at := 0;
        assert forall k :: 1 <= k <= p ==> nodes[k].xItemValue == Values()[k - 1] <= xValueOfInsertion;
        while pxIterator.pxNext.xItemValue <= xValueOfInsertion
          invariant 0 <= at <= p && pxIterator == nodes[at] && pxIterator.pxNext == nodes[After(nodes, at)]
          decreases p - at
        {
          pxIterator := pxIterator.pxNext;
          at := at + 1;
          assert pxIterator == nodes[at] && nodes[at].pxNext == nodes[After(nodes, at)];
        }
        assert at == p;
      }
      Join(pxIterator, pxNewListItem, pxIterator.pxNext, p + 1);
      TailOfInsert(old(nodes), p, pxNewListItem);
    }

    lemma OnNoList(x: ListItem)
      requires Valid() && x.pxContainer == null && x != xListEnd
      ensures x !in nodes
    {
      hide Linked, NoDup;
    }

    /** The writes with which vListInsert and vListInsertEnd put x between two neighbours. */
    method Join(pred: ListItem, x: ListItem, succ: ListItem, ghost at: nat)
      requires Valid() && x.pxContainer == null && x != xListEnd && x.xItemValue <= portMAX_DELAY
      requires 0 < at <= |nodes| && pred == nodes[at - 1] && succ == nodes[After(nodes, at - 1)]
      modifies this, pred`pxNext, succ`pxPrevious, x`pxNext, x`pxPrevious, x`pxContainer
      ensures Valid()
      ensures nodes == InsertAt(old(nodes), at, x)
      ensures index == if at <= old(index) then old(index) + 1 else old(index)
    {
      OnNoList(x);
      hide Linked, NoDup, Owned, InsertAt;
      JoinedNodes(nodes, at, x, index);
      Splice(this, pred, x, succ, nodes, at);
      uxNumberOfItems := uxNumberOfItems + 1;
      OwnedWith(nodes, at, x, this);
      index := if at <= index then index + 1 else index;
      nodes := InsertAt(nodes, at, x);
    }

    /** The writes with which uxListRemove takes the node at position i out. */
    method Leave(x: ListItem, ghost i: nat)
      requires Valid() && 0 < i < |nodes| && x == nodes[i]
      modifies this, nodes`pxNext, nodes`pxPrevious, x`pxContainer
      ensures Valid() && x.pxContainer == null
      ensures nodes == RemoveAt(old(nodes), i)
      ensures index == if i <= old(index) then old(index) - 1 else old(index)
    {
      var pxPrevious, pxNext := x.pxPrevious, x.pxNext;
      assert pxPrevious == nodes[i - 1] && pxNext == nodes[After(nodes, i)];
      hide NoDup, RemoveAt;
      OnlyPlace(nodes, i);
      LeftNodes(nodes, i);
      Unsplice(x, pxPrevious, pxNext, nodes, i);
      if pxIndex == x {
        pxIndex := pxPrevious;
      }
      uxNumberOfItems := uxNumberOfItems - 1;
      index := if i <= index then index - 1 else index;
      OwnedWithout(nodes, i, this);
      nodes := RemoveAt(nodes, i);
    }

    /** listGET_OWNER_OF_NEXT_ENTRY: step on, over the end marker. */
    method GetOwnerOfNextEntry() returns (owner: nat)
      requires Valid() && Items() != []
      modifies this`pxIndex, this`index
      ensures Valid()
      ensures View() == NextEntry(old(View()))
      ensures owner == Selected(View()).pvOwner
    {
      assert pxIndex.pxNext == nodes[After(nodes, index)];
      assert nodes[0].pxNext == nodes[1];
      index := if index + 1 == |nodes| then 1 else index + 1;
      pxIndex := pxIndex.pxNext;
      if pxIndex == xListEnd {
        pxIndex := xListEnd.pxNext;
      }
      owner := pxIndex.pvOwner;
    }
  }

  /** uxListRemove: the item itself says which list it is on. */
  method ListRemove(pxItemToRemove: ListItem) returns (remaining: nat)
    requires pxItemToRemove.pxContainer != null
    requires pxItemToRemove.pxContainer.Valid() && pxItemToRemove in pxItemToRemove.pxContainer.Items()
    modifies pxItemToRemove.pxContainer, pxItemToRemove`pxContainer
    modifies pxItemToRemove.pxContainer.nodes`pxNext, pxItemToRemove.pxContainer.nodes`pxPrevious
    ensures pxItemToRemove.pxContainer == null
    ensures old(pxItemToRemove.pxContainer).Valid()
    ensures old(pxItemToRemove.pxContainer).View()
         == ListSpec.Remove(old(pxItemToRemove.pxContainer.View()), pxItemToRemove)
    ensures remaining == |old(pxItemToRemove.pxContainer).Items()|
  {
    var pxList := pxItemToRemove.pxContainer;
    ghost var i := IndexOf(pxList.Items(), pxItemToRemove);
    pxList.Leave(pxItemToRemove, i + 1);
    TailOfRemove(old(pxList.nodes), i);
    remaining := pxList.uxNumberOfItems;
  }
}
