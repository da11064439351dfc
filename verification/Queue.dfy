/** Queue_t: the circular storage, the item count, the lock counts and the two event lists.
    Each method is one critical section of queue.c.  To its user the storage is a bounded
    double-ended queue; towards the tasks it follows QueueProtocol. */
module Queue {
  import opened Arithmetic
  import opened ListSpec
  import P = QueueProtocol

  type Task = P.Task

  datatype Position = SendToBack | SendToFront | Overwrite

  /** errQUEUE_FULL and errQUEUE_EMPTY are the two ways to come back empty-handed. */
  datatype Status = Pass | Fail

  /** What posting at a position does to the items. */
  function Post<T>(items: seq<T>, x: T, position: Position): seq<T> {
    match position
    case SendToBack => items + [x]
    case SendToFront => [x] + items
    case Overwrite => [x]
  }

  // ----- what the users of a queue see, over any sequence of calls

  datatype Call<T> = Posting(x: T, position: Position) | Receiving

  /** The items, and everything that posts have put in and receives have taken out. */
  datatype History<T> = History(items: seq<T>, accepted: seq<T>, received: seq<T>)

  function CallOn<T>(h: History<T>, length: nat, c: Call<T>): History<T> {
    match c
    case Posting(x, position) =>
      if |h.items| < length || position == Overwrite
      then History(Post(h.items, x, position), h.accepted + [x], h.received) else h
    case Receiving =>
      if h.items != [] then History(h.items[1..], h.accepted, h.received + [h.items[0]]) else h
  }

  function Calls<T>(items: seq<T>, length: nat, calls: seq<Call<T>>): History<T> {
    if calls == [] then History(items, [], [])
    else
      CallOn(Calls(items, length, calls[..|calls| - 1]), length, calls[|calls| - 1])
  }

  /** Posting to the back only, the items come out in the order in which they went in; nothing
      is lost, invented or repeated, and there are never more than fit. */
  lemma {:induction false} FirstInFirstOut<T>(items: seq<T>, length: nat, calls: seq<Call<T>>)
    requires |items| <= length
    requires forall c :: c in calls && c.Posting? ==> c.position == SendToBack
    ensures var h := Calls(items, length, calls); h.received + h.items == items + h.accepted && |h.items| <= length
    decreases |calls|
  {
    if calls != [] {
      var front, last := calls[..|calls| - 1], calls[|calls| - 1];
      FirstInFirstOut(items, length, front);
      var h := Calls(items, length, front);
      if last.Posting? {
        assert h.received + (h.items + [last.x]) == (h.received + h.items) + [last.x];
        assert items + (h.accepted + [last.x]) == (items + h.accepted) + [last.x];
      } else if h.items != [] {
        assert (h.received + [h.items[0]]) + h.items[1..] == h.received + h.items;
      }
    }
  }

  function Copies<T(==)>(s: seq<T>, x: T): nat {
    multiset(s)[x]
  }

  /** Posting to either end still conserves the items: each comes out or is still there as
      often as it was there or has gone in. */
  lemma {:induction false} NothingIsLost<T>(items: seq<T>, length: nat, calls: seq<Call<T>>, x: T)
    requires |items| <= length
    requires forall c :: c in calls && c.Posting? ==> c.position != Overwrite
    ensures var h := Calls(items, length, calls);
            Copies(h.received, x) + Copies(h.items, x) == Copies(items, x) + Copies(h.accepted, x)
              && |h.items| <= length
    decreases |calls|
  {
    if calls != [] {
      var front, last := calls[..|calls| - 1], calls[|calls| - 1];
      NothingIsLost(items, length, front, x);
      hide Copies;
      CallConserves(Calls(items, length, front), length, last, x);
    }
  }

  lemma CallConserves<T>(h: History<T>, length: nat, c: Call<T>, x: T)
    requires |h.items| <= length && (c.Posting? ==> c.position != Overwrite)
    ensures var r := CallOn(h, length, c);
            && |r.items| <= length
            && Copies(r.received, x) + Copies(r.items, x) + Copies(h.accepted, x)
               == Copies(h.received, x) + Copies(h.items, x) + Copies(r.accepted, x)
  {
    if c.Receiving? && h.items != [] {
      assert h.items == [h.items[0]] + h.items[1..];
    }
  }

  /** Of the items that posts alone have put in, those posted to the front come first, the
      latest of them at the head, and those posted to the back last, the latest at the end. */
  function Fronts<T>(posts: seq<Call<T>>): seq<T> {
    if posts == [] then []
    else
      var c, before := posts[|posts| - 1], Fronts(posts[..|posts| - 1]);
      if c.Posting? && c.position == SendToFront then [c.x] + before else before
  }

  function Backs<T>(posts: seq<Call<T>>): seq<T> {
    if posts == [] then []
    else
      var c, before := posts[|posts| - 1], Backs(posts[..|posts| - 1]);
      if c.Posting? && c.position == SendToBack then before + [c.x] else before
  }

  lemma {:induction false} PostsAtBothEnds<T>(items: seq<T>, length: nat, posts: seq<Call<T>>)
    requires |items| + |posts| <= length
    requires forall c :: c in posts ==> c.Posting? && c.position != Overwrite
    ensures var h := Calls(items, length, posts);
            h.items == Fronts(posts) + items + Backs(posts) && h.received == [] && |h.items| == |items| + |posts|
    decreases |posts|
  {
    if posts != [] {
      var before, c := posts[..|posts| - 1], posts[|posts| - 1];
      assert c in posts;
      PostsAtBothEnds(items, length, before);
      var f, b := Fronts(before), Backs(before);
      assert [c.x] + (f + items + b) == ([c.x] + f) + items + b;
      assert f + items + b + [c.x] == f + items + (b + [c.x]);
    }
  }

  /** And n receives take the first n items, in order. */
  lemma {:induction false} ReceivesTakeTheFirst<T>(items: seq<T>, length: nat, n: nat)
    requires n <= |items|
    ensures Calls(items, length, seq(n, _ => Receiving)) == History(items[n..], [], items[..n])
  {
    var calls: seq<Call<T>> := seq(n, _ => Receiving);
    if n > 0 {
      assert calls[..n - 1] == seq(n - 1, _ => Receiving);
      ReceivesTakeTheFirst(items, length, n - 1);
      assert items[..n - 1] + [items[n - 1]] == items[..n];
    }
  }

  /** A mailbox: after an overwrite a queue of length one holds the new item alone, full or
      empty as it was before.  Posts that do not overwrite then fail, and the next receive
      gets that item; no older one comes out any more. */
  lemma {:induction false} MailboxHoldsTheLatest<T>(items: seq<T>, before: seq<Call<T>>, x: T, posts: seq<Call<T>>)
    requires |items| <= 1
    requires forall c :: c in posts ==> c.Posting? && c.position != Overwrite
    ensures var earlier, calls := Calls(items, 1, before), before + [Posting(x, Overwrite)] + posts;
            && Calls(items, 1, calls) == History([x], earlier.accepted + [x], earlier.received)
            && Calls(items, 1, calls + [Receiving]) == History([], earlier.accepted + [x], earlier.received + [x])
    decreases |posts|
  {
    var calls := before + [Posting(x, Overwrite)] + posts;
    if posts == [] {
      assert calls[..|calls| - 1] == before;
    } else {
      assert calls[..|calls| - 1] == before + [Posting(x, Overwrite)] + posts[..|posts| - 1];
      MailboxHoldsTheLatest(items, before, x, posts[..|posts| - 1]);
    }
    assert (calls + [Receiving])[..|calls|] == calls;
  }

  lemma OneCallMore<T>(items: seq<T>, length: nat, calls: seq<Call<T>>, i: nat)
    requires i < |calls|
    ensures Calls(items, length, calls[..i + 1]) == CallOn(Calls(items, length, calls[..i]), length, calls[i])
  {
    assert calls[..i + 1][..i] == calls[..i];
  }

  class Queue<T(0)> {
    const uxLength: nat
    const pcHead: array<T>
    var pcWriteTo: nat
    var pcReadFrom: nat
    var uxMessagesWaiting: nat
    var cRxLock: int
    var cTxLock: int
    var xTasksWaitingToSend: seq<Task>
    var xTasksWaitingToReceive: seq<Task>

    /** The slot k places behind pcReadFrom, going round. */
    function Slot(k: nat): (i: nat)
      requires k <= 2 * uxLength
      reads this
    {
      if pcReadFrom + k < uxLength then pcReadFrom + k
      else if pcReadFrom + k < 2 * uxLength then pcReadFrom + k - uxLength
      else pcReadFrom + k - 2 * uxLength
    }

    ghost predicate Valid()
      reads this
    {
      && 1 <= uxLength == pcHead.Length
      && pcReadFrom < uxLength && uxMessagesWaiting <= uxLength
      && pcWriteTo == Slot(1 + uxMessagesWaiting)
      && cTxLock >= P.UNLOCKED && cRxLock >= P.UNLOCKED
    }

    /** The queued items, next to be received first. */
    ghost function Contents(): (s: seq<T>)
      requires Valid()
      reads this, pcHead
      ensures |s| == uxMessagesWaiting
      ensures forall i :: 0 <= i < |s| ==> s[i] == pcHead[Slot(1 + i)]
    {
      seq(uxMessagesWaiting, i requires 0 <= i < uxMessagesWaiting && Valid() reads this, pcHead => pcHead[Slot(1 + i)])
    }

    /** The part the protocol is about. */
    function Core(): P.Core
      reads this
    {
      P.Core(uxLength, uxMessagesWaiting, cTxLock, cRxLock, xTasksWaitingToReceive, xTasksWaitingToSend)
    }

    /** xQueueGenericReset of a new queue. */
    constructor (length: nat)
      requires length >= 1
      ensures Valid() && fresh(pcHead) && uxLength == length
      ensures Contents() == []
      ensures Core() == P.Core(length, 0, P.UNLOCKED, P.UNLOCKED, [], [])
    {
      uxLength := length;
      pcHead := new T[length];
      pcWriteTo, pcReadFrom, uxMessagesWaiting := 0, length - 1, 0;
      cRxLock, cTxLock := P.UNLOCKED, P.UNLOCKED;
      xTasksWaitingToSend, xTasksWaitingToReceive := [], [];
    }

    /** xTaskRemoveFromEventList on the receivers, if there is one. */
    method WakeReceiver() returns (woken: seq<Task>)
      modifies this`xTasksWaitingToReceive
      ensures P.WakeReceiver(old(Core())) == P.Outcome(Core(), woken)
    {
      woken := [];
      if xTasksWaitingToReceive != [] {
        woken := [xTasksWaitingToReceive[0]];
        xTasksWaitingToReceive := xTasksWaitingToReceive[1..];
      }
    }

    method WakeSender() returns (woken: seq<Task>)
      modifies this`xTasksWaitingToSend
      ensures P.WakeSender(old(Core())) == P.Outcome(Core(), woken)
    {
      woken := [];
      if xTasksWaitingToSend != [] {
        woken := [xTasksWaitingToSend[0]];
        xTasksWaitingToSend := xTasksWaitingToSend[1..];
      }
    }

    /** prvCopyDataToQueue */
    method CopyDataToQueue(item: T, position: Position)
      requires Valid()
      requires uxMessagesWaiting < uxLength || position == Overwrite
      requires position == Overwrite ==> uxLength == 1
      modifies this`pcWriteTo, this`pcReadFrom, this`uxMessagesWaiting, pcHead
      ensures Valid()
      ensures Contents() == Post(old(Contents()), item, position)
      ensures Core() == P.Posted(old(Core()), position == Overwrite)
    {
      if position == SendToBack {
        CopyToBack(item);
      } else {
        CopyToFront(item, position == Overwrite);
      }
    }

    /** The queueSEND_TO_BACK branch of prvCopyDataToQueue. */
    method CopyToBack(item: T)
      requires Valid() && uxMessagesWaiting < uxLength
      modifies this`pcWriteTo, this`uxMessagesWaiting, pcHead
      ensures Valid()
      ensures Contents() == old(Contents()) + [item]
      ensures uxMessagesWaiting == old(uxMessagesWaiting) + 1
    {
      pcHead[pcWriteTo] := item;
      pcWriteTo := pcWriteTo + 1;
      if pcWriteTo >= uxLength {
        pcWriteTo := 0;
      }
      uxMessagesWaiting := uxMessagesWaiting + 1;
    }

    /** The other branch: queueSEND_TO_FRONT and queueOVERWRITE. */
    method CopyToFront(item: T, overwrite: bool)
      requires Valid()
      requires if overwrite then uxLength == 1 else uxMessagesWaiting < uxLength
      modifies this`pcReadFrom, this`uxMessagesWaiting, pcHead
      ensures Valid()
      ensures Contents() == if overwrite then [item] else [item] + old(Contents())
      ensures uxMessagesWaiting == if overwrite then 1 else old(uxMessagesWaiting) + 1
    {
      var messages := uxMessagesWaiting;
      pcHead[pcReadFrom] := item;
      if pcReadFrom == 0 {
        pcReadFrom := uxLength - 1;
      } else {
        pcReadFrom := pcReadFrom - 1;
      }
      if overwrite && messages > 0 {
        messages := messages - 1;
      }
      uxMessagesWaiting := messages + 1;
    }

    /** prvCopyDataFromQueue: the count is the caller's business. */
    method CopyDataFromQueue() returns (item: T)
      requires Valid() && uxMessagesWaiting > 0
      modifies this`pcReadFrom
      ensures pcReadFrom == old(Slot(1))
      ensures item == old(Contents())[0]
    {
      pcReadFrom := pcReadFrom + 1;
      if pcReadFrom >= uxLength {
        pcReadFrom := 0;
      }
      item := pcHead[pcReadFrom];
    }

    /** The first critical section of xQueueGenericSend. */
    method TrySend(item: T, position: Position) returns (status: Status, woken: seq<Task>)
      requires Valid() && (position == Overwrite ==> uxLength == 1)
      modifies this, pcHead
      ensures Valid()
      ensures status == Pass <==> P.HasRoom(old(Core()), position == Overwrite)
      ensures status == Pass ==>
                && Contents() == Post(old(Contents()), item, position)
                && P.Outcome(Core(), woken) == P.Send(old(Core()), position == Overwrite)
      ensures status == Fail ==> Contents() == old(Contents()) && Core() == old(Core()) && woken == []
    {
      if uxMessagesWaiting < uxLength || position == Overwrite {
        CopyDataToQueue(item, position);
        woken := WakeReceiver();
        status := Pass;
      } else {
        status, woken := Fail, [];
      }
    }

    /** After a post from an interrupt: a receiver is woken, or, under the lock,
        prvIncrementQueueTxLock counts the post. */
    method NotePost(lock: int, uxNumberOfTasks: nat) returns (woken: seq<Task>)
      requires Valid() && lock == cTxLock
      modifies this`cTxLock, this`xTasksWaitingToReceive
      ensures Valid() && Contents() == old(Contents())
      ensures P.Outcome(Core(), woken) ==
              if old(cTxLock) == P.UNLOCKED then P.WakeReceiver(old(Core()))
              else P.Outcome(old(Core()).(txLock := P.Increment(old(cTxLock), uxNumberOfTasks)), [])
    {
      woken := [];
      if lock == P.UNLOCKED {
        woken := WakeReceiver();
      } else if lock < uxNumberOfTasks {
        cTxLock := lock + 1;
      }
    }

    /** The same for a removal, with prvIncrementQueueRxLock. */
    method NoteRemoval(lock: int, uxNumberOfTasks: nat) returns (woken: seq<Task>)
      requires Valid() && lock == cRxLock
      modifies this`cRxLock, this`xTasksWaitingToSend
      ensures Valid() && Contents() == old(Contents())
      ensures P.Outcome(Core(), woken) ==
              if old(cRxLock) == P.UNLOCKED then P.WakeSender(old(Core()))
              else P.Outcome(old(Core()).(rxLock := P.Increment(old(cRxLock), uxNumberOfTasks)), [])
    {
      woken := [];
      if lock == P.UNLOCKED {
        woken := WakeSender();
      } else if lock < uxNumberOfTasks {
        cRxLock := lock + 1;
      }
    }

    /** xQueueGenericSendFromISR, and xQueueGiveFromISR for items without data. */
    method SendFromISR(item: T, position: Position, uxNumberOfTasks: nat) returns (status: Status, woken: seq<Task>)
      requires Valid() && (position == Overwrite ==> uxLength == 1)
      modifies this, pcHead
      ensures Valid()
      ensures status == Pass <==> P.HasRoom(old(Core()), position == Overwrite)
      ensures status == Pass ==>
                && Contents() == Post(old(Contents()), item, position)
                && P.Outcome(Core(), woken) == P.SendFromISR(old(Core()), position == Overwrite, uxNumberOfTasks)
      ensures status == Fail ==> Contents() == old(Contents()) && Core() == old(Core()) && woken == []
    {
      if uxMessagesWaiting < uxLength || position == Overwrite {
        var lock := cTxLock;
        CopyDataToQueue(item, position);
        woken := NotePost(lock, uxNumberOfTasks);
        status := Pass;
      } else {
        status, woken := Fail, [];
      }
    }

    /** The first critical section of xQueueReceive and of xQueueSemaphoreTake. */
    method TryReceive(none: T) returns (status: Status, item: T, woken: seq<Task>)
      requires Valid()
      modifies this
      ensures Valid()
      ensures status == Pass <==> old(uxMessagesWaiting) > 0
      ensures status == Pass ==>
                && old(Contents()) == [item] + Contents()
                && P.Outcome(Core(), woken) == P.Receive(old(Core()))
      ensures status == Fail ==> Contents() == old(Contents()) && Core() == old(Core()) && woken == []
    {
      if uxMessagesWaiting > 0 {
        item := CopyDataFromQueue();
        uxMessagesWaiting := uxMessagesWaiting - 1;
        woken := WakeSender();
        status := Pass;
      } else {
        status, item, woken := Fail, none, [];
      }
    }

    /** xQueueReceiveFromISR */
    method ReceiveFromISR(none: T, uxNumberOfTasks: nat) returns (status: Status, item: T, woken: seq<Task>)
      requires Valid()
      modifies this
      ensures Valid()
      ensures status == Pass <==> old(uxMessagesWaiting) > 0
      ensures status == Pass ==>
                && old(Contents()) == [item] + Contents()
                && P.Outcome(Core(), woken) == P.ReceiveFromISR(old(Core()), uxNumberOfTasks)
      ensures status == Fail ==> Contents() == old(Contents()) && Core() == old(Core()) && woken == []
    {
      if uxMessagesWaiting > 0 {
        var lock := cRxLock;
        item := CopyDataFromQueue();
        uxMessagesWaiting := uxMessagesWaiting - 1;
        woken := NoteRemoval(lock, uxNumberOfTasks);
        status := Pass;
      } else {
        status, item, woken := Fail, none, [];
      }
    }

    /** The first critical section of xQueuePeek: the read pointer is put back. */
    method TryPeek(none: T) returns (status: Status, item: T, woken: seq<Task>)
      requires Valid()
      modifies this
      ensures Valid() && Contents() == old(Contents())
      ensures status == Pass <==> uxMessagesWaiting > 0
      ensures status == Pass ==> item == Contents()[0] && P.Outcome(Core(), woken) == P.Peek(old(Core()))
      ensures status == Fail ==> Core() == old(Core()) && woken == []
    {
      if uxMessagesWaiting > 0 {
        var pcOriginalReadPosition := pcReadFrom;
        item := CopyDataFromQueue();
        pcReadFrom := pcOriginalReadPosition;
        woken := WakeReceiver();
        status := Pass;
      } else {
        status, item, woken := Fail, none, [];
      }
    }

    /** prvLockQueue */
    method Lock()
      requires Valid()
      modifies this`cRxLock, this`cTxLock
      ensures Valid() && Contents() == old(Contents())
      ensures Core() == P.Lock(old(Core()))
    {
      if cRxLock == P.UNLOCKED {
        cRxLock := P.LOCKED_UNMODIFIED;
      }
      if cTxLock == P.UNLOCKED {
        cTxLock := P.LOCKED_UNMODIFIED;
      }
    }

    /** The first half of prvUnlockQueue: one receiver per post, while there are any. */
    method UnlockTx() returns (woken: seq<Task>)
      requires Valid()
      modifies this`cTxLock, this`xTasksWaitingToReceive
      ensures Valid() && Contents() == old(Contents())
      ensures P.Outcome(Core(), woken) == P.UnlockTx(old(Core()))
      ensures cTxLock == P.UNLOCKED && old(xTasksWaitingToReceive) == woken + xTasksWaitingToReceive
      ensures |woken| == if old(cTxLock) > 0 then Min(old(cTxLock), |old(xTasksWaitingToReceive)|) else 0
    {
      var lock := cTxLock;
      woken := [];
      ghost var waiters := xTasksWaitingToReceive;
      while lock > P.LOCKED_UNMODIFIED
        invariant lock >= P.UNLOCKED && |woken| <= |waiters|
        invariant P.Count(lock) + |woken| == P.Count(old(cTxLock))
        invariant woken == waiters[..|woken|] && xTasksWaitingToReceive == waiters[|woken|..]
        decreases lock
      {
        if xTasksWaitingToReceive == [] {
          break;
        }
        woken := woken + [xTasksWaitingToReceive[0]];
        xTasksWaitingToReceive := xTasksWaitingToReceive[1..];
        lock := lock - 1;
      }
      cTxLock := P.UNLOCKED;
    }

    /** The second half, for the senders. */
    method UnlockRx() returns (woken: seq<Task>)
      requires Valid()
      modifies this`cRxLock, this`xTasksWaitingToSend
      ensures Valid() && Contents() == old(Contents())
      ensures P.Outcome(Core(), woken) == P.UnlockRx(old(Core()))
      ensures cRxLock == P.UNLOCKED && old(xTasksWaitingToSend) == woken + xTasksWaitingToSend
      ensures |woken| == if old(cRxLock) > 0 then Min(old(cRxLock), |old(xTasksWaitingToSend)|) else 0
    {
      var lock := cRxLock;
      woken := [];
      ghost var waiters := xTasksWaitingToSend;
      while lock > P.LOCKED_UNMODIFIED
        invariant lock >= P.UNLOCKED && |woken| <= |waiters|
        invariant P.Count(lock) + |woken| == P.Count(old(cRxLock))
        invariant woken == waiters[..|woken|] && xTasksWaitingToSend == waiters[|woken|..]
        decreases lock
      {
        if xTasksWaitingToSend == [] {
          break;
        }
        woken := woken + [xTasksWaitingToSend[0]];
        xTasksWaitingToSend := xTasksWaitingToSend[1..];
        lock := lock - 1;
      }
      cRxLock := P.UNLOCKED;
    }

    /** xQueueGenericReset of a queue in use. */
    method Reset() returns (woken: seq<Task>)
      requires Valid()
      modifies this
      ensures Valid() && Contents() == []
      ensures P.Outcome(Core(), woken) == P.Reset(old(Core()))
    {
      uxMessagesWaiting := 0;
      pcWriteTo := 0;
      pcReadFrom := uxLength - 1;
      cRxLock, cTxLock := P.UNLOCKED, P.UNLOCKED;
      woken := WakeSender();
    }
  }

  /** Any sequence of posts, at either end, and receives, on one queue: what is in it, what
      it has accepted and what has been received are those of the calls on a deque.  Posted
      to the back only, the items come out in the order in which they went in. */
  method RunCalls<T(0)>(q: Queue<T>, calls: seq<Call<T>>, none: T) returns (accepted: seq<T>, received: seq<T>)
    requires q.Valid()
    requires forall c :: c in calls && c.Posting? && c.position == Overwrite ==> q.uxLength == 1
    modifies q, q.pcHead
    ensures q.Valid()
    ensures History(q.Contents(), accepted, received) == Calls(old(q.Contents()), q.uxLength, calls)
    ensures (forall c :: c in calls && c.Posting? ==> c.position == SendToBack) ==>
              received + q.Contents() == old(q.Contents()) + accepted
  {
    ghost var items := q.Contents();
    accepted, received := [], [];
    for i := 0 to |calls|
      invariant q.Valid()
      invariant History(q.Contents(), accepted, received) == Calls(items, q.uxLength, calls[..i])
    {
      OneCallMore(items, q.uxLength, calls, i);
      hide Calls;
      assert calls[i] in calls;
      match calls[i] {
        case Posting(x, position) =>
          var status, _ := q.TrySend(x, position);
          if status == Pass {
            accepted := accepted + [x];
          }
        case Receiving =>
          var status, x, _ := q.TryReceive(none);
          if status == Pass {
            received := received + [x];
          }
      }
    }
    assert calls[..|calls|] == calls;
    if forall c :: c in calls && c.Posting? ==> c.position == SendToBack {
      FirstInFirstOut(items, q.uxLength, calls);
    }
  }
}
