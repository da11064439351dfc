/** vTaskSuspendAll and xTaskResumeAll: wake-ups and ticks that arrive while the scheduler is
    suspended are held back, and the outermost resume makes up for them. */
module Suspension {
  import opened ListSpec
  import opened TwoLists
  import opened Priorities
  import opened Scheduler
  import opened Ticks

  /** The tick interrupt, suspended or not; the answer is the request for a switch. */
  function Tick(s: Sched): (Sched, bool) {
    if s.depth == 0 then TickOnce(s) else (s.(pended := s.pended + 1), false)
  }

  function SuspendAll(s: Sched): Sched {
    s.(depth := s.depth + 1)
  }

  function DrainHead(s: Sched): Sched
    requires s.pending != []
  {
    var t := s.pending[0];
    s.(pending := s.pending[1..], lists := MakeReady(s.lists, s.prios, t),
       yieldPending := s.yieldPending || s.prios.Of(t) > s.prios.Of(s.current))
  }

  /** The loop of xTaskResumeAll that moves the pending tasks to their ready lists. */
  function Drain(s: Sched): Sched
    decreases |s.pending|
  {
    if s.pending == [] then s else Drain(DrainHead(s))
  }

  /** Its loop that makes up for k pended ticks. */
  function Replay(s: Sched, k: nat): Sched
    decreases k
  {
    if k == 0 then s
    else
      var r := TickOnce(s);
      Replay(r.0.(yieldPending := r.0.yieldPending || r.1), k - 1)
  }

  /** What the outermost resume does before it looks at the ticks. */
  function Drained(s: Sched): Sched {
    var d := Drain(s.(depth := 0));
    if s.pending == [] then d else d.(next := NextUnblock(d.lists.delayed, d.m))
  }

  /** xTaskResumeAll; the answer is whether the scheduler yields. */
  function ResumeAll(s: Sched): (Sched, bool)
    requires s.depth > 0
  {
    if s.depth > 1 then (s.(depth := s.depth - 1), false)
    else
      var d := Drained(s);
      var r := Replay(d, d.pended).(pended := 0);
      (r, r.yieldPending)
  }

  // ----- draining

  /** All pending tasks have become ready, and nothing else has happened. */
  ghost predicate PendingReadied(s: Sched, r: Sched) {
    && Moved(s, r, Members(s.pending))
    && r == s.(pending := [], lists := r.lists, yieldPending := r.yieldPending)
  }

  lemma DrainNone(s: Sched)
    requires s.pending == []
    ensures PendingReadied(s, s)
  {
    assert Members(s.pending) == {};
    assert Standings(s.lists.place) == Readied(Standings(s.lists.place), {}, s.prios);
    assert s.lists.due - {} == s.lists.due;
  }

  lemma DrainOneThenMore(s: Sched, w: Sched, r: Sched)
    requires s.pending != [] && s.pending[0] in s.lists.place && s.pending[0] !in s.onEvent
    requires w == s.(pending := s.pending[1..], lists := w.lists, yieldPending := w.yieldPending)
    requires w.lists.place == s.lists.place[s.pending[0] := Ready(s.prios.Of(s.pending[0]))]
    requires w.lists.due == s.lists.due - {s.pending[0]}
    requires PendingReadied(w, r)
    ensures PendingReadied(s, r)
  {
    var t, ts, us := s.pending[0], Members(s.pending), Members(w.pending);
    assert s.pending == [t] + w.pending;
    assert ts == us + {t};
    ReadiedOneThenMore(s.lists.place, t, us, s.prios);
    hide Readied, Standings;
    assert s.onEvent - ts == s.onEvent - us;
  }

  lemma ReadiedOneThenMore(place: map<Task, Place>, t: Task, ts: set<Task>, ps: Prios)
    requires t in place
    ensures Readied(Standings(place), ts + {t}, ps) == Readied(Standings(place[t := Ready(ps.Of(t))]), ts, ps)
  {
  }

  lemma PendingTail(s: Sched, place: map<Task, Place>, k: Place)
    requires Events(s.pending, s.onEvent, s.lists.place) && s.pending != []
    ensures s.pending[0] in s.lists.place && s.pending[0] !in s.onEvent
    ensures place == s.lists.place[s.pending[0] := k] ==> Events(s.pending[1..], s.onEvent, place)
  {
    assert s.pending[0] in s.pending;
    var rest := s.pending[1..];
    forall i, j | 0 <= i < j < |rest| ensures Differ(rest, i, j) {
      assert Differ(s.pending, i + 1, j + 1);
    }
    forall t | t in rest ensures t in s.pending && t != s.pending[0] {
      var i :| 0 <= i < |rest| && rest[i] == t;
      assert Differ(s.pending, 0, i + 1);
    }
  }

  lemma {:induction false} DrainExact(s: Sched)
    requires Homes(s.lists, s.prios, s.base, s.m) && Events(s.pending, s.onEvent, s.lists.place)
    requires s.lists.place.Keys <= s.prios.prio.Keys
    ensures var r := Drain(s);
            && PendingReadied(s, r)
            && Homes(r.lists, s.prios, s.base, s.m) && Events([], r.onEvent, r.lists.place)
    decreases |s.pending|
  {
    hide Homes, PendingReadied;
    if s.pending == [] {
      DrainNone(s);
    } else {
      var t, w := s.pending[0], DrainHead(s);
      PendingTail(s, w.lists.place, Ready(s.prios.Of(t)));
      hide Events;
      MakeReadyKeepsHomes(s.lists, s.prios, s.base, s.m, t);
      DrainExact(w);
      DrainOneThenMore(s, w, Drain(w));
    }
  }

  /** Before any held-back tick is looked at, every pending task is ready and has no wake
      time any more. */
  lemma DrainedExact(s: Sched)
    requires Core(s)
    ensures var d := Drained(s);
            && Core(d) && Moved(s, d, Members(s.pending))
            && d == s.(depth := 0, pending := [], lists := d.lists, next := d.next, yieldPending := d.yieldPending)
  {
    hide Homes, Events, Moved;
    var z, d := s.(depth := 0), Drained(s);
    DrainExact(z);
    hide Drain;
    MovedFrom(z, s, d);
    MovedKeepsTasks(s, d, Members(s.pending));
    if s.pending == [] {
      NothingMoved(s, d);
    } else if d.lists.delayed == [] {
      NoneDelayed(d.lists, s.prios, s.base, s.m);
      MovedShrinksDue(s, d, Members(s.pending));
    } else {
      HeadOfDelayed(d.lists, s.prios, s.base, s.m);
      MovedShrinksDue(s, d, Members(s.pending));
    }
  }

  lemma MovedFrom(z: Sched, s: Sched, d: Sched)
    requires z == s.(depth := 0)
    ensures PendingReadied(z, Drain(z)) && d.lists == Drain(z).lists && d.onEvent == Drain(z).onEvent ==>
              Moved(s, d, Members(s.pending))
  {
  }

  lemma MovedShrinksDue(s: Sched, d: Sched, ts: set<Task>)
    requires Moved(s, d, ts)
    ensures forall t :: t in d.lists.due ==> t in s.lists.due && d.lists.due[t] == s.lists.due[t]
  {
  }

  lemma NothingMoved(s: Sched, d: Sched)
    requires Moved(s, d, Members(s.pending)) && s.pending == []
    ensures d.lists.due == s.lists.due
  {
    assert Members(s.pending) == {};
  }

  // ----- replaying

  /** What held-back ticks and requested yields are on record has no influence on the lists. */
  lemma {:induction false} UnblockIgnoresRecord(s: Sched, y: bool, n: nat)
    ensures Unblock(s.(yieldPending := y, pended := n)).0 == Unblock(s).0.(yieldPending := y, pended := n)
    ensures Unblock(s).0.yieldPending == s.yieldPending && Unblock(s).0.pended == s.pended
    decreases |s.lists.delayed|
  {
    if s.lists.delayed != [] && s.tick >= s.lists.delayed[0].value {
      UnblockIgnoresRecord(WakeHead(s), y, n);
    }
  }

  lemma TickIgnoresRecord(s: Sched, y: bool, n: nat)
    ensures TickOnce(s.(yieldPending := y, pended := n)).0 == TickOnce(s).0.(yieldPending := y, pended := n)
    ensures TickOnce(s).0.yieldPending == s.yieldPending && TickOnce(s).0.pended == s.pended
  {
    UnblockIgnoresRecord(Advanced(s), y, n);
  }

  lemma {:induction false} LiveTicksIgnoreRecord(s: Sched, y: bool, n: nat, k: nat)
    ensures LiveTicks(s.(yieldPending := y, pended := n), k) == LiveTicks(s, k).(yieldPending := y, pended := n)
    ensures LiveTicks(s, k).yieldPending == s.yieldPending && LiveTicks(s, k).pended == s.pended
    decreases k
  {
    if k > 0 {
      TickIgnoresRecord(s, y, n);
      LiveTicksIgnoreRecord(TickOnce(s).0, y, n, k - 1);
    }
  }

  /** Replayed ticks do to the lists what ticks do at their time. */
  lemma {:induction false} ReplayIsLive(s: Sched, k: nat)
    ensures Replay(s, k) == LiveTicks(s, k).(yieldPending := Replay(s, k).yieldPending)
    decreases k
  {
    hide TickOnce;
    if k > 0 {
      var r := TickOnce(s);
      var q := r.0.(yieldPending := r.0.yieldPending || r.1);
      ReplayIsLive(q, k - 1);
      LiveTicksIgnoreRecord(r.0, q.yieldPending, r.0.pended, k - 1);
      assert q == r.0.(yieldPending := q.yieldPending, pended := r.0.pended);
    } else {
      assert LiveTicks(s, 0) == s;
    }
  }

  /** Suspending the scheduler, taking k ticks and resuming it is the same as taking the k
      ticks: same tick count, same overflow count, same lists in the same order. */
  lemma ResumeEqualsLive(s: Sched, k: nat)
    requires Inv(s) && s.depth == 0
    ensures var r := ResumeAll(SuspendAll(s).(pended := k)).0;
            r == LiveTicks(s, k).(yieldPending := r.yieldPending)
  {
    hide Core, TickOnce, Replay, LiveTicks;
    var u := SuspendAll(s).(pended := k);
    assert Drained(u) == s.(pended := k);
    ReplayIsLive(s.(pended := k), k);
    LiveTicksIgnoreRecord(s, s.yieldPending, k, k);
    assert s.(pended := k) == s.(yieldPending := s.yieldPending, pended := k);
    hide Drained;
    assert ResumeAll(u).0 == Replay(s.(pended := k), k).(pended := 0);
  }

  lemma MovedCompose(s: Sched, q: Sched, r: Sched, a: set<Task>, b: set<Task>, c: set<Task>)
    requires Moved(s, q, a) && Moved(q, r, b) && s.prios == q.prios && c == a + b
    ensures Moved(s, r, c)
  {
    assert Readied(Standings(s.lists.place), c, s.prios) == Readied(Standings(q.lists.place), b, s.prios);
  }

  /** The outermost resume: every pending task and every task whose wake time has passed in
      the meantime is ready, all others are where they were, and the ticks are made up for. */
  lemma ResumeAllExact(s: Sched)
    requires Inv(s) && s.depth == 1
    ensures var r := ResumeAll(s).0;
            && Inv(r) && r.Now() == s.Now() + s.pended
            && Moved(s, r, Members(s.pending) + Expired(s.lists.due, s.Now() + s.pended))
            && r == s.(depth := 0, pending := [], pended := 0, yieldPending := r.yieldPending, lists := r.lists,
                       onEvent := r.onEvent, next := r.next, tick := r.tick, base := r.base, overflows := r.overflows)
  {
    hide Homes, Clock, Events, Tasks, Moved, LiveTicks, Replay;
    var d, k := Drained(s), s.pended;
    DrainedExact(s);
    hide Drained;
    LiveTicksExact(d, k);
    ReplayIsLive(d, k);
    ExpiredWithout(s, d, Members(s.pending), s.Now() + k);
    MovedCompose(s, d, LiveTicks(d, k), Members(s.pending), Expired(d.lists.due, s.Now() + k),
                 Members(s.pending) + Expired(s.lists.due, s.Now() + k));
    MovedFor(s, LiveTicks(d, k), ResumeAll(s).0, Members(s.pending) + Expired(s.lists.due, s.Now() + k));
  }

  lemma MovedFor(s: Sched, q: Sched, r: Sched, ts: set<Task>)
    requires Moved(s, q, ts) && r.lists == q.lists && r.onEvent == q.onEvent
    ensures Moved(s, r, ts)
  {
  }

  lemma ExpiredWithout(s: Sched, d: Sched, ts: set<Task>, now: nat)
    requires Moved(s, d, ts)
    ensures ts + Expired(s.lists.due, now) == ts + Expired(d.lists.due, now)
  {
  }

  lemma StaysReady(s: Sched, r: Sched, ts: set<Task>, t: Task)
    requires Moved(s, r, ts) && t in s.lists.place && (t in ts || s.lists.place[t] == Ready(s.prios.Of(t)))
    ensures t in r.lists.place && r.lists.place[t] == Ready(s.prios.Of(t))
  {
    assert t in Readied(Standings(s.lists.place), ts, s.prios);
    assert t in Standings(r.lists.place);
    assert Standings(r.lists.place)[t] == Readied(Standings(s.lists.place), ts, s.prios)[t];
  }

  lemma OnReadyList(l: TaskLists, ps: Prios, base: nat, m: Modulus, t: Task)
    requires Homes(l, ps, base, m) && t in l.place && l.place[t] == Ready(ps.Of(t))
    ensures t !in l.due && ps.Of(t) < |l.ready| && t in l.ready[ps.Of(t)].items && l.ready[ps.Of(t)].Valid()
  {
    assert ReadyList(l.ready[ps.Of(t)], ps.Of(t), l.place);
    assert t in At(l.place, Ready(ps.Of(t)));
    assert t in Members(l.ready[ps.Of(t)].items);
  }

  /** No held-back tick can time out a task that an interrupt has readied: through the whole
      replay the task is on the ready list of its priority, once, and has no wake time. */
  lemma PendingNeverTimesOut(s: Sched, t: Task, j: nat)
    requires Inv(s) && s.depth == 1 && t in s.pending
    ensures var q := LiveTicks(Drained(s), j);
            && t in q.lists.place && q.lists.place[t] == Ready(s.prios.Of(t)) && t !in q.lists.due
            && s.prios.Of(t) < |q.lists.ready| && t in q.lists.ready[s.prios.Of(t)].items
            && q.lists.ready[s.prios.Of(t)].Valid()
  {
    hide Drained, LiveTicks, Homes, Moved, Clock, Tasks;
    var d, q := Drained(s), LiveTicks(Drained(s), j);
    assert t in s.lists.place && t in Members(s.pending);
    hide Events;
    DrainedExact(s);
    LiveTicksExact(d, j);
    StaysReady(s, d, Members(s.pending), t);
    StaysReady(d, q, Expired(d.lists.due, d.Now() + j), t);
    OnReadyList(q.lists, q.prios, q.base, q.m, t);
  }

  // ----- whether the resume yields

  lemma {:induction false} DrainYields(s: Sched)
    ensures Drain(s).yieldPending <==> s.yieldPending || Outranked(s, Members(s.pending))
    ensures Drain(s).prios == s.prios && Drain(s).current == s.current
    decreases |s.pending|
  {
    if s.pending == [] {
      assert Members(s.pending) == {};
    } else {
      var t, w := s.pending[0], DrainHead(s);
      hide MakeReady;
      DrainYields(w);
      assert s.pending == [t] + w.pending;
      assert Members(s.pending) == Members(w.pending) + {t};
      assert forall ts :: Outranked(w, ts) <==> Outranked(s, ts);
      OutrankedUnion(s, Members(w.pending), {t});
    }
  }

  lemma OutrankedUnion(s: Sched, a: set<Task>, b: set<Task>)
    ensures Outranked(s, a + b) <==> Outranked(s, a) || Outranked(s, b)
  {
    if Outranked(s, a) {
      var t :| t in a && s.prios.Of(t) > s.prios.Of(s.current);
      assert t in a + b;
    }
    if Outranked(s, b) {
      var t :| t in b && s.prios.Of(t) > s.prios.Of(s.current);
      assert t in a + b;
    }
  }

  /** Two tasks that are ready at a priority stay so as others become ready. */
  lemma TwoStayReady(s: Sched, r: Sched, ts: set<Task>, p: nat)
    requires Moved(s, r, ts) && TwoReady(s.lists.place, p)
    requires forall t :: t in s.lists.place && s.lists.place[t].Ready? ==> s.lists.place[t] == Ready(s.prios.Of(t))
    ensures TwoReady(r.lists.place, p)
  {
    var t, u :| t != u && t in s.lists.place && u in s.lists.place
                && s.lists.place[t] == Ready(p) && s.lists.place[u] == Ready(p);
    hide Moved;
    StaysReady(s, r, ts, t);
    StaysReady(s, r, ts, u);
  }

  lemma ReadyAtPriority(s: Sched)
    requires Homes(s.lists, s.prios, s.base, s.m)
    ensures forall t :: t in s.lists.place && s.lists.place[t].Ready? ==> s.lists.place[t] == Ready(s.prios.Of(t))
  {
    hide ReadyLists, SuspendedPart, DelayPart;
  }

  /** A replayed tick asks for a yield just as a live one does, and no request is forgotten. */
  lemma {:induction false} ReplayYields(s: Sched, k: nat)
    requires Core(s) && s.pending == []
    ensures Replay(s, k).yieldPending <==>
              || s.yieldPending || Outranked(s, Expired(s.lists.due, s.Now() + k))
              || (k > 0 && TwoReady(LiveTicks(s, k).lists.place, s.prios.Of(s.current)))
    decreases k
  {
    hide Core, TickOnce, Moved, TwoReady, Outranked;
    if k == 0 {
      NothingExpired(s);
    } else {
      var r := TickOnce(s);
      var q := r.0.(yieldPending := r.0.yieldPending || r.1);
      TickExact(s);
      TickAsks(s);
      TickIgnoresRecord(s, s.yieldPending, s.pended);
      CoreIgnoresRecord(r.0, q);
      ReplayYields(q, k - 1);
      LiveTicksIgnoreRecord(r.0, q.yieldPending, r.0.pended, k - 1);
      assert q == r.0.(yieldPending := q.yieldPending, pended := r.0.pended);
      ReplayedTick(s, r.0, q, k);
    }
  }

  lemma CoreIgnoresRecord(s: Sched, q: Sched)
    requires Core(s) && q == s.(yieldPending := q.yieldPending)
    ensures Core(q)
  {
  }

  lemma NothingExpired(s: Sched)
    requires Core(s)
    ensures !Outranked(s, Expired(s.lists.due, s.Now()))
  {
    hide Homes, Events, Tasks;
  }

  /** What one tick contributes to the answer, and what the others do. */
  lemma ReplayedTick(s: Sched, r: Sched, q: Sched, k: nat)
    requires k > 0 && Core(q) && q.pending == [] && Passed(s, r, 1) && q == r.(yieldPending := q.yieldPending)
    ensures var now := s.Now() + k;
            Outranked(s, Expired(s.lists.due, now)) <==>
            Outranked(s, Expired(s.lists.due, s.Now() + 1)) || Outranked(q, Expired(q.lists.due, now))
    ensures TwoReady(r.lists.place, s.prios.Of(s.current)) ==>
              TwoReady(LiveTicks(q, k - 1).lists.place, s.prios.Of(s.current))
  {
    hide Homes, Clock, Events, Tasks, LiveTicks, TwoReady;
    LiveTicksExact(q, k - 1);
    ReadyAtPriority(q);
    if TwoReady(r.lists.place, s.prios.Of(s.current)) {
      TwoStayReady(q, LiveTicks(q, k - 1), Expired(q.lists.due, q.Now() + (k - 1)), s.prios.Of(s.current));
    }
    var first, rest := Expired(s.lists.due, s.Now() + 1), Expired(q.lists.due, s.Now() + k);
    assert Expired(s.lists.due, s.Now() + k) == first + rest;
    OutrankedUnion(s, first, rest);
    assert Outranked(q, rest) <==> Outranked(s, rest);
  }

  /** The outermost resume yields exactly if a yield was pending, or a task that it readies,
      pending or overdue, is above the running one, or it makes up for a tick and two tasks of
      the running priority are ready.  The answer says so, and the request stays on record for
      the context switch. */
  lemma ResumeYields(s: Sched)
    requires Inv(s) && s.depth > 0
    ensures var r, answer := ResumeAll(s).0, ResumeAll(s).1;
            && (s.depth > 1 ==> !answer && r == s.(depth := s.depth - 1))
            && (s.depth == 1 ==>
                && answer == r.yieldPending
                && (answer <==>
                    || s.yieldPending
                    || Outranked(s, Members(s.pending) + Expired(s.lists.due, s.Now() + s.pended))
                    || (s.pended > 0 && TwoReady(r.lists.place, s.prios.Of(s.current)))))
  {
    hide Core, Moved, TwoReady, Outranked, LiveTicks, Replay;
    if s.depth == 1 {
      var d, k := Drained(s), s.pended;
      DrainedExact(s);
      DrainYields(s.(depth := 0));
      hide Drain;
      ReplayYields(d, k);
      ReplayIsLive(d, k);
      DrainedAsks(s, d);
    }
  }

  lemma DrainedAsks(s: Sched, d: Sched)
    requires Moved(s, d, Members(s.pending)) && d.prios == s.prios && d.current == s.current && d.Now() == s.Now()
    ensures Outranked(s.(depth := 0), Members(s.pending)) <==> Outranked(s, Members(s.pending))
    ensures Outranked(s, Members(s.pending) + Expired(s.lists.due, s.Now() + s.pended)) <==>
            Outranked(s, Members(s.pending)) || Outranked(d, Expired(d.lists.due, d.Now() + s.pended))
  {
    ExpiredWithout(s, d, Members(s.pending), s.Now() + s.pended);
    hide Moved;
    OutrankedUnion(s, Members(s.pending), Expired(d.lists.due, s.Now() + s.pended));
  }
}
