/** What every run of the scheduler keeps. */
module SchedulerTheorems {
  import opened Wrappers
  import opened SchedulerModel

  // ---------------------------------------------------------------- steps that switch threads

  /** The idle thread, or a dying one, gives up the processor without going on a list. */
  lemma LeavesSound(k: Kernel, s: Status)
    requires Sound(k) && s != Running
    requires k.current == k.idle <==> s != Dying
    ensures SoundAt(k.(status := k.status[k.current := s]), false)
  {
    var c, r := k.current, k.(status := k.status[k.current := s]);
    assert StatusOk(k, c, true);
    NotOnAny(k, c);
    SameLists(k, r);
    hide OneList, Sorted, Known;
    SameAlarm(k, r);
    assert StatusOk(r, c, false) by { assert !Waiting(r, c); assert !On(r, c, ReadyList); assert !On(r, c, SleepList); }
    hide StatusOk, AlarmSet;
    StatusesFrame(k, r, c, true, false);
  }

  lemma YieldSound(k: Kernel)
    requires Sound(k)
    ensures Sound(Step(k, Yield))
  {
    hide OneList, Ordered, Statuses, AlarmSet, Dispatch, Insert;
    var c := k.current;
    if c == k.idle {
      LeavesSound(k, Ready);
      DispatchSound(k.(status := k.status[c := Ready]));
    } else {
      ReadyAgain(k);
      DispatchSound(Unblock(k, c));
    }
  }

  lemma ReadyAgain(k: Kernel)
    requires Sound(k) && k.current != k.idle
    ensures SoundAt(Unblock(k, k.current), false)
  {
    hide AlarmSet, Sorted;
    var c, r := k.current, Unblock(k, k.current);
    assert StatusOk(k, c, true);
    NotOnAny(k, c);
    hide Statuses, StatusOk;
    PutOrdered(k, r, ByPriority, c, ReadyList);
    assert Ordered(r) by { InsertSorts(ByPriority, k.ts, k.ready, c); }
    hide OneList, Adds;
    DeschedulesSound(k, r, ReadyList);
  }

  lemma AppendAdds(k: Kernel, n: int, t: Tid)
    requires OneList(k) && forall i :: !On(k, t, i)
    ensures var r := k.(waiters := k.waiters[n := Waiters(k, n) + [t]]);
            OneList(r) && Adds(k, r, t, WaiterList(n))
  {
    var id, r := WaiterList(n), k.(waiters := k.waiters[n := Waiters(k, n) + [t]]);
    assert List(r, id) == List(k, id) + [t];
    assert !On(k, t, id) && Distinct(List(k, id));
    forall i | i != id ensures List(r, i) == List(k, i) {
    }
    AddKeepsOneList(k, r, t, id);
  }

  lemma BlockOnSound(k: Kernel, n: int)
    requires Sound(k) && Enabled(k, BlockOn(n))
    ensures Sound(Step(k, BlockOn(n)))
  {
    var c := k.current;
    var r := k.(waiters := k.waiters[n := Waiters(k, n) + [c]], status := k.status[c := Blocked]);
    assert StatusOk(k, c, true);
    NotOnAny(k, c);
    AppendAdds(k, n, c);
    SameLists(k.(waiters := k.waiters[n := Waiters(k, n) + [c]]), r);
    hide OneList, Sorted, Statuses, AlarmSet, Dispatch;
    DeschedulesSound(k, r, WaiterList(n));
    DispatchSound(r);
  }

  lemma SleepSound(k: Kernel)
    requires Sound(k) && Enabled(k, Sleep)
    ensures Sound(Step(k, Sleep))
  {
    var c := k.current;
    var r := k.(sleep := Insert(ByWakeup, k.ts, k.sleep, c), status := k.status[c := Blocked]);
    assert StatusOk(k, c, true);
    NotOnAny(k, c);
    PutOrdered(k, r, ByWakeup, c, SleepList);
    assert Ordered(r) by { InsertSorts(ByWakeup, k.ts, k.sleep, c); }
    hide Insert, OneList, Ordered, Statuses, AlarmSet, Dispatch, Adds;
    DeschedulesSound(k, r, SleepList);
    DispatchSound(r);
  }

  // ---------------------------------------------------------------- steps that make threads ready

  lemma UnknownOnNone(k: Kernel, t: Tid)
    requires WellFormed(k) && t !in k.ts
    ensures forall i :: !On(k, t, i)
  {
  }

  lemma CreateSound(k: Kernel, t: Tid, p: int)
    requires Sound(k) && Enabled(k, Create(t, p))
    ensures Sound(Step(k, Create(t, p)))
  {
    hide OneList, Statuses, StatusOk, On;
    var k1 := k.(ts := k.ts[t := Thread(p, 0)], status := k.status[t := Blocked], stage := k.stage[t := Awake]);
    UnknownOnNone(k, t);
    SameLists(k, k1);
    assert Ordered(k1) && AlarmSet(k1);
    hide Sorted, AlarmSet;
    UnblockSound(k, k1, t);
  }

  /** The head of a waiter list is a thread that is not running and is on no other list. */
  lemma PopWaiter(k: Kernel, n: int)
    requires Sound(k) && Waiters(k, n) != []
    ensures var q := Waiters(k, n);
            var k1 := k.(waiters := k.waiters[n := q[1..]]);
            && q[0] in k.ts && q[0] != k.idle && q[0] != k.current
            && WellFormed(k1) && OneList(k1) && OthersStay(k, k1, q[0]) && forall i :: !On(k1, q[0], i)
  {
    hide Ordered, AlarmSet;
    var q := Waiters(k, n);
    var t, id, k1 := q[0], WaiterList(n), k.(waiters := k.waiters[n := q[1..]]);
    assert On(k, t, id);
    assert Waiting(k, t);
    assert StatusOk(k, t, true);
    hide StatusOk;
    forall i | i != id ensures List(k1, i) == List(k, i) {
    }
    assert List(k, id) == q && List(k1, id) == q[1..];
    PopHead(k, k1, id);
  }

  lemma WakeSound(k: Kernel, n: int)
    requires Sound(k)
    ensures Sound(Step(k, Wake(n)))
  {
    hide OneList, Statuses, Sorted;
    var q := Waiters(k, n);
    if q != [] {
      var k1 := k.(waiters := k.waiters[n := q[1..]]);
      PopWaiter(k, n);
      SameAlarm(k, k1);
      hide AlarmSet;
      UnblockSound(k, k1, q[0]);
    }
  }

  lemma WakeHeadSound(k: Kernel)
    requires Sound(k) && k.sleep != []
    ensures Sound(WakeHead(k))
  {
    var t := k.sleep[0];
    var k1 := k.(sleep := k.sleep[1..], stage := k.stage[t := Awake]);
    assert On(k, t, SleepList);
    assert StatusOk(k, t, true);
    assert Waiting(k, t);
    forall i | i != SleepList ensures List(k1, i) == List(k, i) {
    }
    assert Ordered(k1);
    hide StatusOk, Sorted;
    PopHead(k, k1, SleepList);
    hide OneList;
    UnblockSound(k, k1, t);
  }

  // ---------------------------------------------------------------- the alarm

  lemma LaterCall(k: Kernel, w: int)
    requires Sound(k)
    ensures Sound(UpdateCallTime(k, w))
  {
    var r := UpdateCallTime(k, w);
    SameLists(k, r);
    hide OneList, Sorted, Known;
    forall t | t in r.ts ensures StatusOk(r, t, true) {
      assert StatusOk(k, t, true);
      StatusFrame(k, r, t, true, true);
    }
  }

  lemma {:induction false} WakeAllSound(k: Kernel)
    requires Sound(k)
    ensures Sound(WakeAll(k))
    decreases |k.sleep|
  {
    hide OneList, Ordered, Statuses, AlarmSet, WakeHead, UpdateCallTime;
    if k.sleep == [] {
      LaterCall(k, INT64_MAX);
    } else if k.ts[k.sleep[0]].wakeup <= k.ticks {
      WakeHeadSound(k);
      WakeAllSound(WakeHead(k));
    } else {
      LaterCall(k, k.ts[k.sleep[0]].wakeup);
    }
  }

  lemma TickedSound(k: Kernel)
    requires Sound(k)
    ensures Sound(k.(ticks := k.ticks + 1))
  {
    var r := k.(ticks := k.ticks + 1);
    SameLists(k, r);
    hide OneList, Sorted, Known;
    forall t | t in r.ts ensures StatusOk(r, t, true) {
      assert StatusOk(k, t, true);
      StatusFrame(k, r, t, true, true);
    }
  }

  lemma TickSound(k: Kernel)
    requires Sound(k)
    ensures Sound(Step(k, Tick))
  {
    hide SoundAt, WakeAll;
    TickedSound(k);
    if k.callTime <= k.ticks + 1 { WakeAllSound(k.(ticks := k.ticks + 1)); }
  }

  // ---------------------------------------------------------------- steps of the running thread alone

  /** Fields of the running thread change; it is on no list. */
  lemma OwnFieldsSound(k: Kernel, x: Thread, stage: Stage, callTime: int)
    requires Sound(k) && k.current != k.idle
    requires callTime <= k.callTime && (stage == Announced ==> callTime <= x.wakeup)
    ensures Sound(k.(ts := k.ts[k.current := x], stage := k.stage[k.current := stage], callTime := callTime))
  {
    var c := k.current;
    var r := k.(ts := k.ts[c := x], stage := k.stage[c := stage], callTime := callTime);
    SameLists(k, r);
    assert StatusOk(k, c, true);
    NotOnAny(k, c);
    assert Ordered(r) by { assert !On(k, c, ReadyList) && !On(k, c, SleepList); }
    hide OneList, Ordered, Known;
    forall t | t in r.ts ensures StatusOk(r, t, true) {
      assert StatusOk(k, t, true);
      if t != c {
        StatusFrame(k, r, t, true, true);
      } else {
        assert !Waiting(r, c) && !On(r, c, SleepList) && !On(r, c, ReadyList);
      }
    }
  }

  lemma AnnounceSound(k: Kernel)
    requires Sound(k) && Enabled(k, Announce)
    ensures Sound(Step(k, Announce))
  {
    var c, w := k.current, k.ts[k.current].wakeup;
    var time := if w < k.callTime then w else k.callTime;
    hide OneList, Ordered, Statuses, AlarmSet;
    OwnFieldsSound(k, k.ts[c], Announced, time);
    assert k.ts[c := k.ts[c]] == k.ts;
  }

  /** Every step keeps the invariant. */
  lemma StepSound(k: Kernel, e: Event)
    requires Sound(k) && Enabled(k, e)
    ensures Sound(Step(k, e))
  {
    hide OneList, Ordered, Statuses, AlarmSet, Known, Dispatch, Insert;
    var c := k.current;
    match e
    case Create(t, p) => CreateSound(k, t, p);
    case Yield => YieldSound(k);
    case BlockOn(n) => BlockOnSound(k, n);
    case IdleBlock =>
      LeavesSound(k, Blocked);
      DispatchSound(k.(status := k.status[c := Blocked]));
    case Wake(n) => WakeSound(k, n);
    case SetPriority(p) =>
      OwnFieldsSound(k, k.ts[c].(priority := p), Awake, k.callTime);
      assert k.stage[c := Awake] == k.stage;
    case SetWakeup(w) => OwnFieldsSound(k, k.ts[c].(wakeup := w), TimeSet, k.callTime);
    case Announce => AnnounceSound(k);
    case Sleep => SleepSound(k);
    case Tick => TickSound(k);
    case Exit =>
      LeavesSound(k, Dying);
      DispatchSound(k.(status := k.status[c := Dying]));
  }

  // ---------------------------------------------------------------- every run

  /** The state after a run; `None` if some step of it cannot be taken. */
  function Run(k: Kernel, es: seq<Event>): Option<Kernel> {
    if es == [] then Some(k)
    else
      var before := Run(k, es[..|es| - 1]);
      if before.Some? && WellFormed(before.value) && Enabled(before.value, es[|es| - 1])
      then Some(Step(before.value, es[|es| - 1]))
      else None
  }

  /** After `thread_start`: one running thread and the idle thread. */
  function Booted(main: Tid, idle: Tid, priority: int): Kernel {
    Kernel(map[main := Thread(priority, 0), idle := Thread(0, 0)], map[main := Running, idle := Blocked],
           map[main := Awake, idle := Awake], main, idle, [], [], map[], INT64_MAX, 0)
  }

  lemma BootedSound(main: Tid, idle: Tid, priority: int)
    requires main != idle
    ensures Sound(Booted(main, idle, priority))
  {
    var k := Booted(main, idle, priority);
    assert forall i :: List(k, i) == [];
  }

  /** In every run from boot no thread is on two lists, the lists are sorted, every thread's status says where it
      is, and the alarm is set early enough. */
  lemma {:induction false} EveryRun(k: Kernel, es: seq<Event>)
    requires Sound(k) && Run(k, es).Some?
    ensures Sound(Run(k, es).value)
    decreases |es|
  {
    if es != [] {
      hide SoundAt, Step, Enabled;
      EveryRun(k, es[..|es| - 1]);
      StepSound(Run(k, es[..|es| - 1]).value, es[|es| - 1]);
    }
  }

  // ---------------------------------------------------------------- the alarm is exact

  /** When the head of the sleep list is not due, nobody is. */
  lemma NobodyDue(ts: map<Tid, Thread>, q: seq<Tid>, now: int)
    requires Known(ts, q) && Sorted(ByWakeup, ts, q) && q != [] && ts[q[0]].wakeup > now
    ensures forall u :: u in q ==> ts[u].wakeup > now
  {
    forall u | u in q ensures ts[u].wakeup > now {
      var i :| 0 <= i < |q| && q[i] == u;
      assert i > 0 ==> !Less(ByWakeup, ts[q[i]], ts[q[0]]);
    }
  }

  lemma DropHead(q: seq<Tid>)
    requires q != [] && Distinct(q)
    ensures forall u :: u in q[1..] <==> u in q && u != q[0]
  {
    assert q == [q[0]] + q[1..];
  }

  lemma {:induction false} WakeAllExact(k: Kernel)
    requires Sound(k)
    ensures forall t :: t in WakeAll(k).sleep <==> t in k.sleep && k.ts[t].wakeup > k.ticks
    decreases |k.sleep|
  {
    hide Sorted, Statuses, AlarmSet, OneList, Insert;
    if k.sleep != [] {
      if k.ts[k.sleep[0]].wakeup <= k.ticks {
        WakeHeadSound(k);
        WakeAllExact(WakeHead(k));
        assert Distinct(k.sleep) by { assert OneList(k); SleepDistinct(k); }
        DropHead(k.sleep);
      } else {
        NobodyDue(k.ts, k.sleep, k.ticks);
      }
    }
  }

  lemma SleepDistinct(k: Kernel)
    requires OneList(k)
    ensures Distinct(k.sleep)
  {
    assert Distinct(List(k, SleepList));
  }

  /** A sleeping thread leaves the sleep list in one way only: at the first timer interrupt at which its time has
      come. None wakes early, and after each interrupt none that is due still sleeps. */
  lemma AlarmExact(k: Kernel, e: Event, t: Tid)
    requires Sound(k) && Enabled(k, e) && t in k.sleep
    ensures t !in Step(k, e).sleep <==> e == Tick && k.ts[t].wakeup <= k.ticks + 1
  {
    if e == Tick {
      var k1 := k.(ticks := k.ticks + 1);
      TickedSound(k);
      if k.callTime <= k1.ticks {
        WakeAllExact(k1);
      } else {
        assert On(k, t, SleepList) && StatusOk(k, t, true);
      }
    } else if e == Sleep {
      InsertMembers(ByWakeup, k.ts, k.sleep, k.current);
    }
  }

  // ---------------------------------------------------------------- the alarm is never put off

  /** The recomputation at the end of the wake-up loop changes nothing: it only takes an earlier time, and the time of
      the first thread still asleep, or INT64_MAX if there is none, is later than the one that has come. */
  lemma {:induction false} NoRecompute(k: Kernel)
    requires WellFormed(k) && k.callTime <= k.ticks && k.callTime <= INT64_MAX
    ensures WakeAll(k).callTime == k.callTime && WakeAll(k).ticks == k.ticks
    decreases |k.sleep|
  {
    hide Insert;
    if k.sleep != [] && k.ts[k.sleep[0]].wakeup <= k.ticks { NoRecompute(WakeHead(k)); }
  }

  /** Announcing a time is the only step that changes the alarm, and it can only make it earlier. */
  lemma AlarmOnlyEarlier(k: Kernel, e: Event)
    requires WellFormed(k) && Enabled(k, e) && k.callTime <= INT64_MAX
    ensures Step(k, e).callTime <= k.callTime && (e != Announce ==> Step(k, e).callTime == k.callTime)
    ensures Step(k, e).ticks == if e == Tick then k.ticks + 1 else k.ticks
  {
    hide Insert, Known;
    if e == Tick && k.callTime <= k.ticks + 1 { NoRecompute(k.(ticks := k.ticks + 1)); }
  }

  /** Once the first alarm has gone off, the alarm stays in the past: from then on every timer interrupt walks the
      sleep list. */
  lemma {:induction false} AlarmStaysPast(k: Kernel, es: seq<Event>)
    requires Sound(k) && Run(k, es).Some? && k.callTime <= k.ticks && k.callTime <= INT64_MAX
    ensures Run(k, es).value.callTime <= Run(k, es).value.ticks && Run(k, es).value.callTime <= INT64_MAX
    decreases |es|
  {
    if es != [] {
      hide SoundAt, Step, Enabled;
      EveryRun(k, es[..|es| - 1]);
      AlarmStaysPast(k, es[..|es| - 1]);
      AlarmOnlyEarlier(Run(k, es[..|es| - 1]).value, es[|es| - 1]);
    }
  }

  // ---------------------------------------------------------------- dispatch

  predicate Dispatches(e: Event) {
    e.Yield? || e.BlockOn? || e.IdleBlock? || e.Sleep? || e.Exit?
  }

  lemma DispatchPicks(k: Kernel)
    requires SoundAt(k, false)
    ensures var r := Dispatch(k);
            && (r.current == k.idle <==> k.ready == [])
            && forall t :: t in k.ready ==> k.ts[t].priority <= k.ts[r.current].priority
  {
    forall t | t in k.ready ensures k.ts[t].priority <= k.ts[k.ready[0]].priority {
      var i :| 0 <= i < |k.ready| && k.ready[i] == t;
      assert i > 0 ==> !Less(ByPriority, k.ts[k.ready[i]], k.ts[k.ready[0]]);
    }
    if k.ready != [] {
      assert On(k, k.ready[0], ReadyList) && StatusOk(k, k.ready[0], false);
    }
  }

  // ---------------------------------------------------------------- bounded waiting

  /** No thread that the step makes ready has a priority above `p`. */
  ghost predicate Quiet(k: Kernel, e: Event, p: int)
    requires WellFormed(k)
  {
    match e
    case Create(_, q) => q <= p
    case Yield => k.current == k.idle || k.ts[k.current].priority <= p
    case Wake(n) => Waiters(k, n) != [] ==> k.ts[Waiters(k, n)[0]].priority <= p
    case Tick => forall u :: u in k.sleep && k.ts[u].wakeup <= k.ticks + 1 ==> k.ts[u].priority <= p
    case _ => true
  }

  /** A thread of no higher priority is inserted behind. */
  lemma InsertBehind(ts: map<Tid, Thread>, q: seq<Tid>, x: Tid, j: nat)
    requires Known(ts, q) && x in ts && Sorted(ByPriority, ts, q) && j < |q|
    requires ts[x].priority <= ts[q[j]].priority
    ensures var r := Insert(ByPriority, ts, q, x); j < |r| && r[j] == q[j]
  {
    var p := Place(ByPriority, ts, q, ts[x]);
    assert p > j;
  }

  ghost predicate At(k: Kernel, t: Tid, j: nat, p: int) {
    && Sound(k) && j < |k.ready| && k.ready[j] == t && k.ts[t].priority == p
  }

  lemma {:induction false} WakeAllBehind(k: Kernel, t: Tid, j: nat, p: int)
    requires At(k, t, j, p)
    requires forall u :: u in k.sleep && k.ts[u].wakeup <= k.ticks ==> k.ts[u].priority <= p
    ensures At(WakeAll(k), t, j, p)
    decreases |k.sleep|
  {
    hide OneList, Statuses, AlarmSet;
    WakeAllSound(k);
    if k.sleep != [] && k.ts[k.sleep[0]].wakeup <= k.ticks {
      assert k.sleep[0] in k.sleep;
      WakeHeadSound(k);
      InsertBehind(k.ts, k.ready, k.sleep[0], j);
      assert forall u :: u in k.sleep[1..] ==> u in k.sleep;
      hide SoundAt, Insert;
      WakeAllBehind(WakeHead(k), t, j, p);
    }
  }

  /** The threads ahead of `t` in the ready list go down by one with each dispatch, and by no other step. */
  lemma StepMovesUp(k: Kernel, e: Event, t: Tid, j: nat, p: int)
    requires At(k, t, j, p) && Enabled(k, e) && Quiet(k, e, p)
    ensures Dispatches(e) && j == 0 ==> Step(k, e).current == t
    ensures Dispatches(e) && j > 0 ==> At(Step(k, e), t, j - 1, p)
    ensures !Dispatches(e) ==> At(Step(k, e), t, j, p)
  {
    hide OneList, Ordered, Statuses, AlarmSet, Insert;
    StepSound(k, e);
    ReadyNotCurrent(k, t, j, p);
    match e
    case Create(u, q) => CreateBehind(k, u, q, t, j, p);
    case Yield => if k.current != k.idle { YieldBehind(k, t, j, p); }
    case BlockOn(_) =>
    case IdleBlock =>
    case Wake(n) => if Waiters(k, n) != [] { WakeBehind(k, n, t, j, p); }
    case SetPriority(_) =>
    case SetWakeup(_) =>
    case Announce =>
    case Sleep =>
    case Tick => TickBehind(k, t, j, p);
    case Exit =>
  }

  lemma ReadyNotCurrent(k: Kernel, t: Tid, j: nat, p: int)
    requires At(k, t, j, p)
    ensures t != k.current && t in k.ts
  {
    assert On(k, t, ReadyList) && StatusOk(k, t, true);
  }

  lemma CreateBehind(k: Kernel, u: Tid, q: int, t: Tid, j: nat, p: int)
    requires At(k, t, j, p) && Enabled(k, Create(u, q)) && q <= p
    ensures var r := Step(k, Create(u, q)); j < |r.ready| && r.ready[j] == t && r.ts[t].priority == p
  {
    hide OneList, Statuses, AlarmSet;
    InsertBehind(k.ts[u := Thread(q, 0)], k.ready, u, j);
  }

  lemma YieldBehind(k: Kernel, t: Tid, j: nat, p: int)
    requires At(k, t, j, p) && k.current != k.idle && k.ts[k.current].priority <= p
    ensures var r := Step(k, Yield);
            if j == 0 then r.current == t else j - 1 < |r.ready| && r.ready[j - 1] == t && r.ts[t].priority == p
  {
    hide OneList, Statuses, AlarmSet;
    InsertBehind(k.ts, k.ready, k.current, j);
  }

  lemma WakeBehind(k: Kernel, n: int, t: Tid, j: nat, p: int)
    requires At(k, t, j, p) && Waiters(k, n) != [] && k.ts[Waiters(k, n)[0]].priority <= p
    ensures var r := Step(k, Wake(n)); j < |r.ready| && r.ready[j] == t && r.ts[t].priority == p
  {
    hide OneList, Statuses, AlarmSet;
    InsertBehind(k.ts, k.ready, Waiters(k, n)[0], j);
  }

  lemma TickBehind(k: Kernel, t: Tid, j: nat, p: int)
    requires At(k, t, j, p) && Quiet(k, Tick, p)
    ensures At(Step(k, Tick), t, j, p)
  {
    hide OneList, Statuses, AlarmSet;
    TickSound(k);
    TickedSound(k);
    hide SoundAt, WakeAll;
    if k.callTime <= k.ticks + 1 { WakeAllBehind(k.(ticks := k.ticks + 1), t, j, p); }
  }

  function DispatchCount(es: seq<Event>): nat {
    if es == [] then 0 else DispatchCount(es[..|es| - 1]) + if Dispatches(es[|es| - 1]) then 1 else 0
  }

  ghost predicate QuietRun(k: Kernel, es: seq<Event>, p: int) {
    && Run(k, es).Some?
    && forall n :: 0 <= n < |es| ==> QuietAt(k, es, n, p)
  }

  ghost predicate QuietAt(k: Kernel, es: seq<Event>, n: nat, p: int)
    requires n < |es|
  {
    var before := Run(k, es[..n]);
    before.Some? && WellFormed(before.value) && Quiet(before.value, es[n], p)
  }

  /** A thread with `j` threads ahead of it runs at the latest at the `j + 1`st dispatch, in any run in which no
      thread of higher priority becomes ready. */
  lemma {:induction false} BoundedDispatch(k: Kernel, es: seq<Event>, t: Tid, j: nat, p: int)
    requires At(k, t, j, p) && QuietRun(k, es, p)
    ensures DispatchCount(es) <= j ==> At(Run(k, es).value, t, j - DispatchCount(es), p)
    ensures DispatchCount(es) > j ==>
              exists n :: 0 < n <= |es| && Run(k, es[..n]).Some? && Run(k, es[..n]).value.current == t
    decreases |es|
  {
    hide *;
    if es == [] {
      NothingRan(k, es);
    } else {
      var before, e := es[..|es| - 1], es[|es| - 1];
      QuietPrefix(k, es, p);
      BoundedDispatch(k, before, t, j, p);
      if DispatchCount(before) <= j {
        StepMovesUp(Run(k, before).value, e, t, j - DispatchCount(before), p);
        assert es[..|es|] == es;
      } else {
        var n :| 0 < n <= |before| && Run(k, before[..n]).Some? && Run(k, before[..n]).value.current == t;
        assert before[..n] == es[..n];
      }
    }
  }

  lemma NothingRan(k: Kernel, es: seq<Event>)
    requires es == []
    ensures Run(k, es) == Some(k) && DispatchCount(es) == 0
  {
  }

  lemma QuietPrefix(k: Kernel, es: seq<Event>, p: int)
    requires es != [] && QuietRun(k, es, p)
    ensures var before, e := es[..|es| - 1], es[|es| - 1];
            && QuietRun(k, before, p) && Run(k, before).Some?
            && DispatchCount(es) == DispatchCount(before) + (if Dispatches(e) then 1 else 0)
            && WellFormed(Run(k, before).value) && Enabled(Run(k, before).value, e)
            && Quiet(Run(k, before).value, e, p)
            && Run(k, es) == Some(Step(Run(k, before).value, e))
  {
    hide WellFormed, Quiet, Enabled, Step;
    var before := es[..|es| - 1];
    assert QuietAt(k, es, |es| - 1, p);
    forall n | 0 <= n < |before| ensures QuietAt(k, before, n, p) {
      assert before[..n] == es[..n] && QuietAt(k, es, n, p);
    }
  }
}
