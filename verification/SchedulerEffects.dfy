/** What each step does to every thread: its status, its fields, and its place on the lists. */
module SchedulerEffects {
  import opened Wrappers
  import opened SchedulerModel
  import opened SchedulerTheorems

  /** `u` is somewhere before `v`. */
  ghost predicate Before(q: seq<Tid>, u: Tid, v: Tid) {
    exists i, j :: 0 <= i < j < |q| && q[i] == u && q[j] == v
  }

  /** The sleepers whose time has come. */
  predicate Due(k: Kernel, t: Tid)
    requires WellFormed(k)
  {
    t in k.sleep && k.ts[t].wakeup <= k.ticks
  }

  // ---------------------------------------------------------------- one insertion

  /** An insertion keeps the order of the others, and the new element comes behind all its equals. */
  lemma InsertOrder(o: Order, ts: map<Tid, Thread>, q: seq<Tid>, t: Tid, u: Tid, v: Tid)
    requires Known(ts, q) && t in ts && Sorted(o, ts, q) && t !in q
    ensures Before(q, u, v) ==> Before(Insert(o, ts, q, t), u, v)
    ensures u in q && !Less(o, ts[t], ts[u]) ==> Before(Insert(o, ts, q, t), u, t)
  {
    var p, r := Place(o, ts, q, ts[t]), Insert(o, ts, q, t);
    InsertSorts(o, ts, q, t);
    assert r == q[..p] + [t] + q[p..];
    hide Insert, Sorted, Less, Known, Place;
    if Before(q, u, v) {
      var i, j :| 0 <= i < j < |q| && q[i] == u && q[j] == v;
      SplitAt(q, p, t, i);
      SplitAt(q, p, t, j);
    }
    if u in q && !Less(o, ts[t], ts[u]) {
      var i :| 0 <= i < |q| && q[i] == u;
      SplitAt(q, p, t, i);
    }
  }

  lemma SplitAt(q: seq<Tid>, p: nat, t: Tid, i: nat)
    requires p <= |q| && i < |q|
    ensures var r := q[..p] + [t] + q[p..]; |r| == |q| + 1 && r[p] == t && r[if i < p then i else i + 1] == q[i]
  {
  }

  // ---------------------------------------------------------------- waking the sleepers

  lemma WakeHeadEffect(k: Kernel)
    requires Sound(k) && k.sleep != []
    ensures var t, r := k.sleep[0], WakeHead(k);
            && r == k.(ready := r.ready, sleep := k.sleep[1..], status := k.status[t := Ready],
                       stage := k.stage[t := Awake])
            && t !in k.ready
            && (forall u :: u in r.ready <==> u in k.ready || u == t)
            && (forall u :: u in r.sleep <==> u in k.sleep && u != t)
  {
    var t := k.sleep[0];
    assert On(k, t, SleepList);
    assert !On(k, t, ReadyList);
    InsertMembers(ByPriority, k.ts, k.ready, t);
    SleepDistinct(k);
    DropHead(k.sleep);
  }

  /** The alarm makes every sleeper that is due ready; nothing else changes. */
  lemma {:induction false} WakeAllEffect(k: Kernel, t: Tid)
    requires Sound(k) && t in k.ts
    ensures var r := WakeAll(k);
            && r.ts == k.ts && r.current == k.current && r.idle == k.idle && r.waiters == k.waiters
            && r.status[t] == (if Due(k, t) then Ready else k.status[t])
            && r.stage[t] == (if Due(k, t) then Awake else k.stage[t])
            && (t in r.ready <==> t in k.ready || Due(k, t))
    decreases |k.sleep|
  {
    hide OneList, Ordered, Statuses, AlarmSet, WakeHead;
    if k.sleep != [] {
      if k.ts[k.sleep[0]].wakeup <= k.ticks {
        WakeHeadSound(k);
        WakeHeadEffect(k);
        WakeAllEffect(WakeHead(k), t);
      } else {
        assert Known(k.ts, k.sleep) && Sorted(ByWakeup, k.ts, k.sleep) by { OrderedParts(k); }
        NobodyDue(k.ts, k.sleep, k.ticks);
      }
    }
  }

  lemma OrderedParts(k: Kernel)
    requires Sound(k)
    ensures Known(k.ts, k.sleep) && Sorted(ByWakeup, k.ts, k.sleep)
    ensures Known(k.ts, k.ready) && Sorted(ByPriority, k.ts, k.ready)
  {
  }

  // ---------------------------------------------------------------- the order of the ready list

  /** `u` became ready before `v` does: it was ready and `v` was not, or was ahead of it, or it slept ahead of it. */
  ghost predicate Earlier(k: Kernel, u: Tid, v: Tid) {
    if u in k.ready then v !in k.ready || Before(k.ready, u, v)
    else v !in k.ready && Before(k.sleep, u, v)
  }

  lemma EarlierInTail(q: seq<Tid>, u: Tid, v: Tid)
    requires q != [] && Distinct(q) && Before(q, u, v)
    ensures v != q[0] && (u != q[0] ==> Before(q[1..], u, v))
  {
    var i, j :| 0 <= i < j < |q| && q[i] == u && q[j] == v;
    if i > 0 { assert q[1..][i - 1] == u && q[1..][j - 1] == v; }
  }

  lemma EarlierKept(k: Kernel, u: Tid, v: Tid)
    requires Sound(k) && k.sleep != [] && u in k.ts && v in k.ts
    requires Earlier(k, u, v) && k.ts[u].priority >= k.ts[v].priority && u != v
    ensures Earlier(WakeHead(k), u, v)
  {
    hide OneList, Statuses, AlarmSet, Known, WakeHead, Insert;
    var t, r := k.sleep[0], WakeHead(k);
    WakeHeadEffect(k);
    assert r.ready == Insert(ByPriority, k.ts, k.ready, t) by { WakeHeadReady(k); }
    OrderedParts(k);
    hide Sorted;
    InsertOrder(ByPriority, k.ts, k.ready, t, u, v);
    if u !in k.ready {
      SleepDistinct(k);
      EarlierInTail(k.sleep, u, v);
    }
  }

  lemma WakeHeadReady(k: Kernel)
    requires WellFormed(k) && k.sleep != []
    ensures WakeHead(k).ready == Insert(ByPriority, k.ts, k.ready, k.sleep[0])
  {
  }

  lemma {:induction false} WakeAllOrder(k: Kernel, u: Tid, v: Tid)
    requires Sound(k) && u in k.ts && v in k.ts && u in WakeAll(k).ready && v in WakeAll(k).ready
    requires Earlier(k, u, v) && k.ts[u].priority >= k.ts[v].priority && u != v
    ensures Before(WakeAll(k).ready, u, v)
    decreases |k.sleep|
  {
    hide OneList, Ordered, Statuses, AlarmSet, WakeHead, Earlier;
    WakeAllEffect(k, u);
    WakeAllEffect(k, v);
    if k.sleep != [] && k.ts[k.sleep[0]].wakeup <= k.ticks {
      WakeHeadSound(k);
      WakeHeadEffect(k);
      EarlierKept(k, u, v);
      WakeAllOrder(WakeHead(k), u, v);
    } else {
      NobodyElse(k, u);
      NobodyElse(k, v);
      assert Before(k.ready, u, v) by { assert Earlier(k, u, v); EarlierReady(k, u, v); }
    }
  }

  lemma NobodyElse(k: Kernel, t: Tid)
    requires Sound(k) && t in k.ts && (k.sleep == [] || k.ts[k.sleep[0]].wakeup > k.ticks)
    ensures !Due(k, t)
  {
    hide OneList, Statuses, AlarmSet;
    if k.sleep != [] { NobodyDue(k.ts, k.sleep, k.ticks); }
  }

  lemma EarlierReady(k: Kernel, u: Tid, v: Tid)
    requires Earlier(k, u, v) && u in k.ready && v in k.ready
    ensures Before(k.ready, u, v)
  {
  }

  // ---------------------------------------------------------------- one step

  /** The threads that a step makes ready, other than one it creates. */
  predicate Woken(k: Kernel, e: Event, t: Tid)
    requires WellFormed(k)
  {
    match e
    case Wake(n) => Waiters(k, n) != [] && t == Waiters(k, n)[0]
    case Tick => t in k.sleep && k.ts[t].wakeup <= k.ticks + 1
    case _ => false
  }

  lemma TickEffect(k: Kernel, t: Tid)
    requires Sound(k) && t in k.ts
    ensures var r := Step(k, Tick);
            && r.ts == k.ts && r.current == k.current && r.idle == k.idle && r.waiters == k.waiters
            && r.status[t] == (if Woken(k, Tick, t) then Ready else k.status[t])
            && r.stage[t] == (if Woken(k, Tick, t) then Awake else k.stage[t])
            && (t in r.ready <==> t in k.ready || Woken(k, Tick, t))
  {
    hide OneList, Ordered, Statuses, AlarmSet, WakeAll;
    TickedSound(k);
    var k1 := k.(ticks := k.ticks + 1);
    if k.callTime <= k1.ticks {
      WakeAllEffect(k1, t);
    } else if t in k.sleep {
      NotYetDue(k, t);
    }
  }

  /** The alarm is early enough for every sleeper. */
  lemma NotYetDue(k: Kernel, t: Tid)
    requires Sound(k) && t in k.sleep
    ensures t in k.ts && k.callTime <= k.ts[t].wakeup
  {
    hide OneList, Ordered;
    assert On(k, t, SleepList) && StatusOk(k, t, true);
  }

  /** Which thread runs after a step.  A thread that yields goes on running if all others have a lower priority;
      otherwise the head of the ready list takes over, and the idle thread if that is empty. */
  lemma RunsNext(k: Kernel, e: Event)
    requires Sound(k) && Enabled(k, e)
    ensures var r, c := Step(k, e), k.current;
            r.current == if !Dispatches(e) then c
                         else if e == Yield && c != k.idle
                                 && (k.ready == [] || k.ts[c].priority > k.ts[k.ready[0]].priority) then c
                         else if k.ready == [] then k.idle else k.ready[0]
  {
    hide OneList, Ordered, Statuses, AlarmSet, Interrupt;
    if e == Tick { TickEffect(k, k.current); }
  }

  /** The status of every thread after a step.  Only `Exit` makes a thread `Dying`; a thread that is woken, created or
      yields is ready, and one that was ready or blocked stays so until it is dispatched or woken. */
  lemma StepStatus(k: Kernel, e: Event, t: Tid)
    requires Sound(k) && Enabled(k, e) && t in Step(k, e).ts
    ensures var r, c := Step(k, e), k.current;
            && (t !in k.ts <==> e.Create? && t == e.t)
            && (r.status[t] == Running <==> t == r.current)
            && (r.status[t] == Dying <==> (t in k.ts && k.status[t] == Dying) || (e == Exit && t == c))
            && (r.status[t] == Blocked <==>
                  && t in k.ts && t != r.current
                  && (if t == c then e.BlockOn? || e == Sleep || e == IdleBlock
                      else k.status[t] == Blocked && !Woken(k, e, t)))
            && (r.status[t] == Ready <==>
                  && t != r.current
                  && (t in k.ts ==> if t == c then e == Yield else k.status[t] == Ready || Woken(k, e, t)))
            && (t in r.ready <==> r.status[t] == Ready && t != k.idle)
  {
    hide OneList, Ordered, AlarmSet, Insert, StatusOk, On, Step;
    var r, c := Step(k, e), k.current;
    StepSound(k, e);
    StepFields(k, e, c);
    RunsNext(k, e);
    if t in k.ts {
      StatusChange(k, e, t);
      StatusesParts(k, t);
      StatusesParts(k, c);
      StatusesParts(r, t);
      if Woken(k, e, t) { WokenWaits(k, e, t); }
    } else {
      CreatedReady(k, e);
      StatusesParts(r, t);
    }
  }

  lemma StatusesParts(k: Kernel, t: Tid)
    requires Sound(k) && t in k.ts
    ensures k.status[t] == Running <==> t == k.current
    ensures t in k.ready <==> k.status[t] == Ready && t != k.idle
    ensures t == k.idle ==> k.status[t] != Dying
  {
    assert StatusOk(k, t, true);
  }

  lemma CreatedReady(k: Kernel, e: Event)
    requires Sound(k) && Enabled(k, e) && e.Create?
    ensures Step(k, e).status[e.t] == Ready && e.t != k.current
  {
    hide OneList, Ordered, Statuses, AlarmSet, Insert;
  }

  lemma WokenWaits(k: Kernel, e: Event, t: Tid)
    requires Sound(k) && t in k.ts && Woken(k, e, t)
    ensures k.status[t] == Blocked && t != k.idle && t != k.current
  {
    var id := if e == Tick then SleepList else WaiterList(e.n);
    assert On(k, t, id);
    assert Waiting(k, t) && StatusOk(k, t, true);
  }

  lemma StatusChange(k: Kernel, e: Event, t: Tid)
    requires Sound(k) && Enabled(k, e) && t in k.ts && t in Step(k, e).ts
    ensures var r, c := Step(k, e), k.current;
            r.status[t] == if Dispatches(e) && t == r.current then Running
                           else if Woken(k, e, t) || (e == Yield && t == c) then Ready
                           else if (e.BlockOn? || e == Sleep || e == IdleBlock) && t == c then Blocked
                           else if e == Exit && t == c then Dying else k.status[t]
  {
    hide OneList, Ordered, Statuses, AlarmSet, Insert, Known, WakeAll, Interrupt;
    if e == Tick { TickEffect(k, t); }
  }

  /** The fields of every thread after a step. */
  lemma StepFields(k: Kernel, e: Event, t: Tid)
    requires Sound(k) && Enabled(k, e) && t in k.ts
    ensures var r, c := Step(k, e), k.current;
            && r.idle == k.idle && r.ts.Keys == k.ts.Keys + (if e.Create? then {e.t} else {})
            && (e.Create? ==> r.ts[e.t] == Thread(e.priority, 0) && r.stage[e.t] == Awake)
            && r.ts[t].priority == (if e.SetPriority? && t == c then e.priority else k.ts[t].priority)
            && r.ts[t].wakeup == (if e.SetWakeup? && t == c then e.wakeup else k.ts[t].wakeup)
            && r.stage[t] == (if e.SetWakeup? && t == c then TimeSet else if e == Announce && t == c then Announced
                              else if e == Tick && Woken(k, Tick, t) then Awake else k.stage[t])
            && (e == Announce ==> r.callTime == if k.ts[c].wakeup < k.callTime then k.ts[c].wakeup else k.callTime)
  {
    hide OneList, Ordered, Statuses, AlarmSet, Insert, Known, WakeAll, Interrupt;
    if e == Tick { TickEffect(k, t); }
  }

  /** Who waits for a semaphore after a step: `BlockOn` puts the running thread last, `Wake` takes off the first. */
  lemma StepWaiters(k: Kernel, e: Event, n: int)
    requires Sound(k) && Enabled(k, e)
    ensures var q := Waiters(k, n);
            Waiters(Step(k, e), n) == if e == BlockOn(n) then q + [k.current]
                                      else if e == Wake(n) && q != [] then q[1..] else q
  {
    hide OneList, Ordered, Statuses, AlarmSet, Insert, Known, WakeAll;
    if e == Tick { TickEffect(k, k.current); }
  }

  /** Who sleeps after a step, and in which order: those that stay asleep keep theirs, and a thread that goes to sleep
      comes behind those that wake no later. */
  lemma StepSleepers(k: Kernel, e: Event, u: Tid, v: Tid)
    requires Sound(k) && Enabled(k, e)
    ensures var r := Step(k, e);
            && (u in r.sleep <==> (u in k.sleep && !(e == Tick && Woken(k, e, u))) || (e == Sleep && u == k.current))
            && (Before(k.sleep, u, v) && u in r.sleep ==> Before(r.sleep, u, v))
            && (e == Sleep && u in k.sleep && k.ts[u].wakeup <= k.ts[k.current].wakeup ==>
                  Before(r.sleep, u, k.current))
  {
    hide OneList, Ordered, Statuses, AlarmSet, Insert, Known, WakeAll, Before;
    if e == Tick {
      TickSleepers(k, u, v);
    } else if e == Sleep {
      OrderedParts(k);
      NotQueued(k);
      InsertMembers(ByWakeup, k.ts, k.sleep, k.current);
      InsertOrder(ByWakeup, k.ts, k.sleep, k.current, u, v);
    }
  }

  /** The running thread neither sleeps nor is ready. */
  lemma NotQueued(k: Kernel)
    requires Sound(k)
    ensures k.current !in k.sleep && k.current !in k.ready
  {
    assert StatusOk(k, k.current, true);
    if On(k, k.current, SleepList) { assert Waiting(k, k.current); }
    assert !On(k, k.current, SleepList) && !On(k, k.current, ReadyList);
  }

  lemma TickSleepers(k: Kernel, u: Tid, v: Tid)
    requires Sound(k)
    ensures var r := Step(k, Tick);
            && (u in r.sleep <==> u in k.sleep && !Woken(k, Tick, u))
            && (Before(k.sleep, u, v) && u in r.sleep ==> Before(r.sleep, u, v))
  {
    hide OneList, Ordered, Statuses, AlarmSet, WakeAll, Before;
    TickedSound(k);
    var k1 := k.(ticks := k.ticks + 1);
    if k.callTime <= k1.ticks {
      WakeAllExact(k1);
      if Before(k.sleep, u, v) && u in WakeAll(k1).sleep { WakeAllSleepers(k1, u, v); }
    } else if u in k.sleep {
      AlarmExact(k, Tick, u);
    }
  }

  lemma {:induction false} WakeAllSleepers(k: Kernel, u: Tid, v: Tid)
    requires Sound(k) && Before(k.sleep, u, v) && u in WakeAll(k).sleep
    ensures Before(WakeAll(k).sleep, u, v)
    decreases |k.sleep|
  {
    hide OneList, Ordered, Statuses, AlarmSet, WakeHead;
    WakeAllExact(k);
    if k.sleep != [] && k.ts[k.sleep[0]].wakeup <= k.ticks {
      WakeHeadSound(k);
      SleepDistinct(k);
      EarlierInTail(k.sleep, u, v);
      WakeAllSleepers(WakeHead(k), u, v);
    }
  }

  // ---------------------------------------------------------------- the ready list after a step

  lemma InsertedOrder(ts: map<Tid, Thread>, q: seq<Tid>, t: Tid, u: Tid, v: Tid)
    requires Known(ts, q) && t in ts && Sorted(ByPriority, ts, q) && t !in q
    requires u != v && u in ts && v in ts && ts[u].priority >= ts[v].priority
    requires u in Insert(ByPriority, ts, q, t) && v in Insert(ByPriority, ts, q, t)
    requires u in q && (v in q ==> Before(q, u, v))
    ensures Before(Insert(ByPriority, ts, q, t), u, v)
  {
    InsertOrder(ByPriority, ts, q, t, u, v);
    InsertMembers(ByPriority, ts, q, t);
  }

  /** The ready list before a thread is dispatched. */
  function Queue(k: Kernel, e: Event): seq<Tid>
    requires WellFormed(k) && Enabled(k, e) && e != Tick
  {
    var r := Step(k, e);
    if Dispatches(e) && r.current != k.idle then [r.current] + r.ready else r.ready
  }

  lemma QueueOf(k: Kernel, e: Event)
    requires Sound(k) && Enabled(k, e) && e != Tick
    ensures Queue(k, e) == match e
            case Create(t, p) => Insert(ByPriority, Step(k, e).ts, k.ready, t)
            case Yield => if k.current == k.idle then k.ready else Insert(ByPriority, k.ts, k.ready, k.current)
            case Wake(n) => if Waiters(k, n) == [] then k.ready
                            else Insert(ByPriority, k.ts, k.ready, Waiters(k, n)[0])
            case _ => k.ready
  {
    hide OneList, Ordered, AlarmSet, Insert, WakeAll, StatusOk;
    var r := Step(k, e);
    if Dispatches(e) { IdleNotReady(k, e); }
  }

  lemma IdleNotReady(k: Kernel, e: Event)
    requires Sound(k) && Enabled(k, e)
    ensures k.idle !in k.ready
    ensures k.current != k.idle ==> k.idle !in Insert(ByPriority, k.ts, k.ready, k.current)
  {
    assert StatusOk(k, k.idle, true);
    assert !On(k, k.idle, ReadyList);
    hide OneList, Ordered, AlarmSet, Statuses;
    InsertMembers(ByPriority, k.ts, k.ready, k.current);
  }

  lemma QueueOrder(k: Kernel, e: Event, u: Tid, v: Tid)
    requires Sound(k) && Enabled(k, e) && e != Tick && u in Queue(k, e) && v in Queue(k, e) && u != v
    requires u in Step(k, e).ts && v in Step(k, e).ts && Step(k, e).ts[u].priority >= Step(k, e).ts[v].priority
    requires u in k.ready && (v in k.ready ==> Before(k.ready, u, v))
    ensures Before(Queue(k, e), u, v)
  {
    hide OneList, Statuses, AlarmSet, Insert, Before, Sorted;
    QueueOf(k, e);
    OrderedParts(k);
    NotQueued(k);
    match e
    case Create(t, p) =>
      CreatedParts(k, e);
      InsertedOrder(Step(k, e).ts, k.ready, t, u, v);
    case Yield => if k.current != k.idle { InsertedOrder(k.ts, k.ready, k.current, u, v); }
    case Wake(n) => if Waiters(k, n) != [] {
      WaiterNotReady(k, n);
      InsertedOrder(k.ts, k.ready, Waiters(k, n)[0], u, v);
    }
    case _ =>
  }

  lemma CreatedParts(k: Kernel, e: Event)
    requires Sound(k) && Enabled(k, e) && e.Create?
    ensures var ts := Step(k, e).ts; Known(ts, k.ready) && Sorted(ByPriority, ts, k.ready) && e.t !in k.ready
  {
    hide OneList, Statuses, AlarmSet, Insert;
    assert Step(k, e).ts == k.ts[e.t := Thread(e.priority, 0)];
  }

  lemma WaiterNotReady(k: Kernel, n: int)
    requires Sound(k) && Waiters(k, n) != []
    ensures Waiters(k, n)[0] !in k.ready && Waiters(k, n)[0] in k.ts
  {
    var t := Waiters(k, n)[0];
    assert On(k, t, WaiterList(n));
    assert !On(k, t, ReadyList);
  }

  /** Outside the timer interrupt at most one thread joins the ready list. */
  lemma OldFirst(k: Kernel, e: Event, u: Tid, v: Tid)
    requires Sound(k) && Enabled(k, e) && e != Tick && u in Queue(k, e) && v in Queue(k, e) && u != v
    requires Earlier(k, u, v)
    ensures u in k.ready && (v in k.ready ==> Before(k.ready, u, v))
  {
    hide OneList, Ordered, Statuses, AlarmSet, Insert, Before, Dispatch;
    QueueOf(k, e);
    match e
    case Create(t, p) =>
      CreatedParts(k, e);
      InsertMembers(ByPriority, Step(k, e).ts, k.ready, t);
    case Yield => InsertMembers(ByPriority, k.ts, k.ready, k.current);
    case Wake(n) => if Waiters(k, n) != [] { InsertMembers(ByPriority, k.ts, k.ready, Waiters(k, n)[0]); }
    case _ =>
  }

  lemma QueueDistinct(k: Kernel, e: Event)
    requires Sound(k) && Enabled(k, e) && e != Tick
    ensures Distinct(Queue(k, e))
  {
    hide OneList, Ordered, Statuses, AlarmSet, Step;
    StepSound(k, e);
    NotQueued(Step(k, e));
    ReadyDistinct(Step(k, e));
  }

  lemma ReadyDistinct(k: Kernel)
    requires OneList(k)
    ensures Distinct(k.ready)
  {
    assert Distinct(List(k, ReadyList));
  }

  /** The order of the ready list after a step: higher priorities first, and among equals those first that became ready
      first; a thread that is woken or created comes behind those that were ready. */
  lemma StepReady(k: Kernel, e: Event, u: Tid, v: Tid)
    requires Sound(k) && Enabled(k, e) && u in Step(k, e).ready && v in Step(k, e).ready && u != v
    requires Step(k, e).ts[u].priority > Step(k, e).ts[v].priority
             || (Step(k, e).ts[u].priority == Step(k, e).ts[v].priority && Earlier(k, u, v))
    ensures Before(Step(k, e).ready, u, v)
  {
    hide OneList, Ordered, Statuses, AlarmSet, WakeAll, Step, Before, Earlier;
    var r := Step(k, e);
    StepSound(k, e);
    if r.ts[u].priority > r.ts[v].priority {
      SortedBefore(r, u, v);
    } else if e == Tick {
      TickEffect(k, k.current);
      TickOrder(k, u, v);
    } else {
      OldFirst(k, e, u, v);
      QueueOrder(k, e, u, v);
      QueueDistinct(k, e);
      assert Queue(k, e) == r.ready || Queue(k, e)[1..] == r.ready;
      if Queue(k, e) != r.ready { EarlierInTail(Queue(k, e), u, v); }
    }
  }

  lemma SortedBefore(k: Kernel, u: Tid, v: Tid)
    requires Sound(k) && u in k.ready && v in k.ready && k.ts[u].priority > k.ts[v].priority
    ensures Before(k.ready, u, v)
  {
    hide OneList, Statuses, AlarmSet;
    var i :| 0 <= i < |k.ready| && k.ready[i] == u;
    var j :| 0 <= j < |k.ready| && k.ready[j] == v;
    assert forall a, b :: 0 <= a < b < |k.ready| ==> !Less(ByPriority, k.ts[k.ready[b]], k.ts[k.ready[a]]);
  }

  lemma TickOrder(k: Kernel, u: Tid, v: Tid)
    requires Sound(k) && u in Step(k, Tick).ready && v in Step(k, Tick).ready && u in k.ts && v in k.ts && u != v
    requires Earlier(k, u, v) && k.ts[u].priority >= k.ts[v].priority
    ensures Before(Step(k, Tick).ready, u, v)
  {
    hide OneList, Ordered, Statuses, AlarmSet, WakeAll, Before;
    TickedSound(k);
    if k.callTime <= k.ticks + 1 { WakeAllOrder(k.(ticks := k.ticks + 1), u, v); }
  }

  // ---------------------------------------------------------------- the timer interrupt and timer_sleep

  /** What the alarm does at time `now`: the sleepers that are due become ready, and nothing else changes. */
  ghost predicate Rings(k: Kernel, now: int, r: Kernel)
    requires WellFormed(k) && WellFormed(r)
  {
    && r.ts == k.ts && r.current == k.current && r.idle == k.idle && r.waiters == k.waiters && r.ticks == now
    && (forall t :: t in r.sleep <==> t in k.sleep && k.ts[t].wakeup > now)
    && (forall t :: t in r.ready <==> t in k.ready || (t in k.sleep && k.ts[t].wakeup <= now))
    && forall t :: t in k.ts ==>
         && r.status[t] == (if t in k.sleep && k.ts[t].wakeup <= now then Ready else k.status[t])
         && r.stage[t] == (if t in k.sleep && k.ts[t].wakeup <= now then Awake else k.stage[t])
  }

  lemma WakeAllRings(k: Kernel)
    requires Sound(k)
    ensures Rings(k, k.ticks, WakeAll(k))
  {
    hide OneList, Ordered, Statuses, AlarmSet, WakeAll;
    var r := WakeAll(k);
    WakeAllExact(k);
    WakeAllTicks(k);
    WakeAllEffect(k, k.current);
    forall t | t in k.ts
      ensures r.status[t] == if t in k.sleep && k.ts[t].wakeup <= k.ticks then Ready else k.status[t]
      ensures r.stage[t] == if t in k.sleep && k.ts[t].wakeup <= k.ticks then Awake else k.stage[t]
      ensures t in r.ready <==> t in k.ready || (t in k.sleep && k.ts[t].wakeup <= k.ticks)
    {
      WakeAllEffect(k, t);
    }
  }

  lemma {:induction false} WakeAllTicks(k: Kernel)
    requires WellFormed(k)
    ensures WakeAll(k).ticks == k.ticks
    decreases |k.sleep|
  {
    hide Insert;
    if k.sleep != [] && k.ts[k.sleep[0]].wakeup <= k.ticks { WakeAllTicks(WakeHead(k)); }
  }

  lemma TickRings(k: Kernel)
    requires Sound(k)
    ensures Rings(k, k.ticks + 1, Step(k, Tick))
  {
    hide OneList, Ordered, Statuses, AlarmSet, WakeAll, Step;
    var r := Step(k, Tick);
    TickEffect(k, k.current);
    forall t ensures t in r.sleep <==> t in k.sleep && k.ts[t].wakeup > k.ticks + 1 { TickSleepers(k, t, t); }
    forall t | t in k.ts
      ensures r.status[t] == if t in k.sleep && k.ts[t].wakeup <= k.ticks + 1 then Ready else k.status[t]
      ensures r.stage[t] == if t in k.sleep && k.ts[t].wakeup <= k.ticks + 1 then Awake else k.stage[t]
      ensures t in r.ready <==> t in k.ready || (t in k.sleep && k.ts[t].wakeup <= k.ticks + 1)
    {
      TickEffect(k, t);
    }
    TickTicks(k);
  }

  lemma TickTicks(k: Kernel)
    requires WellFormed(k)
    ensures Step(k, Tick).ticks == k.ticks + 1
  {
    if k.callTime <= k.ticks + 1 { WakeAllTicks(k.(ticks := k.ticks + 1)); }
  }

  /** A thread that is not inside `timer_sleep` may take every step; `timer_sleep` is three steps, after which it sleeps
      until its time and the alarm is set for it. */
  lemma SleepsUntil(k: Kernel, w: int)
    requires Sound(k) && k.current != k.idle && k.stage[k.current] == Awake
    ensures forall e: Event :: (e.Create? ==> e.t !in k.ts) && e != IdleBlock && e != Announce && e != Sleep ==>
              Enabled(k, e)
    ensures Enabled(k, SetWakeup(w))
    ensures var k1 := Step(k, SetWakeup(w));
            && Enabled(k1, Announce)
            && var k2 := Step(k1, Announce);
               && Enabled(k2, Sleep)
               && var r := Step(k2, Sleep);
                  && k.current in r.sleep && k.current in r.ts && r.ts[k.current].wakeup == w && r.callTime <= w
                  && r.status[k.current] == Blocked && r.ticks == k.ticks
  {
    hide OneList, Ordered, Statuses, AlarmSet, Insert, Known, StatusOk;
    var c, k1 := k.current, Step(k, SetWakeup(w));
    StepSound(k, SetWakeup(w));
    var k2 := Step(k1, Announce);
    StepSound(k1, Announce);
    StepSound(k2, Sleep);
    assert k2.stage[c] == Announced && k2.ts[c].wakeup == w;
    StepSleepers(k2, Sleep, c, c);
    StatusChange(k2, Sleep, c);
    NotQueued(k2);
  }
}
