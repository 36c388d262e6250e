/** Condition variables: a queue of waiters, each with a semaphore of its own, guarded by one lock. */
module MonitorModel {
  import opened Wrappers
  import opened SemaphoreModel
  import opened LockModel

  /** Where a thread is inside `cond_wait`: queued and releasing the lock, at `sema_down` on its own semaphore, or
      past it and acquiring the lock again. */
  datatype Stage = Pushed | Downing | Back

  /** `semas` are the waiters' semaphores, on their stacks from the push to the return of `sema_down`;
      `signal[t]` is the waiter that signaller `t` has taken off the queue and not yet upped. */
  datatype Monitor = Monitor(lock: Lock, queue: seq<Tid>, semas: map<Tid, Sema>, wait: map<Tid, Stage>,
                             signal: map<Tid, Tid>)

  /** `Push(t)`: entry to `cond_wait`. `WaitDown(t)`: one turn of the loop in its `sema_down`.
      `Pop(t)`: entry to `cond_signal`. `SignalUp(t)`: its `sema_up`. */
  datatype MonitorEvent = OnLock(e: LockEvent) | Push(t: Tid) | WaitDown(t: Tid) | Pop(t: Tid) | SignalUp(t: Tid)

  function NewMonitor(): Monitor {
    Monitor(NewLock(), [], map[], map[], map[])
  }

  predicate In(m: Monitor, t: Tid, s: Stage) {
    t in m.wait && m.wait[t] == s
  }

  /** A thread in neither `cond_wait` nor `cond_signal`. */
  predicate Free(m: Monitor, t: Tid) {
    t !in m.wait && t !in m.signal
  }

  predicate MonitorEnabled(m: Monitor, e: MonitorEvent) {
    match e
    case OnLock(le) =>
      && LockEnabled(m.lock, le)
      && match le {
           case Acquire(t) => Free(m, t) || In(m, t, Back)
           case SetHolder(t) => Free(m, t) || In(m, t, Back)
           case TryAcquire(t) => Free(m, t)
           case ClearHolder(t) => Free(m, t) || In(m, t, Pushed)
           case LockUp(t) => Free(m, t) || In(m, t, Pushed)
         }
    case Push(t) => Free(m, t) && (Outside(m.lock, t) || At(m.lock, t, Owner))
    case WaitDown(t) => In(m, t, Downing) && t in m.semas && t !in m.semas[t].waiters
    case Pop(t) => Free(m, t) && (Outside(m.lock, t) || At(m.lock, t, Owner))
    case SignalUp(t) => t in m.signal
  }

  /** The state after a step; `None` when an assertion fails or a signal goes to a semaphore that is gone. */
  function MonitorStep(m: Monitor, e: MonitorEvent): Option<Monitor> {
    match e
    case OnLock(le) =>
      var l := LockStep(m.lock, le);
      if l.None? then None
      else
        Some(m.(lock := l.value,
                wait := if le.SetHolder? then m.wait - {le.t}
                        else if le.LockUp? && le.t in m.wait then m.wait[le.t := Downing]
                        else m.wait))
    case Push(t) =>
      if m.lock.holder != Some(t) then None
      else Some(m.(queue := m.queue + [t], semas := m.semas[t := Init(0)], wait := m.wait[t := Pushed]))
    case WaitDown(t) =>
      if t !in m.semas then None
      else
        var s := Step(m.semas[t], Down(t));
        if m.semas[t].value == 0 then Some(m.(semas := m.semas[t := s]))
        else Some(m.(semas := m.semas - {t}, wait := m.wait[t := Back]))
    case Pop(t) =>
      if m.lock.holder != Some(t) then None
      else if m.queue == [] then Some(m)
      else Some(m.(queue := m.queue[1..], signal := m.signal[t := m.queue[0]]))
    case SignalUp(t) =>
      if t !in m.signal || m.signal[t] !in m.semas then None
      else
        var w := m.signal[t];
        Some(m.(semas := m.semas[w := Step(m.semas[w], Up)], signal := m.signal - {t}))
  }

  // ---------------------------------------------------------------- the invariant

  /** Where each thread in `cond_wait` or `cond_signal` stands with respect to the lock. */
  ghost predicate Placed(m: Monitor, t: Tid) {
    && (t in m.semas <==> In(m, t, Pushed) || In(m, t, Downing))
    && (In(m, t, Pushed) ==> At(m.lock, t, Owner) || At(m.lock, t, Leaving))
    && (In(m, t, Downing) ==> Outside(m.lock, t))
    && (In(m, t, Back) ==> t !in m.lock.inside || At(m.lock, t, Entered))
    && (t in m.signal ==> At(m.lock, t, Owner) && t !in m.wait)
  }

  /** A waiter that a signal has been delivered to. */
  ghost predicate Signalled(m: Monitor, t: Tid) {
    t in m.semas && t !in m.queue && t !in m.signal.Values
  }

  /** A waiter's semaphore holds one unit if it was signalled and none otherwise, only the waiter blocks on it, and
      a signalled waiter is not blocked. */
  ghost predicate Delivered(m: Monitor, t: Tid) {
    t in m.semas ==>
      && m.semas[t].value == (if Signalled(m, t) then 1 else 0)
      && (m.semas[t].waiters == [] || (m.semas[t].waiters == [t] && !Signalled(m, t)))
  }

  ghost predicate MonitorSound(m: Monitor) {
    && LockSound(m.lock)
    && (forall t: Tid :: Placed(m, t))
    && Distinct(m.queue)
    && (forall t :: t in m.queue ==> t in m.semas && t !in m.signal.Values)
    && (forall t :: t in m.signal ==> m.signal[t] in m.semas)
    && (forall t :: t in m.semas ==> Delivered(m, t))
  }

  /** Only the thread that owns the lock can be signalling. */
  lemma OneSignaller(m: Monitor, t: Tid, u: Tid)
    requires MonitorSound(m) && At(m.lock, t, Owner) && u in m.signal
    ensures u == t
  {
    assert Placed(m, u);
    MutualExclusion(m.lock, t, u);
  }

  lemma NoOtherSignal(m: Monitor, t: Tid)
    requires MonitorSound(m) && At(m.lock, t, Owner)
    ensures t !in m.signal ==> m.signal == map[]
    ensures t in m.signal ==> m.signal == map[t := m.signal[t]]
  {
    forall u | u in m.signal ensures u == t { OneSignaller(m, t, u); }
  }

  // ---------------------------------------------------------------- lock steps

  /** A lock step moves only its own thread. */
  lemma LockStepOthers(l: Lock, e: LockEvent, u: Tid)
    requires LockStep(l, e).Some? && u != e.t
    ensures var m := LockStep(l, e).value;
            && (u in m.inside <==> u in l.inside)
            && (u in l.inside ==> m.inside[u] == l.inside[u])
            && (Outside(l, u) ==> Outside(m, u))
  {
    var m := LockStep(l, e).value;
    if Outside(l, u) && e.LockUp? && l.sema.waiters != [] {
      assert l.sema.waiters[0] in l.sema.waiters;
      assert forall x :: x in l.sema.waiters[1..] ==> x in l.sema.waiters;
    }
  }

  lemma OnLockPlacedOther(m: Monitor, e: LockEvent, u: Tid)
    requires MonitorEnabled(m, OnLock(e)) && MonitorStep(m, OnLock(e)).Some?
    requires u != e.t && Placed(m, u)
    ensures Placed(MonitorStep(m, OnLock(e)).value, u)
  {
    LockStepOthers(m.lock, e, u);
  }

  lemma OnLockPlacedSelf(m: Monitor, e: LockEvent)
    requires MonitorEnabled(m, OnLock(e)) && MonitorStep(m, OnLock(e)).Some?
    requires LockSound(m.lock) && Placed(m, e.t)
    ensures Placed(MonitorStep(m, OnLock(e)).value, e.t)
  {
    var t := e.t;
    match e
    case Acquire(_) => assert m.lock.holder == Some(t) <==> At(m.lock, t, Owner);
    case TryAcquire(_) =>
    case SetHolder(_) =>
    case ClearHolder(_) =>
    case LockUp(_) =>
      if m.lock.sema.waiters != [] { assert m.lock.sema.waiters[0] in m.lock.sema.waiters; }
      assert forall x :: x in Step(m.lock.sema, Up).waiters ==> x in m.lock.sema.waiters;
  }

  lemma OnLockSound(m: Monitor, e: LockEvent)
    requires MonitorSound(m) && MonitorEnabled(m, OnLock(e)) && MonitorStep(m, OnLock(e)).Some?
    ensures MonitorSound(MonitorStep(m, OnLock(e)).value)
  {
    hide LockSound, Placed, LockEnabled, Distinct, LockStep;
    var n := MonitorStep(m, OnLock(e)).value;
    LockStepSound(m.lock, e);
    forall u: Tid ensures Placed(n, u) {
      if u == e.t { OnLockPlacedSelf(m, e); } else { OnLockPlacedOther(m, e, u); }
    }
    assert forall t :: t in n.semas ==> Signalled(n, t) == Signalled(m, t);
  }

  // ---------------------------------------------------------------- condition steps

  lemma PushSound(m: Monitor, t: Tid)
    requires MonitorSound(m) && MonitorEnabled(m, Push(t)) && MonitorStep(m, Push(t)).Some?
    ensures MonitorSound(MonitorStep(m, Push(t)).value)
  {
    var n := MonitorStep(m, Push(t)).value;
    assert At(m.lock, t, Owner);
    assert Placed(m, t) && t !in m.semas;
    hide LockSound;
    forall u: Tid ensures Placed(n, u) { assert Placed(m, u); }
    NoOtherSignal(m, t);
    hide Placed;
    forall u | u in n.semas ensures Delivered(n, u) {
      if u != t { assert Delivered(m, u) && (u in n.queue <==> u in m.queue); }
    }
  }

  lemma WaitDownSound(m: Monitor, t: Tid)
    requires MonitorSound(m) && MonitorEnabled(m, WaitDown(t)) && MonitorStep(m, WaitDown(t)).Some?
    ensures MonitorSound(MonitorStep(m, WaitDown(t)).value)
  {
    hide LockSound, Distinct;
    var n := MonitorStep(m, WaitDown(t)).value;
    assert Delivered(m, t);
    forall u: Tid ensures Placed(n, u) { assert Placed(m, u); }
    hide Placed;
    forall u | u in n.semas ensures Delivered(n, u) {
      assert Delivered(m, u);
      assert Signalled(n, u) == Signalled(m, u);
    }
    assert m.semas[t].value > 0 ==> Signalled(m, t);
  }

  lemma PopSound(m: Monitor, t: Tid)
    requires MonitorSound(m) && MonitorEnabled(m, Pop(t)) && MonitorStep(m, Pop(t)).Some?
    ensures MonitorSound(MonitorStep(m, Pop(t)).value)
  {
    var n := MonitorStep(m, Pop(t)).value;
    assert At(m.lock, t, Owner);
    NoOtherSignal(m, t);
    hide LockSound;
    if m.queue != [] {
      var w := m.queue[0];
      assert w in m.queue;
      assert m.signal[t := w] == map[t := w];
      forall u: Tid ensures Placed(n, u) { assert Placed(m, u); }
      hide Placed;
      assert forall u :: u in m.queue[1..] ==> u in m.queue && u != w;
      forall u | u in n.semas ensures Delivered(n, u) {
        assert Delivered(m, u);
        assert Signalled(n, u) == Signalled(m, u) by {
          assert u in m.queue <==> u == w || u in m.queue[1..] by { assert m.queue == [w] + m.queue[1..]; }
        }
      }
    }
  }

  lemma SignalUpSound(m: Monitor, t: Tid)
    requires MonitorSound(m) && MonitorEnabled(m, SignalUp(t))
    ensures MonitorStep(m, SignalUp(t)).Some?
    ensures MonitorSound(MonitorStep(m, SignalUp(t)).value)
  {
    assert Placed(m, t);
    NoOtherSignal(m, t);
    hide LockSound, Distinct;
    var n := MonitorStep(m, SignalUp(t)).value;
    var w := m.signal[t];
    assert n.signal == map[];
    assert w in m.signal.Values;
    assert Delivered(m, w) && !Signalled(m, w);
    forall u: Tid ensures Placed(n, u) { assert Placed(m, u); }
    hide Placed;
    forall u | u in n.semas ensures Delivered(n, u) {
      assert Delivered(m, u);
      assert u != w ==> u !in m.signal.Values;
    }
  }

  /** Every step keeps the invariant. */
  lemma MonitorStepSound(m: Monitor, e: MonitorEvent)
    requires MonitorSound(m) && MonitorEnabled(m, e) && MonitorStep(m, e).Some?
    ensures MonitorSound(MonitorStep(m, e).value)
  {
    hide MonitorSound, MonitorEnabled, MonitorStep;
    match e
    case OnLock(le) => OnLockSound(m, le);
    case Push(t) => PushSound(m, t);
    case WaitDown(t) => WaitDownSound(m, t);
    case Pop(t) => PopSound(m, t);
    case SignalUp(t) => SignalUpSound(m, t);
  }

  // ---------------------------------------------------------------- what signals do

  /** A waiter gets past its `sema_down` exactly when it has been signalled: none returns unsignalled, and a signal
      that comes before the waiter reaches `sema_down` is not lost. */
  lemma ReturnsIffSignalled(m: Monitor, t: Tid)
    requires MonitorSound(m) && In(m, t, Downing)
    ensures t in m.semas
    ensures Signalled(m, t) ==> MonitorEnabled(m, WaitDown(t))
    ensures MonitorEnabled(m, WaitDown(t)) ==>
              (In(MonitorStep(m, WaitDown(t)).value, t, Back) <==> Signalled(m, t))
  {
    assert Placed(m, t) && Delivered(m, t);
  }

  /** One call of `cond_signal` on a nonempty queue, however the steps of other threads fall between its two:
      the first takes the earliest waiter, the second signals that waiter and no other. */
  lemma SignalReleasesEarliest(m: Monitor, t: Tid)
    requires MonitorSound(m) && MonitorEnabled(m, SignalUp(t))
    ensures var w := m.signal[t];
            && MonitorStep(m, SignalUp(t)).Some?
            && w !in m.queue && !Signalled(m, w)
            && forall u :: Signalled(MonitorStep(m, SignalUp(t)).value, u) <==> Signalled(m, u) || u == w
  {
    assert Placed(m, t);
    NoOtherSignal(m, t);
    var w := m.signal[t];
    assert w in m.signal.Values;
    var n := MonitorStep(m, SignalUp(t)).value;
    assert n.signal == map[];
    forall u ensures Signalled(n, u) <==> Signalled(m, u) || u == w {
      assert u != w ==> u !in m.signal.Values;
    }
  }

  function Actor(e: MonitorEvent): Tid {
    if e.OnLock? then e.e.t else e.t
  }

  /** Only the thread that owns the lock changes the queue. */
  lemma OnlyOwnerQueues(m: Monitor, e: MonitorEvent)
    requires MonitorSound(m) && MonitorEnabled(m, e) && MonitorStep(m, e).Some?
    ensures MonitorStep(m, e).value.queue != m.queue ==> At(m.lock, Actor(e), Owner)
  {
  }

  // ---------------------------------------------------------------- every run

  function MonitorRun(m: Monitor, es: seq<MonitorEvent>): Option<Monitor> {
    if es == [] then Some(m)
    else
      var k := MonitorRun(m, es[..|es| - 1]);
      if k.None? then None else MonitorStep(k.value, es[|es| - 1])
  }

  predicate MonitorRuns(m: Monitor, es: seq<MonitorEvent>) {
    es == [] || (&& MonitorRuns(m, es[..|es| - 1])
                 && MonitorRun(m, es[..|es| - 1]).Some?
                 && MonitorEnabled(MonitorRun(m, es[..|es| - 1]).value, es[|es| - 1]))
  }

  lemma RunTurn(m: Monitor, es: seq<MonitorEvent>)
    requires es != [] && MonitorRuns(m, es) && MonitorRun(m, es).Some?
    ensures var before := es[..|es| - 1];
            && MonitorRuns(m, before) && MonitorRun(m, before).Some?
            && MonitorEnabled(MonitorRun(m, before).value, es[|es| - 1])
            && MonitorRun(m, es) == MonitorStep(MonitorRun(m, before).value, es[|es| - 1])
  {
  }

  lemma {:induction false} EveryMonitorRun(m: Monitor, es: seq<MonitorEvent>)
    requires MonitorSound(m) && MonitorRuns(m, es) && MonitorRun(m, es).Some?
    ensures MonitorSound(MonitorRun(m, es).value)
    decreases |es|
  {
    if es != [] {
      hide MonitorSound, MonitorStep, MonitorEnabled, MonitorRun, MonitorRuns;
      RunTurn(m, es);
      EveryMonitorRun(m, es[..|es| - 1]);
      MonitorStepSound(MonitorRun(m, es[..|es| - 1]).value, es[|es| - 1]);
    }
  }

  lemma NewMonitorSound()
    ensures MonitorSound(NewMonitor())
  {
  }

  /** The threads that entered `cond_wait`, in order. */
  function Pushes(es: seq<MonitorEvent>): seq<Tid> {
    if es == [] then []
    else Pushes(es[..|es| - 1]) + if es[|es| - 1].Push? then [es[|es| - 1].t] else []
  }

  /** The waiters that signals took off the queue, in order. */
  function Pops(m: Monitor, es: seq<MonitorEvent>): seq<Tid> {
    if es == [] then []
    else
      var k := MonitorRun(m, es[..|es| - 1]);
      Pops(m, es[..|es| - 1])
      + if es[|es| - 1].Pop? && k.Some? && k.value.queue != [] then [k.value.queue[0]] else []
  }

  /** Waiters are signalled in the order in which they began to wait. */
  lemma {:induction false} SignalsInOrder(es: seq<MonitorEvent>)
    requires MonitorRuns(NewMonitor(), es) && MonitorRun(NewMonitor(), es).Some?
    ensures Pushes(es) == Pops(NewMonitor(), es) + MonitorRun(NewMonitor(), es).value.queue
    decreases |es|
  {
    hide *;
    if es == [] {
      NoEvents(es);
    } else {
      var m, before, e := NewMonitor(), es[..|es| - 1], es[|es| - 1];
      RunTurn(m, es);
      SignalsInOrder(before);
      var k := MonitorRun(m, before).value;
      QueueStep(k, e);
      OrderTurn(m, es);
      Appended(Pushes(before), Pops(m, before), k.queue);
    }
  }

  lemma NoEvents(es: seq<MonitorEvent>)
    requires es == []
    ensures Pushes(es) == Pops(NewMonitor(), es) + MonitorRun(NewMonitor(), es).value.queue
  {
  }

  lemma Appended(all: seq<Tid>, front: seq<Tid>, back: seq<Tid>)
    requires all == front + back
    ensures back != [] ==> all == (front + [back[0]]) + back[1..]
    ensures forall t: Tid :: all + [t] == front + (back + [t])
  {
  }

  lemma QueueStep(k: Monitor, e: MonitorEvent)
    requires MonitorStep(k, e).Some?
    ensures MonitorStep(k, e).value.queue == if e.Push? then k.queue + [e.t]
                                             else if e.Pop? && k.queue != [] then k.queue[1..]
                                             else k.queue
  {
  }

  lemma OrderTurn(m: Monitor, es: seq<MonitorEvent>)
    requires es != [] && MonitorRun(m, es[..|es| - 1]).Some?
    ensures var before, e, k := es[..|es| - 1], es[|es| - 1], MonitorRun(m, es[..|es| - 1]).value;
            && Pushes(es) == Pushes(before) + (if e.Push? then [e.t] else [])
            && Pops(m, es) == Pops(m, before) + (if e.Pop? && k.queue != [] then [k.queue[0]] else [])
  {
  }

  /** How often signaller `t` took a waiter off the queue. */
  function PopsBy(t: Tid, es: seq<MonitorEvent>): nat {
    if es == [] then 0 else PopsBy(t, es[..|es| - 1]) + if es[|es| - 1] == Pop(t) then 1 else 0
  }

  /** In its loop, `cond_broadcast` takes no steps but signals. */
  ghost predicate OnlySignals(t: Tid, es: seq<MonitorEvent>) {
    forall i :: 0 <= i < |es| && Actor(es[i]) == t ==> es[i] == Pop(t) || es[i] == SignalUp(t)
  }

  /** `cond_broadcast` by the owner of the lock, with any steps of other threads in between: no waiter joins the
      queue, so the loop ends after one signal for each thread that was waiting when it began. */
  lemma {:induction false} BroadcastDrains(m: Monitor, es: seq<MonitorEvent>, t: Tid)
    requires MonitorSound(m) && MonitorRuns(m, es) && MonitorRun(m, es).Some?
    requires At(m.lock, t, Owner) && OnlySignals(t, es)
    ensures var n := MonitorRun(m, es).value;
            && At(n.lock, t, Owner)
            && n.queue == m.queue[if PopsBy(t, es) <= |m.queue| then PopsBy(t, es) else |m.queue|..]
    decreases |es|
  {
    if es != [] {
      var before, e := es[..|es| - 1], es[|es| - 1];
      RunTurn(m, es);
      assert OnlySignals(t, before) && (Actor(e) == t ==> e == Pop(t) || e == SignalUp(t));
      BroadcastDrains(m, before, t);
      EveryMonitorRun(m, before);
      var k := MonitorRun(m, before).value;
      DrainStep(k, e, t);
      assert PopsBy(t, es) == PopsBy(t, before) + if e == Pop(t) then 1 else 0;
    }
  }

  lemma DrainStep(k: Monitor, e: MonitorEvent, t: Tid)
    requires MonitorSound(k) && MonitorEnabled(k, e) && MonitorStep(k, e).Some?
    requires At(k.lock, t, Owner) && (Actor(e) == t ==> e == Pop(t) || e == SignalUp(t))
    ensures var n := MonitorStep(k, e).value;
            && At(n.lock, t, Owner)
            && n.queue == if e == Pop(t) && k.queue != [] then k.queue[1..] else k.queue
  {
    if Actor(e) != t {
      if At(k.lock, Actor(e), Owner) { MutualExclusion(k.lock, t, Actor(e)); }
      OnlyOwnerQueues(k, e);
      if e.OnLock? { LockStepOthers(k.lock, e.e, t); }
    }
  }

  // ---------------------------------------------------------------- one call, from end to end

  /** The step can be taken, fails no assertion, and leads to `n`. */
  ghost predicate Goes(m: Monitor, e: MonitorEvent, n: Monitor) {
    MonitorEnabled(m, e) && MonitorStep(m, e) == Some(n)
  }

  lemma BlocksOnOwn(m: Monitor, t: Tid)
    requires In(m, t, Downing) && t in m.semas && m.semas[t] == Init(0)
    ensures MonitorEnabled(m, WaitDown(t))
    ensures MonitorStep(m, WaitDown(t)) == Some(m.(semas := m.semas[t := Sema(0, [t], {})]))
  {
    assert Step(Init(0), Down(t)) == Sema(0, [t], {});
  }

  lemma PassesOwn(m: Monitor, t: Tid)
    requires In(m, t, Downing) && t in m.semas && m.semas[t].value > 0 && m.semas[t].waiters == []
    ensures MonitorEnabled(m, WaitDown(t))
    ensures MonitorStep(m, WaitDown(t)) == Some(m.(semas := m.semas - {t}, wait := m.wait[t := Back]))
  {
  }

  /** `cond_wait` by the owner of the lock, if nobody signals it: it ends up last in the queue and blocked on its own
      semaphore, and the lock is free with its first waiter woken. */
  lemma WaitReleases(m: Monitor, t: Tid) returns (m1: Monitor, m2: Monitor, m3: Monitor, n: Monitor)
    requires MonitorSound(m) && Free(m, t) && At(m.lock, t, Owner)
    ensures Goes(m, Push(t), m1) && Goes(m1, OnLock(ClearHolder(t)), m2)
    ensures Goes(m2, OnLock(LockUp(t)), m3) && Goes(m3, WaitDown(t), n)
    ensures n.queue == m.queue + [t] && n.signal == m.signal
    ensures n.semas == m.semas[t := Sema(0, [t], {})] && n.wait == m.wait[t := Downing]
    ensures n.lock.sema.value == 1 && n.lock.holder == None && n.lock.inside == map[] && Outside(n.lock, t)
    ensures WokeFirst(m.lock.sema, n.lock.sema)
  {
    m1 := m.(queue := m.queue + [t], semas := m.semas[t := Init(0)], wait := m.wait[t := Pushed]);
    assert m.lock.holder == Some(t);
    hide LockStep, LockSound, Placed, Delivered, Step, Distinct, WokeFirst;
    ReleaseEffect(m.lock, t);
    var l1 := LockStep(m.lock, ClearHolder(t)).value;
    m2 := m1.(lock := l1);
    m3 := m2.(lock := LockStep(l1, LockUp(t)).value, wait := m1.wait[t := Downing]);
    n := m3.(semas := m.semas[t := Sema(0, [t], {})]);
    BlocksOnOwn(m3, t);
    assert m3.semas[t := Sema(0, [t], {})] == n.semas;
  }

  /** `cond_signal` by the owner of the lock with threads waiting: the earliest waiter leaves the queue and its
      semaphore gets one unit. */
  lemma SignalDelivers(m: Monitor, t: Tid) returns (m1: Monitor, n: Monitor)
    requires MonitorSound(m) && Free(m, t) && At(m.lock, t, Owner) && m.queue != []
    ensures Goes(m, Pop(t), m1) && Goes(m1, SignalUp(t), n)
    ensures var w := m.queue[0];
            && m.queue == [w] + n.queue && n.lock == m.lock && n.wait == m.wait && n.signal == m.signal
            && w in m.semas && w in n.semas && n.semas == m.semas[w := n.semas[w]]
            && n.semas[w].value == 1 && n.semas[w].waiters == [] && Signalled(n, w)
  {
    var w := m.queue[0];
    assert w in m.queue && Delivered(m, w);
    assert m.lock.holder == Some(t);
    NoOtherSignal(m, t);
    hide LockSound, Placed;
    m1 := m.(queue := m.queue[1..], signal := m.signal[t := w]);
    n := m1.(semas := m.semas[w := Step(m.semas[w], Up)], signal := m.signal);
    assert m1.signal - {t} == m.signal;
    assert w !in m.queue[1..];
  }

  /** With an empty queue `cond_signal` changes nothing. */
  lemma SignalNobody(m: Monitor, t: Tid)
    requires MonitorSound(m) && Free(m, t) && At(m.lock, t, Owner) && m.queue == []
    ensures Goes(m, Pop(t), m)
  {
  }

  /** A thread that is back from its semaphore takes the lock if it is free. */
  lemma TakesLock(m: Monitor, t: Tid) returns (m2: Monitor, m3: Monitor)
    requires LockSound(m.lock) && In(m, t, Back) && Outside(m.lock, t) && m.lock.sema.value == 1
    ensures Goes(m, OnLock(Acquire(t)), m2) && Goes(m2, OnLock(SetHolder(t)), m3)
    ensures m3 == m.(lock := Lock(m.lock.sema.(value := 0), Some(t), map[t := Owner]), wait := m.wait - {t})
  {
    hide LockStep, Sound, Step;
    NobodyInside(m.lock);
    AcquireEffect(m.lock, t);
    LockStepSound(m.lock, Acquire(t));
    hide LockSound;
    var l1 := LockStep(m.lock, Acquire(t)).value;
    SetHolderEffect(l1, t);
    m2 := m.(lock := l1);
    m3 := m.(lock := LockStep(l1, SetHolder(t)).value, wait := m.wait - {t});
    assert m.lock.sema.woken - {t} == m.lock.sema.woken;
  }

  lemma ReadyToReturn(m: Monitor, t: Tid)
    requires MonitorSound(m) && In(m, t, Downing) && Signalled(m, t)
    ensures t in m.semas && m.semas[t].value > 0 && m.semas[t].waiters == []
    ensures LockSound(m.lock) && Outside(m.lock, t) && t !in m.signal
  {
    hide LockSound;
    assert Placed(m, t) && Delivered(m, t);
  }

  /** A signalled waiter returns from `cond_wait` owning the lock, once that is free. */
  lemma WaiterReturns(m: Monitor, t: Tid) returns (m1: Monitor, m2: Monitor, n: Monitor)
    requires MonitorSound(m) && In(m, t, Downing) && Signalled(m, t) && m.lock.sema.value == 1
    ensures Goes(m, WaitDown(t), m1) && Goes(m1, OnLock(Acquire(t)), m2) && Goes(m2, OnLock(SetHolder(t)), n)
    ensures n.queue == m.queue && n.signal == m.signal && n.semas == m.semas - {t} && n.wait == m.wait - {t}
    ensures At(n.lock, t, Owner) && n.lock.holder == Some(t) && n.lock.sema == m.lock.sema.(value := 0) && Free(n, t)
  {
    ReadyToReturn(m, t);
    hide MonitorSound, LockSound, Signalled;
    PassesOwn(m, t);
    hide MonitorStep, MonitorEnabled;
    m1 := m.(semas := m.semas - {t}, wait := m.wait[t := Back]);
    assert Goes(m, WaitDown(t), m1);
    hide Goes;
    m2, n := TakesLock(m1, t);
    assert m1.wait - {t} == m.wait - {t};
  }
}
