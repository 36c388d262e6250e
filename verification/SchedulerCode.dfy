/** The scheduler and the timer as they update their global variables. */
module SchedulerCode {
  import opened Wrappers
  import opened SchedulerModel
  import opened SchedulerEffects

  /** The loop of `list_insert_ordered`. */
  method InsertOrdered(o: Order, ts: map<Tid, Thread>, q: seq<Tid>, t: Tid) returns (r: seq<Tid>)
    requires Known(ts, q) && t in ts
    ensures r == Insert(o, ts, q, t)
  {
    var p := 0;
    assert q[0..] == q;
    while p < |q| && !Less(o, ts[t], ts[q[p]])
      invariant p <= |q| && Known(ts, q[p..])
      invariant Place(o, ts, q, ts[t]) == p + Place(o, ts, q[p..], ts[t])
    {
      assert q[p..][1..] == q[p + 1..];
      p := p + 1;
    }
    r := q[..p] + [t] + q[p..];
  }

  /** The sleep list holds distinct blocked threads, as it does in every sound state. */
  ghost predicate SleepersBlocked(k: Kernel)
    requires WellFormed(k)
  {
    Distinct(k.sleep) && forall i :: 0 <= i < |k.sleep| ==> k.status[k.sleep[i]] == Blocked
  }

  lemma SoundSleepers(k: Kernel)
    requires Sound(k)
    ensures SleepersBlocked(k)
  {
    assert Distinct(List(k, SleepList));
    forall i | 0 <= i < |k.sleep| ensures k.status[k.sleep[i]] == Blocked {
      assert On(k, k.sleep[i], SleepList) && StatusOk(k, k.sleep[i], true);
      assert Waiting(k, k.sleep[i]);
    }
  }

  lemma SoundFormed(k: Kernel)
    requires Sound(k)
    ensures WellFormed(k)
  {
  }

  lemma WakeHeadBlocked(k: Kernel)
    requires WellFormed(k) && SleepersBlocked(k) && k.sleep != []
    ensures SleepersBlocked(WakeHead(k))
  {
  }

  /** One turn of the loop in `thread_wakeup`. */
  lemma WakeTurn(k: Kernel)
    requires WellFormed(k) && k.sleep != []
    ensures k.sleep[0] in k.ts
    ensures WakeAll(k) == if k.ts[k.sleep[0]].wakeup <= k.ticks then WakeAll(WakeHead(k))
                          else UpdateCallTime(k, k.ts[k.sleep[0]].wakeup)
    ensures UpdateCallTime(k, k.ts[k.sleep[0]].wakeup).sleep == k.sleep
    ensures forall w :: SleepersBlocked(k) ==> SleepersBlocked(UpdateCallTime(k, w))
  {
  }

  class Scheduler {
    var ts: map<Tid, Thread>
    var status: map<Tid, Status>
    var stage: map<Tid, Stage>
    var current: Tid
    var idle: Tid
    var ready: seq<Tid>
    var sleep: seq<Tid>
    var waiters: map<int, seq<Tid>>
    var callTime: int
    var ticks: int

    ghost function View(): Kernel
      reads this
    {
      Kernel(ts, status, stage, current, idle, ready, sleep, waiters, callTime, ticks)
    }

    method ThreadUnblock(t: Tid)
      requires WellFormed(View()) && t in ts && status[t] == Blocked
      modifies this
      ensures View() == Unblock(old(View()), t)
    {
      ready := InsertOrdered(ByPriority, ts, ready, t);
      status := status[t := Ready];
    }

    method Schedule()
      requires WellFormed(View()) && status[current] != Running
      modifies this
      ensures View() == Dispatch(old(View()))
    {
      if ready == [] {
        current := idle;
      } else {
        current := ready[0];
        ready := ready[1..];
      }
      status := status[current := Running];
    }

    method ThreadYield()
      requires WellFormed(View())
      modifies this
      ensures View() == Step(old(View()), Yield)
    {
      if current != idle {
        ready := InsertOrdered(ByPriority, ts, ready, current);
      }
      status := status[current := Ready];
      Schedule();
    }

    /** `sema_down` on a semaphore whose value is zero. */
    method WaitOn(n: int)
      requires WellFormed(View()) && Enabled(View(), BlockOn(n))
      modifies this
      ensures View() == Step(old(View()), BlockOn(n))
    {
      waiters := waiters[n := (if n in waiters then waiters[n] else []) + [current]];
      status := status[current := Blocked];
      Schedule();
    }

    method ThreadSleep()
      requires WellFormed(View()) && Enabled(View(), Sleep)
      modifies this
      ensures View() == Step(old(View()), Sleep)
    {
      sleep := InsertOrdered(ByWakeup, ts, sleep, current);
      status := status[current := Blocked];
      Schedule();
    }

    method UpdateWakeupCallTime(wakeup: int)
      requires WellFormed(View())
      modifies this
      ensures View() == UpdateCallTime(old(View()), wakeup)
    {
      if wakeup < callTime {
        callTime := wakeup;
      }
    }

    method ThreadWakeup()
      requires WellFormed(View()) && SleepersBlocked(View())
      modifies this
      ensures View() == WakeAll(old(View()))
      ensures Sound(old(View())) ==> Rings(old(View()), ticks, View())
    {
      ghost var start := View();
      var more := true;
      while more && sleep != []
        invariant WellFormed(View()) && SleepersBlocked(View())
        invariant more ==> WakeAll(View()) == WakeAll(start)
        invariant !more ==> sleep != [] && View() == WakeAll(start)
        decreases more, |sleep|
      {
        ghost var k := View();
        WakeTurn(k);
        var t := sleep[0];
        if ts[t].wakeup <= ticks {
          WakeOne();
          WakeHeadBlocked(k);
        } else {
          UpdateWakeupCallTime(ts[t].wakeup);
          more := false;
        }
      }
      if sleep == [] {
        UpdateWakeupCallTime(INT64_MAX);
      }
      WakeAllTicks(start);
      if Sound(start) { WakeAllRings(start); }
    }

    method WakeOne()
      requires WellFormed(View()) && SleepersBlocked(View()) && sleep != []
      modifies this
      ensures View() == WakeHead(old(View()))
    {
      var t := sleep[0];
      sleep := sleep[1..];
      stage := stage[t := Awake];
      ThreadUnblock(t);
    }

    method TimerInterrupt()
      requires Sound(View())
      modifies this
      ensures View() == Step(old(View()), Tick) && Rings(old(View()), old(ticks) + 1, View())
    {
      hide Sound, Rings;
      TickRings(View());
      SoundSleepers(View());
      SoundFormed(View());
      ticks := ticks + 1;
      if callTime <= ticks {
        ThreadWakeup();
      }
    }
  }
}
