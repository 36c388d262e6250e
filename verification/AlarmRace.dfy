/**
 The alarm when a thread may be preempted inside `update_wakeup_call_time`, between its compare and its store.  The
 scheduler is that of `SchedulerModel`, with the announcement of a wake-up time split in two steps.
 */
module AlarmRace {
  import opened Wrappers
  import opened SchedulerModel
  import opened SchedulerTheorems

  /** `passed` holds the outcome of the compare of each thread that has not come to its store. */
  datatype Race = Race(k: Kernel, passed: map<Tid, bool>)

  datatype RaceEvent = Plain(e: Event) | Compare | Store

  predicate RaceEnabled(r: Race, e: RaceEvent)
    requires WellFormed(r.k)
  {
    var c := r.k.current;
    match e
    case Plain(x) => x != Announce && Enabled(r.k, x)
    case Compare => Enabled(r.k, Announce) && c !in r.passed
    case Store => Enabled(r.k, Announce) && c in r.passed
  }

  function RaceStep(r: Race, e: RaceEvent): (r': Race)
    requires WellFormed(r.k) && RaceEnabled(r, e)
    ensures WellFormed(r'.k)
  {
    var c := r.k.current;
    match e
    case Plain(x) => r.(k := Step(r.k, x))
    case Compare => r.(passed := r.passed[c := r.k.ts[c].wakeup < r.k.callTime])
    case Store =>
      var k := r.k.(stage := r.k.stage[c := Announced]);
      Race(if r.passed[c] then k.(callTime := k.ts[c].wakeup) else k, r.passed - {c})
  }

  function RaceRun(r: Race, es: seq<RaceEvent>): Option<Race> {
    if es == [] then Some(r)
    else
      var before := RaceRun(r, es[..|es| - 1]);
      if before.Some? && WellFormed(before.value.k) && RaceEnabled(before.value, es[|es| - 1])
      then Some(RaceStep(before.value, es[|es| - 1]))
      else None
  }

  // ---------------------------------------------------------------- what the race cannot hurt

  /** All that holds between steps, except that the alarm need not be early enough. */
  ghost predicate SoundButAlarm(k: Kernel) {
    WellFormed(k) && OneList(k) && Ordered(k) && Statuses(k, true)
  }

  function At(k: Kernel, callTime: int): Kernel {
    k.(callTime := callTime)
  }

  /** No thread's wake-up time is before `low`. */
  ghost predicate Below(ts: map<Tid, Thread>, low: int) {
    forall t :: t in ts ==> low <= ts[t].wakeup
  }

  lemma {:induction false} SomeLow(ts: map<Tid, Thread>) returns (low: int)
    ensures Below(ts, low)
    decreases |ts|
  {
    if ts.Keys == {} {
      low := 0;
    } else {
      var t :| t in ts;
      var rest := ts - {t};
      assert rest.Keys == ts.Keys - {t};
      low := SomeLow(rest);
      assert forall u :: u in ts && u != t ==> u in rest && rest[u] == ts[u];
      if ts[t].wakeup < low { low := ts[t].wakeup; }
    }
  }

  /** Only the alarm depends on the call time. */
  lemma SetCallTime(k: Kernel, time: int)
    requires WellFormed(k) && OneList(k) && Ordered(k) && Statuses(k, true)
    ensures SoundButAlarm(At(k, time)) && (AlarmSet(At(k, time)) ==> Sound(At(k, time)))
  {
    var r := At(k, time);
    SameLists(k, r);
    hide OneList, Sorted, Known;
    forall t | t in r.ts ensures StatusOk(r, t, true) {
      assert StatusOk(k, t, true);
      StatusFrame(k, r, t, true, true);
    }
  }

  lemma LowIsSound(k: Kernel, low: int)
    requires SoundButAlarm(k) && Below(k.ts, low)
    ensures Sound(At(k, low))
  {
    hide OneList, Ordered, Statuses;
    SetCallTime(k, low);
  }

  /** Waking threads does not depend on the call time. */
  lemma {:induction false} WakeAllAt(k: Kernel, time: int)
    requires WellFormed(k)
    ensures At(WakeAll(At(k, time)), 0) == At(WakeAll(k), 0)
    decreases |k.sleep|
  {
    hide Insert;
    if k.sleep != [] && k.ts[k.sleep[0]].wakeup <= k.ticks {
      assert WakeHead(At(k, time)) == At(WakeHead(k), time);
      WakeAllAt(WakeHead(k), time);
    }
  }

  /** Nor does any other step. */
  lemma StepAt(k: Kernel, e: Event, time: int)
    requires WellFormed(k) && Enabled(k, e) && e != Tick && e != Announce
    ensures Step(At(k, time), e) == At(Step(k, e), time)
  {
    hide Insert, Known, WakeAll;
  }

  lemma PlainKeeps(k: Kernel, e: Event)
    requires SoundButAlarm(k) && Enabled(k, e) && e != Announce
    ensures SoundButAlarm(Step(k, e))
  {
    hide OneList, Ordered, Statuses, AlarmSet, Below, Known;
    var low := SomeLow(k.ts);
    LowIsSound(k, low);
    StepSound(At(k, low), e);
    if e != Tick {
      StepAt(k, e, low);
      SetCallTime(Step(At(k, low), e), Step(k, e).callTime);
    } else {
      TickKeeps(k, low);
    }
  }

  lemma TickKeeps(k: Kernel, low: int)
    requires SoundButAlarm(k) && Sound(At(k, low))
    ensures SoundButAlarm(Interrupt(k))
  {
    hide OneList, Ordered, Statuses, AlarmSet, WakeAll, Known;
    var k1 := k.(ticks := k.ticks + 1);
    TickedSound(At(k, low));
    assert At(k, low).(ticks := k.ticks + 1) == At(k1, low);
    WakeAllSound(At(k1, low));
    WakeAllAt(k1, low);
    SetCallTime(WakeAll(At(k1, low)), WakeAll(k1).callTime);
    SetCallTime(At(k1, low), k1.callTime);
    assert At(At(k1, low), k1.callTime) == k1;
    assert At(WakeAll(At(k1, low)), WakeAll(k1).callTime) == WakeAll(k1) by {
      assert At(WakeAll(At(k1, low)), 0) == At(WakeAll(k1), 0);
    }
  }

  /** Every step keeps the lists, their order and the statuses, however the stores interleave. */
  lemma RaceKeeps(r: Race, e: RaceEvent)
    requires SoundButAlarm(r.k) && RaceEnabled(r, e)
    ensures SoundButAlarm(RaceStep(r, e).k)
  {
    hide OneList, Ordered, Statuses, Step;
    match e
    case Plain(x) => PlainKeeps(r.k, x);
    case Compare =>
    case Store =>
      var k, c := r.k, r.k.current;
      var low := SomeLow(k.ts);
      LowIsSound(k, low);
      OwnFieldsSound(At(k, low), k.ts[c], Announced, low);
      assert k.ts[c := k.ts[c]] == k.ts;
      SetCallTime(At(k, low).(stage := k.stage[c := Announced]), RaceStep(r, e).k.callTime);
  }

  lemma {:induction false} EveryRace(r: Race, es: seq<RaceEvent>)
    requires SoundButAlarm(r.k) && RaceRun(r, es).Some?
    ensures SoundButAlarm(RaceRun(r, es).value.k)
    decreases |es|
  {
    if es != [] {
      hide SoundButAlarm, RaceStep, RaceEnabled;
      EveryRace(r, es[..|es| - 1]);
      RaceKeeps(RaceRun(r, es[..|es| - 1]).value, es[|es| - 1]);
    }
  }

  // ---------------------------------------------------------------- who oversleeps

  /** After a timer interrupt a sleeping thread that is due still sleeps if and only if the alarm is set to a later
      time; one that is not due always does. */
  lemma PassedOverExactly(k: Kernel, t: Tid)
    requires SoundButAlarm(k) && t in k.sleep
    ensures t in Interrupt(k).sleep <==> k.ts[t].wakeup > k.ticks + 1 || k.callTime > k.ticks + 1
  {
    hide OneList, Ordered, Statuses, AlarmSet, WakeAll, Known, Below;
    var low := SomeLow(k.ts);
    LowIsSound(k, low);
    var k1 := k.(ticks := k.ticks + 1);
    TickedSound(At(k, low));
    assert At(k, low).(ticks := k.ticks + 1) == At(k1, low);
    WakeAllExact(At(k1, low));
    WakeAllAt(k1, low);
    assert WakeAll(At(k1, low)).sleep == At(WakeAll(At(k1, low)), 0).sleep == WakeAll(k1).sleep;
  }

  // ---------------------------------------------------------------- which stores are harmless

  /** A store leaves the alarm early enough for all if and only if no thread that has announced its time waits for an
      earlier one than is stored or, when nothing is stored, the alarm is not later than the thread's own time. */
  lemma StoreExact(r: Race)
    requires SoundButAlarm(r.k) && AlarmSet(r.k) && RaceEnabled(r, Store)
    ensures var c, w := r.k.current, r.k.ts[r.k.current].wakeup;
            AlarmSet(RaceStep(r, Store).k) <==>
              if r.passed[c] then forall u :: u in r.k.ts && r.k.stage[u] == Announced ==> w <= r.k.ts[u].wakeup
              else r.k.callTime <= w
  {
    hide OneList, Ordered, Statuses, Known;
    var k, k', c := r.k, RaceStep(r, Store).k, r.k.current;
    assert forall u :: u in k.ts && k.stage[u] == Announced ==> u != c && k'.stage[u] == Announced;
    assert k'.stage[c] == Announced;
  }

  /** The compare of a thread between compare and store is still right. */
  ghost predicate Accurate(r: Race, c: Tid)
    requires WellFormed(r.k) && c in r.passed
  {
    c in r.k.ts && r.k.stage[c] == TimeSet && (r.passed[c] <==> r.k.ts[c].wakeup < r.k.callTime)
  }

  /** At most one thread is between compare and store, and its compare is right. */
  ghost predicate Undisturbed(r: Race) {
    && Sound(r.k) && r.k.callTime <= INT64_MAX
    && (forall c :: c in r.passed ==> Accurate(r, c))
    && (forall c, d :: c in r.passed && d in r.passed ==> c == d)
  }

  /** A thread that is not asleep is not touched by the wake-up loop. */
  lemma {:induction false} WakeAllSpares(k: Kernel, c: Tid)
    requires Sound(k) && c in k.ts && k.stage[c] == TimeSet
    ensures WakeAll(k).ts == k.ts && WakeAll(k).stage[c] == TimeSet
    decreases |k.sleep|
  {
    hide OneList, Ordered, AlarmSet, Insert;
    if k.sleep != [] && k.ts[k.sleep[0]].wakeup <= k.ticks {
      assert On(k, k.sleep[0], SleepList) && StatusOk(k, k.sleep[0], true);
      hide Statuses;
      WakeHeadSound(k);
      WakeAllSpares(WakeHead(k), c);
    }
  }

  /** Other steps leave a thread between compare and store where it is, and the alarm as it is. */
  lemma PlainSpares(k: Kernel, e: Event, c: Tid)
    requires Sound(k) && k.callTime <= INT64_MAX && Enabled(k, e) && e != Announce && c in k.ts && k.stage[c] == TimeSet
    ensures var r := Step(k, e);
            && c in r.ts && r.stage[c] == TimeSet && r.ts[c].wakeup == k.ts[c].wakeup && r.callTime == k.callTime
  {
    hide OneList, Ordered, Statuses, AlarmSet, Insert, Known;
    AlarmOnlyEarlier(k, e);
    if e == Tick && k.callTime <= k.ticks + 1 {
      TickedSound(k);
      WakeAllSpares(k.(ticks := k.ticks + 1), c);
    }
  }

  /** The store of a compare that is still right is the undivided announcement. */
  lemma AccurateStore(r: Race)
    requires WellFormed(r.k) && RaceEnabled(r, Store) && Accurate(r, r.k.current)
    ensures RaceStep(r, Store).k == Step(r.k, Announce)
  {
  }

  lemma UndisturbedStep(r: Race, e: RaceEvent)
    requires Undisturbed(r) && RaceEnabled(r, e) && (e == Compare ==> r.passed == map[])
    ensures Undisturbed(RaceStep(r, e))
  {
    hide SoundAt, Step, Enabled;
    SoundIsFormed(r.k);
    match e
    case Plain(x) =>
      StepSound(r.k, x);
      AlarmOnlyEarlier(r.k, x);
      SoundIsFormed(Step(r.k, x));
      forall c | c in r.passed ensures Accurate(RaceStep(r, e), c) { PlainSpares(r.k, x, c); }
    case Compare =>
      TimeIsSet(r.k);
    case Store =>
      AccurateStore(r);
      StepSound(r.k, Announce);
      AlarmOnlyEarlier(r.k, Announce);
  }

  lemma SoundIsFormed(k: Kernel)
    requires Sound(k)
    ensures WellFormed(k)
  {
  }

  lemma TimeIsSet(k: Kernel)
    requires WellFormed(k) && Enabled(k, Announce)
    ensures k.stage[k.current] == TimeSet
  {
  }

  /** No thread compares while another is between compare and store. */
  ghost predicate OneAtATime(r: Race, es: seq<RaceEvent>) {
    forall i :: 0 <= i < |es| && es[i] == Compare && RaceRun(r, es[..i]).Some? ==>
      RaceRun(r, es[..i]).value.passed == map[]
  }

  /** In every run in which no thread compares while another is between compare and store, the alarm is always early
      enough: the race needs two threads in that window. */
  lemma {:induction false} OneAtATimeIsSafe(r: Race, es: seq<RaceEvent>)
    requires Undisturbed(r) && RaceRun(r, es).Some? && OneAtATime(r, es)
    ensures Undisturbed(RaceRun(r, es).value)
    decreases |es|
  {
    if es != [] {
      hide Undisturbed, RaceStep, RaceEnabled;
      var before := es[..|es| - 1];
      assert forall i :: 0 <= i < |before| ==> before[..i] == es[..i];
      OneAtATimeIsSafe(r, before);
      UndisturbedStep(RaceRun(r, before).value, es[|es| - 1]);
    }
  }

  lemma BootedUndisturbed(main: Tid, idle: Tid, priority: int)
    requires main != idle
    ensures Undisturbed(Race(Booted(main, idle, priority), map[]))
  {
    BootedSound(main, idle, priority);
  }

  /** Then no interrupt passes over a thread that is due. */
  lemma NobodyPassedOver(r: Race, t: Tid)
    requires Undisturbed(r) && t in r.k.sleep
    ensures t in Interrupt(r.k).sleep <==> r.k.ts[t].wakeup > r.k.ticks + 1
  {
    hide OneList, Ordered;
    PassedOverExactly(r.k, t);
    assert On(r.k, t, SleepList) && StatusOk(r.k, t, true);
  }

  // ---------------------------------------------------------------- a run in which a thread oversleeps

  /** Threads 1 and 2 of priority 31, with these wake-up times, statuses and stages, and the idle thread 0. */
  function Three(w1: int, w2: int, s0: Status, s1: Status, s2: Status, g1: Stage, g2: Stage, current: Tid,
                 ready: seq<Tid>, sleep: seq<Tid>, callTime: int, ticks: int): Kernel
  {
    Kernel(map[1 := Thread(31, w1), 0 := Thread(0, 0), 2 := Thread(31, w2)], map[1 := s1, 0 := s0, 2 := s2],
           map[1 := g1, 0 := Awake, 2 := g2], current, 0, ready, sleep, map[], callTime, ticks)
  }

  ghost predicate Goes(r: Race, e: RaceEvent, s: Race) {
    WellFormed(r.k) && RaceEnabled(r, e) && RaceStep(r, e) == s
  }

  /** A list of states, each reached from the one before, is a run. */
  lemma {:induction false} Chain(rs: seq<Race>, es: seq<RaceEvent>)
    requires |rs| == |es| + 1 && forall i :: 0 <= i < |es| ==> Goes(rs[i], es[i], rs[i + 1])
    ensures RaceRun(rs[0], es) == Some(rs[|es|])
    decreases |es|
  {
    if es != [] {
      var n := |es| - 1;
      Chain(rs[..|rs| - 1], es[..n]);
      assert Goes(rs[n], es[n], rs[n + 1]);
    }
  }

  function Later(s: Race, n: nat): Race {
    s.(k := s.k.(ticks := s.k.ticks + n))
  }

  /** An interrupt before the alarm is due only counts. */
  lemma OneTick(s: Race, n: nat)
    requires WellFormed(s.k) && s.k.ticks + n + 1 < s.k.callTime
    ensures Goes(Later(s, n), Plain(Tick), Later(s, n + 1)) && WellFormed(Later(s, n).k)
  {
    hide Known, WakeAll;
  }

  // The states of the run, in order, with interrupts between the first and the second and behind the fourth.

  function S0(): Race {
    Race(Booted(1, 0, 31), map[])
  }

  function S1(): Race {
    Race(Three(0, 0, Blocked, Running, Ready, Awake, Awake, 1, [2], [], INT64_MAX, 0), map[])
  }

  function S2(): Race {
    Race(Three(50, 0, Blocked, Running, Ready, TimeSet, Awake, 1, [2], [], INT64_MAX, 3), map[])
  }

  function S3(): Race {
    Race(Three(50, 0, Blocked, Running, Ready, TimeSet, Awake, 1, [2], [], INT64_MAX, 3), map[1 := true])
  }

  function S4(): Race {
    Race(Three(50, 0, Blocked, Ready, Running, TimeSet, Awake, 2, [1], [], INT64_MAX, 4), map[1 := true])
  }

  function S5(): Race {
    Race(Three(50, 20, Blocked, Ready, Running, TimeSet, TimeSet, 2, [1], [], INT64_MAX, 4), map[1 := true])
  }

  function S6(): Race {
    Race(Three(50, 20, Blocked, Ready, Running, TimeSet, TimeSet, 2, [1], [], INT64_MAX, 4), map[1 := true, 2 := true])
  }

  function S7(): Race {
    Race(Three(50, 20, Blocked, Ready, Running, TimeSet, Announced, 2, [1], [], 20, 4), map[1 := true])
  }

  function S8(): Race {
    Race(Three(50, 20, Blocked, Running, Blocked, TimeSet, Announced, 1, [], [2], 20, 4), map[1 := true])
  }

  function S9(): Race {
    Race(Three(50, 20, Blocked, Running, Blocked, Announced, Announced, 1, [], [2], 50, 4), map[])
  }

  function S10(): Race {
    Race(Three(50, 20, Running, Blocked, Blocked, Announced, Announced, 0, [], [2, 1], 50, 4), map[])
  }

  /** Thread 1 stores its time, 50, and compares; the interrupt that ends its time slice makes thread 2 run, which
      announces 20 and sleeps; thread 1 comes to its store and sleeps. */
  function Script(): seq<RaceEvent> {
    [Plain(Create(2, 31)), Plain(Tick), Plain(Tick), Plain(Tick), Plain(SetWakeup(50)), Compare, Plain(Tick),
     Plain(Yield), Plain(SetWakeup(20)), Compare, Store, Plain(Sleep), Store, Plain(Sleep)]
  }

  const TIME_SLICE := 4

  /** `thread_ticks`: the interrupts since a thread was last dispatched. */
  function SliceTicks(es: seq<RaceEvent>): nat {
    if es == [] || (es[|es| - 1].Plain? && Dispatches(es[|es| - 1].e)) then 0
    else SliceTicks(es[..|es| - 1]) + if es[|es| - 1] == Plain(Tick) then 1 else 0
  }

  /** Threads are preempted only by the interrupt that ends their time slice. */
  predicate OnlyPreempts(es: seq<RaceEvent>) {
    forall i :: 0 <= i < |es| && es[i] == Plain(Yield) ==>
      i > 0 && es[i - 1] == Plain(Tick) && SliceTicks(es[..i]) >= TIME_SLICE
  }

  lemma SliceTurn(es: seq<RaceEvent>, i: nat)
    requires i < |es| && !(es[i].Plain? && Dispatches(es[i].e))
    ensures SliceTicks(es[..i + 1]) == SliceTicks(es[..i]) + if es[i] == Plain(Tick) then 1 else 0
  {
    assert es[..i + 1][..i] == es[..i];
  }

  /** The run is one that the timer can bring about. */
  lemma ScriptOnlyPreempts()
    ensures OnlyPreempts(Script())
  {
    var es := Script();
    assert SliceTicks(es[..0]) == 0;
    hide SliceTicks;
    SliceTurn(es, 0);
    SliceTurn(es, 1);
    SliceTurn(es, 2);
    SliceTurn(es, 3);
    SliceTurn(es, 4);
    SliceTurn(es, 5);
    SliceTurn(es, 6);
  }

  lemma Step0()
    ensures Goes(S0(), Plain(Create(2, 31)), S1())
  {
    assert Insert(ByPriority, S0().k.ts[2 := Thread(31, 0)], [], 2) == [2];
  }

  lemma Step1()
    ensures Goes(Later(S1(), 3), Plain(SetWakeup(50)), S2())
  {
  }

  lemma Step2()
    ensures Goes(S2(), Compare, S3())
  {
  }

  lemma Step3()
    ensures Goes(Later(S3(), 1), Plain(Yield), S4())
  {
    var k := S3().k;
    assert Place(ByPriority, k.ts, [2], k.ts[1]) == 1;
    assert Insert(ByPriority, k.ts, [2], 1) == [2, 1];
  }

  lemma Step4()
    ensures Goes(S4(), Plain(SetWakeup(20)), S5())
  {
  }

  lemma Step5()
    ensures Goes(S5(), Compare, S6())
  {
  }

  lemma Step6()
    ensures Goes(S6(), Store, S7())
  {
    assert map[1 := true, 2 := true] - {2} == map[1 := true];
  }

  lemma Step7()
    ensures Goes(S7(), Plain(Sleep), S8())
  {
    assert Insert(ByWakeup, S7().k.ts, [], 2) == [2];
  }

  lemma Step8()
    ensures Goes(S8(), Store, S9())
  {
    assert map[1 := true] - {1} == map[];
  }

  lemma Step9()
    ensures Goes(S9(), Plain(Sleep), S10())
  {
    var k := S9().k;
    assert Place(ByWakeup, k.ts, [2], k.ts[1]) == 1;
    assert Insert(ByWakeup, k.ts, [2], 1) == [2, 1];
  }

  function Ticks(n: nat): seq<RaceEvent> {
    seq(n, _ => Plain(Tick))
  }

  /** Until the alarm is due, interrupts only count. */
  lemma {:induction false} OnlyCounts(r: Race, es: seq<RaceEvent>, s: Race, n: nat)
    requires RaceRun(r, es) == Some(s) && WellFormed(s.k) && s.k.ticks + n < s.k.callTime
    ensures RaceRun(r, es + Ticks(n)) == Some(Later(s, n))
    decreases n
  {
    hide WellFormed, RaceStep, RaceEnabled;
    if n == 0 {
      assert es + Ticks(0) == es;
    } else {
      OnlyCounts(r, es, s, n - 1);
      OneTick(s, n - 1);
      var all := es + Ticks(n);
      assert all[..|all| - 1] == es + Ticks(n - 1);
      assert all[|all| - 1] == Plain(Tick);
    }
  }

  lemma ScriptRuns()
    ensures RaceRun(S0(), Script()) == Some(S10())
  {
    hide Goes, RaceStep, RaceEnabled, Three, Later, WellFormed, RaceRun;
    hide S0, S1, S2, S3, S4, S5, S6, S7, S8, S9, S10;
    Step0();
    Step1();
    Step2();
    Step3();
    Step4();
    Step5();
    Step6();
    Step7();
    Step8();
    Step9();
    Scenes();
    OneTick(S1(), 0);
    OneTick(S1(), 1);
    OneTick(S1(), 2);
    OneTick(S3(), 0);
    Chain([S0(), Later(S1(), 0), Later(S1(), 1), Later(S1(), 2), Later(S1(), 3), S2(), Later(S3(), 0), Later(S3(), 1),
           S4(), S5(), S6(), S7(), S8(), S9(), S10()], Script());
  }

  lemma RunsTo(n: nat)
    requires 4 <= n < 50
    ensures RaceRun(Race(Booted(1, 0, 31), map[]), Script() + Ticks(n - 4)) == Some(Later(S10(), n - 4))
  {
    hide S0, S10, Script, RaceRun, WellFormed, Later;
    ScriptRuns();
    Scenes();
    OnlyCounts(S0(), Script(), S10(), n - 4);
  }

  /** From boot, with nobody waiting: thread 2 is due at tick 20, and every interrupt before the 50th passes over it. */
  lemma Oversleeps(n: nat)
    requires 4 <= n < 50
    ensures var r := RaceRun(Race(Booted(1, 0, 31), map[]), Script() + Ticks(n - 4));
            && r.Some? && r.value.k.ticks == n && 2 in r.value.k.sleep && 2 in r.value.k.ts
            && r.value.k.ts[2].wakeup == 20
  {
    hide S10, Script, RaceRun, WellFormed, Booted;
    RunsTo(n);
    Scenes();
  }

  lemma StillFormed(n: nat)
    requires 4 <= n < 50
    ensures SoundButAlarm(Later(S10(), n - 4).k)
  {
    hide SoundButAlarm, S10, Script, RaceRun, SoundAt;
    RunsTo(n);
    BootedSound(1, 0, 31);
    SoundIsEnough(Booted(1, 0, 31));
    EveryRace(Race(Booted(1, 0, 31), map[]), Script() + Ticks(n - 4));
  }

  lemma SoundIsEnough(k: Kernel)
    requires Sound(k)
    ensures SoundButAlarm(k)
  {
  }

  /** An interrupt wakes a thread that is due, if the alarm is. */
  lemma TickWakes(r: Race, t: Tid)
    requires SoundButAlarm(r.k) && t in r.k.sleep && t in r.k.ts
    requires r.k.ts[t].wakeup <= r.k.ticks + 1 && r.k.callTime <= r.k.ticks + 1
    ensures WellFormed(r.k) && RaceEnabled(r, Plain(Tick)) && t !in RaceStep(r, Plain(Tick)).k.sleep
  {
    hide OneList, Ordered, Statuses, Known, Interrupt;
    PassedOverExactly(r.k, t);
  }

  lemma AtTick49()
    ensures var k := Later(S10(), 45).k;
            k.ticks == 49 && 2 in k.sleep && 2 in k.ts && k.ts[2].wakeup <= 50 && k.callTime <= 50
  {
    hide S10, WellFormed;
    Scenes();
  }

  /** The 50th interrupt wakes it. */
  lemma WakesAt50()
    ensures var r := RaceRun(Race(Booted(1, 0, 31), map[]), Script() + Ticks(45));
            && r.Some? && r.value.k.ticks == 49 && WellFormed(r.value.k) && RaceEnabled(r.value, Plain(Tick))
            && 2 !in RaceStep(r.value, Plain(Tick)).k.sleep
  {
    hide *;
    RunsTo(49);
    StillFormed(49);
    AtTick49();
    TickWakes(Later(S10(), 45), 2);
  }

  /** What the proofs above need of the states. */
  lemma Scenes()
    ensures S0() == Race(Booted(1, 0, 31), map[])
    ensures Later(S1(), 0) == S1() && WellFormed(S1().k) && S1().k.ticks == 0 && S1().k.callTime == INT64_MAX
    ensures Later(S3(), 0) == S3() && WellFormed(S3().k) && S3().k.ticks == 3 && S3().k.callTime == INT64_MAX
    ensures var k := S10().k;
            && WellFormed(k) && k.ticks == 4 && k.callTime == 50 && k.sleep == [2, 1]
            && 2 in k.ts && k.ts[2].wakeup == 20
  {
  }
}
