/** The ready queue, the sleep queue and the alarm clock. */
module SchedulerModel {
  import opened Wrappers

  type Tid = nat

  datatype Status = Running | Ready | Blocked | Dying

  /** How far a thread is inside `timer_sleep`: not in it, its wake-up time stored, the time announced. */
  datatype Stage = Awake | TimeSet | Announced

  datatype Thread = Thread(priority: int, wakeup: int)

  /** `waiters[n]` is the waiter list of semaphore `n`; one that is absent is empty. */
  datatype Kernel = Kernel(ts: map<Tid, Thread>, status: map<Tid, Status>, stage: map<Tid, Stage>, current: Tid,
                           idle: Tid, ready: seq<Tid>, sleep: seq<Tid>, waiters: map<int, seq<Tid>>,
                           callTime: int, ticks: int)

  const INT64_MAX := 0x7FFF_FFFF_FFFF_FFFF

  // ---------------------------------------------------------------- ordered insertion

  /** The two comparison functions that order the lists. */
  datatype Order = ByPriority | ByWakeup

  predicate Less(o: Order, a: Thread, b: Thread) {
    match o
    case ByPriority => a.priority > b.priority
    case ByWakeup => a.wakeup < b.wakeup
  }

  predicate Known(ts: map<Tid, Thread>, q: seq<Tid>) {
    forall i :: 0 <= i < |q| ==> q[i] in ts
  }

  predicate Sorted(o: Order, ts: map<Tid, Thread>, q: seq<Tid>)
    requires Known(ts, q)
  {
    forall i, j :: 0 <= i < j < |q| ==> !Less(o, ts[q[j]], ts[q[i]])
  }

  /** The place of the first element that `x` comes before. */
  function Place(o: Order, ts: map<Tid, Thread>, q: seq<Tid>, x: Thread): (p: nat)
    requires Known(ts, q)
    ensures p <= |q| && (forall i :: 0 <= i < p ==> !Less(o, x, ts[q[i]])) && (p < |q| ==> Less(o, x, ts[q[p]]))
  {
    if q == [] || Less(o, x, ts[q[0]]) then 0
    else
      assert Known(ts, q[1..]);
      assert forall i :: 0 <= i < |q| - 1 ==> q[1..][i] == q[i + 1];
      1 + Place(o, ts, q[1..], x)
  }

  function Insert(o: Order, ts: map<Tid, Thread>, q: seq<Tid>, t: Tid): (r: seq<Tid>)
    requires Known(ts, q) && t in ts
    ensures Known(ts, r)
  {
    var p := Place(o, ts, q, ts[t]);
    q[..p] + [t] + q[p..]
  }

  /** Inserting keeps the list sorted, and puts the new element behind all its equals. */
  lemma InsertSorts(o: Order, ts: map<Tid, Thread>, q: seq<Tid>, t: Tid)
    requires Known(ts, q) && t in ts && Sorted(o, ts, q)
    ensures Sorted(o, ts, Insert(o, ts, q, t))
    ensures var p := Place(o, ts, q, ts[t]);
            && (forall i :: 0 <= i < p ==> !Less(o, ts[t], ts[q[i]]))
            && (forall i :: p <= i < |q| ==> Less(o, ts[t], ts[q[i]]))
  {
    var p := Place(o, ts, q, ts[t]);
    forall i | p <= i < |q| ensures Less(o, ts[t], ts[q[i]]) {
      if i > p { assert !Less(o, ts[q[i]], ts[q[p]]); }
    }
    var r := Insert(o, ts, q, t);
    forall i | 0 <= i < |r| ensures r[i] == if i < p then q[i] else if i == p then t else q[i - 1] {
    }
  }

  lemma InsertMembers(o: Order, ts: map<Tid, Thread>, q: seq<Tid>, t: Tid)
    requires Known(ts, q) && t in ts
    ensures forall u :: u in Insert(o, ts, q, t) <==> u in q || u == t
    ensures Distinct(q) && t !in q ==> Distinct(Insert(o, ts, q, t))
  {
    hide Known, Less;
    SplitMembers(q, Place(o, ts, q, ts[t]), t);
  }

  lemma SplitMembers(q: seq<Tid>, p: nat, t: Tid)
    requires p <= |q|
    ensures forall u :: u in q[..p] + [t] + q[p..] <==> u in q || u == t
    ensures Distinct(q) && t !in q ==> Distinct(q[..p] + [t] + q[p..])
  {
    assert q == q[..p] + q[p..];
    var r := q[..p] + [t] + q[p..];
    assert forall i :: 0 <= i < |r| ==> r[i] == if i < p then q[i] else if i == p then t else q[i - 1];
  }

  // ---------------------------------------------------------------- the steps

  datatype Event =
    | Create(t: Tid, priority: int)
    | Yield
    | BlockOn(n: int)
    | IdleBlock
    | Wake(n: int)
    | SetPriority(priority: int)
    | SetWakeup(wakeup: int)
    | Announce
    | Sleep
    | Tick
    | Exit

  function Waiters(k: Kernel, n: int): seq<Tid> {
    if n in k.waiters then k.waiters[n] else []
  }

  predicate WellFormed(k: Kernel) {
    && k.current in k.ts && k.idle in k.ts
    && Known(k.ts, k.ready) && Known(k.ts, k.sleep)
    && (forall n :: n in k.waiters ==> Known(k.ts, k.waiters[n]))
    && k.status.Keys == k.ts.Keys && k.stage.Keys == k.ts.Keys
  }

  function Unblock(k: Kernel, t: Tid): (r: Kernel)
    requires WellFormed(k) && t in k.ts
    ensures WellFormed(r)
  {
    k.(ready := Insert(ByPriority, k.ts, k.ready, t), status := k.status[t := Ready])
  }

  /** `schedule`: the head of the ready list runs next, or the idle thread. */
  function Dispatch(k: Kernel): (r: Kernel)
    requires WellFormed(k)
    ensures WellFormed(r)
  {
    var next := if k.ready == [] then k.idle else k.ready[0];
    k.(current := next, ready := if k.ready == [] then [] else k.ready[1..], status := k.status[next := Running])
  }

  function UpdateCallTime(k: Kernel, wakeup: int): (r: Kernel)
    requires WellFormed(k)
    ensures WellFormed(r)
  {
    if wakeup < k.callTime then k.(callTime := wakeup) else k
  }

  /** The head of the sleep list is taken off it and made ready. */
  function WakeHead(k: Kernel): (r: Kernel)
    requires WellFormed(k) && k.sleep != []
    ensures WellFormed(r) && r.sleep == k.sleep[1..]
  {
    var t := k.sleep[0];
    Unblock(k.(sleep := k.sleep[1..], stage := k.stage[t := Awake]), t)
  }

  function WakeAll(k: Kernel): (r: Kernel)
    requires WellFormed(k)
    ensures WellFormed(r)
    decreases |k.sleep|
  {
    if k.sleep == [] then UpdateCallTime(k, INT64_MAX)
    else if k.ts[k.sleep[0]].wakeup <= k.ticks then WakeAll(WakeHead(k))
    else UpdateCallTime(k, k.ts[k.sleep[0]].wakeup)
  }

  /** The timer interrupt. */
  function Interrupt(k: Kernel): (r: Kernel)
    requires WellFormed(k)
    ensures WellFormed(r)
  {
    var k1 := k.(ticks := k.ticks + 1);
    if k1.callTime <= k1.ticks then WakeAll(k1) else k1
  }

  /** What the running thread may do next: inside `timer_sleep` only its next line, or be preempted. */
  predicate Enabled(k: Kernel, e: Event)
    requires WellFormed(k)
  {
    var stage := k.stage[k.current];
    match e
    case Create(t, _) => t !in k.ts && stage == Awake && k.current != k.idle
    case Yield => true
    case BlockOn(_) => stage == Awake && k.current != k.idle
    case IdleBlock => k.current == k.idle
    case Wake(_) => true
    case SetPriority(_) => stage == Awake && k.current != k.idle
    case SetWakeup(_) => stage == Awake && k.current != k.idle
    case Announce => stage == TimeSet && k.current != k.idle
    case Sleep => stage == Announced && k.current != k.idle
    case Tick => true
    case Exit => stage == Awake && k.current != k.idle
  }

  function Step(k: Kernel, e: Event): (r: Kernel)
    requires WellFormed(k) && Enabled(k, e)
    ensures WellFormed(r)
  {
    var c := k.current;
    match e
    case Create(t, p) =>
      var k1 := k.(ts := k.ts[t := Thread(p, 0)], status := k.status[t := Blocked], stage := k.stage[t := Awake]);
      Unblock(k1, t)
    case Yield => Dispatch(if c == k.idle then k.(status := k.status[c := Ready]) else Unblock(k, c))
    case BlockOn(n) =>
      Dispatch(k.(waiters := k.waiters[n := Waiters(k, n) + [c]], status := k.status[c := Blocked]))
    case IdleBlock => Dispatch(k.(status := k.status[c := Blocked]))
    case Wake(n) =>
      var q := Waiters(k, n);
      if q == [] then k else Unblock(k.(waiters := k.waiters[n := q[1..]]), q[0])
    case SetPriority(p) => k.(ts := k.ts[c := k.ts[c].(priority := p)])
    case SetWakeup(w) => k.(ts := k.ts[c := k.ts[c].(wakeup := w)], stage := k.stage[c := TimeSet])
    case Announce => UpdateCallTime(k.(stage := k.stage[c := Announced]), k.ts[c].wakeup)
    case Sleep => Dispatch(k.(sleep := Insert(ByWakeup, k.ts, k.sleep, c), status := k.status[c := Blocked]))
    case Tick => Interrupt(k)
    case Exit => Dispatch(k.(status := k.status[c := Dying]))
  }

  // ---------------------------------------------------------------- the invariant

  datatype ListId = ReadyList | SleepList | WaiterList(n: int)

  function List(k: Kernel, id: ListId): seq<Tid> {
    match id
    case ReadyList => k.ready
    case SleepList => k.sleep
    case WaiterList(n) => Waiters(k, n)
  }

  predicate On(k: Kernel, t: Tid, id: ListId) {
    t in List(k, id)
  }

  /** No thread is on two lists or twice on one. */
  ghost predicate OneList(k: Kernel) {
    && (forall id :: Distinct(List(k, id)))
    && (forall t, id, id' :: On(k, t, id) && On(k, t, id') ==> id == id')
  }

  ghost predicate Ordered(k: Kernel)
    requires WellFormed(k)
  {
    Sorted(ByPriority, k.ts, k.ready) && Sorted(ByWakeup, k.ts, k.sleep)
  }

  ghost predicate Waiting(k: Kernel, t: Tid) {
    exists id :: id != ReadyList && On(k, t, id)
  }

  /** A thread's status says where it is: nothing is lost. `running` is false while `schedule` picks a thread. */
  ghost predicate StatusOk(k: Kernel, t: Tid, running: bool)
    requires WellFormed(k) && t in k.ts
  {
    && (k.status[t] == Running <==> running && t == k.current)
    && (On(k, t, ReadyList) <==> k.status[t] == Ready && t != k.idle)
    && (Waiting(k, t) <==> k.status[t] == Blocked && t != k.idle)
    && (On(k, t, SleepList) ==> k.stage[t] == Announced)
    && (t == k.idle ==> k.stage[t] == Awake && k.status[t] != Dying)
  }

  ghost predicate Statuses(k: Kernel, running: bool)
    requires WellFormed(k)
  {
    forall t :: t in k.ts ==> StatusOk(k, t, running)
  }

  /** The next alarm is no later than any thread needs. */
  ghost predicate AlarmSet(k: Kernel)
    requires WellFormed(k)
  {
    forall t :: t in k.ts && k.stage[t] == Announced ==> k.callTime <= k.ts[t].wakeup
  }

  ghost predicate SoundAt(k: Kernel, running: bool) {
    && WellFormed(k)
    && OneList(k)
    && Ordered(k)
    && Statuses(k, running)
    && AlarmSet(k)
  }

  ghost predicate Sound(k: Kernel) {
    SoundAt(k, true)
  }

  // ---------------------------------------------------------------- what each step does to the lists

  /** Thread `t`, on no list, is put on list `id`. */
  ghost predicate Adds(k: Kernel, r: Kernel, t: Tid, id: ListId) {
    forall u, i :: On(r, u, i) <==> On(k, u, i) || (u == t && i == id)
  }

  /** Thread `t` is taken off list `id`. */
  ghost predicate Removes(k: Kernel, r: Kernel, t: Tid, id: ListId) {
    && On(k, t, id)
    && forall u, i :: On(r, u, i) <==> On(k, u, i) && !(u == t && i == id)
  }

  ghost predicate SameOthers(k: Kernel, r: Kernel, id: ListId) {
    forall i :: i != id ==> List(r, i) == List(k, i)
  }

  lemma AddKeepsOneList(k: Kernel, r: Kernel, t: Tid, id: ListId)
    requires OneList(k) && Adds(k, r, t, id) && SameOthers(k, r, id) && Distinct(List(r, id))
    requires forall i :: !On(k, t, i)
    ensures OneList(r)
  {
    hide On, List, Distinct;
    forall i ensures Distinct(List(r, i)) { if i != id { assert Distinct(List(k, i)); } }
  }

  lemma RemoveKeepsOneList(k: Kernel, r: Kernel, t: Tid, id: ListId)
    requires OneList(k) && Removes(k, r, t, id) && SameOthers(k, r, id) && Distinct(List(r, id))
    ensures OneList(r) && forall i :: !On(r, t, i)
  {
    hide List, Distinct;
    forall i ensures Distinct(List(r, i)) { if i != id { assert Distinct(List(k, i)); } }
    forall i ensures !On(r, t, i) { assert On(k, t, id); }
    hide On;
  }

  /** Taking the head off a list. */
  lemma PopHead(k: Kernel, r: Kernel, id: ListId)
    requires OneList(k) && SameOthers(k, r, id) && List(k, id) != [] && List(r, id) == List(k, id)[1..]
    ensures Removes(k, r, List(k, id)[0], id)
    ensures OneList(r) && forall i :: !On(r, List(k, id)[0], i)
  {
    var q := List(k, id);
    assert Distinct(q) && q == [q[0]] + q[1..];
    forall u, i ensures On(r, u, i) <==> On(k, u, i) && !(u == q[0] && i == id) {
      if i == id { assert u in q <==> u == q[0] || u in q[1..]; }
    }
    RemoveKeepsOneList(k, r, q[0], id);
  }

  /** Putting thread `t` on an ordered list. */
  lemma PutOrdered(k: Kernel, r: Kernel, o: Order, t: Tid, id: ListId)
    requires WellFormed(k) && OneList(k) && t in k.ts && (forall i :: !On(k, t, i))
    requires Known(k.ts, List(k, id)) && SameOthers(k, r, id) && List(r, id) == Insert(o, k.ts, List(k, id), t)
    ensures OneList(r) && Adds(k, r, t, id)
  {
    hide WellFormed, Known;
    assert !On(k, t, id) && Distinct(List(k, id));
    InsertMembers(o, k.ts, List(k, id), t);
    hide Insert;
    AddKeepsOneList(k, r, t, id);
  }

  lemma NotOnAny(k: Kernel, t: Tid)
    requires WellFormed(k) && t in k.ts && (t == k.idle || (k.status[t] != Blocked && k.status[t] != Ready))
    requires StatusOk(k, t, true) || StatusOk(k, t, false)
    ensures forall i :: !On(k, t, i)
  {
    forall i ensures !On(k, t, i) {
      if i != ReadyList && On(k, t, i) { assert Waiting(k, t); }
    }
  }

  /** A thread that stays where it is keeps its status right. */
  lemma StatusFrame(k: Kernel, r: Kernel, u: Tid, before: bool, after: bool)
    requires WellFormed(k) && WellFormed(r) && u in k.ts && u in r.ts && r.idle == k.idle
    requires StatusOk(k, u, before)
    requires forall i :: On(r, u, i) <==> On(k, u, i)
    requires r.status[u] == k.status[u] && r.stage[u] == k.stage[u]
    requires (before && u == k.current) <==> (after && u == r.current)
    ensures StatusOk(r, u, after)
  {
    hide WellFormed, On;
    assert Waiting(r, u) <==> Waiting(k, u);
  }

  /** All threads but `t` stay where they are. */
  ghost predicate OthersStay(k: Kernel, r: Kernel, t: Tid)
    requires WellFormed(k) && WellFormed(r)
  {
    && (forall u, i :: u != t ==> (On(r, u, i) <==> On(k, u, i)))
    && (forall u :: u in r.ts && u != t ==> u in k.ts && r.status[u] == k.status[u] && r.stage[u] == k.stage[u])
  }

  lemma StatusesFrame(k: Kernel, r: Kernel, t: Tid, before: bool, after: bool)
    requires WellFormed(k) && WellFormed(r) && r.idle == k.idle && Statuses(k, before) && OthersStay(k, r, t)
    requires (before == after && r.current == k.current)
             || ((before ==> k.current == t) && (after ==> r.current == t))
    requires t in r.ts ==> StatusOk(r, t, after)
    ensures Statuses(r, after)
  {
    forall u | u in r.ts ensures StatusOk(r, u, after) {
      if u != t {
        assert StatusOk(k, u, before);
        hide StatusOk, WellFormed, On;
        StatusFrame(k, r, u, before, after);
      }
    }
  }

  // ---------------------------------------------------------------- what every step keeps

  lemma DispatchSound(k: Kernel)
    requires SoundAt(k, false)
    ensures Sound(Dispatch(k))
  {
    hide Waiting;
    var r := Dispatch(k);
    var next := r.current;
    assert StatusOk(k, next, false);
    hide StatusOk;
    DispatchLists(k);
    assert Statuses(r, true) by {
      assert StatusOk(r, next, true) by { DispatchStatus(k); }
      StatusesFrame(k, r, next, false, true);
    }
    assert AlarmSet(r) by { SameAlarm(k, r); }
  }

  lemma DispatchLists(k: Kernel)
    requires SoundAt(k, false)
    ensures var r := Dispatch(k);
            OneList(r) && Ordered(r) && OthersStay(k, r, r.current) && forall i :: !On(r, r.current, i)
  {
    hide AlarmSet;
    var r := Dispatch(k);
    assert Ordered(r);
    if k.ready != [] {
      assert List(k, ReadyList)[0] == r.current;
      hide Sorted, StatusOk;
      PopHead(k, r, ReadyList);
    } else {
      NotOnAny(k, k.idle);
      SameLists(k, r);
    }
  }

  lemma SameLists(k: Kernel, r: Kernel)
    requires OneList(k) && r.ready == k.ready && r.sleep == k.sleep && r.waiters == k.waiters
    ensures OneList(r) && forall u, i :: On(r, u, i) <==> On(k, u, i)
  {
    forall i ensures List(r, i) == List(k, i) {
    }
    forall i ensures Distinct(List(r, i)) { assert Distinct(List(k, i)); }
    forall u, i ensures On(r, u, i) <==> On(k, u, i) { assert List(r, i) == List(k, i); }
    hide On;
  }

  lemma DispatchStatus(k: Kernel)
    requires WellFormed(k) && StatusOk(k, Dispatch(k).current, false)
    requires forall i :: !On(Dispatch(k), Dispatch(k).current, i)
    ensures StatusOk(Dispatch(k), Dispatch(k).current, true)
  {
    var r := Dispatch(k);
    hide WellFormed;
    if k.ready != [] { assert On(k, r.current, ReadyList); }
    assert !On(r, r.current, SleepList);
  }

  /** The running thread goes on list `id`. */
  lemma DeschedulesSound(k: Kernel, r: Kernel, id: ListId)
    requires Sound(k) && k.current != k.idle && WellFormed(r)
    requires r.ts == k.ts && r.stage == k.stage && r.callTime == k.callTime && r.idle == k.idle
    requires r.current == k.current
    requires r.status == k.status[k.current := if id == ReadyList then Ready else Blocked]
    requires id == SleepList ==> k.stage[k.current] == Announced
    requires OneList(r) && Adds(k, r, k.current, id) && Ordered(r)
    ensures SoundAt(r, false)
  {
    hide OneList, Ordered, AlarmSet;
    var c := k.current;
    assert StatusOk(k, c, true);
    NotOnAny(k, c);
    assert StatusOk(r, c, false) by {
      assert On(r, c, id);
      assert id != ReadyList ==> Waiting(r, c);
    }
    hide StatusOk;
    StatusesFrame(k, r, c, true, false);
    SameAlarm(k, r);
  }

  /** A thread that was taken off a waiting list, or is new, is made ready. */
  lemma UnblockSound(k: Kernel, k1: Kernel, t: Tid)
    requires Sound(k) && WellFormed(k1) && OneList(k1) && Ordered(k1) && AlarmSet(k1) && OthersStay(k, k1, t)
    requires t in k1.ts && t != k1.idle && t != k1.current && k1.current == k.current && k1.idle == k.idle
    requires forall i :: !On(k1, t, i)
    ensures Sound(Unblock(k1, t))
  {
    hide OneList, Sorted, AlarmSet, StatusOk, Insert, Known;
    var r := Unblock(k1, t);
    PutOrdered(k1, r, ByPriority, t, ReadyList);
    assert Ordered(r) by { InsertSorts(ByPriority, k1.ts, k1.ready, t); }
    SameAlarm(k1, r);
    assert StatusOk(r, t, true) by { NowReady(k1, r, t); }
    StatusesFrame(k, r, t, true, true);
  }

  lemma NowReady(k1: Kernel, r: Kernel, t: Tid)
    requires WellFormed(k1) && WellFormed(r) && t in r.ts && t != r.idle && t != r.current
    requires (forall i :: !On(k1, t, i)) && Adds(k1, r, t, ReadyList) && r.status[t] == Ready
    ensures StatusOk(r, t, true)
  {
    hide On, WellFormed;
    assert !Waiting(r, t);
    assert !On(r, t, SleepList);
  }

  lemma SameAlarm(k: Kernel, r: Kernel)
    requires WellFormed(k) && WellFormed(r) && AlarmSet(k)
    requires r.ts == k.ts && r.stage == k.stage && r.callTime == k.callTime
    ensures AlarmSet(r)
  {
  }

}
