/** Locks: a semaphore of initial value one with a holder, which is set and cleared outside the semaphore's regions. */
module LockModel {
  import opened Wrappers
  import opened SemaphoreModel

  /** Where a thread is between passing `sema_down` and finishing `sema_up`. */
  datatype Phase = Entered | Owner | Leaving

  datatype Lock = Lock(sema: Sema, holder: Option<Tid>, inside: map<Tid, Phase>)

  /** `Acquire(t)`: one turn of the loop in `sema_down`. `SetHolder(t)`: the store after it.
      `ClearHolder(t)`: entry to `lock_release`. `LockUp(t)`: the `sema_up` after it. */
  datatype LockEvent =
    | Acquire(t: Tid) | TryAcquire(t: Tid) | SetHolder(t: Tid) | ClearHolder(t: Tid) | LockUp(t: Tid)

  function NewLock(): Lock {
    Lock(Init(1), None, map[])
  }

  predicate At(l: Lock, t: Tid, p: Phase) {
    t in l.inside && l.inside[t] == p
  }

  /** A thread that is outside the lock, not blocked and not in the middle of `sema_down`. */
  predicate Outside(l: Lock, t: Tid) {
    t !in l.inside && t !in l.sema.waiters && t !in l.sema.woken
  }

  /** Which thread may take which step next; calls that break an assertion are enabled. */
  predicate LockEnabled(l: Lock, e: LockEvent) {
    match e
    case Acquire(t) => Outside(l, t) || At(l, t, Owner) || t in l.sema.woken
    case TryAcquire(t) => Outside(l, t) || At(l, t, Owner)
    case SetHolder(t) => At(l, t, Entered)
    case ClearHolder(t) => Outside(l, t) || At(l, t, Owner)
    case LockUp(t) => At(l, t, Leaving)
  }

  /** The state after a step; `None` when an assertion fails. */
  function LockStep(l: Lock, e: LockEvent): Option<Lock> {
    match e
    case Acquire(t) =>
      if t !in l.sema.woken && l.holder == Some(t) then None
      else
        var s := Step(l.sema, Down(t));
        Some(l.(sema := s, inside := if l.sema.value > 0 then l.inside[t := Entered] else l.inside))
    case TryAcquire(t) =>
      if l.holder == Some(t) then None
      else
        var s := Step(l.sema, TryDown(t));
        Some(l.(sema := s, inside := if l.sema.value > 0 then l.inside[t := Entered] else l.inside))
    case SetHolder(t) => Some(l.(holder := Some(t), inside := l.inside[t := Owner]))
    case ClearHolder(t) =>
      if l.holder != Some(t) then None
      else Some(l.(holder := None, inside := l.inside[t := Leaving]))
    case LockUp(t) => Some(l.(sema := Step(l.sema, Up), inside := l.inside - {t}))
  }

  // ---------------------------------------------------------------- the invariant

  /** The value counts the free places: it and the threads inside always add up to one. */
  ghost predicate LockSound(l: Lock) {
    && Sound(l.sema)
    && l.sema.value + |l.inside| == 1
    && (forall t: Tid :: l.holder == Some(t) <==> At(l, t, Owner))
    && (forall t :: t in l.inside ==> t !in l.sema.waiters && t !in l.sema.woken)
  }

  /** At most one thread is inside. */
  lemma MutualExclusion(l: Lock, t: Tid, u: Tid)
    requires LockSound(l) && t in l.inside && u in l.inside
    ensures t == u && l.sema.value == 0
  {
    assert t != u ==> |l.inside.Keys| == |l.inside.Keys - {t} - {u}| + 2;
    assert |l.inside.Keys| == |l.inside.Keys - {t}| + 1;
  }

  /** A thread that owns the lock is the only one inside. */
  lemma OnlyOne(l: Lock, t: Tid)
    requires LockSound(l) && t in l.inside
    ensures l.inside == map[t := l.inside[t]] && l.sema.value == 0
  {
    assert forall u :: u in l.inside ==> u == t by {
      forall u | u in l.inside ensures u == t { MutualExclusion(l, t, u); }
    }
    MutualExclusion(l, t, t);
  }

  lemma NobodyInside(l: Lock)
    requires LockSound(l) && l.sema.value > 0
    ensures l.inside == map[] && l.holder == None && l.sema.value == 1
  {
    assert |l.inside| == 0;
    assert l.holder.Some? ==> At(l, l.holder.value, Owner);
  }

  /** The assertions are exact: `lock_acquire` and `lock_try_acquire` fail theirs if and only if the caller owns
      the lock, `lock_release` if and only if it does not; no other step can fail. */
  lemma AssertionsExact(l: Lock, e: LockEvent)
    requires LockSound(l) && LockEnabled(l, e)
    ensures LockStep(l, e).None? <==>
              match e
              case Acquire(t) => At(l, t, Owner)
              case TryAcquire(t) => At(l, t, Owner)
              case ClearHolder(t) => !At(l, t, Owner)
              case _ => false
  {
    assert l.holder == Some(e.t) <==> At(l, e.t, Owner);
  }

  lemma Entering(l: Lock, s: Sema, t: Tid)
    requires LockSound(l) && l.sema.value > 0
    requires Sound(s) && s.value == l.sema.value - 1
    requires t !in s.waiters && t !in s.woken
    ensures LockSound(l.(sema := s, inside := l.inside[t := Entered]))
  {
    hide Sound;
    NobodyInside(l);
    assert l.inside[t := Entered] == map[t := Entered];
  }

  lemma AcquireSound(l: Lock, t: Tid)
    requires LockSound(l) && LockEnabled(l, Acquire(t)) && LockStep(l, Acquire(t)).Some?
    ensures LockSound(LockStep(l, Acquire(t)).value)
  {
    assert l.holder == Some(t) <==> At(l, t, Owner);
    assert Enabled(l.sema, Down(t)) && t !in l.inside;
    StepSound(l.sema, Down(t));
    hide Sound;
    var s := Step(l.sema, Down(t));
    if l.sema.value > 0 {
      assert s.waiters == l.sema.waiters && s.woken == l.sema.woken - {t};
      Entering(l, s, t);
    } else {
      assert forall u :: u in s.waiters ==> u == t || u in l.sema.waiters;
    }
  }

  lemma TryAcquireSound(l: Lock, t: Tid)
    requires LockSound(l) && LockEnabled(l, TryAcquire(t)) && LockStep(l, TryAcquire(t)).Some?
    ensures LockSound(LockStep(l, TryAcquire(t)).value)
  {
    assert l.holder == Some(t) <==> At(l, t, Owner);
    StepSound(l.sema, TryDown(t));
    hide Sound;
    if l.sema.value > 0 { Entering(l, Step(l.sema, TryDown(t)), t); }
  }

  lemma LockUpSound(l: Lock, t: Tid)
    requires LockSound(l) && At(l, t, Leaving)
    ensures LockSound(LockStep(l, LockUp(t)).value)
  {
    StepSound(l.sema, Up);
    hide Sound;
    OnlyOne(l, t);
    assert l.inside - {t} == map[];
    assert l.holder.Some? ==> At(l, l.holder.value, Owner);
  }

  /** Every step keeps the invariant. */
  lemma LockStepSound(l: Lock, e: LockEvent)
    requires LockSound(l) && LockEnabled(l, e) && LockStep(l, e).Some?
    ensures LockSound(LockStep(l, e).value)
  {
    hide Sound, Step;
    match e
    case Acquire(t) => AcquireSound(l, t);
    case TryAcquire(t) => TryAcquireSound(l, t);
    case SetHolder(t) =>
      OnlyOne(l, t);
      assert l.inside[t := Owner] == map[t := Owner];
    case ClearHolder(t) =>
      OnlyOne(l, t);
      assert l.inside[t := Leaving] == map[t := Leaving];
    case LockUp(t) => LockUpSound(l, t);
  }

  // ---------------------------------------------------------------- every run

  /** The state after a run; `None` once an assertion has failed. */
  function LockRun(es: seq<LockEvent>): Option<Lock> {
    if es == [] then Some(NewLock())
    else
      var k := LockRun(es[..|es| - 1]);
      if k.None? then None else LockStep(k.value, es[|es| - 1])
  }

  predicate LockRuns(es: seq<LockEvent>) {
    es == [] || (&& LockRuns(es[..|es| - 1])
                 && LockRun(es[..|es| - 1]).Some?
                 && LockEnabled(LockRun(es[..|es| - 1]).value, es[|es| - 1]))
  }

  /** For every interleaving: the lock's value plus the threads past `sema_down` and before `sema_up` is one, and
      the recorded holder is the thread that owns the lock. */
  lemma {:induction false} EveryLockRun(es: seq<LockEvent>)
    requires LockRuns(es) && LockRun(es).Some?
    ensures LockSound(LockRun(es).value)
    decreases |es|
  {
    if es != [] {
      hide LockSound, LockStep, LockEnabled;
      EveryLockRun(es[..|es| - 1]);
      LockStepSound(LockRun(es[..|es| - 1]).value, es[|es| - 1]);
    }
  }

  // ---------------------------------------------------------------- what each step does

  /** The first waiter, if there is one, is woken. */
  ghost predicate WokeFirst(s: Sema, s': Sema) {
    if s.waiters == [] then s'.waiters == [] && s'.woken == s.woken
    else s.waiters == [s.waiters[0]] + s'.waiters && s'.woken == s.woken + {s.waiters[0]}
  }

  /** `lock_acquire` by a thread that does not own the lock: it takes a free lock, alone, and otherwise becomes the last
      waiter. */
  lemma AcquireEffect(l: Lock, t: Tid)
    requires LockSound(l) && LockEnabled(l, Acquire(t)) && !At(l, t, Owner)
    ensures LockStep(l, Acquire(t)).Some?
    ensures var r := LockStep(l, Acquire(t)).value;
            && r.holder == l.holder && r.sema.value == 0 && r.sema.woken == l.sema.woken - {t}
            && (l.sema.value == 1 ==> r.inside == map[t := Entered] && r.sema.waiters == l.sema.waiters)
            && (l.sema.value == 0 ==> r.inside == l.inside && r.sema.waiters == l.sema.waiters + [t])
    ensures l.sema.value <= 1
  {
    hide Sound;
    assert l.holder == Some(t) <==> At(l, t, Owner);
    if l.sema.value > 0 {
      NobodyInside(l);
      assert l.inside[t := Entered] == map[t := Entered];
    }
  }

  /** `lock_try_acquire`: it takes a free lock and otherwise changes nothing. */
  lemma TryAcquireEffect(l: Lock, t: Tid)
    requires LockSound(l) && LockEnabled(l, TryAcquire(t)) && !At(l, t, Owner)
    ensures LockStep(l, TryAcquire(t)).Some?
    ensures var r := LockStep(l, TryAcquire(t)).value;
            && (l.sema.value == 0 ==> r == l)
            && (l.sema.value == 1 ==> r == Lock(Sema(0, l.sema.waiters, l.sema.woken), None, map[t := Entered]))
  {
    hide Sound;
    assert l.holder == Some(t) <==> At(l, t, Owner);
    if l.sema.value > 0 {
      NobodyInside(l);
      assert l.inside[t := Entered] == map[t := Entered];
    }
  }

  /** The thread that took the lock becomes its holder; nothing else changes. */
  lemma SetHolderEffect(l: Lock, t: Tid)
    requires LockSound(l) && At(l, t, Entered)
    ensures LockEnabled(l, SetHolder(t)) && LockStep(l, SetHolder(t)) == Some(Lock(l.sema, Some(t), map[t := Owner]))
  {
    hide Sound;
    OnlyOne(l, t);
    assert l.inside[t := Owner] == map[t := Owner];
  }

  /** `lock_release` by the holder leaves the lock free, the thread outside and the first waiter woken, so that it may
      try again. */
  lemma ReleaseEffect(l: Lock, t: Tid)
    requires LockSound(l) && At(l, t, Owner)
    ensures LockEnabled(l, ClearHolder(t))
    ensures LockStep(l, ClearHolder(t)) == Some(Lock(l.sema, None, map[t := Leaving]))
    ensures var mid := LockStep(l, ClearHolder(t)).value;
            && LockEnabled(mid, LockUp(t))
            && LockStep(mid, LockUp(t)).Some?
            && var r := LockStep(mid, LockUp(t)).value;
               && r.holder == None && r.inside == map[] && r.sema.value == 1 && WokeFirst(l.sema, r.sema)
               && Outside(r, t)
               && (l.sema.waiters != [] ==> LockEnabled(r, Acquire(l.sema.waiters[0])))
  {
    OnlyOne(l, t);
    assert l.inside[t := Leaving] == map[t := Leaving];
    var mid := LockStep(l, ClearHolder(t)).value;
    assert mid.inside - {t} == map[];
    if l.sema.waiters != [] {
      assert l.sema.waiters == [l.sema.waiters[0]] + l.sema.waiters[1..];
      assert l.sema.waiters[0] in l.sema.waiters;
    }
  }

  /** Taking a free lock and giving it back, with nobody waiting, restores it. */
  lemma AcquireThenRelease(l: Lock, t: Tid)
    requires LockSound(l) && Outside(l, t) && l.sema.value == 1 && l.sema.waiters == []
    ensures LockEnabled(l, Acquire(t)) && LockStep(l, Acquire(t)).Some?
    ensures var l1 := LockStep(l, Acquire(t)).value;
            && LockEnabled(l1, SetHolder(t)) && LockStep(l1, SetHolder(t)).Some?
            && var l2 := LockStep(l1, SetHolder(t)).value;
               && At(l2, t, Owner) && l2.holder == Some(t)
               && LockEnabled(l2, ClearHolder(t)) && LockStep(l2, ClearHolder(t)).Some?
               && var l3 := LockStep(l2, ClearHolder(t)).value;
                  LockEnabled(l3, LockUp(t)) && LockStep(l3, LockUp(t)) == Some(l)
  {
    hide Sound, LockStep;
    NobodyInside(l);
    AssertionsExact(l, Acquire(t));
    AcquireEffect(l, t);
    LockStepSound(l, Acquire(t));
    var l1 := LockStep(l, Acquire(t)).value;
    SetHolderEffect(l1, t);
    LockStepSound(l1, SetHolder(t));
    var l2 := LockStep(l1, SetHolder(t)).value;
    ReleaseEffect(l2, t);
    var r := LockStep(LockStep(l2, ClearHolder(t)).value, LockUp(t)).value;
    assert l.sema.woken - {t} == l.sema.woken;
    assert r.sema == l.sema;
  }
}
