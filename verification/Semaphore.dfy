/** Semaphores as a step system: a step is one region that runs with interrupts off. */
module SemaphoreModel {
  import opened Wrappers

  type Tid = nat

  /** `woken` are the threads that `sema_up` has unblocked and that have not yet tested the value again: they are
      still inside `sema_down`, and any other thread may take the value before they do. */
  datatype Sema = Sema(value: nat, waiters: seq<Tid>, woken: set<Tid>)

  /** `Down(t)`: thread `t` tests the value, on entry to `sema_down` or after a wake-up. */
  datatype Event = Down(t: Tid) | TryDown(t: Tid) | Up

  const UINT_SIZE := 0x1_0000_0000

  function Init(value: nat): Sema {
    Sema(value, [], {})
  }

  /** A blocked thread does not run, and a thread inside `sema_down` does nothing else. */
  ghost predicate Enabled(s: Sema, e: Event) {
    match e
    case Down(t) => t !in s.waiters
    case TryDown(t) => t !in s.waiters && t !in s.woken
    case Up => true
  }

  function Step(s: Sema, e: Event): Sema {
    match e
    case Down(t) =>
      if s.value == 0 then Sema(0, s.waiters + [t], s.woken - {t})
      else Sema(s.value - 1, s.waiters, s.woken - {t})
    case TryDown(t) => if s.value == 0 then s else s.(value := s.value - 1)
    case Up =>
      var value := (s.value + 1) % UINT_SIZE;
      if s.waiters == [] then s.(value := value)
      else Sema(value, s.waiters[1..], s.woken + {s.waiters[0]})
  }

  function Run(s: Sema, es: seq<Event>): Sema {
    if es == [] then s else Step(Run(s, es[..|es| - 1]), es[|es| - 1])
  }

  ghost predicate Runs(s: Sema, es: seq<Event>) {
    es == [] || (Runs(s, es[..|es| - 1]) && Enabled(Run(s, es[..|es| - 1]), es[|es| - 1]))
  }

  // ---------------------------------------------------------------- what a run did

  /** The number of downs that took a unit of the value, failed and blocking passes not counted. */
  function Downs(s: Sema, es: seq<Event>): nat {
    if es == [] then 0
    else
      var before := es[..|es| - 1];
      Downs(s, before) + if es[|es| - 1] != Up && Run(s, before).value > 0 then 1 else 0
  }

  function Ups(es: seq<Event>): nat {
    if es == [] then 0 else Ups(es[..|es| - 1]) + if es[|es| - 1] == Up then 1 else 0
  }

  /** The threads that blocked, in order. */
  function Blocked(s: Sema, es: seq<Event>): seq<Tid> {
    if es == [] then []
    else
      var before, last := es[..|es| - 1], es[|es| - 1];
      Blocked(s, before) + if last.Down? && Run(s, before).value == 0 then [last.t] else []
  }

  /** The threads that were unblocked, in order. */
  function Unblocked(s: Sema, es: seq<Event>): seq<Tid> {
    if es == [] then []
    else
      var before, w := es[..|es| - 1], Run(s, es[..|es| - 1]).waiters;
      Unblocked(s, before) + if es[|es| - 1] == Up && w != [] then [w[0]] else []
  }

  // ---------------------------------------------------------------- what every step keeps

  /** Each thread waits at most once and is not both blocked and woken; and no wake-up is lost: while threads
      wait, each unit of the value has a woken thread that is on its way to take it. */
  ghost predicate Sound(s: Sema) {
    && s.value < UINT_SIZE
    && Distinct(s.waiters)
    && (forall t :: t in s.woken ==> t !in s.waiters)
    && (s.waiters != [] ==> s.value <= |s.woken|)
  }

  lemma StepSound(s: Sema, e: Event)
    requires Sound(s) && Enabled(s, e)
    ensures Sound(Step(s, e))
  {
    match e
    case Down(t) =>
      assert t in s.woken ==> |s.woken - {t}| == |s.woken| - 1;
      assert t !in s.woken ==> s.woken - {t} == s.woken;
    case TryDown(t) =>
    case Up =>
      if s.waiters != [] {
        var w := s.waiters[0];
        assert w in s.waiters;
        assert |s.woken + {w}| == |s.woken| + 1;
        assert forall x :: x in s.waiters[1..] ==> x in s.waiters;
      }
  }

  lemma {:induction false} RunSound(initial: nat, es: seq<Event>)
    requires initial < UINT_SIZE && Runs(Init(initial), es)
    ensures Sound(Run(Init(initial), es))
    decreases |es|
  {
    if es != [] {
      hide Sound, Step, Enabled;
      RunSound(initial, es[..|es| - 1]);
      StepSound(Run(Init(initial), es[..|es| - 1]), es[|es| - 1]);
    } else {
      assert Sound(Init(initial));
    }
  }

  /** First come, first served: threads are unblocked in the order in which they blocked. */
  lemma {:induction false} FirstComeFirstServed(s: Sema, es: seq<Event>)
    requires s.waiters == []
    ensures Blocked(s, es) == Unblocked(s, es) + Run(s, es).waiters
    decreases |es|
  {
    if es != [] {
      var before := es[..|es| - 1];
      FirstComeFirstServed(s, before);
      hide Run, Blocked, Unblocked;
      var now := Run(s, before);
      assert now.waiters != [] ==> now.waiters == [now.waiters[0]] + now.waiters[1..];
      FifoTurn(s, es);
    }
  }

  lemma FifoTurn(s: Sema, es: seq<Event>)
    requires es != []
    ensures var before, last := es[..|es| - 1], es[|es| - 1];
            var now := Run(s, before);
            && Run(s, es) == Step(now, last)
            && Blocked(s, es) == Blocked(s, before) + (if last.Down? && now.value == 0 then [last.t] else [])
            && Unblocked(s, es) == Unblocked(s, before)
                                   + (if last == Up && now.waiters != [] then [now.waiters[0]] else [])
  {
  }

  lemma StepBalance(s: Sema, e: Event)
    requires s.value < UINT_SIZE
    ensures Step(s, e).value < UINT_SIZE
    ensures var made := s.value + (if e == Up then 1 else 0) - (if e != Up && s.value > 0 then 1 else 0);
            Step(s, e).value == if made == UINT_SIZE then 0 else made
  {
  }

  lemma BalanceTurn(s: Sema, es: seq<Event>)
    requires es != []
    ensures var before, last := es[..|es| - 1], es[|es| - 1];
            && Run(s, es) == Step(Run(s, before), last)
            && Downs(s, es) == Downs(s, before) + (if last != Up && Run(s, before).value > 0 then 1 else 0)
            && Ups(es) == Ups(before) + (if last == Up then 1 else 0)
  {
  }

  /** In every run the value plus the completed downs is the initial value plus the ups, less whole turns of the
      32-bit counter; while that sum stays below the counter's width it is exact. */
  lemma {:induction false} Conservation(initial: nat, es: seq<Event>) returns (turns: nat)
    requires initial < UINT_SIZE && Runs(Init(initial), es)
    ensures var s := Run(Init(initial), es);
            && s.value < UINT_SIZE
            && s.value + Downs(Init(initial), es) + turns * UINT_SIZE == initial + Ups(es)
            && (initial + Ups(es) < UINT_SIZE ==> turns == 0)
    decreases |es|
  {
    if es == [] {
      turns := 0;
    } else {
      var s := Init(initial);
      var before, e := es[..|es| - 1], es[|es| - 1];
      assert Runs(s, before);
      hide Run, Runs, Downs, Ups, Step;
      turns := Conservation(initial, before);
      BalanceTurn(s, es);
      StepBalance(Run(s, before), e);
      if e == Up && Run(s, before).value + 1 == UINT_SIZE {
        turns := turns + 1;
      }
    }
  }

  /** No lost wake-up: when the value is positive, every waiting thread has a woken one ahead of it. */
  lemma NoLostWakeup(initial: nat, es: seq<Event>)
    requires initial < UINT_SIZE && Runs(Init(initial), es)
    ensures var s := Run(Init(initial), es);
            s.waiters != [] && s.value > 0 ==> exists t :: t in s.woken && Enabled(s, Down(t))
                                                           && Step(s, Down(t)).value == s.value - 1
  {
    RunSound(initial, es);
    var s := Run(Init(initial), es);
    if s.waiters != [] && s.value > 0 {
      assert s.woken != {};
      var t :| t in s.woken;
      assert Enabled(s, Down(t));
    }
  }

  /** `t` was unblocked and has not tested the value since. */
  ghost predicate OnItsWay(s: Sema, es: seq<Event>, t: Tid) {
    exists i :: 0 <= i < |es| && Wakes(s, es, i, t) && forall j :: i < j < |es| ==> es[j] != Down(t)
  }

  /** The `i`th event of the run unblocks `t`, which has waited longest. */
  ghost predicate Wakes(s: Sema, es: seq<Event>, i: nat, t: Tid)
    requires i < |es|
  {
    var w := Run(s, es[..i]).waiters;
    es[i] == Up && w != [] && w[0] == t
  }

  lemma WakesSame(s: Sema, es: seq<Event>, i: nat, t: Tid)
    requires i < |es| - 1
    ensures Wakes(s, es[..|es| - 1], i, t) <==> Wakes(s, es, i, t)
  {
    assert es[..|es| - 1][..i] == es[..i];
  }

  lemma OnItsWayTurn(s: Sema, es: seq<Event>, t: Tid)
    requires es != []
    ensures OnItsWay(s, es, t) <==>
              Wakes(s, es, |es| - 1, t) || (OnItsWay(s, es[..|es| - 1], t) && es[|es| - 1] != Down(t))
  {
    hide Wakes;
    var before := es[..|es| - 1];
    if OnItsWay(s, before, t) && es[|es| - 1] != Down(t) {
      var i :| 0 <= i < |before| && Wakes(s, before, i, t) && forall j :: i < j < |before| ==> before[j] != Down(t);
      WakesSame(s, es, i, t);
      assert forall j :: i < j < |before| ==> es[j] == before[j];
    }
    if OnItsWay(s, es, t) {
      var i :| 0 <= i < |es| && Wakes(s, es, i, t) && forall j :: i < j < |es| ==> es[j] != Down(t);
      if i < |before| {
        WakesSame(s, es, i, t);
        assert forall j :: i < j < |before| ==> before[j] == es[j];
      }
    }
  }

  /** `woken` is exactly the threads that were unblocked and have not tested the value since. */
  lemma {:induction false} WokenExactly(s: Sema, es: seq<Event>, t: Tid)
    requires s.woken == {}
    ensures t in Run(s, es).woken <==> OnItsWay(s, es, t)
    decreases |es|
  {
    if es != [] {
      hide OnItsWay;
      WokenExactly(s, es[..|es| - 1], t);
      OnItsWayTurn(s, es, t);
    }
  }

  // ---------------------------------------------------------------- the source's form

  class Semaphore {
    var value: nat
    var waiters: seq<Tid>
    ghost var woken: set<Tid>

    ghost function View(): Sema
      reads this
    {
      Sema(value, waiters, woken)
    }

    constructor (initial: nat)
      ensures View() == Init(initial)
    {
      value, waiters, woken := initial, [], {};
    }

    /** One turn of the loop in `sema_down`; `blocked` when the thread must give up the processor. */
    method DownTurn(t: Tid) returns (blocked: bool)
      requires Enabled(View(), Down(t))
      modifies this
      ensures View() == Step(old(View()), Down(t))
      ensures blocked <==> old(value) == 0
      ensures blocked <==> t in waiters
    {
      blocked := value == 0;
      if blocked {
        waiters := waiters + [t];
      } else {
        value := value - 1;
      }
      woken := woken - {t};
    }

    method TryDownOnce(t: Tid) returns (success: bool)
      requires Enabled(View(), TryDown(t))
      modifies this
      ensures View() == Step(old(View()), TryDown(t))
      ensures success <==> old(value) > 0
    {
      success := value > 0;
      if success {
        value := value - 1;
      }
    }

    method UpOnce() returns (unblocked: seq<Tid>)
      modifies this
      ensures View() == Step(old(View()), Up)
      ensures unblocked == if old(waiters) == [] then [] else [old(waiters)[0]]
    {
      unblocked := [];
      if waiters != [] {
        unblocked := [waiters[0]];
        woken := woken + {waiters[0]};
        waiters := waiters[1..];
      }
      value := (value + 1) % UINT_SIZE;
    }
  }
}
