/** The re-entrant mutex of the coroutine scheduler. A coroutine that finds the mutex held queues up and
    yields inside `lock`; it looks again when it is resumed. */
module CoMutex {
  import opened Coroutines
  import opened Wrappers

  /** `state` holds the coroutines that have not finished, `inLock` those that have yielded inside
      `lock`, and `nested` how many `lock` calls of each are still to be matched by an `unlock`. */
  datatype World = World(
    holder: Option<nat>,
    waiting: seq<nat>,
    selfCount: int,
    state: map<nat, CoState>,
    current: Option<nat>,
    inLock: set<nat>,
    nested: map<nat, nat>
  )

  const START := World(None, [], 0, map[], None, {}, map[])

  function Nested(w: World, co: nat): nat
  {
    if co in w.nested then w.nested[co] else 0
  }

  /** The loop of `lock`: queue up while the mutex is held. */
  function Settle(w: World, co: nat): World
  {
    if w.holder.Some?
    then w.(waiting := w.waiting + [co], state := w.state[co := Suspended], current := None, inLock := w.inLock + {co})
    else w.(holder := Some(co), inLock := w.inLock - {co}, nested := w.nested[co := Nested(w, co) + 1])
  }

  function Lock(w: World, co: nat): World
  {
    if w.holder == Some(co)
    then w.(selfCount := w.selfCount + 1, nested := w.nested[co := Nested(w, co) + 1])
    else Settle(w, co)
  }

  function SetReady(state: map<nat, CoState>, co: nat): map<nat, CoState>
  {
    if co in state then state[co := Ready] else state
  }

  function Unlock(w: World, co: nat): World
    requires Nested(w, co) > 0
  {
    var left := w.(nested := w.nested[co := Nested(w, co) - 1]);
    var d := if w.selfCount == 0 then left.(holder := None) else left.(selfCount := w.selfCount - 1);
    if d.holder.None? && d.waiting != []
    then d.(waiting := w.waiting[1..], state := SetReady(w.state, w.waiting[0]))
    else d
  }

  function Resume(w: World, co: nat): World
  {
    var d := w.(state := w.state[co := Running], current := Some(co));
    if co in w.inLock then Settle(d, co) else d
  }

  datatype Step =
    | DoSpawn(co: nat)
    | DoResume(co: nat)
    | DoLock
    | DoUnlock
    | DoYield
    | DoWake(co: nat)
    | DoFinish

  /** Coroutines run one at a time; `lock` and `unlock` are called inside them, correctly paired.
      `DoWake` is any event that makes a suspended coroutine ready. */
  predicate Enabled(w: World, step: Step)
  {
    match step
    case DoSpawn(co) => co !in w.state && co !in w.nested
    case DoResume(co) => w.current.None? && co in w.state && w.state[co].Ready?
    case DoLock => w.current.Some?
    case DoUnlock => w.current.Some? && Nested(w, w.current.value) > 0
    case DoYield => w.current.Some?
    case DoWake(co) => co in w.state && w.state[co].Suspended?
    case DoFinish => w.current.Some?
  }

  /** A wakeup that the mutex did not give to a coroutine waiting inside `lock`. */
  predicate Spurious(w: World, step: Step)
  {
    step.DoWake? && step.co in w.inLock
  }

  function Next(w: World, step: Step): World
    requires Enabled(w, step)
  {
    match step
    case DoSpawn(co) => w.(state := w.state[co := Ready])
    case DoResume(co) => Resume(w, co)
    case DoLock => Lock(w, w.current.value)
    case DoUnlock => Unlock(w, w.current.value)
    case DoYield => w.(state := w.state[w.current.value := Suspended], current := None)
    case DoWake(co) => w.(state := w.state[co := Ready])
    case DoFinish => w.(state := w.state - {w.current.value}, current := None)
  }

  predicate Follows(w: World, steps: seq<Step>)
    decreases steps
  {
    steps == [] || (Enabled(w, steps[0]) && Follows(Next(w, steps[0]), steps[1..]))
  }

  function Run(w: World, steps: seq<Step>): World
    requires Follows(w, steps)
    decreases steps
  {
    if steps == [] then w else Run(Next(w, steps[0]), steps[1..])
  }

  predicate EverSpurious(w: World, steps: seq<Step>)
    requires Follows(w, steps)
    decreases steps
  {
    steps != [] && (Spurious(w, steps[0]) || EverSpurious(Next(w, steps[0]), steps[1..]))
  }

  /** Which coroutines there are after a step: only spawning adds one and only finishing removes one, so a wakeup
      of one that has finished does not bring it back. Yielding and finishing leave the mutex alone. */
  lemma Schedules(w: World, step: Step)
    requires Enabled(w, step) && (w.current.Some? ==> w.current.value in w.state)
    ensures var d := Next(w, step);
            d.state.Keys == (match step
                             case DoSpawn(co) => w.state.Keys + {co}
                             case DoFinish => w.state.Keys - {w.current.value}
                             case _ => w.state.Keys) &&
            (step.DoYield? || step.DoFinish? ==>
               d.current == None && d.holder == w.holder && d.waiting == w.waiting && d.selfCount == w.selfCount) &&
            (step.DoYield? ==> d.state[w.current.value] == Suspended)
  {
  }

  // ---------- Mutual exclusion ----------

  ghost predicate Exclusive(w: World)
  {
    w.selfCount >= 0 &&
    (w.holder.None? ==> w.selfCount == 0) &&
    forall co: nat :: Nested(w, co) == if w.holder == Some(co) then w.selfCount + 1 else 0
  }

  lemma ExclusiveStep(w: World, step: Step)
    requires Exclusive(w) && Enabled(w, step)
    ensures Exclusive(Next(w, step))
  {
    var d := Next(w, step);
    forall co: nat
      ensures Nested(d, co) == if d.holder == Some(co) then d.selfCount + 1 else 0
    {
      assert Nested(w, co) == if w.holder == Some(co) then w.selfCount + 1 else 0;
      if step.DoUnlock? {
        assert Nested(w, w.current.value) > 0;
      }
    }
  }

  lemma {:induction false} ExclusiveRun(w: World, steps: seq<Step>)
    requires Exclusive(w) && Follows(w, steps)
    ensures Exclusive(Run(w, steps))
    decreases steps
  {
    if steps != [] {
      ExclusiveStep(w, steps[0]);
      ExclusiveRun(Next(w, steps[0]), steps[1..]);
    }
  }

  /** In every run, with any wakeups: whoever is inside is the holder, nobody else is, and
      `m_self_count + 1` is how deep the holder is nested. */
  lemma MutualExclusion(steps: seq<Step>, co: nat)
    requires Follows(START, steps)
    ensures var w := Run(START, steps);
            (Nested(w, co) > 0 <==> w.holder == Some(co)) &&
            (w.holder == Some(co) ==> Nested(w, co) == w.selfCount + 1)
  {
    ExclusiveRun(START, steps);
    assert Nested(Run(START, steps), co) >= 0;
  }

  /** Only the last `unlock` releases the mutex. */
  lemma ReleasedAtDepthZero(steps: seq<Step>)
    requires Follows(START, steps) && Enabled(Run(START, steps), DoUnlock)
    ensures var w := Run(START, steps);
            var co := w.current.value;
            w.holder == Some(co) && Next(w, DoUnlock).holder == if Nested(w, co) == 1 then None else Some(co)
  {
    ExclusiveRun(START, steps);
    var w := Run(START, steps);
    assert Nested(w, w.current.value) > 0;
  }

  // ---------- No lost wakeup ----------

  predicate Distinct(s: seq<nat>)
  {
    forall i, j :: 0 <= i < j < |s| ==> s[i] != s[j]
  }

  predicate Queued(w: World, co: nat)
  {
    co in w.state && w.current != Some(co) &&
    if co in w.waiting then w.state[co].Suspended? else w.state[co].Ready?
  }

  /** A coroutine inside `lock` that has been woken and will find out who holds the mutex. */
  predicate Woken(w: World, co: nat)
  {
    co in w.inLock && co in w.state && w.state[co].Ready?
  }

  ghost predicate Orderly(w: World)
  {
    Distinct(w.waiting) &&
    (forall co <- w.waiting :: co in w.inLock) &&
    (forall co <- w.inLock :: Queued(w, co)) &&
    (w.holder.None? && w.waiting != [] ==> exists co :: Woken(w, co))
  }

  lemma OrderlyRest(w: World, d: World)
    requires Orderly(w) && d.waiting == w.waiting && d.inLock == w.inLock && (d.holder.None? ==> w.holder.None?)
    requires forall co <- w.inLock ::
               co in d.state && co in w.state && d.state[co] == w.state[co] && d.current != Some(co)
    ensures Orderly(d)
  {
    forall co <- d.inLock
      ensures Queued(d, co)
    {
      assert Queued(w, co);
    }
    if w.holder.None? && w.waiting != [] {
      var co :| Woken(w, co);
      assert Woken(d, co);
    }
  }

  /** The front of the queue is woken. */
  lemma OrderlyUnlock(w: World, co: nat)
    requires Orderly(w) && Nested(w, co) > 0 && w.current == Some(co)
    ensures Orderly(Unlock(w, co))
  {
    var d := Unlock(w, co);
    if w.waiting == [] || d.holder.Some? {
      forall x <- w.inLock
        ensures Queued(d, x)
      {
        assert Queued(w, x);
      }
    } else {
      var front := w.waiting[0];
      assert front in w.waiting && Queued(w, front);
      assert w.waiting == [front] + w.waiting[1..];
      forall x <- d.inLock
        ensures Queued(d, x)
      {
        assert Queued(w, x);
        assert x in w.waiting <==> x == front || x in w.waiting[1..];
      }
      forall x <- d.waiting
        ensures x in d.inLock
      {
        assert x in w.waiting;
      }
      assert Woken(d, front);
    }
  }

  /** The mutex is taken by a running coroutine, whether it has waited for it or barges in. */
  lemma OrderlySettle(w: World, co: nat)
    requires Distinct(w.waiting) && (forall x <- w.waiting :: x in w.inLock)
    requires forall x <- w.inLock :: x != co ==> Queued(w, x)
    requires co !in w.waiting && w.current == Some(co)
    ensures Orderly(Settle(w, co))
  {
    var d := Settle(w, co);
    forall x <- d.inLock
      ensures Queued(d, x)
    {
      assert x != co ==> Queued(w, x);
    }
    assert d.holder.Some?;
  }

  lemma OrderlyResume(w: World, co: nat)
    requires Orderly(w) && w.current.None? && co in w.state && w.state[co].Ready?
    ensures Orderly(Resume(w, co))
  {
    var d := w.(state := w.state[co := Running], current := Some(co));
    if co in w.inLock {
      assert Queued(w, co);
      forall x <- d.inLock
        ensures x != co ==> Queued(d, x)
      {
        assert Queued(w, x);
      }
      OrderlySettle(d, co);
    } else {
      forall x <- w.inLock
        ensures x in w.state
      {
        assert Queued(w, x);
      }
      OrderlyRest(w, d);
    }
  }

  lemma OrderlyStep(w: World, step: Step)
    requires Orderly(w) && Enabled(w, step) && !Spurious(w, step)
    ensures Orderly(Next(w, step))
  {
    forall co <- w.inLock
      ensures co in w.state && w.current != Some(co)
    {
      assert Queued(w, co);
    }
    match step
    case DoSpawn(co) => OrderlyRest(w, Next(w, step));
    case DoResume(co) => OrderlyResume(w, co);
    case DoLock =>
      if w.holder == w.current {
        OrderlyRest(w, Next(w, step));
      } else {
        OrderlySettle(w, w.current.value);
      }
    case DoUnlock => OrderlyUnlock(w, w.current.value);
    case DoYield => OrderlyRest(w, Next(w, step));
    case DoWake(co) => OrderlyRest(w, Next(w, step));
    case DoFinish => OrderlyRest(w, Next(w, step));
  }

  lemma {:induction false} OrderlyRun(w: World, steps: seq<Step>)
    requires Orderly(w) && Follows(w, steps) && !EverSpurious(w, steps)
    ensures Orderly(Run(w, steps))
    decreases steps
  {
    if steps != [] {
      OrderlyStep(w, steps[0]);
      OrderlyRun(Next(w, steps[0]), steps[1..]);
    }
  }

  /** In every run in which only `unlock` wakes those who wait inside `lock`: each of them is queued
      exactly once or has been woken, and when the mutex is free while some are queued, one has been
      woken; the first of the woken ones to be resumed gets the mutex. */
  lemma NoLostWakeup(steps: seq<Step>)
    requires Follows(START, steps) && !EverSpurious(START, steps)
    ensures var w := Run(START, steps);
            Distinct(w.waiting) &&
            (forall co <- w.inLock :: co in w.waiting || Woken(w, co)) &&
            (w.holder.None? && w.waiting != [] ==> exists co :: Woken(w, co)) &&
            (forall co: nat :: w.holder.None? && Woken(w, co) ==> Resume(w, co).holder == Some(co))
  {
    OrderlyRun(START, steps);
    var w := Run(START, steps);
    forall co <- w.inLock
      ensures co in w.waiting || Woken(w, co)
    {
      assert Queued(w, co);
    }
  }

  lemma {:induction false} RunAppend(w: World, a: seq<Step>, b: seq<Step>)
    requires Follows(w, a) && Follows(Run(w, a), b)
    ensures Follows(w, a + b) && Run(w, a + b) == Run(Run(w, a), b)
    decreases a
  {
    if a == [] {
      assert a + b == b;
    } else {
      assert (a + b)[1..] == a[1..] + b;
      RunAppend(Next(w, a[0]), a[1..], b);
    }
  }

  lemma Three(w: World, a: Step, b: Step, c: Step)
    requires Enabled(w, a) && Enabled(Next(w, a), b) && Enabled(Next(Next(w, a), b), c)
    ensures Follows(w, [a, b, c]) && Run(w, [a, b, c]) == Next(Next(Next(w, a), b), c)
  {
    assert [a, b, c][1..] == [b, c] && [b, c][1..] == [c] && [c][1..] == [];
    var x, y := Next(w, a), Next(Next(w, a), b);
    hide Next, Enabled;
    assert Run(Next(y, c), []) == Next(y, c);
    assert Follows(y, [c]) && Run(y, [c]) == Next(y, c);
    assert Follows(x, [b, c]) && Run(x, [b, c]) == Next(y, c);
  }

  // Three coroutines: the first holds the mutex, the second is woken for no reason and queues up
  // again, the third queues up behind it.
  const BEGIN := [DoSpawn(1), DoSpawn(2), DoSpawn(3), DoResume(1), DoLock, DoYield]
  const TWICE := [DoResume(2), DoLock, DoWake(2), DoResume(2), DoResume(3), DoLock]
  const RELEASE := [DoWake(1), DoResume(1), DoUnlock, DoYield, DoResume(2), DoUnlock]

  lemma BeginRuns()
    ensures Follows(START, BEGIN)
    ensures Run(START, BEGIN) ==
            World(Some(1), [], 0, map[1 := Suspended, 2 := Ready, 3 := Ready], None, {}, map[1 := 1])
  {
    Three(START, DoSpawn(1), DoSpawn(2), DoSpawn(3));
    var w := Run(START, [DoSpawn(1), DoSpawn(2), DoSpawn(3)]);
    Three(w, DoResume(1), DoLock, DoYield);
    RunAppend(START, [DoSpawn(1), DoSpawn(2), DoSpawn(3)], [DoResume(1), DoLock, DoYield]);
    assert BEGIN == [DoSpawn(1), DoSpawn(2), DoSpawn(3)] + [DoResume(1), DoLock, DoYield];
  }

  lemma TwiceRuns(w: World)
    requires w == World(Some(1), [], 0, map[1 := Suspended, 2 := Ready, 3 := Ready], None, {}, map[1 := 1])
    ensures Follows(w, TWICE)
    ensures Run(w, TWICE) ==
            World(Some(1), [2, 2, 3], 0, map[1 := Suspended, 2 := Suspended, 3 := Suspended], None, {2, 3}, map[1 := 1])
  {
    Three(w, DoResume(2), DoLock, DoWake(2));
    var d := Run(w, [DoResume(2), DoLock, DoWake(2)]);
    Three(d, DoResume(2), DoResume(3), DoLock);
    RunAppend(w, [DoResume(2), DoLock, DoWake(2)], [DoResume(2), DoResume(3), DoLock]);
    assert TWICE == [DoResume(2), DoLock, DoWake(2)] + [DoResume(2), DoResume(3), DoLock];
  }

  lemma ReleaseRuns(w: World)
    requires w == World(Some(1), [2, 2, 3], 0, map[1 := Suspended, 2 := Suspended, 3 := Suspended],
                        None, {2, 3}, map[1 := 1])
    ensures Follows(w, RELEASE)
    ensures Run(w, RELEASE) ==
            World(None, [3], 0, map[1 := Suspended, 2 := Ready, 3 := Suspended], Some(2), {3}, map[1 := 0, 2 := 0])
  {
    Three(w, DoWake(1), DoResume(1), DoUnlock);
    var d := Run(w, [DoWake(1), DoResume(1), DoUnlock]);
    assert d.waiting == [2, 3];
    Three(d, DoYield, DoResume(2), DoUnlock);
    RunAppend(w, [DoWake(1), DoResume(1), DoUnlock], [DoYield, DoResume(2), DoUnlock]);
    assert RELEASE == [DoWake(1), DoResume(1), DoUnlock] + [DoYield, DoResume(2), DoUnlock];
  }

  /** The assumption is needed: a spurious wakeup queues a coroutine twice, the second wakeup that is
      meant for it is wasted, and the mutex is free while nobody who waits for it has been woken. */
  lemma SpuriousWakeupLosesOne()
    ensures Follows(START, BEGIN + TWICE + RELEASE)
    ensures var w := Run(START, BEGIN + TWICE + RELEASE);
            w.holder.None? && w.waiting == [3] && 3 in w.inLock && forall co: nat :: !Woken(w, co)
  {
    BeginRuns();
    TwiceRuns(Run(START, BEGIN));
    RunAppend(START, BEGIN, TWICE);
    ReleaseRuns(Run(START, BEGIN + TWICE));
    RunAppend(START, BEGIN + TWICE, RELEASE);
  }

  // ---------- Exactly when a wakeup is lost ----------

  /** The mutex is free, some wait for it, and nobody has been woken to take it. */
  ghost predicate Lost(w: World)
  {
    w.holder.None? && w.inLock != {} && forall co: nat :: !Woken(w, co)
  }

  /** The release of a free mutex is spent on a coroutine that does not wait for it any more, while those
      who do have not been woken. */
  ghost predicate Wasted(w: World, step: Step)
  {
    step.DoUnlock? && w.selfCount == 0 && w.inLock != {} && (forall co: nat :: !Woken(w, co)) &&
    w.waiting != [] && w.waiting[0] !in w.inLock
  }

  ghost predicate EverWasted(w: World, steps: seq<Step>)
    requires Follows(w, steps)
    decreases steps
  {
    steps != [] && (Wasted(w, steps[0]) || EverWasted(Next(w, steps[0]), steps[1..]))
  }

  ghost predicate EverLost(w: World, steps: seq<Step>)
    requires Follows(w, steps)
    decreases steps
  {
    Lost(w) || (steps != [] && EverLost(Next(w, steps[0]), steps[1..]))
  }

  /** Whoever waits inside `lock` does not run, and is queued unless it has been woken. */
  predicate Accounted(w: World, co: nat)
  {
    co in w.state && w.current != Some(co) && !w.state[co].Running? && (w.state[co].Suspended? ==> co in w.waiting)
  }

  ghost predicate Accountable(w: World)
  {
    (forall co <- w.inLock :: Accounted(w, co)) && (w.current.Some? ==> w.current.value in w.state)
  }

  lemma AccountableStep(w: World, step: Step)
    requires Accountable(w) && Enabled(w, step)
    ensures Accountable(Next(w, step))
  {
    var d := Next(w, step);
    forall co <- d.inLock
      ensures Accounted(d, co)
    {
      assert co in w.inLock ==> Accounted(w, co);
      if step.DoUnlock? && w.waiting != [] {
        assert w.waiting == [w.waiting[0]] + w.waiting[1..];
      }
    }
  }

  /** A step loses a wakeup if and only if it is such an unlock. */
  lemma LosesIffWasted(w: World, step: Step)
    requires Accountable(w) && Exclusive(w) && Enabled(w, step) && !Lost(w)
    ensures Lost(Next(w, step)) <==> Wasted(w, step)
  {
    var d := Next(w, step);
    forall co <- w.inLock
      ensures Accounted(w, co)
    {
    }
    if Wasted(w, step) {
      forall co: nat
        ensures !Woken(d, co)
      {
        assert !Woken(w, co);
      }
      assert Nested(w, w.current.value) > 0;
    } else if step.DoUnlock? {
      UnlockWakes(w);
    } else if w.holder.None? && w.inLock != {} {
      var co: nat :| Woken(w, co);
      assert d.holder.None? ==> Woken(d, co);
    }
  }

  /** An unlock that is not wasted leaves the mutex held, nobody waiting, or somebody woken. */
  lemma UnlockWakes(w: World)
    requires Accountable(w) && Exclusive(w) && Enabled(w, DoUnlock) && !Wasted(w, DoUnlock)
    ensures !Lost(Next(w, DoUnlock))
  {
    var d := Next(w, DoUnlock);
    assert Nested(w, w.current.value) > 0;
    if w.selfCount == 0 && w.inLock != {} {
      if co: nat :| Woken(w, co) {
        assert Accounted(w, co);
        assert Woken(d, co);
      } else {
        var x :| x in w.inLock;
        assert Accounted(w, x) && !Woken(w, x);
        assert Accounted(w, w.waiting[0]);
        assert Woken(d, w.waiting[0]);
      }
    }
  }

  lemma {:induction false} AccountableRun(w: World, steps: seq<Step>)
    requires Accountable(w) && Follows(w, steps)
    ensures Accountable(Run(w, steps))
    decreases steps
  {
    if steps != [] {
      AccountableStep(w, steps[0]);
      AccountableRun(Next(w, steps[0]), steps[1..]);
    }
  }

  /** After every run, with any wakeups: the next step loses a wakeup if and only if it is such an unlock. */
  lemma NextLosesIffWasted(steps: seq<Step>, step: Step)
    requires Follows(START, steps) && Enabled(Run(START, steps), step) && !Lost(Run(START, steps))
    ensures Lost(Next(Run(START, steps), step)) <==> Wasted(Run(START, steps), step)
  {
    AccountableRun(START, steps);
    ExclusiveRun(START, steps);
    LosesIffWasted(Run(START, steps), step);
  }

  lemma {:induction false} LostRun(w: World, steps: seq<Step>)
    requires Accountable(w) && Exclusive(w) && Follows(w, steps) && !Lost(w)
    ensures EverLost(w, steps) <==> EverWasted(w, steps)
    decreases steps
  {
    if steps != [] {
      LosesIffWasted(w, steps[0]);
      if !Wasted(w, steps[0]) {
        AccountableStep(w, steps[0]);
        ExclusiveStep(w, steps[0]);
        LostRun(Next(w, steps[0]), steps[1..]);
      }
    }
  }

  /** In every run, with any wakeups: at some point the mutex is free with nobody woken who waits for it if
      and only if some unlock was spent on a coroutine that did not wait for it any more, while nobody who
      did had been woken. */
  lemma LostIffWasted(steps: seq<Step>)
    requires Follows(START, steps)
    ensures EverLost(START, steps) <==> EverWasted(START, steps)
  {
    LostRun(START, steps);
  }

  // ---------- The objects ----------

  class Scheduler {
    var state: map<nat, CoState>
    var current: Option<nat>

    constructor ()
      ensures state == map[] && current == None
    {
      state, current := map[], None;
    }

    method SetReadyCo(co: nat)
      modifies this`state
      ensures state == SetReady(old(state), co)
    {
      if co in state {
        state := state[co := Ready];
      }
    }

    method YieldCo()
      requires current.Some?
      modifies this
      ensures current == None && state == old(state)[old(current).value := Suspended]
    {
      var co := current.value;
      current := None;
      state := state[co := Suspended];
    }

    method ResumeCo(co: nat)
      modifies this
      ensures current == Some(co) && state == old(state)[co := Running]
    {
      current := Some(co);
      state := state[co := Running];
    }
  }

  class Mutex {
    const belong: Scheduler
    var holder: Option<nat>
    var waiting: seq<nat>
    var selfCount: int
    var inLock: set<nat>  // where the coroutines stand: kept in their saved contexts
    ghost var nested: map<nat, nat>

    ghost function State(): World
      reads this, belong
    {
      World(holder, waiting, selfCount, belong.state, belong.current, inLock, nested)
    }

    constructor (belong: Scheduler)
      ensures this.belong == belong && holder == None && waiting == [] && selfCount == 0 && inLock == {} &&
              nested == map[]
    {
      this.belong := belong;
      holder, waiting, selfCount, inLock, nested := None, [], 0, {}, map[];
    }

    /** `lock`, up to where it yields or returns. */
    method LockCo() returns (locked: bool)
      requires belong.current.Some?
      modifies this, belong
      ensures State() == Lock(old(State()), old(belong.current).value) && (locked <==> belong.current.Some?)
    {
      if holder != belong.current {
        locked := Look();
        return;
      }
      selfCount := selfCount + 1;
      nested := nested[holder.value := Nested(State(), holder.value) + 1];
      return true;
    }

    /** One turn of the loop inside `lock`: on entry, and again whenever the coroutine is resumed. */
    method Look() returns (locked: bool)
      requires belong.current.Some?
      modifies this, belong
      ensures State() == Settle(old(State()), old(belong.current).value) && (locked <==> belong.current.Some?)
    {
      var co := belong.current.value;
      if holder.Some? {
        waiting := waiting + [co];
        inLock := inLock + {co};
        belong.YieldCo();
        return false;
      }
      holder := Some(co);
      inLock := inLock - {co};
      nested := nested[co := Nested(State(), co) + 1];
      return true;
    }

    /** `resume_co`, and the rest of `lock` if that is where the coroutine has yielded. */
    method ResumeIn(co: nat)
      modifies this, belong
      ensures State() == Resume(old(State()), co)
    {
      belong.ResumeCo(co);
      if co in inLock {
        var _ := Look();
      }
    }

    method UnlockCo()
      requires belong.current.Some? && Nested(State(), belong.current.value) > 0
      modifies this, belong
      ensures belong.current == old(belong.current) && State() == Unlock(old(State()), old(belong.current).value)
    {
      nested := nested[belong.current.value := Nested(State(), belong.current.value) - 1];
      if selfCount == 0 {
        holder := None;
      } else {
        selfCount := selfCount - 1;
      }
      if holder.None? && waiting != [] {
        var co := waiting[0];
        waiting := waiting[1..];
        belong.SetReadyCo(co);
      }
    }
  }
}
