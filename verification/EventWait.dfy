/** Waiting for a file descriptor with a timeout, on top of the coroutine scheduler: a wait registers the
    descriptor and a timer with the event loop, and whichever fires first ends it. */
module EventWait {
  import opened Coroutines
  import opened Wrappers

  /** What `AD_CO_EVENT_NODE` holds: the coroutine, its descriptor and that of its timer. */
  datatype CoNode = CoNode(co: nat, fd: int, timer: Option<int>)

  /** What is registered under a descriptor: a wait, the timer of a wait, or a node of another kind. */
  datatype Node = WaitNode(of: CoNode) | TimerNode(of: CoNode) | Other(id: nat)

  /** A coroutine inside `yield_by_fd`: how often it has been made ready, and whether its descriptor
      was what fired. */
  datatype Wait = Wait(node: CoNode, readied: nat, fdFired: bool)

  /** `handlers` are the coroutines that have been added for an event and have not started. */
  datatype World = World(
    regs: map<int, Node>,
    state: map<nat, CoState>,
    result: map<nat, bool>,
    handlers: map<nat, Node>,
    current: Option<nat>,
    waits: map<nat, Wait>
  )

  const START := World(map[], map[0 := Ready], map[], map[], None, map[])

  // ---------- The operations of the source ----------

  /** `registerNode` refuses a descriptor that is registered already. */
  function Register(regs: map<int, Node>, fd: int, node: Node): map<int, Node>
  {
    if fd in regs then regs else regs[fd := node]
  }

  /** `unregisterNode` removes whatever is registered under the descriptor. */
  function Unregister(regs: map<int, Node>, fd: int): map<int, Node>
  {
    regs - {fd}
  }

  /** The descriptors that the end of a wait unregisters. */
  function Removed(node: CoNode): set<int>
  {
    {node.fd} + if node.timer.Some? then {node.timer.value} else {}
  }

  function StopTimer(regs: map<int, Node>, timer: Option<int>): map<int, Node>
  {
    if timer.Some? then Unregister(regs, timer.value) else regs
  }

  /** `yield_by_fd`, up to where the coroutine yields; `timer` is the descriptor of the timer, if a
      timeout is wanted. */
  function YieldByFd(w: World, co: nat, fd: int, timer: Option<int>): World
  {
    var node := CoNode(co, fd, timer);
    var regs := if timer.Some? then Register(w.regs, timer.value, TimerNode(node)) else w.regs;
    w.(regs := Register(regs, fd, WaitNode(node)), state := w.state[co := Suspended], current := None,
       waits := w.waits[co := Wait(node, 0, false)])
  }

  /** `AD_CO_EVENT_NODE::handleEvent`, called for the descriptor or by the timer. */
  function HandleEvent(w: World, node: CoNode, fdFired: bool): World
  {
    w.(regs := Unregister(StopTimer(w.regs, node.timer), node.fd),
       state := w.state[node.co := Ready],
       result := w.result[node.co := true],
       waits := if node.co in w.waits
                then w.waits[node.co := w.waits[node.co].(readied := w.waits[node.co].readied + 1, fdFired := fdFired)]
                else w.waits)
  }

  function TimerCallback(w: World, node: CoNode): World
  {
    var d := HandleEvent(w, node, false);
    d.(result := d.result[node.co := false])
  }

  /** A handler runs as a coroutine of its own; that of a wait or of its timer runs to its end. */
  function Resume(w: World, co: nat): World
    requires co in w.state
  {
    if co in w.handlers && !w.handlers[co].Other? then
      var node := w.handlers[co];
      var d := w.(handlers := w.handlers - {co}, state := w.state - {co});
      if node.WaitNode? then HandleEvent(d, node.of, true) else TimerCallback(d, node.of)
    else
      w.(handlers := w.handlers - {co}, state := w.state[co := Running], current := Some(co), waits := w.waits - {co})
  }

  /** `epoll_wait` has reported a descriptor. */
  function Report(w: World, fd: int, handler: nat): World
    requires fd in w.regs
  {
    w.(handlers := w.handlers[handler := w.regs[fd]], state := w.state[handler := Ready])
  }

  // ---------- Runs ----------

  datatype Step =
    | DoWait(fd: int, timer: Option<int>)
    | DoReport(fd: int, handler: nat)
    | DoResume(co: nat)
    | DoSpawn(co: nat)
    | DoSuspend
    | DoWake(co: nat)
    | DoRegister(fd: int, id: nat)
    | DoUnregister(fd: int)
    | DoFinish

  /** The loop asks for events only when no coroutine is ready. Timers have new descriptors, and only the event
      loop wakes a coroutine that waits for a descriptor. */
  predicate Enabled(w: World, step: Step)
  {
    match step
    case DoWait(fd, timer) =>
      w.current.Some? && (timer.Some? ==> timer.value !in w.regs && timer.value != fd)
    case DoReport(fd, handler) =>
      w.current.None? && (forall co <- w.state :: !w.state[co].Ready?) && fd in w.regs &&
      handler !in w.state && handler !in w.waits
    case DoResume(co) => w.current.None? && co in w.state && w.state[co].Ready?
    case DoSpawn(co) => w.current.Some? && co !in w.state && co !in w.waits && co !in w.handlers
    case DoSuspend => w.current.Some?
    case DoWake(co) => w.current.Some? && co in w.state && w.state[co].Suspended? && co !in w.waits
    case DoRegister(_, _) => w.current.Some?
    case DoUnregister(_) => w.current.Some?
    case DoFinish => w.current.Some?
  }

  function Next(w: World, step: Step): World
    requires Enabled(w, step)
  {
    match step
    case DoWait(fd, timer) => YieldByFd(w, w.current.value, fd, timer)
    case DoReport(fd, handler) => Report(w, fd, handler)
    case DoResume(co) => Resume(w, co)
    case DoSpawn(co) => w.(state := w.state[co := Ready])
    case DoSuspend => w.(state := w.state[w.current.value := Suspended], current := None)
    case DoWake(co) => w.(state := w.state[co := Ready])
    case DoRegister(fd, id) => w.(regs := Register(w.regs, fd, Other(id)))
    case DoUnregister(fd) => w.(regs := Unregister(w.regs, fd))
    case DoFinish => w.(state := w.state - {w.current.value}, current := None)
  }

  /** Which coroutines there are, and which of them runs, after a step that is none of the event loop. */
  lemma Schedules(w: World, step: Step)
    requires Enabled(w, step) && (w.current.Some? ==> w.current.value in w.state)
    requires step.DoWait? || step.DoSuspend? || step.DoFinish? || step.DoSpawn? || step.DoWake?
    ensures var d := Next(w, step);
            d.handlers == w.handlers && d.result == w.result &&
            d.current == (if step.DoSpawn? || step.DoWake? then w.current else None) &&
            d.state.Keys == (match step
                             case DoSpawn(co) => w.state.Keys + {co}
                             case DoFinish => w.state.Keys - {w.current.value}
                             case _ => w.state.Keys) &&
            (step.DoWait? || step.DoSuspend? ==> d.state[w.current.value] == Suspended) &&
            (step.DoSpawn? || step.DoWake? ==> d.state[step.co] == Ready) &&
            (!step.DoWait? ==> d.regs == w.regs && d.waits == w.waits)
  {
  }

  predicate Follows(w: World, steps: seq<Step>)
    decreases steps
  {
    steps == [] || (Enabled(w, steps[0]) && Follows(Next(w, steps[0]), steps[1..]))
  }

  function Run(w: World, steps: seq<Step>): World
    requires Follows(w, steps)
    decreases steps
  {
    if steps == [] then w else Run(Next(w, steps[0]), steps[1..])
  }

  // ---------- What every run keeps ----------

  predicate Pending(w: World, node: CoNode)
  {
    node.co in w.waits && w.waits[node.co].node == node && w.waits[node.co].readied == 0
  }

  /** A coroutine that waits is suspended until its wait ends, and then it has ended once. */
  predicate WaitOk(w: World, co: nat)
  {
    co in w.waits ==>
      var wait := w.waits[co];
      wait.node.co == co && co in w.state && w.current != Some(co) && co !in w.handlers &&
      if wait.readied == 0 then w.state[co].Suspended?
      else wait.readied == 1 && w.state[co].Ready? && co in w.result && w.result[co] == wait.fdFired
  }

  predicate RegOk(w: World, fd: int)
  {
    fd in w.regs && !w.regs[fd].Other? ==>
      Pending(w, w.regs[fd].of) &&
      if w.regs[fd].WaitNode? then w.regs[fd].of.fd == fd else w.regs[fd].of.timer == Some(fd)
  }

  /** The handler of a wait is the only coroutine that can run. */
  predicate HandlerOk(w: World, h: nat)
  {
    h in w.handlers ==>
      h in w.state && w.state[h].Ready? && w.current != Some(h) &&
      (!w.handlers[h].Other? ==>
         Pending(w, w.handlers[h].of) && w.current.None? && forall co <- w.state :: w.state[co].Ready? ==> co == h)
  }

  ghost predicate Inv(w: World)
  {
    (forall co: nat :: WaitOk(w, co)) && (forall fd: int :: RegOk(w, fd)) && (forall h: nat :: HandlerOk(w, h)) &&
    (w.current.Some? ==> w.current.value in w.state && w.state[w.current.value] != Suspended)
  }

  lemma WaitKeeps(w: World, fd: int, timer: Option<int>)
    requires Inv(w) && Enabled(w, DoWait(fd, timer))
    ensures Inv(Next(w, DoWait(fd, timer)))
  {
    var d := Next(w, DoWait(fd, timer));
    forall co: nat
      ensures WaitOk(d, co) && HandlerOk(d, co)
    {
      assert WaitOk(w, co) && HandlerOk(w, co);
    }
    forall f: int
      ensures RegOk(d, f)
    {
      assert RegOk(w, f) && WaitOk(w, w.current.value);
    }
  }

  lemma ReportKeeps(w: World, fd: int, handler: nat)
    requires Inv(w) && Enabled(w, DoReport(fd, handler))
    ensures Inv(Next(w, DoReport(fd, handler)))
  {
    var d := Next(w, DoReport(fd, handler));
    assert RegOk(w, fd);
    forall co: nat
      ensures WaitOk(d, co) && HandlerOk(d, co)
    {
      assert WaitOk(w, co) && HandlerOk(w, co);
    }
    forall f: int
      ensures RegOk(d, f)
    {
      assert RegOk(w, f);
    }
  }

  /** Whatever is registered under a descriptor that is reported, of any kind, gets a handler of its own that is
      ready to run; no other handler and no registration is changed. */
  lemma ReportStarts(w: World, fd: int, handler: nat)
    requires Inv(w) && Enabled(w, DoReport(fd, handler))
    ensures var d := Next(w, DoReport(fd, handler));
            handler in d.handlers && d.handlers[handler] == w.regs[fd] &&
            d.handlers.Keys == w.handlers.Keys + {handler} &&
            (forall h <- w.handlers :: d.handlers[h] == w.handlers[h]) &&
            d.regs == w.regs && d.waits == w.waits && d.result == w.result && Enabled(d, DoResume(handler))
  {
    assert HandlerOk(w, handler);
  }

  /** The handler of a node of another kind becomes the running coroutine; it is no handler any more. */
  lemma OtherHandlerRuns(w: World, h: nat)
    requires Inv(w) && Enabled(w, DoResume(h)) && h in w.handlers && w.handlers[h].Other?
    ensures var d := Next(w, DoResume(h));
            d.current == Some(h) && d.state == w.state[h := Running] && d.handlers.Keys == w.handlers.Keys - {h} &&
            d.regs == w.regs && d.waits == w.waits && d.result == w.result
  {
    assert WaitOk(w, h);
  }

  /** The end of a wait touches that wait only, and its handler is gone. */
  lemma EndTouchesOnly(w: World, h: nat)
    requires Inv(w) && Enabled(w, DoResume(h)) && h in w.handlers && !w.handlers[h].Other?
    ensures var d, node := Next(w, DoResume(h)), w.handlers[h].of;
            d.current == None && d.handlers.Keys == w.handlers.Keys - {h} &&
            d.state.Keys == w.state.Keys - {h} && d.waits.Keys == w.waits.Keys &&
            node.co in d.waits && d.waits[node.co] == Wait(node, 1, w.handlers[h].WaitNode?) &&
            (forall co <- d.waits :: co != node.co ==> d.waits[co] == w.waits[co]) &&
            (forall co <- d.state :: co != node.co ==> d.state[co] == w.state[co]) &&
            forall co <- w.result :: co != node.co ==> co in d.result && d.result[co] == w.result[co]
  {
    assert HandlerOk(w, h) && WaitOk(w, w.handlers[h].of.co);
  }

  predicate Mentions(node: Node, co: nat)
  {
    !node.Other? && node.of.co == co
  }

  /** A wait ends, for its descriptor or for its timer: its coroutine is ready, with the result that says which
      it was, and whatever is registered under its descriptor and its timer is gone, its own registrations
      among it. */
  lemma EndKeeps(w: World, h: nat)
    requires Inv(w) && Enabled(w, DoResume(h)) && h in w.handlers && !w.handlers[h].Other?
    ensures var d, node := Next(w, DoResume(h)), w.handlers[h].of;
            Inv(d) && node.co in d.waits && d.waits[node.co].readied == 1 && d.state[node.co] == Ready &&
            d.result[node.co] == w.handlers[h].WaitNode? &&
            d.regs == w.regs - Removed(node) && forall fd <- d.regs :: !Mentions(d.regs[fd], node.co)
  {
    var d, node := Next(w, DoResume(h)), w.handlers[h].of;
    assert HandlerOk(w, h) && WaitOk(w, node.co);
    forall fd <- d.regs
      ensures !Mentions(d.regs[fd], node.co)
    {
      assert RegOk(w, fd);
    }
    forall co: nat
      ensures WaitOk(d, co) && HandlerOk(d, co)
    {
      assert WaitOk(w, co) && HandlerOk(w, co);
    }
    forall f: int
      ensures RegOk(d, f)
    {
      assert RegOk(w, f);
    }
  }

  lemma ResumeKeeps(w: World, co: nat)
    requires Inv(w) && Enabled(w, DoResume(co)) && (co in w.handlers ==> w.handlers[co].Other?)
    ensures Inv(Next(w, DoResume(co)))
  {
    var d := Next(w, DoResume(co));
    assert WaitOk(w, co);
    forall x: nat
      ensures WaitOk(d, x) && HandlerOk(d, x)
    {
      assert WaitOk(w, x) && HandlerOk(w, x);
    }
    forall f: int
      ensures RegOk(d, f)
    {
      assert RegOk(w, f);
    }
  }

  lemma OtherKeeps(w: World, step: Step)
    requires Inv(w) && Enabled(w, step) && !step.DoWait? && !step.DoReport? && !step.DoResume?
    ensures Inv(Next(w, step))
  {
    var d := Next(w, step);
    forall x: nat
      ensures WaitOk(d, x) && HandlerOk(d, x)
    {
      assert WaitOk(w, x) && HandlerOk(w, x);
    }
    forall f: int
      ensures RegOk(d, f)
    {
      assert RegOk(w, f);
    }
  }

  lemma StepKeeps(w: World, step: Step)
    requires Inv(w) && Enabled(w, step)
    ensures Inv(Next(w, step))
  {
    if step.DoWait? {
      WaitKeeps(w, step.fd, step.timer);
    } else if step.DoReport? {
      ReportKeeps(w, step.fd, step.handler);
    } else if step.DoResume? {
      if step.co in w.handlers && !w.handlers[step.co].Other? {
        EndKeeps(w, step.co);
      } else {
        ResumeKeeps(w, step.co);
      }
    } else {
      OtherKeeps(w, step);
    }
  }

  lemma {:induction false} RunKeeps(w: World, steps: seq<Step>)
    requires Inv(w) && Follows(w, steps)
    ensures Inv(Run(w, steps))
    decreases steps
  {
    if steps != [] {
      StepKeeps(w, steps[0]);
      RunKeeps(Next(w, steps[0]), steps[1..]);
    }
  }

  predicate Waiting(w: World, co: nat) { co in w.waits && w.waits[co].readied == 0 }

  predicate Ended(w: World, co: nat) { co in w.waits && w.waits[co].readied > 0 }

  /** In every run, a coroutine that waits is suspended until it is made ready; that happens once, and then its
      result says whether the descriptor fired and no registration of it is left. */
  lemma EveryWait(steps: seq<Step>, co: nat)
    requires Follows(START, steps) && co in Run(START, steps).waits
    ensures var w := Run(START, steps);
            co in w.state &&
            if Waiting(w, co) then w.state[co] == Suspended
            else w.waits[co].readied == 1 && w.state[co] == Ready && co in w.result &&
                 w.result[co] == w.waits[co].fdFired && forall fd <- w.regs :: !Mentions(w.regs[fd], co)
  {
    RunKeeps(START, steps);
    var w := Run(START, steps);
    assert WaitOk(w, co);
    forall fd <- w.regs
      ensures w.waits[co].readied > 0 ==> !Mentions(w.regs[fd], co)
    {
      assert RegOk(w, fd);
    }
  }

  // ---------- Waits on descriptors of their own ----------

  /** The wait is on a descriptor that is free, and no registration of a wait is removed but by its end. */
  predicate Polite(w: World, step: Step)
  {
    (step.DoWait? ==> step.fd !in w.regs) &&
    (step.DoUnregister? && step.fd in w.regs ==> w.regs[step.fd].Other?)
  }

  predicate AllPolite(w: World, steps: seq<Step>)
    requires Follows(w, steps)
    decreases steps
  {
    steps == [] || (Polite(w, steps[0]) && AllPolite(Next(w, steps[0]), steps[1..]))
  }

  predicate PlacedAt(w: World, co: nat)
  {
    Waiting(w, co) ==>
      var node := w.waits[co].node;
      node.fd in w.regs && w.regs[node.fd] == WaitNode(node) &&
      (node.timer.Some? ==> node.timer.value in w.regs && w.regs[node.timer.value] == TimerNode(node))
  }

  ghost predicate Placed(w: World) { forall co: nat :: PlacedAt(w, co) }

  lemma PlacedStep(w: World, step: Step)
    requires Inv(w) && Placed(w) && Enabled(w, step) && Polite(w, step)
    ensures Placed(Next(w, step))
  {
    var d := Next(w, step);
    forall co: nat
      ensures PlacedAt(d, co)
    {
      assert PlacedAt(w, co) && WaitOk(w, co);
      if step.DoResume? {
        assert HandlerOk(w, step.co);
        if step.co in w.handlers && !w.handlers[step.co].Other? {
          assert PlacedAt(w, w.handlers[step.co].of.co);
        }
      }
    }
  }

  lemma {:induction false} PlacedRun(w: World, steps: seq<Step>)
    requires Inv(w) && Placed(w) && Follows(w, steps) && AllPolite(w, steps)
    ensures Placed(Run(w, steps))
    decreases steps
  {
    if steps != [] {
      StepKeeps(w, steps[0]);
      PlacedStep(w, steps[0]);
      PlacedRun(Next(w, steps[0]), steps[1..]);
    }
  }

  /** In a run in which every wait is on a free descriptor, a coroutine that waits has its registrations in
      place. In particular the loop does not end while a coroutine waits. */
  lemma PoliteWait(steps: seq<Step>, co: nat)
    requires Follows(START, steps) && AllPolite(START, steps) && Waiting(Run(START, steps), co)
    ensures var w := Run(START, steps);
            var node := w.waits[co].node;
            node.co == co && node.fd in w.regs && w.regs[node.fd] == WaitNode(node) &&
            (node.timer.Some? ==> node.timer.value in w.regs && w.regs[node.timer.value] == TimerNode(node))
  {
    PlacedRun(START, steps);
    RunKeeps(START, steps);
    assert PlacedAt(Run(START, steps), co) && WaitOk(Run(START, steps), co);
  }

  // ---------- Which waits can end ----------

  /** The handler of a wait that has been started will remove the registration. */
  ghost predicate Doomed(w: World, fd: int)
  {
    exists h :: h in w.handlers && !w.handlers[h].Other? && fd in Removed(w.handlers[h].of)
  }

  /** The descriptors that are still to end the wait. */
  ghost function Ears(w: World, co: nat): set<int>
  {
    set fd | fd in w.regs && Mentions(w.regs[fd], co) && !Doomed(w, fd)
  }

  ghost predicate Handled(w: World, co: nat)
  {
    exists h :: h in w.handlers && Mentions(w.handlers[h], co)
  }

  /** Something is registered, or has been reported, that ends the wait. */
  ghost predicate Heard(w: World, co: nat) { Handled(w, co) || Ears(w, co) != {} }

  predicate Ending(w: World, step: Step)
  {
    step.DoResume? && step.co in w.handlers && !w.handlers[step.co].Other?
  }

  // Before any other step no handler of a wait is started.
  lemma NoneStarted(w: World, step: Step)
    requires Inv(w) && Enabled(w, step) && !Ending(w, step)
    ensures forall h <- w.handlers :: w.handlers[h].Other?
    ensures forall fd :: !Doomed(w, fd)
  {
    forall h
      ensures h in w.handlers ==> w.handlers[h].Other?
    {
      assert HandlerOk(w, h);
    }
  }

  /** A wait that is not heard of any more is never heard of again. */
  lemma DeafStays(w: World, step: Step, co: nat)
    requires Inv(w) && Enabled(w, step) && Waiting(w, co) && !Heard(w, co)
    ensures Waiting(Next(w, step), co) && !Heard(Next(w, step), co)
  {
    if Ending(w, step) {
      EndStaysDeaf(w, step.co, co);
    } else {
      NoneStarted(w, step);
      forall fd
        ensures fd in w.regs ==> !Mentions(w.regs[fd], co)
      {
        assert fd !in Ears(w, co);
      }
      StaysUnmentioned(w, step, co);
    }
  }

  lemma EndStaysDeaf(w: World, h: nat, co: nat)
    requires Inv(w) && Enabled(w, DoResume(h)) && Ending(w, DoResume(h)) && Waiting(w, co) && !Heard(w, co)
    ensures Waiting(Next(w, DoResume(h)), co) && !Heard(Next(w, DoResume(h)), co)
  {
    var d, node := Next(w, DoResume(h)), w.handlers[h].of;
    EndKeeps(w, h);
    assert WaitOk(w, co) && HandlerOk(w, h) && !Mentions(w.handlers[h], co);
    forall fd | fd in w.regs && Mentions(w.regs[fd], co)
      ensures fd in Removed(node)
    {
      assert fd !in Ears(w, co);
      var other :| other in w.handlers && !w.handlers[other].Other? && fd in Removed(w.handlers[other].of);
      assert HandlerOk(w, other);
    }
    assert Ears(d, co) == {};
    assert forall x <- d.handlers :: x in w.handlers && d.handlers[x] == w.handlers[x];
  }

  lemma StaysUnmentioned(w: World, step: Step, co: nat)
    requires Inv(w) && Enabled(w, step) && !Ending(w, step) && Waiting(w, co)
    requires (forall h <- w.handlers :: w.handlers[h].Other?) && forall fd <- w.regs :: !Mentions(w.regs[fd], co)
    ensures Waiting(Next(w, step), co) && !Heard(Next(w, step), co)
  {
    var d := Next(w, step);
    assert WaitOk(w, co);
    assert step.DoResume? ==> step.co != co;
    assert forall fd <- d.regs :: !Mentions(d.regs[fd], co);
    assert forall h <- d.handlers :: !Mentions(d.handlers[h], co);
    assert Ears(d, co) == {};
  }

  lemma {:induction false} DeafForever(w: World, steps: seq<Step>, co: nat)
    requires Inv(w) && Follows(w, steps) && Waiting(w, co) && !Heard(w, co)
    ensures Waiting(Run(w, steps), co)
    decreases steps
  {
    hide Heard;
    if steps != [] {
      DeafStays(w, steps[0], co);
      StepKeeps(w, steps[0]);
      DeafForever(Next(w, steps[0]), steps[1..], co);
    }
  }

  /** When the loop asks for events, no handler is left. */
  lemma NoHandlers(w: World, step: Step)
    requires Inv(w) && Enabled(w, step) && step.DoReport?
    ensures w.handlers == map[]
  {
    forall h: nat
      ensures h !in w.handlers
    {
      assert HandlerOk(w, h);
    }
  }

  ghost function ReadyOnes(w: World): set<nat>
  {
    set co | co in w.state && w.state[co].Ready?
  }

  lemma Fresh(taken: set<nat>) returns (n: nat)
    ensures forall x <- taken :: x < n
  {
    if taken == {} {
      n := 0;
    } else {
      var x :| x in taken;
      var m := Fresh(taken - {x});
      n := if m > x then m else x + 1;
      forall y <- taken
        ensures y < n
      {
        assert y == x || y in taken - {x};
      }
    }
  }

  lemma FollowsCons(w: World, step: Step, steps: seq<Step>)
    requires Enabled(w, step) && Follows(Next(w, step), steps)
    ensures Follows(w, [step] + steps) && Run(w, [step] + steps) == Run(Next(w, step), steps)
  {
    assert ([step] + steps)[0] == step && ([step] + steps)[1..] == steps;
  }

  /** A step that brings the next report closer leaves the wait heard of. */
  lemma StillHeard(w: World, step: Step, co: nat)
    requires Inv(w) && Enabled(w, step) && Waiting(w, co) && Heard(w, co) && !Handled(w, co)
    requires step.DoSuspend? || step.DoResume?
    ensures Waiting(Next(w, step), co) && Heard(Next(w, step), co)
  {
    var d := Next(w, step);
    assert WaitOk(w, co);
    if step.DoResume? {
      assert HandlerOk(w, step.co);
    }
    var fd :| fd in Ears(w, co);
    assert fd in d.regs && d.regs[fd] == w.regs[fd];
    assert !Doomed(d, fd) by {
      assert !Doomed(w, fd);
      assert forall h <- d.handlers :: h in w.handlers && w.handlers[h] == d.handlers[h];
    }
    assert fd in Ears(d, co);
  }

  /** A wait that is heard of ends if everything runs on until the loop asks for events, and one that is
      registered for it is reported. */
  lemma HeardEnds(w: World, co: nat) returns (steps: seq<Step>)
    requires Inv(w) && Waiting(w, co) && Heard(w, co)
    ensures Follows(w, steps) && Ended(Run(w, steps), co)
    decreases w.handlers.Keys, ReadyOnes(w), w.current.Some?
  {
    if Handled(w, co) {
      var h :| h in w.handlers && Mentions(w.handlers[h], co);
      steps := EndNow(w, co, h);
    } else if w.current.Some? {
      StillHeard(w, DoSuspend, co);
      StepKeeps(w, DoSuspend);
      SuspendCloser(w);
      var more := HeardEnds(Next(w, DoSuspend), co);
      FollowsCons(w, DoSuspend, more);
      steps := [DoSuspend] + more;
    } else if ReadyOnes(w) != {} {
      var r: nat :| r in ReadyOnes(w);
      StillHeard(w, DoResume(r), co);
      StepKeeps(w, DoResume(r));
      ResumeCloser(w, r);
      var more := HeardEnds(Next(w, DoResume(r)), co);
      FollowsCons(w, DoResume(r), more);
      steps := [DoResume(r)] + more;
    } else {
      steps := ReportNow(w, co);
    }
  }

  lemma EndNow(w: World, co: nat, h: nat) returns (steps: seq<Step>)
    requires Inv(w) && Waiting(w, co) && h in w.handlers && Mentions(w.handlers[h], co)
    ensures Follows(w, steps) && Ended(Run(w, steps), co)
  {
    assert HandlerOk(w, h);
    EndKeeps(w, h);
    FollowsCons(w, DoResume(h), []);
    steps := [DoResume(h)];
    assert [DoResume(h)] + [] == steps;
  }

  lemma ReportNow(w: World, co: nat) returns (steps: seq<Step>)
    requires Inv(w) && Waiting(w, co) && Ears(w, co) != {} && w.current.None? && ReadyOnes(w) == {}
    ensures Follows(w, steps) && Ended(Run(w, steps), co)
  {
    var fd :| fd in Ears(w, co);
    var h := Fresh(w.state.Keys + w.waits.Keys);
    forall x <- w.state
      ensures !w.state[x].Ready?
    {
      assert x !in ReadyOnes(w);
    }
    var step := DoReport(fd, h);
    StepKeeps(w, step);
    var more := EndNow(Next(w, step), co, h);
    FollowsCons(w, step, more);
    steps := [step] + more;
  }

  lemma SuspendCloser(w: World)
    requires Inv(w) && w.current.Some?
    ensures var d := Next(w, DoSuspend);
            d.handlers == w.handlers && d.current.None? && (ReadyOnes(d) == ReadyOnes(w) || ReadyOnes(d) < ReadyOnes(w))
  {
    var d := Next(w, DoSuspend);
    assert ReadyOnes(d) <= ReadyOnes(w);
  }

  lemma ResumeCloser(w: World, r: nat)
    requires Inv(w) && w.current.None? && r in ReadyOnes(w)
    ensures var d := Next(w, DoResume(r));
            d.handlers.Keys < w.handlers.Keys ||
            (d.handlers.Keys == w.handlers.Keys && ReadyOnes(d) < ReadyOnes(w))
  {
    var d := Next(w, DoResume(r));
    if r in w.handlers {
      assert r !in d.handlers && d.handlers.Keys <= w.handlers.Keys;
    } else {
      assert d.handlers.Keys == w.handlers.Keys;
      assert r !in ReadyOnes(d) && ReadyOnes(d) <= ReadyOnes(w);
    }
  }

  /** After every run: a wait can still end if and only if it is heard of, that is, one of its registrations is
      there that no started handler will remove, or one of its own has been reported. */
  lemma CanEndIffHeard(steps: seq<Step>, co: nat)
    requires Follows(START, steps) && Waiting(Run(START, steps), co)
    ensures var w := Run(START, steps);
            (exists more :: Follows(w, more) && Ended(Run(w, more), co)) <==> Heard(w, co)
  {
    hide Heard;
    RunKeeps(START, steps);
    var w := Run(START, steps);
    if Heard(w, co) {
      var more := HeardEnds(w, co);
      assert Follows(w, more) && Ended(Run(w, more), co);
    } else {
      forall more | Follows(w, more)
        ensures !Ended(Run(w, more), co)
      {
        DeafForever(w, more, co);
      }
    }
  }

  /** When a wait begins it can end if and only if its descriptor is free or it has a timeout. */
  lemma BeginsHeardIff(w: World, fd: int, timer: Option<int>)
    requires Inv(w) && Enabled(w, DoWait(fd, timer))
    ensures var co, d := w.current.value, Next(w, DoWait(fd, timer));
            Waiting(d, co) && (Heard(d, co) <==> fd !in w.regs || timer.Some?)
  {
    var co, d, node := w.current.value, Next(w, DoWait(fd, timer)), CoNode(w.current.value, fd, timer);
    assert WaitOk(w, co);
    forall h | h in w.handlers
      ensures w.handlers[h].Other?
    {
      assert HandlerOk(w, h);
    }
    forall f | f in d.regs && Mentions(d.regs[f], co)
      ensures (f == fd && fd !in w.regs) || timer == Some(f)
    {
      assert RegOk(w, f);
    }
    if fd !in w.regs {
      assert fd in Ears(d, co);
    } else if timer.Some? {
      assert timer.value in Ears(d, co);
    }
  }

  /** A wait without a timeout on a descriptor that is taken never ends, whatever happens. */
  lemma TakenNeverEnds(before: seq<Step>, fd: int, after: seq<Step>)
    requires Follows(START, before) && Enabled(Run(START, before), DoWait(fd, None))
    requires Follows(Next(Run(START, before), DoWait(fd, None)), after) && fd in Run(START, before).regs
    ensures var w := Run(START, before);
            Waiting(Run(Next(w, DoWait(fd, None)), after), w.current.value)
  {
    RunKeeps(START, before);
    var w := Run(START, before);
    BeginsHeardIff(w, fd, None);
    StepKeeps(w, DoWait(fd, None));
    DeafForever(Next(w, DoWait(fd, None)), after, w.current.value);
  }

  /** A wait that can end stops being able to if and only if the last descriptors that were to end it are
      unregistered, or those of another wait that is reported, on a descriptor of this one. */
  lemma GoesDeafIff(w: World, step: Step, co: nat)
    requires Inv(w) && Enabled(w, step) && Waiting(w, co) && Heard(w, co)
    ensures Waiting(Next(w, step), co) && !Heard(Next(w, step), co) <==>
            match step
            case DoUnregister(fd) => Ears(w, co) == {fd}
            case DoReport(fd, _) =>
              !w.regs[fd].Other? && w.regs[fd].of.co != co && Ears(w, co) <= Removed(w.regs[fd].of)
            case _ => false
  {
    var d := Next(w, step);
    assert WaitOk(w, co);
    if step.DoReport? {
      NoHandlers(w, step);
      ReportDeafens(w, step.fd, step.handler, co);
    } else if step.DoResume? && !Handled(w, co) {
      StillHeard(w, step, co);
    } else if step.DoResume? {
      ResumeHandled(w, step.co, co);
    } else if step.DoUnregister? {
      UnregisterDeafens(w, step.fd, co);
    } else {
      OtherHeard(w, step, co);
    }
  }

  // With a handler of the wait started, that is the only coroutine that can be resumed.
  lemma ResumeHandled(w: World, r: nat, co: nat)
    requires Inv(w) && Enabled(w, DoResume(r)) && Waiting(w, co) && Handled(w, co)
    ensures !Waiting(Next(w, DoResume(r)), co)
  {
    var h :| h in w.handlers && Mentions(w.handlers[h], co);
    assert HandlerOk(w, h) && r == h;
    EndKeeps(w, h);
  }

  lemma UnregisterDeafens(w: World, fd: int, co: nat)
    requires Inv(w) && w.current.Some? && Waiting(w, co) && Heard(w, co)
    ensures Heard(Next(w, DoUnregister(fd)), co) <==> Ears(w, co) != {fd}
  {
    var d := Next(w, DoUnregister(fd));
    NoneStarted(w, DoUnregister(fd));
    assert forall f :: !Doomed(d, f);
    assert Ears(d, co) == Ears(w, co) - {fd};
  }

  lemma ReportDeafens(w: World, fd: int, handler: nat, co: nat)
    requires Inv(w) && Enabled(w, DoReport(fd, handler)) && w.handlers == map[] && Waiting(w, co) && Heard(w, co)
    ensures Heard(Next(w, DoReport(fd, handler)), co) <==>
            w.regs[fd].Other? || w.regs[fd].of.co == co || !(Ears(w, co) <= Removed(w.regs[fd].of))
  {
    var d, node := Next(w, DoReport(fd, handler)), w.regs[fd];
    assert d.handlers == map[handler := node];
    if node.Other? {
      assert Ears(d, co) == Ears(w, co);
    } else {
      assert d.handlers[handler] == node;
      assert forall f :: Doomed(d, f) <==> f in Removed(node.of);
      assert Ears(d, co) == Ears(w, co) - Removed(node.of);
    }
  }

  lemma OtherHeard(w: World, step: Step, co: nat)
    requires Inv(w) && Enabled(w, step) && Waiting(w, co) && Heard(w, co)
    requires !step.DoReport? && !step.DoResume? && !step.DoUnregister?
    ensures Heard(Next(w, step), co)
  {
    var d := Next(w, step);
    NoneStarted(w, step);
    var fd :| fd in Ears(w, co);
    assert fd in d.regs && d.regs[fd] == w.regs[fd] && !Doomed(d, fd);
    assert fd in Ears(d, co);
  }

  /** The wait is registered under its descriptor if and only if the descriptor was free. */
  lemma RegisteredIffFree(w: World, co: nat, fd: int, timer: Option<int>)
    requires Inv(w) && co !in w.waits && (timer.Some? ==> timer.value !in w.regs && timer.value != fd)
    ensures var d := YieldByFd(w, co, fd, timer);
            (exists f :: f in d.regs && d.regs[f] == WaitNode(CoNode(co, fd, timer))) <==> fd !in w.regs
  {
    var d, node := YieldByFd(w, co, fd, timer), WaitNode(CoNode(co, fd, timer));
    if fd !in w.regs {
      assert d.regs[fd] == node;
    }
    if f :| f in d.regs && d.regs[f] == node {
      assert RegOk(w, f);
    }
  }

  /** Otherwise a timeout ends the wait, but takes away the registration of another one. */
  lemma TimeoutTakesAnother(w: World, co: nat, fd: int, timer: int)
    requires Inv(w) && fd in w.regs && timer !in w.regs
    ensures var d := YieldByFd(w, co, fd, Some(timer));
            d.regs[fd] == w.regs[fd] && fd !in TimerCallback(d, CoNode(co, fd, Some(timer))).regs
  {
  }

  // ---------- The event loop ----------

  class EventLoop {
    var fdToNode: map<int, Node>
    var states: map<nat, CoState>
    var results: map<nat, bool>
    var handlers: map<nat, Node>
    var current: Option<nat>
    ghost var waits: map<nat, Wait>

    ghost function State(): World
      reads this
    {
      World(fdToNode, states, results, handlers, current, waits)
    }

    constructor ()
      ensures State() == START
    {
      fdToNode, states, results, handlers, current, waits := map[], map[0 := Ready], map[], map[], None, map[];
    }

    method RegisterNode(fd: int, node: Node)
      modifies this`fdToNode
      ensures fdToNode == Register(old(fdToNode), fd, node)
    {
      if fd !in fdToNode {
        fdToNode := fdToNode[fd := node];
      }
    }

    method UnregisterNode(fd: int)
      modifies this`fdToNode
      ensures fdToNode == Unregister(old(fdToNode), fd)
    {
      if fd in fdToNode {
        fdToNode := fdToNode - {fd};
      }
    }

    method YieldFor(fd: int, timer: Option<int>)
      requires current.Some?
      modifies this
      ensures State() == YieldByFd(old(State()), old(current).value, fd, timer)
    {
      var node := CoNode(current.value, fd, timer);
      if timer.Some? {
        RegisterNode(timer.value, TimerNode(node));
      }
      RegisterNode(fd, WaitNode(node));
      states := states[current.value := Suspended];
      waits := waits[current.value := Wait(node, 0, false)];
      current := None;
    }

    method Handle(node: CoNode, fdFired: bool)
      modifies this
      ensures State() == if fdFired then HandleEvent(old(State()), node, true) else TimerCallback(old(State()), node)
    {
      if node.timer.Some? {
        UnregisterNode(node.timer.value);
      }
      states := states[node.co := Ready];
      results := results[node.co := true];
      UnregisterNode(node.fd);
      if node.co in waits {
        waits := waits[node.co := waits[node.co].(readied := waits[node.co].readied + 1, fdFired := fdFired)];
      }
      if !fdFired {
        results := results[node.co := false];
      }
    }

    method ResumeCo(co: nat)
      requires co in states
      modifies this
      ensures State() == Resume(old(State()), co)
    {
      if co in handlers && !handlers[co].Other? {
        var node := handlers[co];
        handlers, states := handlers - {co}, states - {co};
        Handle(node.of, node.WaitNode?);
      } else {
        handlers, states, current, waits := handlers - {co}, states[co := Running], Some(co), waits - {co};
      }
    }

    /** The part of `runEventLoop` after `epoll_wait`. */
    method Dispatch(fd: int, handler: nat)
      modifies this
      ensures State() == if fd in old(fdToNode) then Report(old(State()), fd, handler) else old(State())
    {
      if fd in fdToNode {
        handlers, states := handlers[handler := fdToNode[fd]], states[handler := Ready];
      }
    }
  }
}
