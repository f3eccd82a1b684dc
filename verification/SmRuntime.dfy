/** The dynamic state machine that runs a configuration: entering, doing and leaving states along
    `do.next` edges and events. */
module SmRuntime {
  import opened Wrappers
  import opened SmConfig

  datatype Kind = Enter | Do | Exit

  /** A hook that has been run. */
  datatype Act = Act(kind: Kind, name: string, code: string)

  // ---------- What the configuration says ----------

  /** The state called `name`: the first one of that name. */
  function Lookup(cfg: Config, name: string): (s: Option<State>)
    ensures s.Some? <==> Declared(cfg.states, name)
    ensures s.Some? ==> s.value in cfg.states && s.value.name == name
  {
    var i := Find(cfg.states, name);
    if i.None? then None else Some(cfg.states[i.value])
  }

  /** The state that follows without an event. */
  function NextOf(cfg: Config, name: string): (next: Option<string>)
    ensures next.Some? ==> Declared(cfg.states, next.value)
  {
    var s := Lookup(cfg, name);
    if s.Some? && s.value.next != "" && Declared(cfg.states, s.value.next) then Some(s.value.next) else None
  }

  /** The target of the last of the events with that trigger. */
  function Target(events: seq<Event>, trigger: string): Option<string>
  {
    if events == [] then None
    else
      var last := events[|events| - 1];
      if last.trigger == trigger then Some(last.next) else Target(events[..|events| - 1], trigger)
  }

  function EventOf(cfg: Config, name: string, trigger: string): Option<string>
  {
    var s := Lookup(cfg, name);
    if s.None? then None else
      var target := Target(s.value.events, trigger);
      if target.Some? && Declared(cfg.states, target.value) then target else None
  }

  /** `k` is the place of the first state of that name. */
  ghost predicate FirstAt(states: seq<State>, name: string, k: nat)
  {
    k < |states| && states[k].name == name && forall j :: 0 <= j < k ==> states[j].name != name
  }

  lemma LookupIsFirst(cfg: Config, name: string, k: nat)
    requires FirstAt(cfg.states, name, k)
    ensures Lookup(cfg, name) == Some(cfg.states[k])
  {
    FindFirst(cfg.states, k);
  }

  /** The edge without an event leads to the state that `do.next` of the first state of that name names, if
      it names any and that is a state. */
  lemma NextIff(cfg: Config, name: string, k: nat, next: string)
    requires FirstAt(cfg.states, name, k)
    ensures NextOf(cfg, name) == Some(next) <==>
            next != "" && next == cfg.states[k].next && exists s :: s in cfg.states && s.name == next
  {
    LookupIsFirst(cfg, name, k);
    if s :| s in cfg.states && s.name == next {
      var i :| 0 <= i < |cfg.states| && cfg.states[i] == s;
      assert Declared(cfg.states, next);
    }
  }

  /** `k` is the place of the last event with that trigger. */
  ghost predicate LastAt(events: seq<Event>, trigger: string, k: nat)
  {
    k < |events| && events[k].trigger == trigger && forall j :: k < j < |events| ==> events[j].trigger != trigger
  }

  lemma {:induction false} TargetIsLast(events: seq<Event>, trigger: string, k: nat)
    requires LastAt(events, trigger, k)
    ensures Target(events, trigger) == Some(events[k].next)
  {
    if k < |events| - 1 {
      TargetIsLast(events[..|events| - 1], trigger, k);
    }
  }

  lemma {:induction false} NoTarget(events: seq<Event>, trigger: string)
    requires forall e <- events :: e.trigger != trigger
    ensures Target(events, trigger) == None
  {
    if events != [] {
      NoTarget(events[..|events| - 1], trigger);
    }
  }

  /** An event leads to the target of the last event with that trigger, if that is a state. */
  lemma EventIff(cfg: Config, name: string, k: nat, trigger: string, target: string)
    requires FirstAt(cfg.states, name, k)
    ensures EventOf(cfg, name, trigger) == Some(target) <==>
            (exists s :: s in cfg.states && s.name == target) &&
            exists j: nat :: LastAt(cfg.states[k].events, trigger, j) && cfg.states[k].events[j].next == target
  {
    var events := cfg.states[k].events;
    LookupIsFirst(cfg, name, k);
    if e :| e in events && e.trigger == trigger {
      var last := LastOf(events, trigger);
    } else {
      NoTarget(events, trigger);
    }
    forall j: nat | LastAt(events, trigger, j)
      ensures Target(events, trigger) == Some(events[j].next)
    {
      TargetIsLast(events, trigger, j);
    }
    if s :| s in cfg.states && s.name == target {
      var i :| 0 <= i < |cfg.states| && cfg.states[i] == s;
      assert Declared(cfg.states, target);
    }
  }

  lemma {:induction false} LastOf(events: seq<Event>, trigger: string) returns (k: nat)
    requires exists e :: e in events && e.trigger == trigger
    ensures LastAt(events, trigger, k)
  {
    k := |events| - 1;
    if events[k].trigger != trigger {
      assert events == events[..k] + [events[k]];
      k := LastOf(events[..k], trigger);
    }
  }

  /** `trace` is a beginning of what a machine does that goes through the states of `path`: it enters each
      of them and does its action, and leaves it before it enters the next one. */
  ghost predicate Did(cfg: Config, path: seq<string>, trace: seq<Act>)
    requires forall p <- path :: Lookup(cfg, p).Some?
  {
    (forall k :: 0 <= k < |path| && 3 * k < |trace| ==>
       trace[3 * k] == Act(Enter, path[k], Lookup(cfg, path[k]).value.enter)) &&
    (forall k :: 0 <= k < |path| && 3 * k + 1 < |trace| ==>
       trace[3 * k + 1] == Act(Do, path[k], Lookup(cfg, path[k]).value.action)) &&
    forall k :: 0 <= k < |path| && 3 * k + 2 < |trace| ==>
       trace[3 * k + 2] == Act(Exit, path[k], Lookup(cfg, path[k]).value.exit)
  }

  // ---------- When does the chain of `do.next` edges end? ----------

  /** The state after `n` steps of a chain. */
  function Walk(step: string -> Option<string>, name: string, n: nat): Option<string>
  {
    if n == 0 then Some(name) else
      var before := Walk(step, name, n - 1);
      if before.None? then None else step(before.value)
  }

  function Chain(cfg: Config): string -> Option<string> { name => NextOf(cfg, name) }

  predicate EndsIn(step: string -> Option<string>, name: string, n: nat) { Walk(step, name, n).None? }

  ghost predicate Ends(cfg: Config, name: string) { exists n :: EndsIn(Chain(cfg), name, n) }

  lemma {:induction false} WalkOn(step: string -> Option<string>, name: string, n: nat)
    requires step(name).Some?
    ensures Walk(step, name, n + 1) == Walk(step, step(name).value, n)
  {
    if n > 0 {
      WalkOn(step, name, n - 1);
    } else {
      assert Walk(step, name, 0) == Some(name);
    }
  }

  /** Once at an end, always at an end. */
  lemma {:induction false} EndsStays(step: string -> Option<string>, name: string, n: nat, m: nat)
    requires EndsIn(step, name, n) && n <= m
    ensures EndsIn(step, name, m)
    decreases m
  {
    if n < m {
      EndsStays(step, name, n, m - 1);
    }
  }

  /** Where the chain comes back to a state, it repeats itself. */
  lemma {:induction false} WalkRepeats(step: string -> Option<string>, name: string, i: nat, j: nat, k: nat)
    requires Walk(step, name, i) == Walk(step, name, j)
    ensures Walk(step, name, i + k) == Walk(step, name, j + k)
  {
    if k > 0 {
      WalkRepeats(step, name, i, j, k - 1);
    }
  }

  function Names(states: seq<State>): set<string>
  {
    set s | s in states :: s.name
  }

  lemma {:induction false} FewNames(states: seq<State>)
    ensures |Names(states)| <= |states|
  {
    if states != [] {
      FewNames(states[1..]);
      assert states == [states[0]] + states[1..];
      assert Names(states) == {states[0].name} + Names(states[1..]);
    }
  }

  lemma {:induction false} Pigeonhole(path: seq<string>, names: set<string>)
    requires forall p <- path :: p in names
    requires forall i, j :: 0 <= i < j < |path| ==> path[i] != path[j]
    ensures |path| <= |names|
  {
    if path != [] {
      var rest := names - {path[0]};
      assert path[0] in names;
      forall p <- path[1..]
        ensures p in rest
      {
        assert p in path;
      }
      Pigeonhole(path[1..], rest);
    }
  }

  /** The first `n + 1` states of the chain, if it is that long. */
  lemma {:induction false} FirstStates(step: string -> Option<string>, name: string, names: set<string>, n: nat)
    returns (path: seq<string>)
    requires !EndsIn(step, name, n) && name in names && forall x :: step(x).Some? ==> step(x).value in names
    ensures |path| == n + 1 && forall k :: 0 <= k <= n ==> Walk(step, name, k) == Some(path[k])
    ensures forall p <- path :: p in names
  {
    if n == 0 {
      path := [name];
    } else {
      path := FirstStates(step, name, names, n - 1);
      path := path + [Walk(step, name, n).value];
    }
  }

  /** A chain of more states than there are names comes back to one of them. */
  lemma LongChainRepeats(step: string -> Option<string>, name: string, names: set<string>, n: nat)
    requires !EndsIn(step, name, n) && name in names && forall x :: step(x).Some? ==> step(x).value in names
    requires |names| <= n
    ensures exists i, j :: 0 <= i < j <= n && Walk(step, name, i) == Walk(step, name, j)
  {
    var path := FirstStates(step, name, names, n);
    if forall i, j :: 0 <= i < j < |path| ==> path[i] != path[j] {
      Pigeonhole(path, names);
      assert false;
    }
    var i, j :| 0 <= i < j < |path| && path[i] == path[j];
    assert Walk(step, name, i) == Some(path[i]) && Walk(step, name, j) == Some(path[j]);
  }

  lemma {:induction false} RepeatNeverEnds(step: string -> Option<string>, name: string, i: nat, j: nat, n: nat)
    requires i < j && Walk(step, name, i) == Walk(step, name, j) && !EndsIn(step, name, j)
    ensures !EndsIn(step, name, n)
    decreases n
  {
    if n <= j {
      if EndsIn(step, name, n) {
        EndsStays(step, name, n, j);
      }
    } else {
      WalkRepeats(step, name, i, j, n - j);
      RepeatNeverEnds(step, name, i, j, i + (n - j));
    }
  }

  lemma ChainNames(cfg: Config, name: string)
    requires Declared(cfg.states, name)
    ensures name in Names(cfg.states)
  {
    var i := Find(cfg.states, name);
    assert cfg.states[i.value] in cfg.states;
  }

  /** The chain ends if and only if it ends within as many steps as there are states, and if and only if
      it never comes back to a state that it has been in. */
  lemma EndsWithinStates(cfg: Config, name: string)
    requires Declared(cfg.states, name)
    ensures Ends(cfg, name) <==> EndsIn(Chain(cfg), name, |cfg.states|)
    ensures Ends(cfg, name) <==> !exists i: nat, j: nat :: i < j && ComesBack(Chain(cfg), name, i, j)
  {
    var step, most := Chain(cfg), |cfg.states|;
    if !EndsIn(step, name, most) {
      ChainNames(cfg, name);
      forall x | step(x).Some?
        ensures step(x).value in Names(cfg.states)
      {
        ChainNames(cfg, step(x).value);
      }
      FewNames(cfg.states);
      LongChainRepeats(step, name, Names(cfg.states), most);
      var i, j :| 0 <= i < j <= most && Walk(step, name, i) == Walk(step, name, j);
      if EndsIn(step, name, j) {
        EndsStays(step, name, j, most);
      }
      forall n
        ensures !EndsIn(step, name, n)
      {
        RepeatNeverEnds(step, name, i, j, n);
      }
      assert ComesBack(step, name, i, j);
    } else if i: nat, j: nat :| i < j && ComesBack(step, name, i, j) {
      RepeatNeverEnds(step, name, i, j, most);
      assert false;
    }
  }

  ghost predicate ComesBack(step: string -> Option<string>, name: string, i: nat, j: nat)
  {
    Walk(step, name, i) == Walk(step, name, j) && !EndsIn(step, name, j)
  }

  // ---------- Paths ----------

  /** Every step goes along a declared edge to a declared state. */
  ghost predicate Legal(cfg: Config, path: seq<string>)
  {
    (forall p <- path :: Lookup(cfg, p).Some?) &&
    forall k :: 0 < k < |path| ==> Edge(cfg, path[k - 1], path[k])
  }

  ghost predicate Edge(cfg: Config, from: string, to: string)
  {
    NextOf(cfg, from) == Some(to) || exists trigger :: EventOf(cfg, from, trigger) == Some(to)
  }

  /** From position `k` on, the path follows the chain of `do.next` edges. */
  ghost predicate Chained(cfg: Config, path: seq<string>, k: nat)
  {
    forall i :: k <= i < |path| - 1 ==> NextOf(cfg, path[i]) == Some(path[i + 1])
  }

  /** It follows the chain to its end. */
  ghost predicate RunsOut(cfg: Config, path: seq<string>, k: nat)
    requires k < |path|
  {
    Chained(cfg, path, k) && NextOf(cfg, path[|path| - 1]) == None
  }

  /** Whether the chain has an end can be seen from any number of steps that is large enough. */
  lemma EndsInTime(cfg: Config, name: string, n: nat)
    requires Declared(cfg.states, name)
    ensures n >= |cfg.states| ==> (EndsIn(Chain(cfg), name, n) <==> Ends(cfg, name))
  {
    EndsWithinStates(cfg, name);
    if n >= |cfg.states| && EndsIn(Chain(cfg), name, |cfg.states|) {
      EndsStays(Chain(cfg), name, |cfg.states|, n);
    }
  }

  // ---------- The objects ----------

  function EventMap(events: seq<Event>): map<string, string>
  {
    if events == [] then map[] else
      var last := events[|events| - 1];
      EventMap(events[..|events| - 1])[last.trigger := last.next]
  }

  /** A later event with the same trigger replaces an earlier one. */
  lemma {:induction false} EventMapTargets(events: seq<Event>, trigger: string)
    ensures Target(events, trigger) == if trigger in EventMap(events) then Some(EventMap(events)[trigger]) else None
  {
    if events != [] {
      EventMapTargets(events[..|events| - 1], trigger);
    }
  }

  class SmState {
    const name: string
    const enterCode: string
    const exitCode: string
    const doCode: string
    const nextState: string
    var eventMap: map<string, string>

    constructor (s: State)
      ensures name == s.name && enterCode == s.enter && exitCode == s.exit && doCode == s.action && nextState == s.next
      ensures eventMap == map[]
    {
      name, enterCode, exitCode, doCode, nextState := s.name, s.enter, s.exit, s.action, s.next;
      eventMap := map[];
    }

    function Code(kind: Kind): string
    {
      match kind case Enter => enterCode case Do => doCode case Exit => exitCode
    }

    method AddEvent(trigger: string, next: string)
      modifies this`eventMap
      ensures eventMap == old(eventMap)[trigger := next]
    {
      eventMap := eventMap[trigger := next];
    }

    ghost predicate Is(s: State)
      reads this
    {
      name == s.name && enterCode == s.enter && exitCode == s.exit && doCode == s.action && nextState == s.next &&
      eventMap == EventMap(s.events)
    }
  }

  /** `create_sm_state` */
  method MakeState(cfg: Config, name: string) returns (r: SmState?)
    ensures r == null <==> !Declared(cfg.states, name)
    ensures r != null ==> fresh(r) && r.Is(Lookup(cfg, name).value)
  {
    r := null;
    var i := 0;
    while i < |cfg.states| && r == null
      invariant 0 <= i <= |cfg.states|
      invariant r != null ==> fresh(r) && Declared(cfg.states, name) && r.Is(Lookup(cfg, name).value)
      invariant r == null ==> forall k :: 0 <= k < i ==> cfg.states[k].name != name
    {
      if cfg.states[i].name == name {
        FindFirst(cfg.states, i);
        var s := new SmState(cfg.states[i]);
        AddEvents(s, cfg.states[i].events);
        r := s;
      }
      i := i + 1;
    }
  }

  method AddEvents(s: SmState, events: seq<Event>)
    requires s.eventMap == map[]
    modifies s`eventMap
    ensures s.eventMap == EventMap(events)
  {
    for i := 0 to |events|
      invariant s.eventMap == EventMap(events[..i])
    {
      assert events[..i + 1][..i] == events[..i];
      s.AddEvent(events[i].trigger, events[i].next);
    }
    assert events[..|events|] == events;
  }

  /** Leaving the last state and entering another one. */
  lemma DidChange(cfg: Config, path: seq<string>, trace: seq<Act>, name: string, was: State, now: State)
    requires (forall p <- path :: Lookup(cfg, p).Some?) && forall p <- path + [name] :: Lookup(cfg, p).Some?
    requires path != [] && |trace| == 3 * |path| - 1 && Did(cfg, path, trace)
    requires Lookup(cfg, path[|path| - 1]) == Some(was) && Lookup(cfg, name) == Some(now)
    ensures Did(cfg, path + [name],
              trace + [Act(Exit, path[|path| - 1], was.exit)] + [Act(Enter, name, now.enter)])
  {
  }

  lemma DidAction(cfg: Config, path: seq<string>, trace: seq<Act>, s: State)
    requires path != [] && |trace| == 3 * |path| - 2
    requires (forall p <- path :: Lookup(cfg, p).Some?) && Did(cfg, path, trace)
    requires Lookup(cfg, path[|path| - 1]) == Some(s)
    ensures Did(cfg, path, trace + [Act(Do, path[|path| - 1], s.action)])
  {
  }

  lemma LegalGrows(cfg: Config, path: seq<string>, name: string)
    requires Legal(cfg, path) && path != [] && Declared(cfg.states, name) && Edge(cfg, path[|path| - 1], name)
    ensures Legal(cfg, path + [name])
  {
    var longer := path + [name];
    forall k | 0 < k < |longer|
      ensures Edge(cfg, longer[k - 1], longer[k])
    {
      if k < |path| {
        assert Edge(cfg, path[k - 1], path[k]);
      }
    }
  }

  lemma PathStates(cfg: Config, path: seq<string>)
    requires Legal(cfg, path)
    ensures forall p <- path :: Lookup(cfg, p).Some?
  {
  }

  /** Names as the states of a configuration give them. */
  lemma LookupName(cfg: Config, name: string)
    requires Declared(cfg.states, name)
    ensures Lookup(cfg, name).value.name == name
  {
  }

  lemma NoSteps(step: string -> Option<string>, name: string)
    ensures !EndsIn(step, name, 0)
  {
  }

  /** One step of the chain, and then the others. */
  lemma OneStep(step: string -> Option<string>, name: string, n: nat)
    requires n > 0
    ensures EndsIn(step, name, n) <==> step(name).None? || EndsIn(step, step(name).value, n - 1)
  {
    if step(name).Some? {
      WalkOn(step, name, n - 1);
    } else {
      assert EndsIn(step, name, 1) by {
        assert Walk(step, name, 0) == Some(name);
      }
      EndsStays(step, name, 1, n);
    }
  }

  /** What an event does to the path: nothing without a target; otherwise the path goes to the target and
      then along the chain, within `n` turns to its end if and only if the chain ends within them. */
  ghost predicate Reacted(cfg: Config, before: seq<string>, path: seq<string>, target: Option<string>,
      n: nat, ended: bool)
  {
    if target.None? then path == before && ended else
      before < path && path[|before|] == target.value && Chained(cfg, path, |before|) &&
      (ended <==> EndsIn(Chain(cfg), target.value, n)) &&
      (n >= |cfg.states| ==> (ended <==> Ends(cfg, target.value))) &&
      if ended then RunsOut(cfg, path, |before|) && |path| <= |before| + n else |path| == |before| + n + 1
  }

  class DynamicSm {
    const cfg: Config
    var current: SmState
    var trace: seq<Act>
    ghost var path: seq<string>

    ghost predicate InLast()
      reads this, current
    {
      path != [] && Legal(cfg, path) && (forall p <- path :: Lookup(cfg, p).Some?) &&
      current.Is(Lookup(cfg, path[|path| - 1]).value)
    }

    /** The machine has done all that its path says, and is in the last state of it. */
    ghost predicate Good()
      reads this, current
    {
      InLast() && |trace| == 3 * |path| - 1 && Did(cfg, path, trace)
    }

    /** All that is missing is the `do` of the last state. */
    ghost predicate Entered()
      reads this, current
    {
      InLast() && |trace| == 3 * |path| - 2 && Did(cfg, path, trace)
    }

    // A freshly made machine has not entered its first state.
    constructor (cfg: Config, first: SmState)
      requires Declared(cfg.states, cfg.init) && first.Is(Lookup(cfg, cfg.init).value)
      ensures this.cfg == cfg && current == first && trace == [] && path == []
    {
      this.cfg, current, trace, path := cfg, first, [], [];
    }

    method Run(kind: Kind)
      modifies this`trace
      ensures trace == old(trace) + [Act(kind, current.name, current.Code(kind))]
    {
      trace := trace + [Act(kind, current.name, current.Code(kind))];
    }

    /** `change_state`, along an edge. */
    method ChangeState(next: SmState)
      requires Good() && Declared(cfg.states, next.name) && next.Is(Lookup(cfg, next.name).value)
      requires Edge(cfg, path[|path| - 1], next.name)
      modifies this
      ensures Entered() && path == old(path) + [next.name]
    {
      hide Lookup, Legal, Edge, Did;
      PathStates(cfg, path);
      ghost var was, now := Lookup(cfg, path[|path| - 1]).value, Lookup(cfg, next.name).value;
      LookupName(cfg, path[|path| - 1]);
      LegalGrows(cfg, path, next.name);
      PathStates(cfg, path + [next.name]);
      DidChange(cfg, path, trace, next.name, was, now);
      Run(Exit);
      current := next;
      Run(Enter);
      path := path + [next.name];
    }

    /** `do_action`: the next state, if there is one. */
    method DoAction() returns (next: SmState?)
      requires Entered()
      modifies this`trace
      ensures Good() && path == old(path)
      ensures next == null <==> NextOf(cfg, path[|path| - 1]).None?
      ensures next != null ==> NextOf(cfg, path[|path| - 1]) == Some(next.name) && next.Is(Lookup(cfg, next.name).value)
    {
      hide Did;
      LookupName(cfg, path[|path| - 1]);
      DidAction(cfg, path, trace, Lookup(cfg, path[|path| - 1]).value);
      Run(Do);
      next := null;
      if current.nextState != "" {
        next := MakeState(cfg, current.nextState);
        if next != null {
          LookupName(cfg, current.nextState);
        }
      }
    }

    /** The first `n` turns of `trigger`: it ends within them if and only if the chain of `do.next` edges
        does, and otherwise it has gone on to a new state in every turn. */
    method Trigger(n: nat) returns (ended: bool)
      requires Entered()
      modifies this
      ensures InLast() && old(path) <= path && Chained(cfg, path, |old(path)| - 1)
      ensures ended <==> EndsIn(Chain(cfg), old(path)[|old(path)| - 1], n)
      ensures ended ==> Good() && RunsOut(cfg, path, |old(path)| - 1) && |path| < |old(path)| + n
      ensures !ended ==> Entered() && |path| == |old(path)| + n
      ensures |trace| == 3 * |path| - (if ended then 1 else 2) && Did(cfg, path, trace)
      decreases n
    {
      hide Lookup, Legal, Did, NextOf, Walk;
      ghost var last, before := path[|path| - 1], |path|;
      NoSteps(Chain(cfg), last);
      if n == 0 {
        return false;
      }
      OneStep(Chain(cfg), last, n);
      var next := DoAction();
      if next == null {
        return true;
      }
      ChangeState(next);
      assert Chained(cfg, path, before - 1) && path[before] == next.name;
      ended := Trigger(n - 1);
      assert forall i :: 0 <= i <= before ==> path[i] == (old(path) + [next.name])[i];
    }

    /** `begin` of a machine in its initial state, with the first `n` turns of its `trigger`. */
    method Begin(n: nat) returns (ended: bool)
      requires path == [] && trace == []
      requires Declared(cfg.states, cfg.init) && current.Is(Lookup(cfg, cfg.init).value)
      modifies this
      ensures InLast() && path[0] == cfg.init && Chained(cfg, path, 0)
      ensures ended <==> EndsIn(Chain(cfg), cfg.init, n)
      ensures n >= |cfg.states| ==> (ended <==> Ends(cfg, cfg.init))
      ensures ended ==> Good() && RunsOut(cfg, path, 0) && |path| <= n
      ensures !ended ==> Entered() && |path| == n + 1
      ensures |trace| == 3 * |path| - (if ended then 1 else 2) && Did(cfg, path, trace)
      ensures trace[0] == Act(Enter, cfg.init, Lookup(cfg, cfg.init).value.enter)
    {
      Run(Enter);
      LookupName(cfg, cfg.init);
      path := [cfg.init];
      EndsInTime(cfg, cfg.init, n);
      ended := Trigger(n);
    }

    /** `proc_event`, with the first `n` turns of its `trigger` if the event has a declared target. */
    method ProcEvent(event: string, n: nat) returns (ended: bool)
      requires Good()
      modifies this
      ensures InLast()
      ensures Reacted(cfg, old(path), path, EventOf(cfg, old(path)[|old(path)| - 1], event), n, ended)
      ensures EventOf(cfg, old(path)[|old(path)| - 1], event).None? ==> Good() && trace == old(trace)
      ensures if ended then Good() else Entered()
      ensures |trace| == 3 * |path| - (if ended then 1 else 2) && Did(cfg, path, trace)
    {
      hide Did, Legal, Walk, Target, EventMap;
      ghost var events := Lookup(cfg, path[|path| - 1]).value.events;
      EventMapTargets(events, event);
      ended := true;
      if event in current.eventMap {
        var target := current.eventMap[event];
        var next := MakeState(cfg, target);
        if next != null {
          LookupName(cfg, target);
          assert EventOf(cfg, path[|path| - 1], event) == Some(target);
          ChangeState(next);
          EndsInTime(cfg, target, n);
          ended := Trigger(n);
        }
      }
    }
  }
}
