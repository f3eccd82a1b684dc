/** The chute relay: a position controller that counts timer ticks while a relay is held, and the two
    relay commands it gives. */
module RelayController {
  datatype RelayState = Stop | HoldOpen | HoldClose

  /** One call of `open_close_lc_cmd`. */
  datatype Switch = Switch(open: bool, on: bool)

  datatype Coils = Coils(open: bool, close: bool)

  datatype Driver = Driver(relay: RelayState, position: int, expected: int, opening: int, commands: seq<Switch>)

  const START := Driver(Stop, 0, 0, 0, [])

  function After(coils: Coils, s: Switch): Coils
  {
    if s.open then coils.(open := s.on) else coils.(close := s.on)
  }

  /** What the coils have been told after some commands. */
  function Told(commands: seq<Switch>): Coils
  {
    if commands == [] then Coils(false, false)
    else After(Told(commands[..|commands| - 1]), commands[|commands| - 1])
  }

  // ---------- The operations of the source ----------

  function Switches(request: RelayState): seq<Switch>
  {
    match request
    case Stop => [Switch(false, false), Switch(true, false)]
    case HoldOpen => [Switch(false, false), Switch(true, true)]
    case HoldClose => [Switch(true, false), Switch(false, true)]
  }

  /** `relay_do_action`: everything is switched off before another direction is held. */
  function Act(d: Driver, request: RelayState): Driver
  {
    if d.relay == request then d else
      var stopped :=
        if request != Stop && d.relay != Stop then d.(relay := Stop, commands := d.commands + Switches(Stop)) else d;
      stopped.(relay := request, commands := stopped.commands + Switches(request))
  }

  function Tick(d: Driver, coe: int): Driver
  {
    var position :=
      match d.relay case HoldOpen => d.position + 1 case HoldClose => d.position - 1 case Stop => d.position;
    var moved := d.(position := position);
    var done := (d.relay.HoldOpen? && position >= d.expected) || (d.relay.HoldClose? && position <= d.expected);
    (if done then Act(moved, Stop) else moved).(opening := position * coe)
  }

  /** The division of the source, which truncates toward zero. */
  function Divide(a: int, b: int): int
    requires b > 0
  {
    if a >= 0 then a / b else -(-a / b)
  }

  lemma DivideTruncates(a: int, b: int)
    requires b > 0
    ensures if a >= 0 then 0 <= a - Divide(a, b) * b < b else 0 <= Divide(a, b) * b - a < b
  {
  }

  function Execute(d: Driver, threshold: int, coe: int): Driver
    requires coe > 0
  {
    var aimed := d.(expected := Divide(threshold, coe));
    if aimed.expected > d.position then Act(aimed, HoldOpen)
    else if aimed.expected < d.position then Act(aimed, HoldClose)
    else aimed
  }

  datatype Step = Request(threshold: int) | Elapse

  predicate Asked(steps: seq<Step>)
  {
    forall s <- steps :: s.Request? ==> 0 <= s.threshold <= 100
  }

  function Run(d: Driver, steps: seq<Step>, coe: int): Driver
    requires coe > 0
    decreases steps
  {
    if steps == [] then d else
      Run(if steps[0].Request? then Execute(d, steps[0].threshold, coe) else Tick(d, coe), steps[1..], coe)
  }

  /** A run does its steps one after the other. */
  lemma {:induction false} RunSnoc(d: Driver, steps: seq<Step>, coe: int, threshold: int)
    requires coe > 0
    ensures Run(d, steps + [Request(threshold)], coe) == Execute(Run(d, steps, coe), threshold, coe)
    ensures Run(d, steps + [Elapse], coe) == Tick(Run(d, steps, coe), coe)
    decreases steps
  {
    if steps == [] {
      assert [Request(threshold)][1..] == [] && [Elapse][1..] == [];
      assert steps + [Request(threshold)] == [Request(threshold)] && steps + [Elapse] == [Elapse];
    } else {
      var next := if steps[0].Request? then Execute(d, steps[0].threshold, coe) else Tick(d, coe);
      RunSnoc(next, steps[1..], coe, threshold);
      assert (steps + [Request(threshold)])[1..] == steps[1..] + [Request(threshold)];
      assert (steps + [Elapse])[1..] == steps[1..] + [Elapse];
    }
  }

  // ---------- Safety ----------

  predicate Safe(coils: Coils) { !(coils.open && coils.close) }

  /** At no call are both coils told to be on. */
  ghost predicate NeverBoth(commands: seq<Switch>)
  {
    forall n :: 0 <= n <= |commands| ==> Safe(Told(commands[..n]))
  }

  function Meant(relay: RelayState): Coils
  {
    Coils(relay.HoldOpen?, relay.HoldClose?)
  }

  ghost predicate Interlocked(d: Driver)
  {
    NeverBoth(d.commands) && Told(d.commands) == Meant(d.relay)
  }

  /** The coils have been told what the state says, and a held relay has somewhere to go. */
  ghost predicate Inv(d: Driver, coe: int)
    requires coe > 0
  {
    var most := 100 / coe;
    Interlocked(d) &&
    0 <= d.position <= most && 0 <= d.expected <= most &&
    (d.relay.HoldOpen? ==> d.position < most && d.position <= d.expected) &&
    (d.relay.HoldClose? ==> d.position > 0 && d.position >= d.expected)
  }

  lemma ToldOne(commands: seq<Switch>, s: Switch)
    requires NeverBoth(commands) && Safe(After(Told(commands), s))
    ensures NeverBoth(commands + [s]) && Told(commands + [s]) == After(Told(commands), s)
  {
    var all := commands + [s];
    assert all[..|all| - 1] == commands;
    forall n | 0 <= n <= |all|
      ensures Safe(Told(all[..n]))
    {
      if n <= |commands| {
        assert all[..n] == commands[..n];
      } else {
        assert all[..n] == all;
      }
    }
  }

  lemma SwitchesKeep(commands: seq<Switch>, request: RelayState)
    requires NeverBoth(commands) && (request.HoldOpen? || request.HoldClose? ==> Told(commands) == Meant(Stop))
    ensures NeverBoth(commands + Switches(request)) && Told(commands + Switches(request)) == Meant(request)
  {
    var s := Switches(request);
    assert commands[..|commands|] == commands;
    ToldOne(commands, s[0]);
    ToldOne(commands + [s[0]], s[1]);
    assert commands + s == commands + [s[0]] + [s[1]];
  }

  lemma ActKeeps(d: Driver, request: RelayState)
    requires Interlocked(d)
    ensures var e := Act(d, request);
            Interlocked(e) && e == d.(relay := request, commands := e.commands)
  {
    if d.relay != request {
      if request != Stop && d.relay != Stop {
        SwitchesKeep(d.commands, Stop);
        SwitchesKeep(d.commands + Switches(Stop), request);
      } else {
        SwitchesKeep(d.commands, request);
      }
    }
  }

  lemma Quotients(threshold: int, coe: int)
    requires coe > 0 && 0 <= threshold <= 100
    ensures 0 <= threshold / coe <= 100 / coe
    ensures threshold - coe < (threshold / coe) * coe <= threshold
  {
    var q, m := threshold / coe, 100 / coe;
    assert threshold == q * coe + threshold % coe && 100 == m * coe + 100 % coe;
    if q > m {
      Products(q, m + 1, coe);
      assert false;
    }
  }

  lemma Products(a: int, b: int, c: int)
    requires a >= b && c > 0
    ensures a * c >= b * c
  {
  }

  lemma TickKeeps(d: Driver, coe: int)
    requires coe > 0 && Inv(d, coe)
    ensures Inv(Tick(d, coe), coe)
  {
    var position :=
      match d.relay case HoldOpen => d.position + 1 case HoldClose => d.position - 1 case Stop => d.position;
    ActKeeps(d.(position := position), Stop);
  }

  lemma ExecuteKeeps(d: Driver, threshold: int, coe: int)
    requires coe > 0 && 0 <= threshold <= 100 && Inv(d, coe)
    ensures Inv(Execute(d, threshold, coe), coe)
  {
    Quotients(threshold, coe);
    var aimed := d.(expected := threshold / coe);
    ActKeeps(aimed, HoldOpen);
    ActKeeps(aimed, HoldClose);
  }

  lemma {:induction false} RunKeeps(d: Driver, steps: seq<Step>, coe: int)
    requires coe > 0 && Asked(steps) && Inv(d, coe)
    ensures Inv(Run(d, steps, coe), coe)
    decreases steps
  {
    if steps != [] {
      assert steps[0] in steps && forall s <- steps[1..] :: s in steps;
      if steps[0].Request? {
        ExecuteKeeps(d, steps[0].threshold, coe);
        RunKeeps(Execute(d, steps[0].threshold, coe), steps[1..], coe);
      } else {
        TickKeeps(d, coe);
        RunKeeps(Tick(d, coe), steps[1..], coe);
      }
    }
  }

  lemma {:induction false} RunInterlocks(d: Driver, steps: seq<Step>, coe: int)
    requires coe > 0 && Interlocked(d)
    ensures Interlocked(Run(d, steps, coe))
    decreases steps
  {
    if steps != [] {
      var moved := d.(position := Tick(d, coe).position);
      ActKeeps(moved, Stop);
      if steps[0].Request? {
        var aimed := d.(expected := Divide(steps[0].threshold, coe));
        ActKeeps(aimed, HoldOpen);
        ActKeeps(aimed, HoldClose);
        RunInterlocks(Execute(d, steps[0].threshold, coe), steps[1..], coe);
      } else {
        RunInterlocks(Tick(d, coe), steps[1..], coe);
      }
    }
  }

  /** In every run, opening and closing are never commanded together, not even between two calls of one
      action; and if 0 to 100 percent are requested, the position stays within what that allows. */
  lemma AlwaysSafe(steps: seq<Step>, coe: int)
    requires coe > 0
    ensures var d := Run(START, steps, coe);
            NeverBoth(d.commands) && Told(d.commands) == Meant(d.relay) &&
            (Asked(steps) ==> 0 <= d.position <= 100 / coe)
  {
    RunInterlocks(START, steps, coe);
    if Asked(steps) {
      Quotients(0, coe);
      RunKeeps(START, steps, coe);
    }
  }

  // ---------- Where a request ends ----------

  function Ticks(d: Driver, n: nat, coe: int): Driver
    decreases n
  {
    if n == 0 then d else Ticks(Tick(d, coe), n - 1, coe)
  }

  function Distance(a: int, b: int): nat { if a < b then b - a else a - b }

  /** A held relay with some way to go stops exactly when it gets there, and not before. */
  lemma {:induction false} Arrives(d: Driver, n: nat, coe: int)
    requires (d.relay.HoldOpen? && d.expected - d.position == n) || (d.relay.HoldClose? && d.position - d.expected == n)
    requires n > 0
    ensures var e := Ticks(d, n, coe);
            e.relay == Stop && e.position == d.expected && e.opening == d.expected * coe
    ensures forall k: nat :: k < n ==> Ticks(d, k, coe).relay == d.relay
    decreases n
  {
    if n > 1 {
      var e := Tick(d, coe);
      Arrives(e, n - 1, coe);
      forall k: nat | k < n
        ensures Ticks(d, k, coe).relay == d.relay
      {
        if k > 0 {
          assert Ticks(e, k - 1, coe).relay == e.relay;
        }
      }
    } else {
      assert Ticks(d, 1, coe) == Ticks(Tick(d, coe), 0, coe);
    }
  }

  /** On its way the relay is held, the position is one step further after every tick, and the opening reported
      is that of the position. */
  lemma {:induction false} Underway(d: Driver, n: nat, k: nat, coe: int)
    requires (d.relay.HoldOpen? && d.expected - d.position == n) || (d.relay.HoldClose? && d.position - d.expected == n)
    requires 0 < k <= n
    ensures var e := Ticks(d, k, coe);
            e.position == (if d.relay.HoldOpen? then d.position + k else d.position - k) &&
            e.opening == e.position * coe && e.expected == d.expected && (e.relay == if k < n then d.relay else Stop)
    decreases n
  {
    if k > 1 {
      Underway(Tick(d, coe), n - 1, k - 1, coe);
    } else {
      assert Ticks(d, 1, coe) == Ticks(Tick(d, coe), 0, coe);
    }
  }

  /** At rest a tick changes nothing but the opening, which is that of the position. */
  lemma AtRest(d: Driver, coe: int)
    requires d.relay == Stop
    ensures Tick(d, coe) == d.(opening := d.position * coe)
  {
  }

  /** The commands of an action: whatever the coils have been told before, as long as it was safe, no call
      tells both to be on. */
  lemma SwitchesSafe(coils: Coils, request: RelayState)
    requires Safe(coils)
    ensures var s := Switches(request);
            |s| == 2 && Safe(After(coils, s[0])) && After(After(coils, s[0]), s[1]) == Meant(request)
  {
  }

  /** Each direction is held by two commands, after two that stop the other one. */
  lemma ActCommands(d: Driver)
    ensures d.relay == Stop ==> Act(d, HoldOpen).commands == d.commands + [Switch(false, false), Switch(true, true)]
    ensures d.relay == Stop ==> Act(d, HoldClose).commands == d.commands + [Switch(true, false), Switch(false, true)]
    ensures d.relay != Stop ==> Act(d, Stop).commands == d.commands + [Switch(false, false), Switch(true, false)]
    ensures d.relay == HoldClose ==> Act(d, HoldOpen) == Act(Act(d, Stop), HoldOpen)
    ensures d.relay == HoldOpen ==> Act(d, HoldClose) == Act(Act(d, Stop), HoldClose)
    ensures Act(d, d.relay) == d
  {
  }

  /** A request that is not disturbed and not already met stops exactly at its target, after as many
      ticks as it is away, and the opening reported then is less than one step below the request. */
  lemma RequestIsMet(d: Driver, threshold: int, coe: int)
    requires coe > 0 && 0 <= threshold <= 100 && Inv(d, coe) && threshold / coe != d.position
    ensures var n := Distance(d.position, threshold / coe);
            var e := Ticks(Execute(d, threshold, coe), n, coe);
            e.relay == Stop && e.position == threshold / coe && threshold - coe < e.opening <= threshold &&
            forall k: nat :: k < n ==> Ticks(Execute(d, threshold, coe), k, coe).relay != Stop
  {
    Quotients(threshold, coe);
    ExecuteKeeps(d, threshold, coe);
    Arrives(Execute(d, threshold, coe), Distance(d.position, threshold / coe), coe);
  }

  /** A request for the present position takes effect if and only if nothing is moving: otherwise the
      relay is stopped one tick later, one step beyond. */
  lemma RequestForHere(d: Driver, threshold: int, coe: int)
    requires coe > 0 && 0 <= threshold <= 100 && Inv(d, coe) && threshold / coe == d.position
    ensures var e := Tick(Execute(d, threshold, coe), coe);
            e.relay == Stop &&
            e.position == d.position + (match d.relay case HoldOpen => 1 case HoldClose => -1 case Stop => 0) &&
            (e.position == threshold / coe <==> d.relay == Stop)
  {
  }

  // ---------- The driver object ----------

  class CommonDriver {
    const coe: int
    var relay: RelayState
    var position: int
    var expected: int
    var opening: int
    ghost var commands: seq<Switch>

    ghost function State(): Driver
      reads this
    {
      Driver(relay, position, expected, opening, commands)
    }

    constructor (coe: int)
      ensures State() == START && this.coe == coe
    {
      this.coe := coe;
      relay, position, expected, opening, commands := Stop, 0, 0, 0, [];
    }

    method OpenCloseCmd(open: bool, on: bool)
      modifies this`commands
      ensures commands == old(commands) + [Switch(open, on)]
    {
      commands := commands + [Switch(open, on)];
    }

    method DoAction(request: RelayState)
      modifies this`relay, this`commands
      ensures State() == Act(old(State()), request)
      decreases request != Stop
    {
      if relay != request {
        if request != Stop {
          DoAction(Stop);
        }
        match request {
          case Stop =>
            OpenCloseCmd(false, false);
            OpenCloseCmd(true, false);
          case HoldOpen =>
            OpenCloseCmd(false, false);
            OpenCloseCmd(true, true);
          case HoldClose =>
            OpenCloseCmd(true, false);
            OpenCloseCmd(false, true);
        }
        relay := request;
      }
    }

    method OnTimer()
      modifies this
      ensures State() == Tick(old(State()), coe)
    {
      if relay == HoldOpen {
        position := position + 1;
      } else if relay == HoldClose {
        position := position - 1;
      }
      if (relay == HoldOpen && position >= expected) || (relay == HoldClose && position <= expected) {
        DoAction(Stop);
      }
      opening := position * coe;
    }

    method ExecuteToThreshold(threshold: int)
      requires coe > 0
      modifies this
      ensures State() == Execute(old(State()), threshold, coe)
    {
      expected := Divide(threshold, coe);
      var difference := expected - position;
      if difference > 0 {
        DoAction(HoldOpen);
      } else if difference < 0 {
        DoAction(HoldClose);
      }
    }
  }
}
