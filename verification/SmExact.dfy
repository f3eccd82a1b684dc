/** Exactly which configurations a dump rebuilds, and exactly which edits keep them so. */
module SmExact {
  import opened Wrappers
  import opened Tokenizer
  import opened WordExact
  import opened ActionText
  import opened SmConfig
  import opened SmReplay

  // ----- With plain names, a dump rebuilds what it can carry

  lemma RecvIffClean(luaOk: string -> bool, code: string)
    requires Accepted(luaOk, code)
    ensures Recv(luaOk, code) == code <==> Clean(code)
  {
    hide Arrived;
    if code != "" {
      SurvivesIffClean(code);
    }
  }

  predicate PlainTriggers(events: seq<Event>)
  {
    forall k :: 0 <= k < |events| ==> Plain(events[k].trigger)
  }

  lemma EventReads(states: seq<State>, name: string, e: Event)
    requires Plain(name) && Plain(e.next) && EventSound(states, e)
    ensures var ts := Tokens(EventLine(name, e));
            (|ts| >= 4 && ts[2] == e.trigger && ts[3] == e.next <==> Plain(e.trigger)) &&
            (Plain(e.trigger) ==> |ts| == 4)
  {
    hide Tokens, EventLine, Led, WordText;
    PlainCommands();
    EventLineLed(name, e);
    WordBeforeLastReads(["add_event", name], e.trigger, e.next);
  }

  lemma {:induction false} HeardIffPlain(states: seq<State>, name: string, events: seq<Event>)
    requires PlainNames(states) && Plain(name) && UniqueTriggers(events)
    requires forall k :: 0 <= k < |events| ==> EventSound(states, events[k])
    ensures |Heard(states, name, events)| <= |events|
    ensures Heard(states, name, events) == events <==> PlainTriggers(events)
    decreases |events|
  {
    hide Tokens, EventLine, WordText;
    if events != [] {
      var k := |events| - 1;
      var e, have := events[k], Heard(states, name, events[..k]);
      HeardIffPlain(states, name, events[..k]);
      DeclaredPlain(states, e.next);
      EventReads(states, name, e);
      assert events == events[..k] + [e];
      var ts := Tokens(EventLine(name, e));
      HeardOne(states, have, ts, events);
      assert PlainTriggers(events) <==> PlainTriggers(events[..k]) && Plain(e.trigger);
    }
  }

  /** All events are heard if and only if the earlier ones are and the last one is read as it was written. */
  lemma HeardOne(states: seq<State>, have: seq<Event>, ts: seq<string>, events: seq<Event>)
    requires events != [] && UniqueTriggers(events) && Declared(states, events[|events| - 1].next)
    requires |have| <= |events| - 1
    ensures var k := |events| - 1;
            |HearOne(states, have, ts)| <= |events| &&
            (HearOne(states, have, ts) == events <==>
             have == events[..k] && |ts| >= 4 && ts[2] == events[k].trigger && ts[3] == events[k].next)
  {
    var k := |events| - 1;
    var got := HearOne(states, have, ts);
    assert events == events[..k] + [events[k]];
    if got == events {
      assert got == have + [Event(ts[2], ts[3])];
      assert got[..k] == have && got[k] == Event(ts[2], ts[3]);
    } else if have == events[..k] {
      assert forall i :: 0 <= i < |have| ==> have[i].trigger != events[k].trigger;
    }
  }

  lemma RebuildIffLegible(luaOk: string -> bool, states: seq<State>, s: State)
    requires PlainNames(states) && Plain(s.name) && StateSound(luaOk, states, s)
    ensures Rebuild(luaOk, states, s) == s <==> Legible(s)
  {
    hide Recv, Heard, Clean, WordText;
    RecvIffClean(luaOk, s.enter);
    RecvIffClean(luaOk, s.exit);
    RecvIffClean(luaOk, s.action);
    HeardIffPlain(states, s.name, s.events);
  }

  lemma RebuiltIffLegible(luaOk: string -> bool, cfg: Config)
    requires Sound(luaOk, cfg) && PlainNames(cfg.states)
    ensures Rebuilt(luaOk, cfg) == cfg <==> WellFormed(luaOk, cfg)
  {
    hide Rebuild, Legible, StateSound;
    var states := cfg.states;
    var half := Half(luaOk, states, |states|);
    forall i | 0 <= i < |states|
      ensures half[i] == states[i] <==> Legible(states[i])
    {
      RebuildIffLegible(luaOk, states, states[i]);
    }
    assert half == states <==> forall i :: 0 <= i < |states| ==> half[i] == states[i];
  }

  // ----- Names are rebuilt only if they are plain

  /** The name that the `create_state` line of a state creates, if any. */
  function Created(s: State): Option<string>
  {
    var ts := Tokens(JoinWords(["create_state", s.name]));
    if |ts| >= 2 then Some(ts[1]) else None
  }

  lemma JoinTwo(a: string, b: string)
    ensures JoinWords([a, b]) == a + " " + b
  {
    assert [a, b][1..] == [b];
  }

  lemma CreatedIffPlain(s: State)
    requires s.name != "" && OneLiner(s.name)
    ensures Created(s) == Some(s.name) <==> Plain(s.name)
  {
    hide Tokens, WordText, JoinWords, Led;
    PlainCommands();
    JoinTwo("create_state", s.name);
    LedOne("create_state", s.name);
    LastWordReads(["create_state"], s.name);
  }

  /** A command creates at most one state, at the end, and only `create_state` does. */
  lemma ExecNames(luaOk: string -> bool, cfg: Config, ts: seq<string>)
    requires ts != ["clear"]
    ensures var d := Exec(luaOk, cfg, ts);
            SameNames(cfg.states, d.states) ||
            (|ts| >= 2 && ts[0] == "create_state" && d.states == cfg.states + [NewState(ts[1])])
  {
  }

  lemma {:induction false} OtherLinesKeepNames(luaOk: string -> bool, cfg: Config, lines: seq<string>)
    requires forall i :: 0 <= i < |lines| ==> Other(lines[i])
    ensures SameNames(cfg.states, Replay(luaOk, cfg, lines).states)
    decreases |lines|
  {
    hide Exec, Tokens;
    if lines != [] {
      ExecNames(luaOk, cfg, Tokens(lines[0]));
      OtherLinesKeepNames(luaOk, Exec(luaOk, cfg, Tokens(lines[0])), lines[1..]);
    }
  }

  /** The lines behind the first one of a state, and those of its edges. */
  lemma {:induction false} EventLinesOther(name: string, events: seq<Event>)
    ensures forall i :: 0 <= i < |EventLines(name, events)| ==> Other(EventLines(name, events)[i])
  {
    hide Other, EventLine;
    if events != [] {
      EventLinesOther(name, events[1..]);
      EventLineOther(name, events[0]);
    }
  }

  lemma EventLineOther(name: string, e: Event)
    ensures Other(EventLine(name, e))
  {
    hide Tokens, EventLine, Led, WordText;
    PlainCommands();
    EventLineLed(name, e);
    LedTwo("add_event", name, e.trigger + " " + e.next);
    CommandTokens("add_event", name + " " + (e.trigger + " " + e.next));
  }

  predicate Other(line: string)
  {
    var ts := Tokens(line);
    ts != [] && ts[0] in {"input_action", "set_next", "add_event", "set_init"}
  }

  lemma CreateLineTokens(name: string)
    ensures var ts := Tokens(JoinWords(["create_state", name])); ts != [] && ts[0] == "create_state"
  {
    hide Tokens, JoinWords, WordText;
    PlainCommands();
    JoinTwo("create_state", name);
    CommandTokens("create_state", name);
  }

  lemma ActionLinesOther(name: string, kind: string, code: string)
    ensures forall i :: 0 <= i < |ActionLines(name, kind, code)| ==> Other(ActionLines(name, kind, code)[i])
  {
    hide Tokens, Led, ActionLine;
    PlainCommands();
    ActionLineLed(name, kind, code);
    LedThree("input_action", name, kind, Quoted(code));
    CommandTokens("input_action", name + " " + (kind + " " + Quoted(code)));
  }

  lemma EdgeLinesOther(s: State)
    ensures forall i :: 0 <= i < |EdgeLines(s)| ==> Other(EdgeLines(s)[i])
  {
    hide Tokens, EventLines, JoinWords, WordText;
    EventLinesOther(s.name, s.events);
    PlainCommands();
    JoinThree("set_next", s.name, s.next);
    assert "set_next" + " " + s.name + " " + s.next == "set_next" + " " + (s.name + " " + s.next);
    CommandTokens("set_next", s.name + " " + s.next);
  }

  lemma InitLinesOther(cfg: Config)
    ensures forall i :: 0 <= i < |InitLines(cfg)| ==> Other(InitLines(cfg)[i])
  {
    hide Tokens, JoinWords, WordText;
    PlainCommands();
    JoinTwo("set_init", cfg.init);
    CommandTokens("set_init", cfg.init);
  }

  /** The lines of a state create at most one state, with the name that is read. */
  lemma StateLinesNames(luaOk: string -> bool, cfg: Config, s: State)
    requires s.name != ""
    ensures var d := Replay(luaOk, cfg, StateLines(s));
            SameNames(cfg.states, d.states) ||
            (|d.states| == |cfg.states| + 1 && SameNames(cfg.states, d.states[..|cfg.states|]) &&
             Created(s) == Some(d.states[|cfg.states|].name))
  {
    hide Exec, Tokens, ActionLines;
    var create := JoinWords(["create_state", s.name]);
    var rest := ActionLines(s.name, "enter", s.enter) + ActionLines(s.name, "exit", s.exit) +
                ActionLines(s.name, "do", s.action);
    assert StateLines(s) == [create] + rest;
    ActionLinesOther(s.name, "enter", s.enter);
    ActionLinesOther(s.name, "exit", s.exit);
    ActionLinesOther(s.name, "do", s.action);
    ReplayAppend(luaOk, cfg, [create], rest);
    ReplayOne(luaOk, cfg, create);
    CreateLineTokens(s.name);
    ExecNames(luaOk, cfg, Tokens(create));
    OtherLinesKeepNames(luaOk, Exec(luaOk, cfg, Tokens(create)), rest);
  }

  predicate NamedAs(made: seq<State>, states: seq<State>)
  {
    |made| == |states| && forall i :: 0 <= i < |made| ==> Created(states[i]) == Some(made[i].name)
  }

  lemma OneMoreName(made: seq<State>, after: seq<State>, states: seq<State>, k: nat)
    requires 0 < k <= |states| && |made| < k && (|made| == k - 1 ==> NamedAs(made, states[..k - 1]))
    requires SameNames(made, after) ||
             (|after| == |made| + 1 && SameNames(made, after[..|made|]) &&
             Created(states[k - 1]) == Some(after[|made|].name))
    ensures |after| <= k && (|after| == k ==> NamedAs(after, states[..k]))
  {
    hide Created;
    if |after| == k {
      forall i | 0 <= i < k
        ensures Created(states[i]) == Some(after[i].name)
      {
        if i < k - 1 {
          assert after[..k - 1][i].name == made[i].name && states[..k - 1][i] == states[i];
        }
      }
    }
  }

  /** What the lines of the first `k` states make of a cleared configuration. */
  function Made(luaOk: string -> bool, states: seq<State>, k: nat): seq<State>
    requires k <= |states|
  {
    Replay(luaOk, CLEARED, AllStateLines(states[..k])).states
  }

  lemma MadeNext(luaOk: string -> bool, states: seq<State>, k: nat)
    requires k < |states| && states[k].name != ""
    ensures var made, after := Made(luaOk, states, k), Made(luaOk, states, k + 1);
            SameNames(made, after) ||
            (|after| == |made| + 1 && SameNames(made, after[..|made|]) &&
             Created(states[k]) == Some(after[|made|].name))
  {
    hide StateLines, Replay, Created, AllStateLines, SameNames;
    AllLinesSnoc(states, k);
    ReplayAppend(luaOk, CLEARED, AllStateLines(states[..k]), StateLines(states[k]));
    StateLinesNames(luaOk, Replay(luaOk, CLEARED, AllStateLines(states[..k])), states[k]);
  }

  lemma {:induction false} StatesNames(luaOk: string -> bool, states: seq<State>, k: nat)
    requires k <= |states| && forall i :: 0 <= i < |states| ==> states[i].name != ""
    ensures var made := Made(luaOk, states, k); |made| <= k && (|made| == k ==> NamedAs(made, states[..k]))
  {
    hide Made, Created, NamedAs, SameNames;
    if k > 0 {
      StatesNames(luaOk, states, k - 1);
      MadeNext(luaOk, states, k - 1);
      OneMoreName(Made(luaOk, states, k - 1), Made(luaOk, states, k), states, k);
    } else {
      MadeFirst(luaOk, states);
      NoNames(states);
    }
  }

  lemma MadeFirst(luaOk: string -> bool, states: seq<State>)
    ensures Made(luaOk, states, 0) == []
  {
  }

  lemma NoNames(states: seq<State>)
    ensures NamedAs([], states[..0])
  {
  }

  lemma {:induction false} AllEdgeLinesOther(states: seq<State>)
    ensures forall i :: 0 <= i < |AllEdgeLines(states)| ==> Other(AllEdgeLines(states)[i])
  {
    hide Other, EdgeLines;
    if states != [] {
      EdgeLinesOther(states[0]);
      AllEdgeLinesOther(states[1..]);
    }
  }

  /** A dump that rebuilds the names has only plain ones. */
  lemma NamesArePlain(luaOk: string -> bool, cfg: Config)
    requires Sound(luaOk, cfg) && Replay(luaOk, CLEARED, DumpLines(cfg)) == cfg
    ensures PlainNames(cfg.states)
  {
    hide Replay, AllStateLines, AllEdgeLines, InitLines, Created, WordText;
    var states, n := cfg.states, |cfg.states|;
    var rest := AllEdgeLines(states) + InitLines(cfg);
    assert states[..n] == states && DumpLines(cfg) == AllStateLines(states) + rest;
    forall i | 0 <= i < n
      ensures states[i].name != "" && OneLiner(states[i].name)
    {
      assert StateSound(luaOk, states, states[i]);
    }
    StatesNames(luaOk, states, n);
    AllEdgeLinesOther(states);
    InitLinesOther(cfg);
    ReplayAppend(luaOk, CLEARED, AllStateLines(states), rest);
    var made := Replay(luaOk, CLEARED, AllStateLines(states));
    OtherLinesKeepNames(luaOk, made, rest);
    forall i | 0 <= i < n
      ensures Plain(states[i].name)
    {
      assert made.states[i].name == states[i].name;
      CreatedIffPlain(states[i]);
    }
  }

  /** For every configuration that commands can build: running its dump on a cleared one rebuilds it if and
      only if its names and triggers are plain and its code is clean. */
  lemma DumpReplaysIff(luaOk: string -> bool, cfg: Config)
    requires Sound(luaOk, cfg)
    ensures Replay(luaOk, CLEARED, DumpLines(cfg)) == cfg <==> WellFormed(luaOk, cfg)
  {
    hide Replay, DumpLines, Rebuilt, StateSound;
    if Replay(luaOk, CLEARED, DumpLines(cfg)) == cfg {
      NamesArePlain(luaOk, cfg);
    }
    if PlainNames(cfg.states) {
      DumpRebuilds(luaOk, cfg);
      RebuiltIffLegible(luaOk, cfg);
    }
  }
}
