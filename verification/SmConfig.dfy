/**
 * The state machine configuration as `sm_config.cpp` edits it, dumps it as a script of commands
 * and rebuilds it by running that script. The configuration file is a field; reading and
 * writing it as YAML is taken to be lossless.
 */
module SmConfig {
  import opened Tokenizer
  import opened ActionText
  import opened Wrappers

  datatype Event = Event(trigger: string, next: string)

  datatype State = State(name: string, enter: string, exit: string, action: string, next: string, events: seq<Event>)

  datatype Config = Config(states: seq<State>, init: string)

  const CLEARED := Config([], "")

  function NewState(name: string): State { State(name, "", "", "", "", []) }

  datatype Message = Quiet | MissingParameter | NoSuchState | AlreadyThere | NoSuchAction | LuaRejected

  // ----- Commands

  /** The first state with that name. */
  function Find(states: seq<State>, name: string): (r: Option<nat>)
    ensures r.Some? ==> r.value < |states| && states[r.value].name == name
    ensures r.None? <==> forall i :: 0 <= i < |states| ==> states[i].name != name
  {
    if states == [] then None
    else if states[0].name == name then Some(0)
    else
      var r := Find(states[1..], name);
      if r.None? then
        assert forall i :: 0 < i < |states| ==> states[i] == states[1..][i - 1];
        None
      else Some(r.value + 1)
  }

  predicate Declared(states: seq<State>, name: string) { Find(states, name).Some? }

  function CreateState(cfg: Config, ps: seq<string>): (Config, Message)
  {
    if |ps| < 1 then (cfg, MissingParameter)
    else if Find(cfg.states, ps[0]).Some? then (cfg, AlreadyThere)
    else (cfg.(states := cfg.states + [NewState(ps[0])]), Quiet)
  }

  function SetNext(cfg: Config, ps: seq<string>): (Config, Message)
  {
    if |ps| < 2 then (cfg, MissingParameter)
    else
      var i := Find(cfg.states, ps[0]);
      if i.None? || Find(cfg.states, ps[1]).None? then (cfg, NoSuchState)
      else (cfg.(states := cfg.states[i.value := cfg.states[i.value].(next := ps[1])]), Quiet)
  }

  function SetInit(cfg: Config, ps: seq<string>): (Config, Message)
  {
    if |ps| < 1 then (cfg, MissingParameter)
    else if Find(cfg.states, ps[0]).None? then (cfg, NoSuchState)
    else (cfg.(init := ps[0]), Quiet)
  }

  predicate HasTrigger(events: seq<Event>, trigger: string)
  {
    exists k :: 0 <= k < |events| && events[k].trigger == trigger
  }

  function AddEvent(cfg: Config, ps: seq<string>): (Config, Message)
  {
    if |ps| < 3 then (cfg, MissingParameter)
    else
      var i := Find(cfg.states, ps[0]);
      if i.None? || Find(cfg.states, ps[2]).None? then (cfg, NoSuchState)
      else
        var s := cfg.states[i.value];
        if HasTrigger(s.events, ps[1]) then (cfg, AlreadyThere)
        else (cfg.(states := cfg.states[i.value := s.(events := s.events + [Event(ps[1], ps[2])])]), Quiet)
  }

  function WithAction(s: State, kind: string, code: string): State
  {
    if kind == "enter" then s.(enter := code)
    else if kind == "exit" then s.(exit := code)
    else if kind == "do" then s.(action := code)
    else s
  }

  function ChangeAction(luaOk: string -> bool, cfg: Config, name: string, kind: string, code: string): (Config, Message)
  {
    var i := Find(cfg.states, name);
    if i.None? then (cfg, NoSuchState)
    else if kind !in {"enter", "exit", "do"} then (cfg, NoSuchAction)
    else if !luaOk(code) then (cfg, LuaRejected)
    else (cfg.(states := cfg.states[i.value := WithAction(cfg.states[i.value], kind, code)]), Quiet)
  }

  /** An action is changed if and only if the state exists, it is one of the three kinds, and the code is accepted:
      in the first state of that name, the action of that kind and nothing else. */
  lemma ActionChanges(luaOk: string -> bool, cfg: Config, name: string, kind: string, code: string)
    ensures var (d, message) := ChangeAction(luaOk, cfg, name, kind, code);
            (message == Quiet <==>
             (exists s :: s in cfg.states && s.name == name) && (kind == "enter" || kind == "exit" || kind == "do") &&
             luaOk(code)) &&
            (message == NoSuchState <==> !exists s :: s in cfg.states && s.name == name) &&
            (message == LuaRejected ==> !luaOk(code)) &&
            (message == NoSuchAction ==> kind != "enter" && kind != "exit" && kind != "do") &&
            message in {Quiet, NoSuchState, LuaRejected, NoSuchAction} &&
            (message != Quiet ==> d == cfg) && d.init == cfg.init && |d.states| == |cfg.states| &&
            forall i :: 0 <= i < |cfg.states| ==>
              var s, t := cfg.states[i], d.states[i];
              if message == Quiet && s.name == name && forall j :: 0 <= j < i ==> cfg.states[j].name != name
              then t == (if kind == "enter" then State(s.name, code, s.exit, s.action, s.next, s.events)
                         else if kind == "exit" then State(s.name, s.enter, code, s.action, s.next, s.events)
                         else State(s.name, s.enter, s.exit, code, s.next, s.events))
              else t == s
  {
    if s :| s in cfg.states && s.name == name {
      var k :| 0 <= k < |cfg.states| && cfg.states[k] == s;
      FirstFound(cfg.states, name);
    }
  }

  lemma {:induction false} FirstFound(states: seq<State>, name: string)
    ensures Find(states, name).Some? ==> forall j :: 0 <= j < Find(states, name).value ==> states[j].name != name
  {
    if states != [] && states[0].name != name {
      FirstFound(states[1..], name);
      assert forall j :: 0 < j < |states| ==> states[j] == states[1..][j - 1];
    }
  }

  function InputAction(luaOk: string -> bool, cfg: Config, ps: seq<string>): (Config, Message)
  {
    if |ps| < 3 then (cfg, MissingParameter) else ChangeAction(luaOk, cfg, ps[0], ps[1], Restore(ps[2]))
  }

  /** `edit_action`, where `edited` is what the editor leaves. */
  function EditAction(luaOk: string -> bool, cfg: Config, ps: seq<string>, edited: string): (Config, Message)
  {
    if |ps| < 2 then (cfg, MissingParameter) else ChangeAction(luaOk, cfg, ps[0], ps[1], edited)
  }

  /** One tokenized line of a script in the menu of the state machine; the other commands of the menu print. */
  function Exec(luaOk: string -> bool, cfg: Config, line: seq<string>): Config
  {
    if line == [] then cfg
    else if line[0] == "create_state" then CreateState(cfg, line[1..]).0
    else if line[0] == "input_action" then InputAction(luaOk, cfg, line[1..]).0
    else if line[0] == "set_next" then SetNext(cfg, line[1..]).0
    else if line[0] == "add_event" then AddEvent(cfg, line[1..]).0
    else if line[0] == "set_init" then SetInit(cfg, line[1..]).0
    else if line == ["clear"] then CLEARED
    else cfg
  }

  predicate Named(states: seq<State>, name: string) { exists s :: s in states && s.name == name }

  lemma NamedIffDeclared(states: seq<State>, name: string)
    ensures Declared(states, name) <==> Named(states, name)
  {
    if s :| s in states && s.name == name {
      var k :| 0 <= k < |states| && states[k] == s;
    }
  }

  /** A name that is not taken: a new state without code, link and events comes last. */
  lemma NewStates(luaOk: string -> bool, cfg: Config, name: string)
    requires !Named(cfg.states, name)
    ensures Exec(luaOk, cfg, ["create_state", name]) ==
            Config(cfg.states + [State(name, "", "", "", "", [])], cfg.init)
    ensures Exec(luaOk, cfg, ["set_init", name]) == cfg && Exec(luaOk, cfg, ["create_state"]) == cfg
  {
    NamedIffDeclared(cfg.states, name);
  }

  /** The commands on a state, which is the first one of its name. What they refer to must be there, and a trigger
      must be new; otherwise they change nothing. */
  lemma StateCommands(luaOk: string -> bool, cfg: Config, i: nat, to: string, trigger: string)
    requires i < |cfg.states| && forall j :: 0 <= j < i ==> cfg.states[j].name != cfg.states[i].name
    ensures var s := cfg.states[i];
            var taken := exists e :: e in s.events && e.trigger == trigger;
            Exec(luaOk, cfg, ["create_state", s.name]) == cfg &&
            Exec(luaOk, cfg, ["set_init", s.name]) == Config(cfg.states, s.name) &&
            Exec(luaOk, cfg, ["set_next", s.name, to]) ==
              (if !Named(cfg.states, to) then cfg
               else Config(cfg.states[i := State(s.name, s.enter, s.exit, s.action, to, s.events)], cfg.init)) &&
            Exec(luaOk, cfg, ["add_event", s.name, trigger, to]) ==
              if !Named(cfg.states, to) || taken then cfg
              else
                var more := s.events + [Event(trigger, to)];
                Config(cfg.states[i := State(s.name, s.enter, s.exit, s.action, s.next, more)], cfg.init)
  {
    var s := cfg.states[i];
    FindFirst(cfg.states, i);
    NamedIffDeclared(cfg.states, to);
    if e :| e in s.events && e.trigger == trigger {
      var k :| 0 <= k < |s.events| && s.events[k] == e;
      assert HasTrigger(s.events, trigger);
    }
  }

  /** What each command says. Whatever it says but nothing, the configuration is as it was. */
  lemma Messages(luaOk: string -> bool, cfg: Config, ps: seq<string>, edited: string)
    ensures CreateState(cfg, ps).1 ==
            if |ps| == 0 then MissingParameter else if Named(cfg.states, ps[0]) then AlreadyThere else Quiet
    ensures SetInit(cfg, ps).1 ==
            if |ps| == 0 then MissingParameter else if !Named(cfg.states, ps[0]) then NoSuchState else Quiet
    ensures SetNext(cfg, ps).1 ==
            if |ps| <= 1 then MissingParameter
            else if !Named(cfg.states, ps[0]) || !Named(cfg.states, ps[1]) then NoSuchState else Quiet
    ensures AddEvent(cfg, ps).1 == MissingParameter <==> |ps| <= 2
    ensures AddEvent(cfg, ps).1 == Quiet <==> AddEvent(cfg, ps).0 != cfg
    ensures |ps| > 2 ==>
              (AddEvent(cfg, ps).1 == NoSuchState <==> !Named(cfg.states, ps[0]) || !Named(cfg.states, ps[2]))
    ensures AddEvent(cfg, ps).1 in {MissingParameter, NoSuchState, AlreadyThere, Quiet}
    ensures InputAction(luaOk, cfg, ps).1 == MissingParameter <==> |ps| <= 2
    ensures EditAction(luaOk, cfg, ps, edited).1 == MissingParameter <==> |ps| <= 1
    ensures (CreateState(cfg, ps).1 != Quiet ==> CreateState(cfg, ps).0 == cfg) &&
            (SetInit(cfg, ps).1 != Quiet ==> SetInit(cfg, ps).0 == cfg) &&
            (SetNext(cfg, ps).1 != Quiet ==> SetNext(cfg, ps).0 == cfg) &&
            (AddEvent(cfg, ps).1 != Quiet ==> AddEvent(cfg, ps).0 == cfg)
  {
    forall name
      ensures Declared(cfg.states, name) <==> Named(cfg.states, name)
    {
      NamedIffDeclared(cfg.states, name);
    }
    if AddEvent(cfg, ps).1 == Quiet {
      var i := Find(cfg.states, ps[0]).value;
      assert |AddEvent(cfg, ps).0.states[i].events| == |cfg.states[i].events| + 1;
    }
  }

  const COMMANDS :=
    {"create_state", "edit_action", "input_action", "set_next", "add_event", "set_init", "test_lua"}

  /** A line in that menu, with what the editor leaves if the line starts one. */
  function MenuExec(luaOk: string -> bool, cfg: Config, line: seq<string>, edited: string): Config
  {
    if line != [] && line[0] == "edit_action" then EditAction(luaOk, cfg, line[1..], edited).0
    else Exec(luaOk, cfg, line)
  }

  /** Runs a script line by line. */
  function Replay(luaOk: string -> bool, cfg: Config, lines: seq<string>): Config
    decreases |lines|
  {
    if lines == [] then cfg else Replay(luaOk, Exec(luaOk, cfg, Tokens(lines[0])), lines[1..])
  }

  // ----- The dump

  function ActionLine(name: string, kind: string, code: string): string
  {
    JoinWords(["input_action", name, kind, ""]) + "\"" + Rewrite(code) + "\""
  }

  function ActionLines(name: string, kind: string, code: string): seq<string>
  {
    if code == "" then [] else [ActionLine(name, kind, code)]
  }

  function StateLines(s: State): seq<string>
  {
    if s.name == "" then []
    else
      [JoinWords(["create_state", s.name])] + ActionLines(s.name, "enter", s.enter) +
      ActionLines(s.name, "exit", s.exit) + ActionLines(s.name, "do", s.action)
  }

  function EventLine(name: string, e: Event): string { JoinWords(["add_event", name, e.trigger, e.next]) }

  function EventLines(name: string, events: seq<Event>): seq<string>
  {
    if events == [] then [] else [EventLine(name, events[0])] + EventLines(name, events[1..])
  }

  function EdgeLines(s: State): seq<string>
  {
    if s.name == "" then []
    else (if s.next == "" then [] else [JoinWords(["set_next", s.name, s.next])]) + EventLines(s.name, s.events)
  }

  function AllStateLines(states: seq<State>): seq<string>
  {
    if states == [] then [] else StateLines(states[0]) + AllStateLines(states[1..])
  }

  function AllEdgeLines(states: seq<State>): seq<string>
  {
    if states == [] then [] else EdgeLines(states[0]) + AllEdgeLines(states[1..])
  }

  function InitLines(cfg: Config): seq<string>
  {
    if cfg.init == "" then [] else [JoinWords(["set_init", cfg.init])]
  }

  function DumpLines(cfg: Config): seq<string>
  {
    AllStateLines(cfg.states) + AllEdgeLines(cfg.states) + InitLines(cfg)
  }

  lemma Joined(a: string, b: string, c: string, d: string)
    ensures JoinWords([a, b]) == a + " " + b
    ensures JoinWords([a, b, c]) == a + " " + b + " " + c
    ensures JoinWords([a, b, c, d]) == a + " " + b + " " + c + " " + d
  {
    JoinedTwo(a, b);
    JoinedTwo(b, c);
    JoinedTwo(c, d);
    assert [a, b, c][1..] == [b, c] && [b, c, d][1..] == [c, d] && [a, b, c, d][1..] == [b, c, d];
    assert JoinWords([b, c, d]) == b + " " + (c + " " + d);
    assert a + " " + (b + " " + (c + " " + d)) == a + " " + b + " " + c + " " + d;
  }

  lemma JoinedTwo(a: string, b: string)
    ensures JoinWords([a, b]) == a + " " + b
  {
    assert [a, b][1..] == [b];
  }

  lemma ActionLineIs(name: string, kind: string, code: string)
    ensures ActionLine(name, kind, code) == "input_action " + name + " " + kind + " \"" + Rewrite(code) + "\""
  {
    hide JoinWords, Rewrite;
    Joined("input_action", name, kind, "");
    assert "input_action" + " " == "input_action " && " " + "" + "\"" == " \"";
    assert JoinWords(["input_action", name, kind, ""]) + "\"" == "input_action " + name + " " + kind + " \"";
  }

  /** The lines of the dump for one state: what creates it and its code, and then what links it. */
  lemma LinesOfState(s: State)
    requires s.name != ""
    ensures StateLines(s) ==
            ["create_state " + s.name] + (if s.enter == "" then [] else [ActionLine(s.name, "enter", s.enter)]) +
            (if s.exit == "" then [] else [ActionLine(s.name, "exit", s.exit)]) +
            (if s.action == "" then [] else [ActionLine(s.name, "do", s.action)])
    ensures EdgeLines(s) ==
            (if s.next == "" then [] else ["set_next " + s.name + " " + s.next]) + EventLines(s.name, s.events)
    ensures forall e :: EventLine(s.name, e) == "add_event " + s.name + " " + e.trigger + " " + e.next
  {
    hide JoinWords, ActionLine, EventLines;
    assert "create_state" + " " == "create_state " && "set_next" + " " == "set_next ";
    assert "add_event" + " " == "add_event ";
    Joined("create_state", s.name, "", "");
    Joined("set_next", s.name, s.next, "");
    forall e: Event
      ensures EventLine(s.name, e) == "add_event " + s.name + " " + e.trigger + " " + e.next
    {
      Joined("add_event", s.name, e.trigger, e.next);
    }
  }

  lemma {:induction false} EventLinesAt(name: string, events: seq<Event>)
    ensures |EventLines(name, events)| == |events|
    ensures forall i :: 0 <= i < |events| ==> EventLines(name, events)[i] == EventLine(name, events[i])
  {
    hide EventLine;
    if events != [] {
      EventLinesAt(name, events[1..]);
    }
  }

  /** All states come before all links, and the initial state is last. */
  lemma DumpOrder(a: State, b: State, init: string)
    requires init != ""
    ensures DumpLines(Config([a, b], init)) ==
            StateLines(a) + StateLines(b) + EdgeLines(a) + EdgeLines(b) + ["set_init " + init]
  {
    hide StateLines, EdgeLines;
    Joined("set_init", init, "", "");
    assert "set_init" + " " == "set_init ";
    assert AllStateLines([a, b]) == StateLines(a) + AllStateLines([b]) && AllStateLines([b]) == StateLines(b);
    assert AllEdgeLines([a, b]) == EdgeLines(a) + AllEdgeLines([b]) && AllEdgeLines([b]) == EdgeLines(b);
    assert [a, b][1..] == [b] && [b][1..] == [];
  }

  function Unlines(lines: seq<string>): string
  {
    if lines == [] then "" else lines[0] + "\n" + Unlines(lines[1..])
  }

  /** The lines that repeated `getline` calls deliver; text after the last newline is not run. */
  function Lines(text: string): seq<string>
    decreases |text|
  {
    LinesFrom(text, "")
  }

  function LinesFrom(text: string, cur: string): seq<string>
    decreases |text|
  {
    if text == "" then []
    else if text[0] == '\n' then [cur] + LinesFrom(text[1..], "")
    else LinesFrom(text[1..], cur + [text[0]])
  }

  // ----- The command line interface over the configuration file

  class SmConfigCli {
    const luaOk: string -> bool
    var config: Config

    constructor (luaOk: string -> bool, config: Config)
      ensures this.luaOk == luaOk && this.config == config
    {
      this.luaOk, this.config := luaOk, config;
    }

    // get_state_from_sm
    method GetState(name: string) returns (r: Option<nat>)
      ensures r == Find(config.states, name)
    {
      assert config.states[0..] == config.states;
      for i := 0 to |config.states|
        invariant forall k :: 0 <= k < i ==> config.states[k].name != name
      {
        if config.states[i].name == name {
          FindFirst(config.states, i);
          return Some(i);
        }
      }
      return None;
    }

    method RunCreateState(ps: seq<string>) returns (msg: Message)
      modifies this
      ensures (config, msg) == CreateState(old(config), ps)
    {
      if |ps| <= 0 {
        return MissingParameter;
      }
      var found := GetState(ps[0]);
      if found.Some? {
        return AlreadyThere;
      }
      config := config.(states := config.states + [NewState(ps[0])]);
      return Quiet;
    }

    method RunSetNext(ps: seq<string>) returns (msg: Message)
      modifies this
      ensures (config, msg) == SetNext(old(config), ps)
    {
      if |ps| <= 1 {
        return MissingParameter;
      }
      var state := GetState(ps[0]);
      var next := GetState(ps[1]);
      if state.None? || next.None? {
        return NoSuchState;
      }
      config := config.(states := config.states[state.value := config.states[state.value].(next := ps[1])]);
      return Quiet;
    }

    method RunSetInit(ps: seq<string>) returns (msg: Message)
      modifies this
      ensures (config, msg) == SetInit(old(config), ps)
    {
      if |ps| <= 0 {
        return MissingParameter;
      }
      var state := GetState(ps[0]);
      if state.None? {
        return NoSuchState;
      }
      config := config.(init := ps[0]);
      return Quiet;
    }

    method RunAddEvent(ps: seq<string>) returns (msg: Message)
      modifies this
      ensures (config, msg) == AddEvent(old(config), ps)
    {
      if |ps| <= 2 {
        return MissingParameter;
      }
      var state := GetState(ps[0]);
      var target := GetState(ps[2]);
      if state.None? || target.None? {
        return NoSuchState;
      }
      var s := config.states[state.value];
      for k := 0 to |s.events|
        invariant config == old(config) && !HasTrigger(s.events[..k], ps[1])
      {
        if s.events[k].trigger == ps[1] {
          return AlreadyThere;
        }
      }
      assert s.events[..|s.events|] == s.events;
      config := config.(states := config.states[state.value := s.(events := s.events + [Event(ps[1], ps[2])])]);
      return Quiet;
    }

    method RunInputAction(ps: seq<string>) returns (msg: Message)
      modifies this
      ensures (config, msg) == InputAction(luaOk, old(config), ps)
    {
      if |ps| <= 2 {
        return MissingParameter;
      }
      var code := RestoreNewlines(ps[2]);
      msg := ChangeStateAction(ps[0], ps[1], code);
    }

    method RunEditAction(ps: seq<string>, edited: string) returns (msg: Message)
      modifies this
      ensures (config, msg) == EditAction(luaOk, old(config), ps, edited)
    {
      if |ps| <= 1 {
        return MissingParameter;
      }
      msg := ChangeStateAction(ps[0], ps[1], edited);
    }

    method ChangeStateAction(name: string, kind: string, code: string) returns (msg: Message)
      modifies this
      ensures (config, msg) == ChangeAction(luaOk, old(config), name, kind, code)
    {
      var state := GetState(name);
      if state.None? {
        return NoSuchState;
      }
      if kind != "enter" && kind != "exit" && kind != "do" {
        return NoSuchAction;
      }
      if !luaOk(code) {
        return LuaRejected;
      }
      config := config.(states := config.states[state.value := WithAction(config.states[state.value], kind, code)]);
      return Quiet;
    }

    method Clear()
      modifies this
      ensures config == CLEARED
    {
      config := CLEARED;
    }

    // make_bdr
    method MakeBdr() returns (ret: string)
      ensures ret == Unlines(DumpLines(config))
    {
      ret := "";
      var trans := "";
      var states := config.states;
      assert states[0..] == states && states[..0] == [] && states[..|states|] == states;
      for i := 0 to |states|
        invariant ret == Unlines(AllStateLines(states[..i]))
        invariant trans == Unlines(AllEdgeLines(states[..i]))
      {
        var s := states[i];
        AllLinesSnoc(states, i);
        if s.name != "" {
          var block := StateBlock(s);
          UnlinesAppend(AllStateLines(states[..i]), StateLines(s));
          ret := ret + block;
          block := EdgeBlock(s);
          UnlinesAppend(AllEdgeLines(states[..i]), EdgeLines(s));
          trans := trans + block;
        } else {
          assert AllStateLines(states[..i]) + [] == AllStateLines(states[..i]);
          assert AllEdgeLines(states[..i]) + [] == AllEdgeLines(states[..i]);
        }
      }
      ret := ret + trans;
      ghost var body := AllStateLines(states) + AllEdgeLines(states);
      UnlinesAppend(AllStateLines(states), AllEdgeLines(states));
      if config.init != "" {
        ret := AppendLine(ret, "set_init " + config.init, body);
        assert "set_init " + config.init == JoinWords(["set_init", config.init]);
      } else {
        assert body + [] == body;
      }
    }

    static method AppendLine(before: string, line: string, ghost lines: seq<string>) returns (ret: string)
      requires before == Unlines(lines)
      ensures ret == Unlines(lines + [line])
    {
      UnlinesAppend(lines, [line]);
      OneLine(line);
      ret := before + (line + "\n");
    }

    // The lines of one state, and of its edges, as the loop body of make_bdr appends them.
    method StateBlock(s: State) returns (ret: string)
      requires s.name != ""
      ensures ret == Unlines(StateLines(s))
    {
      var create := "create_state " + s.name;
      assert create == JoinWords(["create_state", s.name]);
      ret := AppendLine("", create, []);
      ghost var lines := [create];
      assert [] + lines == lines;
      ret := AppendAction(ret, s.name, "enter", s.enter, lines);
      lines := lines + ActionLines(s.name, "enter", s.enter);
      ret := AppendAction(ret, s.name, "exit", s.exit, lines);
      lines := lines + ActionLines(s.name, "exit", s.exit);
      ret := AppendAction(ret, s.name, "do", s.action, lines);
    }

    method AppendAction(before: string, name: string, kind: string, code: string, ghost lines: seq<string>)
      returns (ret: string)
      requires before == Unlines(lines)
      ensures ret == Unlines(lines + ActionLines(name, kind, code))
    {
      ret := before;
      if code != "" {
        var text := ReplaceNewlinesAndQuotes(code);
        ActionLineText(name, kind, code);
        ret := AppendLine(ret, "input_action " + name + " " + kind + " \"" + text + "\"", lines);
      } else {
        assert lines + [] == lines;
      }
    }

    static method SetNextText(s: State) returns (line: string)
      ensures line == JoinWords(["set_next", s.name, s.next])
    {
      line := "set_next " + s.name + " " + s.next;
      JoinThree("set_next", s.name, s.next);
    }

    static method AddEventText(name: string, e: Event) returns (line: string)
      ensures line == EventLine(name, e)
    {
      line := "add_event " + name + " " + e.trigger + " " + e.next;
      EventLineText(name, e);
    }

    method EdgeBlock(s: State) returns (trans: string)
      requires s.name != ""
      ensures trans == Unlines(EdgeLines(s))
    {
      trans := "";
      ghost var lines: seq<string> := [];
      if s.next != "" {
        var line := SetNextText(s);
        trans := AppendLine(trans, line, lines);
        lines := [line];
        assert [] + lines == lines;
      }
      ghost var first := lines;
      assert s.events[..0] == [] && s.events[..|s.events|] == s.events && first + [] == first;
      for k := 0 to |s.events|
        invariant lines == first + EventLines(s.name, s.events[..k]) && trans == Unlines(lines)
      {
        var e := s.events[k];
        var line := AddEventText(s.name, e);
        EventLinesSnoc(s.name, s.events, k);
        trans := AppendLine(trans, line, lines);
        lines := lines + [line];
      }
    }

    /** A line for this menu; `edited` is what the editor leaves, if one is started. */
    method Execute(line: seq<string>, edited: string) returns (found: bool)
      requires line != []
      modifies this
      ensures config == MenuExec(luaOk, old(config), line, edited)
      ensures found <==> line[0] in COMMANDS || line in {["clear"], ["bdr"]}
    {
      found := true;
      var name, ps := line[0], line[1..];
      if name == "create_state" {
        var _ := RunCreateState(ps);
      } else if name == "edit_action" {
        var _ := RunEditAction(ps, edited);
      } else if name == "input_action" {
        var _ := RunInputAction(ps);
      } else if name == "set_next" {
        var _ := RunSetNext(ps);
      } else if name == "add_event" {
        var _ := RunAddEvent(ps);
      } else if name == "set_init" {
        var _ := RunSetInit(ps);
      } else if line == ["clear"] {
        Clear();
      } else {
        found := name == "test_lua" || line == ["bdr"];
      }
    }
  }

  lemma {:induction false} FindFirst(states: seq<State>, i: nat)
    requires i < |states| && forall k :: 0 <= k < i ==> states[k].name != states[i].name
    ensures Find(states, states[i].name) == Some(i)
  {
    if i > 0 {
      FindFirst(states[1..], i - 1);
    }
  }

  // ----- Text and lines

  lemma OneLine(line: string)
    ensures Unlines([line]) == line + "\n"
  {
    assert [line][1..] == [] && line + "\n" + "" == line + "\n";
  }

  lemma {:induction false} UnlinesAppend(a: seq<string>, b: seq<string>)
    ensures Unlines(a + b) == Unlines(a) + Unlines(b)
  {
    if a == [] {
      assert a + b == b;
    } else {
      assert (a + b)[1..] == a[1..] + b;
      UnlinesAppend(a[1..], b);
    }
  }

  lemma JoinThree(a: string, b: string, c: string)
    ensures JoinWords([a, b, c]) == a + " " + b + " " + c
  {
    assert [a, b, c][1..] == [b, c] && [b, c][1..] == [c];
    assert JoinWords([b, c]) == b + " " + c;
  }

  lemma EventLineText(name: string, e: Event)
    ensures EventLine(name, e) == "add_event " + name + " " + e.trigger + " " + e.next
  {
    assert ["add_event", name, e.trigger, e.next][1..] == [name, e.trigger, e.next];
    JoinThree(name, e.trigger, e.next);
  }

  lemma ActionLineText(name: string, kind: string, code: string)
    ensures ActionLine(name, kind, code) == "input_action " + name + " " + kind + " \"" + Rewrite(code) + "\""
  {
    assert ["input_action", name, kind, ""][1..] == [name, kind, ""];
    JoinThree(name, kind, "");
  }

  lemma {:induction false} StateLinesAppend(a: seq<State>, b: seq<State>)
    ensures AllStateLines(a + b) == AllStateLines(a) + AllStateLines(b)
  {
    if a == [] {
      assert a + b == b;
    } else {
      assert (a + b)[1..] == a[1..] + b;
      StateLinesAppend(a[1..], b);
    }
  }

  lemma {:induction false} EdgeLinesAppend(a: seq<State>, b: seq<State>)
    ensures AllEdgeLines(a + b) == AllEdgeLines(a) + AllEdgeLines(b)
  {
    if a == [] {
      assert a + b == b;
    } else {
      assert (a + b)[1..] == a[1..] + b;
      EdgeLinesAppend(a[1..], b);
    }
  }

  lemma AllLinesSnoc(states: seq<State>, i: nat)
    requires i < |states|
    ensures AllStateLines(states[..i + 1]) == AllStateLines(states[..i]) + StateLines(states[i])
    ensures AllEdgeLines(states[..i + 1]) == AllEdgeLines(states[..i]) + EdgeLines(states[i])
  {
    hide StateLines, EdgeLines;
    var one := [states[i]];
    assert states[..i + 1] == states[..i] + one && one[1..] == [];
    StateLinesAppend(states[..i], one);
    EdgeLinesAppend(states[..i], one);
    assert AllStateLines(one) == StateLines(states[i]) + [];
    assert AllEdgeLines(one) == EdgeLines(states[i]) + [];
  }

  lemma {:induction false} EventLinesAppend(name: string, a: seq<Event>, b: seq<Event>)
    ensures EventLines(name, a + b) == EventLines(name, a) + EventLines(name, b)
  {
    if a == [] {
      assert a + b == b;
    } else {
      assert (a + b)[1..] == a[1..] + b;
      EventLinesAppend(name, a[1..], b);
    }
  }

  lemma EventLinesSnoc(name: string, events: seq<Event>, k: nat)
    requires k < |events|
    ensures EventLines(name, events[..k + 1]) == EventLines(name, events[..k]) + [EventLine(name, events[k])]
  {
    assert events[..k + 1] == events[..k] + [events[k]];
    EventLinesAppend(name, events[..k], [events[k]]);
    assert EventLines(name, [events[k]]) == [EventLine(name, events[k])];
  }
}
