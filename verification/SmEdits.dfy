/** Editing commands: what every configuration keeps, and exactly which commands keep a dump legible. */
module SmEdits {
  import opened Wrappers
  import opened Tokenizer
  import opened WordExact
  import opened ActionText
  import opened SmConfig
  import opened SmSession
  import opened SmReplay
  import opened SmExact

  // ----- Every command keeps a configuration sound

  lemma StateSoundTransfer(luaOk: string -> bool, a: seq<State>, b: seq<State>, s: State)
    requires StateSound(luaOk, a, s) && forall name :: Declared(a, name) ==> Declared(b, name)
    ensures StateSound(luaOk, b, s)
  {
    hide Declared;
    forall k | 0 <= k < |s.events|
      ensures EventSound(b, s.events[k])
    {
      assert EventSound(a, s.events[k]);
    }
  }

  lemma ReplaceState(luaOk: string -> bool, cfg: Config, i: nat, s: State)
    requires Sound(luaOk, cfg) && i < |cfg.states|
    requires s.name == cfg.states[i].name && StateSound(luaOk, cfg.states, s)
    ensures Sound(luaOk, cfg.(states := cfg.states[i := s]))
  {
    hide StateSound;
    var after := cfg.states[i := s];
    assert SameNames(cfg.states, after);
    SameUnique(cfg.states, after);
    forall name
      ensures Declared(cfg.states, name) <==> Declared(after, name)
    {
      SameDeclared(cfg.states, after, name);
    }
    forall k | 0 <= k < |after|
      ensures StateSound(luaOk, after, after[k])
    {
      StateSoundTransfer(luaOk, cfg.states, after, after[k]);
    }
  }

  lemma AddedState(luaOk: string -> bool, cfg: Config, name: string)
    requires Sound(luaOk, cfg) && name != "" && OneLiner(name) && !Declared(cfg.states, name)
    ensures Sound(luaOk, cfg.(states := cfg.states + [NewState(name)]))
  {
    var after := cfg.states + [NewState(name)];
    DeclaredFound(cfg.states, name);
    forall n | Declared(cfg.states, n)
      ensures Declared(after, n)
    {
      DeclaredFound(cfg.states, n);
      DeclaredFound(after, n);
      var i :| 0 <= i < |cfg.states| && cfg.states[i].name == n;
      assert after[i].name == n;
    }
    forall k | 0 <= k < |after|
      ensures StateSound(luaOk, after, after[k])
    {
      if k < |cfg.states| {
        StateSoundTransfer(luaOk, cfg.states, after, after[k]);
      }
    }
  }

  lemma AddedEvent(luaOk: string -> bool, states: seq<State>, s: State, e: Event)
    requires StateSound(luaOk, states, s) && EventSound(states, e) && !HasTrigger(s.events, e.trigger)
    ensures StateSound(luaOk, states, s.(events := s.events + [e]))
  {
    forall k | 0 <= k < |s.events|
      ensures s.events[k].trigger != e.trigger
    {
    }
  }

  /** The parameters that a command line can have. */
  predicate Words(line: seq<string>)
  {
    forall i :: 0 <= i < |line| ==> line[i] != "" && OneLiner(line[i])
  }

  lemma ChangeSound(luaOk: string -> bool, cfg: Config, name: string, kind: string, code: string)
    requires Sound(luaOk, cfg)
    ensures Sound(luaOk, ChangeAction(luaOk, cfg, name, kind, code).0)
  {
    hide Find, UniqueNames;
    var i := Find(cfg.states, name);
    if i.Some? && luaOk(code) {
      var s := cfg.states[i.value];
      assert StateSound(luaOk, cfg.states, s);
      ReplaceState(luaOk, cfg, i.value, WithAction(s, kind, code));
    }
  }

  lemma ClearedSound(luaOk: string -> bool)
    ensures Sound(luaOk, CLEARED)
  {
  }

  lemma MenuSound(luaOk: string -> bool, cfg: Config, line: seq<string>, edited: string)
    requires Sound(luaOk, cfg)
    requires |line| >= 2 && line[0] == "create_state" ==> line[1] != "" && OneLiner(line[1])
    requires |line| >= 3 && line[0] == "add_event" ==> line[2] != "" && OneLiner(line[2])
    ensures Sound(luaOk, MenuExec(luaOk, cfg, line, edited))
  {
    hide Find, Restore, UniqueNames, ChangeAction;
    ClearedSound(luaOk);
    if line != [] && line[0] == "edit_action" && |line| >= 3 {
      ChangeSound(luaOk, cfg, line[1], line[2], edited);
    } else if line != [] && line[0] == "input_action" && |line| >= 4 {
      ChangeSound(luaOk, cfg, line[1], line[2], Restore(line[3]));
    } else if |line| >= 2 {
      var i := Find(cfg.states, line[1]);
      if line[0] == "create_state" && i.None? {
        AddedState(luaOk, cfg, line[1]);
      } else if i.Some? {
        var s := cfg.states[i.value];
        assert StateSound(luaOk, cfg.states, s);
        if line[0] == "set_next" && |line| >= 3 && Declared(cfg.states, line[2]) {
          ReplaceState(luaOk, cfg, i.value, s.(next := line[2]));
        } else if line[0] == "add_event" && |line| >= 4 {
          var e := Event(line[2], line[3]);
          if Declared(cfg.states, e.next) && !HasTrigger(s.events, e.trigger) {
            AddedEvent(luaOk, cfg.states, s, e);
            ReplaceState(luaOk, cfg, i.value, s.(events := s.events + [e]));
          }
        }
      }
    }
  }

  /** The scanner puts newlines only where the line has them. */
  lemma {:induction false} RunOneLiner(t: Scanner, s: string)
    requires Ok(t) && OneLiner(s) && forall i :: 0 <= i < |t.tokens| ==> OneLiner(t.tokens[i])
    ensures forall i :: 0 <= i < |Run(t, s).tokens| ==> OneLiner(Run(t, s).tokens[i])
    decreases |s|
  {
    if s != "" {
      assert s[0] in s;
      RunOneLiner(Eval(t, s[0]), s[1..]);
    }
  }

  lemma {:induction false} NonEmptyOneLiner(tokens: seq<string>)
    requires forall i :: 0 <= i < |tokens| ==> OneLiner(tokens[i])
    ensures forall i :: 0 <= i < |NonEmpty(tokens)| ==> OneLiner(NonEmpty(tokens)[i])
  {
    if tokens != [] {
      NonEmptyOneLiner(tokens[1..]);
    }
  }

  lemma TokensWords(line: string)
    requires OneLiner(line)
    ensures Words(Tokens(line))
  {
    RunOneLiner(INITIAL, line);
    NonEmptyOneLiner(Run(INITIAL, line).tokens);
  }

  predicate OneLiners(lines: seq<string>) { forall i :: 0 <= i < |lines| ==> OneLiner(lines[i]) }

  predicate CommandWords(route: Route) { route.Command? ==> Words(route.line) }

  lemma RouteWords(at: Place, line: seq<string>)
    requires line != [] && Words(line)
    ensures CommandWords(RouteOf(at, line))
  {
  }

  lemma FeedSound(luaOk: string -> bool, s: Session, line: seq<string>, edited: string)
    requires Sound(luaOk, s.config) && Words(line)
    ensures Sound(luaOk, Feed(luaOk, s, line, edited).config)
  {
    hide Sound, MenuExec, RouteOf;
    if !s.closed && line != [] {
      var route := RouteOf(s.at, line);
      RouteWords(s.at, line);
      if route.Command? {
        MenuSound(luaOk, s.config, route.line, edited);
      }
    }
  }

  /** Every session keeps a configuration sound, whatever is typed or edited in it. */
  lemma {:induction false} SessionSound(luaOk: string -> bool, s: Session, lines: seq<string>, editor: nat -> string,
      k: nat)
    requires Sound(luaOk, s.config) && OneLiners(lines)
    ensures Sound(luaOk, RunLines(luaOk, s, lines, editor, k).config)
    decreases |lines|
  {
    hide Sound, Feed, Tokens;
    if lines != [] {
      TokensWords(lines[0]);
      FeedSound(luaOk, s, Tokens(lines[0]), editor(k));
      SessionSound(luaOk, Feed(luaOk, s, Tokens(lines[0]), editor(k)), lines[1..], editor, k + 1);
    }
  }

  // ----- Which commands keep it legible

  /** What a command must bring along for a dump to carry it: a plain name or trigger, clean code. */
  predicate LineOk(line: seq<string>, edited: string)
  {
    (|line| >= 2 && line[0] == "create_state" ==> Plain(line[1])) &&
    (|line| >= 3 && line[0] == "add_event" ==> Plain(line[2])) &&
    (|line| >= 4 && line[0] == "input_action" ==> Clean(Restore(line[3]))) &&
    (line != [] && line[0] == "edit_action" ==> Clean(edited))
  }

  /** The command is refused: it names a state or a trigger that is there already, or one that is missing, or
      it brings code that Lua rejects. */
  predicate Refused(luaOk: string -> bool, cfg: Config, line: seq<string>, edited: string)
  {
    line != [] &&
    match line[0]
    case "create_state" => |line| < 2 || Declared(cfg.states, line[1])
    case "add_event" =>
      |line| < 4 || !Declared(cfg.states, line[1]) || !Declared(cfg.states, line[3]) ||
      HasTrigger(cfg.states[Find(cfg.states, line[1]).value].events, line[2])
    case "input_action" => |line| < 4 || RefusesCode(luaOk, cfg, line[1], line[2], Restore(line[3]))
    case "edit_action" => |line| < 3 || RefusesCode(luaOk, cfg, line[1], line[2], edited)
    case _ => false
  }

  predicate RefusesCode(luaOk: string -> bool, cfg: Config, name: string, kind: string, code: string)
  {
    !Declared(cfg.states, name) || !IsKind(kind) || !luaOk(code)
  }

  lemma {:induction false} TextOneLiner(w: string)
    requires WordText(w)
    ensures OneLiner(w)
    decreases |w|
  {
    if w != "" {
      if w[0] == '\\' {
        TextOneLiner(w[2..]);
        assert w == [w[0], w[1]] + w[2..];
      } else {
        TextOneLiner(w[1..]);
        assert w == [w[0]] + w[1..];
      }
    }
  }

  lemma OneMoreLegible(luaOk: string -> bool, cfg: Config, s: State)
    requires WellFormed(luaOk, cfg) && Sound(luaOk, cfg.(states := cfg.states + [s]))
    ensures WellFormed(luaOk, cfg.(states := cfg.states + [s])) <==> Legible(s)
  {
    hide Sound, Legible;
    var after := cfg.states + [s];
    assert after[|cfg.states|] == s;
  }

  lemma OneLegible(luaOk: string -> bool, cfg: Config, i: nat, s: State)
    requires WellFormed(luaOk, cfg) && i < |cfg.states| && Sound(luaOk, cfg.(states := cfg.states[i := s]))
    ensures WellFormed(luaOk, cfg.(states := cfg.states[i := s])) <==> Legible(s)
  {
    hide Sound, Legible;
    var after := cfg.states[i := s];
    assert after[i] == s;
  }

  lemma EventLegible(s: State, e: Event)
    requires Legible(s)
    ensures Legible(s.(events := s.events + [e])) <==> Plain(e.trigger)
  {
    hide Clean, WordText;
    var after := s.events + [e];
    assert after[|s.events|] == e;
  }

  lemma ActionLegible(s: State, kind: string, code: string)
    requires Legible(s) && IsKind(kind)
    ensures Legible(WithAction(s, kind, code)) <==> Clean(code)
  {
    hide Clean, WordText;
  }

  lemma CreatePreservesIff(luaOk: string -> bool, cfg: Config, name: string)
    requires WellFormed(luaOk, cfg)
    ensures WellFormed(luaOk, CreateState(cfg, [name]).0) <==> Declared(cfg.states, name) || Plain(name)
  {
    hide WordText, StateSound;
    if !Declared(cfg.states, name) {
      var after := cfg.states + [NewState(name)];
      assert after[|cfg.states|] == NewState(name);
      if Plain(name) {
        TextOneLiner(name);
        AddedState(luaOk, cfg, name);
        OneMoreLegible(luaOk, cfg, NewState(name));
      }
    }
  }

  lemma NextPreserves(luaOk: string -> bool, cfg: Config, ps: seq<string>)
    requires WellFormed(luaOk, cfg)
    ensures WellFormed(luaOk, SetNext(cfg, ps).0)
  {
    hide Find, StateSound, Legible, UniqueNames;
    if |ps| >= 2 && Declared(cfg.states, ps[0]) && Declared(cfg.states, ps[1]) {
      NextLegible(luaOk, cfg, Find(cfg.states, ps[0]).value, ps[1]);
    }
  }

  lemma NextLegible(luaOk: string -> bool, cfg: Config, i: nat, next: string)
    requires WellFormed(luaOk, cfg) && i < |cfg.states| && Declared(cfg.states, next)
    ensures WellFormed(luaOk, cfg.(states := cfg.states[i := cfg.states[i].(next := next)]))
  {
    var s := cfg.states[i];
    assert StateSound(luaOk, cfg.states, s);
    ReplaceState(luaOk, cfg, i, s.(next := next));
    OneLegible(luaOk, cfg, i, s.(next := next));
  }

  lemma EventPreservesIff(luaOk: string -> bool, cfg: Config, i: nat, e: Event)
    requires WellFormed(luaOk, cfg) && i < |cfg.states|
    requires Declared(cfg.states, e.next) && !HasTrigger(cfg.states[i].events, e.trigger)
    ensures var t := cfg.states[i].(events := cfg.states[i].events + [e]);
            WellFormed(luaOk, cfg.(states := cfg.states[i := t])) <==> Plain(e.trigger)
  {
    hide WordText, Find, Clean;
    var s := cfg.states[i];
    assert StateSound(luaOk, cfg.states, s) && Legible(s);
    var t := s.(events := s.events + [e]);
    var after := cfg.states[i := t];
    EventLegible(s, e);
    assert after[i] == t;
    if Plain(e.trigger) {
      TextOneLiner(e.trigger);
      AddedEvent(luaOk, cfg.states, s, e);
      ReplaceState(luaOk, cfg, i, t);
      OneLegible(luaOk, cfg, i, t);
    }
  }

  lemma CodePreservesIff(luaOk: string -> bool, cfg: Config, name: string, kind: string, code: string)
    requires WellFormed(luaOk, cfg)
    ensures WellFormed(luaOk, ChangeAction(luaOk, cfg, name, kind, code).0) <==>
            RefusesCode(luaOk, cfg, name, kind, code) || Clean(code)
  {
    hide WordText, Find, Clean, UniqueNames;
    if !RefusesCode(luaOk, cfg, name, kind, code) {
      var i := Find(cfg.states, name).value;
      var s := cfg.states[i];
      assert StateSound(luaOk, cfg.states, s) && Legible(s);
      var t := WithAction(s, kind, code);
      ActionLegible(s, kind, code);
      ReplaceState(luaOk, cfg, i, t);
      OneLegible(luaOk, cfg, i, t);
    }
  }

  /** A command keeps a well-formed configuration well formed if and only if it is refused or what it brings
      along can be dumped. */
  lemma CommandPreservesIff(luaOk: string -> bool, cfg: Config, line: seq<string>, edited: string)
    requires WellFormed(luaOk, cfg)
    ensures WellFormed(luaOk, MenuExec(luaOk, cfg, line, edited)) <==>
            Refused(luaOk, cfg, line, edited) || LineOk(line, edited)
  {
    hide Sound, Find, Restore, Clean, WordText, HasTrigger, ChangeAction, SetNext, RefusesCode, Legible;
    if line == [] {
    } else if line[0] == "create_state" && |line| >= 2 {
      CreatePreservesIff(luaOk, cfg, line[1]);
    } else if line[0] == "set_next" {
      NextPreserves(luaOk, cfg, line[1..]);
    } else if line[0] == "set_init" {
      InitPreserves(luaOk, cfg, line[1..]);
    } else if line == ["clear"] {
      ClearedSound(luaOk);
      assert WellFormed(luaOk, CLEARED);
    } else if line[0] == "edit_action" && |line| >= 3 {
      CodePreservesIff(luaOk, cfg, line[1], line[2], edited);
    } else if line[0] == "input_action" && |line| >= 4 {
      CodePreservesIff(luaOk, cfg, line[1], line[2], Restore(line[3]));
    } else if line[0] == "add_event" && !Refused(luaOk, cfg, line, edited) {
      EventPreservesIff(luaOk, cfg, Find(cfg.states, line[1]).value, Event(line[2], line[3]));
    }
  }

  lemma InitPreserves(luaOk: string -> bool, cfg: Config, ps: seq<string>)
    requires WellFormed(luaOk, cfg)
    ensures WellFormed(luaOk, SetInit(cfg, ps).0)
  {
  }

  /** A line of a session brings along what a dump can carry, is refused, or is no command of the menu. */
  predicate FeedOk(luaOk: string -> bool, s: Session, line: seq<string>, edited: string)
  {
    s.closed || line == [] ||
    var route := RouteOf(s.at, line);
    route.Command? ==> Refused(luaOk, s.config, route.line, edited) || LineOk(route.line, edited)
  }

  lemma FeedPreservesIff(luaOk: string -> bool, s: Session, line: seq<string>, edited: string)
    requires WellFormed(luaOk, s.config)
    ensures WellFormed(luaOk, Feed(luaOk, s, line, edited).config) <==> FeedOk(luaOk, s, line, edited)
  {
    hide WellFormed, MenuExec, RouteOf, Refused, LineOk;
    if !s.closed && line != [] {
      var route := RouteOf(s.at, line);
      if route.Command? {
        CommandPreservesIff(luaOk, s.config, route.line, edited);
      }
    }
  }

  /** The configuration is well formed before every line and at the end. */
  predicate AlwaysWellFormed(luaOk: string -> bool, s: Session, lines: seq<string>, editor: nat -> string, k: nat)
    decreases |lines|
  {
    WellFormed(luaOk, s.config) &&
    (lines == [] ||
     AlwaysWellFormed(luaOk, Feed(luaOk, s, Tokens(lines[0]), editor(k)), lines[1..], editor, k + 1))
  }

  /** Every line is such a line where it comes. */
  predicate EachOk(luaOk: string -> bool, s: Session, lines: seq<string>, editor: nat -> string, k: nat)
    decreases |lines|
  {
    lines == [] ||
    var ts := Tokens(lines[0]);
    FeedOk(luaOk, s, ts, editor(k)) && EachOk(luaOk, Feed(luaOk, s, ts, editor(k)), lines[1..], editor, k + 1)
  }

  lemma {:induction false} EditsPreserveIff(luaOk: string -> bool, s: Session, lines: seq<string>,
      editor: nat -> string, k: nat)
    requires WellFormed(luaOk, s.config)
    ensures AlwaysWellFormed(luaOk, s, lines, editor, k) <==> EachOk(luaOk, s, lines, editor, k)
    decreases |lines|
  {
    hide WellFormed, Feed, FeedOk, Tokens;
    if lines != [] {
      var ts := Tokens(lines[0]);
      var next := Feed(luaOk, s, ts, editor(k));
      FeedPreservesIff(luaOk, s, ts, editor(k));
      if WellFormed(luaOk, next.config) {
        EditsPreserveIff(luaOk, next, lines[1..], editor, k + 1);
      } else {
        NotAlways(luaOk, next, lines[1..], editor, k + 1);
      }
    }
  }

  lemma NotAlways(luaOk: string -> bool, s: Session, lines: seq<string>, editor: nat -> string, k: nat)
    requires !WellFormed(luaOk, s.config)
    ensures !AlwaysWellFormed(luaOk, s, lines, editor, k)
  {
    hide WellFormed;
  }

  /** A name with a blank is created, but its dump creates another one. */
  lemma BlankNameIsLost(luaOk: string -> bool)
    ensures var cfg := CreateState(CLEARED, ["a b"]).0;
            Sound(luaOk, cfg) && !WellFormed(luaOk, cfg) && Replay(luaOk, CLEARED, DumpLines(cfg)) != cfg
  {
    var cfg := CreateState(CLEARED, ["a b"]).0;
    assert cfg.states == [NewState("a b")];
    assert !Plain("a b") by {
      assert "a b"[1..] == " b";
    }
    DumpReplaysIff(luaOk, cfg);
  }

  /** Quoting a name makes its blanks part of it. */
  lemma QuotedName(t: Scanner)
    requires Ok(t) && t.mode == Space
    ensures Run(t, "\"a b\"").tokens == t.tokens + ["a b"]
  {
    var t1 := Eval(Eval(t, '"'), 'a');
    var t2 := Eval(Eval(t1, ' '), 'b');
    RunPair(t, '"', 'a', " b\"");
    RunPair(t1, ' ', 'b', "\"");
    assert ['"', 'a'] + " b\"" == "\"a b\"" && [' ', 'b'] + "\"" == " b\"" && "\""[1..] == "";
    GrowLast(t.tokens, "", "a");
    GrowLast(t.tokens, "a", " ");
    GrowLast(t.tokens, "a ", "b");
    assert "" + "a" == "a" && "a" + " " == "a " && "a " + "b" == "a b";
    assert t2.tokens == t.tokens + ["a b"];
  }

  lemma GrowLast(tokens: seq<string>, w: string, text: string)
    ensures Grow(tokens + [w], text) == tokens + [w + text]
  {
  }

  /** That name is created by quoting it. */
  lemma BlankNameIsCreated(luaOk: string -> bool)
    ensures Exec(luaOk, CLEARED, Tokens("create_state \"a b\"")) == CreateState(CLEARED, ["a b"]).0
  {
    hide WordText, Run;
    var ws, rest := ["create_state"], "\"a b\"";
    PlainCommands();
    LedOne("create_state", rest);
    RunWordsThen([], ws, rest);
    assert [] + ws == ws && "create_state \"a b\"" == "create_state" + " " + rest;
    QuotedName(Between(ws));
    NonEmptyAll(["create_state", "a b"]);
    assert ["create_state", "a b"][1..] == ["a b"];
  }
}
