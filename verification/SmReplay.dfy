/** Running the dump of a configuration on a cleared one: what it rebuilds, line by line. */
module SmReplay {
  import opened Wrappers
  import opened Tokenizer
  import opened WordExact
  import opened ActionText
  import opened SmConfig

  // ----- Configurations

  predicate OneLiner(s: string) { '\n' !in s }

  predicate UniqueNames(states: seq<State>)
  {
    forall i, j :: 0 <= i < j < |states| ==> states[i].name != states[j].name
  }

  predicate UniqueTriggers(events: seq<Event>)
  {
    forall i, j :: 0 <= i < j < |events| ==> events[i].trigger != events[j].trigger
  }

  predicate Accepted(luaOk: string -> bool, code: string) { code != "" ==> luaOk(code) }

  predicate EventSound(states: seq<State>, e: Event)
  {
    e.trigger != "" && OneLiner(e.trigger) && Declared(states, e.next)
  }

  predicate StateSound(luaOk: string -> bool, states: seq<State>, s: State)
  {
    s.name != "" && OneLiner(s.name) &&
    Accepted(luaOk, s.enter) && Accepted(luaOk, s.exit) && Accepted(luaOk, s.action) &&
    (s.next != "" ==> Declared(states, s.next)) && UniqueTriggers(s.events) &&
    forall k :: 0 <= k < |s.events| ==> EventSound(states, s.events[k])
  }

  /** What every configuration is that was built by commands: unique names, existing targets, unique triggers
      per state, accepted code. */
  predicate Sound(luaOk: string -> bool, cfg: Config)
  {
    UniqueNames(cfg.states) && (cfg.init != "" ==> Declared(cfg.states, cfg.init)) &&
    forall i :: 0 <= i < |cfg.states| ==> StateSound(luaOk, cfg.states, cfg.states[i])
  }

  /** What a dump can carry: plain names and triggers, and clean code. */
  predicate Legible(s: State)
  {
    Plain(s.name) && Clean(s.enter) && Clean(s.exit) && Clean(s.action) &&
    forall k :: 0 <= k < |s.events| ==> Plain(s.events[k].trigger)
  }

  predicate WellFormed(luaOk: string -> bool, cfg: Config)
  {
    Sound(luaOk, cfg) && forall i :: 0 <= i < |cfg.states| ==> Legible(cfg.states[i])
  }

  predicate PlainNames(states: seq<State>)
  {
    forall i :: 0 <= i < |states| ==> Plain(states[i].name)
  }

  predicate SameNames(a: seq<State>, b: seq<State>)
  {
    |a| == |b| && forall i :: 0 <= i < |a| ==> a[i].name == b[i].name
  }

  lemma FindAt(states: seq<State>, i: nat)
    requires UniqueNames(states) && i < |states|
    ensures Find(states, states[i].name) == Some(i)
  {
    FindFirst(states, i);
  }

  lemma DeclaredFound(states: seq<State>, name: string)
    ensures Declared(states, name) <==> exists i :: 0 <= i < |states| && states[i].name == name
  {
  }

  lemma SameDeclared(a: seq<State>, b: seq<State>, name: string)
    requires SameNames(a, b)
    ensures Declared(a, name) <==> Declared(b, name)
  {
  }

  lemma SameUnique(a: seq<State>, b: seq<State>)
    requires SameNames(a, b) && UniqueNames(a)
    ensures UniqueNames(b)
  {
  }

  lemma DeclaredPlain(states: seq<State>, name: string)
    requires PlainNames(states) && Declared(states, name)
    ensures Plain(name)
  {
  }

  // ----- Scripts in parts

  lemma {:induction false} ReplayAppend(luaOk: string -> bool, cfg: Config, a: seq<string>, b: seq<string>)
    ensures Replay(luaOk, cfg, a + b) == Replay(luaOk, Replay(luaOk, cfg, a), b)
    decreases |a|
  {
    if a == [] {
      assert a + b == b;
    } else {
      assert (a + b)[0] == a[0] && (a + b)[1..] == a[1..] + b;
      ReplayAppend(luaOk, Exec(luaOk, cfg, Tokens(a[0])), a[1..], b);
    }
  }

  lemma ReplayOne(luaOk: string -> bool, cfg: Config, line: string)
    ensures Replay(luaOk, cfg, [line]) == Exec(luaOk, cfg, Tokens(line))
  {
    assert [line][1..] == [];
  }

  // ----- Single lines

  lemma PlainCommands()
    ensures Plain("create_state") && Plain("input_action") && Plain("set_next") && Plain("add_event") &&
            Plain("set_init")
    ensures Plain("enter") && Plain("exit") && Plain("do")
  {
    hide WordText;
    PlainCharsText("create_state");
    PlainCharsText("input_action");
    PlainCharsText("set_next");
    PlainCharsText("add_event");
    PlainCharsText("set_init");
    PlainCharsText("enter");
    PlainCharsText("exit");
    PlainCharsText("do");
  }

  lemma LedOne(a: string, rest: string)
    ensures Led([a], rest) == a + " " + rest
  {
    assert [a][1..] == [];
  }

  lemma LedTwo(a: string, b: string, rest: string)
    ensures Led([a, b], rest) == a + " " + (b + " " + rest)
  {
    assert [a, b][1..] == [b];
    LedOne(b, rest);
  }

  lemma LedThree(a: string, b: string, c: string, rest: string)
    ensures Led([a, b, c], rest) == a + " " + (b + " " + (c + " " + rest))
  {
    assert [a, b, c][1..] == [b, c];
    LedTwo(b, c, rest);
  }

  function Quoted(code: string): string { "\"" + Rewrite(code) + "\"" }

  lemma ActionLineLed(name: string, kind: string, code: string)
    ensures ActionLine(name, kind, code) == Led(["input_action", name, kind], Quoted(code))
  {
    ActionLineText(name, kind, code);
    LedThree("input_action", name, kind, Quoted(code));
  }

  lemma EventLineLed(name: string, e: Event)
    ensures EventLine(name, e) == Led(["add_event", name], e.trigger + " " + e.next)
  {
    hide EventLine, Led;
    EventLineText(name, e);
    LedTwo("add_event", name, e.trigger + " " + e.next);
  }

  // A quoted code text after some tokens.
  lemma RunQuoted(words: seq<string>, code: string)
    ensures var t := Run(Between(words), Quoted(code));
            |t.tokens| > |words| && t.tokens[..|words| + 1] == words + [Collected(code)] &&
            (Clean(code) ==> t.tokens == words + [Collected(code)])
  {
    var t := Between(words);
    var inside := NewSentence(t, '"');
    assert Quoted(code) == ['"'] + (Rewrite(code) + "\"");
    RunOne(t, '"', Rewrite(code) + "\"");
    ReadCode(inside, code);
    if Clean(code) {
      ReadClean(inside, code);
    }
    assert "" + Collected(code) == Collected(code);
    assert Grow(words + [""], Collected(code)) == words + [Collected(code)];
  }

  /** The tokens of a dumped action: the fourth one carries the code, and clean code is the last. */
  lemma ActionTokens(name: string, kind: string, code: string)
    requires Plain(name) && Plain(kind) && code != ""
    ensures var ts, all := Tokens(ActionLine(name, kind, code)), ["input_action", name, kind, Collected(code)];
            |ts| >= 4 && ts[..4] == all && (Clean(code) ==> ts == all)
  {
    hide Collected, Run, NonEmpty, Led, Quoted, ActionLine, WordText, Clean;
    var words := ["input_action", name, kind];
    assert words + [Collected(code)] == ["input_action", name, kind, Collected(code)];
    ActionLineLed(name, kind, code);
    PlainCommands();
    QuotedTokens(words, code);
  }

  lemma QuotedTokens(words: seq<string>, code: string)
    requires (forall i :: 0 <= i < |words| ==> Plain(words[i])) && code != ""
    ensures var ts, all := Tokens(Led(words, Quoted(code))), words + [Collected(code)];
            |ts| > |words| && ts[..|words| + 1] == all && (Clean(code) ==> ts == all)
  {
    hide Collected, Run, NonEmpty, Led, Quoted, WordText, Clean;
    RunWordsThen([], words, Quoted(code));
    assert [] + words == words;
    RunQuoted(words, code);
    CollectedSome(code);
    NonEmptyPrefix(Run(Between(words), Quoted(code)).tokens, |words| + 1);
    NonEmptyAll(words + [Collected(code)]);
  }

  lemma CollectedSome(code: string)
    requires code != ""
    ensures Collected(code) != ""
  {
    CollectedHead(code);
  }

  /** Dumped action code is restored by the replay exactly when it is clean, and then it is the last token of
      its line. */
  lemma ActionCodeReplays(name: string, kind: string, code: string)
    requires Plain(name) && Plain(kind) && code != ""
    ensures var ts := Tokens(ActionLine(name, kind, code));
            |ts| >= 4 && (Restore(ts[3]) == code <==> Clean(code)) && (Clean(code) ==> |ts| == 4)
  {
    ActionTokens(name, kind, code);
    SurvivesIffClean(code);
    var ts := Tokens(ActionLine(name, kind, code));
    assert ts[3] == ts[..4][3];
  }

  /** A dumped line break or a backslash before a quote: two texts that do not survive. */
  lemma UncleanExamples()
    ensures Arrived("a<>b") == "a\nb"
    ensures Arrived("s = \\\"x\\\"") != "s = \\\"x\\\""
  {
    hide Arrived;
    TwoExamples();
    assert !Clean("s = \\\"x\\\"") by {
      assert !CleanAt("s = \\\"x\\\"", 4);
    }
    SurvivesIffClean("s = \\\"x\\\"");
  }

  lemma TwoExamples()
    ensures Arrived("a<>b") == "a\nb"
  {
    assert "a<>b"[1..] == "<>b" && "<>b"[1..] == ">b" && ">b"[1..] == "b" && "b"[1..] == "";
    assert "<>b"[2..] == "b";
  }

  predicate IsKind(kind: string) { kind in {"enter", "exit", "do"} }

  lemma CommandTokens(command: string, rest: string)
    requires Plain(command)
    ensures var ts := Tokens(command + " " + rest); ts != [] && ts[0] == command
  {
    LedOne(command, rest);
    LedTokens([command], rest);
    var ts := Tokens(command + " " + rest);
    assert ts[0] == ts[..1][0];
  }

  /** A dumped action sets what arrives, if Lua accepts it. */
  lemma ReplayAction(luaOk: string -> bool, cfg: Config, i: nat, kind: string, code: string)
    requires UniqueNames(cfg.states) && i < |cfg.states| && Plain(cfg.states[i].name)
    requires IsKind(kind) && code != ""
    ensures Exec(luaOk, cfg, Tokens(ActionLine(cfg.states[i].name, kind, code))) ==
            if luaOk(Arrived(code))
            then cfg.(states := cfg.states[i := WithAction(cfg.states[i], kind, Arrived(code))]) else cfg
  {
    hide Tokens, ActionLine, Clean, Collected, Restore;
    var name := cfg.states[i].name;
    var ts := Tokens(ActionLine(name, kind, code));
    PlainCommands();
    ActionTokens(name, kind, code);
    assert ts[0] == ts[..4][0] && ts[1] == ts[..4][1] && ts[2] == ts[..4][2] && ts[3] == ts[..4][3];
    assert ts[1..][0] == name && ts[1..][1] == kind && ts[1..][2] == ts[3];
    FindAt(cfg.states, i);
  }

  /** The code that a replay leaves. */
  function Recv(luaOk: string -> bool, code: string): string
  {
    if code != "" && luaOk(Arrived(code)) then Arrived(code) else ""
  }

  lemma ReplayActionLines(luaOk: string -> bool, cfg: Config, i: nat, kind: string, code: string)
    requires UniqueNames(cfg.states) && i < |cfg.states| && Plain(cfg.states[i].name)
    requires IsKind(kind) && WithAction(cfg.states[i], kind, "") == cfg.states[i]
    ensures Replay(luaOk, cfg, ActionLines(cfg.states[i].name, kind, code)) ==
            cfg.(states := cfg.states[i := WithAction(cfg.states[i], kind, Recv(luaOk, code))])
  {
    hide Arrived, ActionLine, Exec;
    assert cfg.states[i := cfg.states[i]] == cfg.states;
    if code != "" {
      ReplayAction(luaOk, cfg, i, kind, code);
      ReplayOne(luaOk, cfg, ActionLine(cfg.states[i].name, kind, code));
    }
  }

  lemma ReplayCreate(luaOk: string -> bool, cfg: Config, name: string)
    requires Plain(name) && !Declared(cfg.states, name)
    ensures Exec(luaOk, cfg, Tokens(JoinWords(["create_state", name]))) ==
            cfg.(states := cfg.states + [NewState(name)])
  {
    hide Tokens, JoinWords, WordText;
    var ws := ["create_state", name];
    PlainCommands();
    TokensOfWords(ws);
    assert ws[1..] == [name];
  }

  lemma ReplaySetNext(luaOk: string -> bool, cfg: Config, i: nat, next: string)
    requires UniqueNames(cfg.states) && i < |cfg.states| && Plain(cfg.states[i].name)
    requires Plain(next) && Declared(cfg.states, next)
    ensures Exec(luaOk, cfg, Tokens(JoinWords(["set_next", cfg.states[i].name, next]))) ==
            cfg.(states := cfg.states[i := cfg.states[i].(next := next)])
  {
    hide Tokens, JoinWords, WordText;
    var ws := ["set_next", cfg.states[i].name, next];
    PlainCommands();
    TokensOfWords(ws);
    assert ws[1..] == [cfg.states[i].name, next];
    FindAt(cfg.states, i);
  }

  /** A dumped event adds what its tokens say, if that names a state and a new trigger. */
  function HearOne(states: seq<State>, have: seq<Event>, ts: seq<string>): seq<Event>
  {
    if |ts| >= 4 && Declared(states, ts[3]) && !HasTrigger(have, ts[2]) then have + [Event(ts[2], ts[3])] else have
  }

  lemma EventTokens(name: string, e: Event)
    requires Plain(name)
    ensures var ts := Tokens(EventLine(name, e)); |ts| >= 2 && ts[0] == "add_event" && ts[1] == name
  {
    hide Tokens, EventLine, Led, WordText;
    var ts := Tokens(EventLine(name, e));
    PlainCommands();
    EventLineLed(name, e);
    LedTokens(["add_event", name], e.trigger + " " + e.next);
    assert ts[0] == ts[..2][0] && ts[1] == ts[..2][1];
  }

  lemma ReplayAddEvent(luaOk: string -> bool, cfg: Config, i: nat, e: Event)
    requires UniqueNames(cfg.states) && i < |cfg.states| && Plain(cfg.states[i].name)
    ensures var s, ts := cfg.states[i], Tokens(EventLine(cfg.states[i].name, e));
            Exec(luaOk, cfg, ts) == cfg.(states := cfg.states[i := s.(events := HearOne(cfg.states, s.events, ts))])
  {
    hide Tokens, EventLine, WordText;
    var name := cfg.states[i].name;
    var ts := Tokens(EventLine(name, e));
    EventTokens(name, e);
    FindAt(cfg.states, i);
    assert cfg.states[i := cfg.states[i]] == cfg.states;
    if |ts| >= 4 {
      assert ts[1..][0] == name && ts[1..][1] == ts[2] && ts[1..][2] == ts[3];
    }
  }

  lemma ReplaySetInit(luaOk: string -> bool, cfg: Config, name: string)
    requires Plain(name) && Declared(cfg.states, name)
    ensures Exec(luaOk, cfg, Tokens(JoinWords(["set_init", name]))) == cfg.(init := name)
  {
    hide Tokens, JoinWords, WordText;
    var ws := ["set_init", name];
    PlainCommands();
    TokensOfWords(ws);
    assert ws[1..] == [name];
  }

  // ----- First phase: states with their code

  /** A state as the first lines of a dump rebuild it: without its edges, with the code that arrives. */
  function Received(luaOk: string -> bool, s: State): State
  {
    s.(enter := Recv(luaOk, s.enter), exit := Recv(luaOk, s.exit), action := Recv(luaOk, s.action),
       next := "", events := [])
  }

  function ReceivedAll(luaOk: string -> bool, states: seq<State>): (r: seq<State>)
    ensures SameNames(states, r)
  {
    seq(|states|, i requires 0 <= i < |states| => Received(luaOk, states[i]))
  }

  // The action lines of the last state, which is still as `create_state` made it.
  lemma ReplayCode(luaOk: string -> bool, cfg: Config, before: seq<State>, s: State)
    requires cfg.states == before + [NewState(s.name)] && UniqueNames(cfg.states) && Plain(s.name)
    ensures Replay(luaOk, cfg, ActionLines(s.name, "enter", s.enter) + ActionLines(s.name, "exit", s.exit) +
                               ActionLines(s.name, "do", s.action)) == cfg.(states := before + [Received(luaOk, s)])
  {
    hide Replay, ActionLines, Recv;
    var i := |before|;
    var enter, exit, action :=
      ActionLines(s.name, "enter", s.enter), ActionLines(s.name, "exit", s.exit), ActionLines(s.name, "do", s.action);
    var s1 := NewState(s.name).(enter := Recv(luaOk, s.enter));
    var s2 := s1.(exit := Recv(luaOk, s.exit));
    var c1, c2 := cfg.(states := before + [s1]), cfg.(states := before + [s2]);
    ReplayActionLines(luaOk, cfg, i, "enter", s.enter);
    assert cfg.states[i := s1] == c1.states;
    ReplayActionLines(luaOk, c1, i, "exit", s.exit);
    assert c1.states[i := s2] == c2.states;
    ReplayActionLines(luaOk, c2, i, "do", s.action);
    assert c2.states[i := Received(luaOk, s)] == before + [Received(luaOk, s)];
    ReplayAppend(luaOk, cfg, enter, exit);
    ReplayAppend(luaOk, cfg, enter + exit, action);
  }

  lemma ReplayState(luaOk: string -> bool, cfg: Config, s: State)
    requires UniqueNames(cfg.states) && !Declared(cfg.states, s.name) && Plain(s.name)
    ensures Replay(luaOk, cfg, StateLines(s)) == cfg.(states := cfg.states + [Received(luaOk, s)])
  {
    hide Received;
    var create := [JoinWords(["create_state", s.name])];
    var code := ActionLines(s.name, "enter", s.enter) + ActionLines(s.name, "exit", s.exit) +
                ActionLines(s.name, "do", s.action);
    ReplayCreate(luaOk, cfg, s.name);
    ReplayOne(luaOk, cfg, create[0]);
    ReplayCode(luaOk, cfg.(states := cfg.states + [NewState(s.name)]), cfg.states, s);
    ReplayAppend(luaOk, cfg, create, code);
    assert StateLines(s) == create + code;
  }

  lemma NewName(luaOk: string -> bool, states: seq<State>, k: nat)
    requires UniqueNames(states) && k < |states|
    ensures UniqueNames(ReceivedAll(luaOk, states[..k])) && !Declared(ReceivedAll(luaOk, states[..k]), states[k].name)
  {
    SameUnique(states[..k], ReceivedAll(luaOk, states[..k]));
  }

  lemma ReplayNoStates(luaOk: string -> bool, states: seq<State>)
    ensures Replay(luaOk, CLEARED, AllStateLines(states[..0])) == Config(ReceivedAll(luaOk, states[..0]), "")
  {
  }

  lemma {:induction false} ReplayStates(luaOk: string -> bool, states: seq<State>, k: nat)
    requires UniqueNames(states) && PlainNames(states) && k <= |states|
    ensures Replay(luaOk, CLEARED, AllStateLines(states[..k])) == Config(ReceivedAll(luaOk, states[..k]), "")
  {
    hide StateLines, Received, Replay, WordText, Declared;
    if k == 0 {
      ReplayNoStates(luaOk, states);
    } else {
      var before := states[..k - 1];
      ReplayStates(luaOk, states, k - 1);
      NewName(luaOk, states, k - 1);
      AllLinesSnoc(states, k - 1);
      ReplayAppend(luaOk, CLEARED, AllStateLines(before), StateLines(states[k - 1]));
      ReplayState(luaOk, Config(ReceivedAll(luaOk, before), ""), states[k - 1]);
      assert ReceivedAll(luaOk, before) + [Received(luaOk, states[k - 1])] == ReceivedAll(luaOk, states[..k]);
    }
  }

  // ----- Second phase: edges

  /** The events that a replay leaves. */
  function Heard(states: seq<State>, name: string, events: seq<Event>): seq<Event>
  {
    if events == [] then [] else
      var k := |events| - 1;
      HearOne(states, Heard(states, name, events[..k]), Tokens(EventLine(name, events[k])))
  }

  /** A state as the whole dump rebuilds it. */
  function Rebuild(luaOk: string -> bool, states: seq<State>, s: State): State
  {
    Received(luaOk, s).(next := s.next, events := Heard(states, s.name, s.events))
  }

  /** The first `k` states are rebuilt, the others still lack their edges. */
  function Half(luaOk: string -> bool, states: seq<State>, k: nat): (r: seq<State>)
    requires k <= |states|
    ensures SameNames(states, r)
  {
    seq(|states|, i requires 0 <= i < |states| =>
      if i < k then Rebuild(luaOk, states, states[i]) else Received(luaOk, states[i]))
  }

  lemma HearSame(a: seq<State>, b: seq<State>, have: seq<Event>, ts: seq<string>)
    requires SameNames(a, b)
    ensures HearOne(a, have, ts) == HearOne(b, have, ts)
  {
    if |ts| >= 4 {
      SameDeclared(a, b, ts[3]);
    }
  }

  lemma {:induction false} ReplayEvents(luaOk: string -> bool, states: seq<State>, cur: Config, i: nat,
      events: seq<Event>)
    requires UniqueNames(states) && i < |states| && Plain(states[i].name)
    requires SameNames(states, cur.states) && cur.states[i].events == []
    ensures Replay(luaOk, cur, EventLines(states[i].name, events)) ==
            cur.(states := cur.states[i := cur.states[i].(events := Heard(states, states[i].name, events))])
    decreases |events|
  {
    hide HearOne, EventLine, Exec, Tokens;
    var name := states[i].name;
    if events == [] {
      assert cur.states[i := cur.states[i]] == cur.states;
    } else {
      var k := |events| - 1;
      ReplayEvents(luaOk, states, cur, i, events[..k]);
      var mid := cur.(states := cur.states[i := cur.states[i].(events := Heard(states, name, events[..k]))]);
      EventLinesSnoc(name, events, k);
      assert events[..k + 1] == events;
      ReplayAppend(luaOk, cur, EventLines(name, events[..k]), [EventLine(name, events[k])]);
      ReplayOne(luaOk, mid, EventLine(name, events[k]));
      SameUnique(states, mid.states);
      ReplayAddEvent(luaOk, mid, i, events[k]);
      HearSame(states, mid.states, Heard(states, name, events[..k]), Tokens(EventLine(name, events[k])));
    }
  }

  function NextLines(s: State): seq<string>
  {
    if s.next == "" then [] else [JoinWords(["set_next", s.name, s.next])]
  }

  lemma ReplayNext(luaOk: string -> bool, states: seq<State>, cur: Config, k: nat)
    requires UniqueNames(states) && PlainNames(states) && k < |states|
    requires states[k].next != "" ==> Declared(states, states[k].next)
    requires SameNames(states, cur.states) && cur.states[k].next == ""
    ensures Replay(luaOk, cur, NextLines(states[k])) ==
            cur.(states := cur.states[k := cur.states[k].(next := states[k].next)])
  {
    var s := states[k];
    if s.next != "" {
      SameUnique(states, cur.states);
      SameDeclared(states, cur.states, s.next);
      DeclaredPlain(states, s.next);
      ReplaySetNext(luaOk, cur, k, s.next);
      ReplayOne(luaOk, cur, NextLines(s)[0]);
    } else {
      assert cur.states[k := cur.states[k]] == cur.states;
    }
  }

  predicate Linked(states: seq<State>)
  {
    forall i :: 0 <= i < |states| && states[i].next != "" ==> Declared(states, states[i].next)
  }

  lemma ReplayEdges(luaOk: string -> bool, states: seq<State>, k: nat)
    requires UniqueNames(states) && PlainNames(states) && Linked(states) && k < |states|
    ensures Replay(luaOk, Config(Half(luaOk, states, k), ""), EdgeLines(states[k])) ==
            Config(Half(luaOk, states, k + 1), "")
  {
    hide Replay, EventLines, Heard, Declared;
    var s := states[k];
    var cur := Config(Half(luaOk, states, k), "");
    var linked := cur.(states := cur.states[k := Received(luaOk, s).(next := s.next)]);
    ReplayNext(luaOk, states, cur, k);
    ReplayEvents(luaOk, states, linked, k, s.events);
    ReplayAppend(luaOk, cur, NextLines(s), EventLines(s.name, s.events));
    assert linked.states[k := Rebuild(luaOk, states, s)] == Half(luaOk, states, k + 1);
  }

  lemma ReplayNoEdges(luaOk: string -> bool, states: seq<State>)
    ensures Replay(luaOk, Config(ReceivedAll(luaOk, states), ""), AllEdgeLines(states[..0])) ==
            Config(Half(luaOk, states, 0), "")
  {
    assert Half(luaOk, states, 0) == ReceivedAll(luaOk, states);
  }

  lemma {:induction false} ReplayAllEdges(luaOk: string -> bool, states: seq<State>, k: nat)
    requires UniqueNames(states) && PlainNames(states) && Linked(states) && k <= |states|
    ensures Replay(luaOk, Config(ReceivedAll(luaOk, states), ""), AllEdgeLines(states[..k])) ==
            Config(Half(luaOk, states, k), "")
  {
    hide Replay, EdgeLines, ReceivedAll, Half, Linked;
    if k == 0 {
      ReplayNoEdges(luaOk, states);
    } else {
      ReplayAllEdges(luaOk, states, k - 1);
      AllLinesSnoc(states, k - 1);
      ReplayAppend(luaOk, Config(ReceivedAll(luaOk, states), ""), AllEdgeLines(states[..k - 1]),
        EdgeLines(states[k - 1]));
      ReplayEdges(luaOk, states, k - 1);
    }
  }

  // ----- The whole dump

  function Rebuilt(luaOk: string -> bool, cfg: Config): Config
  {
    Config(Half(luaOk, cfg.states, |cfg.states|), cfg.init)
  }

  /** What a replay of the dump leaves, where all names are plain. */
  lemma DumpRebuilds(luaOk: string -> bool, cfg: Config)
    requires Sound(luaOk, cfg) && PlainNames(cfg.states)
    ensures Replay(luaOk, CLEARED, DumpLines(cfg)) == Rebuilt(luaOk, cfg)
  {
    hide Replay, AllStateLines, AllEdgeLines, Half, ReceivedAll;
    var n := |cfg.states|;
    var first, built := Config(ReceivedAll(luaOk, cfg.states), ""), Config(Half(luaOk, cfg.states, n), "");
    var body := AllStateLines(cfg.states) + AllEdgeLines(cfg.states);
    assert cfg.states[..n] == cfg.states;
    SoundLinked(luaOk, cfg);
    ReplayStates(luaOk, cfg.states, n);
    ReplayAllEdges(luaOk, cfg.states, n);
    ReplayAppend(luaOk, CLEARED, AllStateLines(cfg.states), AllEdgeLines(cfg.states));
    assert Replay(luaOk, CLEARED, body) == built;
    if cfg.init != "" {
      var last := JoinWords(["set_init", cfg.init]);
      DeclaredPlain(cfg.states, cfg.init);
      SameDeclared(cfg.states, built.states, cfg.init);
      ReplaySetInit(luaOk, built, cfg.init);
      ReplayOne(luaOk, built, last);
      ReplayAppend(luaOk, CLEARED, body, [last]);
    } else {
      assert body + [] == body;
    }
  }

  lemma SoundLinked(luaOk: string -> bool, cfg: Config)
    requires Sound(luaOk, cfg)
    ensures Linked(cfg.states)
  {
    forall i | 0 <= i < |cfg.states| && cfg.states[i].next != ""
      ensures Declared(cfg.states, cfg.states[i].next)
    {
      assert StateSound(luaOk, cfg.states, cfg.states[i]);
    }
  }
}
