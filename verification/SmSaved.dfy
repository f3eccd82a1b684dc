/** The saved file: for each menu its name, the indented text of its dump, and the way back. */
module SmSaved {
  import opened Tokenizer
  import opened ActionText
  import opened SmConfig
  import opened SmSession
  import opened SmReplay
  import opened SmExact
  import opened SmEdits

  /** Text after the last newline, which a `getline` loop over a string also delivers. */
  function LastLine(text: string, cur: string): seq<string>
    decreases |text|
  {
    if text == "" then if cur == "" then [] else [cur]
    else LastLine(text[1..], if text[0] == '\n' then "" else cur + [text[0]])
  }

  lemma {:induction false} LinesFromOne(line: string, cur: string, rest: string)
    requires OneLiner(line)
    ensures LinesFrom(line + "\n" + rest, cur) == [cur + line] + LinesFrom(rest, "")
    ensures LastLine(line + "\n" + rest, cur) == LastLine(rest, "")
    decreases |line|
  {
    if line == "" {
      assert line + "\n" + rest == "\n" + rest && ("\n" + rest)[1..] == rest && cur + line == cur;
    } else {
      assert (line + "\n" + rest)[1..] == line[1..] + "\n" + rest;
      LinesFromOne(line[1..], cur + [line[0]], rest);
      assert cur + [line[0]] + line[1..] == cur + line;
    }
  }

  lemma {:induction false} LinesInvertUnlines(lines: seq<string>)
    requires forall i :: 0 <= i < |lines| ==> OneLiner(lines[i])
    ensures Lines(Unlines(lines)) == lines && LastLine(Unlines(lines), "") == []
  {
    if lines != [] {
      LinesInvertUnlines(lines[1..]);
      LinesFromOne(lines[0], "", Unlines(lines[1..]));
      assert "" + lines[0] == lines[0];
    }
  }

  /** `insert_spaces` indents every line by two spaces. */
  function Indent(lines: seq<string>): (r: seq<string>)
    ensures |r| == |lines| && forall i :: 0 <= i < |lines| ==> r[i] == "  " + lines[i]
  {
    seq(|lines|, i requires 0 <= i < |lines| => "  " + lines[i])
  }

  method InsertSpaces(str: string) returns (result: string)
    ensures result == Unlines(Indent(Lines(str) + LastLine(str, "")))
  {
    result := "";
    var line := "";
    ghost var done: seq<string> := [];
    assert str[0..] == str && Indent([]) == [];
    for i := 0 to |str|
      invariant Lines(str) == done + LinesFrom(str[i..], line)
      invariant LastLine(str, "") == LastLine(str[i..], line)
      invariant result == Unlines(Indent(done))
    {
      assert str[i..][1..] == str[i + 1..];
      if str[i] == '\n' {
        result, done := IndentLine(result, done, line);
        line := "";
      } else {
        line := line + [str[i]];
      }
    }
    assert done + [] == done;
    if line != "" {
      result, done := IndentLine(result, done, line);
    }
  }

  method IndentLine(before: string, ghost done: seq<string>, line: string)
    returns (result: string, ghost done': seq<string>)
    requires before == Unlines(Indent(done))
    ensures done' == done + [line] && result == Unlines(Indent(done'))
    ensures forall more: seq<string> :: done + ([line] + more) == done' + more
  {
    result := SmConfigCli.AppendLine(before, "  " + line, Indent(done));
    done' := done + [line];
    assert Indent(done) + ["  " + line] == Indent(done');
  }

  /** The lines of a text, the last one included if it has no newline. */
  function TextLines(text: string): seq<string> { Lines(text) + LastLine(text, "") }

  /** The text behind the last line that has a newline. */
  function Tail(text: string, cur: string): string
  {
    var last := LastLine(text, cur);
    if last == [] then "" else last[|last| - 1]
  }

  lemma LinesStep(text: string, cur: string)
    requires text != ""
    ensures var next := if text[0] == '\n' then "" else cur + [text[0]];
            Tail(text, cur) == Tail(text[1..], next) && |LastLine(text, cur)| == |LastLine(text[1..], next)| &&
            LinesFrom(text, cur) == (if text[0] == '\n' then [cur] else []) + LinesFrom(text[1..], next)
  {
  }

  /** The lines, each with its newline, and the text behind the last of them are the text again. */
  lemma {:induction false} LinesJoin(text: string, cur: string)
    ensures Unlines(LinesFrom(text, cur)) + Tail(text, cur) == cur + text
    ensures |LastLine(text, cur)| <= 1
    decreases |text|
  {
    hide LinesFrom, LastLine, Unlines, Tail;
    if text == "" {
      NothingLeft(cur);
    } else {
      LinesStep(text, cur);
      var rest := text[1..];
      assert text == [text[0]] + rest;
      if text[0] == '\n' {
        LinesJoin(rest, "");
        FirstLine(cur, LinesFrom(rest, ""), Tail(rest, ""), rest);
      } else {
        LinesJoin(rest, cur + [text[0]]);
        assert cur + [text[0]] + rest == cur + text;
        assert [] + LinesFrom(rest, cur + [text[0]]) == LinesFrom(rest, cur + [text[0]]);
      }
    }
  }

  lemma NothingLeft(cur: string)
    ensures Unlines(LinesFrom("", cur)) + Tail("", cur) == cur + "" && |LastLine("", cur)| <= 1
  {
  }

  lemma FirstLine(line: string, more: seq<string>, tail: string, rest: string)
    requires Unlines(more) + tail == "" + rest
    ensures Unlines([line] + more) + tail == line + (['\n'] + rest)
  {
    assert ([line] + more)[1..] == more;
    assert line + "\n" + Unlines(more) + tail == line + ("\n" + (Unlines(more) + tail));
  }

  /** The lines of the saved file for a menu: its name, its dump, and the way back. */
  function Section(name: string, lines: seq<string>): seq<string>
  {
    [name] + Indent(lines) + [ROOT_MENU]
  }

  /** The saved file, with the dumps of all four menus. */
  function File(device: seq<string>, machine: seq<string>, runtime: seq<string>, redis: seq<string>): seq<string>
  {
    Section("device", device) + Section(MACHINE_MENU, machine) + Section("runtime", runtime) + Section("redis", redis)
  }

  /** The order of the saved file: each of the four menus is entered by its name and left by that of the root. */
  lemma FileLines(device: seq<string>, machine: seq<string>, runtime: seq<string>, redis: seq<string>)
    ensures File(device, machine, runtime, redis) ==
            ["device"] + Indent(device) + ["ad", "state_machine"] + Indent(machine) + ["ad", "runtime"] +
            Indent(runtime) + ["ad", "redis"] + Indent(redis) + ["ad"]
  {
    hide Indent;
    var a, b, c, d := Indent(device), Indent(machine), Indent(runtime), Indent(redis);
    assert ["ad"] + ["state_machine"] == ["ad", "state_machine"] && ["ad"] + ["runtime"] == ["ad", "runtime"];
    assert ["ad"] + ["redis"] == ["ad", "redis"];
    assert Section("device", device) + Section(MACHINE_MENU, machine) ==
           ["device"] + a + ["ad", "state_machine"] + b + ["ad"];
    assert Section("runtime", runtime) + Section("redis", redis) == ["runtime"] + c + ["ad", "redis"] + d + ["ad"];
  }

  /** Only a text without a newline at its end gets one. */
  lemma TextLinesJoin(text: string)
    ensures Unlines(TextLines(text)) == text + if Tail(text, "") == "" then "" else "\n"
  {
    LinesJoin(text, "");
    assert "" + text == text;
    UnlinesAppend(Lines(text), LastLine(text, ""));
    TailLine(text, "");
    hide Unlines, LastLine, Tail, LinesFrom;
  }

  lemma {:induction false} TailLine(text: string, cur: string)
    ensures Unlines(LastLine(text, cur)) == Tail(text, cur) + if Tail(text, cur) == "" then "" else "\n"
    decreases |text|
  {
    if text != "" {
      LinesStep(text, cur);
      TailLine(text[1..], if text[0] == '\n' then "" else cur + [text[0]]);
    } else if cur != "" {
      assert [cur][1..] == [] && cur + "\n" + "" == cur + "\n";
    }
  }

  lemma SectionText(name: string, lines: seq<string>)
    ensures Unlines(Section(name, lines)) == name + "\n" + Unlines(Indent(lines)) + ROOT_MENU + "\n"
  {
    UnlinesAppend([name], Indent(lines));
    UnlinesAppend([name] + Indent(lines), [ROOT_MENU]);
    OneLine(name);
    OneLine(ROOT_MENU);
  }

  // One turn of the loop over the menus.
  method SaveMenu(before: string, name: string, bdr: string, ghost done: seq<string>) returns (script: string)
    requires before == Unlines(done)
    ensures script == Unlines(done + Section(name, TextLines(bdr)))
  {
    var indented := InsertSpaces(bdr);
    script := before + (name + "\n" + indented + ROOT_MENU + "\n");
    SectionText(name, TextLines(bdr));
    UnlinesAppend(done, Section(name, TextLines(bdr)));
  }

  method Save(cli: SmConfigCli, device: string, runtime: string, redis: string) returns (script: string)
    ensures script ==
            Unlines(File(TextLines(device), TextLines(Unlines(DumpLines(cli.config))), TextLines(runtime),
                         TextLines(redis)))
  {
    hide Unlines, TextLines, Section;
    NothingSaved();
    var bdr := cli.MakeBdr();
    ghost var a, b := Section("device", TextLines(device)), Section(MACHINE_MENU, TextLines(bdr));
    ghost var c := Section("runtime", TextLines(runtime));
    script := SaveMenu("", "device", device, []);
    assert [] + a == a;
    script := SaveMenu(script, MACHINE_MENU, bdr, a);
    script := SaveMenu(script, "runtime", runtime, a + b);
    script := SaveMenu(script, "redis", redis, a + b + c);
  }

  lemma NothingSaved()
    ensures Unlines([]) == ""
  {
  }

  // ----- Running the saved file

  /** A line of the dump of another menu: whatever does not lead out of that menu. */
  predicate Foreign(line: string)
  {
    OneLiner(line) && Tokens(line) != ["exit"] && (Tokens(line) == [] || Tokens(line)[0] != "ad")
  }

  predicate AllForeign(lines: seq<string>) { forall i :: 0 <= i < |lines| ==> Foreign(lines[i]) }

  /** A line of the dump of the state machine. */
  predicate Dumped(line: string)
  {
    var ts := Tokens(line);
    ts != [] && ts[0] in {"create_state", "input_action", "set_next", "add_event", "set_init"}
  }

  lemma {:induction false} ForeignRuns(luaOk: string -> bool, cfg: Config, lines: seq<string>, editor: nat -> string,
      k: nat)
    requires AllForeign(lines)
    ensures var s := Session(Elsewhere, cfg, false); RunLines(luaOk, s, Indent(lines), editor, k) == s
    decreases |lines|
  {
    hide Tokens, MenuExec;
    if lines != [] {
      assert Indent(lines)[1..] == Indent(lines[1..]);
      TokensIndented("  ", lines[0]);
      assert Foreign(lines[0]);
      ForeignRuns(luaOk, cfg, lines[1..], editor, k + 1);
    }
  }

  lemma {:induction false} DumpedRuns(luaOk: string -> bool, cfg: Config, lines: seq<string>, editor: nat -> string,
      k: nat)
    requires forall i :: 0 <= i < |lines| ==> Dumped(lines[i])
    ensures RunLines(luaOk, Session(Machine, cfg, false), Indent(lines), editor, k) ==
            Session(Machine, Replay(luaOk, cfg, lines), false)
    decreases |lines|
  {
    hide Tokens, Exec;
    if lines != [] {
      assert Indent(lines)[1..] == Indent(lines[1..]);
      TokensIndented("  ", lines[0]);
      assert Dumped(lines[0]);
      DumpedRuns(luaOk, Exec(luaOk, cfg, Tokens(lines[0])), lines[1..], editor, k + 1);
    }
  }

  lemma OneWordTokens(w: string)
    requires w != "" && forall i :: 0 <= i < |w| ==> PlainChar(w[i])
    ensures Tokens(w) == [w]
  {
    hide Tokens, WordText, PlainChar;
    PlainCharsText(w);
    TokensOfWords([w]);
  }

  lemma MenuNames()
    ensures Tokens(MACHINE_MENU) == [MACHINE_MENU] && Tokens(ROOT_MENU) == [ROOT_MENU]
    ensures Tokens("device") == ["device"] && Tokens("runtime") == ["runtime"] && Tokens("redis") == ["redis"]
  {
    hide Tokens;
    OneWordTokens(MACHINE_MENU);
    OneWordTokens(ROOT_MENU);
    OneWordTokens("device");
    OneWordTokens("runtime");
    OneWordTokens("redis");
  }

  lemma RunOneLine(luaOk: string -> bool, s: Session, line: string, editor: nat -> string, k: nat)
    ensures RunLines(luaOk, s, [line], editor, k) == Feed(luaOk, s, Tokens(line), editor(k))
  {
    hide Feed, Tokens;
    assert [line][1..] == [];
  }

  /** A section is run in its menu, and ends where it began. */
  lemma SectionRuns(luaOk: string -> bool, cfg: Config, name: string, lines: seq<string>, editor: nat -> string, k: nat)
    requires name == MACHINE_MENU || (name in OTHER_MENUS && AllForeign(lines))
    requires name == MACHINE_MENU ==> forall i :: 0 <= i < |lines| ==> Dumped(lines[i])
    ensures RunLines(luaOk, Session(Root, cfg, false), Section(name, lines), editor, k) ==
            Session(Root, if name == MACHINE_MENU then Replay(luaOk, cfg, lines) else cfg, false)
  {
    hide Tokens, RunLines, Replay, MenuExec, AllForeign, Dumped;
    var s := Session(Root, cfg, false);
    MenuNames();
    RunOneLine(luaOk, s, name, editor, k);
    RunLinesAppend(luaOk, s, [name], Indent(lines), editor, k);
    if name == MACHINE_MENU {
      DumpedRuns(luaOk, cfg, lines, editor, k + 1);
    } else {
      ForeignRuns(luaOk, cfg, lines, editor, k + 1);
    }
    var t := RunLines(luaOk, s, [name] + Indent(lines), editor, k);
    RunLinesAppend(luaOk, s, [name] + Indent(lines), [ROOT_MENU], editor, k);
    RunOneLine(luaOk, t, ROOT_MENU, editor, k + 1 + |lines|);
  }

  /** Running the whole file does to the configuration what running the dump in its menu does. */
  lemma FileRuns(luaOk: string -> bool, cfg: Config, device: seq<string>, machine: seq<string>, runtime: seq<string>,
      redis: seq<string>, editor: nat -> string)
    requires AllForeign(device) && AllForeign(runtime) && AllForeign(redis)
    requires forall i :: 0 <= i < |machine| ==> Dumped(machine[i])
    ensures RunLines(luaOk, Session(Root, cfg, false), File(device, machine, runtime, redis), editor, 0) ==
            Session(Root, Replay(luaOk, cfg, machine), false)
  {
    hide RunLines, Replay, Section, AllForeign, Dumped;
    var s, after := Session(Root, cfg, false), Replay(luaOk, cfg, machine);
    var a, b := Section("device", device), Section(MACHINE_MENU, machine);
    var c, d := Section("runtime", runtime), Section("redis", redis);
    RunLinesAppend(luaOk, s, a, b, editor, 0);
    RunLinesAppend(luaOk, s, a + b, c, editor, 0);
    RunLinesAppend(luaOk, s, a + b + c, d, editor, 0);
    SectionRuns(luaOk, cfg, "device", device, editor, 0);
    SectionRuns(luaOk, cfg, MACHINE_MENU, machine, editor, |a|);
    SectionRuns(luaOk, after, "runtime", runtime, editor, |a + b|);
    SectionRuns(luaOk, after, "redis", redis, editor, |a + b + c|);
  }

  lemma {:induction false} AllStateLinesDumped(states: seq<State>)
    ensures forall i :: 0 <= i < |AllStateLines(states)| ==> Dumped(AllStateLines(states)[i])
  {
    hide Dumped, StateLines;
    if states != [] {
      StateLinesDumped(states[0]);
      AllStateLinesDumped(states[1..]);
    }
  }

  lemma OtherDumped(lines: seq<string>)
    requires forall i :: 0 <= i < |lines| ==> Other(lines[i])
    ensures forall i :: 0 <= i < |lines| ==> Dumped(lines[i])
  {
    hide Tokens;
    forall i | 0 <= i < |lines|
      ensures Dumped(lines[i])
    {
      assert Other(lines[i]);
    }
  }

  lemma StateLinesDumped(s: State)
    ensures forall i :: 0 <= i < |StateLines(s)| ==> Dumped(StateLines(s)[i])
  {
    hide Tokens, ActionLines, JoinWords;
    CreateLineTokens(s.name);
    ActionLinesOther(s.name, "enter", s.enter);
    ActionLinesOther(s.name, "exit", s.exit);
    ActionLinesOther(s.name, "do", s.action);
    OtherDumped(ActionLines(s.name, "enter", s.enter));
    OtherDumped(ActionLines(s.name, "exit", s.exit));
    OtherDumped(ActionLines(s.name, "do", s.action));
  }

  /** Every line of a dump is a command of the menu, whatever the names are. */
  lemma DumpDumped(cfg: Config)
    ensures forall i :: 0 <= i < |DumpLines(cfg)| ==> Dumped(DumpLines(cfg)[i])
  {
    hide Dumped, AllStateLines, AllEdgeLines, InitLines;
    AllStateLinesDumped(cfg.states);
    AllEdgeLinesOther(cfg.states);
    InitLinesOther(cfg);
    OtherDumped(AllEdgeLines(cfg.states));
    OtherDumped(InitLines(cfg));
  }

  // ----- The dump has no line with a newline of its own

  lemma {:induction false} RewriteOneLiner(code: string)
    ensures OneLiner(Rewrite(code))
  {
    if code != "" {
      RewriteOneLiner(code[1..]);
    }
  }

  lemma {:induction false} WordsOneLiner(ws: seq<string>)
    requires forall i :: 0 <= i < |ws| ==> OneLiner(ws[i])
    ensures OneLiner(JoinWords(ws))
  {
    if |ws| > 1 {
      WordsOneLiner(ws[1..]);
    }
  }

  lemma ActionOneLiners(name: string, kind: string, code: string)
    requires OneLiner(name) && OneLiner(kind)
    ensures OneLiners(ActionLines(name, kind, code))
  {
    RewriteOneLiner(code);
    WordsOneLiner(["input_action", name, kind, ""]);
  }

  lemma {:induction false} EventOneLiners(name: string, events: seq<Event>)
    requires OneLiner(name)
    requires forall k :: 0 <= k < |events| ==> OneLiner(events[k].trigger) && OneLiner(events[k].next)
    ensures OneLiners(EventLines(name, events))
  {
    if events != [] {
      WordsOneLiner(["add_event", name, events[0].trigger, events[0].next]);
      EventOneLiners(name, events[1..]);
    }
  }

  lemma DeclaredOneLiner(luaOk: string -> bool, cfg: Config, name: string)
    requires Sound(luaOk, cfg) && Declared(cfg.states, name)
    ensures OneLiner(name)
  {
    var i := Find(cfg.states, name).value;
    assert StateSound(luaOk, cfg.states, cfg.states[i]);
  }

  lemma StateOneLiners(luaOk: string -> bool, cfg: Config, i: nat)
    requires Sound(luaOk, cfg) && i < |cfg.states|
    ensures OneLiners(StateLines(cfg.states[i])) && OneLiners(EdgeLines(cfg.states[i]))
  {
    hide OneLiner, JoinWords, Find;
    var s := cfg.states[i];
    assert StateSound(luaOk, cfg.states, s);
    Commands();
    WordsOneLiner(["create_state", s.name]);
    ActionOneLiners(s.name, "enter", s.enter);
    ActionOneLiners(s.name, "exit", s.exit);
    ActionOneLiners(s.name, "do", s.action);
    if s.next != "" {
      DeclaredOneLiner(luaOk, cfg, s.next);
      WordsOneLiner(["set_next", s.name, s.next]);
    }
    forall k | 0 <= k < |s.events|
      ensures OneLiner(s.events[k].trigger) && OneLiner(s.events[k].next)
    {
      assert EventSound(cfg.states, s.events[k]);
      DeclaredOneLiner(luaOk, cfg, s.events[k].next);
    }
    EventOneLiners(s.name, s.events);
  }

  lemma Commands()
    ensures OneLiner("create_state") && OneLiner("set_next") && OneLiner("set_init") && OneLiner("enter")
    ensures OneLiner("exit") && OneLiner("do")
  {
  }

  lemma {:induction false} AllOneLiners(luaOk: string -> bool, cfg: Config, k: nat)
    requires Sound(luaOk, cfg) && k <= |cfg.states|
    ensures OneLiners(AllStateLines(cfg.states[..k])) && OneLiners(AllEdgeLines(cfg.states[..k]))
  {
    hide StateLines, EdgeLines, OneLiner, Sound;
    if k > 0 {
      AllOneLiners(luaOk, cfg, k - 1);
      AllLinesSnoc(cfg.states, k - 1);
      StateOneLiners(luaOk, cfg, k - 1);
    }
  }

  lemma DumpOneLiners(luaOk: string -> bool, cfg: Config)
    requires Sound(luaOk, cfg)
    ensures OneLiners(DumpLines(cfg))
  {
    hide OneLiner, JoinWords, AllStateLines, AllEdgeLines;
    AllOneLiners(luaOk, cfg, |cfg.states|);
    assert cfg.states[..|cfg.states|] == cfg.states;
    if cfg.init != "" {
      Commands();
      DeclaredOneLiner(luaOk, cfg, cfg.init);
      WordsOneLiner(["set_init", cfg.init]);
    }
  }

  lemma {:induction false} LinesAreOne(text: string, cur: string)
    requires OneLiner(cur)
    ensures OneLiners(LinesFrom(text, cur)) && OneLiners(LastLine(text, cur))
    decreases |text|
  {
    if text != "" {
      if text[0] == '\n' {
        LinesAreOne(text[1..], "");
      } else {
        LinesAreOne(text[1..], cur + [text[0]]);
      }
    }
  }

  lemma SectionOneLiners(name: string, lines: seq<string>)
    requires OneLiner(name) && OneLiners(lines)
    ensures OneLiners(Section(name, lines))
  {
  }

  lemma FileOneLiners(device: seq<string>, machine: seq<string>, runtime: seq<string>, redis: seq<string>)
    requires AllForeign(device) && OneLiners(machine) && AllForeign(runtime) && AllForeign(redis)
    ensures OneLiners(File(device, machine, runtime, redis))
  {
    hide Tokens, Section;
    assert OneLiners(device) && OneLiners(runtime) && OneLiners(redis) by {
      forall i | 0 <= i < |device| ensures OneLiner(device[i]) { assert Foreign(device[i]); }
      forall i | 0 <= i < |runtime| ensures OneLiner(runtime[i]) { assert Foreign(runtime[i]); }
      forall i | 0 <= i < |redis| ensures OneLiner(redis[i]) { assert Foreign(redis[i]); }
    }
    SectionOneLiners("device", device);
    SectionOneLiners(MACHINE_MENU, machine);
    SectionOneLiners("runtime", runtime);
    SectionOneLiners("redis", redis);
  }

  // ----- The laws

  /** What a session makes of the text of a saved file that it reads from the start, with the given dump. */
  function Reloaded(luaOk: string -> bool, device: seq<string>, machine: seq<string>, runtime: seq<string>,
      redis: seq<string>, editor: nat -> string): Session
  {
    RunLines(luaOk, START, Lines(Unlines(File(device, machine, runtime, redis))), editor, 0)
  }

  /** For every configuration that commands can build, and whatever the other menus have dumped: running the
      text of the saved file rebuilds it from a cleared one if and only if its names and triggers are plain
      and its code is clean. The session ends where it began. */
  lemma SavedFileReplaysIff(luaOk: string -> bool, cfg: Config, device: seq<string>, runtime: seq<string>,
      redis: seq<string>, editor: nat -> string)
    requires Sound(luaOk, cfg) && AllForeign(device) && AllForeign(runtime) && AllForeign(redis)
    ensures var s := Reloaded(luaOk, device, DumpLines(cfg), runtime, redis, editor);
            s.at == Root && !s.closed && (s.config == cfg <==> WellFormed(luaOk, cfg))
  {
    hide Replay, Unlines, Lines, DumpLines, WellFormed, File, AllForeign;
    DumpOneLiners(luaOk, cfg);
    DumpDumped(cfg);
    FileOneLiners(device, DumpLines(cfg), runtime, redis);
    LinesInvertUnlines(File(device, DumpLines(cfg), runtime, redis));
    FileRuns(luaOk, CLEARED, device, DumpLines(cfg), runtime, redis, editor);
    DumpReplaysIff(luaOk, cfg);
  }

  lemma DumpTextLines(luaOk: string -> bool, cfg: Config)
    requires Sound(luaOk, cfg)
    ensures TextLines(Unlines(DumpLines(cfg))) == DumpLines(cfg)
  {
    hide DumpLines, Unlines, Lines, LastLine;
    DumpOneLiners(luaOk, cfg);
    LinesInvertUnlines(DumpLines(cfg));
    assert DumpLines(cfg) + [] == DumpLines(cfg);
  }

  /** Saving, clearing and running the saved file leaves the configuration as it was if and only if it is well
      formed. */
  method SaveClearRun(cli: SmConfigCli, device: string, runtime: string, redis: string, editor: nat -> string)
    requires Sound(cli.luaOk, cli.config)
    requires AllForeign(TextLines(device)) && AllForeign(TextLines(runtime)) && AllForeign(TextLines(redis))
    modifies cli
    ensures cli.config == old(cli.config) <==> WellFormed(cli.luaOk, old(cli.config))
  {
    hide Sound, WellFormed, AllForeign, TextLines, DumpLines, Unlines, Lines, File, RunLines;
    DumpTextLines(cli.luaOk, cli.config);
    SavedFileReplaysIff(cli.luaOk, cli.config, TextLines(device), TextLines(runtime), TextLines(redis), editor);
    var script := Save(cli, device, runtime, redis);
    cli.Clear();
    var session := new CliSession(cli);
    session.Start(script, editor);
  }

  /** Whatever any session builds, from any text and with any use of the editor: the file that it saves
      rebuilds it if and only if its names and triggers are plain and its code is clean. */
  lemma EditedConfigReplaysIff(luaOk: string -> bool, text: string, editor: nat -> string, device: seq<string>,
      runtime: seq<string>, redis: seq<string>)
    requires AllForeign(device) && AllForeign(runtime) && AllForeign(redis)
    ensures var cfg := RunLines(luaOk, START, Lines(text), editor, 0).config;
            Reloaded(luaOk, device, DumpLines(cfg), runtime, redis, editor).config == cfg <==> WellFormed(luaOk, cfg)
  {
    hide RunLines, Reloaded, DumpLines, WellFormed, AllForeign;
    LinesAreOne(text, "");
    ClearedSound(luaOk);
    SessionSound(luaOk, START, Lines(text), editor, 0);
    var cfg := RunLines(luaOk, START, Lines(text), editor, 0).config;
    SavedFileReplaysIff(luaOk, cfg, device, runtime, redis, editor);
  }
}
