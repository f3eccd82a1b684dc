/** A session of the command line: its menus, and the lines that it reads from a file. */
module SmSession {
  import opened Tokenizer
  import opened SmConfig

  /** The menu that the session is in; the menus of the other parts of the configuration are all alike here. */
  datatype Place = Root | Machine | Elsewhere

  datatype Session = Session(at: Place, config: Config, closed: bool)

  const START := Session(Root, CLEARED, false)

  const ROOT_MENU := "ad"
  const MACHINE_MENU := "state_machine"
  const OTHER_MENUS := {"device", "runtime", "redis"}

  /** What a line means: nothing to the state machine, another menu, a command of its menu, or the end. */
  datatype Route = Stay | GoTo(place: Place) | Command(line: seq<string>) | Leave

  /** The commands of the root menu, where the name of a menu may lead a command of it. */
  function FromRoot(line: seq<string>): (r: Route)
    requires line != []
    ensures r.Command? ==> r.line != []
  {
    if line[0] == MACHINE_MENU then if |line| == 1 then GoTo(Machine) else Command(line[1..])
    else if line[0] in OTHER_MENUS then if |line| == 1 then GoTo(Elsewhere) else Stay
    else if line == ["clear"] then Command(["clear"])
    else Stay
  }

  /** A menu looks at its own commands and then at its parent; `exit` works everywhere. */
  function RouteOf(at: Place, line: seq<string>): (r: Route)
    requires line != []
    ensures r.Command? ==> r.line != []
  {
    if line == ["exit"] then Leave
    else if at.Root? then FromRoot(line)
    else if line[0] == ROOT_MENU then if |line| == 1 then GoTo(Root) else FromRoot(line[1..])
    else if at.Machine? then Command(line)
    else Stay
  }

  function Take(luaOk: string -> bool, s: Session, route: Route, edited: string): Session
  {
    match route
    case Stay => s
    case GoTo(place) => s.(at := place)
    case Command(line) => s.(config := MenuExec(luaOk, s.config, line, edited))
    case Leave => s.(closed := true)
  }

  /** `CliSession::Feed` on a tokenized line; `edited` is what an editor leaves that the line starts. */
  function Feed(luaOk: string -> bool, s: Session, line: seq<string>, edited: string): Session
  {
    if s.closed || line == [] then s else Take(luaOk, s, RouteOf(s.at, line), edited)
  }

  /** Where the names of menus lead, and what ends a session. */
  lemma Menus(luaOk: string -> bool, s: Session, edited: string)
    requires !s.closed
    ensures Feed(luaOk, s, ["exit"], edited) == Session(s.at, s.config, true)
    ensures s.at == Root ==>
              Feed(luaOk, s, ["state_machine"], edited) == Session(Machine, s.config, false) &&
              Feed(luaOk, s, ["device"], edited) == Session(Elsewhere, s.config, false) &&
              Feed(luaOk, s, ["runtime"], edited) == Session(Elsewhere, s.config, false) &&
              Feed(luaOk, s, ["redis"], edited) == Session(Elsewhere, s.config, false) &&
              Feed(luaOk, s, ["clear"], edited) == Session(Root, CLEARED, false)
    ensures s.at != Root ==> Feed(luaOk, s, ["ad"], edited) == Session(Root, s.config, false)
    ensures s.at == Machine ==> Feed(luaOk, s, ["clear"], edited) == Session(Machine, CLEARED, false)
    ensures s.at == Elsewhere ==> Feed(luaOk, s, ["clear"], edited) == s
  {
  }

  /** A command of the state machine can be given in its menu, from the root menu behind the name of the menu, and
      from every other menu behind the names of both; the session stays where it is. Without these names it means
      nothing outside the menu. */
  lemma QualifiedCommand(luaOk: string -> bool, s: Session, line: seq<string>, edited: string)
    requires !s.closed && line != [] && line[0] != "ad" && line != ["exit"]
    requires line[0] != "state_machine" && line != ["clear"]
    ensures var done := s.(config := MenuExec(luaOk, s.config, line, edited));
            (s.at == Machine ==> Feed(luaOk, s, line, edited) == done) &&
            (s.at == Root ==> Feed(luaOk, s, ["state_machine"] + line, edited) == done) &&
            (s.at != Root ==> Feed(luaOk, s, ["ad", "state_machine"] + line, edited) == done)
    ensures s.at == Elsewhere ==> Feed(luaOk, s, line, edited) == s
    ensures s.at == Root ==> Feed(luaOk, s, line, edited).config == s.config
    ensures !Feed(luaOk, s, line, edited).closed && !Feed(luaOk, s, ["ad"] + line, edited).closed
  {
    assert (["state_machine"] + line)[1..] == line;
    assert (["ad"] + line)[1..] == line;
    assert (["ad", "state_machine"] + line)[1..] == ["state_machine"] + line;
  }

  /** The lines of a file, numbered from `k`; `editor` gives what an editor leaves that a line starts. */
  function RunLines(luaOk: string -> bool, s: Session, lines: seq<string>, editor: nat -> string, k: nat): Session
    decreases |lines|
  {
    if lines == [] then s
    else RunLines(luaOk, Feed(luaOk, s, Tokens(lines[0]), editor(k)), lines[1..], editor, k + 1)
  }

  lemma {:induction false} ClosedStays(luaOk: string -> bool, s: Session, lines: seq<string>, editor: nat -> string,
      k: nat)
    requires s.closed
    ensures RunLines(luaOk, s, lines, editor, k) == s
    decreases |lines|
  {
    if lines != [] {
      ClosedStays(luaOk, s, lines[1..], editor, k + 1);
    }
  }

  lemma {:induction false} RunLinesAppend(luaOk: string -> bool, s: Session, a: seq<string>, b: seq<string>,
      editor: nat -> string, k: nat)
    ensures RunLines(luaOk, s, a + b, editor, k) ==
            RunLines(luaOk, RunLines(luaOk, s, a, editor, k), b, editor, k + |a|)
    decreases |a|
  {
    hide Feed, Tokens;
    if a == [] {
      assert a + b == b;
    } else {
      assert (a + b)[0] == a[0] && (a + b)[1..] == a[1..] + b;
      RunLinesAppend(luaOk, Feed(luaOk, s, Tokens(a[0]), editor(k)), a[1..], b, editor, k + 1);
    }
  }

  class CliSession {
    const cli: SmConfigCli
    var current: Place
    var exit: bool

    constructor (cli: SmConfigCli)
      ensures this.cli == cli && State() == Session(Root, cli.config, false)
    {
      this.cli, current, exit := cli, Root, false;
    }

    ghost function State(): Session
      reads this, cli
    {
      Session(current, cli.config, exit)
    }

    method FeedLine(cmd: string, edited: string)
      requires !exit
      modifies this, cli
      ensures State() == Feed(cli.luaOk, old(State()), Tokens(cmd), edited)
    {
      var text := new Text(cmd);
      var strs := text.SplitInto();
      if strs == [] {
        return;
      }
      if strs == ["exit"] {
        exit := true;
        return;
      }
      ScanCmds(strs, edited);
    }

    // The commands of the current menu, and then the parent under its own name.
    method ScanCmds(line: seq<string>, edited: string)
      requires line != [] && line != ["exit"]
      modifies this, cli
      ensures State() == Take(cli.luaOk, old(State()), RouteOf(old(current), line), edited)
    {
      match current
      case Root => RootCmds(line, edited);
      case Machine =>
        var found := cli.Execute(line, edited);
        if !found {
          ParentExec(line, edited);
        }
      case Elsewhere => ParentExec(line, edited);
    }

    method ParentExec(line: seq<string>, edited: string)
      requires line != []
      modifies this, cli
      ensures State() == if line[0] != ROOT_MENU then old(State()) else if |line| == 1 then old(State()).(at := Root)
                         else Take(cli.luaOk, old(State()), FromRoot(line[1..]), edited)
    {
      if line[0] == ROOT_MENU {
        if |line| == 1 {
          current := Root;
        } else {
          RootCmds(line[1..], edited);
        }
      }
    }

    method RootCmds(line: seq<string>, edited: string)
      requires line != []
      modifies this, cli
      ensures State() == Take(cli.luaOk, old(State()), FromRoot(line), edited)
    {
      if line[0] == MACHINE_MENU {
        if |line| == 1 {
          current := Machine;
        } else {
          var _ := cli.Execute(line[1..], edited);
        }
      } else if line[0] in OTHER_MENUS {
        if |line| == 1 {
          current := Elsewhere;
        }
      } else if line == ["clear"] {
        cli.Clear();
      }
    }

    /** `CliFileSession::Start` on a file; the session is over at its end. */
    method Start(file: string, editor: nat -> string)
      requires !exit
      modifies this, cli
      ensures State() == RunLines(cli.luaOk, old(State()), Lines(file), editor, 0).(closed := true)
    {
      hide Feed, Tokens;
      var line, i, k := "", 0, 0;
      assert file[0..] == file;
      while i < |file| && !exit
        invariant 0 <= i <= |file|
        invariant RunLines(cli.luaOk, old(State()), Lines(file), editor, 0) ==
                  RunLines(cli.luaOk, State(), LinesFrom(file[i..], line), editor, k)
        decreases |file| - i
      {
        assert file[i..][1..] == file[i + 1..];
        if file[i] == '\n' {
          FeedLine(line, editor(k));
          line, k := "", k + 1;
        } else {
          line := line + [file[i]];
        }
        i := i + 1;
      }
      if exit {
        ClosedStays(cli.luaOk, State(), LinesFrom(file[i..], line), editor, k);
      }
      exit := true;
    }
  }
}
