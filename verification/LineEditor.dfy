/** The line editor of the command line interface, and the terminal that shows what it emits. */
module LineEditor {
  /** What the editor emits: characters, and switches of colour. A new prompt stands for all that the
      session prints between two inputs. */
  datatype Out = Char(c: char) | Colour | Prompt

  /** The row of the terminal that the input is on, from the prompt: beyond `cells` all is blank. */
  datatype Screen = Screen(cells: string, cursor: int)

  const FRESH := Screen("", 0)

  const BS: char := '\U{0008}'

  predicate Printable(c: char)
  {
    c != BS && c != '\r' && c != '\n'
  }

  predicate AllPrintable(s: string)
  {
    forall c <- s :: Printable(c)
  }

  function Blanks(n: nat): string { seq(n, _ => ' ') }

  /** A carriage return and a newline start a fresh row; writing before its start shows nothing. */
  function Put(s: Screen, o: Out): Screen
  {
    match o
    case Colour => s
    case Prompt => FRESH
    case Char(c) =>
      if c == BS then s.(cursor := s.cursor - 1)
      else if c == '\r' then s.(cursor := 0)
      else if c == '\n' then Screen("", s.cursor)
      else Screen(Write(s.cells, s.cursor, c), s.cursor + 1)
  }

  function Write(cells: string, at: int, c: char): string
  {
    if at < 0 then cells
    else if at < |cells| then cells[at := c]
    else cells + Blanks(at - |cells|) + [c]
  }

  function Play(s: Screen, out: seq<Out>): Screen
    decreases out
  {
    if out == [] then s else Play(Put(s, out[0]), out[1..])
  }

  function Text(s: string): seq<Out>
  {
    seq(|s|, i requires 0 <= i < |s| => Char(s[i]))
  }

  function Backs(n: nat): seq<Out>
  {
    seq(n, _ => Char(BS))
  }

  /** The screen shows the line and nothing else, with the cursor at `position`. */
  predicate Shows(s: Screen, line: string, position: nat)
  {
    position <= |line| && s.cursor == position && |line| <= |s.cells| && s.cells[..|line|] == line &&
    forall i :: |line| <= i < |s.cells| ==> s.cells[i] == ' '
  }

  // ---------- What the terminal does with what is emitted ----------

  lemma {:induction false} PlayAppend(s: Screen, a: seq<Out>, b: seq<Out>)
    ensures Play(s, a + b) == Play(Play(s, a), b)
    decreases a
  {
    if a == [] {
      assert a + b == b;
    } else {
      assert (a + b)[1..] == a[1..] + b;
      PlayAppend(Put(s, a[0]), a[1..], b);
    }
  }

  /** `text` written over `cells` from `at`. */
  function Over(cells: string, at: nat, text: string): string
    requires at <= |cells|
  {
    cells[..at] + text + if at + |text| < |cells| then cells[at + |text|..] else ""
  }

  lemma {:induction false} PlayText(s: Screen, text: string)
    requires 0 <= s.cursor <= |s.cells| && AllPrintable(text)
    ensures Play(s, Text(text)) == Screen(Over(s.cells, s.cursor, text), s.cursor + |text|)
    decreases text
  {
    if text == "" {
      assert Over(s.cells, s.cursor, text) == s.cells;
    } else {
      var c, rest := text[0], text[1..];
      assert Printable(c) && AllPrintable(rest);
      assert Text(text)[1..] == Text(rest);
      var next := Put(s, Char(c));
      assert next.cells == Over(s.cells, s.cursor, [c]);
      PlayText(next, rest);
      assert Over(next.cells, next.cursor, rest) == Over(s.cells, s.cursor, text);
    }
  }

  lemma {:induction false} PlayBacks(s: Screen, n: nat)
    ensures Play(s, Backs(n)) == s.(cursor := s.cursor - n)
    decreases n
  {
    if n > 0 {
      assert Backs(n)[1..] == Backs(n - 1);
      PlayBacks(Put(s, Char(BS)), n - 1);
    }
  }

  lemma BlanksPrint(n: nat)
    ensures AllPrintable(Blanks(n))
  {
  }

  // ---------- What each key is meant to do to the line ----------

  datatype Key = Ascii(c: char) | Up | Down | Left | Right | Backspace | Canc | Home | End | Ret | Eof | Ignored

  datatype Symbol = Nothing | Command(line: string) | AskUp | AskDown | AskTab | AskEof

  datatype Line = Line(text: string, position: nat)

  predicate Valid(l: Line) { l.position <= |l.text| && AllPrintable(l.text) }

  function Insert(l: Line, c: char): Line
    requires Valid(l)
  {
    Line(l.text[..l.position] + [c] + l.text[l.position..], l.position + 1)
  }

  function DeleteAt(text: string, at: nat): string
    requires at < |text|
  {
    text[..at] + text[at + 1..]
  }

  function Edited(l: Line, k: Key): Line
    requires Valid(l)
  {
    match k
    case Ascii(c) => if c == '\t' then l else Insert(l, c)
    case Left => if l.position > 0 then l.(position := l.position - 1) else l
    case Right => if l.position < |l.text| then l.(position := l.position + 1) else l
    case Home => l.(position := 0)
    case End => l.(position := |l.text|)
    case Backspace => if l.position == 0 then l else Line(DeleteAt(l.text, l.position - 1), l.position - 1)
    case Canc => if l.position == |l.text| then l else Line(DeleteAt(l.text, l.position), l.position)
    case Ret => Line("", 0)
    case Up => l
    case Down => l
    case Eof => l
    case Ignored => l
  }

  function Asked(l: Line, k: Key): Symbol
  {
    match k
    case Up => AskUp
    case Down => AskDown
    case Eof => AskEof
    case Ret => Command(l.text)
    case Ascii(c) => if c == '\t' then AskTab else Nothing
    case Left => Nothing
    case Right => Nothing
    case Home => Nothing
    case End => Nothing
    case Backspace => Nothing
    case Canc => Nothing
    case Ignored => Nothing
  }

  /** A character that is typed and then erased, to the left or from the left, leaves the line alone. */
  lemma TypeAndErase(l: Line, c: char)
    requires Valid(l) && Printable(c) && c != '\t'
    ensures Edited(Edited(l, Ascii(c)), Backspace) == l
    ensures Edited(Edited(Edited(l, Ascii(c)), Left), Canc) == l
  {
    var typed := Insert(l, c);
    assert DeleteAt(typed.text, l.position) == l.text[..l.position] + l.text[l.position..] == l.text;
    forall x <- typed.text
      ensures Printable(x)
    {
      assert x == c || x in l.text;
    }
  }

  function Typed(l: Line, keys: string): Line
    requires Valid(l) && AllPrintable(keys) && '\t' !in keys
    decreases keys
  {
    if keys == "" then l else
      InsertValid(l, keys[0]);
      Typed(Edited(l, Ascii(keys[0])), keys[1..])
  }

  lemma InsertValid(l: Line, c: char)
    requires Valid(l) && Printable(c)
    ensures Valid(Insert(l, c))
  {
    forall x <- Insert(l, c).text
      ensures Printable(x)
    {
      assert x == c || x in l.text;
    }
  }

  /** Typing inserts the text at the cursor. */
  lemma {:induction false} TypedInserts(l: Line, keys: string)
    requires Valid(l) && AllPrintable(keys) && '\t' !in keys
    ensures Typed(l, keys) == Line(l.text[..l.position] + keys + l.text[l.position..], l.position + |keys|)
    decreases keys
  {
    if keys == "" {
      assert l.text[..l.position] + keys + l.text[l.position..] == l.text;
    } else {
      InsertValid(l, keys[0]);
      var next := Insert(l, keys[0]);
      TypedInserts(next, keys[1..]);
      assert next.text[..next.position] + keys[1..] + next.text[next.position..] ==
             l.text[..l.position] + keys + l.text[l.position..];
    }
  }

  /** The keys that move the cursor undo each other and leave the text alone; the ends of the line stop
      them. */
  lemma LeftAndRight(l: Line)
    requires Valid(l)
    ensures l.position > 0 ==> Edited(Edited(l, Left), Right) == l && Edited(l, Left).position == l.position - 1
    ensures l.position < |l.text| ==> Edited(Edited(l, Right), Left) == l && Edited(l, Right).position == l.position + 1
    ensures l.position == 0 ==> Edited(l, Left) == l && Edited(l, Home) == l && Edited(l, Backspace) == l
    ensures l.position == |l.text| ==> Edited(l, Right) == l && Edited(l, End) == l && Edited(l, Canc) == l
  {
  }

  /** What is typed at the start of a line comes before it, and at its end behind it. */
  lemma TypedAtEnds(l: Line, keys: string)
    requires Valid(l) && AllPrintable(keys) && '\t' !in keys
    ensures Typed(Edited(l, Home), keys) == Line(keys + l.text, |keys|)
    ensures Typed(Edited(l, End), keys) == Line(l.text + keys, |l.text| + |keys|)
  {
    hide Typed, AllPrintable;
    TypedInserts(Edited(l, Home), keys);
    TypedInserts(Edited(l, End), keys);
    assert l.text[..0] + keys + l.text[0..] == keys + l.text;
    assert l.text[..|l.text|] + keys + l.text[|l.text|..] == l.text + keys;
  }

  /** What was typed is the command when the line is returned, and the next line is empty. */
  lemma ReturnsTyped(keys: string)
    requires AllPrintable(keys) && '\t' !in keys
    ensures var l := Typed(Line("", 0), keys);
            Valid(l) && Asked(l, Ret) == Command(keys) && Edited(l, Ret) == Line("", 0)
  {
    TypedInserts(Line("", 0), keys);
    assert "" + keys + "" == keys;
  }

  /** What a key asks of the session; what asks for something else than the command leaves the line alone. */
  lemma KeysAsk(l: Line, k: Key)
    requires Valid(l)
    ensures Asked(l, k).Command? <==> k == Ret
    ensures Asked(l, k) == AskTab <==> k == Ascii('\t')
    ensures Asked(l, k) == AskUp <==> k == Up
    ensures Asked(l, k) == AskDown <==> k == Down
    ensures Asked(l, k) == AskEof <==> k == Eof
    ensures Asked(l, k) != Nothing && k != Ret ==> Edited(l, k) == l
    ensures k == Ignored ==> Edited(l, k) == l
  {
  }

  // ---------- The editor ----------

  /** What is written over the end of a line, with blanks where the line gets shorter, shows. */
  lemma OverShows(cells: string, line: string, at: nat, text: string, result: string)
    requires |line| <= |cells| && cells[..|line|] == line && forall i :: |line| <= i < |cells| ==> cells[i] == ' '
    requires at <= |line| <= at + |text| && |result| <= at + |text|
    requires line[..at] + text == result + Blanks(at + |text| - |result|)
    ensures Shows(Screen(Over(cells, at, text), |result|), result, |result|)
  {
    var over := Over(cells, at, text);
    assert cells[..at] == line[..at];
    assert over[..at + |text|] == line[..at] + text;
    assert over[..|result|] == result;
    forall i | |result| <= i < |over|
      ensures over[i] == ' '
    {
      if i < at + |text| {
        assert over[i] == over[..at + |text|][i] == (result + Blanks(at + |text| - |result|))[i];
      } else {
        assert over[i] == cells[i];
      }
    }
  }

  lemma PrintableParts(line: string, at: nat)
    requires AllPrintable(line) && at <= |line|
    ensures AllPrintable(line[at..]) && AllPrintable(line[at..] + " ")
  {
    forall c <- line[at..] + " "
      ensures Printable(c)
    {
      assert c in line || c == ' ';
    }
    forall c <- line[at..]
      ensures Printable(c)
    {
      assert c in line;
    }
  }

  class Terminal {
    var currentLine: string
    var position: nat
    var out: seq<Out>
    ghost var screen: Screen

    /** The terminal has been sent what was emitted, and shows the line. */
    ghost predicate Good()
      reads this
    {
      screen == Play(FRESH, out) && AllPrintable(currentLine) && Shows(screen, currentLine, position)
    }

    ghost function State(): Line
      reads this
    {
      Line(currentLine, position)
    }

    constructor ()
      ensures Good() && State() == Line("", 0)
    {
      currentLine, position, out, screen := "", 0, [], FRESH;
    }

    method Emit(o: seq<Out>)
      modifies this`out, this`screen
      ensures out == old(out) + o && screen == Play(old(screen), o)
      ensures old(screen) == Play(FRESH, old(out)) ==> screen == Play(FRESH, out)
    {
      PlayAppend(FRESH, out, o);
      out, screen := out + o, Play(screen, o);
    }

    method EmitText(text: string)
      requires 0 <= screen.cursor <= |screen.cells| && AllPrintable(text) && screen == Play(FRESH, out)
      modifies this`out, this`screen
      ensures screen == Play(FRESH, out) && out == old(out) + Text(text)
      ensures screen == Screen(Over(old(screen).cells, old(screen).cursor, text), old(screen).cursor + |text|)
    {
      PlayText(screen, text);
      Emit(Text(text));
    }

    method EmitBacks(n: nat)
      requires screen == Play(FRESH, out)
      modifies this`out, this`screen
      ensures screen == Play(FRESH, out) && out == old(out) + Backs(n)
      ensures screen == old(screen).(cursor := old(screen).cursor - n)
    {
      PlayBacks(screen, n);
      Emit(Backs(n));
    }

    method EmitColour()
      requires screen == Play(FRESH, out)
      modifies this`out, this`screen
      ensures screen == Play(FRESH, out) && out == old(out) + [Colour] && screen == old(screen)
    {
      assert [Colour][1..] == [];
      Emit([Colour]);
    }

    /** `SetLine` replaces what is shown, also where the line is not shown yet. */
    method SetLine(newLine: string)
      requires AllPrintable(newLine) && screen == Play(FRESH, out)
      requires Shows(screen, currentLine, position) || (position == 0 && screen == FRESH)
      modifies this
      ensures Good() && State() == Line(newLine, |newLine|)
    {
      hide Play;
      ghost var cells := screen.cells;
      EmitColour();
      EmitBacks(position);
      EmitText(newLine);
      EmitColour();
      if |newLine| < |currentLine| {
        var n := |currentLine| - |newLine|;
        BlanksPrint(n);
        EmitText(Blanks(n));
        EmitBacks(n);
        OverTwice(cells, newLine, Blanks(n));
        if |currentLine| <= |cells| {
          OverShows(cells, currentLine, 0, newLine + Blanks(n), newLine);
        }
      }
      currentLine, position := newLine, |newLine|;
    }

    /** What happens after completions have been listed: a new prompt, and the same line again. */
    method ShowAgain()
      requires Good()
      modifies this
      ensures Good() && State() == Line(old(currentLine), |currentLine|)
    {
      assert [Prompt][1..] == [];
      Emit([Prompt]);
      position := 0;
      SetLine(currentLine);
    }

    method Backspace()
      requires Good()
      modifies this
      ensures Good() && State() == Edited(old(State()), Key.Backspace)
    {
      if position == 0 {
        return;
      }
      hide Play;
      ghost var line := currentLine;
      position := position - 1;
      currentLine := currentLine[..position] + currentLine[position + 1..];
      EmitBacks(1);
      EmitTail(currentLine[position..], line);
    }

    // The text behind the cursor, from the second character on, and a blank for its last place.
    method EmitTail(s: string, ghost line: string)
      requires screen == Play(FRESH, out) && AllPrintable(line)
      requires position < |line| && Shows(screen, line, position) && s == line[position + 1..]
      modifies this`out, this`screen
      ensures screen == Play(FRESH, out) && AllPrintable(DeleteAt(line, position))
      ensures Shows(screen, DeleteAt(line, position), position)
    {
      hide Play;
      ghost var cells := screen.cells;
      PrintableParts(line, position + 1);
      EmitText(s);
      BlanksPrint(1);
      EmitText(Blanks(1));
      EmitBacks(|s| + 1);
      Shortened(cells, line, position);
    }

    method Canc()
      requires Good()
      modifies this
      ensures Good() && State() == Edited(old(State()), Key.Canc)
    {
      if position == |currentLine| {
        return;
      }
      EmitTail(currentLine[position + 1..], currentLine);
      currentLine := currentLine[..position] + currentLine[position + 1..];
    }

    method Type(c: char)
      requires Good() && Printable(c) && c != '\t'
      modifies this
      ensures Good() && State() == Edited(old(State()), Ascii(c))
    {
      ghost var cells, line := screen.cells, currentLine;
      PrintableParts(line, position);
      EmitColour();
      EmitText([c]);
      EmitText(currentLine[position..]);
      EmitColour();
      EmitBacks(|currentLine| - position);
      InsertValid(State(), c);
      currentLine := currentLine[..position] + [c] + currentLine[position..];
      position := position + 1;
      Lengthened(cells, line, position - 1, c);
    }

    method MoveLeft()
      requires Good()
      modifies this
      ensures Good() && State() == Edited(old(State()), Left)
    {
      if position > 0 {
        EmitBacks(1);
        position := position - 1;
      }
    }

    method MoveRight()
      requires Good()
      modifies this
      ensures Good() && State() == Edited(old(State()), Right)
    {
      if position < |currentLine| {
        EmitColour();
        EmitText([currentLine[position]]);
        EmitColour();
        assert screen.cells == old(screen).cells;
        position := position + 1;
      }
    }

    method GoHome()
      requires Good()
      modifies this
      ensures Good() && State() == Edited(old(State()), Home)
    {
      EmitBacks(position);
      position := 0;
    }

    method GoEnd()
      requires Good()
      modifies this
      ensures Good() && State() == Edited(old(State()), End)
    {
      PrintableParts(currentLine, position);
      EmitColour();
      EmitText(currentLine[position..]);
      EmitColour();
      assert screen.cells == old(screen).cells;
      position := |currentLine|;
    }

    method Return() returns (cmd: string)
      requires Good()
      modifies this
      ensures Good() && cmd == old(currentLine) && State() == Line("", 0)
    {
      Emit([Char('\r'), Char('\n')]);
      assert [Char('\r'), Char('\n')][1..] == [Char('\n')] && [Char('\n')][1..] == [];
      cmd, currentLine, position := currentLine, "", 0;
    }

    /** `Keypressed`: every key edits the line as it should and leaves the terminal showing it. */
    method Keypressed(k: Key) returns (symbol: Symbol)
      requires Good() && (k.Ascii? ==> Printable(k.c))
      modifies this
      ensures Good() && State() == Edited(old(State()), k) && symbol == Asked(old(State()), k)
    {
      symbol := Nothing;
      match k {
        case Eof => symbol := AskEof;
        case Up => symbol := AskUp;
        case Down => symbol := AskDown;
        case Backspace => Backspace();
        case Left => MoveLeft();
        case Right => MoveRight();
        case Ret =>
          var cmd := Return();
          symbol := Command(cmd);
        case Ascii(c) =>
          if c == '\t' {
            symbol := AskTab;
          } else {
            Type(c);
          }
        case Canc => Canc();
        case End => GoEnd();
        case Home => GoHome();
        case Ignored =>
      }
    }
  }

  /** The rest of the line and a blank, written one place to the left. */
  lemma Shortened(cells: string, line: string, at: nat)
    requires at < |line| && AllPrintable(line)
    requires Shows(Screen(cells, |line|), line, |line|)
    ensures var rest, result := line[at + 1..], DeleteAt(line, at);
            AllPrintable(result) && result[at..] == rest &&
            Shows(Screen(Over(Over(cells, at, rest), at + |rest|, Blanks(1)), at), result, at)
  {
    var rest, result := line[at + 1..], DeleteAt(line, at);
    assert Over(Over(cells, at, rest), at + |rest|, Blanks(1)) == Over(cells, at, rest + Blanks(1));
    assert line[..at] + (rest + Blanks(1)) == result + Blanks(1);
    OverShows(cells, line, at, rest + Blanks(1), result);
    forall c <- result
      ensures Printable(c)
    {
      assert c in line;
    }
  }

  /** A character and the rest of the line, written one place to the right. */
  lemma Lengthened(cells: string, line: string, at: nat, c: char)
    requires at <= |line| && Shows(Screen(cells, |line|), line, |line|)
    ensures var result := line[..at] + [c] + line[at..];
            Shows(Screen(Over(Over(cells, at, [c]), at + 1, line[at..]), at + 1), result, at + 1)
  {
    var result := line[..at] + [c] + line[at..];
    assert Over(Over(cells, at, [c]), at + 1, line[at..]) == Over(cells, at, [c] + line[at..]);
    assert line[..at] + ([c] + line[at..]) == result + Blanks(0);
    OverShows(cells, line, at, [c] + line[at..], result);
  }

  lemma OverTwice(cells: string, a: string, b: string)
    ensures Over(Over(cells, 0, a), |a|, b) == Over(cells, 0, a + b)
  {
  }
}
