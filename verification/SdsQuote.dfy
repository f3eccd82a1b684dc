/** Quoting of byte strings, `sdscatrepr`, and its inverse, `sdssplitargs`, in the C locale. */
module SdsQuote {
  import opened Wrappers
  import opened Decimal

  predicate IsByte(c: char) { c as int < 256 }

  predicate IsBytes(s: string) { forall i :: 0 <= i < |s| ==> IsByte(s[i]) }

  predicate IsPrint(c: char) { 32 <= c as int <= 126 }

  predicate IsSpace(c: char) { c == ' ' || 9 <= c as int <= 13 }

  const BELL := 7 as char
  const BACKSPACE := 8 as char

  function HexDigit(n: nat): (c: char)
    requires n < 16
    ensures IsXDigit(c) && HexValue(c) == n
  {
    if n < 10 then '0' + n as char else 'a' + (n - 10) as char
  }

  predicate IsXDigit(c: char) { IsDigit(c) || 'a' <= c <= 'f' || 'A' <= c <= 'F' }

  // hex_digit_to_int
  function HexValue(c: char): (n: nat)
    ensures n < 16
  {
    if IsDigit(c) then c as int - '0' as int
    else if 'a' <= c <= 'f' then 10 + c as int - 'a' as int
    else if 'A' <= c <= 'F' then 10 + c as int - 'A' as int
    else 0
  }

  // ----- Quoting

  function Escape(c: char): (s: string)
    requires IsByte(c)
    ensures s != "" && '\0' !in s
  {
    match c
    case '\\' => "\\\\"
    case '"' => "\\\""
    case '\n' => "\\n"
    case '\r' => "\\r"
    case '\t' => "\\t"
    case _ =>
      if c == BELL then "\\a"
      else if c == BACKSPACE then "\\b"
      else if IsPrint(c) then [c]
      else ['\\', 'x', HexDigit(c as int / 16), HexDigit(c as int % 16)]
  }

  function EscapeAll(s: string): (r: string)
    requires IsBytes(s)
    ensures '\0' !in r
  {
    if s == "" then "" else Escape(s[0]) + EscapeAll(s[1..])
  }

  function Repr(s: string): (r: string)
    requires IsBytes(s)
    ensures '\0' !in r
  {
    "\"" + EscapeAll(s) + "\""
  }

  // The switch of sdscatrepr.
  method CatEscaped(s: string, c: char) returns (r: string)
    requires IsByte(c)
    ensures r == s + Escape(c)
  {
    if c == '\\' || c == '"' {
      r := s + ['\\', c];
    } else if c == '\n' {
      r := s + "\\n";
    } else if c == '\r' {
      r := s + "\\r";
    } else if c == '\t' {
      r := s + "\\t";
    } else if c == BELL {
      r := s + "\\a";
    } else if c == BACKSPACE {
      r := s + "\\b";
    } else if IsPrint(c) {
      r := s + [c];
    } else {
      r := s + ['\\', 'x', HexDigit(c as int / 16), HexDigit(c as int % 16)];
    }
  }

  /** `sdscatrepr` appends the quoted form. */
  method Sdscatrepr(s0: string, p: string) returns (s: string)
    requires IsBytes(p)
    ensures s == s0 + Repr(p)
  {
    hide Escape;
    s := s0 + "\"";
    assert p[0..] == p;
    for i := 0 to |p|
      invariant s + EscapeAll(p[i..]) == s0 + "\"" + EscapeAll(p)
    {
      ghost var before := s;
      s := CatEscaped(s, p[i]);
      assert p[i..][1..] == p[i + 1..];
      assert s + EscapeAll(p[i + 1..]) == before + (Escape(p[i]) + EscapeAll(p[i + 1..]));
    }
    assert p[|p|..] == "" && s == s0 + "\"" + EscapeAll(p);
    s := s + "\"";
    assert s == s0 + Repr(p);
  }

  // ----- Splitting

  datatype Quote = Plain | Double | Single

  /** A token and what follows it, or unbalanced quotes. */
  datatype Scanned = Token(text: string, rest: string) | Unbalanced

  function Unescape(c: char): char
  {
    match c
    case 'n' => '\n'
    case 'r' => '\r'
    case 't' => '\t'
    case 'b' => BACKSPACE
    case 'a' => BELL
    case _ => c
  }

  predicate HexEscape(s: string)
  {
    |s| >= 4 && s[0] == '\\' && s[1] == 'x' && IsXDigit(s[2]) && IsXDigit(s[3])
  }

  function HexByte(s: string): char
    requires HexEscape(s)
  {
    (HexValue(s[2]) * 16 + HexValue(s[3])) as char
  }

  predicate IsBreak(c: char) { c in " \n\r\t" }

  /** What the scanner does at the head of the remaining line: it goes on after `used` bytes
      with `text` appended, ends the token, or finds the quotes unbalanced. */
  datatype Move = Go(used: nat, text: string, q: Quote) | Stop | Fail

  /** A closing quote must be followed by a blank or by nothing. */
  function CloseQuote(s: string): Move
  {
    if |s| > 1 && !IsSpace(s[1]) then Fail else Stop
  }

  function MoveOf(s: string, q: Quote): (m: Move)
    ensures m.Go? ==> 0 < m.used <= |s|
  {
    if s == "" then if q == Plain then Stop else Fail
    else
      match q
      case Double =>
        if HexEscape(s) then Go(4, [HexByte(s)], Double)
        else if s[0] == '\\' && |s| > 1 then Go(2, [Unescape(s[1])], Double)
        else if s[0] == '"' then CloseQuote(s)
        else Go(1, [s[0]], Double)
      case Single =>
        if |s| > 1 && s[0] == '\\' && s[1] == '\'' then Go(2, "'", Single)
        else if s[0] == '\'' then CloseQuote(s)
        else Go(1, [s[0]], Single)
      case Plain =>
        if IsBreak(s[0]) then Stop
        else if s[0] == '"' then Go(1, "", Double)
        else if s[0] == '\'' then Go(1, "", Single)
        else Go(1, [s[0]], Plain)
  }

  function Scan(s: string, cur: string, q: Quote): (r: Scanned)
    ensures r.Token? ==> |r.rest| <= |s|
    ensures r.Token? && s != "" ==> |r.rest| < |s|
    decreases |s|
  {
    match MoveOf(s, q)
    case Go(used, text, q') => Scan(s[used..], cur + text, q')
    case Stop => Token(cur, if s == "" then s else s[1..])
    case Fail => Unbalanced
  }

  function SkipBlanks(s: string): (r: string)
    ensures |r| <= |s|
  {
    if s != "" && IsSpace(s[0]) then SkipBlanks(s[1..]) else s
  }

  /** The arguments of a line, unless its quotes are unbalanced. */
  function Split(line: string): Option<seq<string>>
    decreases |line|
  {
    var s := SkipBlanks(line);
    if s == "" then Some([])
    else
      match Scan(s, "", Plain)
      case Unbalanced => None
      case Token(text, rest) =>
        match Split(rest)
        case None => None
        case Some(more) => Some([text] + more)
  }

  function Cons(done: seq<string>, r: Option<seq<string>>): Option<seq<string>>
  {
    if r.Some? then Some(done + r.value) else None
  }

  // The branches of the inner loop; the byte after the end of a C string is NUL.
  method NextMove(line: string, p: nat, q: Quote) returns (m: Move)
    requires p <= |line|
    ensures m == MoveOf(line[p..], q)
  {
    var left := |line| - p;
    if q == Double {
      if left >= 4 && line[p] == '\\' && line[p + 1] == 'x' && IsXDigit(line[p + 2]) && IsXDigit(line[p + 3]) {
        m := Go(4, [(HexValue(line[p + 2]) * 16 + HexValue(line[p + 3])) as char], Double);
      } else if left >= 2 && line[p] == '\\' {
        m := Go(2, [Unescape(line[p + 1])], Double);
      } else if left >= 1 && line[p] == '"' {
        m := if left >= 2 && !IsSpace(line[p + 1]) then Fail else Stop;
      } else if left == 0 {
        m := Fail;
      } else {
        m := Go(1, [line[p]], Double);
      }
    } else if q == Single {
      if left >= 2 && line[p] == '\\' && line[p + 1] == '\'' {
        m := Go(2, "'", Single);
      } else if left >= 1 && line[p] == '\'' {
        m := if left >= 2 && !IsSpace(line[p + 1]) then Fail else Stop;
      } else if left == 0 {
        m := Fail;
      } else {
        m := Go(1, [line[p]], Single);
      }
    } else {
      if left == 0 || IsBreak(line[p]) {
        m := Stop;
      } else if line[p] == '"' {
        m := Go(1, "", Double);
      } else if line[p] == '\'' {
        m := Go(1, "", Single);
      } else {
        m := Go(1, [line[p]], Plain);
      }
    }
  }

  function AfterMove(line: string, p: nat, cur: string, m: Move): Scanned
    requires p <= |line| && (m.Go? ==> p + m.used <= |line|)
  {
    match m
    case Go(used, text, q) => Scan(line[p + used..], cur + text, q)
    case Stop => Token(cur, line[if p < |line| then p + 1 else p..])
    case Fail => Unbalanced
  }

  lemma ScanMove(line: string, p: nat, cur: string, q: Quote)
    requires p <= |line|
    ensures Scan(line[p..], cur, q) == AfterMove(line, p, cur, MoveOf(line[p..], q))
  {
    var m := MoveOf(line[p..], q);
    if m.Go? {
      assert line[p..][m.used..] == line[p + m.used..];
    } else if p < |line| {
      assert line[p..][1..] == line[p + 1..];
    }
  }

  // The inner loop of sdssplitargs, from position `p0`.
  method ScanToken(line: string, p0: nat) returns (ok: bool, current: string, p: nat)
    requires p0 < |line|
    ensures ok <==> Scan(line[p0..], "", Plain).Token?
    ensures ok ==> p0 < p <= |line| && Scan(line[p0..], "", Plain) == Token(current, line[p..])
  {
    hide Scan, MoveOf;
    var q, done := Plain, false;
    current, p := "", p0;
    ghost var goal := Scan(line[p0..], "", Plain);
    while !done
      invariant p0 <= p <= |line|
      invariant goal == if done then Token(current, line[p..]) else Scan(line[p..], current, q)
      decreases |line| - p, !done
    {
      ScanMove(line, p, current, q);
      var m := NextMove(line, p, q);
      if m.Fail? {
        return false, "", p;
      } else if m.Stop? {
        done := true;
        if p < |line| {
          p := p + 1;
        }
      } else {
        current, p, q := current + m.text, p + m.used, m.q;
      }
    }
    ok := true;
  }

  /** `sdssplitargs` on a C string. */
  method Sdssplitargs(line: string) returns (r: Option<seq<string>>)
    requires '\0' !in line
    ensures r == Split(line)
  {
    hide Scan;
    var p, vector := 0, [];
    assert line[0..] == line;
    assert Split(line).Some? ==> [] + Split(line).value == Split(line).value;
    while true
      invariant 0 <= p <= |line|
      invariant Split(line) == Cons(vector, Split(line[p..]))
      decreases |line| - p
    {
      ghost var from := p;
      while p < |line| && IsSpace(line[p])
        invariant from <= p <= |line|
        invariant SkipBlanks(line[from..]) == SkipBlanks(line[p..])
      {
        assert line[p..][1..] == line[p + 1..];
        p := p + 1;
      }
      assert SkipBlanks(line[from..]) == line[p..];
      if p == |line| {
        assert vector + [] == vector;
        return Some(vector);
      }
      var ok, current, p' := ScanToken(line, p);
      if !ok {
        return None;
      }
      ghost var more := Split(line[p'..]);
      assert more.Some? ==> vector + ([current] + more.value) == vector + [current] + more.value;
      p, vector := p', vector + [current];
    }
  }

  // ----- The round trip

  predicate BlankStart(s: string) { s == "" || IsSpace(s[0]) }

  lemma ScanEscape(c: char, tail: string, cur: string)
    requires IsByte(c)
    ensures Scan(Escape(c) + tail, cur, Double) == Scan(tail, cur + [c], Double)
  {
    var e := Escape(c);
    var s := e + tail;
    assert s[|e|..] == tail;
    assert forall i :: 0 <= i < |e| ==> s[i] == e[i];
    if |e| == 4 {
      assert HexByte(s) == c;
    }
  }

  lemma ScanCloses(cur: string, rest: string)
    requires BlankStart(rest)
    ensures Scan("\"" + rest, cur, Double) == Token(cur, rest)
  {
    assert ("\"" + rest)[1..] == rest;
  }

  lemma Escaping(arg: string, tail: string)
    requires IsBytes(arg)
    ensures EscapeAll(arg) + tail == if arg == "" then tail else Escape(arg[0]) + (EscapeAll(arg[1..]) + tail)
  {
    hide Escape;
  }

  lemma {:induction false} ScanEscapes(arg: string, cur: string, rest: string)
    requires IsBytes(arg) && BlankStart(rest)
    ensures Scan(EscapeAll(arg) + ("\"" + rest), cur, Double) == Token(cur + arg, rest)
    decreases |arg|
  {
    hide Scan, Escape, EscapeAll;
    Escaping(arg, "\"" + rest);
    if arg == "" {
      assert cur + arg == cur;
      ScanCloses(cur, rest);
    } else {
      var tail := EscapeAll(arg[1..]) + ("\"" + rest);
      ScanEscape(arg[0], tail, cur);
      ScanEscapes(arg[1..], cur + [arg[0]], rest);
      assert cur + [arg[0]] + arg[1..] == cur + arg;
    }
  }

  /** The quoted arguments, separated by single spaces. */
  function Join(args: seq<string>): (r: string)
    requires forall i :: 0 <= i < |args| ==> IsBytes(args[i])
    ensures '\0' !in r
  {
    if args == [] then ""
    else if |args| == 1 then Repr(args[0])
    else Repr(args[0]) + " " + Join(args[1..])
  }

  lemma SplitFirst(arg: string, rest: string)
    requires IsBytes(arg) && BlankStart(rest)
    ensures Split(Repr(arg) + rest) == Cons([arg], Split(rest))
  {
    hide EscapeAll;
    var s := Repr(arg) + rest;
    var inner := EscapeAll(arg) + ("\"" + rest);
    assert s[0] == '"' && s[1..] == inner;
    ScanEscapes(arg, "", rest);
    assert "" + arg == arg;
    assert Scan(s, "", Plain) == Scan(inner, "", Double) by {
      assert MoveOf(s, Plain) == Go(1, "", Double);
      assert "" + "" == "";
    }
  }

  /** Splitting a line of quoted byte strings returns those byte strings, empty ones and ones
      with NUL, quote or control bytes included. */
  lemma {:induction false} SplitInvertsRepr(args: seq<string>)
    requires forall i :: 0 <= i < |args| ==> IsBytes(args[i])
    ensures Split(Join(args)) == Some(args)
    decreases |args|
  {
    if args == [] {
    } else {
      var rest := if |args| == 1 then "" else " " + Join(args[1..]);
      assert Join(args) == Repr(args[0]) + rest;
      SplitFirst(args[0], rest);
      SplitInvertsRepr(args[1..]);
      SplitSkipsBlank(Join(args[1..]));
      assert |args| == 1 ==> args[1..] == [];
      assert [args[0]] + args[1..] == args;
    }
  }

  lemma SplitSkipsBlank(s: string)
    ensures Split(" " + s) == Split(s)
  {
    assert (" " + s)[1..] == s;
  }
}
