/**
 * How action code travels through a dump: `replaceNewlinesAndQuotes` rewrites it in place, the
 * tokenizer reads the quoted line back, and `input_action` turns `<>` into newlines again.
 */
module ActionText {
  import opened Tokenizer

  // ----- Rewriting

  /** Every `c` in `s` replaced by `by`. */
  function Replace(s: string, c: char, to: string): string
  {
    if s == "" then "" else (if s[0] == c then to else [s[0]]) + Replace(s[1..], c, to)
  }

  // One find/replace loop; the search resumes after the text just put in.
  method ReplaceAll(str: string, c: char, to: string) returns (result: string)
    ensures result == Replace(str, c, to)
  {
    hide Replace;
    ReplaceNothing(c, to);
    result := str;
    var pos := 0;
    ghost var done := 0;
    assert str[0..] == str && str[..0] == "";
    while pos < |result|
      invariant 0 <= done <= |str| && pos == |Replace(str[..done], c, to)| <= |result|
      invariant result == Replace(str[..done], c, to) + str[done..]
      decreases |str| - done
    {
      ReplaceStep(str, done, c, to);
      if result[pos] == c {
        result := result[..pos] + to + result[pos + 1..];
        pos := pos + |to|;
      } else {
        pos := pos + 1;
      }
      done := done + 1;
    }
    assert str[..done] == str && str[done..] == "";
  }

  /** The text behind `front`. */
  lemma InFront(front: string, back: string)
    ensures (front + back)[..|front|] == front && (front + back)[|front|..] == back
    ensures back != "" ==> (front + back)[|front|] == back[0] && (front + back)[|front| + 1..] == back[1..]
    ensures |back| > 1 ==> (front + back)[|front| + 1] == back[1] && (front + back)[|front| + 2..] == back[2..]
  {
  }

  lemma Reassociate(front: string, c: char, back: string)
    ensures front + ([c] + back) == front + [c] + back
  {
  }

  lemma ReplaceNothing(c: char, to: string)
    ensures Replace("", c, to) == ""
  {
  }

  lemma {:induction false} ReplaceAppend(a: string, b: string, c: char, to: string)
    ensures Replace(a + b, c, to) == Replace(a, c, to) + Replace(b, c, to)
    decreases |a|
  {
    if a == "" {
      assert a + b == b;
    } else {
      assert (a + b)[1..] == a[1..] + b;
      ReplaceAppend(a[1..], b, c, to);
    }
  }

  lemma ReplaceSnoc(s: string, k: nat, c: char, to: string)
    requires k < |s|
    ensures Replace(s[..k + 1], c, to) == Replace(s[..k], c, to) + (if s[k] == c then to else [s[k]])
  {
    assert s[..k + 1] == s[..k] + [s[k]];
    ReplaceAppend(s[..k], [s[k]], c, to);
    assert Replace([s[k]], c, to) == if s[k] == c then to else [s[k]];
  }

  /** One turn of the loop, with `done` characters of `str` behind it. */
  lemma ReplaceStep(str: string, done: nat, c: char, to: string)
    requires done < |str|
    ensures var front, next := Replace(str[..done], c, to), Replace(str[..done + 1], c, to);
            var result := front + str[done..];
            result[|front|] == str[done] &&
            (if str[done] == c
             then |next| == |front| + |to| && result[..|front|] + to + result[|front| + 1..] == next + str[done + 1..]
             else |next| == |front| + 1 && result == next + str[done + 1..])
  {
    hide Replace;
    var front := Replace(str[..done], c, to);
    ReplaceSnoc(str, done, c, to);
    InFront(front, str[done..]);
    assert str[done..][1..] == str[done + 1..] && str[done..] == [str[done]] + str[done + 1..];
    Reassociate(front, str[done], str[done + 1..]);
  }

  /** What a character of the code is printed as. */
  function Printed(c: char): string
  {
    if c == '\n' then "<>" else if c == '"' then "\\\"" else [c]
  }

  function Rewrite(code: string): string
  {
    if code == "" then "" else Printed(code[0]) + Rewrite(code[1..])
  }

  lemma {:induction false} RewriteIsTwoPasses(code: string)
    ensures Replace(Replace(code, '\n', "<>"), '"', "\\\"") == Rewrite(code)
  {
    if code != "" {
      var p := if code[0] == '\n' then "<>" else [code[0]];
      ReplaceAppend(p, Replace(code[1..], '\n', "<>"), '"', "\\\"");
      RewriteIsTwoPasses(code[1..]);
      assert Replace(p, '"', "\\\"") == Printed(code[0]) by {
        if code[0] == '\n' {
          assert p[1..] == ">" && p[1..][1..] == "";
        } else {
          assert p[1..] == "";
        }
      }
    }
  }

  /** `replaceNewlinesAndQuotes` */
  method ReplaceNewlinesAndQuotes(str: string) returns (result: string)
    ensures result == Rewrite(str)
  {
    result := ReplaceAll(str, '\n', "<>");
    result := ReplaceAll(result, '"', "\\\"");
    RewriteIsTwoPasses(str);
  }

  /** Newlines and quotes are rewritten one by one, and nothing else is changed. */
  lemma {:induction false} RewriteJoins(a: string, b: string)
    ensures Rewrite(a + b) == Rewrite(a) + Rewrite(b)
    ensures Rewrite("") == "" && Rewrite("\n") == "<>" && Rewrite("\"") == "\\\""
    ensures forall c :: c != '\n' && c != '"' ==> Rewrite([c]) == [c]
  {
    assert "\n"[1..] == "" && "\""[1..] == "";
    forall c: char
      ensures c != '\n' && c != '"' ==> Rewrite([c]) == [c]
    {
      assert [c][1..] == "";
    }
    if a == "" {
      assert a + b == b;
    } else {
      assert (a + b)[1..] == a[1..] + b;
      RewriteJoins(a[1..], b);
    }
  }

  predicate MarkerAt(s: string, i: nat) { i + 1 < |s| && s[i] == '<' && s[i + 1] == '>' }

  /** The first marker becomes a newline, and what follows it is restored in turn; without one nothing changes. */
  lemma {:induction false} RestoresFirst(a: string, b: string)
    requires forall i: nat :: i < |a| ==> !MarkerAt(a + "<>" + b, i)
    ensures Restore(a + "<>" + b) == a + "\n" + Restore(b)
    decreases a
  {
    var s := a + "<>" + b;
    if a == "" {
      assert s[2..] == b && "" + "\n" + Restore(b) == "\n" + Restore(b);
    } else {
      var rest := a[1..] + "<>" + b;
      assert s[1..] == rest && s[0] == a[0];
      assert !MarkerAt(s, 0);
      forall i: nat | i < |a[1..]|
        ensures !MarkerAt(rest, i)
      {
        assert !MarkerAt(s, i + 1);
      }
      RestoresFirst(a[1..], b);
      assert [a[0]] + (a[1..] + "\n" + Restore(b)) == a + "\n" + Restore(b);
    }
  }

  lemma {:induction false} RestoresNothing(s: string)
    requires forall i: nat :: !MarkerAt(s, i)
    ensures Restore(s) == s
  {
    if s != "" {
      assert !MarkerAt(s, 0);
      forall i: nat
        ensures !MarkerAt(s[1..], i)
      {
        assert !MarkerAt(s, i + 1);
      }
      RestoresNothing(s[1..]);
    }
  }

  /** Every `<>` becomes a newline. */
  function Restore(s: string): string
    decreases |s|
  {
    if s == "" then ""
    else if |s| > 1 && s[0] == '<' && s[1] == '>' then "\n" + Restore(s[2..])
    else [s[0]] + Restore(s[1..])
  }

  // The find/replace loop of input_action.
  method RestoreNewlines(code: string) returns (lua: string)
    ensures lua == Restore(code)
  {
    lua := code;
    var pos := 0;
    ghost var front, back := "", code;
    assert front + back == code && "" + Restore(code) == Restore(code);
    while pos < |lua|
      invariant lua == front + back && pos == |front|
      invariant Restore(code) == front + Restore(back)
      decreases |back|
    {
      InFront(front, back);
      if pos + 1 < |lua| && lua[pos] == '<' && lua[pos + 1] == '>' {
        Reassociate(front, '\n', Restore(back[2..]));
        lua := lua[..pos] + "\n" + lua[pos + 2..];
        front, back := front + "\n", back[2..];
      } else {
        Reassociate(front, back[0], Restore(back[1..]));
        Reassociate(front, back[0], back[1..]);
        assert [back[0]] + back[1..] == back;
        front, back := front + [back[0]], back[1..];
      }
      pos := pos + 1;
    }
    assert back == "" && front + "" == front;
  }

  // ----- What the tokenizer makes of rewritten code

  /** The text collected for rewritten code and its closing quote. A backslash in front of a double
      quote lets that quote end the text, and a final backslash swallows the closing quote. */
  function Collected(code: string): string
    decreases |code|
  {
    if code == "" then ""
    else if code[0] != '\\' then (if code[0] == '\n' then "<>" else [code[0]]) + Collected(code[1..])
    else if |code| == 1 then "\""
    else if code[1] == '"' then "\\"
    else if Special(code[1]) then [code[1]] + Collected(code[2..])
    else if code[1] == '\n' then "\\<>" + Collected(code[2..])
    else code[..2] + Collected(code[2..])
  }

  lemma RunOne(t: Scanner, c: char, rest: string)
    requires Ok(t)
    ensures Run(t, [c] + rest) == Run(Eval(t, c), rest)
  {
    assert ([c] + rest)[1..] == rest;
  }

  /** Inside a double-quoted sentence. */
  predicate Inside(t: Scanner) { Ok(t) && t.mode == Sentence && t.quote == '"' }

  /** The same place in the sentence, with `text` collected. */
  function Collect(t: Scanner, prev: Mode, text: string): (t': Scanner)
    requires Inside(t)
    ensures Inside(t') && |t'.tokens| == |t.tokens|
  {
    t.(prev := prev, tokens := Grow(t.tokens, text))
  }

  // The scanner inside a sentence, one printed character at a time.
  lemma ReadPrinted(t: Scanner, c: char, rest: string)
    requires Inside(t) && c != '\\'
    ensures Run(t, Printed(c) + rest) ==
            Run(Collect(t, if c == '"' then Sentence else t.prev, if c == '\n' then "<>" else [c]), rest)
  {
    var last := t.tokens[|t.tokens| - 1];
    if c == '\n' {
      RunPair(t, '<', '>', rest);
      assert ['<', '>'] == "<>" && last + ['<'] + ['>'] == last + "<>";
      assert Grow(Grow(t.tokens, ['<']), ['>']) == Grow(t.tokens, "<>");
    } else if c == '"' {
      RunPair(t, '\\', '"', rest);
    } else {
      RunOne(t, c, rest);
    }
  }

  function EscapedText(c: char): string
  {
    if Special(c) then [c] else if c == '\n' then "\\<>" else ['\\', c]
  }

  // A backslash and the character after it.
  lemma ReadEscaped(t: Scanner, c: char, rest: string)
    requires Inside(t) && c != '"'
    ensures Run(t, "\\" + (Printed(c) + rest)) == Run(Collect(t, Sentence, EscapedText(c)), rest)
  {
    var last := t.tokens[|t.tokens| - 1];
    RunOne(t, '\\', Printed(c) + rest);
    var t1 := Eval(t, '\\');
    if c == '\n' {
      RunPair(t1, '<', '>', rest);
      assert ['<', '>'] == "<>" && last + ['\\', '<'] + ['>'] == last + "\\<>";
      assert Grow(Grow(t.tokens, ['\\', '<']), ['>']) == Grow(t.tokens, "\\<>");
    } else {
      RunOne(t1, c, rest);
    }
  }

  /** The token under construction has `text` added to it, and is left alone from then on. */
  predicate Adds(t: Scanner, s: string, text: string)
    requires Ok(t) && t.tokens != []
  {
    var t' := Run(t, s);
    |t'.tokens| >= |t.tokens| && t'.tokens[..|t.tokens|] == Grow(t.tokens, text)
  }

  lemma AddsMore(t: Scanner, prev: Mode, text: string, s: string, rest: string, more: string)
    requires Inside(t) && Run(t, s) == Run(Collect(t, prev, text), rest)
    requires Adds(Collect(t, prev, text), rest, more)
    ensures Adds(t, s, text + more)
  {
    var last := t.tokens[|t.tokens| - 1];
    assert last + text + more == last + (text + more);
  }

  lemma RewriteTwo(code: string)
    requires |code| > 1
    ensures Rewrite(code) == Printed(code[0]) + Printed(code[1]) + Rewrite(code[2..])
  {
    assert code[1..][0] == code[1] && code[1..][1..] == code[2..];
    assert Rewrite(code) == Printed(code[0]) + Rewrite(code[1..]);
  }

  /** The token of rewritten code with its closing quote is what `Collected` says. */
  lemma {:induction false} ReadCode(t: Scanner, code: string)
    requires Inside(t)
    ensures Adds(t, Rewrite(code) + "\"", Collected(code))
    decreases |code|
  {
    var last := t.tokens[|t.tokens| - 1];
    if code == "" {
      assert Rewrite(code) + "\"" == ['"'] + "" && last + "" == last;
      RunOne(t, '"', "");
    } else if code[0] != '\\' {
      var prev := if code[0] == '"' then Sentence else t.prev;
      var text := if code[0] == '\n' then "<>" else [code[0]];
      var rest := Rewrite(code[1..]) + "\"";
      assert Rewrite(code) + "\"" == Printed(code[0]) + rest;
      ReadPrinted(t, code[0], rest);
      ReadCode(Collect(t, prev, text), code[1..]);
      AddsMore(t, prev, text, Rewrite(code) + "\"", rest, Collected(code[1..]));
    } else if |code| == 1 {
      assert code[1..] == "" && Rewrite(code) + "\"" == ['\\', '"'] + "";
      RunPair(t, '\\', '"', "");
    } else if code[1] == '"' {
      ReadClosing(t, code);
    } else {
      var rest := Rewrite(code[2..]) + "\"";
      RewriteTwo(code);
      assert Rewrite(code) + "\"" == "\\" + (Printed(code[1]) + rest);
      ReadEscaped(t, code[1], rest);
      ReadCode(Collect(t, Sentence, EscapedText(code[1])), code[2..]);
      AddsMore(t, Sentence, EscapedText(code[1]), Rewrite(code) + "\"", rest, Collected(code[2..]));
      assert code[..2] == ['\\', code[1]];
    }
  }

  // A backslash in front of a double quote: the printed quote closes the sentence.
  lemma ReadClosing(t: Scanner, code: string)
    requires Inside(t) && |code| > 1 && code[0] == '\\' && code[1] == '"'
    ensures Adds(t, Rewrite(code) + "\"", "\\")
  {
    var rest := Rewrite(code[2..]) + "\"";
    RewriteTwo(code);
    assert Rewrite(code) + "\"" == ['\\', '\\'] + (['"'] + rest);
    RunPair(t, '\\', '\\', ['"'] + rest);
    var t1 := Collect(t, Sentence, "\\");
    RunOne(t1, '"', rest);
    RunKeeps(Eval(t1, '"'), rest, |t.tokens|);
    assert t1.tokens[..|t.tokens|] == t1.tokens;
  }

  // ----- When the code survives

  /** No `<>`, and no backslash that is last or in front of a quote or another backslash. */
  predicate Clean(code: string)
  {
    forall i :: 0 <= i < |code| ==> CleanAt(code, i)
  }

  predicate CleanAt(code: string, i: nat)
    requires i < |code|
  {
    (code[i] == '\\' ==> i + 1 < |code| && !Special(code[i + 1])) &&
    (code[i] == '<' ==> i + 1 == |code| || code[i + 1] != '>')
  }

  lemma CleanTail(code: string, k: nat)
    requires k <= |code| && forall i :: 0 <= i < k ==> CleanAt(code, i)
    ensures Clean(code) <==> Clean(code[k..])
  {
    var tail := code[k..];
    forall i | 0 <= i < |tail|
      ensures CleanAt(tail, i) == CleanAt(code, i + k)
    {
    }
    if Clean(tail) {
      forall i | 0 <= i < |code|
        ensures CleanAt(code, i)
      {
        if i >= k {
          assert CleanAt(tail, i - k);
        }
      }
    }
  }

  /** The token under construction has `text` added to it and is closed, and nothing follows. */
  predicate Ends(t: Scanner, s: string, text: string)
    requires Ok(t) && t.tokens != []
  {
    Run(t, s).mode == Space && Run(t, s).tokens == Grow(t.tokens, text)
  }

  lemma EndsLater(t: Scanner, prev: Mode, text: string, s: string, rest: string, more: string)
    requires Inside(t) && Run(t, s) == Run(Collect(t, prev, text), rest)
    requires Ends(Collect(t, prev, text), rest, more)
    ensures Ends(t, s, text + more)
  {
    var last := t.tokens[|t.tokens| - 1];
    assert last + text + more == last + (text + more);
  }

  lemma EmptyRewrite()
    ensures Rewrite("") == ""
  {
  }

  lemma RewriteOne(code: string)
    requires code != ""
    ensures Rewrite(code) == Printed(code[0]) + Rewrite(code[1..])
  {
  }

  lemma PrintedBackslash()
    ensures Printed('\\') == "\\"
  {
  }

  lemma CollectedPair(code: string)
    requires |code| > 1 && code[0] == '\\' && !Special(code[1])
    ensures Collected(code) == EscapedText(code[1]) + Collected(code[2..])
  {
    assert code[..2] == ['\\', code[1]];
  }

  /** Clean code and its closing quote are read to the end as one token. */
  lemma {:induction false} ReadClean(t: Scanner, code: string)
    requires Inside(t) && Clean(code)
    ensures Ends(t, Rewrite(code) + "\"", Collected(code))
    decreases |code|
  {
    hide Rewrite, Printed, EscapedText;
    if code == "" {
      EmptyRewrite();
      var last := t.tokens[|t.tokens| - 1];
      assert "" + "\"" == ['"'] + "" && last + "" == last;
      RunOne(t, '"', "");
    } else if code[0] != '\\' {
      CleanTail(code, 1);
      var prev := if code[0] == '"' then Sentence else t.prev;
      var text := if code[0] == '\n' then "<>" else [code[0]];
      var rest := Rewrite(code[1..]) + "\"";
      RewriteOne(code);
      assert Rewrite(code) + "\"" == Printed(code[0]) + rest;
      ReadPrinted(t, code[0], rest);
      ReadClean(Collect(t, prev, text), code[1..]);
      EndsLater(t, prev, text, Rewrite(code) + "\"", rest, Collected(code[1..]));
    } else {
      assert CleanAt(code, 0) && CleanAt(code, 1);
      CleanTail(code, 2);
      var rest := Rewrite(code[2..]) + "\"";
      RewriteTwo(code);
      PrintedBackslash();
      assert Rewrite(code) + "\"" == "\\" + (Printed(code[1]) + rest);
      ReadEscaped(t, code[1], rest);
      ReadClean(Collect(t, Sentence, EscapedText(code[1])), code[2..]);
      EndsLater(t, Sentence, EscapedText(code[1]), Rewrite(code) + "\"", rest, Collected(code[2..]));
      CollectedPair(code);
    }
  }

  /** The code that arrives at the other end. */
  function Arrived(code: string): string { Restore(Collected(code)) }

  lemma RestoreCons(c: char, s: string)
    ensures !(c == '<' && s != "" && s[0] == '>') ==> Restore([c] + s) == [c] + Restore(s)
    ensures c == '<' && s != "" && s[0] == '>' ==>
              |Restore([c] + s)| == |Restore(s)| && Restore([c] + s)[1..] == Restore(s)[1..]
  {
    assert ([c] + s)[1..] == s;
    if s != "" {
      assert ([c] + s)[2..] == s[1..];
    }
  }

  lemma RestoreOne(c: char)
    ensures Restore([c]) == [c]
  {
    assert [c][1..] == "";
  }

  lemma RestoreNewline(s: string)
    ensures Restore("<>" + s) == "\n" + Restore(s)
  {
    assert ("<>" + s)[2..] == s;
  }

  lemma CollectedHead(code: string)
    ensures Collected(code) != "" && Collected(code)[0] == '>' ==> code[0] == '>'
    ensures code != "" && code[0] == '>' ==> Collected(code) != "" && Collected(code)[0] == '>'
    ensures code != "" ==> Collected(code) != ""
  {
  }

  /** Clean code arrives unchanged. */
  lemma {:induction false} CleanArrives(code: string)
    requires Clean(code)
    ensures Arrived(code) == code
    decreases |code|
  {
    if code != "" {
      assert CleanAt(code, 0);
      if code[0] != '\\' {
        CleanTail(code, 1);
        CleanArrives(code[1..]);
        CollectedHead(code[1..]);
        RestoreNewline(Collected(code[1..]));
        RestoreCons(code[0], Collected(code[1..]));
        assert code == [code[0]] + code[1..];
      } else {
        assert CleanAt(code, 1);
        CleanTail(code, 2);
        CleanArrives(code[2..]);
        ArrivedEscape(code);
        assert code == code[..2] + code[2..];
      }
    }
  }

  // A backslash that nothing special follows stays where it is.
  lemma ArrivedEscape(code: string)
    requires |code| > 1 && code[0] == '\\' && !Special(code[1]) && CleanAt(code, 1)
    ensures Arrived(code) == code[..2] + Arrived(code[2..])
  {
    var s := Collected(code[2..]);
    CollectedHead(code[2..]);
    if code[1] == '\n' {
      assert "\\<>" + s == ['\\'] + ("<>" + s);
      RestoreNewline(s);
      RestoreCons('\\', "<>" + s);
    } else {
      assert code[..2] + s == ['\\'] + ([code[1]] + s);
      RestoreCons(code[1], s);
      RestoreCons('\\', [code[1]] + s);
    }
  }

  /** Code that is not clean arrives shorter, or with its last backslash turned into a quote. */
  predicate Damaged(code: string, arrived: string)
  {
    |arrived| < |code| ||
    (|arrived| == |code| && code != "" && code[|code| - 1] == '\\' && arrived[|code| - 1] == '"')
  }

  lemma {:induction false} NeverLonger(code: string)
    ensures |Arrived(code)| <= |code|
    decreases |code|
  {
    if code != "" {
      if code[0] != '\\' {
        NeverLonger(code[1..]);
        RestoreNewline(Collected(code[1..]));
        RestoreCons(code[0], Collected(code[1..]));
      } else if |code| > 1 && code[1] != '"' {
        NeverLonger(code[2..]);
        ArrivedPair(code);
      } else {
        RestoreOne('"');
        RestoreOne('\\');
      }
    }
  }

  // A backslash and the character after it arrive as at most two characters.
  lemma ArrivedPair(code: string)
    requires |code| > 1 && code[0] == '\\' && code[1] != '"'
    ensures |Arrived(code)| <= 2 + |Arrived(code[2..])|
    ensures Special(code[1]) ==> |Arrived(code)| <= 1 + |Arrived(code[2..])|
    ensures !CleanAt(code, 1) && !Special(code[1]) ==> |Arrived(code)| <= 1 + |Arrived(code[2..])|
    ensures !Special(code[1]) && CleanAt(code, 1) ==> Arrived(code) == code[..2] + Arrived(code[2..])
  {
    var s := Collected(code[2..]);
    CollectedHead(code[2..]);
    if Special(code[1]) {
      RestoreCons(code[1], s);
    } else if CleanAt(code, 1) {
      ArrivedEscape(code);
    } else {
      assert code[..2] + s == ['\\'] + (['<'] + s);
      RestoreCons('<', s);
      RestoreCons('\\', ['<'] + s);
    }
  }

  lemma {:induction false} UncleanDamaged(code: string)
    requires !Clean(code)
    ensures Damaged(code, Arrived(code))
    decreases |code|
  {
    if code[0] != '\\' {
      NeverLonger(code[1..]);
      RestoreNewline(Collected(code[1..]));
      RestoreCons(code[0], Collected(code[1..]));
      CollectedHead(code[1..]);
      if CleanAt(code, 0) {
        CleanTail(code, 1);
        UncleanDamaged(code[1..]);
        assert Arrived(code) == [code[0]] + Arrived(code[1..]);
      }
    } else if |code| == 1 {
      RestoreOne('"');
    } else if code[1] == '"' {
      RestoreOne('\\');
    } else {
      NeverLonger(code[2..]);
      ArrivedPair(code);
      if !Special(code[1]) && CleanAt(code, 1) {
        CleanTail(code, 2);
        UncleanDamaged(code[2..]);
      }
    }
  }

  /** Code arrives unchanged exactly when it is clean. */
  lemma SurvivesIffClean(code: string)
    ensures Arrived(code) == code <==> Clean(code)
  {
    if Clean(code) {
      CleanArrives(code);
    } else {
      UncleanDamaged(code);
    }
  }
}
