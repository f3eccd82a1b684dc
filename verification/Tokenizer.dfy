/** The command line tokenizer of `split.h`: words, quoted sentences and backslash escapes. */
module Tokenizer {
  datatype Mode = Space | InWord | Sentence | Escape

  /** The scanner state; `tokens` may still hold empty entries. */
  datatype Scanner = Scanner(mode: Mode, prev: Mode, quote: char, tokens: seq<string>)

  const INITIAL := Scanner(Space, Space, '"', [])

  predicate IsBlank(c: char) { c == ' ' || c == '\t' || c == '\n' }

  predicate IsQuote(c: char) { c == '"' || c == '\'' }

  predicate Special(c: char) { IsQuote(c) || c == '\\' }

  /** A token is under construction whenever the scanner is not between tokens. */
  predicate Ok(t: Scanner)
  {
    (t.mode != Space ==> t.tokens != []) && (t.mode == Escape ==> t.prev in {InWord, Sentence})
  }

  function Grow(tokens: seq<string>, text: string): seq<string>
    requires tokens != []
  {
    tokens[|tokens| - 1 := tokens[|tokens| - 1] + text]
  }

  function NewSentence(t: Scanner, c: char): Scanner
  {
    t.(mode := Sentence, quote := c, tokens := t.tokens + [""])
  }

  function Eval(t: Scanner, c: char): (t': Scanner)
    requires Ok(t)
    ensures Ok(t')
  {
    match t.mode
    case Space =>
      if IsBlank(c) then t
      else if IsQuote(c) then NewSentence(t, c)
      else if c == '\\' then t.(mode := Escape, prev := InWord, tokens := t.tokens + [""])
      else t.(mode := InWord, tokens := t.tokens + [[c]])
    case InWord =>
      if IsBlank(c) then t.(mode := Space)
      else if IsQuote(c) then NewSentence(t, c)
      else if c == '\\' then t.(mode := Escape, prev := InWord)
      else t.(tokens := Grow(t.tokens, [c]))
    case Sentence =>
      if c == t.quote && IsQuote(c) then t.(mode := Space)
      else if c == '\\' then t.(mode := Escape, prev := Sentence)
      else t.(tokens := Grow(t.tokens, [c]))
    case Escape =>
      t.(mode := t.prev, tokens := Grow(t.tokens, if IsQuote(c) || c == '\\' then [c] else ['\\', c]))
  }

  function Run(t: Scanner, s: string): (t': Scanner)
    requires Ok(t)
    ensures Ok(t')
    decreases |s|
  {
    if s == "" then t else Run(Eval(t, s[0]), s[1..])
  }

  function NonEmpty(tokens: seq<string>): (r: seq<string>)
    ensures forall i :: 0 <= i < |r| ==> r[i] != ""
  {
    if tokens == [] then []
    else (if tokens[0] == "" then [] else [tokens[0]]) + NonEmpty(tokens[1..])
  }

  function Tokens(input: string): seq<string> { NonEmpty(Run(INITIAL, input).tokens) }

  /** The scanner object. Its methods never touch a last token that is not there. */
  class Text {
    const input: string
    var state: Mode
    var prevState: Mode
    var sentenceType: char
    var splitResult: seq<string>

    constructor (input: string)
      ensures this.input == input && Abs() == INITIAL
    {
      this.input := input;
      state, prevState, sentenceType, splitResult := Space, Space, '"', [];
    }

    ghost function Abs(): Scanner
      reads this
    {
      Scanner(state, prevState, sentenceType, splitResult)
    }

    method Reset()
      modifies this
      ensures Abs() == INITIAL
    {
      state, prevState, sentenceType, splitResult := Space, Space, '"', [];
    }

    method StartSentence(c: char)
      requires IsQuote(c)
      modifies this
      ensures Abs() == NewSentence(old(Abs()), c)
    {
      state := Sentence;
      sentenceType := c;
      splitResult := splitResult + [""];
    }

    method Append(text: string)
      requires splitResult != []
      modifies this`splitResult
      ensures splitResult == Grow(old(splitResult), text)
    {
      splitResult := splitResult[|splitResult| - 1 := splitResult[|splitResult| - 1] + text];
    }

    method EvalSpace(c: char)
      requires state == Space
      modifies this
      ensures Abs() == Eval(old(Abs()), c)
    {
      if IsBlank(c) {
      } else if IsQuote(c) {
        StartSentence(c);
      } else if c == '\\' {
        prevState := InWord;
        state := Escape;
        splitResult := splitResult + [""];
      } else {
        state := InWord;
        splitResult := splitResult + [[c]];
      }
    }

    method EvalWord(c: char)
      requires state == InWord && Ok(Abs())
      modifies this
      ensures Abs() == Eval(old(Abs()), c)
    {
      if IsBlank(c) {
        state := Space;
      } else if IsQuote(c) {
        StartSentence(c);
      } else if c == '\\' {
        prevState := state;
        state := Escape;
      } else {
        Append([c]);
      }
    }

    method EvalSentence(c: char)
      requires state == Sentence && Ok(Abs())
      modifies this
      ensures Abs() == Eval(old(Abs()), c)
    {
      if IsQuote(c) {
        if c == sentenceType {
          state := Space;
        } else {
          Append([c]);
        }
      } else if c == '\\' {
        prevState := state;
        state := Escape;
      } else {
        Append([c]);
      }
    }

    method EvalEscape(c: char)
      requires state == Escape && Ok(Abs())
      modifies this
      ensures Abs() == Eval(old(Abs()), c)
    {
      ghost var last := splitResult[|splitResult| - 1];
      assert last + "\\" + [c] == last + ['\\', c];
      if c != '"' && c != '\'' && c != '\\' {
        Append("\\");
      }
      Append([c]);
      state := prevState;
    }

    method EvalChar(c: char)
      requires Ok(Abs())
      modifies this
      ensures Abs() == Eval(old(Abs()), c)
    {
      match state
      case Space => EvalSpace(c);
      case InWord => EvalWord(c);
      case Sentence => EvalSentence(c);
      case Escape => EvalEscape(c);
    }

    method RemoveEmptyEntries()
      modifies this`splitResult
      ensures splitResult == NonEmpty(old(splitResult))
    {
      var kept := [];
      assert splitResult[0..] == splitResult;
      for i := 0 to |splitResult|
        invariant NonEmpty(splitResult) == kept + NonEmpty(splitResult[i..])
      {
        assert splitResult[i..][1..] == splitResult[i + 1..];
        if splitResult[i] != "" {
          kept := kept + [splitResult[i]];
        }
      }
      splitResult := kept;
    }

    method SplitInto() returns (strs: seq<string>)
      modifies this
      ensures strs == Tokens(input)
    {
      Reset();
      assert input[0..] == input;
      for i := 0 to |input|
        invariant Ok(Abs()) && Run(INITIAL, input) == Run(Abs(), input[i..])
      {
        assert input[i..][1..] == input[i + 1..];
        EvalChar(input[i]);
      }
      RemoveEmptyEntries();
      strs := splitResult;
    }
  }

  // ----- Runs

  lemma {:induction false} RunAppend(t: Scanner, a: string, b: string)
    requires Ok(t)
    ensures Run(t, a + b) == Run(Run(t, a), b)
    decreases |a|
  {
    if a == "" {
      assert a + b == b;
    } else {
      assert (a + b)[0] == a[0] && (a + b)[1..] == a[1..] + b;
      RunAppend(Eval(t, a[0]), a[1..], b);
    }
  }

  /** Tokens that are finished when the scanner is between tokens are never changed again. */
  lemma {:induction false} RunKeeps(t: Scanner, s: string, k: nat)
    requires Ok(t) && k <= |t.tokens| && (t.mode != Space ==> k < |t.tokens|)
    ensures k <= |Run(t, s).tokens| && Run(t, s).tokens[..k] == t.tokens[..k]
    decreases |s|
  {
    if s != "" {
      var t' := Eval(t, s[0]);
      assert t'.tokens[..k] == t.tokens[..k];
      RunKeeps(t', s[1..], k);
    }
  }

  /** Text inside a word that the scanner reads as it stands: no quote, a blank only behind a backslash, and a
      backslash only in front of a character that it does not change. */
  predicate WordText(w: string)
    decreases |w|
  {
    w == "" ||
    if w[0] == '\\' then |w| > 1 && !Special(w[1]) && w[1] != '\n' && WordText(w[2..])
    else !IsBlank(w[0]) && !IsQuote(w[0]) && WordText(w[1..])
  }

  /** A word of a line that is read as it stands. */
  predicate Plain(w: string) { w != "" && WordText(w) }

  /** A character that has no meaning of its own anywhere. */
  predicate PlainChar(c: char) { !IsBlank(c) && !Special(c) }

  lemma {:induction false} PlainCharsText(w: string)
    requires forall i :: 0 <= i < |w| ==> PlainChar(w[i])
    ensures WordText(w)
  {
    if w != "" {
      assert PlainChar(w[0]);
      PlainCharsText(w[1..]);
    }
  }

  /** Which mode the scanner will return to matters only while it escapes. */
  lemma {:induction false} PrevIrrelevant(t: Scanner, u: Scanner, s: string)
    requires Ok(t) && Ok(u) && t.mode != Escape && u == t.(prev := u.prev)
    ensures Run(t, s).tokens == Run(u, s).tokens
    decreases |s|
  {
    if s != "" {
      var t', u' := Eval(t, s[0]), Eval(u, s[0]);
      if t'.mode == Escape {
        assert t' == u';
      } else {
        PrevIrrelevant(t', u', s[1..]);
      }
    }
  }

  lemma RunPair(t: Scanner, a: char, b: char, rest: string)
    requires Ok(t)
    ensures Run(t, [a, b] + rest) == Run(Eval(Eval(t, a), b), rest)
  {
    assert ([a, b] + rest)[1..] == [b] + rest && ([b] + rest)[1..] == rest;
  }

  lemma {:induction false} RunInWord(t: Scanner, w: string)
    requires Ok(t) && t.mode == InWord && WordText(w)
    ensures Run(t, w) == t.(prev := Run(t, w).prev, tokens := Grow(t.tokens, w))
    decreases |w|
  {
    var last := t.tokens[|t.tokens| - 1];
    if w == "" {
      assert last + w == last;
    } else if w[0] == '\\' {
      assert w == [w[0], w[1]] + w[2..];
      RunPair(t, w[0], w[1], w[2..]);
      RunInWord(Eval(Eval(t, w[0]), w[1]), w[2..]);
      assert last + ['\\', w[1]] + w[2..] == last + w;
    } else {
      RunInWord(Eval(t, w[0]), w[1..]);
      assert last + [w[0]] + w[1..] == last + w;
    }
  }

  /** A plain word read between tokens becomes a token. */
  lemma RunWholeWord(t: Scanner, w: string)
    requires Ok(t) && t.mode == Space && Plain(w)
    ensures Run(t, w) == t.(mode := InWord, prev := Run(t, w).prev, tokens := t.tokens + [w])
  {
    if w[0] == '\\' {
      var t' := Eval(Eval(t, w[0]), w[1]);
      assert w == [w[0], w[1]] + w[2..];
      RunPair(t, w[0], w[1], w[2..]);
      RunInWord(t', w[2..]);
      assert "" + ['\\', w[1]] + w[2..] == w && t'.tokens == t.tokens + ["" + ['\\', w[1]]];
    } else {
      RunInWord(Eval(t, w[0]), w[1..]);
      assert [w[0]] + w[1..] == w;
    }
  }

  /** A plain word followed by a space adds itself as a token. */
  lemma RunWord(t: Scanner, w: string, rest: string)
    requires Ok(t) && t.mode == Space && Plain(w)
    ensures Run(t, w + " " + rest).tokens == Run(t.(tokens := t.tokens + [w]), rest).tokens
  {
    var t1 := Run(t, w);
    RunWholeWord(t, w);
    var t2 := Eval(t1, ' ');
    RunAppend(t, w, " " + rest);
    assert w + " " + rest == w + (" " + rest) && (" " + rest)[1..] == rest;
    PrevIrrelevant(t2, t.(tokens := t.tokens + [w]), rest);
  }

  lemma RunLastWord(t: Scanner, w: string)
    requires Ok(t) && t.mode == Space && Plain(w)
    ensures Run(t, w).tokens == t.tokens + [w]
  {
    RunWholeWord(t, w);
  }

  lemma {:induction false} NonEmptyAll(tokens: seq<string>)
    requires forall i :: 0 <= i < |tokens| ==> tokens[i] != ""
    ensures NonEmpty(tokens) == tokens
  {
    if tokens != [] {
      NonEmptyAll(tokens[1..]);
    }
  }

  lemma {:induction false} NonEmptyPrefix(tokens: seq<string>, k: nat)
    requires k <= |tokens| && forall i :: 0 <= i < k ==> tokens[i] != ""
    ensures |NonEmpty(tokens)| >= k && NonEmpty(tokens)[..k] == tokens[..k]
  {
    if k > 0 {
      NonEmptyPrefix(tokens[1..], k - 1);
      assert NonEmpty(tokens)[1..] == NonEmpty(tokens[1..]);
      assert tokens[..k] == [tokens[0]] + tokens[1..][..k - 1];
      assert NonEmpty(tokens)[..k] == [tokens[0]] + NonEmpty(tokens[1..])[..k - 1];
    }
  }

  /** A line of plain words. */
  function JoinWords(ws: seq<string>): string
  {
    if ws == [] then "" else if |ws| == 1 then ws[0] else ws[0] + " " + JoinWords(ws[1..])
  }

  lemma {:induction false} RunWords(t: Scanner, ws: seq<string>)
    requires Ok(t) && t.mode == Space && forall i :: 0 <= i < |ws| ==> Plain(ws[i])
    ensures Run(t, JoinWords(ws)).tokens == t.tokens + ws
    decreases |ws|
  {
    if |ws| == 1 {
      RunLastWord(t, ws[0]);
      assert [ws[0]] == ws;
    } else if |ws| > 1 {
      RunWord(t, ws[0], JoinWords(ws[1..]));
      RunWords(t.(tokens := t.tokens + [ws[0]]), ws[1..]);
      assert t.tokens + [ws[0]] + ws[1..] == t.tokens + ws;
    }
  }

  /** Plain words are tokenized as they were written. */
  lemma TokensOfWords(ws: seq<string>)
    requires forall i :: 0 <= i < |ws| ==> Plain(ws[i])
    ensures Tokens(JoinWords(ws)) == ws
  {
    RunWords(INITIAL, ws);
    assert [] + ws == ws;
    NonEmptyAll(ws);
  }

  /** Indentation does not change the tokens of a line. */
  lemma {:induction false} TokensIndented(blanks: string, line: string)
    requires forall i :: 0 <= i < |blanks| ==> IsBlank(blanks[i])
    ensures Tokens(blanks + line) == Tokens(line)
    decreases |blanks|
  {
    if blanks == "" {
      assert blanks + line == line;
    } else {
      assert (blanks + line)[0] == blanks[0] && (blanks + line)[1..] == blanks[1..] + line;
      TokensIndented(blanks[1..], line);
    }
  }
}
