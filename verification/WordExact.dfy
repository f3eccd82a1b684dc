/** Which words of a command line are read back as they were written: exactly the plain ones. The scanner
    gives at most one character for each that it reads, and a word that is not plain costs it one. */
module WordExact {
  import opened Tokenizer

  function Total(tokens: seq<string>): nat
  {
    if tokens == [] then 0 else |tokens[0]| + Total(tokens[1..])
  }

  /** The characters collected, and the backslash that waits for the next one. */
  function Size(t: Scanner): nat
  {
    Total(t.tokens) + if t.mode == Escape then 1 else 0
  }

  lemma {:induction false} TotalAppend(a: seq<string>, b: seq<string>)
    ensures Total(a + b) == Total(a) + Total(b)
  {
    if a == [] {
      assert a + b == b;
    } else {
      assert (a + b)[1..] == a[1..] + b;
      TotalAppend(a[1..], b);
    }
  }

  lemma TotalSnoc(tokens: seq<string>, w: string)
    ensures Total(tokens + [w]) == Total(tokens) + |w|
  {
    TotalAppend(tokens, [w]);
    assert [w][1..] == [];
  }

  lemma TotalGrow(tokens: seq<string>, text: string)
    requires tokens != []
    ensures Total(Grow(tokens, text)) == Total(tokens) + |text|
  {
    var k := |tokens| - 1;
    assert tokens == tokens[..k] + [tokens[k]];
    assert Grow(tokens, text) == tokens[..k] + [tokens[k] + text];
    TotalSnoc(tokens[..k], tokens[k]);
    TotalSnoc(tokens[..k], tokens[k] + text);
  }

  lemma {:induction false} TotalNonEmpty(tokens: seq<string>)
    ensures Total(NonEmpty(tokens)) == Total(tokens) && |NonEmpty(tokens)| <= |tokens|
  {
    if tokens != [] {
      TotalNonEmpty(tokens[1..]);
      TotalAppend(if tokens[0] == "" then [] else [tokens[0]], NonEmpty(tokens[1..]));
    }
  }

  lemma {:induction false} LastNonEmpty(tokens: seq<string>)
    requires tokens != [] && tokens[|tokens| - 1] != ""
    ensures NonEmpty(tokens) != [] && NonEmpty(tokens)[|NonEmpty(tokens)| - 1] == tokens[|tokens| - 1]
  {
    if |tokens| > 1 {
      LastNonEmpty(tokens[1..]);
    } else {
      assert tokens[1..] == [];
    }
  }

  /** The first tokens of a line have at most the characters of all. */
  lemma TotalPrefix(tokens: seq<string>, k: nat)
    requires k <= |tokens| && forall i :: 0 <= i < |tokens| ==> tokens[i] != ""
    ensures Total(tokens[..k]) + |tokens| - k <= Total(tokens)
  {
    assert tokens == tokens[..k] + tokens[k..];
    TotalAppend(tokens[..k], tokens[k..]);
    TotalAtLeast(tokens[k..]);
  }

  lemma {:induction false} TotalAtLeast(tokens: seq<string>)
    requires forall i :: 0 <= i < |tokens| ==> tokens[i] != ""
    ensures Total(tokens) >= |tokens|
  {
    if tokens != [] {
      TotalAtLeast(tokens[1..]);
    }
  }

  // ----- At most one character for each

  lemma EvalSize(t: Scanner, c: char)
    requires Ok(t)
    ensures Size(Eval(t, c)) <= Size(t) + 1
    ensures Size(Eval(t, c)) == Size(t) + 1 <==> Costless(t, c)
  {
    hide Total, Grow;
    TotalSnoc(t.tokens, "");
    TotalSnoc(t.tokens, [c]);
    if t.tokens != [] {
      TotalGrow(t.tokens, [c]);
      TotalGrow(t.tokens, ['\\', c]);
    }
  }

  /** The character is collected, or waits to be. */
  predicate Costless(t: Scanner, c: char)
  {
    match t.mode
    case Space => !IsBlank(c) && !IsQuote(c)
    case InWord => !IsBlank(c) && !IsQuote(c)
    case Sentence => !(c == t.quote && IsQuote(c))
    case Escape => !Special(c)
  }

  lemma {:induction false} RunSize(t: Scanner, s: string)
    requires Ok(t)
    ensures Size(Run(t, s)) <= Size(t) + |s|
    decreases |s|
  {
    if s != "" {
      EvalSize(t, s[0]);
      RunSize(Eval(t, s[0]), s[1..]);
    }
  }

  /** Every character of `s` is collected. */
  predicate Lossless(t: Scanner, s: string)
    requires Ok(t)
  {
    Size(Run(t, s)) == Size(t) + |s|
  }

  lemma LosslessStep(t: Scanner, s: string)
    requires Ok(t) && Lossless(t, s) && s != ""
    ensures Costless(t, s[0]) && Lossless(Eval(t, s[0]), s[1..])
  {
    EvalSize(t, s[0]);
    RunSize(Eval(t, s[0]), s[1..]);
  }

  /** Inside a token nothing is collected elsewhere. */
  lemma {:induction false} LosslessGrows(t: Scanner, s: string)
    requires Ok(t) && t.mode != Space && Lossless(t, s)
    ensures var t' := Run(t, s);
            t'.mode != Space && |t'.tokens| == |t.tokens| &&
            |t'.tokens[|t.tokens| - 1]| + (if t'.mode == Escape then 1 else 0) ==
            |t.tokens[|t.tokens| - 1]| + (if t.mode == Escape then 1 else 0) + |s|
    decreases |s|
  {
    if s != "" {
      LosslessStep(t, s);
      LosslessGrows(Eval(t, s[0]), s[1..]);
    }
  }

  /** A word that costs nothing is plain, unless a backslash is left over. */
  lemma {:induction false} LosslessText(t: Scanner, w: string)
    requires Ok(t) && t.mode == InWord && Lossless(t, w) && '\n' !in w
    ensures var t' := Run(t, w);
            |t'.tokens| == |t.tokens| && t'.mode in {InWord, Escape} && (t'.mode == Escape ==> t'.prev == InWord) &&
            (t'.mode == InWord ==> WordText(w))
    decreases |w|
  {
    if w != "" {
      LosslessStep(t, w);
      var t1 := Eval(t, w[0]);
      if w[0] != '\\' {
        LosslessText(t1, w[1..]);
      } else if |w| > 1 {
        LosslessStep(t1, w[1..]);
        assert w[1..][1..] == w[2..] && w[1] in w;
        LosslessText(Eval(t1, w[1]), w[2..]);
      } else {
        assert w[1..] == "";
      }
    }
  }

  lemma LosslessWord(t: Scanner, w: string)
    requires Ok(t) && t.mode == Space && Lossless(t, w) && '\n' !in w && w != ""
    ensures var t' := Run(t, w);
            |t'.tokens| == |t.tokens| + 1 && t'.mode in {InWord, Escape} && (t'.mode == Escape ==> t'.prev == InWord) &&
            (t'.mode == InWord ==> Plain(w))
  {
    LosslessStep(t, w);
    var t1 := Eval(t, w[0]);
    if w[0] != '\\' {
      LosslessText(t1, w[1..]);
    } else if |w| > 1 {
      LosslessStep(t1, w[1..]);
      assert w[1..][1..] == w[2..] && w[1] in w;
      LosslessText(Eval(t1, w[1]), w[2..]);
    } else {
      assert w[1..] == "";
    }
  }

  // ----- The lines of a dump

  /** The scanner between tokens, with the given tokens read. */
  function Between(tokens: seq<string>): Scanner { INITIAL.(tokens := tokens) }

  /** The line behind some plain words. */
  lemma {:induction false} RunWordsThen(tokens: seq<string>, ws: seq<string>, rest: string)
    requires forall i :: 0 <= i < |ws| ==> Plain(ws[i])
    ensures Run(Between(tokens), Led(ws, rest)).tokens == Run(Between(tokens + ws), rest).tokens
    decreases |ws|
  {
    if ws == [] {
      assert tokens + ws == tokens;
    } else {
      RunWord(Between(tokens), ws[0], Led(ws[1..], rest));
      RunWordsThen(tokens + [ws[0]], ws[1..], rest);
      assert tokens + [ws[0]] + ws[1..] == tokens + ws;
    }
  }

  /** `rest`, led by words that are each followed by a space. */
  function Led(ws: seq<string>, rest: string): string
  {
    if ws == [] then rest else ws[0] + " " + Led(ws[1..], rest)
  }

  /** The leading words of a line are its first tokens, whatever follows. */
  lemma LedTokens(ws: seq<string>, rest: string)
    requires forall i :: 0 <= i < |ws| ==> Plain(ws[i])
    ensures var ts := Tokens(Led(ws, rest)); |ts| >= |ws| && ts[..|ws|] == ws
  {
    RunWordsThen([], ws, rest);
    assert [] + ws == ws;
    RunKeeps(Between(ws), rest, |ws|);
    NonEmptyPrefix(Run(Between(ws), rest).tokens, |ws|);
  }

  /** The last word of a line is read as it was written if and only if it is plain. */
  lemma LastWordReads(ws: seq<string>, w: string)
    requires (forall i :: 0 <= i < |ws| ==> Plain(ws[i])) && w != "" && '\n' !in w
    ensures var ts := Tokens(Led(ws, w)); |ts| > |ws| && ts[|ws|] == w <==> Plain(w)
  {
    var ts, t0 := Tokens(Led(ws, w)), Between(ws);
    var t1 := Run(t0, w);
    RunWordsThen([], ws, w);
    assert [] + ws == ws;
    assert ts == NonEmpty(t1.tokens);
    LedTokens(ws, w);
    RunSize(t0, w);
    TotalNonEmpty(t1.tokens);
    if Plain(w) {
      RunLastWord(t0, w);
      NonEmptyAll(ws + [w]);
    } else if |ts| > |ws| && ts[|ws|] == w {
      assert ts[..|ws| + 1] == ws + [w];
      TotalSnoc(ws, w);
      TotalPrefix(ts, |ws| + 1);
      LosslessWord(t0, w);
      assert false;
    }
  }

  /** The last word but one is read as it was written, and the last one too, if and only if it is plain. */
  lemma WordBeforeLastReads(ws: seq<string>, w: string, next: string)
    requires (forall i :: 0 <= i < |ws| ==> Plain(ws[i])) && Plain(next) && w != "" && '\n' !in w
    ensures var ts := Tokens(Led(ws, w + " " + next));
            (|ts| >= |ws| + 2 && ts[|ws|] == w && ts[|ws| + 1] == next <==> Plain(w)) &&
            (Plain(w) ==> ts == ws + [w, next])
  {
    var rest := w + " " + next;
    var ts, t0 := Tokens(Led(ws, rest)), Between(ws);
    RunWordsThen([], ws, rest);
    assert [] + ws == ws;
    assert ts == NonEmpty(Run(t0, rest).tokens);
    LedTokens(ws, rest);
    if Plain(w) {
      RunWord(t0, w, next);
      RunLastWord(Between(ws + [w]), next);
      assert ws + [w] + [next] == ws + [w, next];
      NonEmptyAll(ws + [w, next]);
    } else {
      BrokenWord(ws, w, next, ts);
    }
  }

  // A word that is not plain cannot be read back in front of another word: either it runs on into that
  // word, or too few characters are left.
  lemma BrokenWord(ws: seq<string>, w: string, next: string, ts: seq<string>)
    requires (forall i :: 0 <= i < |ws| ==> Plain(ws[i])) && Plain(next) && w != "" && '\n' !in w && !Plain(w)
    requires |ts| >= |ws| && ts[..|ws|] == ws && ts == NonEmpty(Run(Between(ws), w + " " + next).tokens)
    ensures !(|ts| >= |ws| + 2 && ts[|ws|] == w && ts[|ws| + 1] == next)
  {
    hide Run, NonEmpty, Total, WordText;
    var t0 := Between(ws);
    var t1, tail := Run(t0, w), " " + next;
    var t2 := Run(t1, tail);
    RunAppend(t0, w, tail);
    assert w + " " + next == w + tail;
    RunSize(t0, w);
    RunSize(t1, tail);
    TotalNonEmpty(t2.tokens);
    if Lossless(t0, w) {
      LosslessWord(t0, w);
      RunsOn(t1, next);
    } else if |ts| >= |ws| + 2 && ts[|ws|] == w && ts[|ws| + 1] == next {
      EnoughLeft(ws, w, next, ts);
      if t1.mode == Space {
        SpaceCosts(t1, next);
        assert false;
      } else {
        LosslessGrows(t1, tail);
        LastNonEmpty(t2.tokens);
        assert false;
      }
    }
  }

  lemma EnoughLeft(ws: seq<string>, w: string, next: string, ts: seq<string>)
    requires |ts| >= |ws| + 2 && ts[..|ws|] == ws && ts[|ws|] == w && ts[|ws| + 1] == next
    requires forall i :: 0 <= i < |ts| ==> ts[i] != ""
    ensures Total(ts) >= Total(ws) + |w| + |next| + |ts| - |ws| - 2
  {
    assert ts[..|ws| + 2] == ws + [w] + [next];
    TotalSnoc(ws, w);
    TotalSnoc(ws + [w], next);
    TotalPrefix(ts, |ws| + 2);
  }

  lemma SpaceCosts(t: Scanner, next: string)
    requires Ok(t) && t.mode == Space
    ensures Size(Run(t, " " + next)) <= Size(t) + |next|
  {
    assert (" " + next)[1..] == next;
    EvalSize(t, ' ');
    RunSize(Eval(t, ' '), next);
  }

  // A backslash that is left over takes the space, and the next word goes on in the same token.
  lemma RunsOn(t: Scanner, next: string)
    requires Ok(t) && t.mode == Escape && t.prev == InWord && Plain(next)
    ensures |NonEmpty(Run(t, " " + next).tokens)| <= |t.tokens|
  {
    assert (" " + next)[1..] == next;
    RunInWord(Eval(t, ' '), next);
    TotalNonEmpty(Run(t, " " + next).tokens);
  }
}
