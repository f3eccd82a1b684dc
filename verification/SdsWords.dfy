/** The words that `sdssplitargs` reads, written out: a bare word, or one that ends in a quoted part of
    either kind, with every escape. */
module SdsWords {
  import opened Wrappers
  import opened Decimal
  import opened SdsQuote

  // ---------- Between double quotes ----------

  type Nibble = d: int | 0 <= d < 16

  /** A character as it stands, one behind a backslash, and a byte in two hexadecimal digits. */
  datatype Unit = Raw(c: char) | Escaped(c: char) | Hex(high: Nibble, low: Nibble, upper: bool)

  function Digit(d: Nibble, upper: bool): char
  {
    if upper then "0123456789ABCDEF"[d] else "0123456789abcdef"[d]
  }

  predicate ReadsAsHex(s: string) { |s| >= 2 && IsXDigit(s[0]) && IsXDigit(s[1]) }

  /** The unit can be written in front of `after`: a backslash is no character as it stands, and an `x`
      behind one must not meet two digits. */
  predicate Proper(u: Unit, after: string)
  {
    match u
    case Raw(c) => c != '"' && c != '\\'
    case Escaped(c) => !(c == 'x' && ReadsAsHex(after))
    case Hex(_, _, _) => true
  }

  function Written(u: Unit): string
  {
    match u
    case Raw(c) => [c]
    case Escaped(c) => ['\\', c]
    case Hex(high, low, upper) => "\\x" + [Digit(high, upper), Digit(low, upper)]
  }

  /** Five letters behind a backslash stand for control bytes. */
  predicate Means(u: Unit, c: char)
  {
    match u
    case Raw(x) => c == x
    case Escaped(x) =>
      if x == 'n' then c as int == 10 else if x == 'r' then c as int == 13 else if x == 't' then c as int == 9
      else if x == 'b' then c as int == 8 else if x == 'a' then c as int == 7 else c == x
    case Hex(high, low, _) => c as int == 16 * high + low
  }

  lemma DigitReads(d: Nibble, upper: bool)
    ensures IsXDigit(Digit(d, upper)) && HexValue(Digit(d, upper)) == d
  {
  }

  lemma ReadsUnit(u: Unit, c: char, after: string, cur: string)
    requires Proper(u, after) && Means(u, c)
    ensures Scan(Written(u) + after, cur, Double) == Scan(after, cur + [c], Double)
  {
    var w := Written(u);
    var s := w + after;
    assert s[|w|..] == after && forall i :: 0 <= i < |w| ==> s[i] == w[i];
    if u.Hex? {
      DigitReads(u.high, u.upper);
      DigitReads(u.low, u.upper);
      assert HexEscape(s) && HexByte(s) == c;
    } else if u.Escaped? {
      assert u.c == 'x' && |s| >= 4 ==> s[2] == after[0] && s[3] == after[1];
      assert !HexEscape(s);
      assert Unescape(u.c) == c;
    }
  }

  predicate AllProper(units: seq<Unit>, text: string, after: string)
  {
    |units| == |text| &&
    (units == [] ||
     (AllProper(units[1..], text[1..], after) && Means(units[0], text[0]) &&
      Proper(units[0], AllWritten(units[1..]) + after)))
  }

  function AllWritten(units: seq<Unit>): string
  {
    if units == [] then "" else Written(units[0]) + AllWritten(units[1..])
  }

  /** What is written between double quotes is read up to the closing one, which must be followed by a blank
      or by nothing. */
  lemma {:induction false} DoubleQuoted(units: seq<Unit>, text: string, cur: string, rest: string)
    requires AllProper(units, text, "\"" + rest)
    ensures Scan(AllWritten(units) + ("\"" + rest), cur, Double) ==
            if BlankStart(rest) then Token(cur + text, rest) else Unbalanced
    decreases units
  {
    hide Scan;
    var close := "\"" + rest;
    if units == [] {
      assert AllWritten(units) + close == close && cur + text == cur;
      Closes(cur, rest, Double);
    } else {
      var after := AllWritten(units[1..]) + close;
      assert AllWritten(units) + close == Written(units[0]) + after;
      ReadsUnit(units[0], text[0], after, cur);
      DoubleQuoted(units[1..], text[1..], cur + [text[0]], rest);
      assert cur + [text[0]] + text[1..] == cur + text;
    }
  }

  lemma Closes(cur: string, rest: string, q: Quote)
    requires q != Plain
    ensures Scan((if q == Double then "\"" else "'") + rest, cur, q) ==
            if BlankStart(rest) then Token(cur, rest) else Unbalanced
  {
    var s := (if q == Double then "\"" else "'") + rest;
    assert s[1..] == rest;
  }

  /** Without a closing quote there is no word. */
  lemma Unclosed(cur: string, q: Quote)
    ensures Scan("", cur, q) == if q == Plain then Token(cur, "") else Unbalanced
    ensures Scan("\\", cur, Double) == Unbalanced && Scan("\\", cur, Single) == Unbalanced
  {
  }

  // ---------- Between single quotes ----------

  /** Only the quote itself is written with a backslash. */
  function SingleWritten(text: string): string
  {
    if text == "" then "" else (if text[0] == '\'' then "\\'" else [text[0]]) + SingleWritten(text[1..])
  }

  /** Between single quotes every text can be written that does not end in a backslash. */
  lemma {:induction false} SingleQuoted(text: string, cur: string, rest: string)
    requires text == "" || text[|text| - 1] != '\\'
    ensures Scan(SingleWritten(text) + ("'" + rest), cur, Single) ==
            if BlankStart(rest) then Token(cur + text, rest) else Unbalanced
    decreases text
  {
    hide Scan, SingleWritten, BlankStart;
    SingleStarts(text);
    var close := "'" + rest;
    if text == "" {
      assert SingleWritten(text) + close == close && cur + text == cur;
      Closes(cur, rest, Single);
    } else {
      var after := SingleWritten(text[1..]) + close;
      SingleRegrouped(if text[0] == '\'' then "\\'" else [text[0]], SingleWritten(text[1..]), close);
      SingleStarts(text[1..]);
      ReadsSingle(text[0], after, cur);
      SingleQuoted(text[1..], cur + [text[0]], rest);
      SingleRegrouped(cur, [text[0]], text[1..]);
      assert [text[0]] + text[1..] == text;
    }
  }

  lemma SingleRegrouped(a: string, b: string, c: string)
    ensures a + b + c == a + (b + c) && (b != "" ==> (b + c)[0] == b[0])
  {
  }

  lemma SingleStarts(text: string)
    ensures SingleWritten(text) ==
            if text == "" then "" else (if text[0] == '\'' then "\\'" else [text[0]]) + SingleWritten(text[1..])
    ensures text != "" ==> SingleWritten(text) != "" && SingleWritten(text)[0] != '\''
  {
  }

  lemma ReadsSingle(c: char, after: string, cur: string)
    requires c == '\\' ==> after != "" && after[0] != '\''
    ensures Scan((if c == '\'' then "\\'" else [c]) + after, cur, Single) == Scan(after, cur + [c], Single)
  {
    var w := if c == '\'' then "\\'" else [c];
    var s := w + after;
    assert s[|w|..] == after && forall i :: 0 <= i < |w| ==> s[i] == w[i];
  }

  // ---------- Outside quotes ----------

  /** White space between words is more than what ends a bare word: vertical tabs and form feeds too. */
  lemma Spaces(c: char)
    ensures IsSpace(c) <==> c in " \t\n\r\U{000B}\U{000C}"
  {
  }

  /** Neither a quote nor one of the four characters that end a word. */
  predicate Bare(text: string)
  {
    forall c <- text :: c != '"' && c != '\'' && c != ' ' && c != '\n' && c != '\r' && c != '\t'
  }

  lemma {:induction false} BareReads(text: string, after: string, cur: string)
    requires Bare(text)
    ensures Scan(text + after, cur, Plain) == Scan(after, cur + text, Plain)
    decreases text
  {
    hide Scan;
    if text == "" {
      assert text + after == after && cur + text == cur;
    } else {
      assert text[0] in text && forall c <- text[1..] :: c in text;
      assert text + after == [text[0]] + (text[1..] + after);
      ReadsBare(text[0], text[1..] + after, cur);
      BareReads(text[1..], after, cur + [text[0]]);
      assert cur + [text[0]] + text[1..] == cur + text;
    }
  }

  lemma ReadsBare(c: char, after: string, cur: string)
    requires Bare([c])
    ensures Scan([c] + after, cur, Plain) == Scan(after, cur + [c], Plain)
  {
    assert c in [c];
    assert ([c] + after)[1..] == after;
  }

  lemma Turns(after: string, cur: string)
    ensures Scan("\"" + after, cur, Plain) == Scan(after, cur, Double)
    ensures Scan("'" + after, cur, Plain) == Scan(after, cur, Single)
  {
    assert ("\"" + after)[1..] == after && ("'" + after)[1..] == after && cur + "" == cur;
  }

  lemma BreakEnds(c: char, after: string, cur: string)
    requires c == ' ' || c == '\n' || c == '\r' || c == '\t'
    ensures Scan([c] + after, cur, Plain) == Token(cur, after)
  {
    assert ([c] + after)[1..] == after;
  }

  // ---------- Words ----------

  /** A word may begin bare and end in a quoted part. */
  datatype Word =
    | Unquoted(text: string)
    | InDouble(bare: string, units: seq<Unit>, text: string)
    | InSingle(bare: string, text: string)

  predicate Wordy(w: Word, after: string)
  {
    match w
    case Unquoted(text) => text != "" && Bare(text) && !IsSpace(text[0])
    case InDouble(bare, units, text) => Bare(bare) && StartsDark(bare) && AllProper(units, text, "\"" + after)
    case InSingle(bare, text) => Bare(bare) && StartsDark(bare) && (text == "" || text[|text| - 1] != '\\')
  }

  predicate StartsDark(bare: string) { bare == "" || !IsSpace(bare[0]) }

  function WordText(w: Word): string
  {
    match w
    case Unquoted(text) => text
    case InDouble(bare, units, _) => bare + ("\"" + (AllWritten(units) + "\""))
    case InSingle(bare, text) => bare + ("'" + (SingleWritten(text) + "'"))
  }

  function WordMeaning(w: Word): string
  {
    if w.Unquoted? then w.text else w.bare + w.text
  }

  predicate EndsWord(after: string)
  {
    after == "" || after[0] == ' ' || after[0] == '\n' || after[0] == '\r' || after[0] == '\t'
  }

  lemma WordScans(w: Word, after: string)
    requires Wordy(w, after) && (w.Unquoted? ==> EndsWord(after))
    ensures Scan(WordText(w) + after, "", Plain) ==
            if w.Unquoted? then Token(w.text, if after == "" then "" else after[1..])
            else if BlankStart(after) then Token(WordMeaning(w), after) else Unbalanced
  {
    hide Scan, AllProper, AllWritten, SingleWritten, Bare;
    match w {
      case Unquoted(text) => UnquotedScans(text, after);
      case InDouble(bare, units, text) =>
        Regrouped(bare, "\"", AllWritten(units), after);
        Leads(bare, AllWritten(units) + ("\"" + after));
        DoubleQuoted(units, text, bare, after);
      case InSingle(bare, text) =>
        Regrouped(bare, "'", SingleWritten(text), after);
        Leads(bare, SingleWritten(text) + ("'" + after));
        SingleQuoted(text, bare, after);
    }
  }

  lemma Regrouped(bare: string, quote: string, inner: string, after: string)
    ensures bare + (quote + (inner + quote)) + after == bare + (quote + (inner + (quote + after)))
  {
  }

  lemma Leads(bare: string, inner: string)
    requires Bare(bare)
    ensures Scan(bare + ("\"" + inner), "", Plain) == Scan(inner, bare, Double)
    ensures Scan(bare + ("'" + inner), "", Plain) == Scan(inner, bare, Single)
  {
    hide Scan;
    BareReads(bare, "\"" + inner, "");
    BareReads(bare, "'" + inner, "");
    assert "" + bare == bare;
    Turns(inner, bare);
  }

  lemma UnquotedScans(text: string, after: string)
    requires Bare(text) && EndsWord(after)
    ensures Scan(text + after, "", Plain) == Token(text, if after == "" then "" else after[1..])
  {
    hide Scan, Bare;
    BareReads(text, after, "");
    assert "" + text == text;
    Unclosed(text, Plain);
    if after != "" {
      assert after == [after[0]] + after[1..];
      BreakEnds(after[0], after[1..], text);
    }
  }

  lemma SkipsBreak(after: string)
    requires EndsWord(after) && after != ""
    ensures Split(after) == Split(after[1..])
  {
    hide Scan;
    assert SkipBlanks(after) == SkipBlanks(after[1..]);
  }

  lemma SplitToken(s: string)
    requires s != "" && !IsSpace(s[0])
    ensures Split(s) == match Scan(s, "", Plain)
                        case Unbalanced => None
                        case Token(text, rest) => Cons([text], Split(rest))
  {
    hide Scan;
  }

  /** A line that begins with a word: the first argument is what the word means and the others are those of the
      rest; behind a closing quote there must be a blank or nothing. */
  lemma SplitReadsWord(w: Word, after: string)
    requires Wordy(w, after) && (w.Unquoted? ==> EndsWord(after))
    ensures Split(WordText(w) + after) ==
            if BlankStart(after) then Cons([WordMeaning(w)], Split(after)) else None
  {
    hide Scan, Split;
    WordScans(w, after);
    var s := WordText(w) + after;
    assert s != "" && !IsSpace(s[0]);
    SplitToken(s);
    if w.Unquoted? && after != "" {
      SkipsBreak(after);
    }
  }

  predicate Spaced(words: seq<Word>, blanks: string)
  {
    forall i :: 0 <= i < |words| ==> Wordy(words[i], blanks + LineText(words[i + 1..], blanks))
  }

  function LineText(words: seq<Word>, blanks: string): string
  {
    if words == [] then "" else WordText(words[0]) + (blanks + LineText(words[1..], blanks))
  }

  function Meanings(words: seq<Word>): seq<string>
  {
    seq(|words|, i requires 0 <= i < |words| => WordMeaning(words[i]))
  }

  /** Every line of words, each followed by white space that begins with a blank, splits into what they mean. */
  lemma {:induction false} SplitReadsLine(words: seq<Word>, blanks: string)
    requires blanks != "" && EndsWord(blanks) && (forall c <- blanks :: IsSpace(c)) && Spaced(words, blanks)
    ensures Split(LineText(words, blanks)) == Some(Meanings(words))
    decreases words
  {
    hide Split, Wordy, WordText;
    if words == [] {
      SplitNothing();
    } else {
      var more := LineText(words[1..], blanks);
      assert words[0..][1..] == words[1..];
      forall i | 0 <= i < |words[1..]|
        ensures Wordy(words[1..][i], blanks + LineText(words[1..][i + 1..], blanks))
      {
        assert words[1..][i] == words[i + 1] && words[1..][i + 1..] == words[i + 1 + 1..];
      }
      SplitReadsWord(words[0], blanks + more);
      SplitSkips(blanks, more);
      SplitReadsLine(words[1..], blanks);
      assert Meanings(words) == [WordMeaning(words[0])] + Meanings(words[1..]);
    }
  }

  lemma SplitNothing()
    ensures Split("") == Some([])
  {
  }

  lemma {:induction false} SplitSkips(blanks: string, s: string)
    requires forall c <- blanks :: IsSpace(c)
    ensures Split(blanks + s) == Split(s)
    decreases blanks
  {
    hide Scan;
    if blanks == "" {
      assert blanks + s == s;
    } else {
      assert blanks[0] in blanks && forall c <- blanks[1..] :: c in blanks;
      assert (blanks + s)[1..] == blanks[1..] + s;
      SplitSkips(blanks[1..], s);
    }
  }

  // ---------- Quoted text ----------

  /** What the quoting writes for a byte: it is a unit that means the byte; printable bytes but the quote and the
      backslash stand for themselves, five control bytes have letters, the others two lower-case digits. */
  lemma EscapeIsUnit(c: char) returns (u: Unit)
    requires IsByte(c)
    ensures Means(u, c) && (u.Hex? ==> !u.upper) && SdsQuote.Escape(c) == Written(u)
    ensures u.Raw? <==> 32 <= c as int <= 126 && c != '"' && c != '\\'
    ensures u.Escaped? <==> c == '"' || c == '\\' || 7 <= c as int <= 10 || c as int == 13
  {
    var e := SdsQuote.Escape(c);
    if |e| == 1 {
      u := Raw(c);
    } else if |e| == 2 {
      u := Escaped(e[1]);
      assert e == ['\\', e[1]];
    } else {
      u := Hex(c as int / 16, c as int % 16, false);
      SameDigit(c as int / 16);
      SameDigit(c as int % 16);
    }
  }

  lemma SameDigit(d: nat)
    requires d < 16
    ensures SdsQuote.HexDigit(d) == "0123456789abcdef"[d]
  {
  }
}
