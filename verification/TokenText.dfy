/** What a command line is split into, written out: words, sentences in quotes of either kind, and blanks. */
module TokenText {
  import opened Tokenizer

  /** A character as it stands, or one behind a backslash. */
  datatype Unit = Raw(c: char) | Escaped(c: char)

  /** `Sentence` is what stands between two quotes. */
  datatype Part = Gap(c: char) | Word(units: seq<Unit>) | Quoted(quote: char, units: seq<Unit>)

  predicate Quotes(c: char) { c == '"' || c == '\'' }

  predicate Gaps(c: char) { c == ' ' || c == '\t' || c == '\n' }

  /** In a word no blank and no quote stands alone, between quotes only the other one does. */
  predicate UnitOk(p: Part, u: Unit)
    requires !p.Gap?
  {
    u.Raw? ==> u.c != '\\' && if p.Word? then !Gaps(u.c) && !Quotes(u.c) else u.c != p.quote
  }

  predicate PartOk(p: Part)
  {
    match p
    case Gap(c) => Gaps(c)
    case Word(units) => units != [] && forall u <- units :: UnitOk(p, u)
    case Quoted(quote, units) => Quotes(quote) && forall u <- units :: UnitOk(p, u)
  }

  function UnitText(u: Unit): string { if u.Raw? then [u.c] else ['\\', u.c] }

  /** A backslash disappears only in front of a quote or a backslash. */
  function UnitMeaning(u: Unit): string
  {
    if u.Raw? || Quotes(u.c) || u.c == '\\' then [u.c] else ['\\', u.c]
  }

  function UnitsText(units: seq<Unit>): string
  {
    if units == [] then "" else UnitText(units[0]) + UnitsText(units[1..])
  }

  function UnitsMeaning(units: seq<Unit>): string
  {
    if units == [] then "" else UnitMeaning(units[0]) + UnitsMeaning(units[1..])
  }

  function PartText(p: Part): string
  {
    match p
    case Gap(c) => [c]
    case Word(units) => UnitsText(units)
    case Quoted(quote, units) => [quote] + (UnitsText(units) + [quote])
  }

  /** Nothing between quotes is no token. */
  function PartTokens(p: Part): seq<string>
  {
    if p.Gap? || UnitsMeaning(p.units) == "" then [] else [UnitsMeaning(p.units)]
  }

  function LineText(ps: seq<Part>): string { if ps == [] then "" else PartText(ps[0]) + LineText(ps[1..]) }

  function LineTokens(ps: seq<Part>): seq<string> { if ps == [] then [] else PartTokens(ps[0]) + LineTokens(ps[1..]) }

  /** Two words need a blank between them; nothing else does. */
  predicate LineOk(ps: seq<Part>)
  {
    forall i :: 0 <= i < |ps| ==> PartOk(ps[i]) && (i > 0 && ps[i].Word? ==> !ps[i - 1].Word?)
  }

  lemma CharacterKinds(c: char)
    ensures (IsBlank(c) <==> Gaps(c)) && (IsQuote(c) <==> Quotes(c)) && (Special(c) <==> Quotes(c) || c == '\\')
  {
  }

  // ---------- Units ----------

  lemma GrowTwice(tokens: seq<string>, a: string, b: string)
    requires tokens != []
    ensures Grow(Grow(tokens, a), b) == Grow(tokens, a + b) && Grow(tokens, "") == tokens
  {
    var last := tokens[|tokens| - 1];
    assert last + a + b == last + (a + b) && last + "" == last;
  }

  lemma RunUnit(t: Scanner, p: Part, u: Unit, rest: string)
    requires Ok(t) && !p.Gap? && t.mode == (if p.Word? then InWord else Sentence) && UnitOk(p, u)
    requires p.Quoted? ==> t.quote == p.quote && Quotes(p.quote)
    ensures var t' := t.(tokens := Grow(t.tokens, UnitMeaning(u)), prev := if u.Raw? then t.prev else t.mode);
            Ok(t') && Run(t, UnitText(u) + rest) == Run(t', rest)
  {
    CharacterKinds(u.c);
    if u.Raw? {
      assert ([u.c] + rest)[1..] == rest;
    } else {
      RunPair(t, '\\', u.c, rest);
    }
  }

  lemma {:induction false} RunUnits(t: Scanner, p: Part, units: seq<Unit>, rest: string) returns (t': Scanner)
    requires Ok(t) && !p.Gap? && t.mode == (if p.Word? then InWord else Sentence) && forall u <- units :: UnitOk(p, u)
    requires p.Quoted? ==> t.quote == p.quote && Quotes(p.quote)
    ensures Ok(t') && t'.mode == t.mode && t'.quote == t.quote && t'.tokens == Grow(t.tokens, UnitsMeaning(units))
    ensures Run(t, UnitsText(units) + rest) == Run(t', rest)
    decreases units
  {
    hide Run, UnitText, UnitMeaning, Grow;
    if units == [] {
      t' := t;
      GrowTwice(t.tokens, "", "");
      assert UnitsText(units) + rest == rest;
    } else {
      var u := units[0];
      assert u in units && forall x <- units[1..] :: x in units;
      var next := t.(tokens := Grow(t.tokens, UnitMeaning(u)), prev := if u.Raw? then t.prev else t.mode);
      RunUnit(t, p, u, UnitsText(units[1..]) + rest);
      GrowTwice(t.tokens, UnitMeaning(u), UnitsMeaning(units[1..]));
      assert Grow(t.tokens, UnitMeaning(u)) != [];
      t' := RunUnits(next, p, units[1..], rest);
      assert UnitsText(units) + rest == UnitText(u) + (UnitsText(units[1..]) + rest);
    }
  }

  // ---------- Parts ----------

  lemma FirstUnit(t: Scanner, p: Part, u: Unit, rest: string) returns (t': Scanner)
    requires Ok(t) && t.mode == Space && p.Word? && UnitOk(p, u)
    ensures Ok(t') && t'.mode == InWord && t'.tokens == t.tokens + [UnitMeaning(u)]
    ensures Run(t, UnitText(u) + rest) == Run(t', rest)
  {
    CharacterKinds(u.c);
    if u.Raw? {
      assert ([u.c] + rest)[1..] == rest;
      t' := Eval(t, u.c);
    } else {
      RunPair(t, '\\', u.c, rest);
      t' := Eval(Eval(t, '\\'), u.c);
      assert "" + UnitMeaning(u) == UnitMeaning(u);
    }
  }

  lemma RunsWord(t: Scanner, p: Part, rest: string) returns (t': Scanner)
    requires Ok(t) && t.mode == Space && p.Word? && PartOk(p)
    ensures Ok(t') && t'.mode == InWord && t'.tokens == t.tokens + [UnitsMeaning(p.units)]
    ensures Run(t, PartText(p) + rest) == Run(t', rest)
  {
    hide Run, UnitText, UnitMeaning;
    var u, more := p.units[0], p.units[1..];
    assert u in p.units && forall x <- more :: x in p.units;
    assert PartText(p) + rest == UnitText(u) + (UnitsText(more) + rest);
    var next := FirstUnit(t, p, u, UnitsText(more) + rest);
    t' := RunUnits(next, p, more, rest);
    assert next.tokens[|next.tokens| - 1] == UnitMeaning(u);
  }

  lemma RunsQuoted(t: Scanner, p: Part, rest: string) returns (t': Scanner)
    requires Ok(t) && (t.mode == Space || t.mode == InWord) && p.Quoted? && PartOk(p)
    ensures Ok(t') && t'.mode == Space && t'.tokens == t.tokens + [UnitsMeaning(p.units)]
    ensures Run(t, PartText(p) + rest) == Run(t', rest)
    ensures Run(t, [p.quote] + UnitsText(p.units)).tokens == t'.tokens
  {
    hide UnitsText, UnitsMeaning;
    CharacterKinds(p.quote);
    var text, next := UnitsText(p.units), NewSentence(t, p.quote);
    var close := [p.quote] + rest;
    assert PartText(p) + rest == [p.quote] + (text + close) && close[1..] == rest;
    assert ([p.quote] + (text + close))[1..] == text + close && ([p.quote] + text)[1..] == text;
    assert "" + UnitsMeaning(p.units) == UnitsMeaning(p.units);
    assert Grow(next.tokens, UnitsMeaning(p.units)) == t.tokens + [UnitsMeaning(p.units)];
    var ended := RunUnits(next, p, p.units, close);
    var open := RunUnits(next, p, p.units, "");
    assert text + "" == text;
    t' := Eval(ended, p.quote);
  }

  lemma RunsPart(t: Scanner, p: Part, rest: string) returns (t': Scanner)
    requires Ok(t) && PartOk(p) && (t.mode == Space || (t.mode == InWord && !p.Word?))
    ensures Ok(t') && t'.mode == (if p.Word? then InWord else Space)
    ensures Run(t, PartText(p) + rest) == Run(t', rest)
    ensures NonEmpty(t'.tokens) == NonEmpty(t.tokens) + PartTokens(p)
  {
    hide UnitsText, UnitsMeaning;
    if p.Gap? {
      CharacterKinds(p.c);
      t' := Eval(t, p.c);
      assert ([p.c] + rest)[1..] == rest;
    } else {
      if p.Word? {
        t' := RunsWord(t, p, rest);
      } else {
        t' := RunsQuoted(t, p, rest);
      }
      NonEmptySnoc(t.tokens, UnitsMeaning(p.units));
    }
  }

  lemma {:induction false} NonEmptySnoc(tokens: seq<string>, last: string)
    ensures NonEmpty(tokens + [last]) == NonEmpty(tokens) + if last == "" then [] else [last]
  {
    if tokens == [] {
      assert [last][1..] == [];
    } else {
      assert (tokens + [last])[1..] == tokens[1..] + [last];
      NonEmptySnoc(tokens[1..], last);
    }
  }

  // ---------- Lines ----------

  lemma RestOk(ps: seq<Part>)
    requires LineOk(ps) && ps != []
    ensures PartOk(ps[0]) && LineOk(ps[1..]) && (ps[0].Word? && |ps| > 1 ==> !ps[1].Word?)
  {
    forall i | 0 <= i < |ps[1..]|
      ensures PartOk(ps[1..][i]) && (i > 0 && ps[1..][i].Word? ==> !ps[1..][i - 1].Word?)
    {
      assert ps[1..][i] == ps[i + 1];
    }
  }

  lemma LineStarts(ps: seq<Part>, rest: string)
    ensures LineText(ps) + rest ==
            if ps == [] then rest else PartText(ps[0]) + (LineText(ps[1..]) + rest)
  {
    hide PartText;
  }

  lemma {:induction false} RunsLine(t: Scanner, ps: seq<Part>, rest: string) returns (t': Scanner)
    requires Ok(t) && LineOk(ps) && (t.mode == Space || (t.mode == InWord && (ps == [] || !ps[0].Word?)))
    ensures Ok(t') && Run(t, LineText(ps) + rest) == Run(t', rest)
    ensures t'.mode == Space || t'.mode == InWord
    ensures NonEmpty(t'.tokens) == NonEmpty(t.tokens) + LineTokens(ps)
    decreases ps
  {
    hide PartText, PartTokens, NonEmpty, Run, PartOk, LineOk, Ok;
    LineStarts(ps, rest);
    if ps == [] {
      t' := t;
    } else {
      hide LineText;
      RestOk(ps);
      var next := RunsPart(t, ps[0], LineText(ps[1..]) + rest);
      t' := RunsLine(next, ps[1..], rest);
    }
  }

  /** Every line of words, sentences and blanks is split into what its words and sentences mean. A sentence needs no
      blank around it, and an empty one is no token. */
  lemma TokensOfLine(ps: seq<Part>)
    requires LineOk(ps)
    ensures Tokens(LineText(ps)) == LineTokens(ps)
  {
    hide LineText, LineTokens, LineOk;
    var t := RunsLine(INITIAL, ps, "");
    assert LineText(ps) + "" == LineText(ps);
    assert [] + LineTokens(ps) == LineTokens(ps);
  }

  /** A sentence that is still open at the end of the line is taken as if it were closed there. */
  lemma TokensOfOpenLine(ps: seq<Part>, quote: char, units: seq<Unit>)
    requires LineOk(ps) && PartOk(Quoted(quote, units))
    ensures Tokens(LineText(ps) + ([quote] + UnitsText(units))) == LineTokens(ps) + PartTokens(Quoted(quote, units))
  {
    hide LineText, LineTokens, LineOk, UnitsText, UnitsMeaning;
    var p := Quoted(quote, units);
    var t := RunsLine(INITIAL, ps, [quote] + UnitsText(units));
    var t' := RunsQuoted(t, p, "");
    NonEmptySnoc(t.tokens, UnitsMeaning(units));
    assert [] + LineTokens(ps) == LineTokens(ps);
  }
}
