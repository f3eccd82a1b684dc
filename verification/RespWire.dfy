/** What the bytes of a stream mean, in the characters of the protocol: every type byte, every header and every
    way in which one is malformed. */
module RespWire {
  import opened Decimal
  import opened Resp
  import opened Wrappers

  /** A line whose end is the first one. */
  predicate OneLine(line: string) { forall i :: 0 <= i < |line| - 1 ==> !(line[i] == '\r' && line[i + 1] == '\n') }

  /** `lower`, in any mixture of cases; `upper` is the same word in capitals. */
  predicate AnyCase(line: string, lower: string, upper: string)
    requires |lower| == |upper|
  {
    |line| == |lower| && forall i :: 0 <= i < |line| ==> line[i] in {lower[i], upper[i]}
  }

  predicate NumberText(env: Env, line: string)
  {
    |line| <= 325 &&
    (AnyCase(line, "inf", "INF") || AnyCase(line, "-inf", "-INF") || AnyCase(line, "nan", "NAN") ||
     AnyCase(line, "-nan", "-NAN") || (line != "" && env.strtodFinite(line)))
  }

  predicate BigDigits(line: string)
  {
    var digits := if line != "" && line[0] == '-' then line[1..] else line;
    forall c <- digits :: '0' <= c <= '9'
  }

  lemma LineSplits(c: char, line: string, rest: string)
    requires OneLine(line)
    ensures var s := line + "\r\n" + rest;
            FindCRLF(s) == Some(|line|) && s[..|line|] == line && s[|line| + 2..] == rest &&
            ([c] + line + "\r\n" + rest)[1..] == s && ([c] + line + "\r\n" + rest)[0] == c
  {
    var s := line + "\r\n" + rest;
    assert ([c] + line + "\r\n" + rest)[1..] == s;
    forall j: nat | j < |line|
      ensures !CRLFAt(s, j)
    {
      assert s[j] == line[j] && s[j + 1] == if j + 1 < |line| then line[j + 1] else '\r';
    }
    FindCRLFIs(s, |line|);
  }

  /** A stream that starts with no type byte is malformed. */
  lemma OtherByte(env: Env, s: string)
    requires s != "" && s[0] !in "-+:,_$*%|~#=>("
    ensures Parse(env, s) == Invalid
  {
  }

  /** Nothing is decided before the line after the type byte is complete. */
  lemma OpenLine(env: Env, s: string)
    requires s == "" || s[0] in "-+:,_$*%|~#=>("
    requires forall i :: 1 <= i < |s| - 1 ==> !(s[i] == '\r' && s[i + 1] == '\n')
    ensures Parse(env, s) == Incomplete
  {
    if s != "" {
      forall j: nat
        ensures !CRLFAt(s[1..], j)
      {
        if j + 1 < |s[1..]| {
          assert s[1..][j] == s[j + 1] && s[1..][j + 1] == s[j + 2];
        }
      }
    }
  }

  lemma ItemLine(env: Env, c: char, t: Tag, line: string, rest: string)
    requires OneLine(line) && TagOf(c) == Some(t)
    ensures var s := line + "\r\n" + rest;
            Parse(env, [c] + line + "\r\n" + rest) == ParseBody(env, t, s) &&
            FindCRLF(s) == Some(|line|) && s[..|line|] == line && s[|line| + 2..] == rest
  {
    hide ParseBody;
    LineSplits(c, line, rest);
  }

  // ----- Items of one line

  lemma IntegerLine(env: Env, line: string, rest: string)
    requires OneLine(line)
    ensures var r := Parse(env, ":" + line + "\r\n" + rest);
            (forall v :: r == Done(Integer(v), rest) <==> IsLL(v) && line == Text(v)) &&
            (r == Invalid <==> forall v :: IsLL(v) ==> line != Text(v))
  {
    hide Text, FindCRLF, Parse, OneLine, ParseLL;
    ItemLine(env, ':', TInteger, line, rest);
    Decimals(line);
    assert [':'] == ":";
  }

  /** The reading of a line as a 64-bit integer, by its printed text. */
  lemma Decimals(line: string)
    ensures forall v :: ParseLL(line) == Some(v) <==> IsLL(v) && line == Text(v)
    ensures ParseLL(line) == None <==> forall v :: IsLL(v) ==> line != Text(v)
  {
    forall v
      ensures ParseLL(line) == Some(v) <==> IsLL(v) && line == Text(v)
    {
      ParseLLExact(line, v);
    }
    hide Text, ParseLL;
    if ParseLL(line).Some? {
      var v := ParseLL(line).value;
      assert IsLL(v) && line == Text(v);
    }
  }

  lemma StatusLine(env: Env, line: string, rest: string)
    requires OneLine(line)
    ensures Parse(env, "+" + line + "\r\n" + rest) ==
            if '\r' in line || '\n' in line then Invalid else Done(Str(TStatus, line), rest)
    ensures Parse(env, "-" + line + "\r\n" + rest) ==
            if '\r' in line || '\n' in line then Invalid else Done(Str(TError, line), rest)
  {
    assert ['+'] == "+" && ['-'] == "-";
    SimpleLine(env, '+', TStatus, line, rest);
    SimpleLine(env, '-', TError, line, rest);
  }

  lemma SimpleLine(env: Env, c: char, t: Tag, line: string, rest: string)
    requires OneLine(line) && TagOf(c) == Some(t) && (t == TStatus || t == TError)
    ensures Parse(env, [c] + line + "\r\n" + rest) ==
            if '\r' in line || '\n' in line then Invalid else Done(Str(t, line), rest)
  {
    hide FindCRLF, Parse, OneLine;
    ItemLine(env, c, t, line, rest);
  }

  lemma NilLine(env: Env, line: string, rest: string)
    requires OneLine(line)
    ensures Parse(env, "_" + line + "\r\n" + rest) == if line == "" then Done(Nil, rest) else Invalid
  {
    hide FindCRLF, Parse, OneLine;
    ItemLine(env, '_', TNil, line, rest);
    assert ['_'] == "_";
  }

  lemma BoolLine(env: Env, line: string, rest: string)
    requires OneLine(line)
    ensures var r := Parse(env, "#" + line + "\r\n" + rest);
            (r == Done(Bool(true), rest) <==> line in {"t", "T"}) &&
            (r == Done(Bool(false), rest) <==> line in {"f", "F", "\0"}) &&
            (r == Invalid <==> line !in {"t", "T", "f", "F", "\0"})
  {
    hide FindCRLF, Parse, OneLine;
    ItemLine(env, '#', TBool, line, rest);
    assert ['#'] == "#";
    assert |line| == 1 ==> line == [line[0]];
  }

  lemma DoubleLine(env: Env, line: string, rest: string)
    requires OneLine(line)
    ensures Parse(env, "," + line + "\r\n" + rest) ==
            if NumberText(env, line) then Done(Double(line), rest) else Invalid
  {
    hide FindCRLF, Parse, OneLine;
    ItemLine(env, ',', TDouble, line, rest);
    assert [','] == ",";
    LowerIs(line, "inf", "INF");
    LowerIs(line, "-inf", "-INF");
    LowerIs(line, "nan", "NAN");
    LowerIs(line, "-nan", "-NAN");
  }

  lemma LowerIs(line: string, lower: string, upper: string)
    requires |lower| == |upper|
    requires forall i :: 0 <= i < |lower| ==>
               lower[i] == upper[i] == '-' || ('a' <= lower[i] <= 'z' && upper[i] == lower[i] - 'a' + 'A')
    ensures LowerAll(line) == lower <==> AnyCase(line, lower, upper)
  {
    if |line| == |lower| {
      forall i | 0 <= i < |line|
        ensures LowerAll(line)[i] == lower[i] <==> line[i] in {lower[i], upper[i]}
      {
      }
    }
  }

  lemma BigNumberLine(env: Env, line: string, rest: string)
    requires OneLine(line)
    ensures Parse(env, "(" + line + "\r\n" + rest) ==
            if BigDigits(line) then Done(Str(TBignum, line), rest) else Invalid
  {
    hide FindCRLF, Parse, OneLine, BigDigits, BignumText;
    ItemLine(env, '(', TBignum, line, rest);
    assert ['('] == "(";
    BigNumberText(line);
  }

  lemma BigNumberText(line: string)
    ensures BignumText(line) <==> BigDigits(line)
  {
    var k := if line != "" && line[0] == '-' then 1 else 0;
    var digits := if k == 1 then line[1..] else line;
    assert forall i :: k <= i < |line| ==> line[i] == digits[i - k];
    assert forall i :: 0 <= i < |digits| ==> digits[i] == line[i + k];
  }

  // ----- Bulk items

  /** `$-1` and `=-1` are nil, and a header that is no decimal from -1 on is an error; otherwise it gives the
      number of bytes that follow, of which two more are skipped. */
  lemma BulkHeader(env: Env, line: string, rest: string)
    requires OneLine(line)
    ensures var r := Parse(env, "$" + line + "\r\n" + rest);
            (r == Done(Nil, rest) <==> line == "-1") &&
            (r == Invalid <==> forall v :: -1 <= v <= LLONG_MAX ==> line != Text(v)) &&
            forall n: nat :: n <= LLONG_MAX && line == Text(n) ==>
              r == if |rest| < n + 2 then Incomplete else Done(Str(TString, rest[..n]), rest[n + 2..])
  {
    hide Text, FindCRLF, Parse, OneLine, ParseLL;
    ItemLine(env, '$', TString, line, rest);
    Decimals(line);
    MinusOne();
    assert ['$'] == "$";
    BulkParts(line, rest);
  }

  lemma MinusOne()
    ensures Text(-1) == "-1"
  {
    assert Digits(1) == "1";
  }

  // The body behind a header.
  lemma BulkParts(line: string, rest: string)
    ensures var s := line + "\r\n" + rest;
            |s| == |line| + 2 + |rest| &&
            (forall n: nat :: n <= |rest| ==> s[|line| + 2..|line| + 2 + n] == rest[..n]) &&
            (forall n: nat :: n <= |rest| ==> s[|line| + 2 + n..] == rest[n..])
  {
  }

  /** A verbatim string has a type of three characters and a colon. */
  lemma VerbatimHeader(env: Env, line: string, rest: string)
    requires OneLine(line)
    ensures var r := Parse(env, "=" + line + "\r\n" + rest);
            (r == Done(Nil, rest) <==> line == "-1") &&
            ((forall v :: -1 <= v <= LLONG_MAX ==> line != Text(v)) ==> r == Invalid) &&
            forall n: nat :: n <= LLONG_MAX && line == Text(n) ==>
              r == if |rest| < n + 2 then Incomplete
                   else if n < 4 || rest[3] != ':' then Invalid
                   else Done(Verbatim(rest[..3], rest[4..n]), rest[n + 2..])
  {
    hide Text, FindCRLF, Parse, OneLine, ParseLL;
    ItemLine(env, '=', TVerb, line, rest);
    Decimals(line);
    MinusOne();
    assert ['='] == "=";
    BulkParts(line, rest);
    var s := line + "\r\n" + rest;
    forall n: nat | 4 <= n <= |rest|
      ensures s[|line| + 6..|line| + 2 + n] == rest[4..n] && s[|line| + 2..|line| + 5] == rest[..3]
      ensures s[|line| + 5] == rest[3]
    {
    }
  }

  // ----- Aggregates

  /** How many elements there are for each that a header announces. */
  function Per(c: char): nat { if c in "%|" then 2 else 1 }

  function AggregateOf(c: char): Tag
    requires c in "*%|~>"
  {
    if c == '*' then TArray else if c == '%' then TMap else if c == '|' then TAttr else if c == '~' then TSet else TPush
  }

  /** `*-1` is nil; a header that is no decimal from -1 on, or that announces more than is allowed, is an error;
      otherwise the elements follow, two for each pair of a map. */
  lemma AggregateHeader(env: Env, c: char, line: string, rest: string)
    requires OneLine(line) && c in "*%|~>"
    ensures var r := Parse(env, [c] + line + "\r\n" + rest);
            (line == "-1" ==> r == Done(Nil, rest)) &&
            (line != "-1" ==> !(r.Done? && r.value.Nil?)) &&
            ((forall v :: -1 <= v <= LLONG_MAX ==> line != Text(v)) ==> r == Invalid) &&
            forall n: nat :: n <= LLONG_MAX && line == Text(n) ==>
              r == if 0 < env.maxElements < n then Invalid else Wrap(AggregateOf(c), ParseMany(env, n * Per(c), rest))
  {
    hide Text, FindCRLF, Parse, OneLine, ParseLL, ParseMany;
    ItemLine(env, c, AggregateOf(c), line, rest);
    Decimals(line);
    MinusOne();
    NoElements(env, rest);
  }

  lemma NoElements(env: Env, rest: string)
    ensures ParseMany(env, 0, rest) == Done([], rest)
  {
  }

  // ----- What the server must send

  /** A bulk string as the protocol writes it. */
  function BulkText(s: string): string { "$" + Text(|s|) + "\r\n" + s + "\r\n" }

  function BulkTexts(ss: seq<string>): string { if ss == [] then "" else BulkText(ss[0]) + BulkTexts(ss[1..]) }

  /** A request as the protocol writes it: an array of bulk strings. */
  function RequestText(argv: seq<string>): string { "*" + Text(|argv|) + "\r\n" + BulkTexts(argv) }
}
