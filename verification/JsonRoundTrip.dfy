/** Parsing what has been printed gives the tree back, formatted or not. */
module JsonRoundTrip {
  import Decimal
  import opened Json

  /** Every integer is printed with a magnitude below 2^63. */
  predicate Ranged(v: Value)
    decreases v, 1
  {
    match v
    case Int(sign, value) => -LIMIT < Printed(sign, value) < LIMIT
    case Array(items) => RangedItems(items)
    case Object(members) => RangedMembers(members)
    case _ => true
  }

  predicate RangedItems(items: seq<Value>)
    decreases items, 0
  {
    items == [] ||
    (assert items[0] in items; Ranged(items[0]) && RangedItems(items[1..]))
  }

  predicate RangedMembers(members: seq<Member>)
    decreases members, 0
  {
    members == [] ||
    (assert members[0] in members; Ranged(members[0].value) && RangedMembers(members[1..]))
  }

  /** The number that is printed. */
  function Rounded(f: Fixed): real
  {
    (if f.negative then 0 - f.millionths as int else f.millionths) as real / 1000000.0
  }

  /** The same tree, with the numbers that are printed and the signs that the parser gives to integers. */
  function Normal(r: Rendering, v: Value): Value
    decreases v, 1
  {
    match v
    case Int(sign, value) => Int(if Printed(sign, value) < 0 then -1 else 1, Printed(sign, value))
    case Double(d) => Double(Rounded(r(d)))
    case Array(items) => Array(NormalItems(r, items))
    case Object(members) => Object(NormalMembers(r, members))
    case _ => v
  }

  function NormalItems(r: Rendering, items: seq<Value>): (s: seq<Value>)
    ensures |s| == |items|
    decreases items, 0
  {
    if items == [] then [] else
      assert items[0] in items;
      [Normal(r, items[0])] + NormalItems(r, items[1..])
  }

  function NormalMembers(r: Rendering, members: seq<Member>): (s: seq<Member>)
    ensures |s| == |members|
    decreases members, 0
  {
    if members == [] then [] else
      assert members[0] in members;
      [Member(members[0].name, Normal(r, members[0].value))] + NormalMembers(r, members[1..])
  }

  /** What comes of reading something that is `ranged`, or that is not. */
  function Reads<T>(ranged: bool, value: T, rest: string): Parsed<T>
  {
    if ranged then Done(value, rest) else Undefined
  }

  // ---------- Numbers ----------

  predicate Stops(s: string)
  {
    !Decimal.IsDigit(Peek(s)) && Peek(s) != '.' && Peek(s) != 'e' && Peek(s) != 'E'
  }

  lemma {:induction false} ScanAppend(n: nat, digits: string, rest: string)
    requires Decimal.AllDigits(digits) && (rest == "" || !Decimal.IsDigit(rest[0]))
    ensures Scan(n, digits + rest) == (Scan(n, digits).0, rest)
    decreases digits
  {
    if digits == "" {
      assert digits + rest == rest;
    } else {
      assert (digits + rest)[1..] == digits[1..] + rest;
      assert Decimal.AllDigits(digits[1..]);
      ScanAppend(n * 10 + Decimal.DigitValue(digits[0]), digits[1..], rest);
    }
  }

  lemma {:induction false} ScanSnoc(n: nat, digits: string, d: char)
    requires Decimal.AllDigits(digits) && Decimal.IsDigit(d)
    ensures Scan(n, digits + [d]) == (Scan(n, digits).0 * 10 + Decimal.DigitValue(d), "")
    decreases digits
  {
    if digits == "" {
      assert digits + [d] == [d] && [d][1..] == "";
    } else {
      assert (digits + [d])[1..] == digits[1..] + [d];
      assert Decimal.AllDigits(digits[1..]);
      ScanSnoc(n * 10 + Decimal.DigitValue(digits[0]), digits[1..], d);
    }
  }

  lemma {:induction false} ScanValue(digits: string)
    requires Decimal.AllDigits(digits)
    ensures Scan(0, digits).0 == Decimal.ValueOf(digits)
    decreases |digits|
  {
    if digits != "" {
      var k := |digits| - 1;
      assert digits == digits[..k] + [digits[k]];
      ScanValue(digits[..k]);
      ScanSnoc(0, digits[..k], digits[k]);
    }
  }

  lemma NaturalReadsBack(n: nat, rest: string)
    requires !Decimal.IsDigit(Peek(rest))
    ensures var s := Decimal.Digits(n) + rest;
            Decimal.IsDigit(Peek(s)) &&
            var u := if Peek(s) == '0' then s[1..] else s;
            (if '1' <= Peek(u) <= '9' then Scan(0, u) else (0, u)) == (n, rest)
  {
    var digits := Decimal.Digits(n);
    Decimal.DigitsCanonical(n);
    if digits[0] == '0' {
      assert (digits + rest)[1..] == rest;
    } else {
      ScanAppend(0, digits, rest);
      ScanValue(digits);
    }
  }

  /** A printed integer reads back as the number that was printed; the sign is recomputed. */
  lemma IntReadsBack(sign: int, value: int, rest: string)
    requires Stops(rest)
    ensures var p := Printed(sign, value);
            ParseNumber(PrintInt(sign, value) + rest) == (Int(if p < 0 then -1 else 1, p), rest)
    ensures Peek(PrintInt(sign, value) + rest) == '-' || Decimal.IsDigit(Peek(PrintInt(sign, value) + rest))
  {
    var p := Printed(sign, value);
    NaturalReadsBack(if p < 0 then -p else p, rest);
    var s := PrintInt(sign, value) + rest;
    if p < 0 {
      assert s[1..] == Decimal.Digits(-p) + rest;
    }
  }

  lemma {:induction false} ScanPadded(m: nat, k: nat, n: nat)
    requires k < Decimal.Pow10(n)
    ensures Scan(m, Padded(k, n)).0 == m * Decimal.Pow10(n) + k
    decreases n
  {
    if n > 0 {
      ScanPadded(m, k / 10, n - 1);
      ScanSnoc(m, Padded(k / 10, n - 1), Decimal.DigitChar(k % 10));
    }
  }

  lemma Millionth()
    ensures Ten(-6) == 0.000001 && Decimal.Pow10(6) == 1000000
  {
    assert Ten(-1) == 0.1 && Ten(-2) == 0.01 && Ten(-3) == 0.001;
    assert Ten(-4) == 0.0001 && Ten(-5) == 0.00001;
    assert Decimal.Pow10(3) == 1000;
  }

  lemma FractionReadsBack(n: nat, k: nat, rest: string)
    requires k < 1000000 && Stops(rest)
    ensures var v := "." + Padded(k, 6) + rest;
            Fraction(n, v) == (1000000 * n + k, rest) && Scale(v) == 6
  {
    var digits := Padded(k, 6);
    var v := "." + digits + rest;
    hide Padded;
    Millionth();
    ScanPadded(n, k, 6);
    ScanAppend(n, digits, rest);
    ScanAppend(0, digits, rest);
    assert v[1..] == digits + rest && v[1] == digits[0];
  }

  /** A printed number with a fraction reads back as the number that was printed. */
  lemma DoubleReadsBack(f: Fixed, rest: string)
    requires Stops(rest)
    ensures ParseNumber(PrintDouble(f) + rest) == (Double(Rounded(f)), rest)
    ensures Peek(PrintDouble(f) + rest) == '-' || Decimal.IsDigit(Peek(PrintDouble(f) + rest))
  {
    hide Scan, Fraction, Scale, Ten, Padded;
    var n, k := f.millionths / 1000000, f.millionths % 1000000;
    var v := "." + Padded(k, 6) + rest;
    NaturalReadsBack(n, v);
    FractionReadsBack(n, k, rest);
    Millionth();
    var s := PrintDouble(f) + rest;
    if f.negative {
      assert s[1..] == Decimal.Digits(n) + v;
    } else {
      assert s == Decimal.Digits(n) + v;
    }
  }

  // ---------- Strings ----------

  lemma PlainReadsBack(c: char, rest: string)
    requires c != NUL && c != '"' && c != '\\'
    ensures ParseText([c] + rest) == Prepend([c], ParseText(rest))
  {
    assert ([c] + rest)[1..] == rest;
  }

  lemma PairReadsBack(x: char, rest: string)
    requires x != NUL && x != 'u'
    ensures ParseText(['\\', x] + rest) == Prepend([Unescaped(x)], ParseText(rest))
  {
    var s := ['\\', x] + rest;
    assert s[1..][0] == x && s[2..] == rest;
  }

  lemma EscapeReadsBack(c: char, rest: string)
    requires c != NUL
    ensures ParseText(Escape(c) + rest) == Prepend([c], ParseText(rest))
  {
    hide ParseText;
    var e := Escape(c);
    if |e| == 1 {
      assert e == [c];
      PlainReadsBack(c, rest);
    } else if |e| == 2 {
      assert e == ['\\', e[1]] && Unescaped(e[1]) == c;
      PairReadsBack(e[1], rest);
    } else {
      ControlReadsBack(c, rest);
    }
  }

  lemma ControlReadsBack(c: char, rest: string)
    requires NUL < c < ' '
    ensures ParseText("\\u00" + [HexDigit(c as int / 16), HexDigit(c as int % 16)] + rest) ==
            Prepend([c], ParseText(rest))
  {
    var a, b := HexDigit(c as int / 16), HexDigit(c as int % 16);
    var s := "\\u00" + [a, b] + rest;
    hide HexDigit;
    assert s[0] == '\\' && s[1..] == ['u', '0', '0', a, b] + rest;
    assert s[1..][1..5] == ['0', '0', a, b];
    assert s[1..][5..] == rest;
    assert Hex4(['0', '0', a, b]) == c as int;
  }

  lemma {:induction false} TextReadsBack(s: string, rest: string)
    requires NulFree(s)
    ensures ParseText(EscapeAll(s) + ("\"" + rest)) == Done(s, rest)
    decreases s
  {
    hide ParseText, Escape, EscapeAll;
    if s == "" {
      TextCloses(rest);
    } else {
      Escaping(s);
      TextReadsBack(s[1..], rest);
      EscapeReadsBack(s[0], EscapeAll(s[1..]) + ("\"" + rest));
      assert EscapeAll(s) + ("\"" + rest) == Escape(s[0]) + (EscapeAll(s[1..]) + ("\"" + rest));
      assert [s[0]] + s[1..] == s;
    }
  }

  lemma TextCloses(rest: string)
    ensures ParseText(EscapeAll("") + ("\"" + rest)) == Done("", rest)
  {
    assert ("\"" + rest)[1..] == rest;
    assert EscapeAll("") + ("\"" + rest) == "\"" + rest;
  }

  lemma Escaping(s: string)
    requires NulFree(s) && s != ""
    ensures s[0] != NUL && NulFree(s[1..]) && EscapeAll(s) == Escape(s[0]) + EscapeAll(s[1..])
  {
    hide Escape;
    assert s[0] in s && forall c <- s[1..] :: c in s;
  }

  lemma StringReadsBack(s: string, rest: string)
    requires NulFree(s)
    ensures ParseString(PrintString(s) + rest) == Done(s, rest)
    ensures PrintString(s) != "" && PrintString(s)[0] == '"'
    ensures ParseValue(PrintString(s) + rest) == Done(String(s), rest)
  {
    hide ParseText, EscapeAll;
    TextReadsBack(s, rest);
    assert (PrintString(s) + rest)[1..] == EscapeAll(s) + ("\"" + rest);
  }

  // ---------- Values ----------

  lemma Unskipped(s: string)
    requires Peek(s) > ' '
    ensures Skip(s) == s
  {
  }

  lemma {:induction false} TabsSkipped(n: nat, s: string)
    ensures Skip(Tabs(n) + s) == Skip(s)
  {
    if n == 0 {
      assert Tabs(0) + s == s;
    } else {
      assert (Tabs(n) + s)[1..] == Tabs(n - 1) + s;
      TabsSkipped(n - 1, s);
    }
  }

  lemma OneSkipped(c: char, s: string)
    requires NUL < c <= ' '
    ensures Skip([c] + s) == Skip(s)
  {
    assert ([c] + s)[1..] == s;
  }

  /** A printed value starts with a character that is not blank. */
  lemma PrintStarts(r: Rendering, v: Value, depth: nat, fmt: bool)
    requires Storable(v)
    ensures var s := Print(r, v, depth, fmt); s != "" && s[0] > ' ' && s[0] != ']' && s[0] != '}'
  {
    if v.Int? {
      var p := Printed(v.sign, v.value);
      Decimal.DigitsCanonical(if p < 0 then -p else p);
    } else if v.Double? {
      Decimal.DigitsCanonical(r(v.number).millionths / 1000000);
    }
  }

  // How the parser goes on, one construct at a time.

  lemma OpensArray(t: string)
    requires Skip(t) == t
    ensures ParseValue("[" + t) == if Peek(t) == ']' then Done(Array([]), t[1..]) else
              var p := ParseItems(t);
              if p.Done? then Done(Array(p.value), p.rest) else if p.Malformed? then Malformed else Undefined
  {
    hide ParseItems, ParseMembers, ParseNumber, ParseText, Skip;
    var s := "[" + t;
    assert s[1..] == t && s[0] == '[';
  }

  lemma OpensObject(t: string)
    ensures ParseValue("{" + t) == if Peek(Skip(t)) == '}' then Done(Object([]), Skip(t)[1..]) else
              var p := ParseMembers(Skip(t));
              if p.Done? then Done(Object(p.value), p.rest) else if p.Malformed? then Malformed else Undefined
  {
    hide ParseItems, ParseMembers, ParseNumber, ParseText, Skip;
    var s := "{" + t;
    assert s[1..] == t && s[0] == '{';
  }

  lemma LastItem(s: string, v: Value, rest: string)
    requires ParseValue(Skip(s)) == Done(v, "]" + rest)
    ensures ParseItems(s) == Done([v], rest)
  {
    hide ParseValue;
    Unskipped("]" + rest);
    assert ("]" + rest)[1..] == rest;
  }

  lemma BadItem(s: string)
    requires ParseValue(Skip(s)) == Undefined
    ensures ParseItems(s) == Undefined
  {
    hide ParseValue, Skip;
  }

  lemma MoreItems(s: string, v: Value, t: string)
    requires ParseValue(Skip(s)) == Done(v, "," + t)
    ensures ParseItems(s) == var p := ParseItems(t); if p.Done? then Done([v] + p.value, p.rest) else p
  {
    hide ParseValue;
    Unskipped("," + t);
    assert ("," + t)[1..] == t;
  }

  lemma LastMember(s: string, m: Member, after: string, rest: string)
    requires ParseMember(Skip(s)) == Done(m, after) && Skip(after) == "}" + rest
    ensures ParseMembers(s) == Done([m], rest)
  {
    hide ParseMember;
    assert Skip(after)[1..] == rest;
  }

  lemma BadMember(s: string)
    requires ParseMember(Skip(s)) == Undefined
    ensures ParseMembers(s) == Undefined
  {
    hide ParseMember, Skip;
  }

  lemma MoreMembers(s: string, m: Member, t: string)
    requires ParseMember(Skip(s)) == Done(m, "," + t)
    ensures ParseMembers(s) == var p := ParseMembers(t); if p.Done? then Done([m] + p.value, p.rest) else p
  {
    hide ParseMember;
    Unskipped("," + t);
    assert ("," + t)[1..] == t;
  }

  lemma NamedValue(s: string, name: string, t: string, ranged: bool, v: Value, rest: string)
    requires ParseString(s) == Done(name, ":" + t) && ParseValue(Skip(t)) == Reads(ranged, v, rest)
    ensures ParseMember(s) == Reads(ranged, Member(name, v), rest)
  {
    hide ParseValue, ParseString;
    Unskipped(":" + t);
    assert (":" + t)[1..] == t;
  }

  // The printer's constructs, each with what follows it.

  lemma {:induction false} ValueReadsBack(r: Rendering, v: Value, depth: nat, fmt: bool, rest: string)
    requires Storable(v) && Stops(rest)
    ensures ParseValue(Print(r, v, depth, fmt) + rest) == Reads(Ranged(v), Normal(r, v), rest)
    decreases v, 1
  {
    hide ParseValue, Print;
    if v.Int? || v.Double? || v.String? {
      LeafReadsBack(r, v, depth, fmt, rest);
    } else if v.Array? {
      ArrayReadsBack(r, v.items, depth, fmt, rest);
    } else if v.Object? {
      ObjectReadsBack(r, v.members, depth, fmt, rest);
    } else {
      WordReadsBack(r, v, depth, fmt, rest);
    }
  }

  lemma LeafReadsBack(r: Rendering, v: Value, depth: nat, fmt: bool, rest: string)
    requires Storable(v) && Stops(rest) && (v.Int? || v.Double? || v.String?)
    ensures ParseValue(Print(r, v, depth, fmt) + rest) == Reads(Ranged(v), Normal(r, v), rest)
  {
    if v.Int? {
      IntReadsBack(v.sign, v.value, rest);
      ReadsNumber(PrintInt(v.sign, v.value) + rest);
    } else if v.Double? {
      DoubleReadsBack(r(v.number), rest);
      ReadsNumber(PrintDouble(r(v.number)) + rest);
    } else {
      StringReadsBack(v.text, rest);
      assert Print(r, v, depth, fmt) == PrintString(v.text);
    }
  }

  lemma ReadsNumber(s: string)
    requires Peek(s) == '-' || Decimal.IsDigit(Peek(s))
    ensures ParseValue(s) == Reads(Converts(ParseNumber(s).0), ParseNumber(s).0, ParseNumber(s).1)
  {
    hide ParseNumber;
  }

  lemma WordReadsBack(r: Rendering, v: Value, depth: nat, fmt: bool, rest: string)
    requires v.Null? || v.False? || v.True?
    ensures ParseValue(Print(r, v, depth, fmt) + rest) == Done(v, rest)
  {
    var word := Print(r, v, depth, fmt);
    var s := word + rest;
    assert s[..|word|] == word && s[|word|..] == rest && s[0] == word[0];
  }

  lemma {:induction false} ArrayReadsBack(r: Rendering, items: seq<Value>, depth: nat, fmt: bool, rest: string)
    requires Storable(Array(items)) && Stops(rest)
    ensures ParseValue(Print(r, Array(items), depth, fmt) + rest) ==
            Reads(RangedItems(items), Normal(r, Array(items)), rest)
    decreases items, 1
  {
    var t := PrintItems(r, items, depth + 1, fmt) + ("]" + rest);
    assert Print(r, Array(items), depth, fmt) + rest == "[" + t;
    if items == [] {
      assert t == "]" + rest && t[1..] == rest;
      Unskipped(t);
    } else {
      ItemsStart(r, items, depth + 1, fmt, "]" + rest);
      ItemsReadBack(r, items, depth + 1, fmt, rest);
    }
    OpensArray(t);
  }

  lemma PrintsFirstItem(r: Rendering, items: seq<Value>, depth: nat, fmt: bool)
    requires items != [] && (forall i <- items :: Storable(i))
    ensures Storable(items[0]) && forall i <- items[1..] :: Storable(i)
    ensures PrintItems(r, items, depth, fmt) == Print(r, items[0], depth, fmt) +
            if |items| == 1 then "" else "," + ((if fmt then " " else "") + PrintItems(r, items[1..], depth, fmt))
  {
    hide Print;
    assert items[0] in items && forall i <- items[1..] :: i in items;
  }

  lemma ItemsStart(r: Rendering, items: seq<Value>, depth: nat, fmt: bool, rest: string)
    requires items != [] && (forall i <- items :: Storable(i))
    ensures var s := PrintItems(r, items, depth, fmt) + rest; s != "" && s[0] > ' ' && s[0] != ']' && Skip(s) == s
  {
    assert items[0] in items;
    PrintStarts(r, items[0], depth, fmt);
    var first := Print(r, items[0], depth, fmt);
    assert PrintItems(r, items, depth, fmt)[0] == first[0];
  }

  lemma {:induction false} ItemsReadBack(r: Rendering, items: seq<Value>, depth: nat, fmt: bool, rest: string)
    requires items != [] && (forall i <- items :: Storable(i))
    ensures ParseItems(PrintItems(r, items, depth, fmt) + ("]" + rest)) ==
            Reads(RangedItems(items), NormalItems(r, items), rest)
    decreases items, 0
  {
    hide ParseValue, ParseItems, Skip, Print, PrintItems;
    PrintsFirstItem(r, items, depth, fmt);
    assert items[0] in items && forall i <- items[1..] :: i in items;
    var first := Print(r, items[0], depth, fmt);
    var s := PrintItems(r, items, depth, fmt) + ("]" + rest);
    ItemsStart(r, items, depth, fmt, "]" + rest);
    if |items| == 1 {
      assert s == first + ("]" + rest);
      ValueReadsBack(r, items[0], depth, fmt, "]" + rest);
      if Ranged(items[0]) {
        LastItem(s, Normal(r, items[0]), rest);
      } else {
        BadItem(s);
      }
      assert items[1..] == [] && NormalItems(r, items) == [Normal(r, items[0])];
    } else {
      var more := PrintItems(r, items[1..], depth, fmt) + ("]" + rest);
      var tail := (if fmt then " " else "") + more;
      assert s == first + ("," + tail);
      ValueReadsBack(r, items[0], depth, fmt, "," + tail);
      ItemsReadBack(r, items[1..], depth, fmt, rest);
      if fmt {
        OneSkipped(' ', more);
        SkippedItems(tail, more);
      } else {
        assert tail == more;
      }
      if Ranged(items[0]) {
        MoreItems(s, Normal(r, items[0]), tail);
      } else {
        BadItem(s);
      }
    }
  }

  lemma SkippedItems(s: string, t: string)
    requires Skip(s) == Skip(t)
    ensures ParseItems(s) == ParseItems(t)
  {
  }

  lemma SkippedMembers(s: string, t: string)
    requires Skip(s) == Skip(t)
    ensures ParseMembers(s) == ParseMembers(t)
  {
  }

  lemma {:induction false} SkipTwice(s: string)
    ensures Skip(Skip(s)) == Skip(s)
  {
    if s != "" && NUL < s[0] <= ' ' {
      SkipTwice(s[1..]);
    }
  }

  function Line(fmt: bool): string { if fmt then "\n" else "" }

  function Indent(depth: nat, fmt: bool): string { if fmt then Tabs(depth) else "" }

  lemma LineStops(depth: nat, fmt: bool, s: string)
    requires Stops(s)
    ensures Stops(Line(fmt) + (Indent(depth, fmt) + s))
  {
    assert !fmt ==> Line(fmt) + (Indent(depth, fmt) + s) == s;
  }

  lemma LineSkipped(fmt: bool, s: string)
    ensures Skip(Line(fmt) + s) == Skip(s)
  {
    if fmt {
      OneSkipped('\n', s);
    } else {
      assert Line(fmt) + s == s;
    }
  }

  lemma IndentSkipped(depth: nat, fmt: bool, s: string)
    ensures Skip(Indent(depth, fmt) + s) == Skip(s)
  {
    if fmt {
      TabsSkipped(depth, s);
    } else {
      assert Indent(depth, fmt) + s == s;
    }
  }

  lemma {:induction false} ObjectReadsBack(r: Rendering, members: seq<Member>, depth: nat, fmt: bool, rest: string)
    requires Storable(Object(members)) && Stops(rest)
    ensures ParseValue(Print(r, Object(members), depth, fmt) + rest) ==
            Reads(RangedMembers(members), Normal(r, Object(members)), rest)
    decreases members, 1
  {
    hide ParseValue, ParseMembers, Print, PrintMembers, Skip;
    var close := Indent(depth, fmt) + ("}" + rest);
    var t := PrintMembers(r, members, depth + 1, fmt) + close;
    PrintsObject(r, members, depth, fmt, rest);
    LineSkipped(fmt, t);
    OpensObject(Line(fmt) + t);
    if members == [] {
      PrintsNoMembers(r, depth + 1, fmt);
      assert t == close;
      IndentSkipped(depth, fmt, "}" + rest);
      Unskipped("}" + rest);
      assert ("}" + rest)[1..] == rest;
    } else {
      MembersStart(r, members, depth + 1, fmt, close);
      MembersReadBack(r, members, depth, fmt, rest);
      SkipTwice(t);
      SkippedMembers(Skip(t), t);
    }
  }

  lemma PrintsNoMembers(r: Rendering, depth: nat, fmt: bool)
    ensures PrintMembers(r, [], depth, fmt) == ""
  {
  }

  lemma PrintsObject(r: Rendering, members: seq<Member>, depth: nat, fmt: bool, rest: string)
    requires Storable(Object(members))
    ensures Print(r, Object(members), depth, fmt) + rest ==
            "{" + (Line(fmt) + (PrintMembers(r, members, depth + 1, fmt) + (Indent(depth, fmt) + ("}" + rest))))
  {
    hide PrintMembers;
  }

  /** A member behind its indentation. */
  function Bare(r: Rendering, m: Member, depth: nat, fmt: bool): string
    requires NulFree(m.name) && Storable(m.value)
  {
    PrintString(m.name) + (":" + ((if fmt then "\t" else "") + Print(r, m.value, depth, fmt)))
  }

  lemma BareMember(r: Rendering, m: Member, depth: nat, fmt: bool)
    requires NulFree(m.name) && Storable(m.value)
    ensures PrintMember(r, m, depth, fmt) == Indent(depth, fmt) + Bare(r, m, depth, fmt)
    ensures Bare(r, m, depth, fmt) != "" && Bare(r, m, depth, fmt)[0] == '"'
  {
  }

  /** The first member, and what comes after it. */
  lemma PrintsFirst(r: Rendering, members: seq<Member>, depth: nat, fmt: bool, rest: string)
    requires members != [] && (forall m <- members :: NulFree(m.name) && Storable(m.value))
    ensures NulFree(members[0].name) && Storable(members[0].value)
    ensures forall m <- members[1..] :: NulFree(m.name) && Storable(m.value)
    ensures PrintMembers(r, members, depth, fmt) + rest ==
            PrintMember(r, members[0], depth, fmt) +
            ((if |members| == 1 then "" else ",") + (Line(fmt) + (PrintMembers(r, members[1..], depth, fmt) + rest)))
  {
    hide PrintMember;
    assert members[0] in members;
    forall m <- members[1..]
      ensures NulFree(m.name) && Storable(m.value)
    {
      assert m in members;
    }
    Reassociate(PrintMember(r, members[0], depth, fmt), if |members| == 1 then "" else ",", Line(fmt),
      PrintMembers(r, members[1..], depth, fmt), rest);
    hide PrintMembers;
  }

  lemma Reassociate(a: string, b: string, c: string, d: string, e: string)
    ensures a + b + c + d + e == a + (b + (c + (d + e)))
  {
  }

  lemma MembersStart(r: Rendering, members: seq<Member>, depth: nat, fmt: bool, rest: string)
    requires members != [] && (forall m <- members :: NulFree(m.name) && Storable(m.value))
    ensures Peek(Skip(PrintMembers(r, members, depth, fmt) + rest)) == '"'
  {
    hide Skip, Bare, PrintMember, PrintMembers, Indent;
    var m := members[0];
    PrintsFirst(r, members, depth, fmt, rest);
    BareMember(r, m, depth, fmt);
    var tail := (if |members| == 1 then "" else ",") + (Line(fmt) + (PrintMembers(r, members[1..], depth, fmt) + rest));
    var bare := Bare(r, m, depth, fmt) + tail;
    assert PrintMembers(r, members, depth, fmt) + rest == Indent(depth, fmt) + bare;
    IndentSkipped(depth, fmt, bare);
    Unskipped(bare);
  }

  lemma {:induction false} MemberReadsBack(r: Rendering, m: Member, depth: nat, fmt: bool, rest: string)
    requires NulFree(m.name) && Storable(m.value) && Stops(rest)
    ensures ParseMember(Skip(PrintMember(r, m, depth, fmt) + rest)) ==
            Reads(Ranged(m.value), Member(m.name, Normal(r, m.value)), rest)
    decreases m, 2
  {
    hide ParseValue, ParseMember, ParseString, Skip, Print, PrintMember, PrintString, Indent, Stops;
    var value := Print(r, m.value, depth, fmt) + rest;
    var tail := (if fmt then "\t" else "") + value;
    var bare := PrintString(m.name) + (":" + tail);
    BareMember(r, m, depth, fmt);
    assert PrintMember(r, m, depth, fmt) + rest == Indent(depth, fmt) + bare;
    IndentSkipped(depth, fmt, bare);
    StringReadsBack(m.name, ":" + tail);
    if fmt {
      OneSkipped('\t', value);
    } else {
      assert tail == value;
    }
    PrintStarts(r, m.value, depth, fmt);
    Unskipped(value);
    Unskipped(bare);
    ValueReadsBack(r, m.value, depth, fmt, rest);
    NamedValue(bare, m.name, tail, Ranged(m.value), Normal(r, m.value), rest);
  }

  lemma {:induction false} MembersReadBack(r: Rendering, members: seq<Member>, depth: nat, fmt: bool, rest: string)
    requires members != [] && (forall m <- members :: NulFree(m.name) && Storable(m.value))
    ensures ParseMembers(PrintMembers(r, members, depth + 1, fmt) + (Indent(depth, fmt) + ("}" + rest))) ==
            Reads(RangedMembers(members), NormalMembers(r, members), rest)
    decreases members, 0
  {
    hide ParseMember, ParseMembers, Skip, PrintMember, PrintMembers, Line, Indent;
    assert members[0] in members && forall m <- members[1..] :: m in members;
    PrintsFirst(r, members, depth + 1, fmt, Indent(depth, fmt) + ("}" + rest));
    var close := Indent(depth, fmt) + ("}" + rest);
    var first := PrintMember(r, members[0], depth + 1, fmt);
    var m := Member(members[0].name, Normal(r, members[0].value));
    var s := PrintMembers(r, members, depth + 1, fmt) + close;
    if |members| == 1 {
      var tail := Line(fmt) + close;
      PrintsNoMembers(r, depth + 1, fmt);
      assert members[1..] == [] && "" + close == close && "" + tail == tail;
      assert s == first + tail;
      LineStops(depth, fmt, "}" + rest);
      MemberReadsBack(r, members[0], depth + 1, fmt, tail);
      LineSkipped(fmt, close);
      IndentSkipped(depth, fmt, "}" + rest);
      Unskipped("}" + rest);
      if Ranged(members[0].value) {
        LastMember(s, m, tail, rest);
      } else {
        BadMember(s);
      }
      assert NormalMembers(r, members) == [m];
    } else {
      var more := PrintMembers(r, members[1..], depth + 1, fmt) + close;
      var tail := Line(fmt) + more;
      assert s == first + ("," + tail);
      MemberReadsBack(r, members[0], depth + 1, fmt, "," + tail);
      MembersReadBack(r, members[1..], depth, fmt, rest);
      LineSkipped(fmt, more);
      SkippedMembers(tail, more);
      if Ranged(members[0].value) {
        MoreMembers(s, m, tail);
      } else {
        BadMember(s);
      }
    }
  }

  // ---------- The law ----------

  /** For every tree, at any depth, formatted or not: if its integers are printed with magnitudes below 2^63,
      parsing what is printed gives the same tree with the numbers printed and the signs of its integers;
      otherwise the parser meets one that it cannot convert. */
  lemma PrintParse(r: Rendering, v: Value, fmt: bool)
    requires Storable(v)
    ensures Parse(Print(r, v, 0, fmt)) == Reads(Ranged(v), Normal(r, v), "")
  {
    var s := Print(r, v, 0, fmt);
    PrintStarts(r, v, 0, fmt);
    Unskipped(s);
    ValueReadsBack(r, v, 0, fmt, "");
    assert s + "" == s;
  }

  /** Every integer is printed as its sign says, -1 for the negative ones and 1 for the others, and none is
      the least one; every other number is printed without rounding. */
  predicate Signed(r: Rendering, v: Value)
  {
    match v
    case Int(sign, value) => sign == (if value < 0 then -1 else 1) && value > -LIMIT
    case Double(d) => Rounded(r(d)) == d
    case Array(items) => forall i <- items :: Signed(r, i)
    case Object(members) => forall m <- members :: Signed(r, m.value)
    case _ => true
  }

  lemma {:induction false} SignedIffNormal(r: Rendering, v: Value)
    requires Storable(v)
    ensures Ranged(v) && Normal(r, v) == v <==> Signed(r, v)
    decreases v, 1
  {
    if v.Array? {
      SignedItems(r, v.items);
    } else if v.Object? {
      SignedMembers(r, v.members);
    }
  }

  lemma {:induction false} SignedItems(r: Rendering, items: seq<Value>)
    requires forall i <- items :: Storable(i)
    ensures RangedItems(items) && NormalItems(r, items) == items <==> forall i <- items :: Signed(r, i)
    decreases items, 0
  {
    if items != [] {
      assert items[0] in items && forall i <- items[1..] :: i in items;
      SignedIffNormal(r, items[0]);
      SignedItems(r, items[1..]);
      assert items == [items[0]] + items[1..];
      assert NormalItems(r, items)[1..] == NormalItems(r, items[1..]);
    }
  }

  lemma {:induction false} SignedMembers(r: Rendering, members: seq<Member>)
    requires forall m <- members :: NulFree(m.name) && Storable(m.value)
    ensures RangedMembers(members) && NormalMembers(r, members) == members <==>
            forall m <- members :: Signed(r, m.value)
    decreases members, 0
  {
    if members != [] {
      assert members[0] in members && forall m <- members[1..] :: m in members;
      SignedIffNormal(r, members[0].value);
      SignedMembers(r, members[1..]);
      assert members == [members[0]] + members[1..];
      assert NormalMembers(r, members)[1..] == NormalMembers(r, members[1..]);
    }
  }

  /** The tree itself comes back, in either form, if and only if the signs of its integers are right, none of
      them is the least one, and six decimals are enough for its other numbers. */
  lemma RoundTrip(r: Rendering, v: Value, fmt: bool)
    requires Storable(v)
    ensures Parse(Print(r, v, 0, fmt)) == Done(v, "") <==> Signed(r, v)
  {
    PrintParse(r, v, fmt);
    SignedIffNormal(r, v);
  }
}
