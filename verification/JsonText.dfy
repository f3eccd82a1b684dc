/** What JSON texts mean, in literal characters: the bytes of an escape, the value of a number, and the
    white space of a formatted text. */
module JsonText {
  import Decimal
  import opened Json
  import opened JsonRoundTrip

  // ---------- Bytes of a code point ----------

  predicate Continues(s: string, i: nat)
    requires i < |s|
  {
    0x80 <= s[i] as int < 0xC0
  }

  /** The bytes of UTF-8: the mark of the lead says how many there are, and the payload bits of all of
      them, read in order, are the code point. */
  predicate Encodes(s: string, c: nat)
  {
    if |s| == 1 then s[0] as int < 0x80 && c == s[0] as int
    else if |s| == 2 then
      0xC0 <= s[0] as int < 0xE0 && Continues(s, 1) &&
      c == (s[0] as int - 0xC0) * 64 + (s[1] as int - 0x80)
    else if |s| == 3 then
      0xE0 <= s[0] as int < 0xF0 && Continues(s, 1) && Continues(s, 2) &&
      c == ((s[0] as int - 0xE0) * 64 + (s[1] as int - 0x80)) * 64 + (s[2] as int - 0x80)
    else
      |s| == 4 && 0xF0 <= s[0] as int < 0xF8 && Continues(s, 1) && Continues(s, 2) && Continues(s, 3) &&
      c == (((s[0] as int - 0xF0) * 64 + (s[1] as int - 0x80)) * 64 + (s[2] as int - 0x80)) * 64 +
           (s[3] as int - 0x80)
  }

  /** No shorter encoding would do. */
  predicate Shortest(s: string, c: nat)
  {
    (|s| == 2 ==> c >= 0x80) && (|s| == 3 ==> c >= 0x800) && (|s| == 4 ==> c >= 0x10000)
  }

  lemma Bytes(c: nat)
    requires c < 0x110000
    ensures Encodes(Utf8(c), c) && Shortest(Utf8(c), c)
  {
    assert c == c / 64 * 64 + c % 64 && c / 4096 == c / 64 / 64 && c / 262144 == c / 4096 / 64;
    assert c / 64 == c / 4096 * 64 + c / 64 % 64 && c / 4096 == c / 262144 * 64 + c / 4096 % 64;
  }

  // ---------- Four digits ----------

  /** A hexadecimal digit, of either case. */
  predicate Hex(x: char, d: int)
  {
    0 <= d < 16 && (x == "0123456789abcdef"[d] || x == "0123456789ABCDEF"[d])
  }

  predicate Writes(digits: string, c: int)
  {
    |digits| == 4 && 0 <= c < 0x10000 &&
    Hex(digits[0], c / 4096) && Hex(digits[1], c / 256 % 16) && Hex(digits[2], c / 16 % 16) && Hex(digits[3], c % 16)
  }

  lemma HexIff(x: char, d: nat)
    ensures HexValue(x) == d <==> Hex(x, d)
  {
  }

  lemma Hex4Iff(digits: string, c: nat)
    requires |digits| == 4
    ensures Hex4(digits) == c <==> Writes(digits, c)
  {
    hide HexValue, Hex;
    HexIff(digits[0], c / 4096);
    HexIff(digits[1], c / 256 % 16);
    HexIff(digits[2], c / 16 % 16);
    HexIff(digits[3], c % 16);
    if Hex4(digits) == c {
      Digits4(HexValue(digits[0]), HexValue(digits[1]), HexValue(digits[2]), HexValue(digits[3]), c);
    } else if Writes(digits, c) {
      Recomposed(c);
    }
  }

  lemma Recomposed(c: nat)
    ensures ((c / 4096 * 16 + c / 256 % 16) * 16 + c / 16 % 16) * 16 + c % 16 == c
  {
    var a, b := c / 16, c / 256;
    assert b == a / 16 && c / 4096 == b / 16;
    assert c == a * 16 + c % 16 && a == b * 16 + a % 16 && b == b / 16 * 16 + b % 16;
  }

  lemma Digits4(p: nat, q: nat, r: nat, s: nat, c: nat)
    requires p < 16 && q < 16 && r < 16 && s < 16 && c == ((p * 16 + q) * 16 + r) * 16 + s
    ensures c / 4096 == p && c / 256 % 16 == q && c / 16 % 16 == r && c % 16 == s
  {
    assert c / 16 == (p * 16 + q) * 16 + r;
    assert c / 256 == p * 16 + q;
  }

  // ---------- Escapes ----------

  predicate High(c: nat) { 0xD800 <= c < 0xDC00 }

  predicate Low(c: nat) { 0xDC00 <= c < 0xE000 }

  lemma EscapeStep(digits: string, t: string)
    requires |digits| == 4
    ensures var s := "\\u" + digits + t;
            s[1..] == "u" + digits + t && s[1..][1..5] == digits && s[1..][5..] == t &&
            ParseText(s) == var u := Unicode(s[1..]); if u.Done? then Prepend(u.value, ParseText(u.rest)) else Undefined
  {
  }

  /** The escape of a character other than NUL and the surrogates gives its bytes. */
  lemma CharacterEscape(digits: string, c: nat, t: string) returns (bytes: string)
    requires Writes(digits, c) && c != 0 && !High(c) && !Low(c)
    ensures Encodes(bytes, c) && Shortest(bytes, c)
    ensures ParseText("\\u" + digits + t) == Prepend(bytes, ParseText(t))
  {
    Hex4Iff(digits, c);
    EscapeStep(digits, t);
    Bytes(c);
    bytes := Utf8(c);
  }

  /** The code point that a surrogate pair stands for. */
  function PairOf(high: nat, low: nat): nat
    requires High(high) && Low(low)
  {
    0x10000 + (high - 0xD800) * 0x400 + (low - 0xDC00)
  }

  /** The source combines a pair with a bitwise or: right exactly if bit 16 of what is added is clear, and
      otherwise 0x10000 too little. */
  lemma Combined(high: nat, low: nat)
    requires High(high) && Low(low)
    ensures Combine(high, low) ==
            PairOf(high, low) - if (high - 0xD800) / 0x40 % 2 == 1 then 0x10000 else 0
  {
    var h, l := high - 0xD800, low - 0xDC00;
    assert high % 0x400 == h && low % 0x400 == l;
    assert (h * 0x400 + l) / 0x10000 == h / 0x40;
  }

  /** The escape of a surrogate pair gives the bytes of its code point if and only if bit 16 of the value
      that the pair carries is clear; otherwise the bytes of another character. */
  lemma PairEscape(first: string, high: nat, second: string, low: nat, t: string) returns (bytes: string)
    requires Writes(first, high) && High(high) && Writes(second, low) && Low(low)
    ensures ParseText("\\u" + first + "\\u" + second + t) == Prepend(bytes, ParseText(t))
    ensures |bytes| == 4 && Shortest(bytes, Combine(high, low))
    ensures Encodes(bytes, PairOf(high, low)) <==> (high - 0xD800) / 0x40 % 2 == 0
    ensures (high - 0xD800) / 0x40 % 2 == 1 ==> Encodes(bytes, PairOf(high, low) - 0x10000)
  {
    hide Encodes, Shortest, Utf8, Combine, Hex4, ParseText;
    Hex4Iff(first, high);
    Hex4Iff(second, low);
    Combined(high, low);
    Bytes(Combine(high, low));
    FourBytes(Combine(high, low));
    var rest := "\\u" + second + t;
    assert "\\u" + first + "\\u" + second + t == "\\u" + first + rest;
    EscapeStep(first, rest);
    var s := ("\\u" + first + rest)[1..];
    assert s[5] == '\\' && s[6] == 'u' && s[7..11] == second && s[11..] == t;
    bytes := Utf8(Combine(high, low));
    EncodesOnce(bytes, Combine(high, low), PairOf(high, low));
  }

  lemma FourBytes(c: nat)
    requires 0x10000 <= c < 0x110000
    ensures |Utf8(c)| == 4
  {
  }

  lemma EncodesOnce(bytes: string, c: nat, d: nat)
    requires Encodes(bytes, c)
    ensures Encodes(bytes, d) <==> c == d
  {
  }

  /** NUL and half a pair give nothing; a second half that is none is swallowed too. */
  lemma EscapeOfNothing(digits: string, c: nat, t: string)
    requires Writes(digits, c)
    ensures c == 0 || Low(c) ==> ParseText("\\u" + digits + t) == Prepend("", ParseText(t))
    ensures High(c) && (|t| < 2 || t[..2] != "\\u") ==> ParseText("\\u" + digits + t) == Prepend("", ParseText(t))
  {
    Hex4Iff(digits, c);
    EscapeStep(digits, t);
    var s := ("\\u" + digits + t)[1..];
    assert |t| >= 2 ==> s[5] == t[0] && s[6] == t[1];
    assert |t| >= 2 && t[0] == '\\' && t[1] == 'u' ==> t[..2] == "\\u";
  }

  lemma HalfPair(first: string, high: nat, second: string, c: nat, t: string)
    requires Writes(first, high) && High(high) && Writes(second, c) && !Low(c)
    ensures ParseText("\\u" + first + "\\u" + second + t) == Prepend("", ParseText(t))
  {
    Hex4Iff(first, high);
    Hex4Iff(second, c);
    var rest := "\\u" + second + t;
    assert "\\u" + first + "\\u" + second + t == "\\u" + first + rest;
    EscapeStep(first, rest);
    var s := ("\\u" + first + rest)[1..];
    assert s[5] == '\\' && s[6] == 'u' && s[7..11] == second && s[11..] == t;
  }

  /** The other escapes: five letters stand for control characters, the rest for themselves. */
  lemma LetterEscape(x: char, t: string) returns (y: char)
    requires x != NUL && x != 'u'
    ensures ParseText(['\\', x] + t) == Prepend([y], ParseText(t))
    ensures if exists i :: 0 <= i < 5 && x == "bfnrt"[i]
            then exists i :: 0 <= i < 5 && x == "bfnrt"[i] && y == ['\U{0008}', '\U{000C}', '\n', '\r', '\t'][i]
            else y == x
  {
    PairReadsBack(x, t);
    y := Unescaped(x);
    assert "bfnrt"[0] == 'b' && "bfnrt"[1] == 'f' && "bfnrt"[2] == 'n' && "bfnrt"[3] == 'r' && "bfnrt"[4] == 't';
  }

  /** Where a string ends: at a quote, or with the text. */
  lemma TextEnds(t: string)
    ensures ParseText("") == Done("", "") && ParseText("\"" + t) == Done("", t)
    ensures ParseText("\\") == Undefined
  {
    assert ("\"" + t)[1..] == t;
  }

  // ---------- Numbers ----------

  lemma {:induction false} TenIs(n: nat)
    ensures Ten(n) == Decimal.Pow10(n) as real && Ten(0 - n) * Decimal.Pow10(n) as real == 1.0
  {
    if n > 0 {
      TenIs(n - 1);
    }
  }

  lemma {:induction false} ScanOn(n: nat, a: string, b: string)
    requires Decimal.AllDigits(a) && Decimal.AllDigits(b)
    ensures Scan(Scan(n, a).0, b).0 == Scan(n, a + b).0
    decreases a
  {
    if a == "" {
      assert a + b == b;
    } else {
      assert (a + b)[1..] == a[1..] + b && Decimal.AllDigits(a[1..]);
      ScanOn(n * 10 + Decimal.DigitValue(a[0]), a[1..], b);
    }
  }

  predicate Marks(mark: string)
  {
    mark == "" || mark == "e" || mark == "E" || mark == "e+" || mark == "E+" || mark == "e-" || mark == "E-"
  }

  function FractionText(fraction: string): string { if fraction == "" then "" else "." + fraction }

  function Power(mark: string, exponent: string): int
    requires Decimal.AllDigits(exponent)
  {
    if |mark| == 2 && mark[1] == '-' then 0 - Decimal.ValueOf(exponent) else Decimal.ValueOf(exponent)
  }

  lemma ExponentReads(mark: string, exponent: string, rest: string)
    requires Marks(mark) && Decimal.AllDigits(exponent) && (mark == "" ==> exponent == "")
    requires Stops(rest) && Peek(rest) != '+' && Peek(rest) != '-'
    ensures Exponent(mark + exponent + rest) == (Power(mark, exponent), rest)
  {
    var s := mark + exponent + rest;
    ScanAppend(0, exponent, rest);
    ScanValue(exponent);
    if mark == "" {
      assert s == rest;
    } else if |mark| == 1 {
      assert s[1..] == exponent + rest;
    } else {
      assert s[1..] == [mark[1]] + (exponent + rest) && s[1..][1..] == exponent + rest;
    }
  }

  lemma FractionReads(n: nat, fraction: string, after: string)
    requires Decimal.AllDigits(fraction) && !Decimal.IsDigit(Peek(after)) && Peek(after) != '.'
    ensures var v := FractionText(fraction) + after;
            Fraction(n, v) == (Scan(n, fraction).0, after) && Scale(v) == |fraction|
  {
    hide Scan, Fraction, Scale;
    var v := FractionText(fraction) + after;
    if fraction == "" {
      assert v == after;
      NoFraction(n, after);
    } else {
      ScanAppend(n, fraction, after);
      ScanAppend(0, fraction, after);
      assert v[0] == '.' && v[1..] == fraction + after && v[1] == fraction[0];
      SomeFraction(n, v, Scan(n, fraction).0, after);
    }
  }

  lemma NoFraction(n: nat, s: string)
    requires Peek(s) != '.'
    ensures Fraction(n, s) == (n, s) && Scale(s) == 0 && Scan(n, "") == (n, "")
  {
  }

  lemma SomeFraction(n: nat, s: string, m: nat, after: string)
    requires |s| > 1 && s[0] == '.' && Decimal.IsDigit(s[1])
    requires Scan(n, s[1..]) == (m, after) && Scan(0, s[1..]).1 == after
    ensures Fraction(n, s) == (m, after) && Scale(s) == |s| - 1 - |after|
  {
    hide Scan;
    ScanShortens(0, s[1..]);
  }

  lemma WholeReads(whole: string, v: string)
    requires Decimal.AllDigits(whole) && (whole != "" ==> whole[0] != '0') && !Decimal.IsDigit(Peek(v))
    ensures var u := whole + v;
            Peek(u) != '0' && (if '1' <= Peek(u) <= '9' then Scan(0, u) else (0, u)) == (Decimal.ValueOf(whole), v)
  {
    hide Scan, Decimal.ValueOf;
    if whole == "" {
      assert whole + v == v && Decimal.ValueOf("") == 0 by {
        ScanValue("");
        NoFraction(0, "");
      }
    } else {
      ScanAppend(0, whole, v);
      ScanValue(whole);
      assert (whole + v)[0] == whole[0];
    }
  }

  /** The texts of numbers: an optional sign, an optional zero, digits, a fraction and an exponent. */
  function NumberText(minus: bool, zero: bool, whole: string, tail: string): string
  {
    (if minus then "-" else "") + ((if zero then "0" else "") + (whole + tail))
  }

  lemma NumberParts(minus: bool, zero: bool, whole: string, tail: string)
    requires Peek(whole + tail) != '-' && Peek(whole + tail) != '0'
    ensures var s := NumberText(minus, zero, whole, tail);
            var t := if Peek(s) == '-' then s[1..] else s;
            (Peek(s) == '-' <==> minus) && (if Peek(t) == '0' then t[1..] else t) == whole + tail
  {
    var u := whole + tail;
    var t := (if zero then "0" else "") + u;
    assert zero ==> t[1..] == u;
    assert !zero ==> t == u;
    var s := NumberText(minus, zero, whole, tail);
    assert minus ==> s[1..] == t;
    assert !minus ==> s == t;
  }

  lemma ValuesJoin(whole: string, fraction: string)
    requires Decimal.AllDigits(whole) && Decimal.AllDigits(fraction)
    ensures Decimal.AllDigits(whole + fraction)
    ensures Scan(Decimal.ValueOf(whole), fraction).0 == Decimal.ValueOf(whole + fraction)
    ensures Decimal.AllDigits("") && (fraction == "" ==> whole + fraction == whole)
  {
    ScanValue(whole);
    ScanOn(0, whole, fraction);
    ScanValue(whole + fraction);
  }

  /** Every number text is read to its end, each of its parts being optional. Its value is that of its
      digits, moved by its exponent and the length of its fraction; it is an integer without a fraction and
      with no exponent but zero. */
  lemma NumberReads(minus: bool, zero: bool, whole: string, fraction: string, mark: string, exponent: string,
      rest: string)
    requires Decimal.AllDigits(whole) && (whole != "" ==> whole[0] != '0') && Decimal.AllDigits(fraction)
    requires Marks(mark) && Decimal.AllDigits(exponent) && (mark == "" ==> exponent == "")
    requires Stops(rest) && Peek(rest) != '+' && Peek(rest) != '-'
    ensures var sign, e := if minus then -1 else 1, Power(mark, exponent);
            Decimal.AllDigits(whole + fraction) &&
            var r := ParseNumber(NumberText(minus, zero, whole, FractionText(fraction) + (mark + exponent + rest)));
            r.1 == rest &&
            r.0 == if fraction == "" && e == 0 then Int(sign, sign * Decimal.ValueOf(whole))
                   else Double((sign * Decimal.ValueOf(whole + fraction)) as real * Ten(e - |fraction|))
  {
    hide Scan, Fraction, Exponent, Scale, Ten, Decimal.ValueOf, NumberText, Power, Decimal.AllDigits, ParseNumber;
    var after := mark + exponent + rest;
    var v := FractionText(fraction) + after;
    MarkStops(fraction, mark, exponent, rest);
    WholeReads(whole, v);
    NumberParts(minus, zero, whole, v);
    FractionReads(Decimal.ValueOf(whole), fraction, after);
    ExponentReads(mark, exponent, rest);
    ValuesJoin(whole, fraction);
    Assembled(NumberText(minus, zero, whole, v), whole + v, Decimal.ValueOf(whole), v,
      Decimal.ValueOf(whole + fraction), after, Power(mark, exponent), rest);
  }

  lemma Assembled(s: string, u: string, n: nat, v: string, m: nat, w: string, e: int, rest: string)
    requires var t := if Peek(s) == '-' then s[1..] else s; (if Peek(t) == '0' then t[1..] else t) == u
    requires (if '1' <= Peek(u) <= '9' then Scan(0, u) else (0, u)) == (n, v)
    requires Fraction(n, v) == (m, w) && Exponent(w) == (e, rest)
    ensures var sign, r := if Peek(s) == '-' then -1 else 1, ParseNumber(s);
            r.1 == rest &&
            r.0 == if Scale(v) == 0 && e == 0 then Int(sign, sign * m)
                   else Double((sign * m) as real * Ten(e - Scale(v)))
  {
    hide Scan, Fraction, Exponent, Scale, Ten;
  }

  lemma MarkStops(fraction: string, mark: string, exponent: string, rest: string)
    requires Marks(mark) && (mark == "" ==> exponent == "") && Stops(rest) && Peek(rest) != '-'
    ensures var after := mark + exponent + rest;
            !Decimal.IsDigit(Peek(after)) && Peek(after) != '.' &&
            !Decimal.IsDigit(Peek(FractionText(fraction) + after)) &&
            Peek(FractionText(fraction) + after) != '-'
  {
    var after := mark + exponent + rest;
    assert mark == "" ==> after == rest;
    assert mark != "" ==> after[0] == mark[0];
    assert fraction == "" ==> FractionText(fraction) + after == after;
  }

  // ---------- Blanks and errors ----------

  predicate Blank(c: char) { 0 < c as int <= 32 }

  /** White space is skipped, and nothing else is. */
  lemma {:induction false} BlanksSkipped(blanks: string, t: string)
    requires (forall c <- blanks :: Blank(c)) && (t == "" || !Blank(t[0]))
    ensures Skip(blanks + t) == t
  {
    if blanks == "" {
      assert blanks + t == t;
    } else {
      assert (blanks + t)[1..] == blanks[1..] + t && blanks[0] in blanks && forall c <- blanks[1..] :: c in blanks;
      BlanksSkipped(blanks[1..], t);
    }
  }

  /** Nothing but these characters begins a value. */
  lemma NoValue(s: string)
    requires s == "" || (!Decimal.IsDigit(s[0]) && forall i :: 0 <= i < 7 ==> s[0] != "nft\"-[{"[i])
    ensures ParseValue(s) == Malformed
  {
    hide ParseText, ParseItems, ParseMembers, ParseNumber, Skip;
    var starts := "nft\"-[{";
    assert starts[0] == 'n' && starts[1] == 'f' && starts[2] == 't' && starts[3] == '"' && starts[4] == '-' &&
           starts[5] == '[' && starts[6] == '{';
  }

  /** After an item there must be a comma or the bracket, after a name a colon, after a member a comma or the
      brace. */
  lemma NoSeparator(s: string, v: Value, t: string, name: string, m: Member)
    ensures ParseValue(Skip(s)) == Done(v, t) && Peek(Skip(t)) != ',' && Peek(Skip(t)) != ']' ==>
              ParseItems(s) == Malformed
    ensures s == "" || s[0] != '"' ==> ParseMember(s) == Malformed
    ensures ParseString(s) == Done(name, t) && Peek(Skip(t)) != ':' ==> ParseMember(s) == Malformed
    ensures ParseMember(Skip(s)) == Done(m, t) && Peek(Skip(t)) != ',' && Peek(Skip(t)) != '}' ==>
              ParseMembers(s) == Malformed
  {
  }

  /** What is wrong with a part is wrong with the whole, in the same way. */
  lemma ErrorsPass(s: string, name: string, t: string, v: Value, m: Member)
    requires Skip(s) == s
    ensures ParseString(s) == Undefined ==> ParseMember(s) == Undefined
    ensures ParseString(s) == Done(name, t) && Peek(Skip(t)) == ':' ==>
              (ParseValue(Skip(Skip(t)[1..])) == Malformed ==> ParseMember(s) == Malformed) &&
              (ParseValue(Skip(Skip(t)[1..])) == Undefined ==> ParseMember(s) == Undefined)
    ensures (ParseValue(s) == Malformed ==> ParseItems(s) == Malformed) &&
            (ParseValue(s) == Undefined ==> ParseItems(s) == Undefined)
    ensures (ParseMember(s) == Malformed ==> ParseMembers(s) == Malformed) &&
            (ParseMember(s) == Undefined ==> ParseMembers(s) == Undefined)
    ensures ParseValue(s) == Done(v, t) && Peek(Skip(t)) == ',' && !ParseItems(Skip(t)[1..]).Done? ==>
              ParseItems(s) == ParseItems(Skip(t)[1..])
    ensures ParseMember(s) == Done(m, t) && Peek(Skip(t)) == ',' && !ParseMembers(Skip(t)[1..]).Done? ==>
              ParseMembers(s) == ParseMembers(Skip(t)[1..])
  {
  }

  // ---------- Printed texts ----------

  /** Characters are printed as themselves but for quotes, backslashes and control characters; five of
      those have a letter, the others four lower-case digits. What is printed reads back. */
  lemma EscapeForms(c: char)
    requires c != NUL
    ensures |Escape(c)| == 1 <==> c != '"' && c != '\\' && c as int >= 32
    ensures |Escape(c)| == 2 <==> c == '"' || c == '\\' || 8 <= c as int <= 10 || 12 <= c as int <= 13
    ensures |Escape(c)| != 1 ==> Escape(c)[0] == '\\'
    ensures |Escape(c)| <= 2 ||
            (|Escape(c)| == 6 && Escape(c)[1] == 'u' && Writes(Escape(c)[2..], c as int) &&
             forall i :: 2 <= i < 6 ==> Escape(c)[i] < 'a' || Escape(c)[i] in "abcdef")
    ensures forall t :: ParseText(Escape(c) + t) == Prepend([c], ParseText(t))
  {
    forall t
      ensures ParseText(Escape(c) + t) == Prepend([c], ParseText(t))
    {
      EscapeReadsBack(c, t);
    }
    if |Escape(c)| > 2 {
      ControlDigits(c);
    }
  }

  lemma ControlDigits(c: char)
    requires NUL < c < ' ' && |Escape(c)| > 2
    ensures |Escape(c)| == 6 && Writes(Escape(c)[2..], c as int)
  {
    var a, b := HexDigit(c as int / 16), HexDigit(c as int % 16);
    assert Escape(c)[2..] == ['0', '0', a, b];
  }

  /** An integer is printed as signed 64 bits if its sign says so, and as unsigned ones otherwise. */
  lemma IntegerText(sign: int, value: int)
    requires -LIMIT <= value < LIMIT
    ensures PrintInt(sign, value) ==
            if value >= 0 then Decimal.Digits(value)
            else if sign == -1 then "-" + Decimal.Digits(-value)
            else Decimal.Digits(0x1_0000_0000_0000_0000 + value)
  {
  }

  lemma {:induction false} PaddedAt(k: nat, n: nat, i: nat)
    requires i < n
    ensures Padded(k, n)[n - 1 - i] == "0123456789"[k / Decimal.Pow10(i) % 10]
  {
    Decimal.DigitIs(k % 10);
    if i > 0 {
      PaddedAt(k / 10, n - 1, i - 1);
      Decimal.TenTimes(k, Decimal.Pow10(i - 1));
    }
  }

  /** A number with a fraction is printed with a sign if it has one, the digits of its whole part, a point, and
      exactly six digits. */
  lemma DoubleText(f: Fixed) returns (places: string)
    ensures PrintDouble(f) == (if f.negative then "-" else "") + Decimal.Digits(f.millionths / 1000000) + "." + places
    ensures |places| == 6
    ensures forall i :: 0 <= i < 6 ==> places[5 - i] == "0123456789"[f.millionths % 1000000 / Decimal.Pow10(i) % 10]
  {
    hide Padded;
    places := Padded(f.millionths % 1000000, 6);
    forall i | 0 <= i < 6
      ensures places[5 - i] == "0123456789"[f.millionths % 1000000 / Decimal.Pow10(i) % 10]
    {
      PaddedAt(f.millionths % 1000000, 6, i);
    }
  }

  lemma Parts<T>(a: seq<T>, b: seq<T>)
    requires a != []
    ensures (a + b)[1..] == a[1..] + b && (a + b)[0] == a[0]
    ensures (forall x <- a :: x in a + b) && (forall x <- b :: x in a + b) && (|a| == 1 ==> a[1..] + b == b)
  {
  }

  /** The items of an array are separated by a comma, and by a blank in a formatted text. */
  lemma {:induction false} ItemsJoin(r: Rendering, a: seq<Value>, b: seq<Value>, depth: nat, fmt: bool)
    requires (forall v <- a + b :: Storable(v)) && a != [] && b != []
    ensures (forall v <- a :: Storable(v)) && (forall v <- b :: Storable(v))
    ensures PrintItems(r, a + b, depth, fmt) ==
            PrintItems(r, a, depth, fmt) + (if fmt then ", " else ",") + PrintItems(r, b, depth, fmt)
    decreases a
  {
    hide Print, PrintItems, Storable;
    Parts(a, b);
    PrintsFirstItem(r, a + b, depth, fmt);
    PrintsFirstItem(r, a, depth, fmt);
    if |a| > 1 {
      Parts(a[1..], b);
      ItemsJoin(r, a[1..], b, depth, fmt);
    }
  }

  lemma ArrayLayout(r: Rendering, v: Value, depth: nat, fmt: bool)
    requires Storable(v)
    ensures Print(r, Array([]), depth, fmt) == "[]"
    ensures Print(r, Array([v]), depth, fmt) == "[" + Print(r, v, depth + 1, fmt) + "]"
  {
  }

  lemma FirstMember(r: Rendering, members: seq<Member>, depth: nat, fmt: bool)
    requires (forall m <- members :: NulFree(m.name) && Storable(m.value)) && members != []
    ensures members[0] in members && forall m <- members[1..] :: m in members
    ensures PrintMembers(r, members, depth, fmt) ==
            PrintMember(r, members[0], depth, fmt) + (if |members| == 1 then "" else ",") + (if fmt then "\n" else "") +
            PrintMembers(r, members[1..], depth, fmt)
    ensures PrintMembers(r, [], depth, fmt) == ""
  {
    assert members[0] in members && forall m <- members[1..] :: m in members;
  }

  /** The members of an object are separated by a comma, and end with a line in a formatted text. */
  lemma {:induction false} MembersJoin(r: Rendering, a: seq<Member>, b: seq<Member>, depth: nat, fmt: bool)
      returns (lines: string)
    requires (forall m <- a + b :: NulFree(m.name) && Storable(m.value)) && a != [] && b != []
    ensures (forall m <- a :: NulFree(m.name) && Storable(m.value)) &&
            (forall m <- b :: NulFree(m.name) && Storable(m.value))
    ensures PrintMembers(r, a, depth, fmt) == lines + (if fmt then "\n" else "")
    ensures PrintMembers(r, a + b, depth, fmt) ==
            lines + "," + (if fmt then "\n" else "") + PrintMembers(r, b, depth, fmt)
    decreases a
  {
    hide PrintMember, PrintMembers, Storable, NulFree;
    Parts(a, b);
    FirstMember(r, a + b, depth, fmt);
    FirstMember(r, a, depth, fmt);
    lines := PrintMember(r, a[0], depth, fmt);
    if |a| > 1 {
      Parts(a[1..], b);
      var more := MembersJoin(r, a[1..], b, depth, fmt);
      lines := lines + "," + (if fmt then "\n" else "") + more;
    } else {
      assert a[1..] == [];
    }
  }

  /** A formatted object has each member on a line of its own, indented by tabs, and a tab before the value;
      an unformatted one has no white space. */
  lemma ObjectLayout(r: Rendering, name: string, v: Value, depth: nat)
    requires NulFree(name) && Storable(v)
    ensures Print(r, Object([]), depth, false) == "{}"
    ensures Print(r, Object([]), depth, true) == "{\n" + Tabs(depth) + "}"
    ensures Print(r, Object([Member(name, v)]), depth, false) ==
            "{" + PrintString(name) + ":" + Print(r, v, depth + 1, false) + "}"
    ensures Print(r, Object([Member(name, v)]), depth, true) ==
            "{\n" + Tabs(depth + 1) + PrintString(name) + ":\t" + Print(r, v, depth + 1, true) + "\n" +
            Tabs(depth) + "}"
    ensures |Tabs(depth)| == depth && forall c <- Tabs(depth) :: c == '\t'
  {
    hide Print, PrintMember, PrintMembers, PrintString, Storable, Tabs;
    NoMembers(r, depth);
    ObjectOf(r, [Member(name, v)], depth);
    OneMember(r, Member(name, v), depth + 1);
    Flat(Tabs(depth + 1), PrintString(name), Print(r, v, depth + 1, true), Tabs(depth));
    ManyTabs(depth);
  }

  lemma ManyTabs(depth: nat)
    ensures |Tabs(depth)| == depth && forall c <- Tabs(depth) :: c == '\t'
  {
  }

  lemma Flat(a: string, b: string, c: string, d: string)
    ensures "{\n" + (a + b + ":\t" + c + "\n") + d + "}" == "{\n" + a + b + ":\t" + c + "\n" + d + "}"
    ensures forall x: string :: "{" + (b + ":" + x) + "}" == "{" + b + ":" + x + "}"
  {
  }

  lemma NoMembers(r: Rendering, depth: nat)
    ensures Print(r, Object([]), depth, false) == "{}"
    ensures Print(r, Object([]), depth, true) == "{\n" + Tabs(depth) + "}"
  {
  }

  lemma ObjectOf(r: Rendering, members: seq<Member>, depth: nat)
    requires forall m <- members :: NulFree(m.name) && Storable(m.value)
    ensures Print(r, Object(members), depth, false) == "{" + PrintMembers(r, members, depth + 1, false) + "}"
    ensures Print(r, Object(members), depth, true) ==
            "{\n" + PrintMembers(r, members, depth + 1, true) + Tabs(depth) + "}"
  {
    hide PrintMembers;
  }

  lemma OneMember(r: Rendering, m: Member, depth: nat)
    requires NulFree(m.name) && Storable(m.value)
    ensures PrintMembers(r, [m], depth, false) == PrintString(m.name) + ":" + Print(r, m.value, depth, false)
    ensures PrintMembers(r, [m], depth, true) ==
            Tabs(depth) + PrintString(m.name) + ":\t" + Print(r, m.value, depth, true) + "\n"
  {
    assert [m][1..] == [];
    hide PrintString, Print;
    FirstMember(r, [m], depth, false);
    FirstMember(r, [m], depth, true);
    hide PrintMembers;
  }
}
