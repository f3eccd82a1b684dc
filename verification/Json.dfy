/** JSON as `cJSON.c` prints and parses it. A character stands for a byte; the end of a text stands for
    the NUL that ends it. */
module Json {
  import Decimal

  /** A number is an integer unless its text has a fraction or an exponent other than zero. `sign` says
      how an integer is printed: signed if it is -1, unsigned otherwise. */
  datatype Value =
    | Null
    | False
    | True
    | Int(sign: int, value: int)
    | Double(number: real)
    | String(text: string)
    | Array(items: seq<Value>)
    | Object(members: seq<Member>)

  datatype Member = Member(name: string, value: Value)

  /** `Undefined` is an escape that the source reads beyond the end of the text, or reads no number
      from, and an integer that it cannot convert to 64 bits: nothing is said of what it does then. */
  datatype Parsed<+T> = Done(value: T, rest: string) | Malformed | Undefined

  const NUL: char := '\0'

  function Peek(s: string): char { if s == "" then NUL else s[0] }

  function Skip(s: string): string
  {
    if s != "" && NUL < s[0] <= ' ' then Skip(s[1..]) else s
  }

  // ---------- Numbers ----------

  /** The digits at the start of `s`, appended to those of `n`. */
  function Scan(n: nat, s: string): (nat, string)
    decreases s
  {
    if s != "" && Decimal.IsDigit(s[0]) then Scan(n * 10 + Decimal.DigitValue(s[0]), s[1..]) else (n, s)
  }

  lemma {:induction false} ScanShortens(n: nat, s: string)
    ensures |Scan(n, s).1| <= |s|
    ensures s != "" && Decimal.IsDigit(s[0]) ==> |Scan(n, s).1| < |s|
    decreases s
  {
    if s != "" && Decimal.IsDigit(s[0]) {
      ScanShortens(n * 10 + Decimal.DigitValue(s[0]), s[1..]);
    }
  }

  function Fraction(n: nat, s: string): (nat, string)
  {
    if Peek(s) == '.' && |s| > 1 && Decimal.IsDigit(s[1]) then Scan(n, s[1..]) else (n, s)
  }

  /** How far the fraction moves the decimal point. */
  function Scale(s: string): nat
  {
    if Peek(s) == '.' && |s| > 1 && Decimal.IsDigit(s[1])
    then (ScanShortens(0, s[1..]); |s| - 1 - |Scan(0, s[1..]).1|) else 0
  }

  function Exponent(s: string): (int, string)
  {
    if Peek(s) == 'e' || Peek(s) == 'E' then
      var t := s[1..];
      if Peek(t) == '-' then (0 - Scan(0, t[1..]).0 as int, Scan(0, t[1..]).1)
      else Scan(0, if Peek(t) == '+' then t[1..] else t)
    else (0, s)
  }

  /** `pow(10.0, e)` */
  function Ten(e: int): real
    decreases if e < 0 then -e else e
  {
    if e == 0 then 1.0 else if e > 0 then 10.0 * Ten(e - 1) else Ten(e + 1) / 10.0
  }

  function ParseNumber(s: string): (Value, string)
  {
    var negative := Peek(s) == '-';
    var t := if negative then s[1..] else s;
    var u := if Peek(t) == '0' then t[1..] else t;
    var (n, v) := if '1' <= Peek(u) <= '9' then Scan(0, u) else (0, u);
    var (m, w) := Fraction(n, v);
    var (e, rest) := Exponent(w);
    var sign := if negative then -1 else 1;
    (if Scale(v) == 0 && e == 0 then Int(sign, sign * m) else Double((sign * m) as real * Ten(e - Scale(v))), rest)
  }

  const LIMIT: int := 0x8000_0000_0000_0000

  /** The conversion of the digits to 64 bits is defined. */
  predicate Converts(v: Value)
  {
    v.Int? ==> -LIMIT < v.value < LIMIT
  }

  // ---------- Strings ----------

  function HexValue(c: char): (r: int)
    ensures -1 <= r < 16
  {
    if '0' <= c <= '9' then c as int - '0' as int
    else if 'a' <= c <= 'f' then c as int - 'a' as int + 10
    else if 'A' <= c <= 'F' then c as int - 'A' as int + 10
    else -1
  }

  /** The value of four hexadecimal digits, or -1. */
  function Hex4(s: string): (r: int)
    requires |s| == 4
    ensures -1 <= r < 0x10000
  {
    var a, b, c, d := HexValue(s[0]), HexValue(s[1]), HexValue(s[2]), HexValue(s[3]);
    if a < 0 || b < 0 || c < 0 || d < 0 then -1 else ((a * 16 + b) * 16 + c) * 16 + d
  }

  /** The bytes of a code point, as the source computes them. */
  function Utf8(c: nat): (s: string)
    requires c < 0x110000
    ensures 1 <= |s| <= 4 && (c < 0x10000 ==> |s| <= 3)
  {
    if c < 0x80 then [c as char]
    else if c < 0x800 then [(0xC0 + c / 64) as char, (0x80 + c % 64) as char]
    else if c < 0x10000 then [(0xE0 + c / 4096) as char, (0x80 + c / 64 % 64) as char, (0x80 + c % 64) as char]
    else [(0xF0 + c / 262144) as char, (0x80 + c / 4096 % 64) as char, (0x80 + c / 64 % 64) as char,
          (0x80 + c % 64) as char]
  }

  /** The code point of a surrogate pair: the source sets bit 16 where it should add 0x10000. */
  function Combine(high: nat, low: nat): (c: nat)
    requires high < 0x10000 && low < 0x10000
    ensures 0x10000 <= c < 0x110000
  {
    var ten := (high % 0x400) * 0x400 + low % 0x400;
    if ten / 0x10000 % 2 == 1 then ten else 0x10000 + ten
  }

  function Prepend(s: string, p: Parsed<string>): Parsed<string>
  {
    if p.Done? then Done(s + p.value, p.rest) else p
  }

  /** A `\u` escape after its backslash: the bytes it stands for, and where the text goes on. */
  function Unicode(s: string): Parsed<string>
    requires s != "" && s[0] == 'u'
  {
    if |s| < 5 || Hex4(s[1..5]) < 0 then Undefined
    else
      var c := Hex4(s[1..5]);
      if c == 0 || 0xDC00 <= c <= 0xDFFF then Done("", s[5..])
      else if 0xD800 <= c <= 0xDBFF then
        if |s| < 7 || s[5] != '\\' || s[6] != 'u' then Done("", s[5..])
        else if |s| < 11 || Hex4(s[7..11]) < 0 then Undefined
        else
          var d := Hex4(s[7..11]);
          Done(if 0xDC00 <= d <= 0xDFFF then Utf8(Combine(c, d)) else "", s[11..])
      else Done(Utf8(c), s[5..])
  }

  function Unescaped(c: char): char
  {
    if c == 'b' then '\U{0008}' else if c == 'f' then '\U{000c}' else if c == 'n' then '\n'
    else if c == 'r' then '\r' else if c == 't' then '\t' else c
  }

  /** The text of a string after its opening quote; the end of the text closes it too. */
  function ParseText(s: string): Parsed<string>
    decreases |s|
  {
    if Peek(s) == NUL then Done("", s)
    else if s[0] == '"' then Done("", s[1..])
    else if s[0] != '\\' then Prepend([s[0]], ParseText(s[1..]))
    else if Peek(s[1..]) == NUL then Undefined
    else if s[1] == 'u' then
      var u := Unicode(s[1..]);
      if u.Done? then Prepend(u.value, ParseText(u.rest)) else Undefined
    else Prepend([Unescaped(s[1])], ParseText(s[2..]))
  }

  function ParseString(s: string): Parsed<string>
  {
    if Peek(s) == '"' then ParseText(s[1..]) else Malformed
  }

  // ---------- Values ----------

  predicate Starts(s: string, word: string)
  {
    |word| <= |s| && s[..|word|] == word
  }

  predicate Shorter<T>(p: Parsed<T>, s: string)
  {
    p.Done? ==> |p.rest| < |s|
  }

  lemma {:induction false} SkipShortens(s: string)
    ensures |Skip(s)| <= |s|
  {
    if s != "" && NUL < s[0] <= ' ' {
      SkipShortens(s[1..]);
    }
  }

  lemma {:induction false} TextShortens(s: string)
    ensures ParseText(s).Done? ==> |ParseText(s).rest| <= |s|
    decreases |s|
  {
    if Peek(s) != NUL && s[0] != '"' {
      if s[0] != '\\' {
        TextShortens(s[1..]);
      } else if Peek(s[1..]) != NUL {
        if s[1] == 'u' {
          if Unicode(s[1..]).Done? {
            TextShortens(Unicode(s[1..]).rest);
          }
        } else {
          TextShortens(s[2..]);
        }
      }
    }
  }

  lemma NumberShortens(s: string)
    requires Peek(s) == '-' || Decimal.IsDigit(Peek(s))
    ensures |ParseNumber(s).1| < |s|
  {
    var t := if Peek(s) == '-' then s[1..] else s;
    var u := if Peek(t) == '0' then t[1..] else t;
    ScanShortens(0, u);
    var (n, v) := if '1' <= Peek(u) <= '9' then Scan(0, u) else (0, u);
    if |v| > 1 {
      ScanShortens(n, v[1..]);
    }
    var (m, w) := Fraction(n, v);
    if Peek(w) == 'e' || Peek(w) == 'E' {
      ScanShortens(0, w[1..]);
      if |w| > 1 {
        ScanShortens(0, w[2..]);
      }
    }
  }

  function ParseValue(s: string): (r: Parsed<Value>)
    ensures Shorter(r, s)
    decreases |s|, 0
  {
    if Starts(s, "null") then Done(Null, s[4..])
    else if Starts(s, "false") then Done(False, s[5..])
    else if Starts(s, "true") then Done(True, s[4..])
    else if Peek(s) == '"' then
      TextShortens(s[1..]);
      var p := ParseText(s[1..]);
      if p.Done? then Done(String(p.value), p.rest) else if p.Malformed? then Malformed else Undefined
    else if Peek(s) == '-' || Decimal.IsDigit(Peek(s)) then
      NumberShortens(s);
      var (v, rest) := ParseNumber(s);
      if Converts(v) then Done(v, rest) else Undefined
    else if Peek(s) == '[' then
      var t := Skip(s[1..]);
      SkipShortens(s[1..]);
      if Peek(t) == ']' then Done(Array([]), t[1..])
      else
        var p := ParseItems(t);
        if p.Done? then Done(Array(p.value), p.rest) else if p.Malformed? then Malformed else Undefined
    else if Peek(s) == '{' then
      var t := Skip(s[1..]);
      SkipShortens(s[1..]);
      if Peek(t) == '}' then Done(Object([]), t[1..])
      else
        var p := ParseMembers(t);
        if p.Done? then Done(Object(p.value), p.rest) else if p.Malformed? then Malformed else Undefined
    else Malformed
  }

  /** The items from here to the closing bracket. */
  function ParseItems(s: string): (r: Parsed<seq<Value>>)
    ensures Shorter(r, s)
    decreases |s|, 2
  {
    SkipShortens(s);
    var p := ParseValue(Skip(s));
    if p.Malformed? then Malformed else if p.Undefined? then Undefined
    else
      var t := Skip(p.rest);
      SkipShortens(p.rest);
      if Peek(t) == ',' then
        var more := ParseItems(t[1..]);
        if more.Done? then Done([p.value] + more.value, more.rest) else more
      else if Peek(t) == ']' then Done([p.value], t[1..])
      else Malformed
  }

  /** One member: its name, a colon and its value. */
  function ParseMember(s: string): (r: Parsed<Member>)
    ensures Shorter(r, s)
    decreases |s|, 1
  {
    var n := ParseString(s);
    if n.Malformed? then Malformed else if n.Undefined? then Undefined
    else
      var t := Skip(n.rest);
      TextShortens(s[1..]);
      SkipShortens(n.rest);
      if Peek(t) != ':' then Malformed
      else
        SkipShortens(t[1..]);
        var p := ParseValue(Skip(t[1..]));
        if p.Done? then Done(Member(n.value, p.value), p.rest) else if p.Malformed? then Malformed else Undefined
  }

  function ParseMembers(s: string): (r: Parsed<seq<Member>>)
    ensures Shorter(r, s)
    decreases |s|, 2
  {
    SkipShortens(s);
    var p := ParseMember(Skip(s));
    if p.Malformed? then Malformed else if p.Undefined? then Undefined
    else
      var t := Skip(p.rest);
      SkipShortens(p.rest);
      if Peek(t) == ',' then
        var more := ParseMembers(t[1..]);
        if more.Done? then Done([p.value] + more.value, more.rest) else more
      else if Peek(t) == '}' then Done([p.value], t[1..])
      else Malformed
  }

  /** `cJSON_Parse`; what follows the value is ignored. */
  function Parse(s: string): Parsed<Value>
  {
    ParseValue(Skip(s))
  }

  // ---------- Printing ----------

  /** A number rounded to six decimals. */
  datatype Fixed = Fixed(negative: bool, millionths: nat)

  /** How the C library rounds a number for `%f`. */
  type Rendering = real -> Fixed

  /** `n` decimal digits, with leading zeros. */
  function Padded(k: nat, n: nat): (s: string)
    ensures |s| == n && Decimal.AllDigits(s)
  {
    if n == 0 then "" else Padded(k / 10, n - 1) + [Decimal.DigitChar(k % 10)]
  }

  /** `print_double` */
  function PrintDouble(f: Fixed): string
  {
    (if f.negative then "-" else "") + Decimal.Digits(f.millionths / 1000000) + "." +
    Padded(f.millionths % 1000000, 6)
  }

  function HexDigit(d: nat): (c: char)
    requires d < 16
    ensures HexValue(c) == d && c > ' ' && c != '"' && c != '\\'
  {
    if d < 10 then '0' + d as char else 'a' + (d - 10) as char
  }

  function Escape(c: char): (s: string)
    requires c != NUL
    ensures s != ""
  {
    if c == '"' then "\\\"" else if c == '\\' then "\\\\"
    else if c > '\U{001f}' then [c]
    else if c == '\U{0008}' then "\\b" else if c == '\U{000c}' then "\\f" else if c == '\n' then "\\n"
    else if c == '\r' then "\\r" else if c == '\t' then "\\t"
    else "\\u00" + [HexDigit(c as int / 16), HexDigit(c as int % 16)]
  }

  predicate NulFree(s: string) { forall c <- s :: c != NUL }

  function EscapeAll(s: string): string
    requires NulFree(s)
  {
    if s == "" then "" else
      assert s[0] in s && forall c <- s[1..] :: c in s;
      Escape(s[0]) + EscapeAll(s[1..])
  }

  function PrintString(s: string): string
    requires NulFree(s)
  {
    "\"" + EscapeAll(s) + "\""
  }

  /** The number that is printed: the 64 bits are taken as signed or unsigned. */
  function Printed(sign: int, value: int): int
  {
    if sign == -1 || value >= 0 then value else value + 2 * LIMIT
  }

  function PrintInt(sign: int, value: int): string
  {
    Decimal.Text(Printed(sign, value))
  }

  function Tabs(n: nat): string { seq(n, _ => '\t') }

  /** What items can hold: integers of 64 bits, and C strings, which hold no NUL. */
  predicate Storable(v: Value)
  {
    match v
    case Int(_, value) => -LIMIT <= value < LIMIT
    case String(s) => NulFree(s)
    case Array(items) => forall i <- items :: Storable(i)
    case Object(members) => forall m <- members :: NulFree(m.name) && Storable(m.value)
    case _ => true
  }

  function Print(r: Rendering, v: Value, depth: nat, fmt: bool): string
    requires Storable(v)
    decreases v, 1
  {
    match v
    case Null => "null"
    case False => "false"
    case True => "true"
    case Int(sign, value) => PrintInt(sign, value)
    case Double(d) => PrintDouble(r(d))
    case String(s) => PrintString(s)
    case Array(items) => "[" + PrintItems(r, items, depth + 1, fmt) + "]"
    case Object(members) =>
      "{" + (if fmt then "\n" else "") + PrintMembers(r, members, depth + 1, fmt) +
      (if fmt then Tabs(depth) else "") + "}"
  }

  function PrintItems(r: Rendering, items: seq<Value>, depth: nat, fmt: bool): string
    requires forall i <- items :: Storable(i)
    decreases items, 0
  {
    if items == [] then "" else
      assert items[0] in items && forall i <- items[1..] :: i in items;
      Print(r, items[0], depth, fmt) +
      (if |items| == 1 then "" else (if fmt then ", " else ",") + PrintItems(r, items[1..], depth, fmt))
  }

  function PrintMember(r: Rendering, m: Member, depth: nat, fmt: bool): string
    requires NulFree(m.name) && Storable(m.value)
    decreases m, 2
  {
    (if fmt then Tabs(depth) else "") + PrintString(m.name) + (if fmt then ":\t" else ":") +
    Print(r, m.value, depth, fmt)
  }

  function PrintMembers(r: Rendering, members: seq<Member>, depth: nat, fmt: bool): string
    requires forall m <- members :: NulFree(m.name) && Storable(m.value)
    decreases members, 0
  {
    if members == [] then "" else
      assert members[0] in members && forall m <- members[1..] :: m in members;
      PrintMember(r, members[0], depth, fmt) + (if |members| == 1 then "" else ",") + (if fmt then "\n" else "") +
      PrintMembers(r, members[1..], depth, fmt)
  }
}
