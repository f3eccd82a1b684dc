/** Printing items into buffers whose lengths are computed beforehand. Every write is within its buffer,
    and the buffer ends up holding the text that `Json` says. */
module JsonPrinter {
  import Decimal
  import opened Json
  import opened JsonItems
  import opened Buffers

  /** The buffer holds a C string. */
  ghost predicate Text(a: array<char>, s: string)
    reads a
  {
    NulFree(s) && |s| < a.Length && a[..|s|] == s && a[|s|] == NUL
  }

  lemma NulFreeSnoc(s: string, c: char)
    requires NulFree(s) && c != NUL
    ensures NulFree(s + [c])
  {
    forall x <- s + [c]
      ensures x != NUL
    {
      assert x in s || x == c;
    }
  }

  lemma {:induction false} EscapeSnoc(s: string, c: char)
    requires NulFree(s) && c != NUL
    ensures NulFree(s + [c]) && EscapeAll(s + [c]) == EscapeAll(s) + Escape(c)
  {
    hide Escape;
    NulFreeSnoc(s, c);
    if s == "" {
      assert s + [c] == [c] && [c][1..] == "";
    } else {
      assert (s + [c])[1..] == s[1..] + [c];
      assert forall x <- s[1..] :: x in s;
      EscapeSnoc(s[1..], c);
    }
  }

  lemma Prefix(s: string, i: nat)
    requires NulFree(s) && i < |s|
    ensures NulFree(s[..i]) && s[i] != NUL && NulFree(s[..i + 1])
    ensures EscapeAll(s[..i + 1]) == EscapeAll(s[..i]) + Escape(s[i])
  {
    assert s[i] in s;
    forall c <- s[..i]
      ensures c != NUL
    {
      assert c in s;
    }
    assert s[..i + 1] == s[..i] + [s[i]];
    EscapeSnoc(s[..i], s[i]);
  }

  /** What the counting loop adds for a character. */
  function Room(c: char): nat
  {
    if c == '"' || c == '\\' || c == '\U{0008}' || c == '\U{000c}' || c == '\n' || c == '\r' || c == '\t' then 2
    else if c < ' ' then 6 else 1
  }

  lemma {:induction false} EscapedLonger(s: string, i: nat)
    requires NulFree(s) && i <= |s|
    ensures NulFree(s[..i]) && |EscapeAll(s[..i])| <= |EscapeAll(s)|
    decreases |s| - i
  {
    if i < |s| {
      Prefix(s, i);
      EscapedLonger(s, i + 1);
    } else {
      assert s[..i] == s;
    }
  }

  /** The text is complete: its terminator still fits. */
  method Close(out: array<char>, p: nat, bracket: char, ghost text: string)
    requires p + 1 < out.Length && out[..p] + [bracket] == text && NulFree(text)
    modifies out
    ensures Text(out, text)
  {
    var q := Put(out, p, [bracket]);
    out[q] := NUL;
  }

  method StringRoom(s: string) returns (len: nat)
    requires NulFree(s)
    ensures len == |EscapeAll(s)|
  {
    len := 0;
    for i := 0 to |s|
      invariant NulFree(s[..i]) && len == |EscapeAll(s[..i])|
    {
      Prefix(s, i);
      len := len + 1;
      var c := s[i];
      if c == '"' || c == '\\' || c == '\U{0008}' || c == '\U{000c}' || c == '\n' || c == '\r' || c == '\t' {
        len := len + 1;
      } else if c < ' ' {
        len := len + 5;
      }
    }
    assert s[..|s|] == s;
  }

  /** `print_string_ptr` */
  method PrintStringPtr(s: string) returns (out: array<char>)
    requires NulFree(s)
    ensures fresh(out) && Text(out, PrintString(s))
  {
    hide Escape, EscapeAll;
    var len := StringRoom(s);
    out := new char[len + 3];
    var p := Put(out, 0, "\"");
    NothingEscaped(s);
    for i := 0 to |s|
      invariant NulFree(s[..i]) && p == 1 + |EscapeAll(s[..i])| && p + 2 <= out.Length
      invariant out[..p] == "\"" + EscapeAll(s[..i])
    {
      Prefix(s, i);
      EscapedLonger(s, i + 1);
      p := PutChar(out, p, s[i]);
    }
    assert s[..|s|] == s;
    EscapedNulFree(s);
    Close(out, p, '"', PrintString(s));
  }

  lemma NothingEscaped(s: string)
    ensures s[..0] == "" && EscapeAll(s[..0]) == ""
  {
  }

  lemma {:induction false} EscapedNulFree(s: string)
    requires NulFree(s)
    ensures NulFree(EscapeAll(s)) && NulFree(PrintString(s))
  {
    if s != "" {
      assert forall x <- s[1..] :: x in s;
      EscapedNulFree(s[1..]);
    }
  }

  method PutChar(out: array<char>, p: nat, c: char) returns (q: nat)
    requires c != NUL && p + |Escape(c)| <= out.Length
    modifies out
    ensures q == p + |Escape(c)| && out[..q] == old(out[..p]) + Escape(c)
  {
    if c > '\U{001f}' && c != '"' && c != '\\' {
      q := Put(out, p, [c]);
    } else {
      q := PutEscape(out, p, c);
    }
  }

  method PutEscape(out: array<char>, p: nat, c: char) returns (q: nat)
    requires c != NUL && (c == '"' || c == '\\' || c < ' ') && p + |Escape(c)| <= out.Length
    modifies out
    ensures q == p + |Escape(c)| && out[..q] == old(out[..p]) + Escape(c)
  {
    var e := if c == '\\' then "\\\\" else if c == '"' then "\\\"" else if c == '\U{0008}' then "\\b"
             else if c == '\U{000c}' then "\\f" else if c == '\n' then "\\n" else if c == '\r' then "\\r"
             else if c == '\t' then "\\t" else "\\u00" + [HexDigit(c as int / 16), HexDigit(c as int % 16)];
    q := Put(out, p, e);
  }

  // ---------- C strings ----------

  lemma Inside(s: string, n: nat)
    requires NulFree(s) && n < |s|
    ensures s[n] != NUL
  {
    assert s[n] in s;
  }

  method StrLen(a: array<char>, ghost s: string) returns (n: nat)
    requires Text(a, s)
    ensures n == |s|
  {
    n := 0;
    while a[n] != NUL
      invariant n <= |s|
      decreases |s| - n
    {
      assert a[n] == a[..|s|][n];
      n := n + 1;
    }
    if n < |s| {
      Inside(s, n);
      assert false;
    }
  }

  method StrCpy(dst: array<char>, p: nat, src: array<char>, ghost s: string)
    requires Text(src, s) && src != dst && p + |s| < dst.Length
    modifies dst
    ensures dst[..p + |s|] == old(dst[..p]) + s
  {
    var i := 0;
    while src[i] != NUL
      invariant i <= |s| && dst[..p + i] == old(dst[..p]) + s[..i]
      decreases |s| - i
    {
      assert src[i] == src[..|s|][i];
      dst[p + i] := src[i];
      i := i + 1;
    }
    if i < |s| {
      Inside(s, i);
      assert false;
    }
    dst[p + i] := NUL;
  }

  method StrDup(s: string) returns (out: array<char>)
    requires NulFree(s)
    ensures fresh(out) && Text(out, s)
  {
    out := new char[|s| + 1];
    var p := Put(out, 0, s);
    out[p] := NUL;
  }

  // ---------- Values ----------

  /** A number that is printed into its 64 bytes: below 10^56, or above -10^55. */
  predicate Short(f: Fixed)
  {
    f.millionths < 1000000 * Decimal.Pow10(if f.negative then 55 else 56)
  }

  /** The text of a number has room for its terminator if and only if the number is short. */
  lemma DoubleRoom(f: Fixed)
    ensures |PrintDouble(f)| < 64 <==> Short(f)
    ensures NulFree(PrintDouble(f))
  {
    hide Decimal.Pow10, Decimal.Digits, Padded;
    var n, k := f.millionths / 1000000, if f.negative then 55 else 56;
    Decimal.DigitsCanonical(n);
    Decimal.DigitsCount(n, k);
    assert n < Decimal.Pow10(k) <==> f.millionths < 1000000 * Decimal.Pow10(k);
  }

  /** The numbers of the tree that are not integers are short. */
  predicate Fits(r: Rendering, v: Value)
  {
    match v
    case Double(d) => Short(r(d))
    case Array(items) => forall i <- items :: Fits(r, i)
    case Object(members) => forall m <- members :: Fits(r, m.value)
    case _ => true
  }

  lemma FitsItem(r: Rendering, vs: seq<Value>, i: nat)
    requires Fits(r, Array(vs)) && i < |vs|
    ensures Fits(r, vs[i])
  {
  }

  lemma FitsMember(r: Rendering, ms: seq<Member>, i: nat)
    requires Fits(r, Object(ms)) && i < |ms|
    ensures Fits(r, ms[i].value)
  {
  }

  lemma IntLength(sign: int, value: int)
    requires -LIMIT <= value < LIMIT
    ensures |PrintInt(sign, value)| <= 20 && NulFree(PrintInt(sign, value))
  {
    var v := Printed(sign, value);
    var n := if v < 0 then -v else v;
    Decimal.DigitsCanonical(n);
    Decimal.DigitsBoundULL(n);
    if v < 0 {
      Decimal.DigitsBoundLL(n);
    }
  }

  lemma {:induction false} TextNulFree(r: Rendering, v: Value, depth: nat, fmt: bool)
    requires Storable(v) && Fits(r, v)
    ensures NulFree(Print(r, v, depth, fmt))
    decreases v, 1
  {
    hide PrintItems, PrintMembers, PrintDouble, PrintInt, EscapeAll, Short;
    if v.Int? {
      IntLength(v.sign, v.value);
    } else if v.Double? {
      DoubleRoom(r(v.number));
    } else if v.String? {
      EscapedNulFree(v.text);
    } else if v.Array? {
      ItemsNulFree(r, v.items, depth + 1, fmt);
    } else if v.Object? {
      MembersNulFree(r, v.members, depth + 1, fmt);
    }
  }

  lemma {:induction false} ItemsNulFree(r: Rendering, items: seq<Value>, depth: nat, fmt: bool)
    requires forall i <- items :: Storable(i) && Fits(r, i)
    ensures NulFree(PrintItems(r, items, depth, fmt))
    decreases items, 0
  {
    hide Print;
    if items != [] {
      assert items[0] in items && forall i <- items[1..] :: i in items;
      TextNulFree(r, items[0], depth, fmt);
      ItemsNulFree(r, items[1..], depth, fmt);
    }
  }

  lemma {:induction false} MembersNulFree(r: Rendering, members: seq<Member>, depth: nat, fmt: bool)
    requires forall m <- members :: NulFree(m.name) && Storable(m.value) && Fits(r, m.value)
    ensures NulFree(PrintMembers(r, members, depth, fmt))
    decreases members, 0
  {
    hide Print, PrintString, PrintMember, NulFree;
    if members != [] {
      var m := members[0];
      assert m in members && forall x <- members[1..] :: x in members;
      MemberNulFree(r, m, depth, fmt);
      MembersNulFree(r, members[1..], depth, fmt);
      Joined(PrintMember(r, m, depth, fmt), if |members| == 1 then "" else ",", if fmt then "\n" else "",
        PrintMembers(r, members[1..], depth, fmt));
    } else {
      NothingNulFree();
    }
  }

  lemma NothingNulFree()
    ensures NulFree("")
  {
  }

  lemma Joined(a: string, b: string, c: string, d: string)
    requires NulFree(a) && NulFree(d) && b in {"", ","} && c in {"", "\n"}
    ensures NulFree(a + b + c + d)
  {
  }

  lemma {:induction false} MemberNulFree(r: Rendering, m: Member, depth: nat, fmt: bool)
    requires NulFree(m.name) && Storable(m.value) && Fits(r, m.value)
    ensures NulFree(PrintMember(r, m, depth, fmt))
    decreases m, 2
  {
    hide Print, PrintString;
    EscapedNulFree(m.name);
    TextNulFree(r, m.value, depth, fmt);
  }

  // ---------- Lists of texts ----------

  /** The buffers hold the texts. */
  ghost predicate Texts(buffers: seq<array<char>>, texts: seq<string>)
    reads buffers
  {
    |buffers| == |texts| && forall k :: 0 <= k < |texts| ==> Text(buffers[k], texts[k])
  }

  function Join(texts: seq<string>, fmt: bool): string
  {
    if texts == [] then "" else
      texts[0] + if |texts| == 1 then "" else (if fmt then ", " else ",") + Join(texts[1..], fmt)
  }

  /** The lengths of the texts, with `more` for each. */
  function Lengths(texts: seq<string>, more: nat): nat
  {
    if texts == [] then 0 else |texts[0]| + more + Lengths(texts[1..], more)
  }

  lemma {:induction false} LengthsSnoc(texts: seq<string>, more: nat, t: string)
    ensures Lengths(texts + [t], more) == Lengths(texts, more) + |t| + more
  {
    if texts == [] {
      assert texts + [t] == [t] && [t][1..] == [];
    } else {
      assert (texts + [t])[1..] == texts[1..] + [t];
      LengthsSnoc(texts[1..], more, t);
    }
  }

  lemma {:induction false} JoinFits(texts: seq<string>, fmt: bool)
    ensures |Join(texts, fmt)| <= Lengths(texts, 2 + if fmt then 1 else 0)
  {
    if texts != [] {
      JoinFits(texts[1..], fmt);
    }
  }

  lemma {:induction false} JoinPrints(r: Rendering, vs: seq<Value>, texts: seq<string>, depth: nat, fmt: bool)
    requires (forall v <- vs :: Storable(v)) && |texts| == |vs|
    requires forall k :: 0 <= k < |vs| ==> texts[k] == Print(r, vs[k], depth, fmt)
    ensures Join(texts, fmt) == PrintItems(r, vs, depth, fmt)
  {
    hide Print;
    if vs != [] {
      assert vs[0] in vs && forall v <- vs[1..] :: v in vs;
      JoinPrints(r, vs[1..], texts[1..], depth, fmt);
    }
  }

  function Name(name: string, depth: nat, fmt: bool): string
  {
    (if fmt then Tabs(depth) else "") + name + if fmt then ":\t" else ":"
  }

  function Pair(name: string, text: string, depth: nat, fmt: bool): string
  {
    Name(name, depth, fmt) + text
  }

  function Pairs(names: seq<string>, texts: seq<string>, depth: nat, fmt: bool): string
    requires |names| == |texts|
  {
    if texts == [] then "" else
      Pair(names[0], texts[0], depth, fmt) + (if |texts| == 1 then "" else ",") + (if fmt then "\n" else "") +
      Pairs(names[1..], texts[1..], depth, fmt)
  }

  lemma {:induction false} PairsFit(names: seq<string>, texts: seq<string>, depth: nat, fmt: bool)
    requires |names| == |texts|
    ensures |Pairs(names, texts, depth, fmt)| <= Lengths(names, 0) + Lengths(texts, 2 + if fmt then 2 + depth else 0)
  {
    if texts != [] {
      PairsFit(names[1..], texts[1..], depth, fmt);
    }
  }

  lemma {:induction false} PairsPrint(r: Rendering, ms: seq<Member>, names: seq<string>, texts: seq<string>,
      depth: nat, fmt: bool)
    requires (forall m <- ms :: NulFree(m.name) && Storable(m.value)) && |names| == |texts| == |ms|
    requires forall k :: 0 <= k < |ms| ==>
               names[k] == PrintString(ms[k].name) && texts[k] == Print(r, ms[k].value, depth, fmt)
    ensures Pairs(names, texts, depth, fmt) == PrintMembers(r, ms, depth, fmt)
  {
    hide Print, PrintString;
    if ms != [] {
      assert ms[0] in ms && forall m <- ms[1..] :: m in ms;
      PairsPrint(r, ms[1..], names[1..], texts[1..], depth, fmt);
    }
  }

  method CopyTexts(out: array<char>, p0: nat, entries: seq<array<char>>, ghost texts: seq<string>, fmt: bool)
    returns (p: nat)
    requires Texts(entries, texts) && out !in entries && p0 + |Join(texts, fmt)| < out.Length
    modifies out
    ensures p == p0 + |Join(texts, fmt)| && out[..p] == old(out[..p0]) + Join(texts, fmt)
  {
    p := p0;
    for i := 0 to |entries|
      invariant p <= out.Length && Texts(entries, texts)
      invariant out[..p] + Join(texts[i..], fmt) == old(out[..p0]) + Join(texts, fmt)
    {
      p := CopyOne(out, p, entries[i], texts, i, fmt, |entries|);
    }
  }

  method CopyOne(out: array<char>, p0: nat, entry: array<char>, ghost texts: seq<string>, i: nat, fmt: bool, n: nat)
    returns (p: nat)
    requires n == |texts| && i < n && Text(entry, texts[i]) && out != entry
    requires p0 + |Join(texts[i..], fmt)| < out.Length
    modifies out
    ensures p <= out.Length && out[..p] + Join(texts[i + 1..], fmt) == old(out[..p0]) + Join(texts[i..], fmt)
  {
    assert texts[i..][1..] == texts[i + 1..];
    StrCpy(out, p0, entry, texts[i]);
    var m := StrLen(entry, texts[i]);
    p := p0 + m;
    if i != n - 1 {
      p := Put(out, p, ",");
      if fmt {
        p := Put(out, p, " ");
      }
    }
  }

  method PutTabs(out: array<char>, p: nat, n: nat) returns (q: nat)
    requires p + n <= out.Length
    modifies out
    ensures q == p + n && out[..q] == old(out[..p]) + Tabs(n)
  {
    q := p;
    for j := 0 to n
      invariant q == p + j && out[..q] == old(out[..p]) + Tabs(j)
    {
      q := Put(out, q, "\t");
    }
  }

  method CopyPairs(out: array<char>, p0: nat, names: seq<array<char>>, entries: seq<array<char>>,
      ghost ns: seq<string>, ghost ts: seq<string>, depth: nat, fmt: bool) returns (p: nat)
    requires Texts(names, ns) && Texts(entries, ts) && |ns| == |ts| && out !in names && out !in entries
    requires p0 + |Pairs(ns, ts, depth, fmt)| < out.Length
    modifies out
    ensures p == p0 + |Pairs(ns, ts, depth, fmt)| && out[..p] == old(out[..p0]) + Pairs(ns, ts, depth, fmt)
  {
    p := p0;
    for i := 0 to |entries|
      invariant p <= out.Length && Texts(names, ns) && Texts(entries, ts)
      invariant out[..p] + Pairs(ns[i..], ts[i..], depth, fmt) == old(out[..p0]) + Pairs(ns, ts, depth, fmt)
    {
      p := CopyPair(out, p, names[i], entries[i], ns, ts, i, depth, fmt, |entries|);
    }
  }

  method CopyPair(out: array<char>, p0: nat, name: array<char>, entry: array<char>,
      ghost ns: seq<string>, ghost ts: seq<string>, i: nat, depth: nat, fmt: bool, n: nat) returns (p: nat)
    requires |ns| == |ts| == n && i < n && Text(name, ns[i]) && Text(entry, ts[i]) && out != name && out != entry
    requires p0 + |Pairs(ns[i..], ts[i..], depth, fmt)| < out.Length
    modifies out
    ensures p <= out.Length
    ensures out[..p] + Pairs(ns[i + 1..], ts[i + 1..], depth, fmt) ==
            old(out[..p0]) + Pairs(ns[i..], ts[i..], depth, fmt)
  {
    hide Pair;
    assert ns[i..][1..] == ns[i + 1..] && ts[i..][1..] == ts[i + 1..];
    p := CopyBare(out, p0, name, entry, ns[i], ts[i], depth, fmt);
    if i != n - 1 {
      p := Put(out, p, ",");
    }
    if fmt {
      p := Put(out, p, "\n");
    }
  }

  method CopyName(out: array<char>, p0: nat, name: array<char>, ghost n: string, depth: nat, fmt: bool) returns (p: nat)
    requires Text(name, n) && out != name && p0 + |Name(n, depth, fmt)| < out.Length
    modifies out
    ensures p == p0 + |Name(n, depth, fmt)| && out[..p] == old(out[..p0]) + Name(n, depth, fmt)
  {
    p := p0;
    if fmt {
      p := PutTabs(out, p, depth);
    }
    StrCpy(out, p, name, n);
    var k := StrLen(name, n);
    p := Put(out, p + k, ":");
    if fmt {
      p := Put(out, p, "\t");
    }
  }

  method CopyBare(out: array<char>, p0: nat, name: array<char>, entry: array<char>, ghost n: string, ghost t: string,
      depth: nat, fmt: bool)
    returns (p: nat)
    requires Text(name, n) && Text(entry, t) && out != name && out != entry &&
             p0 + |Pair(n, t, depth, fmt)| < out.Length
    modifies out
    ensures p == p0 + |Pair(n, t, depth, fmt)| && out[..p] == old(out[..p0]) + Pair(n, t, depth, fmt)
  {
    hide Name;
    p := CopyName(out, p0, name, n, depth, fmt);
    StrCpy(out, p, entry, t);
    var k := StrLen(entry, t);
    p := p + k;
  }

  // ---------- Values ----------

  /** `print_value` */
  method PrintValue(r: Rendering, it: Item, ghost v: Value, depth: nat, fmt: bool) returns (out: array<char>)
    requires Shows(it, v) && Storable(v) && Fits(r, v)
    ensures fresh(out) && Text(out, Print(r, v, depth, fmt))
    decreases v, 1
  {
    TextNulFree(r, v, depth, fmt);
    match it.kind {
      case IsNull => out := StrDup("null");
      case IsFalse => out := StrDup("false");
      case IsTrue => out := StrDup("true");
      case IsInt =>
        IntLength(it.sign, it.valueInt);
        out := new char[22];
        var p := Put(out, 0, PrintInt(it.sign, it.valueInt));
        out[p] := NUL;
      case IsDouble =>
        out := new char[64];
        DoubleRoom(r(it.valueDouble));
        var p := Put(out, 0, PrintDouble(r(it.valueDouble)));
        out[p] := NUL;
      case IsString => out := PrintStringPtr(it.valueString);
      case IsArray => out := PrintArray(r, it, v.items, depth, fmt);
      case IsObject => out := PrintObject(r, it, v.members, depth, fmt);
    }
  }

  lemma ArrayText(r: Rendering, vs: seq<Value>, texts: seq<string>, depth: nat, fmt: bool)
    requires Storable(Array(vs)) && Fits(r, Array(vs)) && |texts| == |vs|
    requires forall k :: 0 <= k < |vs| ==> Storable(vs[k]) && texts[k] == Print(r, vs[k], depth + 1, fmt)
    ensures Print(r, Array(vs), depth, fmt) == "[" + Join(texts, fmt) + "]" && NulFree(Print(r, Array(vs), depth, fmt))
    ensures |Join(texts, fmt)| <= Lengths(texts, 2 + if fmt then 1 else 0)
  {
    JoinFits(texts, fmt);
    JoinPrints(r, vs, texts, depth + 1, fmt);
    TextNulFree(r, Array(vs), depth, fmt);
    hide PrintItems, Join, Lengths;
  }

  lemma ObjectText(r: Rendering, ms: seq<Member>, ns: seq<string>, ts: seq<string>, depth: nat, fmt: bool)
    requires Storable(Object(ms)) && Fits(r, Object(ms)) && |ns| == |ts| == |ms|
    requires forall k :: 0 <= k < |ms| ==>
               NulFree(ms[k].name) && Storable(ms[k].value) &&
               ns[k] == PrintString(ms[k].name) && ts[k] == Print(r, ms[k].value, depth + 1, fmt)
    ensures Print(r, Object(ms), depth, fmt) ==
            "{" + (if fmt then "\n" else "") + Pairs(ns, ts, depth + 1, fmt) + (if fmt then Tabs(depth) else "") + "}"
    ensures NulFree(Print(r, Object(ms), depth, fmt))
    ensures |Pairs(ns, ts, depth + 1, fmt)| <= Lengths(ns, 0) + Lengths(ts, 2 + if fmt then 2 + (depth + 1) else 0)
  {
    PairsFit(ns, ts, depth + 1, fmt);
    PairsPrint(r, ms, ns, ts, depth + 1, fmt);
    TextNulFree(r, Object(ms), depth, fmt);
    hide PrintMembers, Pairs, Lengths;
  }

  method PrintArray(r: Rendering, it: Item, ghost vs: seq<Value>, depth: nat, fmt: bool) returns (out: array<char>)
    requires Shows(it, Array(vs)) && Storable(Array(vs)) && Fits(r, Array(vs))
    ensures fresh(out) && Text(out, Print(r, Array(vs), depth, fmt))
    decreases vs, 1
  {
    hide Shows, Storable, Fits, Print, PrintItems, Join, Lengths;
    var entries, texts, len := PrintEntries(r, it, vs, depth + 1, fmt);
    ArrayText(r, vs, texts, depth, fmt);
    out := new char[len];
    var p := Put(out, 0, "[");
    p := CopyTexts(out, p, entries, texts, fmt);
    Close(out, p, ']', Print(r, Array(vs), depth, fmt));
  }

  /** All entries, and the length that is computed from them. */
  method PrintEntries(r: Rendering, it: Item, ghost vs: seq<Value>, depth: nat, fmt: bool)
    returns (entries: seq<array<char>>, ghost texts: seq<string>, len: nat)
    requires Shows(it, Array(vs)) && Storable(Array(vs)) && Fits(r, Array(vs))
    ensures Texts(entries, texts) && |texts| == |vs|
    ensures forall k :: 0 <= k < |vs| ==> Storable(vs[k]) && texts[k] == Print(r, vs[k], depth, fmt)
    ensures forall e <- entries :: fresh(e)
    ensures len == 5 + Lengths(texts, 2 + if fmt then 1 else 0)
    decreases vs, 0
  {
    hide Shows, Storable, Fits, Print, Lengths;
    ShowsItem(it, vs, 0);
    entries, texts, len := [], [], 5;
    NoLengths(2 + if fmt then 1 else 0);
    var child := it.child;
    while child != null
      invariant |entries| == |texts| <= |vs| && child == At(it.items, |entries|) && Texts(entries, texts)
      invariant |it.items| == |vs|
      invariant forall k :: 0 <= k < |texts| ==>
                  Storable(vs[k]) && texts[k] == Print(r, vs[k], depth, fmt)
      invariant forall e <- entries :: fresh(e)
      invariant len == 5 + Lengths(texts, 2 + if fmt then 1 else 0)
      decreases |vs| - |entries|
    {
      ghost var i := |entries|;
      ShowsItem(it, vs, i);
      FitsItem(r, vs, i);
      ghost var text := Print(r, vs[i], depth, fmt);
      var ret := PrintValue(r, child, vs[i], depth, fmt);
      var n := StrLen(ret, text);
      LengthsSnoc(texts, 2 + if fmt then 1 else 0, text);
      entries, texts := entries + [ret], texts + [text];
      len := len + n + 2 + if fmt then 1 else 0;
      child := child.next;
    }
  }

  lemma NoLengths(more: nat)
    ensures Lengths([], more) == 0
  {
  }

  method PrintObject(r: Rendering, it: Item, ghost ms: seq<Member>, depth: nat, fmt: bool) returns (out: array<char>)
    requires Shows(it, Object(ms)) && Storable(Object(ms)) && Fits(r, Object(ms))
    ensures fresh(out) && Text(out, Print(r, Object(ms), depth, fmt))
    decreases ms, 1
  {
    hide Shows, Storable, Fits, Print, PrintMembers, Pairs, Lengths;
    var names, entries, ns, ts, len := PrintEach(r, it, ms, depth + 1, fmt);
    ObjectText(r, ms, ns, ts, depth, fmt);
    out := new char[len];
    ComposeObject(out, names, entries, ns, ts, depth, fmt, Print(r, Object(ms), depth, fmt));
  }

  method ComposeObject(out: array<char>, names: seq<array<char>>, entries: seq<array<char>>,
      ghost ns: seq<string>, ghost ts: seq<string>, depth: nat, fmt: bool, ghost text: string)
    requires Texts(names, ns) && Texts(entries, ts) && |ns| == |ts| && out !in names && out !in entries
    requires text == "{" + (if fmt then "\n" else "") + Pairs(ns, ts, depth + 1, fmt) +
             (if fmt then Tabs(depth) else "") + "}"
    requires NulFree(text) && |text| < out.Length
    modifies out
    ensures Text(out, text)
  {
    hide Pairs, Tabs;
    var p := Put(out, 0, "{");
    if fmt {
      p := Put(out, p, "\n");
    }
    p := CopyPairs(out, p, names, entries, ns, ts, depth + 1, fmt);
    if fmt {
      TabsLength(depth);
      p := PutTabs(out, p, depth);
    }
    Close(out, p, '}', text);
  }

  lemma TabsLength(n: nat)
    ensures |Tabs(n)| == n
  {
  }

  method PrintEach(r: Rendering, it: Item, ghost ms: seq<Member>, depth: nat, fmt: bool)
    returns (names: seq<array<char>>, entries: seq<array<char>>, ghost ns: seq<string>, ghost ts: seq<string>, len: nat)
    requires Shows(it, Object(ms)) && Storable(Object(ms)) && Fits(r, Object(ms))
    ensures Texts(names, ns) && Texts(entries, ts) && |ns| == |ts| == |ms|
    ensures forall k :: 0 <= k < |ms| ==>
              NulFree(ms[k].name) && Storable(ms[k].value) &&
              ns[k] == PrintString(ms[k].name) && ts[k] == Print(r, ms[k].value, depth, fmt)
    ensures (forall e <- entries :: fresh(e)) && (forall e <- names :: fresh(e))
    ensures len == 7 + (if fmt then depth else 0) + Lengths(ns, 0) + Lengths(ts, 2 + if fmt then 2 + depth else 0)
    decreases ms, 0
  {
    hide Shows, Storable, Fits, Print, PrintString, Lengths;
    ShowsMember(it, ms, 0);
    names, entries, ns, ts, len := [], [], [], [], 7;
    NoLengths(0);
    NoLengths(2 + if fmt then 2 + depth else 0);
    if fmt {
      len := len + depth;
    }
    var child := it.child;
    while child != null
      invariant |names| == |entries| == |ns| == |ts| <= |ms| && child == At(it.items, |entries|)
      invariant Texts(names, ns) && Texts(entries, ts)
      invariant |it.items| == |ms|
      invariant forall k :: 0 <= k < |ts| ==>
                  NulFree(ms[k].name) && Storable(ms[k].value) &&
                  ns[k] == PrintString(ms[k].name) && ts[k] == Print(r, ms[k].value, depth, fmt)
      invariant (forall e <- entries :: fresh(e)) && (forall e <- names :: fresh(e))
      invariant len == 7 + (if fmt then depth else 0) + Lengths(ns, 0) + Lengths(ts, 2 + if fmt then 2 + depth else 0)
      decreases |ms| - |entries|
    {
      ghost var i := |entries|;
      ShowsMember(it, ms, i);
      FitsMember(r, ms, i);
      ghost var name, text := PrintString(ms[i].name), Print(r, ms[i].value, depth, fmt);
      var str, ret, n := PrintMemberOf(r, child, ms[i], depth, fmt);
      LengthsSnoc(ns, 0, name);
      LengthsSnoc(ts, 2 + if fmt then 2 + depth else 0, text);
      names, entries, ns, ts := names + [str], entries + [ret], ns + [name], ts + [text];
      len := len + n + 2 + if fmt then 2 + depth else 0;
      child := child.next;
    }
  }

  method PrintMemberOf(r: Rendering, child: Item, ghost m: Member, depth: nat, fmt: bool)
    returns (str: array<char>, ret: array<char>, len: nat)
    requires Shows(child, m.value) && child.name == m.name && NulFree(m.name) && Storable(m.value) && Fits(r, m.value)
    ensures fresh(str) && fresh(ret)
    ensures Text(str, PrintString(m.name)) && Text(ret, Print(r, m.value, depth, fmt))
    ensures len == |PrintString(m.name)| + |Print(r, m.value, depth, fmt)|
    decreases m, 2
  {
    hide Print, PrintString, Shows, Storable, Fits;
    str := PrintStringPtr(child.name);
    ret := PrintValue(r, child, m.value, depth, fmt);
    var k := StrLen(str, PrintString(m.name));
    var n := StrLen(ret, Print(r, m.value, depth, fmt));
    len := n + k;
  }
}
