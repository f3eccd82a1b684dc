/**
 * The Redis serialization protocol as a recursive grammar.
 *
 * `Parse` is the plain recursive reading of one reply; it is the reference that the
 * interruptible stack reader of `read.c` is measured against (see `RespMachine`).
 * Characters stand for bytes.
 */
module Resp {
  import opened Wrappers
  import opened Decimal

  datatype Tag =
    | TError | TStatus | TInteger | TDouble | TNil | TString | TArray
    | TMap | TAttr | TSet | TBool | TVerb | TPush | TBignum

  predicate IsAggregate(t: Tag) { t in {TArray, TMap, TAttr, TSet, TPush} }

  predicate IsBulk(t: Tag) { t in {TString, TVerb} }

  // Maps and attributes announce pairs, the other aggregates announce elements.
  function Arity(t: Tag): nat { if t == TMap || t == TAttr then 2 else 1 }

  function TagOf(c: char): Option<Tag>
  {
    match c
    case '-' => Some(TError)
    case '+' => Some(TStatus)
    case ':' => Some(TInteger)
    case ',' => Some(TDouble)
    case '_' => Some(TNil)
    case '$' => Some(TString)
    case '*' => Some(TArray)
    case '%' => Some(TMap)
    case '|' => Some(TAttr)
    case '~' => Some(TSet)
    case '#' => Some(TBool)
    case '=' => Some(TVerb)
    case '>' => Some(TPush)
    case '(' => Some(TBignum)
    case _ => None
  }

  function ByteOf(t: Tag): (c: char)
    ensures TagOf(c) == Some(t)
  {
    match t
    case TError => '-'
    case TStatus => '+'
    case TInteger => ':'
    case TDouble => ','
    case TNil => '_'
    case TString => '$'
    case TArray => '*'
    case TMap => '%'
    case TAttr => '|'
    case TSet => '~'
    case TBool => '#'
    case TVerb => '='
    case TPush => '>'
    case TBignum => '('
  }

  datatype Reply =
    | Nil
    | Bool(b: bool)
    | Integer(i: int)
    | Double(dtext: string)
    | Str(stag: Tag, text: string)  // error, status, bulk string, big number
    | Verbatim(vtype: string, vtext: string)
    | Aggregate(atag: Tag, elems: seq<Reply>)

  /** What the reader takes from outside: the configurable element limit, and which texts
      the C library reads completely as a finite double. */
  datatype Env = Env(maxElements: int, strtodFinite: string -> bool)

  const CRLF: string := "\r\n"

  // ----- Lines

  predicate CRLFAt(s: string, i: nat) { i + 1 < |s| && s[i] == '\r' && s[i + 1] == '\n' }

  /** Position of the first line end. */
  function FindCRLF(s: string): (r: Option<nat>)
    ensures r.Some? ==> CRLFAt(s, r.value) && forall j: nat :: j < r.value ==> !CRLFAt(s, j)
    ensures r.None? ==> forall j: nat :: !CRLFAt(s, j)
  {
    if |s| < 2 then None
    else if CRLFAt(s, 0) then Some(0)
    else
      var r := FindCRLF(s[1..]);
      assert forall j: nat :: j > 0 && CRLFAt(s, j) ==> CRLFAt(s[1..], j - 1);
      if r.None? then None else Some(r.value + 1)
  }

  lemma FindCRLFIs(s: string, i: nat)
    requires CRLFAt(s, i) && forall j: nat :: j < i ==> !CRLFAt(s, j)
    ensures FindCRLF(s) == Some(i)
  {
  }

  lemma FindCRLFStable(s: string, t: string)
    requires FindCRLF(s).Some?
    ensures FindCRLF(s + t) == FindCRLF(s)
  {
    var i := FindCRLF(s).value;
    assert forall j: nat :: j < i && CRLFAt(s + t, j) ==> CRLFAt(s, j);
    FindCRLFIs(s + t, i);
  }

  lemma LineEnd(line: string, t: string)
    requires '\r' !in line
    ensures FindCRLF(line + CRLF + t) == Some(|line|)
  {
    var s := line + CRLF + t;
    assert forall j: nat :: j < |line| ==> s[j] == line[j] && !CRLFAt(s, j);
    FindCRLFIs(s, |line|);
  }

  // ----- One item

  /** The result of reading one item after its type byte. */
  datatype Scan = More | Bad | Leaf(v: Reply, used: nat) | Open(tag: Tag, n: nat, used: nat)

  function Lower(c: char): char { if 'A' <= c <= 'Z' then c - 'A' + 'a' else c }

  function LowerAll(s: string): string { seq(|s|, i requires 0 <= i < |s| => Lower(s[i])) }

  // Longest double text that fits the reader's conversion buffer.
  const DOUBLE_BUF: nat := 326

  predicate DoubleText(env: Env, line: string)
  {
    |line| < DOUBLE_BUF &&
    (LowerAll(line) in {"inf", "-inf", "nan", "-nan"} || (line != "" && env.strtodFinite(line)))
  }

  predicate BignumText(line: string)
  {
    forall i :: 0 <= i < |line| ==> IsDigit(line[i]) || (i == 0 && line[i] == '-')
  }

  predicate SimpleText(line: string)
  {
    forall i :: 0 <= i < |line| ==> line[i] != '\r' && line[i] != '\n'
  }

  /** One-line items; `None` is a protocol error. The C membership test for booleans also
      finds the terminator of its search string, so a NUL byte reads as false. */
  function ScanLine(env: Env, t: Tag, line: string): Option<Reply>
  {
    match t
    case TInteger => if ParseLL(line).Some? then Some(Integer(ParseLL(line).value)) else None
    case TDouble => if DoubleText(env, line) then Some(Double(line)) else None
    case TNil => if line == "" then Some(Nil) else None
    case TBool =>
      if |line| == 1 && line[0] in "tTfF\0" then Some(Bool(line[0] in "tT")) else None
    case TBignum => if BignumText(line) then Some(Str(TBignum, line)) else None
    case _ => if SimpleText(line) then Some(Str(t, line)) else None
  }

  /** Bulk items: a length line, then that many bytes and two closing bytes (which are skipped unread). */
  function ScanBulk(t: Tag, s: string, i: nat): (r: Scan)
    requires CRLFAt(s, i)
    ensures r.Leaf? ==> 2 <= r.used <= |s|
    ensures !r.Open?
  {
    var len := ParseLL(s[..i]);
    if len.None? || len.value < -1 then Bad
    else if len.value == -1 then Leaf(Nil, i + 2)
    else
      var total := i + 2 + len.value + 2;
      if |s| < total then More
      else if t == TVerb then
        if len.value < 4 || s[i + 5] != ':' then Bad
        else Leaf(Verbatim(s[i + 2..i + 5], s[i + 6..i + 2 + len.value]), total)
      else Leaf(Str(t, s[i + 2..i + 2 + len.value]), total)
  }

  function ScanAggregate(env: Env, t: Tag, s: string, i: nat): (r: Scan)
    requires CRLFAt(s, i)
    ensures r.Leaf? || r.Open? ==> r.used == i + 2 <= |s|
    ensures r.Open? ==> r.tag == t && r.n > 0
    ensures !r.More?
  {
    var count := ParseLL(s[..i]);
    if count.None? then Bad
    else if count.value < -1 || (env.maxElements > 0 && count.value > env.maxElements) then Bad
    else if count.value == -1 then Leaf(Nil, i + 2)
    else if count.value == 0 then Leaf(Aggregate(t, []), i + 2)
    else Open(t, count.value * Arity(t), i + 2)
  }

  /** Reads what follows the type byte `t`. Nothing is decided before the line is complete. */
  function ScanItem(env: Env, t: Tag, s: string): (r: Scan)
    ensures r.Leaf? || r.Open? ==> 2 <= r.used <= |s|
    ensures r.Open? ==> r.n > 0 && r.tag == t && IsAggregate(t)
  {
    match FindCRLF(s)
    case None => More
    case Some(i) =>
      if IsBulk(t) then ScanBulk(t, s, i)
      else if IsAggregate(t) then ScanAggregate(env, t, s, i)
      else
        match ScanLine(env, t, s[..i])
        case None => Bad
        case Some(v) => Leaf(v, i + 2)
  }

  lemma ScanBulkStable(t: Tag, s: string, i: nat, more: string)
    requires CRLFAt(s, i) && !ScanBulk(t, s, i).More?
    ensures ScanBulk(t, s + more, i) == ScanBulk(t, s, i)
  {
    assert (s + more)[..i] == s[..i];
    var len := ParseLL(s[..i]);
    if len.Some? && len.value >= 0 {
      var end := i + 2 + len.value;
      assert (s + more)[i + 2..end] == s[i + 2..end];
      if t == TVerb && len.value >= 4 {
        assert (s + more)[i + 2..i + 5] == s[i + 2..i + 5];
        assert (s + more)[i + 6..end] == s[i + 6..end];
      }
    }
  }

  /** A decided item is not changed by the bytes that arrive afterwards. */
  lemma ScanStable(env: Env, t: Tag, s: string, more: string)
    requires !ScanItem(env, t, s).More?
    ensures ScanItem(env, t, s + more) == ScanItem(env, t, s)
  {
    FindCRLFStable(s, more);
    var i := FindCRLF(s).value;
    assert (s + more)[..i] == s[..i];
    if IsBulk(t) {
      ScanBulkStable(t, s, i, more);
    }
  }

  // ----- The recursive grammar

  datatype Outcome<+T> = Incomplete | Invalid | Done(value: T, rest: string)

  function Wrap(tag: Tag, r: Outcome<seq<Reply>>): Outcome<Reply>
  {
    match r
    case Done(vs, rest) => Done(Aggregate(tag, vs), rest)
    case Incomplete => Incomplete
    case Invalid => Invalid
  }

  function Parse(env: Env, s: string): (r: Outcome<Reply>)
    ensures r.Done? ==> |r.rest| < |s|
    decreases |s|, 1, 0
  {
    if s == [] then Incomplete
    else
      match TagOf(s[0])
      case None => Invalid
      case Some(t) => ParseBody(env, t, s[1..])
  }

  function ParseBody(env: Env, t: Tag, s: string): (r: Outcome<Reply>)
    ensures r.Done? ==> |r.rest| < |s|
    decreases |s|, 2, 0
  {
    match ScanItem(env, t, s)
    case More => Incomplete
    case Bad => Invalid
    case Leaf(v, used) => Done(v, s[used..])
    case Open(tag, n, used) => Wrap(tag, ParseMany(env, n, s[used..]))
  }

  function ParseMany(env: Env, n: nat, s: string): (r: Outcome<seq<Reply>>)
    ensures r.Done? ==> |r.rest| <= |s| && |r.value| == n
    decreases |s|, 2, n
  {
    if n == 0 then Done([], s)
    else
      match Parse(env, s)
      case Incomplete => Incomplete
      case Invalid => Invalid
      case Done(v, rest) =>
        match ParseMany(env, n - 1, rest)
        case Incomplete => Incomplete
        case Invalid => Invalid
        case Done(vs, rest') => Done([v] + vs, rest')
  }

  function Extend<T>(r: Outcome<T>, more: string): Outcome<T>
  {
    if r.Done? then Done(r.value, r.rest + more) else r
  }

  /** A decided result is not changed by the bytes that arrive afterwards. */
  lemma {:induction false} ParseStable(env: Env, s: string, more: string)
    requires !Parse(env, s).Incomplete?
    ensures Parse(env, s + more) == Extend(Parse(env, s), more)
    decreases |s|, 1, 0
  {
    assert (s + more)[0] == s[0] && (s + more)[1..] == s[1..] + more;
    if TagOf(s[0]).Some? {
      ParseBodyStable(env, TagOf(s[0]).value, s[1..], more);
    }
  }

  lemma {:induction false} ParseBodyStable(env: Env, t: Tag, s: string, more: string)
    requires !ParseBody(env, t, s).Incomplete?
    ensures ParseBody(env, t, s + more) == Extend(ParseBody(env, t, s), more)
    decreases |s|, 2, 0
  {
    ScanStable(env, t, s, more);
    var r := ScanItem(env, t, s);
    if r.Leaf? || r.Open? {
      assert (s + more)[r.used..] == s[r.used..] + more;
    }
    if r.Open? {
      ParseManyStable(env, r.n, s[r.used..], more);
    }
  }

  lemma {:induction false} ParseManyStable(env: Env, n: nat, s: string, more: string)
    requires !ParseMany(env, n, s).Incomplete?
    ensures ParseMany(env, n, s + more) == Extend(ParseMany(env, n, s), more)
    decreases |s|, 2, n
  {
    if n > 0 {
      ParseStable(env, s, more);
      var r := Parse(env, s);
      if r.Done? {
        ParseManyStable(env, n - 1, r.rest, more);
      }
    }
  }

  // ----- Printing replies

  /** The replies that a server can send as they stand. */
  predicate WellFormed(env: Env, v: Reply)
  {
    match v
    case Nil => true
    case Bool(_) => true
    case Integer(i) => IsLL(i)
    case Double(t) => '\r' !in t && DoubleText(env, t)
    case Str(tag, t) =>
      (tag == TBignum && BignumText(t)) ||
      (tag == TString && |t| <= LLONG_MAX) ||
      (tag in {TError, TStatus} && SimpleText(t))
    case Verbatim(vt, t) => |vt| == 3 && |t| + 4 <= LLONG_MAX
    case Aggregate(tag, vs) =>
      IsAggregate(tag) && |vs| % Arity(tag) == 0 && |vs| / Arity(tag) <= LLONG_MAX &&
      (env.maxElements > 0 ==> |vs| / Arity(tag) <= env.maxElements) &&
      forall i :: 0 <= i < |vs| ==> WellFormed(env, vs[i])
  }

  function Line(t: Tag, text: string): string { [ByteOf(t)] + text + CRLF }

  function Encode(v: Reply): (s: string)
    ensures s != []
  {
    match v
    case Nil => Line(TNil, "")
    case Bool(b) => Line(TBool, if b then "t" else "f")
    case Integer(i) => Line(TInteger, Text(i))
    case Double(t) => Line(TDouble, t)
    case Str(tag, t) => if tag == TString then Line(TString, Text(|t|)) + t + CRLF else Line(tag, t)
    case Verbatim(vt, t) => Line(TVerb, Text(|vt + ":" + t|)) + vt + ":" + t + CRLF
    case Aggregate(tag, vs) => Line(tag, Text(|vs| / Arity(tag))) + EncodeAll(vs)
  }

  function EncodeAll(vs: seq<Reply>): string
  {
    if vs == [] then "" else Encode(vs[0]) + EncodeAll(vs[1..])
  }

  lemma ParsesLine(env: Env, t: Tag, text: string, rest: string)
    requires '\r' !in text
    ensures Parse(env, Line(t, text) + rest) == ParseBody(env, t, text + CRLF + rest)
    ensures FindCRLF(text + CRLF + rest) == Some(|text|)
    ensures (text + CRLF + rest)[..|text|] == text
    ensures (text + CRLF + rest)[|text| + 2..] == rest
  {
    assert (Line(t, text) + rest)[1..] == text + CRLF + rest;
    LineEnd(text, rest);
  }

  lemma TextHasNoCR(n: int)
    ensures '\r' !in Text(n)
  {
    if '\r' in Text(n) {
      TextHasNoSpecial(n, '\r');
    }
  }

  lemma ScansBulk(t: Tag, n: string, body: string, rest: string)
    requires IsBulk(t) && n == Text(|body|) && |body| <= LLONG_MAX
    requires t == TVerb ==> |body| >= 4 && body[3] == ':'
    ensures ScanBulk(t, n + CRLF + (body + CRLF + rest), |n|) ==
            Leaf(if t == TVerb then Verbatim(body[..3], body[4..]) else Str(t, body), |n| + |body| + 4)
  {
    var s := n + CRLF + (body + CRLF + rest);
    TextParses(|body|);
    assert s[..|n|] == n;
    assert s[|n| + 2..|n| + 2 + |body|] == body;
    if t == TVerb {
      assert s[|n| + 2..|n| + 5] == body[..3];
      assert s[|n| + 5] == body[3];
      assert s[|n| + 6..|n| + 2 + |body|] == body[4..];
    }
  }

  lemma ParsesBulk(env: Env, t: Tag, body: string, rest: string)
    requires IsBulk(t) && |body| <= LLONG_MAX
    requires t == TVerb ==> |body| >= 4 && body[3] == ':'
    ensures Parse(env, Line(t, Text(|body|)) + (body + CRLF + rest)) ==
            Done(if t == TVerb then Verbatim(body[..3], body[4..]) else Str(t, body), rest)
  {
    hide Text, ScanBulk, FindCRLF;
    var n := Text(|body|);
    var after := body + CRLF + rest;
    TextHasNoCR(|body|);
    ParsesLine(env, t, n, after);
    ScansBulk(t, n, body, rest);
    assert (n + CRLF + after)[|n| + |body| + 4..] == rest;
  }

  lemma ParsesLeafLine(env: Env, t: Tag, text: string, v: Reply, rest: string)
    requires !IsBulk(t) && !IsAggregate(t) && '\r' !in text
    requires ScanLine(env, t, text) == Some(v)
    ensures Parse(env, Line(t, text) + rest) == Done(v, rest)
  {
    ParsesLine(env, t, text, rest);
  }

  lemma ParseEncodeLeaf(env: Env, v: Reply, rest: string)
    requires WellFormed(env, v) && !v.Aggregate?
    ensures Parse(env, Encode(v) + rest) == Done(v, rest)
  {
    hide Parse, Text, ScanBulk;
    match v
    case Nil => ParsesLeafLine(env, TNil, "", v, rest);
    case Bool(b) => ParsesLeafLine(env, TBool, if b then "t" else "f", v, rest);
    case Integer(i) =>
      TextHasNoCR(i);
      TextParses(i);
      ParsesLeafLine(env, TInteger, Text(i), v, rest);
    case Double(t) => ParsesLeafLine(env, TDouble, t, v, rest);
    case Str(tag, t) =>
      if tag == TString {
        assert Encode(v) + rest == Line(TString, Text(|t|)) + (t + CRLF + rest);
        ParsesBulk(env, TString, t, rest);
      } else {
        ParsesLeafLine(env, tag, t, v, rest);
      }
    case Verbatim(vt, t) =>
      var body := vt + ":" + t;
      assert body[..3] == vt && body[4..] == t;
      assert Encode(v) + rest == Line(TVerb, Text(|body|)) + (body + CRLF + rest);
      ParsesBulk(env, TVerb, body, rest);
  }

  lemma ScansCount(env: Env, tag: Tag, n: nat, rest: string)
    requires IsAggregate(tag) && n <= LLONG_MAX && (env.maxElements > 0 ==> n <= env.maxElements)
    requires var line := Text(n); FindCRLF(line + CRLF + rest) == Some(|line|) && (line + CRLF + rest)[..|line|] == line
    ensures var used := |Text(n)| + 2;
            ScanItem(env, tag, Text(n) + CRLF + rest) ==
            if n == 0 then Leaf(Aggregate(tag, []), used) else Open(tag, n * Arity(tag), used)
  {
    hide Text, FindCRLF;
    TextParses(n);
  }

  // The header line of an aggregate announces its elements.
  lemma ParsesHeader(env: Env, tag: Tag, vs: seq<Reply>, rest: string)
    requires WellFormed(env, Aggregate(tag, vs))
    ensures Parse(env, Line(tag, Text(|vs| / Arity(tag))) + rest) ==
            Wrap(tag, ParseMany(env, |vs|, rest))
  {
    hide Text, FindCRLF, ScanItem, Parse, Line;
    var n := |vs| / Arity(tag);
    TextHasNoCR(n);
    ParsesLine(env, tag, Text(n), rest);
    ScansCount(env, tag, n, rest);
  }

  /** Reading a printed reply gives that reply back and leaves exactly the bytes that follow it. */
  lemma {:induction false} ParseEncode(env: Env, v: Reply, rest: string)
    requires WellFormed(env, v)
    ensures Parse(env, Encode(v) + rest) == Done(v, rest)
    decreases v, 0
  {
    if v.Aggregate? {
      var header := Line(v.atag, Text(|v.elems| / Arity(v.atag)));
      assert Encode(v) + rest == header + (EncodeAll(v.elems) + rest);
      ParsesHeader(env, v.atag, v.elems, EncodeAll(v.elems) + rest);
      ParseEncodeAll(env, v, 0, rest);
      assert v.elems[0..] == v.elems;
    } else {
      ParseEncodeLeaf(env, v, rest);
    }
  }

  lemma {:induction false} ParseEncodeAll(env: Env, parent: Reply, k: nat, rest: string)
    requires parent.Aggregate? && k <= |parent.elems| && WellFormed(env, parent)
    ensures ParseMany(env, |parent.elems| - k, EncodeAll(parent.elems[k..]) + rest) ==
            Done(parent.elems[k..], rest)
    decreases parent, 0, |parent.elems| - k
  {
    var vs := parent.elems[k..];
    if vs == [] {
      assert EncodeAll(vs) + rest == rest;
    } else {
      assert vs[1..] == parent.elems[k + 1..];
      var tail := EncodeAll(vs[1..]) + rest;
      assert EncodeAll(vs) + rest == Encode(vs[0]) + tail;
      ParseEncode(env, vs[0], tail);
      ParseEncodeAll(env, parent, k + 1, rest);
      assert [vs[0]] + vs[1..] == vs;
    }
  }

  /** No proper prefix of a printed reply yields anything, not even an error. */
  lemma PrefixIsIncomplete(env: Env, v: Reply, k: nat)
    requires WellFormed(env, v) && k < |Encode(v)|
    ensures Parse(env, Encode(v)[..k]) == Incomplete
  {
    var p, q := Encode(v)[..k], Encode(v)[k..];
    assert p + q == Encode(v) == Encode(v) + [];
    ParseEncode(env, v, []);
    if !Parse(env, p).Incomplete? {
      ParseStable(env, p, q);
    }
  }

  /** Printed replies can be told apart, even as prefixes of longer text. */
  lemma EncodeInjective(env: Env, v: Reply, w: Reply, s: string, t: string)
    requires WellFormed(env, v) && WellFormed(env, w)
    requires Encode(v) + s == Encode(w) + t
    ensures v == w && s == t
  {
    ParseEncode(env, v, s);
    ParseEncode(env, w, t);
  }

  // ----- Streams of replies

  datatype Stream = Stream(replies: seq<Reply>, failed: bool)

  /** All replies of a byte stream, and whether it ends in a protocol error. */
  function Replies(env: Env, s: string): Stream
    decreases |s|
  {
    match Parse(env, s)
    case Incomplete => Stream([], false)
    case Invalid => Stream([], true)
    case Done(v, rest) => Prepend([v], Replies(env, rest))
  }

  function Prepend(vs: seq<Reply>, st: Stream): Stream { Stream(vs + st.replies, st.failed) }

  /** A printed list of replies reads back as that list. */
  lemma {:induction false} RepliesEncode(env: Env, vs: seq<Reply>)
    requires forall i :: 0 <= i < |vs| ==> WellFormed(env, vs[i])
    ensures Replies(env, EncodeAll(vs)) == Stream(vs, false)
  {
    if vs != [] {
      ParseEncode(env, vs[0], EncodeAll(vs[1..]));
      RepliesEncode(env, vs[1..]);
    }
  }
}
