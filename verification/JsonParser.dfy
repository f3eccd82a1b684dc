/** Parsing into linked items. The items end up showing the tree that `Json` says, and every write of
    a string is within its buffer. */
module JsonParser {
  import Decimal
  import opened Json
  import opened JsonItems
  import opened Buffers

  datatype Step = Ok(rest: string) | Fail | Wild

  ghost predicate Agrees<T>(st: Step, p: Parsed<T>)
  {
    (p.Done? <==> st.Ok?) && (p.Malformed? <==> st.Fail?) && (p.Done? ==> st.rest == p.rest)
  }

  method SkipBlanks(s: string) returns (t: string)
    ensures t == Skip(s)
  {
    t := s;
    while t != "" && NUL < t[0] <= ' '
      invariant Skip(t) == Skip(s)
      decreases |t|
    {
      t := t[1..];
    }
  }

  // ---------- Numbers ----------

  method ScanDigits(n0: nat, s: string) returns (n: nat, t: string)
    ensures (n, t) == Scan(n0, s)
  {
    n, t := n0, s;
    while t != "" && Decimal.IsDigit(t[0])
      invariant Scan(n, t) == Scan(n0, s)
      decreases |t|
    {
      n, t := n * 10 + Decimal.DigitValue(t[0]), t[1..];
    }
  }

  method ScanFraction(n: nat, s: string) returns (m: nat, scale: nat, t: string)
    ensures (m, t) == Fraction(n, s) && scale == Scale(s)
  {
    m, scale, t := n, 0, s;
    if Peek(t) == '.' && |t| > 1 && Decimal.IsDigit(t[1]) {
      SameLength(n, 0, t[1..]);
      ScanShortens(n, t[1..]);
      m, t := ScanDigits(n, t[1..]);
      scale := |s| - 1 - |t|;
    }
  }

  method ScanExponent(s: string) returns (e: int, t: string)
    ensures (e, t) == Exponent(s)
  {
    e, t := 0, s;
    if Peek(t) == 'e' || Peek(t) == 'E' {
      var negative := false;
      t := t[1..];
      if Peek(t) == '+' {
        t := t[1..];
      } else if Peek(t) == '-' {
        negative, t := true, t[1..];
      }
      e, t := ScanDigits(0, t);
      e := if negative then -e else e;
    }
  }

  /** `parse_number` */
  method ParseNumberInto(it: Item, s: string) returns (rest: string)
    modifies it`kind, it`valueInt, it`valueDouble, it`sign
    ensures rest == ParseNumber(s).1 && Shows(it, ParseNumber(s).0)
  {
    hide Scan, Fraction, Exponent, Scale;
    it.sign := 1;
    var t := s;
    if Peek(t) == '-' {
      it.sign, t := -1, t[1..];
    }
    if Peek(t) == '0' {
      t := t[1..];
    }
    var n: nat := 0;
    if '1' <= Peek(t) <= '9' {
      n, t := ScanDigits(0, t);
    }
    var m, scale, u := ScanFraction(n, t);
    var e, v := ScanExponent(u);
    rest := v;
    if scale == 0 && e == 0 {
      it.valueInt, it.kind := it.sign * m, IsInt;
    } else {
      it.valueDouble, it.kind := (it.sign * m) as real * Ten(e - scale), IsDouble;
    }
  }

  lemma {:induction false} SameLength(n: nat, m: nat, s: string)
    ensures Scan(n, s).1 == Scan(m, s).1
    decreases s
  {
    if s != "" && Decimal.IsDigit(s[0]) {
      SameLength(n * 10 + Decimal.DigitValue(s[0]), m * 10 + Decimal.DigitValue(s[0]), s[1..]);
    }
  }

  // ---------- Strings ----------

  /** A backslash is the last character: the counting loop runs past the end. */
  predicate Ragged(s: string)
    decreases |s|
  {
    if Peek(s) == NUL || s[0] == '"' then false
    else if s[0] == '\\' then Peek(s[1..]) == NUL || Ragged(s[2..])
    else Ragged(s[1..])
  }

  /** What the counting loop counts. */
  function Room(s: string): nat
    requires !Ragged(s)
    decreases |s|
  {
    if Peek(s) == NUL || s[0] == '"' then 0
    else if s[0] == '\\' then 1 + Room(s[2..])
    else 1 + Room(s[1..])
  }

  predicate Plain(c: char) { c != NUL && c != '"' && c != '\\' }

  /** Over characters that need no care the loop counts one by one. */
  lemma {:induction false} PlainRoom(s: string, k: nat)
    requires k <= |s| && forall i :: 0 <= i < k ==> Plain(s[i])
    ensures Ragged(s) <==> Ragged(s[k..])
    ensures !Ragged(s) ==> Room(s) == k + Room(s[k..])
    decreases k
  {
    if k > 0 {
      assert s[1..][k - 1..] == s[k..];
      PlainRoom(s[1..], k - 1);
    } else {
      assert s[0..] == s;
    }
  }

  lemma HexPlain(s: string)
    requires |s| == 4 && Hex4(s) >= 0
    ensures forall i :: 0 <= i < 4 ==> Plain(s[i])
  {
  }

  /** A `\u` escape needs no more room than was counted for it. */
  lemma UnicodeRoom(s: string)
    requires |s| >= 2 && s[0] == '\\' && s[1] == 'u' && Unicode(s[1..]).Done?
    ensures var u := Unicode(s[1..]);
            (Ragged(s) <==> Ragged(u.rest)) && (!Ragged(s) ==> |u.value| + Room(u.rest) <= Room(s))
  {
    var u := Unicode(s[1..]);
    assert s[1..][1..5] == s[2..6] && s[2..][..4] == s[2..6];
    HexPlain(s[2..6]);
    assert forall i :: 0 <= i < 4 ==> s[2..][i] == s[2..6][i];
    PlainRoom(s[2..], 4);
    assert s[2..][4..] == s[6..] && s[1..][5..] == s[6..];
    if u.rest != s[6..] {
      assert s[6] == '\\' && s[7] == 'u';
      assert s[1..][7..11] == s[8..12];
      HexPlain(s[8..12]);
      assert forall i :: 0 <= i < 4 ==> s[8..][i] == s[8..12][i];
      PlainRoom(s[8..], 4);
      assert s[8..][4..] == s[12..] && s[1..][11..] == s[12..] && s[6..][2..] == s[8..];
      assert Ragged(s[6..]) <==> Ragged(s[8..]);
    }
  }

  /** Running past the end is one of the cases of which nothing is said. */
  lemma {:induction false} RaggedUndefined(s: string)
    requires Ragged(s)
    ensures ParseText(s).Undefined?
    decreases |s|
  {
    if s[0] != '\\' {
      RaggedUndefined(s[1..]);
    } else if Peek(s[1..]) != NUL {
      if s[1] == 'u' {
        if Unicode(s[1..]).Done? {
          UnicodeRoom(s);
          RaggedUndefined(Unicode(s[1..]).rest);
        }
      } else {
        RaggedUndefined(s[2..]);
      }
    }
  }

  method CountRoom(s: string) returns (ok: bool, len: nat)
    ensures ok == !Ragged(s) && (ok ==> len == Room(s))
  {
    len, ok := 0, true;
    var t := s;
    while Peek(t) != NUL && t[0] != '"'
      invariant Ragged(t) == Ragged(s) && (!Ragged(s) ==> len + Room(t) == Room(s))
      decreases |t|
    {
      len := len + 1;
      if t[0] == '\\' {
        if Peek(t[1..]) == NUL {
          return false, 0;
        }
        t := t[2..];
      } else {
        t := t[1..];
      }
    }
  }

  /** `parse_string` after the opening quote. */
  method ParseTextInto(it: Item, s: string) returns (st: Step)
    modifies it`kind, it`valueString
    ensures Agrees(st, ParseText(s)) && (st.Ok? ==> Shows(it, String(ParseText(s).value)))
  {
    var ok, len := CountRoom(s);
    if !ok {
      RaggedUndefined(s);
      return Wild;
    }
    var out := new char[len + 1];
    var p, t := 0, s;
    PrependNothing(ParseText(s));
    assert out[..0] == "";
    while Peek(t) != NUL && t[0] != '"'
      invariant 0 <= p <= len < out.Length && !Ragged(t) && p + Room(t) <= len
      invariant ParseText(s) == Prepend(out[..p], ParseText(t))
      decreases |t|
    {
      ghost var before, was := out[..p], t;
      if t[0] != '\\' {
        out[p] := t[0];
        p, t := p + 1, t[1..];
        PrependTwice(before, [was[0]], ParseText(t));
        assert out[..p] == before + [was[0]];
      } else if t[1] == 'u' {
        var u := Unicode(t[1..]);
        if !u.Done? {
          return Wild;
        }
        UnicodeRoom(t);
        p := Put(out, p, u.value);
        t := u.rest;
        PrependTwice(before, u.value, ParseText(t));
      } else {
        out[p] := Unescaped(t[1]);
        p, t := p + 1, t[2..];
        PrependTwice(before, [Unescaped(was[1])], ParseText(t));
        assert out[..p] == before + [Unescaped(was[1])];
      }
    }
    it.valueString, it.kind := out[..p], IsString;
    st := Ok(if Peek(t) == '"' then t[1..] else t);
  }

  lemma PrependNothing(p: Parsed<string>)
    ensures Prepend("", p) == p
  {
    assert p.Done? ==> "" + p.value == p.value;
  }

  lemma PrependTwice(a: string, b: string, p: Parsed<string>)
    ensures Prepend(a, Prepend(b, p)) == Prepend(a + b, p)
  {
    assert p.Done? ==> a + (b + p.value) == a + b + p.value;
  }

  // ---------- Values ----------

  /** The child at position `i` of a chain; `end` comes after the last one. */
  ghost predicate Child(kids: seq<Item>, v: Value, below: set<Item>, end: Item?, i: nat)
    requires i < |kids|
    reads kids, below
  {
    kids[i] in below && kids[i].below <= below && kids[i] !in kids[i].below && Shows(kids[i], v) &&
    kids[i].prev == At(kids, i - 1) && kids[i].next == if i == |kids| - 1 then end else kids[i + 1]
  }

  ghost predicate Apart(kids: seq<Item>, i: nat, j: nat)
    requires i < |kids| && j < |kids|
    reads kids
  {
    i != j ==> kids[i] != kids[j] && kids[i] !in kids[j].below
  }

  ghost predicate Family(kids: seq<Item>, vs: seq<Value>, below: set<Item>, end: Item?)
    reads kids, below
  {
    |kids| == |vs| && (forall i :: 0 <= i < |kids| ==> Child(kids, vs[i], below, end, i)) &&
    forall i, j :: 0 <= i < |kids| && 0 <= j < |kids| ==> Apart(kids, i, j)
  }

  ghost function Last(kids: seq<Item>): Item? { At(kids, |kids| - 1) }

  ghost function Objects(it: Item?): set<Item> { if it == null then {} else {it} }

  /** A new item at the end of the chain. */
  method AddChild(it: Item, last: Item?, ghost kids: seq<Item>, ghost vs: seq<Value>, ghost below: set<Item>)
    returns (c: Item)
    requires Family(kids, vs, below, null) && last == Last(kids) && it !in below
    modifies it`child, Objects(last)`next
    ensures fresh(c) && c.next == null && c.prev == last && c.child == null && c.items == [] && c.below == {} &&
            c.name == ""
    ensures it.child == if kids == [] then c else old(it.child)
    ensures Family(kids, vs, below, c)
  {
    ghost var k := |kids| - 1;
    c := new Item();
    if last == null {
      it.child := c;
    } else {
      last.next := c;
    }
    c.prev := last;
    forall i | 0 <= i < |kids|
      ensures Child(kids, vs[i], below, c, i)
    {
      assert old(Child(kids, vs[i], below, null, i)) && old(Apart(kids, k, i));
    }
    forall i, j | 0 <= i < |kids| && 0 <= j < |kids|
      ensures Apart(kids, i, j)
    {
      assert old(Apart(kids, i, j));
    }
  }

  lemma Extend(kids: seq<Item>, vs: seq<Value>, below: set<Item>, c: Item, v: Value)
    requires Family(kids, vs, below, c) && c.next == null && c.prev == Last(kids) && Shows(c, v)
    requires c !in below && c !in c.below && c.below !! below
    ensures Family(kids + [c], vs + [v], below + {c} + c.below, null)
  {
    var all, more := kids + [c], below + {c} + c.below;
    forall i | 0 <= i < |all|
      ensures Child(all, (vs + [v])[i], more, null, i)
    {
      if i < |kids| {
        assert Child(kids, vs[i], below, c, i);
      }
    }
    forall i, j | 0 <= i < |all| && 0 <= j < |all|
      ensures Apart(all, i, j)
    {
      if i < |kids| && j < |kids| {
        assert Apart(kids, i, j);
      }
      if i < |kids| {
        assert Child(kids, vs[i], below, c, i);
      }
      if j < |kids| {
        assert Child(kids, vs[j], below, c, j);
      }
    }
  }

  /** A chain of parsed children makes an array. */
  lemma MakesArray(it: Item, vs: seq<Value>)
    requires it.kind == IsArray && it.child == At(it.items, 0) && Family(it.items, vs, it.below, null)
    ensures Shows(it, Array(vs))
  {
    forall i | 0 <= i < |vs|
      ensures it.items[i] in it.below && it.items[i].below <= it.below
      ensures Linked(it.items[i], At(it.items, i - 1), At(it.items, i + 1)) && Shows(it.items[i], vs[i])
    {
      assert Child(it.items, vs[i], it.below, null, i);
    }
  }

  ghost predicate Named(kids: seq<Item>, ms: seq<Member>)
    reads kids
  {
    |kids| == |ms| && forall i :: 0 <= i < |kids| ==> kids[i].name == ms[i].name
  }

  function Values(ms: seq<Member>): seq<Value> { seq(|ms|, i requires 0 <= i < |ms| => ms[i].value) }

  lemma MakesObject(it: Item, ms: seq<Member>)
    requires it.kind == IsObject && it.child == At(it.items, 0)
    requires Family(it.items, Values(ms), it.below, null) && Named(it.items, ms)
    ensures Shows(it, Object(ms))
  {
    forall i | 0 <= i < |ms|
      ensures it.items[i] in it.below && it.items[i].below <= it.below
      ensures Linked(it.items[i], At(it.items, i - 1), At(it.items, i + 1)) && Shows(it.items[i], ms[i].value)
    {
      assert Child(it.items, Values(ms)[i], it.below, null, i);
    }
  }

  // How the recursive parser goes on, for the loops that do the same.

  function Prefixed<T>(done: seq<T>, p: Parsed<seq<T>>): Parsed<seq<T>>
  {
    if p.Done? then Done(done + p.value, p.rest) else p
  }

  lemma PrefixedTwice<T>(a: seq<T>, b: seq<T>, p: Parsed<seq<T>>)
    ensures Prefixed(a, Prefixed(b, p)) == Prefixed(a + b, p) && Prefixed([], p) == p
  {
    assert p.Done? ==> a + (b + p.value) == a + b + p.value && [] + p.value == p.value;
  }

  function ItemsAfter(t: string): Parsed<seq<Value>>
  {
    if Peek(t) == ',' then ParseItems(t[1..]) else if Peek(t) == ']' then Done([], t[1..]) else Malformed
  }

  lemma ItemsStep(s: string)
    ensures var p := ParseValue(Skip(s));
            ParseItems(s) == if p.Done? then Prefixed([p.value], ItemsAfter(Skip(p.rest)))
                             else if p.Malformed? then Malformed else Undefined
  {
    hide ParseValue, Skip;
    var p := ParseValue(Skip(s));
    assert p.Done? ==> [p.value] + [] == [p.value];
  }

  function MembersAfter(t: string): Parsed<seq<Member>>
  {
    if Peek(t) == ',' then ParseMembers(t[1..]) else if Peek(t) == '}' then Done([], t[1..]) else Malformed
  }

  lemma MembersStep(s: string)
    ensures var p := ParseMember(Skip(s));
            ParseMembers(s) == if p.Done? then Prefixed([p.value], MembersAfter(Skip(p.rest)))
                               else if p.Malformed? then Malformed else Undefined
  {
    hide ParseMember, Skip;
    var p := ParseMember(Skip(s));
    assert p.Done? ==> [p.value] + [] == [p.value];
  }

  lemma ArrayStep(s: string)
    requires Peek(s) == '['
    ensures var t := Skip(s[1..]);
            var p := if Peek(t) == ']' then Done([], t[1..]) else ParseItems(t);
            ParseValue(s) ==
            if p.Done? then Done(Array(p.value), p.rest) else if p.Malformed? then Malformed else Undefined
  {
    hide ParseItems, ParseMembers, ParseText, ParseNumber, Skip;
  }

  lemma ObjectStep(s: string)
    requires Peek(s) == '{'
    ensures var t := Skip(s[1..]);
            var p := if Peek(t) == '}' then Done([], t[1..]) else ParseMembers(t);
            ParseValue(s) ==
            if p.Done? then Done(Object(p.value), p.rest) else if p.Malformed? then Malformed else Undefined
  {
    hide ParseItems, ParseMembers, ParseText, ParseNumber, Skip;
  }

  /** `parse_value`, into an item that has just been made. */
  method ParseValueInto(it: Item, s: string) returns (st: Step)
    requires it.child == null && it.items == [] && it.below == {}
    modifies it`child, it`kind, it`valueString, it`valueInt, it`valueDouble, it`sign, it`items, it`below
    ensures Agrees(st, ParseValue(s)) && (st.Ok? ==> Shows(it, ParseValue(s).value))
    ensures fresh(it.below) && it !in it.below
    decreases |s|, 1
  {
    hide ParseItems, ParseMembers, ParseText, ParseNumber, Skip;
    if Starts(s, "null") {
      it.kind := IsNull;
      return Ok(s[4..]);
    }
    if Starts(s, "false") {
      it.kind := IsFalse;
      return Ok(s[5..]);
    }
    if Starts(s, "true") {
      it.kind, it.valueInt := IsTrue, 1;
      return Ok(s[4..]);
    }
    if Peek(s) == '"' {
      st := ParseTextInto(it, s[1..]);
    } else if Peek(s) == '-' || Decimal.IsDigit(Peek(s)) {
      var rest := ParseNumberInto(it, s);
      st := if it.kind == IsInt && !(-LIMIT < it.valueInt < LIMIT) then Wild else Ok(rest);
    } else if Peek(s) == '[' {
      st := ParseArrayInto(it, s);
    } else if Peek(s) == '{' {
      st := ParseObjectInto(it, s);
    } else {
      st := Fail;
    }
  }

  /** The children parsed so far, all new, are the chain below `it`. */
  twostate predicate Growing(it: Item, new last: Item?, new kids: seq<Item>, vs: seq<Value>, new below: set<Item>)
    reads it`child, kids, below
  {
    Family(kids, vs, below, null) && last == Last(kids) && it !in below && fresh(below) &&
    (kids != [] ==> last != null && fresh(last) && it.child == kids[0])
  }

  /** The next child: `t` is where the list started, and `s` where this child starts. */
  method NextItem(it: Item, last: Item?, s: string, ghost kids: seq<Item>, ghost vs: seq<Value>, ghost below: set<Item>)
    returns (c: Item, st: Step)
    requires Family(kids, vs, below, null) && last == Last(kids) && it !in below
    modifies it`child, Objects(last)`next
    ensures fresh(c) && fresh(c.below) && it !in c.below
    ensures it.child == if kids == [] then c else old(it.child)
    ensures Agrees(st, ParseValue(Skip(s)))
    ensures st.Ok? ==> Family(kids + [c], vs + [ParseValue(Skip(s)).value], below + {c} + c.below, null)
    ensures st.Ok? ==> |Skip(st.rest)| < |s|
    decreases |s|, 2
  {
    hide ParseValue, Shows, Skip;
    c := AddChild(it, last, kids, vs, below);
    var t := SkipBlanks(s);
    SkipShortens(s);
    st := ParseValueInto(c, t);
    if st.Ok? {
      Extend(kids, vs, below, c, ParseValue(t).value);
      ValueShortens(t);
      SkipShortens(st.rest);
    }
  }

  /** `parse_array` */
  method ParseArrayInto(it: Item, s: string) returns (st: Step)
    requires it.child == null && it.items == [] && it.below == {} && Peek(s) == '['
    modifies it`child, it`kind, it`items, it`below
    ensures Agrees(st, ParseValue(s)) && (st.Ok? ==> Shows(it, ParseValue(s).value))
    ensures fresh(it.below) && it !in it.below
    decreases |s|, 0
  {
    hide ParseValue, ParseItems, Shows, Skip;
    it.kind := IsArray;
    ArrayStep(s);
    SkipShortens(s[1..]);
    var t := SkipBlanks(s[1..]);
    if Peek(t) == ']' {
      MakesArray(it, []);
      return Ok(t[1..]);
    }
    ghost var vs;
    st, vs := ParseItemsInto(it, t);
    if st.Ok? {
      MakesArray(it, vs);
    }
  }

  /** The loop of `parse_array`. */
  method ParseItemsInto(it: Item, t: string) returns (st: Step, ghost vs: seq<Value>)
    requires it.child == null && it.items == [] && it.below == {}
    modifies it`child, it`items, it`below
    ensures Agrees(st, ParseItems(t)) && fresh(it.below) && it !in it.below
    ensures st.Ok? ==> vs == ParseItems(t).value && it.child == At(it.items, 0) && Family(it.items, vs, it.below, null)
    decreases |t|, 3
  {
    hide ParseValue, ParseItems, Shows, Skip, Family, Prefixed;
    ghost var kids: seq<Item>, below: set<Item> := [], {};
    vs := [];
    NoFamily();
    PrefixedTwice([], [], ParseItems(t));
    var child: Item?, cur, more := null, t, true;
    while more
      invariant Growing(it, child, kids, vs, below) && (child == null <==> kids == [])
      invariant it.items == [] && it.below == {} && |cur| <= |t| && (!more ==> Peek(cur) != ',' && kids != [])
      invariant ParseItems(t) == Prefixed(vs, if more then ParseItems(cur) else ItemsAfter(cur))
      decreases more, |cur|
    {
      ghost var from := cur;
      ItemsStep(from);
      var c;
      c, st := NextItem(it, child, cur, kids, vs, below);
      if !st.Ok? {
        Failed(vs, ParseItems(from));
        return;
      }
      cur := SkipBlanks(st.rest);
      ghost var v := ParseValue(Skip(from)).value;
      PrefixedTwice(vs, [v], ItemsAfter(cur));
      kids, vs, below := kids + [c], vs + [v], below + {c} + c.below;
      child := c;
      more := Peek(cur) == ',';
      if more {
        cur := cur[1..];
      }
    }
    if Peek(cur) != ']' {
      Failed(vs, ItemsAfter(cur));
      return Fail, vs;
    }
    Adopt(it, kids, vs, below);
    Finished(vs, cur[1..]);
    st := Ok(cur[1..]);
  }

  ghost method Adopt(it: Item, kids: seq<Item>, vs: seq<Value>, below: set<Item>)
    requires Family(kids, vs, below, null) && it !in below
    modifies it`items, it`below
    ensures it.items == kids && it.below == below && Family(kids, vs, below, null)
  {
    it.items, it.below := kids, below;
    forall i | 0 <= i < |kids|
      ensures Child(kids, vs[i], below, null, i)
    {
      assert old(Child(kids, vs[i], below, null, i));
    }
    forall i, j | 0 <= i < |kids| && 0 <= j < |kids|
      ensures Apart(kids, i, j)
    {
      assert old(Apart(kids, i, j)) && old(Child(kids, vs[i], below, null, i)) &&
             old(Child(kids, vs[j], below, null, j));
    }
  }

  lemma NoFamily()
    ensures Family([], [], {}, null)
  {
  }

  lemma Failed<T>(done: seq<T>, p: Parsed<seq<T>>)
    requires !p.Done?
    ensures Prefixed(done, p) == p
  {
  }

  lemma Finished<T>(done: seq<T>, rest: string)
    ensures Prefixed(done, Done([], rest)) == Done(done, rest)
  {
    assert done + [] == done;
  }

  lemma ValueShortens(s: string)
    ensures Shorter(ParseValue(s), s)
  {
    hide ParseValue;
  }

  lemma StringShortens(s: string)
    ensures Shorter(ParseString(s), s)
  {
    if Peek(s) == '"' {
      TextShortens(s[1..]);
    }
  }

  /** The next member: its name, a colon, and its value. */
  method NextMember(it: Item, last: Item?, s: string, ghost kids: seq<Item>, ghost ms: seq<Member>,
      ghost below: set<Item>)
    returns (c: Item, st: Step)
    requires Family(kids, Values(ms), below, null) && Named(kids, ms) && last == Last(kids) && it !in below
    modifies it`child, Objects(last)`next
    ensures fresh(c) && fresh(c.below) && it !in c.below
    ensures it.child == if kids == [] then c else old(it.child)
    ensures Agrees(st, ParseMember(Skip(s)))
    ensures st.Ok? ==> var m := ParseMember(Skip(s)).value;
                       Family(kids + [c], Values(ms + [m]), below + {c} + c.below, null) && Named(kids + [c], ms + [m])
    ensures st.Ok? ==> |Skip(st.rest)| < |s|
    decreases |s|, 2
  {
    hide ParseValue, ParseText, Shows, Skip, Family;
    c := AddChild(it, last, kids, Values(ms), below);
    var t := SkipBlanks(s);
    SkipShortens(s);
    StringShortens(t);
    if Peek(t) != '"' {
      return c, Fail;
    }
    st := NameChild(c, t[1..], kids, Values(ms), below);
    if !st.Ok? {
      return;
    }
    var u := SkipBlanks(st.rest);
    SkipShortens(st.rest);
    if Peek(u) != ':' {
      return c, Fail;
    }
    var v := SkipBlanks(u[1..]);
    SkipShortens(u[1..]);
    st := ValueChild(c, v, kids, Values(ms), below);
    if st.Ok? {
      ghost var m := ParseMember(t).value;
      assert Values(ms) + [m.value] == Values(ms + [m]);
      SkipShortens(st.rest);
    }
  }

  /** The name of a member is parsed as a string and moved. */
  method NameChild(c: Item, s: string, ghost kids: seq<Item>, ghost vs: seq<Value>, ghost below: set<Item>)
    returns (st: Step)
    requires Family(kids, vs, below, c) && c !in below
    modifies c`kind, c`valueString, c`name
    ensures Agrees(st, ParseText(s)) && (st.Ok? ==> c.name == ParseText(s).value)
    ensures Family(kids, vs, below, c)
  {
    st := ParseTextInto(c, s);
    if st.Ok? {
      c.name, c.valueString := c.valueString, "";
    }
    forall i | 0 <= i < |kids|
      ensures Child(kids, vs[i], below, c, i)
    {
      assert old(Child(kids, vs[i], below, c, i));
    }
    forall i, j | 0 <= i < |kids| && 0 <= j < |kids|
      ensures Apart(kids, i, j)
    {
      assert old(Apart(kids, i, j));
    }
  }

  method ValueChild(c: Item, s: string, ghost kids: seq<Item>, ghost vs: seq<Value>, ghost below: set<Item>)
    returns (st: Step)
    requires Family(kids, vs, below, c) && c !in below && c !in kids && c.next == null && c.prev == Last(kids)
    requires c.child == null && c.items == [] && c.below == {}
    modifies c`child, c`kind, c`valueString, c`valueInt, c`valueDouble, c`sign, c`items, c`below
    ensures Agrees(st, ParseValue(s)) && fresh(c.below) && c !in c.below
    ensures st.Ok? ==> |st.rest| < |s| && Family(kids + [c], vs + [ParseValue(s).value], below + {c} + c.below, null)
    decreases |s|, 2
  {
    hide ParseValue, Shows, Skip;
    st := ParseValueInto(c, s);
    if st.Ok? {
      Extend(kids, vs, below, c, ParseValue(s).value);
      ValueShortens(s);
    }
  }

  /** `parse_object` */
  method ParseObjectInto(it: Item, s: string) returns (st: Step)
    requires it.child == null && it.items == [] && it.below == {} && Peek(s) == '{'
    modifies it`child, it`kind, it`items, it`below
    ensures Agrees(st, ParseValue(s)) && (st.Ok? ==> Shows(it, ParseValue(s).value))
    ensures fresh(it.below) && it !in it.below
    decreases |s|, 0
  {
    hide ParseValue, ParseMembers, Shows, Skip;
    it.kind := IsObject;
    ObjectStep(s);
    SkipShortens(s[1..]);
    var t := SkipBlanks(s[1..]);
    if Peek(t) == '}' {
      MakesObject(it, []);
      return Ok(t[1..]);
    }
    ghost var ms;
    st, ms := ParseMembersInto(it, t);
    if st.Ok? {
      MakesObject(it, ms);
    }
  }

  /** The loop of `parse_object`. */
  method ParseMembersInto(it: Item, t: string) returns (st: Step, ghost ms: seq<Member>)
    requires it.child == null && it.items == [] && it.below == {}
    modifies it`child, it`items, it`below
    ensures Agrees(st, ParseMembers(t)) && fresh(it.below) && it !in it.below
    ensures st.Ok? ==> ms == ParseMembers(t).value && it.child == At(it.items, 0)
    ensures st.Ok? ==> Family(it.items, Values(ms), it.below, null) && Named(it.items, ms)
    decreases |t|, 3
  {
    hide ParseMember, ParseMembers, Shows, Skip, Family, Prefixed;
    ghost var kids: seq<Item>, below: set<Item> := [], {};
    ms := [];
    NoFamily();
    assert Values([]) == [];
    PrefixedTwice([], [], ParseMembers(t));
    var child: Item?, cur, more := null, t, true;
    while more
      invariant Growing(it, child, kids, Values(ms), below) && Named(kids, ms) && (child == null <==> kids == [])
      invariant it.items == [] && it.below == {} && |cur| <= |t| && (!more ==> Peek(cur) != ',' && kids != [])
      invariant ParseMembers(t) == Prefixed(ms, if more then ParseMembers(cur) else MembersAfter(cur))
      decreases more, |cur|
    {
      ghost var from := cur;
      MembersStep(from);
      var c;
      c, st := NextMember(it, child, cur, kids, ms, below);
      if !st.Ok? {
        Failed(ms, ParseMembers(from));
        return;
      }
      cur := SkipBlanks(st.rest);
      ghost var m := ParseMember(Skip(from)).value;
      PrefixedTwice(ms, [m], MembersAfter(cur));
      kids, ms, below := kids + [c], ms + [m], below + {c} + c.below;
      child := c;
      more := Peek(cur) == ',';
      if more {
        cur := cur[1..];
      }
    }
    if Peek(cur) != '}' {
      Failed(ms, MembersAfter(cur));
      return Fail, ms;
    }
    Adopt(it, kids, Values(ms), below);
    Finished(ms, cur[1..]);
    st := Ok(cur[1..]);
  }

  /** `cJSON_Parse` */
  method ParseRoot(s: string) returns (root: Item, st: Step)
    ensures fresh(root) && Agrees(st, Parse(s)) && (st.Ok? ==> Shows(root, Parse(s).value))
  {
    root := new Item();
    var t := SkipBlanks(s);
    st := ParseValueInto(root, t);
  }
}
