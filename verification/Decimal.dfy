/** Decimal text of 64-bit integers: the conversions of `read.c`, `sds.c` and `hiredis.c`. */
module Decimal {
  import opened Wrappers

  const LLONG_MAX: int := 0x7FFF_FFFF_FFFF_FFFF
  const LLONG_MIN: int := -0x8000_0000_0000_0000
  const ULLONG_MAX: int := 0xFFFF_FFFF_FFFF_FFFF

  // Room that sds.c reserves for one converted number, terminator included.
  const LLSTR_SIZE: nat := 21

  predicate IsLL(v: int) { LLONG_MIN <= v <= LLONG_MAX }

  lemma Bounds(v: int)
    ensures IsLL(v) <==> -0x8000_0000_0000_0000 <= v < 0x8000_0000_0000_0000
  {
  }

  predicate IsDigit(c: char) { '0' <= c <= '9' }

  function DigitChar(d: nat): (c: char)
    requires d < 10
    ensures IsDigit(c) && DigitValue(c) == d
  {
    '0' + d as char
  }

  function DigitValue(c: char): nat
    requires IsDigit(c)
  {
    c as int - '0' as int
  }

  /** The digits of `n`, most significant first. */
  function Digits(n: nat): (s: string)
    ensures s != []
  {
    if n < 10 then [DigitChar(n)] else Digits(n / 10) + [DigitChar(n % 10)]
  }

  /** The decimal text of `v`, as `%lld` prints it. */
  function Text(v: int): (s: string)
    ensures s != []
  {
    if v < 0 then "-" + Digits(-v) else Digits(v)
  }

  predicate AllDigits(s: string) { forall i :: 0 <= i < |s| ==> IsDigit(s[i]) }

  function ValueOf(s: string): nat
    requires AllDigits(s)
  {
    if s == [] then 0 else 10 * ValueOf(s[..|s| - 1]) + DigitValue(s[|s| - 1])
  }

  /** No superfluous leading zero, at least one digit. */
  predicate Canonical(s: string)
  {
    s != [] && AllDigits(s) && (s[0] == '0' ==> |s| == 1)
  }

  predicate CanonicalSigned(s: string)
  {
    Canonical(s) || (s != [] && s[0] == '-' && Canonical(s[1..]) && s[1] != '0')
  }

  function SignedValue(s: string): int
    requires CanonicalSigned(s)
  {
    if s[0] == '-' then -(ValueOf(s[1..]) as int) else ValueOf(s)
  }

  /** The integer that a strict reader accepts for `s`, if any. */
  function ParseLL(s: string): (r: Option<int>)
    ensures r.Some? ==> IsLL(r.value)
  {
    if CanonicalSigned(s) && IsLL(SignedValue(s)) then Some(SignedValue(s)) else None
  }

  // ----- Digits and ValueOf are inverse on canonical text

  lemma {:induction false} DigitsCanonical(n: nat)
    ensures Canonical(Digits(n)) && ValueOf(Digits(n)) == n
    ensures Digits(n)[0] == '0' ==> n == 0
  {
    if n >= 10 {
      DigitsCanonical(n / 10);
      var s := Digits(n);
      assert s[..|s| - 1] == Digits(n / 10);
      assert s[0] == Digits(n / 10)[0];
    }
  }

  lemma {:induction false} CanonicalDigits(s: string)
    requires Canonical(s)
    ensures Digits(ValueOf(s)) == s
    ensures s[0] != '0' ==> ValueOf(s) > 0
  {
    var front, last := s[..|s| - 1], s[|s| - 1];
    if front != [] {
      CanonicalDigits(front);
      assert ValueOf(s) == 10 * ValueOf(front) + DigitValue(last);
      assert ValueOf(front) > 0;
      assert ValueOf(s) / 10 == ValueOf(front) && ValueOf(s) % 10 == DigitValue(last);
      assert s == front + [last];
    } else {
      assert ValueOf(s) == DigitValue(last);
      assert s == [last];
    }
  }

  lemma TextParses(v: int)
    requires IsLL(v)
    ensures ParseLL(Text(v)) == Some(v)
  {
    var s := Text(v);
    if v < 0 {
      DigitsCanonical(-v);
      assert s[1..] == Digits(-v) && s[1] == Digits(-v)[0];
      assert !IsDigit(s[0]);
    } else {
      DigitsCanonical(v);
    }
  }

  lemma ParsedIsText(s: string)
    requires CanonicalSigned(s)
    ensures s == Text(SignedValue(s))
  {
    if s[0] == '-' {
      CanonicalDigits(s[1..]);
      assert s == "-" + s[1..];
    } else {
      CanonicalDigits(s);
    }
  }

  /** A strict reader accepts exactly the decimal texts of the 64-bit integers, and returns their value. */
  lemma ParseLLExact(s: string, v: int)
    ensures ParseLL(s) == Some(v) <==> IsLL(v) && s == Text(v)
  {
    if IsLL(v) && s == Text(v) {
      TextParses(v);
    }
    if ParseLL(s) == Some(v) {
      ParsedIsText(s);
    }
  }

  lemma TextHasNoSpecial(v: int, c: char)
    requires c in Text(v)
    ensures IsDigit(c) || c == '-'
  {
    DigitsCanonical(if v < 0 then -v else v);
  }

  function Pow10(k: nat): (p: nat)
    ensures p > 0
  {
    if k == 0 then 1 else 10 * Pow10(k - 1)
  }

  lemma {:induction false} DigitsBound(n: nat, k: nat)
    requires k > 0 && n < Pow10(k)
    ensures |Digits(n)| <= k
  {
    if n >= 10 {
      assert k > 1;
      DigitsBound(n / 10, k - 1);
    }
  }

  lemma {:induction false} DigitsCount(n: nat, k: nat)
    requires k > 0
    ensures |Digits(n)| <= k <==> n < Pow10(k)
  {
    if n < 10 {
      assert Pow10(k) == 10 * Pow10(k - 1);
    } else if k > 1 {
      DigitsCount(n / 10, k - 1);
    }
  }

  /** Counted from the right, the digits of `n` are those of its decimal expansion. */
  lemma {:induction false} DigitsAt(n: nat, k: nat)
    requires k < |Digits(n)|
    ensures Digits(n)[|Digits(n)| - 1 - k] == "0123456789"[n / Pow10(k) % 10]
  {
    DigitIs(n % 10);
    if k > 0 {
      DigitsAt(n / 10, k - 1);
      TenTimes(n, Pow10(k - 1));
    }
  }

  lemma DigitIs(d: nat)
    requires d < 10
    ensures DigitChar(d) == "0123456789"[d]
  {
  }

  lemma TenTimes(n: nat, p: nat)
    requires p > 0
    ensures n / (10 * p) == n / 10 / p
  {
    var m := n / 10;
    var q, r := m / p, m % p;
    assert m == q * p + r && n == 10 * m + n % 10;
    assert n == (10 * p) * q + (10 * r + n % 10) && 10 * r + n % 10 < 10 * p;
    QuotientIs(n, 10 * p, q, 10 * r + n % 10);
  }

  lemma QuotientIs(n: nat, p: nat, q: nat, r: nat)
    requires p > 0 && n == p * q + r && r < p
    ensures n / p == q
  {
    var d := n / p - q;
    assert n == p * (n / p) + n % p;
    assert p * d == r - n % p;
    Multiples(p, d);
  }

  lemma Multiples(p: int, d: int)
    requires p > 0
    ensures d > 0 ==> p * d >= p
    ensures d < 0 ==> p * d <= 0 - p
  {
  }

  /** A sign stands in front of the digits of a negative number only. */
  lemma Signs(n: nat)
    ensures Text(n) == Digits(n) && (n > 0 ==> Text(0 - n) == "-" + Digits(n))
  {
  }

  // The value of a prefix never exceeds the value of the whole.
  lemma {:induction false} ValueOfMonotone(s: string, i: nat)
    requires AllDigits(s) && i <= |s|
    ensures ValueOf(s[..i]) <= ValueOf(s)
  {
    if i < |s| {
      ValueOfMonotone(s[..|s| - 1], i);
      assert s[..|s| - 1][..i] == s[..i];
    } else {
      assert s[..i] == s;
    }
  }

  lemma ValueOfStep(s: string, i: nat)
    requires i < |s| && AllDigits(s[..i + 1])
    ensures ValueOf(s[..i + 1]) == 10 * ValueOf(s[..i]) + DigitValue(s[i])
  {
    assert s[..i + 1][..i] == s[..i];
    assert IsDigit(s[..i + 1][i]);
  }

  lemma FirstDigit(s: string)
    requires s != "" && IsDigit(s[0])
    ensures ValueOf(s[..1]) == DigitValue(s[0])
  {
    ValueOfStep(s, 0);
  }

  /** `string2ll`: the accumulator stays inside an unsigned 64-bit word at every step. */
  method String2ll(s: string) returns (r: Option<int>)
    ensures r == ParseLL(s)
  {
    hide CanonicalSigned, SignedValue, Canonical, ParseLL, ValueOf;
    var plen, negative := 0, false;
    if plen == |s| {
      NotANumber(s);
      return None;
    }
    if |s| == 1 && s[0] == '0' {
      ZeroText(s);
      return Some(0);
    }
    if s[0] == '-' {
      negative := true;
      plen := 1;
      if plen == |s| {
        NotANumber(s);
        return None;
      }
    }
    var v;
    if '1' <= s[plen] <= '9' {
      v := s[plen] as int - '0' as int;
      FirstDigit(Body(s));
      plen := plen + 1;
    } else {
      BadStart(s);
      return None;
    }
    ghost var body, start := Body(s), if negative then 1 else 0;
    while plen < |s| && '0' <= s[plen] <= '9'
      invariant start < plen <= |s|
      invariant AllDigits(body[..plen - start])
      invariant v == ValueOf(body[..plen - start]) <= ULLONG_MAX
    {
      ghost var seen := plen - start;
      assert body[..seen + 1] == body[..seen] + [s[plen]];
      ValueOfStep(body, seen);
      if v > ULLONG_MAX / 10 {
        OutOfRange(s, seen + 1);
        return None;
      }
      v := v * 10;
      if v > ULLONG_MAX - (s[plen] as int - '0' as int) {
        OutOfRange(s, seen + 1);
        return None;
      }
      v := v + (s[plen] as int - '0' as int);
      plen := plen + 1;
    }
    if plen < |s| {
      StrayCharacter(s, plen - start);
      return None;
    }
    assert body[..plen - start] == body;
    DigitRun(s);
    if negative {
      if v > -(LLONG_MIN + 1) + 1 {
        return None;
      }
      return Some(-v);
    }
    if v > LLONG_MAX {
      return None;
    }
    return Some(v);
  }

  /** The part of a number that follows its sign. */
  ghost function Body(s: string): string
    requires s != []
  {
    if s[0] == '-' then s[1..] else s
  }

  lemma NotANumber(s: string)
    requires s == "" || s == "-"
    ensures ParseLL(s) == None
  {
  }

  lemma ZeroText(s: string)
    requires s == "0"
    ensures ParseLL(s) == Some(0)
  {
    assert ValueOf(s) == 0;
  }

  lemma BadStart(s: string)
    requires s != [] && s != "0" && Body(s) != []
    requires !('1' <= Body(s)[0] <= '9')
    ensures ParseLL(s) == None
  {
  }

  lemma StrayCharacter(s: string, i: nat)
    requires s != [] && i < |Body(s)| && !IsDigit(Body(s)[i])
    ensures ParseLL(s) == None
  {
    if s[0] == '-' {
      assert !IsDigit(s[0]);
    }
  }

  lemma DigitRun(s: string)
    requires s != [] && Body(s) != [] && AllDigits(Body(s)) && Body(s)[0] != '0'
    ensures ParseLL(s) ==
            var v := if s[0] == '-' then -(ValueOf(Body(s)) as int) else ValueOf(Body(s));
            if IsLL(v) then Some(v) else None
  {
  }

  // A digit run whose prefix already leaves the unsigned range is never accepted.
  lemma OutOfRange(s: string, i: nat)
    requires s != [] && i <= |Body(s)|
    requires AllDigits(Body(s)[..i]) && ValueOf(Body(s)[..i]) > ULLONG_MAX
    ensures ParseLL(s) == None
  {
    if CanonicalSigned(s) {
      ValueOfMonotone(Body(s), i);
    }
  }

  function Reversed(s: string): string
  {
    seq(|s|, i requires 0 <= i < |s| => s[|s| - 1 - i])
  }

  lemma ReversedTwice(raw: string, t: string, s: string)
    requires raw == Reversed(t) && s == Reversed(raw)
    ensures s == t
  {
  }

  // The do-while loop of both converters: digits come out least significant first.
  method PutDigits(s: array<char>, v0: nat) returns (p: nat)
    requires |Digits(v0)| <= s.Length
    modifies s
    ensures p == |Digits(v0)| && s[..p] == Reversed(Digits(v0))
  {
    var v := v0;
    s[0] := DigitChar(v % 10);
    p := 1;
    v := v / 10;
    while v != 0
      invariant 0 < p <= |Digits(v0)|
      invariant v == 0 ==> s[..p] == Reversed(Digits(v0))
      invariant v != 0 ==> p < |Digits(v0)| && Digits(v0) == Digits(v) + Reversed(s[..p])
      decreases v
    {
      ghost var before := s[..p];
      s[p] := DigitChar(v % 10);
      assert s[..p + 1] == before + [DigitChar(v % 10)];
      assert Reversed(s[..p + 1]) == [DigitChar(v % 10)] + Reversed(before);
      p := p + 1;
      v := v / 10;
    }
  }

  /** `sdsll2str`: digits and sign are produced backwards and then reversed in place. */
  method Sdsll2str(s: array<char>, value: int) returns (l: nat)
    requires s.Length >= LLSTR_SIZE && IsLL(value)
    modifies s
    ensures l < LLSTR_SIZE && s[..l] == Text(value) && s[l] == '\0'
  {
    var v: nat := if value < 0 then -value else value;
    DigitsBoundLL(v);
    var p := PutDigits(s, v);
    if value < 0 {
      s[p] := '-';
      p := p + 1;
    }
    ghost var raw := s[..p];
    assert raw == Reversed(Text(value));
    l := p;
    s[p] := '\0';
    assert s[..l] == raw;
    ReversePrefix(s, l);
    assert s[l..][0] == '\0';
    ReversedTwice(raw, Text(value), s[..l]);
  }

  /** `sdsull2str`, the unsigned variant. */
  method Sdsull2str(s: array<char>, v: nat) returns (l: nat)
    requires s.Length >= LLSTR_SIZE && v <= ULLONG_MAX
    modifies s
    ensures l < LLSTR_SIZE && s[..l] == Digits(v) && s[l] == '\0'
  {
    DigitsBoundULL(v);
    l := PutDigits(s, v);
    ghost var raw := s[..l];
    s[l] := '\0';
    assert s[..l] == raw;
    ReversePrefix(s, l);
    assert s[l..][0] == '\0';
    ReversedTwice(raw, Digits(v), s[..l]);
  }

  /** The swapping loop at the end of `sdsll2str`. */
  method ReversePrefix(s: array<char>, l: nat)
    requires l <= s.Length
    modifies s
    ensures s[..l] == Reversed(old(s[..l])) && s[l..] == old(s[l..])
  {
    var q, p := 0, l - 1;
    while q < p
      invariant 0 <= q <= l && p == l - 1 - q
      invariant s[l..] == old(s[l..])
      invariant forall k :: 0 <= k < q && k < l ==> s[k] == old(s[l - 1 - k]) && s[l - 1 - k] == old(s[k])
      invariant forall k :: q <= k <= p ==> s[k] == old(s[k])
    {
      s[q], s[p] := s[p], s[q];
      q := q + 1;
      p := p - 1;
    }
    forall k | 0 <= k < l
      ensures s[k] == old(s[l - 1 - k])
    {
      if k >= q && k > p {
        assert s[l - 1 - (l - 1 - k)] == old(s[l - 1 - k]);
      }
    }
  }

  lemma DigitsBoundLL(v: nat)
    requires v <= -LLONG_MIN
    ensures |Digits(v)| <= 19
  {
    assert Pow10(4) == 10000;
    assert Pow10(8) == 100000000;
    assert Pow10(12) == 1000000000000;
    assert Pow10(16) == 10000000000000000;
    assert Pow10(19) == 10000000000000000000;
    DigitsBound(v, 19);
  }

  lemma DigitsBoundULL(v: nat)
    requires v <= ULLONG_MAX
    ensures |Digits(v)| <= 20
  {
    assert |Digits(v)| <= 1 + |Digits(v / 10)|;
    DigitsBoundLL(v / 10);
  }

  /** `countDigits`: four digits at a time. */
  method CountDigits(v0: nat) returns (result: nat)
    ensures result == |Digits(v0)|
  {
    var v := v0;
    result := 1;
    while true
      invariant |Digits(v0)| == result - 1 + |Digits(v)|
      decreases v
    {
      if v < 10 { return; }
      if v < 100 { result := result + 1; return; }
      if v < 1000 { ThreeDigits(v); result := result + 2; return; }
      if v < 10000 { ThreeDigits(v / 10); result := result + 3; return; }
      FourDigits(v);
      v := v / 10000;
      result := result + 4;
    }
  }

  lemma ThreeDigits(v: nat)
    requires 100 <= v < 1000
    ensures |Digits(v)| == 3
  {
    assert |Digits(v / 10)| == 2;
  }

  lemma FourDigits(v: nat)
    requires v >= 10000
    ensures |Digits(v)| == 4 + |Digits(v / 10000)|
  {
    assert v / 10 / 10 == v / 100 && v / 100 / 10 == v / 1000 && v / 1000 / 10 == v / 10000;
    assert |Digits(v)| == 1 + |Digits(v / 10)|;
    assert |Digits(v / 10)| == 1 + |Digits(v / 100)|;
    assert |Digits(v / 100)| == 1 + |Digits(v / 1000)|;
  }
}
