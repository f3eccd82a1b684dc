/**
 * The command formatters of `hiredis.c`. Each one first computes the length of the command and
 * then writes it into a buffer of that length; all of them write the array of bulk strings that
 * the reader turns back into the arguments.
 */
module CommandWriter {
  import opened Buffers
  import opened Wrappers
  import opened Decimal
  import opened Resp
  import opened RespWire

  const INT_MAX: int := 0x7FFF_FFFF

  function Bulks(argv: seq<string>): seq<Reply>
  {
    seq(|argv|, i requires 0 <= i < |argv| => Str(TString, argv[i]))
  }

  /** The command as a reply tree, and its bytes. */
  function CommandReply(argv: seq<string>): Reply { Aggregate(TArray, Bulks(argv)) }

  function EncodeCommand(argv: seq<string>): string { Encode(CommandReply(argv)) }

  function EncodeArg(arg: string): string { Encode(Str(TString, arg)) }

  predicate Sized(argv: seq<string>)
  {
    |argv| <= INT_MAX && forall i :: 0 <= i < |argv| ==> |argv[i]| <= LLONG_MAX
  }

  /** The reader returns exactly the arguments that were written, and nothing of what follows. */
  lemma CommandReadsBack(env: Env, argv: seq<string>, rest: string)
    requires Sized(argv) && (env.maxElements > 0 ==> |argv| <= env.maxElements)
    ensures Parse(env, EncodeCommand(argv) + rest) == Done(CommandReply(argv), rest)
  {
    ParseEncode(env, CommandReply(argv), rest);
  }

  /** The bytes of a command, as the protocol writes them. */
  lemma CommandBytes(argv: seq<string>)
    ensures EncodeCommand(argv) == RequestText(argv)
  {
    hide Text, EncodeAll, BulkTexts;
    BulkBytes(argv);
    assert |Bulks(argv)| / Arity(TArray) == |argv|;
  }

  lemma {:induction false} BulkBytes(argv: seq<string>)
    ensures EncodeAll(Bulks(argv)) == BulkTexts(argv)
  {
    hide Text;
    if argv != [] {
      assert Bulks(argv)[1..] == Bulks(argv[1..]);
      BulkBytes(argv[1..]);
    }
  }

  /** The reader returns exactly the arguments from the bytes of a request, and nothing of what follows. */
  lemma RequestReadsBack(env: Env, argv: seq<string>, rest: string)
    requires Sized(argv) && (env.maxElements > 0 ==> |argv| <= env.maxElements)
    ensures var r := Parse(env, RequestText(argv) + rest);
            r.Done? && r.rest == rest && r.value.Aggregate? && r.value.atag == TArray && |r.value.elems| == |argv| &&
            forall j :: 0 <= j < |argv| ==> r.value.elems[j] == Str(TString, argv[j])
  {
    hide Text, BulkTexts, Encode;
    CommandBytes(argv);
    CommandReadsBack(env, argv, rest);
  }

  lemma {:induction false} EncodeAllAppend(vs: seq<Reply>, v: Reply)
    ensures EncodeAll(vs + [v]) == EncodeAll(vs) + Encode(v)
  {
    if vs == [] {
      assert vs + [v] == [v] && [v][1..] == [];
    } else {
      assert (vs + [v])[1..] == vs[1..] + [v];
      EncodeAllAppend(vs[1..], v);
    }
  }

  /** The command up to argument `j`. */
  ghost function CommandPrefix(argv: seq<string>, j: nat): string
    requires j <= |argv|
  {
    Line(TArray, Text(|argv|)) + EncodeAll(Bulks(argv)[..j])
  }

  lemma PrefixEnds(argv: seq<string>)
    ensures CommandPrefix(argv, 0) == "*" + Digits(|argv|) + CRLF
    ensures CommandPrefix(argv, |argv|) == EncodeCommand(argv)
  {
    hide EncodeAll, Text, Digits;
    EmptyPrefix(argv);
    WholePrefix(argv);
  }

  lemma WholePrefix(argv: seq<string>)
    ensures CommandPrefix(argv, |argv|) == EncodeCommand(argv)
  {
    var bulks := Bulks(argv);
    assert bulks[..|argv|] == bulks;
    assert |bulks| / Arity(TArray) == |argv|;
  }

  lemma EmptyPrefix(argv: seq<string>)
    ensures CommandPrefix(argv, 0) == "*" + Digits(|argv|) + CRLF
  {
    assert Bulks(argv)[..0] == [];
    assert Text(|argv|) == Digits(|argv|);
  }

  lemma PrefixStep(argv: seq<string>, j: nat)
    requires j < |argv|
    ensures CommandPrefix(argv, j + 1) == CommandPrefix(argv, j) + EncodeArg(argv[j])
  {
    assert Bulks(argv)[..j + 1] == Bulks(argv)[..j] + [Str(TString, argv[j])];
    EncodeAllAppend(Bulks(argv)[..j], Str(TString, argv[j]));
  }

  lemma {:induction false} PrefixLength(argv: seq<string>, j: nat)
    requires j <= |argv|
    ensures |CommandPrefix(argv, j)| <= |EncodeCommand(argv)|
    decreases |argv| - j
  {
    PrefixEnds(argv);
    if j < |argv| {
      PrefixStep(argv, j);
      PrefixLength(argv, j + 1);
    }
  }

  // ----- Lengths

  method Bulklen(arg: string) returns (n: nat)
    ensures n == |EncodeArg(arg)|
  {
    var digits := CountDigits(|arg|);
    n := 1 + digits + 2 + |arg| + 2;
  }

  method TotalLength(argv: seq<string>) returns (totlen: nat)
    ensures totlen == |EncodeCommand(argv)|
  {
    PrefixEnds(argv);
    var digits := CountDigits(|argv|);
    totlen := 1 + digits + 2;
    for j := 0 to |argv|
      invariant totlen == |CommandPrefix(argv, j)|
    {
      PrefixStep(argv, j);
      var len := Bulklen(argv[j]);
      totlen := totlen + len;
    }
  }

  // ----- Writing into a buffer of exactly that length

  // sprintf: one more byte is written, the terminator.
  method Print(cmd: array<char>, pos: nat, s: string) returns (pos': nat)
    requires pos + |s| < cmd.Length
    modifies cmd
    ensures pos' == pos + |s| && cmd[..pos'] == old(cmd[..pos]) + s
  {
    pos' := Put(cmd, pos, s);
    ghost var written := cmd[..pos'];
    cmd[pos'] := '\0';
    assert cmd[..pos'] == written;
  }

  /** Writes the command; no write leaves a buffer of the computed length plus a terminator. */
  method WriteCommand(argv: seq<string>, totlen: nat) returns (cmd: array<char>)
    requires totlen == |EncodeCommand(argv)|
    ensures fresh(cmd) && cmd.Length == totlen + 1
    ensures cmd[..totlen] == EncodeCommand(argv) && cmd[totlen] == '\0'
  {
    cmd := new char[totlen + 1];
    PrefixEnds(argv);
    PrefixLength(argv, 0);
    var pos: nat := Print(cmd, 0, "*" + Text(|argv|) + CRLF);
    assert cmd[..pos] == CommandPrefix(argv, 0);
    for j := 0 to |argv|
      invariant pos == |CommandPrefix(argv, j)| <= totlen && cmd[..pos] == CommandPrefix(argv, j)
    {
      PrefixStep(argv, j);
      PrefixLength(argv, j + 1);
      pos := WriteArg(cmd, pos, argv[j]);
    }
    ghost var written := cmd[..pos];
    cmd[pos] := '\0';
    assert cmd[..pos] == written;
  }

  method WriteArg(cmd: array<char>, pos: nat, arg: string) returns (pos': nat)
    requires pos + |EncodeArg(arg)| < cmd.Length
    modifies cmd
    ensures pos' == pos + |EncodeArg(arg)| && cmd[..pos'] == old(cmd[..pos]) + EncodeArg(arg)
  {
    ghost var head := Line(TString, Text(|arg|));
    assert EncodeArg(arg) == head + arg + CRLF;
    pos' := Print(cmd, pos, "$" + Text(|arg|) + CRLF);
    pos' := Put(cmd, pos', arg);
    pos' := Put(cmd, pos', CRLF);
    assert cmd[..pos'] == old(cmd[..pos]) + head + arg + CRLF;
  }

  // ----- Argument vectors

  /** `strlen` delimits a C string at its first NUL. */
  function CString(s: string): (r: string)
    ensures '\0' !in r && r <= s && (|r| < |s| ==> s[|r|] == '\0')
  {
    if s == "" || s[0] == '\0' then "" else [s[0]] + CString(s[1..])
  }

  predicate LengthsFit(argv: seq<string>, argvlen: Option<seq<nat>>)
  {
    argvlen.Some? ==>
      |argvlen.value| == |argv| && forall j :: 0 <= j < |argv| ==> argvlen.value[j] <= |argv[j]|
  }

  /** The bytes of `full` up to the given length, or up to the first NUL. */
  predicate IsArgument(full: string, length: Option<nat>, arg: string)
  {
    arg <= full &&
    if length.Some? then |arg| == length.value else '\0' !in arg && (|arg| < |full| ==> full[|arg|] == '\0')
  }

  lemma OneArgument(full: string, length: Option<nat>, a: string, b: string)
    requires IsArgument(full, length, a) && IsArgument(full, length, b)
    ensures a == b
  {
    assert forall i :: 0 <= i < |a| ==> a[i] == full[i];
    assert forall i :: 0 <= i < |b| ==> b[i] == full[i];
  }

  function LengthOf(argvlen: Option<seq<nat>>, j: nat): Option<nat>
    requires argvlen.Some? ==> j < |argvlen.value|
  {
    if argvlen.Some? then Some(argvlen.value[j]) else None
  }

  predicate AreArguments(argv: seq<string>, argvlen: Option<seq<nat>>, args: seq<string>)
    requires LengthsFit(argv, argvlen)
  {
    |args| == |argv| && forall j :: 0 <= j < |argv| ==> IsArgument(argv[j], LengthOf(argvlen, j), args[j])
  }

  /** The arguments meant by a vector with explicit lengths, or without them. */
  function Arguments(argv: seq<string>, argvlen: Option<seq<nat>>): (r: seq<string>)
    requires LengthsFit(argv, argvlen)
    ensures AreArguments(argv, argvlen, r)
  {
    seq(|argv|, j requires 0 <= j < |argv| =>
      if argvlen.Some? then argv[j][..argvlen.value[j]] else CString(argv[j]))
  }

  /** `redisFormatCommandArgv` */
  method FormatCommandArgv(argv: seq<string>, argvlen: Option<seq<nat>>)
    returns (cmd: array<char>, totlen: nat, ghost sent: seq<string>)
    requires LengthsFit(argv, argvlen)
    ensures AreArguments(argv, argvlen, sent) && fresh(cmd) && cmd.Length == totlen + 1
    ensures cmd[..totlen] == RequestText(sent) && cmd[totlen] == '\0'
  {
    hide RequestText, EncodeCommand;
    var args := Arguments(argv, argvlen);
    sent := args;
    CommandBytes(args);
    totlen := TotalLength(args);
    cmd := WriteCommand(args, totlen);
  }

  // sdscatfmt with one number between two fixed texts.
  method CatNumber(s: string, before: string, n: nat) returns (r: string)
    requires n <= ULLONG_MAX
    ensures r == s + before + Digits(n) + CRLF
  {
    var buf := new char[LLSTR_SIZE];
    var l := Sdsull2str(buf, n);
    r := s + before + buf[..l] + CRLF;
  }

  /** `redisFormatSdsCommandArgv`: the same bytes, by appending. */
  method FormatSdsCommandArgv(argv: seq<string>, argvlen: Option<seq<nat>>)
    returns (cmd: string, totlen: nat, ghost sent: seq<string>)
    requires LengthsFit(argv, argvlen) && Sized(argv)
    ensures AreArguments(argv, argvlen, sent) && cmd == RequestText(sent) && totlen == |cmd|
  {
    var args := Arguments(argv, argvlen);
    sent := args;
    CommandBytes(args);
    totlen := TotalLength(args);
    PrefixEnds(args);
    cmd := CatNumber("", "*", |args|);
    assert "" + "*" == "*";
    for j := 0 to |args|
      invariant cmd == CommandPrefix(args, j)
    {
      PrefixStep(args, j);
      cmd := CatArg(cmd, args[j]);
    }
  }

  method CatArg(cmd: string, arg: string) returns (r: string)
    requires |arg| <= LLONG_MAX
    ensures r == cmd + EncodeArg(arg)
  {
    r := CatNumber(cmd, "$", |arg|);
    r := r + arg;
    r := r + CRLF;
    assert r == cmd + EncodeArg(arg);
  }

  // ----- Printf-like formats

  /** One variadic argument. How the C library renders a number is taken as given. */
  datatype FormatArg = CStr(text: string) | Binary(text: string) | Number(rendered: string)

  /** The argument vector that a format denotes; `Mismatch` when the arguments do not fit it. */
  datatype Words = Words(argv: seq<string>) | BadFormat | Mismatch

  function Cons(word: string, w: Words): Words { if w.Words? then Words([word] + w.argv) else w }

  const FLAGS: string := "#0-+ "
  const DIGITS: string := "0123456789"
  const INTEGER_FORMATS: string := "diouxX"
  const DOUBLE_FORMATS: string := "eEfFgGaA"
  const FORMAT_BUF: nat := 16

  function Span(c: string, i: nat, chars: string): (r: nat)
    requires i <= |c|
    ensures i <= r <= |c|
    decreases |c| - i
  {
    if i < |c| && c[i] in chars then Span(c, i + 1, chars) else i
  }

  function IntegerAt(c: string, i: nat): Option<nat>
  {
    if i < |c| && c[i] in INTEGER_FORMATS then Some(i) else None
  }

  /** The index of the conversion character of the printf conversion that starts `c`. */
  function Conversion(c: string): (r: Option<nat>)
    requires c != []
    ensures r.Some? ==> 0 < r.value < |c|
  {
    var p := Span(c, Span(c, 1, FLAGS), DIGITS);
    LetterAt(c, if p < |c| && c[p] == '.' then Span(c, p + 1, DIGITS) else p)
  }

  /** The conversion character behind the size, if any, that stands at `q`. */
  function LetterAt(c: string, q: nat): (r: Option<nat>)
    requires q <= |c|
    ensures r.Some? ==> q <= r.value < |c|
  {
    if q == |c| then None
    else if c[q] in INTEGER_FORMATS || c[q] in DOUBLE_FORMATS then Some(q)
    else if c[q] == 'h' || c[q] == 'l' then
      if q + 1 < |c| && c[q + 1] == c[q] then IntegerAt(c, q + 2) else IntegerAt(c, q + 1)
    else None
  }

  /** Reads the rest `c` of a format with the current word `cur`. */
  function Interpret(c: string, args: seq<FormatArg>, cur: string, touched: bool): Words
    decreases |c|
  {
    if c == "" then Words(if touched then [cur] else [])
    else if c[0] != '%' || |c| == 1 then
      if c[0] != ' ' then Interpret(c[1..], args, cur + [c[0]], true)
      else if touched then Cons(cur, Interpret(c[1..], args, "", false))
      else Interpret(c[1..], args, cur, false)
    else if c[1] == '%' then Interpret(c[2..], args, cur + "%", true)
    else if c[1] == 's' then
      if args == [] || !args[0].CStr? then Mismatch
      else Interpret(c[2..], args[1..], cur + CString(args[0].text), true)
    else if c[1] == 'b' then
      if args == [] || !args[0].Binary? then Mismatch
      else Interpret(c[2..], args[1..], cur + args[0].text, true)
    else
      match Conversion(c)
      case None => BadFormat
      case Some(q) =>
        if args == [] || !args[0].Number? then Mismatch
        // A conversion that does not fit the local format buffer loses its value and its two first characters.
        else if q + 1 < FORMAT_BUF - 2 then Interpret(c[q + 1..], args[1..], cur + args[0].rendered, true)
        else Interpret(c[2..], args[1..], cur, true)
  }

  method SkipOver(c: string, i: nat, chars: string) returns (r: nat)
    requires i <= |c|
    ensures r == Span(c, i, chars)
  {
    r := i;
    while r < |c| && c[r] in chars
      invariant i <= r <= |c| && Span(c, i, chars) == Span(c, r, chars)
    {
      r := r + 1;
    }
  }

  method ScanConversion(c: string) returns (r: Option<nat>)
    requires c != []
    ensures r == Conversion(c)
  {
    var p := SkipOver(c, 1, FLAGS);
    p := SkipOver(c, p, DIGITS);
    if p < |c| && c[p] == '.' {
      p := SkipOver(c, p + 1, DIGITS);
    }
    if p == |c| {
      return None;
    }
    if c[p] in INTEGER_FORMATS || c[p] in DOUBLE_FORMATS {
      return Some(p);
    }
    if c[p] == 'h' || c[p] == 'l' {
      if p + 1 < |c| && c[p + 1] == c[p] {
        return IntegerAt(c, p + 2);
      }
      return IntegerAt(c, p + 1);
    }
    return None;
  }

  function PrependAll(done: seq<string>, w: Words): Words { if w.Words? then Words(done + w.argv) else w }

  /** The loop of `redisvFormatCommand` over the format. */
  method SplitFormat(format: string, args: seq<FormatArg>) returns (r: Option<seq<string>>)
    requires Interpret(format, args, "", false) != Mismatch
    ensures var words := Interpret(format, args, "", false);
            r == if words.Words? then Some(words.argv) else None
  {
    var c, rest, curarg, touched := format, args, "", false;
    var curargv: seq<string> := [];
    ghost var goal := Interpret(format, args, "", false);
    assert PrependAll([], goal) == goal;
    while c != ""
      invariant goal == PrependAll(curargv, Interpret(c, rest, curarg, touched))
      decreases |c|
    {
      if c[0] != '%' || |c| == 1 {
        if c[0] == ' ' {
          if touched {
            ghost var w := Interpret(c[1..], rest, "", false);
            assert w.Words? ==> curargv + ([curarg] + w.argv) == curargv + [curarg] + w.argv;
            curargv, curarg, touched := curargv + [curarg], "", false;
          }
        } else {
          curarg, touched := curarg + [c[0]], true;
        }
        c := c[1..];
      } else if c[1] == 's' {
        var size := CString(rest[0].text);
        curarg, rest, touched, c := curarg + size, rest[1..], true, c[2..];
      } else if c[1] == 'b' {
        curarg, rest, touched, c := curarg + rest[0].text, rest[1..], true, c[2..];
      } else if c[1] == '%' {
        curarg, touched, c := curarg + "%", true, c[2..];
      } else {
        var q := ScanConversion(c);
        if q.None? {
          return None;
        }
        if q.value + 1 < FORMAT_BUF - 2 {
          curarg, c := curarg + rest[0].rendered, c[q.value + 1..];
        } else {
          c := c[2..];
        }
        rest, touched := rest[1..], true;
      }
    }
    assert curargv + [] == curargv;
    if touched {
      curargv := curargv + [curarg];
    }
    return Some(curargv);
  }

  /** `redisvFormatCommand`: the command, or nothing for an invalid format. */
  method FormatCommand(format: string, args: seq<FormatArg>) returns (cmd: array?<char>, totlen: int)
    requires Interpret(format, args, "", false) != Mismatch
    ensures Interpret(format, args, "", false).BadFormat? ==> cmd == null && totlen == -2
    ensures Interpret(format, args, "", false).Words? ==>
              var bytes := RequestText(Interpret(format, args, "", false).argv);
              cmd != null && totlen == |bytes| && cmd.Length == totlen + 1 &&
              cmd[..totlen] == bytes && cmd[totlen] == '\0'
  {
    var argv := SplitFormat(format, args);
    if argv.None? {
      return null, -2;
    }
    CommandBytes(argv.value);
    totlen := TotalLength(argv.value);
    cmd := WriteCommand(argv.value, totlen);
  }

  // ----- What a conversion is

  /** The parts of a printf conversion of a number. */
  datatype Spec = Spec(flags: string, width: string, precision: Option<string>, size: string, conversion: char)

  predicate AllOf(s: string, chars: string) { forall c <- s :: c in chars }

  predicate SpecOk(p: Spec)
  {
    AllOf(p.flags, "#0-+ ") && AllOf(p.width, "0123456789") && (p.width != "" ==> p.width[0] != '0') &&
    (p.precision.Some? ==> AllOf(p.precision.value, "0123456789")) && Ends(p.size, p.conversion)
  }

  /** A size goes with the conversions of integers only. */
  predicate Ends(size: string, conversion: char)
  {
    if size == "" then conversion in "diouxXeEfFgGaA" else size in {"h", "hh", "l", "ll"} && conversion in "diouxX"
  }

  lemma LetterFound(c: string, q: nat, r: nat)
    requires q <= r < |c| && Ends(c[q..r], c[r])
    ensures LetterAt(c, q) == Some(r)
  {
    var size := c[q..r];
    assert forall i :: 0 <= i < |size| ==> c[q + i] == size[i];
    if size == "" {
      assert c[q] in INTEGER_FORMATS || c[q] in DOUBLE_FORMATS;
    } else {
      NotBoth(size[0]);
      NoFlags(c[r]);
      assert |size| == 1 || size[1] == size[0];
    }
  }

  lemma LetterIs(c: string, q: nat)
    requires q <= |c| && LetterAt(c, q).Some?
    ensures var r := LetterAt(c, q).value; Ends(c[q..r], c[r])
  {
    var r := LetterAt(c, q).value;
    assert r == q ==> c[q..r] == "";
    assert r == q + 1 ==> c[q..r] == [c[q]];
    assert r == q + 2 ==> c[q..r] == [c[q], c[q + 1]];
  }

  function SpecText(p: Spec): string
  {
    "%" + p.flags + p.width + (if p.precision.Some? then "." + p.precision.value else "") + p.size + [p.conversion]
  }

  lemma {:induction false} SpanIs(c: string, i: nat, j: nat, chars: string)
    requires i <= j <= |c| && (forall k :: i <= k < j ==> c[k] in chars) && (j < |c| ==> c[j] !in chars)
    ensures Span(c, i, chars) == j
    decreases j - i
  {
    if i < j {
      SpanIs(c, i + 1, j, chars);
    }
  }

  lemma {:induction false} SpanStops(c: string, i: nat, chars: string)
    requires i <= |c|
    ensures var j := Span(c, i, chars); (forall k :: i <= k < j ==> c[k] in chars) && (j < |c| ==> c[j] !in chars)
    decreases |c| - i
  {
    if i < |c| && c[i] in chars {
      SpanStops(c, i + 1, chars);
    }
  }

  /** No letter of a conversion or a size is a flag, a digit or a dot, and no digit but zero is a flag. */
  lemma NoFlags(c: char)
    requires c in "diouxXeEfFgGaAhl." || '1' <= c <= '9'
    ensures c !in FLAGS && (c in DIGITS ==> '1' <= c <= '9') && (c in "diouxXeEfFgGaAhl" ==> c !in DIGITS && c != '.')
    ensures c in "diouxXeEfFgGaA" ==> c != 'h' && c != 'l'
  {
  }

  // Where the parts of a conversion end.
  function WidthAt(p: Spec): nat { 1 + |p.flags| }

  function PrecisionAt(p: Spec): nat { WidthAt(p) + |p.width| }

  function SizeAt(p: Spec): nat { PrecisionAt(p) + if p.precision.Some? then 1 + |p.precision.value| else 0 }

  lemma SpecParts(p: Spec, tail: string)
    ensures var c := SpecText(p) + tail;
            |SpecText(p)| == SizeAt(p) + |p.size| + 1 && c[0] == '%' &&
            c[1..WidthAt(p)] == p.flags && c[WidthAt(p)..PrecisionAt(p)] == p.width &&
            c[SizeAt(p)..SizeAt(p) + |p.size|] == p.size && c[SizeAt(p) + |p.size|] == p.conversion &&
            (p.precision.Some? ==> c[PrecisionAt(p)] == '.' && c[PrecisionAt(p) + 1..SizeAt(p)] == p.precision.value)
  {
  }

  lemma SpanOver(c: string, i: nat, j: nat, part: string, chars: string)
    requires i <= j < |c| && c[i..j] == part && AllOf(part, chars) && c[j] !in chars
    ensures Span(c, i, chars) == j
  {
    forall k | i <= k < j
      ensures c[k] in chars
    {
      assert part[k - i] == c[k];
    }
    SpanIs(c, i, j, chars);
  }

  // What comes after the parts of digits.
  lemma AfterDigits(p: Spec, tail: string)
    requires SpecOk(p)
    ensures var c := SpecText(p) + tail;
            c[SizeAt(p)] in "diouxXeEfFgGaAhl" && (c[SizeAt(p)] in "hl" <==> p.size != "") &&
            c[PrecisionAt(p)] in "diouxXeEfFgGaAhl." && (c[PrecisionAt(p)] == '.' <==> p.precision.Some?)
  {
    hide SpecText;
    SpecParts(p, tail);
    var c := SpecText(p) + tail;
    if p.size != "" {
      assert c[SizeAt(p)] == p.size[0];
    }
    NoFlags(c[SizeAt(p)]);
  }

  lemma SpecSpans(p: Spec, tail: string)
    requires SpecOk(p)
    ensures var c := SpecText(p) + tail;
            SizeAt(p) < |c| && Span(c, 1, FLAGS) == WidthAt(p) && Span(c, WidthAt(p), DIGITS) == PrecisionAt(p) &&
            (p.precision.Some? ==> Span(c, PrecisionAt(p) + 1, DIGITS) == SizeAt(p))
  {
    hide Span, SpecText;
    var c := SpecText(p) + tail;
    SpecParts(p, tail);
    AfterDigits(p, tail);
    NoFlags(c[PrecisionAt(p)]);
    NoFlags(c[SizeAt(p)]);
    if p.width != "" {
      assert c[WidthAt(p)] == p.width[0];
      assert p.width[0] in p.width;
    }
    NoFlags(c[WidthAt(p)]);
    SpanOver(c, 1, WidthAt(p), p.flags, FLAGS);
    SpanOver(c, WidthAt(p), PrecisionAt(p), p.width, DIGITS);
    if p.precision.Some? {
      SpanOver(c, PrecisionAt(p) + 1, SizeAt(p), p.precision.value, DIGITS);
    }
  }

  lemma SpecIsConversion(p: Spec, tail: string)
    requires SpecOk(p)
    ensures Conversion(SpecText(p) + tail) == Some(|SpecText(p)| - 1)
  {
    hide Span, SpecText, AllOf, LetterAt, Ends;
    SpecParts(p, tail);
    AfterDigits(p, tail);
    SpecSpans(p, tail);
    LetterFound(SpecText(p) + tail, SizeAt(p), SizeAt(p) + |p.size|);
  }

  lemma NotBoth(c: char)
    requires c in "hl"
    ensures c !in INTEGER_FORMATS && c !in DOUBLE_FORMATS && (c == 'h' || c == 'l')
  {
  }

  lemma SpanAll(c: string, i: nat, chars: string)
    requires i <= |c|
    ensures AllOf(c[i..Span(c, i, chars)], chars)
  {
    SpanStops(c, i, chars);
  }

  /** The conversion at the start of a text that has one. */
  lemma ConversionIsSpec(c: string) returns (p: Spec)
    requires c != [] && c[0] == '%' && Conversion(c).Some?
    ensures SpecOk(p) && SpecText(p) == c[..Conversion(c).value + 1]
  {
    hide Span, AllOf, SpecText, LetterAt, Ends;
    var q := Conversion(c).value;
    var a := Span(c, 1, FLAGS);
    var b := Span(c, a, DIGITS);
    var dot := b < |c| && c[b] == '.';
    var e := if dot then Span(c, b + 1, DIGITS) else b;
    assert LetterAt(c, e) == Some(q);
    hide Conversion;
    LetterIs(c, e);
    p := Spec(c[1..a], c[a..b], if dot then Some(c[b + 1..e]) else None, c[e..q], c[q]);
    SpansOk(c, a, b);
    if dot {
      SpanAll(c, b + 1, DIGITS);
    }
    assert SpecOk(p);
    hide SpecOk;
    SpecJoins(p, c, q);
  }

  lemma SpansOk(c: string, a: nat, b: nat)
    requires c != [] && a == Span(c, 1, FLAGS) && b == Span(c, a, DIGITS)
    ensures AllOf(c[1..a], "#0-+ ") && AllOf(c[a..b], "0123456789") && (a < b ==> c[a..b][0] != '0')
  {
    hide Span;
    SpanAll(c, 1, FLAGS);
    SpanAll(c, a, DIGITS);
    SpanStops(c, 1, FLAGS);
  }

  lemma SpecJoins(p: Spec, c: string, q: nat)
    requires c != [] && c[0] == '%' && q < |c| && q == SizeAt(p) + |p.size|
    requires c[1..WidthAt(p)] == p.flags && c[WidthAt(p)..PrecisionAt(p)] == p.width
    requires c[SizeAt(p)..q] == p.size && c[q] == p.conversion
    requires p.precision.Some? ==> c[PrecisionAt(p)] == '.' && c[PrecisionAt(p) + 1..SizeAt(p)] == p.precision.value
    ensures SpecText(p) == c[..q + 1]
  {
    var w, d, e := WidthAt(p), PrecisionAt(p), SizeAt(p);
    assert "%" == c[..1];
    Slices(c, 1, w);
    Slices(c, w, d);
    Slices(c, d, e);
    Slices(c, e, q);
    Slices(c, q, q + 1);
    assert c[q..q + 1] == [c[q]];
    assert p.precision.Some? ==> c[d..e] == "." + p.precision.value;
    assert p.precision.None? ==> c[d..e] == "";
  }

  lemma Slices(c: string, i: nat, j: nat)
    requires i <= j <= |c|
    ensures c[..i] + c[i..j] == c[..j]
  {
  }

  /** A conversion is found if and only if the text starts with one, and it is that one. */
  lemma ConversionIff(c: string)
    requires c != [] && c[0] == '%'
    ensures Conversion(c).Some? <==> exists p, tail :: SpecOk(p) && c == SpecText(p) + tail
  {
    hide SpecOk, SpecText;
    if Conversion(c).Some? {
      var p := ConversionIsSpec(c);
      assert c == SpecText(p) + c[Conversion(c).value + 1..];
    }
    forall p, tail | SpecOk(p) && c == SpecText(p) + tail
      ensures Conversion(c).Some?
    {
      SpecIsConversion(p, tail);
    }
  }

  // ----- What a format means

  /** A piece of a word: a character of the format itself, or a place for a text, for bytes or for a number. */
  datatype Piece = Literal(c: char) | Percent | Place(arg: FormatArg) | Numeral(spec: Spec, rendered: string)

  type Word = seq<Piece>

  predicate PieceOk(p: Piece)
  {
    match p
    case Literal(c) => c != ' ' && c != '%'
    case Percent => true
    case Place(a) => !a.Number?
    case Numeral(spec, _) => SpecOk(spec) && |SpecText(spec)| < 14
  }

  predicate WordOk(w: Word) { forall i :: 0 <= i < |w| ==> PieceOk(w[i]) }

  function PieceFormat(p: Piece): string
  {
    match p
    case Literal(c) => [c]
    case Percent => "%%"
    case Place(a) => if a.CStr? then "%s" else "%b"
    case Numeral(spec, _) => SpecText(spec)
  }

  function PieceArgs(p: Piece): seq<FormatArg>
  {
    if p.Place? then [p.arg] else if p.Numeral? then [Number(p.rendered)] else []
  }

  function PieceValue(p: Piece): string
  {
    match p
    case Literal(c) => [c]
    case Percent => "%"
    case Place(a) => if a.CStr? then CString(a.text) else if a.Binary? then a.text else a.rendered
    case Numeral(_, rendered) => rendered
  }

  function WordFormat(w: Word): string { if w == [] then "" else PieceFormat(w[0]) + WordFormat(w[1..]) }

  function WordValue(w: Word): string { if w == [] then "" else PieceValue(w[0]) + WordValue(w[1..]) }

  function WordArgs(w: Word): seq<FormatArg>
  {
    if w == [] then [] else PieceArgs(w[0]) + WordArgs(w[1..])
  }

  /** Words separated by single spaces; an empty word makes for a run of spaces. */
  function FormatOf(ws: seq<Word>): string
  {
    if ws == [] then "" else if |ws| == 1 then WordFormat(ws[0]) else WordFormat(ws[0]) + " " + FormatOf(ws[1..])
  }

  function ArgsOf(ws: seq<Word>): seq<FormatArg>
  {
    if ws == [] then [] else WordArgs(ws[0]) + ArgsOf(ws[1..])
  }

  /** Every non-empty word is one argument, with its places filled in. */
  function Values(ws: seq<Word>): seq<string>
  {
    if ws == [] then [] else (if ws[0] == [] then [] else [WordValue(ws[0])]) + Values(ws[1..])
  }

  lemma FirstPiece(w: Word, c: string, args: seq<FormatArg>, cur: string)
    requires w != []
    ensures WordFormat(w) + c == PieceFormat(w[0]) + (WordFormat(w[1..]) + c)
    ensures WordArgs(w) + args == PieceArgs(w[0]) + (WordArgs(w[1..]) + args)
    ensures cur + WordValue(w) == cur + PieceValue(w[0]) + WordValue(w[1..])
  {
    hide PieceFormat, PieceValue, PieceArgs;
    Reassociate(PieceFormat(w[0]), WordFormat(w[1..]), c);
    Reassociate(cur, PieceValue(w[0]), WordValue(w[1..]));
    Reassociate(PieceArgs(w[0]), WordArgs(w[1..]), args);
  }

  lemma Reassociate<T>(a: seq<T>, b: seq<T>, c: seq<T>)
    ensures (a + b) + c == a + (b + c)
  {
  }

  lemma {:induction false} InterpretWord(w: Word, c: string, args: seq<FormatArg>, cur: string, touched: bool)
    requires WordOk(w) && (c == "" || c[0] == ' ')
    ensures Interpret(WordFormat(w) + c, WordArgs(w) + args, cur, touched) ==
            Interpret(c, args, cur + WordValue(w), touched || w != [])
    decreases |w|
  {
    if w == [] {
      assert WordFormat(w) + c == c && WordArgs(w) + args == args && cur + WordValue(w) == cur;
    } else {
      hide Interpret, PieceFormat, PieceValue, PieceOk, WordFormat, WordArgs, WordValue;
      var p, tail := w[0], WordFormat(w[1..]) + c;
      FirstPiece(w, c, args, cur);
      InterpretPiece(p, tail, WordArgs(w[1..]) + args, cur, touched);
      InterpretWord(w[1..], c, args, cur + PieceValue(p), true);
    }
  }

  lemma InterpretPiece(p: Piece, tail: string, args: seq<FormatArg>, cur: string, touched: bool)
    requires PieceOk(p)
    ensures Interpret(PieceFormat(p) + tail, PieceArgs(p) + args, cur, touched) ==
            Interpret(tail, args, cur + PieceValue(p), true)
  {
    var all := PieceFormat(p) + tail;
    if p.Literal? {
      assert all[1..] == tail && [] + args == args;
    } else if p.Percent? {
      assert all[2..] == tail && [] + args == args;
    } else if p.Place? {
      assert all[2..] == tail && ([p.arg] + args)[0] == p.arg && ([p.arg] + args)[1..] == args;
    } else {
      InterpretNumber(p.spec, tail, p.rendered, args, cur, touched);
    }
  }

  lemma SpecStarts(p: Spec, tail: string)
    requires SpecOk(p)
    ensures var c := SpecText(p) + tail; |c| > 1 && c[0] == '%' && c[1] != '%' && c[1] != 's' && c[1] != 'b'
  {
    if p.flags != "" {
      assert p.flags[0] in p.flags;
    } else if p.width != "" {
      assert p.width[0] in p.width;
    }
  }

  /** A number takes the place of its conversion. A conversion of more than thirteen characters loses the number,
      and all but its first two characters are read as the text that follows. */
  lemma InterpretNumber(p: Spec, tail: string, rendered: string, args: seq<FormatArg>, cur: string, touched: bool)
    requires SpecOk(p)
    ensures var c, all := SpecText(p) + tail, [Number(rendered)] + args;
            |c| > 1 &&
            Interpret(c, all, cur, touched) ==
            if |SpecText(p)| < 14 then Interpret(tail, args, cur + rendered, true)
            else Interpret(c[2..], args, cur, true)
  {
    hide Conversion, SpecOk, SpecText;
    var c, all := SpecText(p) + tail, [Number(rendered)] + args;
    SpecStarts(p, tail);
    SpecIsConversion(p, tail);
    assert c[|SpecText(p)|..] == tail && all[1..] == args;
  }

  /** Two percent signs stand for one. */
  lemma PercentStands(c: string, args: seq<FormatArg>, cur: string, touched: bool)
    ensures Interpret("%%" + c, args, cur, touched) == Interpret(c, args, cur + "%", true)
  {
    assert ("%%" + c)[2..] == c;
  }

  /** A percent sign that no conversion follows, and none of the places, makes the format invalid; at the very end
      it stands for itself. */
  lemma BadConversion(c: string, args: seq<FormatArg>, cur: string, touched: bool)
    requires |c| > 1 && c[0] == '%' && c[1] !in "%sb"
    ensures Interpret(c, args, cur, touched) == BadFormat <== !exists p, tail :: SpecOk(p) && c == SpecText(p) + tail
    ensures Interpret("%", args, cur, touched) == Words([cur + "%"])
  {
    hide Conversion, SpecOk, SpecText;
    ConversionIff(c);
    assert "%"[1..] == "";
  }

  /** The arguments of a command are the words of its format: nothing inside an argument, no space
      and no percent sign, ever splits it or is read as a conversion. */
  lemma {:induction false} InterpretWords(ws: seq<Word>)
    requires forall i :: 0 <= i < |ws| ==> WordOk(ws[i])
    ensures Interpret(FormatOf(ws), ArgsOf(ws), "", false) == Words(Values(ws))
    decreases |ws|
  {
    if ws != [] {
      hide Interpret;
      var w := ws[0];
      var c := if |ws| == 1 then "" else " " + FormatOf(ws[1..]);
      assert FormatOf(ws) == WordFormat(w) + c;
      InterpretWord(w, c, ArgsOf(ws[1..]), "", false);
      assert "" + WordValue(w) == WordValue(w);
      EndsOfWord(FormatOf(ws[1..]), ArgsOf(ws[1..]), WordValue(w));
      if |ws| == 1 {
        assert ws[1..] == [];
      } else {
        InterpretWords(ws[1..]);
      }
    }
  }

  lemma EndsOfWord(c: string, args: seq<FormatArg>, cur: string)
    ensures Interpret("", args, cur, true) == Words([cur])
    ensures Interpret(" " + c, args, cur, true) == Cons(cur, Interpret(c, args, "", false))
  {
    assert (" " + c)[1..] == c;
  }
}
