/**
 * The interruptible reader as a state machine over an explicit stack, and its two laws:
 * it computes the recursive grammar of `Resp`, and cutting the input anywhere changes nothing.
 */
module RespMachine {
  import opened Wrappers
  import opened Resp

  /** An aggregate under construction: `done` are the child slots already filled. */
  datatype Frame = Frame(tag: Tag, n: nat, done: seq<Reply>)

  /** `cur` is the type byte of the item being read, once it has been consumed. */
  datatype Machine = Machine(stack: seq<Frame>, cur: Option<Tag>, rest: string)

  const START := Machine([], None, "")

  predicate FrameOk(f: Frame) { IsAggregate(f.tag) && |f.done| < f.n }

  predicate Ok(m: Machine) { forall i :: 0 <= i < |m.stack| ==> FrameOk(m.stack[i]) }

  function Top(stack: seq<Frame>): Frame
    requires stack != []
  {
    stack[|stack| - 1]
  }

  function Pop(stack: seq<Frame>): seq<Frame>
    requires stack != []
  {
    stack[..|stack| - 1]
  }

  // ----- The machine

  datatype Closed = Emitted(v: Reply) | Slotted(stack: seq<Frame>)

  /** Stores `v` in the innermost open slot and closes every aggregate this completes. */
  function Close(stack: seq<Frame>, v: Reply): Closed
  {
    if stack == [] then Emitted(v)
    else
      var f := Top(stack);
      if |f.done| + 1 == f.n then Close(Pop(stack), Aggregate(f.tag, f.done + [v]))
      else Slotted(Pop(stack) + [f.(done := f.done + [v])])
  }

  datatype StepResult = Wait(m: Machine) | Fail | Go(m: Machine) | Emit(v: Reply, rest: string)

  function Resume(c: Closed, rest: string): StepResult
  {
    match c
    case Emitted(v) => Emit(v, rest)
    case Slotted(stack) => Go(Machine(stack, None, rest))
  }

  function StepBody(env: Env, stack: seq<Frame>, t: Tag, s: string): StepResult
  {
    match ScanItem(env, t, s)
    case More => Wait(Machine(stack, Some(t), s))
    case Bad => Fail
    case Leaf(v, used) => Resume(Close(stack, v), s[used..])
    case Open(tag, n, used) => Go(Machine(stack + [Frame(tag, n, [])], None, s[used..]))
  }

  /** One item. */
  function Step(env: Env, m: Machine): StepResult
  {
    if m.cur.Some? then StepBody(env, m.stack, m.cur.value, m.rest)
    else if m.rest == "" then Wait(m)
    else
      match TagOf(m.rest[0])
      case None => Fail
      case Some(t) => StepBody(env, m.stack, t, m.rest[1..])
  }

  lemma {:induction false} CloseOk(stack: seq<Frame>, v: Reply)
    requires Ok(Machine(stack, None, ""))
    ensures Close(stack, v).Slotted? ==> Ok(Machine(Close(stack, v).stack, None, ""))
    decreases |stack|
  {
    if stack != [] {
      var f := Top(stack);
      if |f.done| + 1 == f.n {
        CloseOk(Pop(stack), Aggregate(f.tag, f.done + [v]));
      }
    }
  }

  predicate Progresses(m: Machine, r: StepResult)
  {
    match r
    case Go(m') => Ok(m') && |m'.rest| < |m.rest|
    case Emit(_, rest) => |rest| < |m.rest|
    case Wait(m') => Ok(m') && m'.stack == m.stack && |m'.rest| <= |m.rest|
    case Fail => true
  }

  /** Steps keep the stack well formed, and each successful item consumes at least one byte. */
  lemma StepProgress(env: Env, m: Machine)
    requires Ok(m)
    ensures Progresses(m, Step(env, m))
  {
    forall v: Reply
      ensures Close(m.stack, v).Slotted? ==> Ok(Machine(Close(m.stack, v).stack, None, ""))
    {
      CloseOk(m.stack, v);
    }
  }

  datatype Polled = Waiting(m: Machine) | Failed | Got(v: Reply, rest: string)

  /** Items are processed until a reply is complete, the input runs out or it is malformed. */
  function Poll(env: Env, m: Machine): (r: Polled)
    requires Ok(m)
    ensures r.Waiting? ==> Ok(r.m)
    ensures r.Got? ==> |r.rest| < |m.rest|
    decreases |m.rest|
  {
    StepProgress(env, m);
    match Step(env, m)
    case Wait(m') => Waiting(m')
    case Fail => Failed
    case Emit(v, rest) => Got(v, rest)
    case Go(m') => Poll(env, m')
  }

  datatype Drained = Drained(replies: seq<Reply>, next: Option<Machine>)

  /** Polls until nothing more can be delivered; `next` is missing after a protocol error. */
  function Drain(env: Env, m: Machine): (r: Drained)
    requires Ok(m)
    ensures r.next.Some? ==> Ok(r.next.value)
    decreases |m.rest|
  {
    match Poll(env, m)
    case Waiting(m') => Drained([], Some(m'))
    case Failed => Drained([], None)
    case Got(v, rest) =>
      var d := Drain(env, Machine([], None, rest));
      Drained([v] + d.replies, d.next)
  }

  function Feed(m: Machine, chunk: string): Machine { m.(rest := m.rest + chunk) }

  /** Feeds the chunks one after the other and drains after each. A failed reader stays failed. */
  function Session(env: Env, m: Machine, chunks: seq<string>): Stream
    requires Ok(m)
    decreases |chunks|
  {
    if chunks == [] then Stream([], false)
    else
      var d := Drain(env, Feed(m, chunks[0]));
      match d.next
      case None => Stream(d.replies, true)
      case Some(m') => Prepend(d.replies, Session(env, m', chunks[1..]))
  }

  function Flatten(chunks: seq<string>): string
  {
    if chunks == [] then "" else chunks[0] + Flatten(chunks[1..])
  }

  // ----- What a machine state means, in terms of the grammar

  /** Finishes the open aggregates, innermost first, by the recursive grammar. */
  function Unwind(env: Env, stack: seq<Frame>, r: Outcome<Reply>): Outcome<Reply>
    requires Ok(Machine(stack, None, ""))
    decreases |stack|
  {
    if stack == [] || !r.Done? then r
    else
      var f := Top(stack);
      match ParseMany(env, f.n - |f.done| - 1, r.rest)
      case Incomplete => Incomplete
      case Invalid => Invalid
      case Done(vs, rest) => Unwind(env, Pop(stack), Done(Aggregate(f.tag, f.done + [r.value] + vs), rest))
  }

  /** Completes an aggregate whose first slots hold `done` with the replies read by `r`. */
  function Finish(env: Env, stack: seq<Frame>, tag: Tag, done: seq<Reply>, r: Outcome<seq<Reply>>): Outcome<Reply>
    requires Ok(Machine(stack, None, ""))
  {
    match r
    case Incomplete => Incomplete
    case Invalid => Invalid
    case Done(vs, rest) => Unwind(env, stack, Done(Aggregate(tag, done + vs), rest))
  }

  function Meaning(env: Env, m: Machine): Outcome<Reply>
    requires Ok(m)
  {
    Unwind(env, m.stack, if m.cur.None? then Parse(env, m.rest) else ParseBody(env, m.cur.value, m.rest))
  }

  /** A step result `r` is faithful to `whole`, the meaning of the state with all input to come. */
  predicate Faithful(env: Env, whole: Outcome<Reply>, r: StepResult, future: string)
  {
    match r
    case Wait(m') => Ok(m') && whole == Meaning(env, Feed(m', future)) && Meaning(env, m') == Incomplete
    case Fail => whole == Invalid
    case Go(m') => Ok(m') && whole == Meaning(env, Feed(m', future))
    case Emit(v, rest) => whole == Done(v, rest + future)
  }

  predicate PollFaithful(env: Env, whole: Outcome<Reply>, r: Polled, future: string)
  {
    match r
    case Waiting(m') => Ok(m') && whole == Meaning(env, Feed(m', future)) && Meaning(env, m') == Incomplete
    case Failed => whole == Invalid
    case Got(v, rest) => whole == Done(v, rest + future)
  }

  predicate CloseFaithful(env: Env, whole: Outcome<Reply>, c: Closed, rest: string)
  {
    match c
    case Emitted(w) => whole == Done(w, rest)
    case Slotted(stack') =>
      Ok(Machine(stack', None, "")) && whole == Unwind(env, stack', Parse(env, rest))
  }

  lemma NothingMore(env: Env, s: string)
    ensures ParseMany(env, 0, s) == Done([], s)
  {
  }

  // Filling a slot and going on reading is finishing the stack around that value.
  lemma {:induction false} CloseMeaning(env: Env, stack: seq<Frame>, v: Reply, rest: string)
    requires Ok(Machine(stack, None, ""))
    ensures CloseFaithful(env, Unwind(env, stack, Done(v, rest)), Close(stack, v), rest)
    decreases |stack|
  {
    hide ParseMany;
    CloseOk(stack, v);
    if stack != [] {
      var f := Top(stack);
      if |f.done| + 1 == f.n {
        var w := Aggregate(f.tag, f.done + [v]);
        assert f.done + [v] + [] == f.done + [v];
        NothingMore(env, rest);
        CloseMeaning(env, Pop(stack), w, rest);
      } else {
        FinishMeaning(env, Pop(stack), f.tag, f.done + [v], f.n - |f.done| - 1, rest);
      }
    }
  }

  /** Puts a reply in front of the others of its aggregate. */
  function Ahead(v: Reply, r: Outcome<seq<Reply>>): Outcome<seq<Reply>>
  {
    if r.Done? then Done([v] + r.value, r.rest) else r
  }

  /** Carries an outcome that is not a value over to another type. */
  function Undone<T, U>(r: Outcome<T>): Outcome<U>
    requires !r.Done?
  {
    if r.Incomplete? then Incomplete else Invalid
  }

  lemma FirstOfMany(env: Env, n: nat, s: string)
    requires n > 0
    ensures var first := Parse(env, s);
            ParseMany(env, n, s) ==
            if first.Done? then Ahead(first.value, ParseMany(env, n - 1, first.rest)) else Undone(first)
  {
    hide Parse;
  }

  lemma UnwindTop(env: Env, stack: seq<Frame>, f: Frame, r: Outcome<Reply>)
    requires Ok(Machine(stack, None, "")) && FrameOk(f)
    ensures Ok(Machine(stack + [f], None, ""))
    ensures Unwind(env, stack + [f], r) ==
            if !r.Done? then r
            else Finish(env, stack, f.tag, f.done + [r.value], ParseMany(env, f.n - |f.done| - 1, r.rest))
  {
    hide ParseMany;
    assert Pop(stack + [f]) == stack && Top(stack + [f]) == f;
  }

  // Completing an aggregate with n > 0 further replies is reading one with its frame on the stack.
  lemma FinishMeaning(env: Env, stack: seq<Frame>, tag: Tag, done: seq<Reply>, n: nat, s: string)
    requires Ok(Machine(stack, None, "")) && IsAggregate(tag) && n > 0
    ensures var stack' := stack + [Frame(tag, |done| + n, done)];
            Ok(Machine(stack', None, "")) &&
            Finish(env, stack, tag, done, ParseMany(env, n, s)) == Unwind(env, stack', Parse(env, s))
  {
    hide Parse, ParseMany, Unwind;
    var first := Parse(env, s);
    FirstOfMany(env, n, s);
    UnwindTop(env, stack, Frame(tag, |done| + n, done), first);
    if first.Done? {
      var more := ParseMany(env, n - 1, first.rest);
      if more.Done? {
        assert done + ([first.value] + more.value) == done + [first.value] + more.value;
      }
    }
  }

  // Opening an aggregate with n > 0 elements is reading n replies.
  lemma OpenMeaning(env: Env, stack: seq<Frame>, tag: Tag, n: nat, s: string)
    requires Ok(Machine(stack, None, "")) && IsAggregate(tag) && n > 0
    ensures var m := Machine(stack + [Frame(tag, n, [])], None, s);
            Ok(m) && Unwind(env, stack, Wrap(tag, ParseMany(env, n, s))) == Meaning(env, m)
  {
    FinishMeaning(env, stack, tag, [], n, s);
    var r := ParseMany(env, n, s);
    if r.Done? {
      assert [] + r.value == r.value;
    }
  }

  lemma UnwindUndecided(env: Env, stack: seq<Frame>, r: Outcome<Reply>)
    requires Ok(Machine(stack, None, "")) && !r.Done?
    ensures Unwind(env, stack, r) == r
  {
  }

  lemma LeafMeaning(env: Env, stack: seq<Frame>, v: Reply, rest: string, future: string)
    requires Ok(Machine(stack, None, ""))
    ensures Faithful(env, Unwind(env, stack, Done(v, rest + future)), Resume(Close(stack, v), rest), future)
  {
    hide Parse, Unwind, Close;
    CloseMeaning(env, stack, v, rest + future);
  }

  lemma StepBodyMeaning(env: Env, stack: seq<Frame>, t: Tag, s: string, future: string)
    requires Ok(Machine(stack, None, ""))
    ensures Faithful(env, Unwind(env, stack, ParseBody(env, t, s + future)), StepBody(env, stack, t, s), future)
  {
    hide ScanItem, Parse, ParseMany, Close, Resume, Unwind;
    var r := ScanItem(env, t, s);
    if !r.More? {
      ScanStable(env, t, s, future);
    }
    match r
    case More => UnwindUndecided(env, stack, Incomplete);
    case Bad => UnwindUndecided(env, stack, Invalid);
    case Leaf(v, used) =>
      assert (s + future)[used..] == s[used..] + future;
      LeafMeaning(env, stack, v, s[used..], future);
    case Open(tag, n, used) =>
      assert (s + future)[used..] == s[used..] + future;
      OpenMeaning(env, stack, tag, n, s[used..] + future);
  }

  /** No step changes what the state means, whatever input arrives later; and a machine waits
      only when the input read so far decides nothing. */
  lemma StepMeaning(env: Env, m: Machine, future: string)
    requires Ok(m)
    ensures Faithful(env, Meaning(env, Feed(m, future)), Step(env, m), future)
  {
    if m.cur.Some? {
      StepBodyMeaning(env, m.stack, m.cur.value, m.rest, future);
    } else if m.rest != "" {
      assert (m.rest + future)[0] == m.rest[0] && (m.rest + future)[1..] == m.rest[1..] + future;
      if TagOf(m.rest[0]).Some? {
        StepBodyMeaning(env, m.stack, TagOf(m.rest[0]).value, m.rest[1..], future);
      }
    }
  }

  /** Polling decides exactly what the grammar decides. */
  lemma {:induction false} PollMeaning(env: Env, m: Machine, future: string)
    requires Ok(m)
    ensures PollFaithful(env, Meaning(env, Feed(m, future)), Poll(env, m), future)
    decreases |m.rest|
  {
    StepProgress(env, m);
    StepMeaning(env, m, future);
    var r := Step(env, m);
    if r.Go? {
      PollMeaning(env, r.m, future);
    }
  }

  /** The stack reader refines the recursive grammar: on a fresh reader, a poll delivers the
      reply that `Parse` reads, fails where `Parse` rejects, and waits where `Parse` needs more. */
  lemma PollRefinesParse(env: Env, s: string)
    ensures Parse(env, s).Done? ==> Poll(env, Machine([], None, s)) == Got(Parse(env, s).value, Parse(env, s).rest)
    ensures Parse(env, s).Invalid? ==> Poll(env, Machine([], None, s)) == Failed
    ensures Parse(env, s).Incomplete? ==> Poll(env, Machine([], None, s)).Waiting?
  {
    var m := Machine([], None, s);
    PollMeaning(env, m, "");
    assert Feed(m, "") == m;
    match Poll(env, m)
    case Waiting(m') => assert Feed(m', "") == m';
    case Failed =>
    case Got(v, rest) => assert rest + "" == rest;
  }

  // ----- Chunking

  /** The replies still to come from state `m` when `future` is all that will arrive. */
  function Outlook(env: Env, m: Machine, future: string): Stream
    requires Ok(m)
  {
    match Meaning(env, Feed(m, future))
    case Incomplete => Stream([], false)
    case Invalid => Stream([], true)
    case Done(v, rest) => Prepend([v], Replies(env, rest))
  }

  /** The replies of a drain, followed by those still to come after it. */
  function DrainedOutlook(env: Env, d: Drained, future: string): Stream
    requires d.next.Some? ==> Ok(d.next.value)
  {
    match d.next
    case None => Stream(d.replies, true)
    case Some(m') => Prepend(d.replies, Outlook(env, m', future))
  }

  lemma FreshOutlook(env: Env, s: string, future: string)
    ensures Outlook(env, Machine([], None, s), future) == Replies(env, s + future)
  {
  }

  /** A drain delivers a prefix of the replies to come and leaves the others to come. */
  lemma {:induction false} DrainOutlook(env: Env, m: Machine, future: string)
    requires Ok(m)
    ensures Outlook(env, m, future) == DrainedOutlook(env, Drain(env, m), future)
    ensures Drain(env, m).next.Some? ==> Meaning(env, Drain(env, m).next.value) == Incomplete
    decreases |m.rest|
  {
    PollMeaning(env, m, future);
    match Poll(env, m)
    case Waiting(m') =>
      assert Prepend([], Outlook(env, m', future)) == Outlook(env, m', future);
    case Failed =>
    case Got(v, rest) =>
      DrainOutlook(env, Machine([], None, rest), future);
      FreshOutlook(env, rest, future);
      PrependDrained(env, v, Drain(env, Machine([], None, rest)), future);
  }

  lemma PrependDrained(env: Env, v: Reply, d: Drained, future: string)
    requires d.next.Some? ==> Ok(d.next.value)
    ensures Prepend([v], DrainedOutlook(env, d, future)) ==
            DrainedOutlook(env, Drained([v] + d.replies, d.next), future)
  {
    if d.next.Some? {
      var o := Outlook(env, d.next.value, future);
      assert [v] + (d.replies + o.replies) == [v] + d.replies + o.replies;
    }
  }

  lemma {:induction false} SessionOutlook(env: Env, m: Machine, chunks: seq<string>)
    requires Ok(m) && Meaning(env, m) == Incomplete
    ensures Session(env, m, chunks) == Outlook(env, m, Flatten(chunks))
    decreases |chunks|
  {
    if chunks == [] {
      assert Feed(m, "") == m;
    } else {
      var m1, later := Feed(m, chunks[0]), Flatten(chunks[1..]);
      assert m.rest + chunks[0] + later == m.rest + (chunks[0] + later);
      DrainOutlook(env, m1, later);
      var d := Drain(env, m1);
      if d.next.Some? {
        SessionOutlook(env, d.next.value, chunks[1..]);
      }
    }
  }

  /** Chunking independence: however the bytes are cut, the delivered replies and the final
      verdict are those of the whole stream. */
  lemma ChunkingIndependence(env: Env, chunks: seq<string>)
    ensures Session(env, START, chunks) == Replies(env, Flatten(chunks))
  {
    SessionOutlook(env, START, chunks);
    FreshOutlook(env, "", Flatten(chunks));
    assert "" + Flatten(chunks) == Flatten(chunks);
  }

  lemma SameBytesSameReplies(env: Env, chunks: seq<string>, chunks': seq<string>)
    requires Flatten(chunks) == Flatten(chunks')
    ensures Session(env, START, chunks) == Session(env, START, chunks')
  {
    ChunkingIndependence(env, chunks);
    ChunkingIndependence(env, chunks');
  }

  /** Printed replies are delivered exactly, in order and without an error, however they are cut. */
  lemma SessionDelivers(env: Env, vs: seq<Reply>, chunks: seq<string>)
    requires forall i :: 0 <= i < |vs| ==> WellFormed(env, vs[i])
    requires Flatten(chunks) == EncodeAll(vs)
    ensures Session(env, START, chunks) == Stream(vs, false)
  {
    ChunkingIndependence(env, chunks);
    RepliesEncode(env, vs);
  }
}
