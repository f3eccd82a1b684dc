/**
 * `redisReader` of `read.c` with the default reply constructors of `hiredis.c`: a buffer with a
 * cursor, a growable stack of read tasks, and heap reply objects whose child slots are filled in
 * place through the parent task. Every method is proved against the machine of `RespMachine`.
 */
module RespReader {
  import opened Wrappers
  import opened Decimal
  import opened Resp
  import opened RespMachine

  const STACK_SIZE: nat := 9
  const DISCARD_AT: nat := 1024
  const MAX_BUF: nat := 1024 * 16

  /** A reply as the caller sees it. */
  class ReplyObject {
    var rtype: Tag
    var integer: int
    var str: string
    var vtype: string
    var element: seq<ReplyObject?>

    // createStringObject, createIntegerObject, createDoubleObject, createNilObject, createBoolObject
    constructor Scalar(v: Reply)
      requires !v.Aggregate?
      ensures Shows(this, v, {this})
    {
      integer, str, vtype, element := 0, "", "", [];
      match v
      case Nil => rtype := TNil;
      case Bool(b) => rtype, integer := TBool, if b then 1 else 0;
      case Integer(i) => rtype, integer := TInteger, i;
      case Double(t) => rtype, str := TDouble, t;
      case Str(t, s) => rtype, str := t, s;
      case Verbatim(vt, s) => rtype, vtype, str := TVerb, vt, s;
    }

    // createArrayObject: all child slots start empty.
    constructor Slots(t: Tag, elements: nat)
      ensures rtype == t && |element| == elements
      ensures forall i :: 0 <= i < elements ==> element[i] == null
    {
      rtype, integer, str, vtype := t, 0, "", "";
      element := seq(elements, _ => null);
    }
  }

  /** Object `o` is exactly the tree `v`: every child slot is filled, and all of it lies in `fp`. */
  ghost predicate Shows(o: ReplyObject, v: Reply, fp: set<ReplyObject>)
    reads fp
    decreases v, 0
  {
    o in fp &&
    match v
    case Nil => o.rtype == TNil
    case Bool(b) => o.rtype == TBool && o.integer == if b then 1 else 0
    case Integer(i) => o.rtype == TInteger && o.integer == i
    case Double(t) => o.rtype == TDouble && o.str == t
    case Str(t, s) => o.rtype == t && o.str == s
    case Verbatim(vt, s) => o.rtype == TVerb && o.vtype == vt && o.str == s
    case Aggregate(t, vs) =>
      o.rtype == t && |o.element| == |vs| &&
      forall i :: 0 <= i < |vs| ==> ShowsSlot(o.element[i], vs[i], fp)
  }

  ghost predicate ShowsSlot(o: ReplyObject?, v: Reply, fp: set<ReplyObject>)
    reads fp
    decreases v, 1
  {
    o != null && Shows(o, v, fp)
  }

  lemma {:induction false} ShowsMonotone(o: ReplyObject, v: Reply, fp: set<ReplyObject>, fp': set<ReplyObject>)
    requires Shows(o, v, fp) && fp <= fp'
    ensures Shows(o, v, fp')
    decreases v
  {
    if v.Aggregate? {
      forall i | 0 <= i < |v.elems|
        ensures ShowsSlot(o.element[i], v.elems[i], fp')
      {
        assert ShowsSlot(o.element[i], v.elems[i], fp);
        ShowsMonotone(o.element[i], v.elems[i], fp, fp');
      }
    }
  }

  lemma SlotsMonotone(o: ReplyObject, vs: seq<Reply>, fp: set<ReplyObject>, fp': set<ReplyObject>)
    requires |vs| <= |o.element| && fp <= fp'
    requires forall i :: 0 <= i < |vs| ==> ShowsSlot(o.element[i], vs[i], fp)
    ensures forall i :: 0 <= i < |vs| ==> ShowsSlot(o.element[i], vs[i], fp')
  {
    forall i | 0 <= i < |vs|
      ensures ShowsSlot(o.element[i], vs[i], fp')
    {
      ShowsMonotone(o.element[i], vs[i], fp, fp');
    }
  }

  /** A reply object shows at most one tree. */
  lemma {:induction false} ShowsUnique(o: ReplyObject, v: Reply, w: Reply, fp: set<ReplyObject>)
    requires Shows(o, v, fp) && Shows(o, w, fp)
    requires ProperTags(v) && ProperTags(w)
    ensures v == w
    decreases v
  {
    if v.Aggregate? && w.Aggregate? {
      forall i | 0 <= i < |v.elems|
        ensures v.elems[i] == w.elems[i]
      {
        assert ShowsSlot(o.element[i], v.elems[i], fp) && ShowsSlot(o.element[i], w.elems[i], fp);
        ShowsUnique(o.element[i], v.elems[i], w.elems[i], fp);
      }
    }
  }

  ghost predicate ProperTags(v: Reply)
  {
    match v
    case Str(t, _) => t in {TError, TStatus, TString, TBignum}
    case Aggregate(t, vs) => IsAggregate(t) && forall i :: 0 <= i < |vs| ==> ProperTags(vs[i])
    case _ => true
  }

  // What a step does with a complete aggregate header.
  ghost function HeaderStep(env: Env, stack: seq<Frame>, t: Tag, count: Option<int>, rest: string): StepResult
  {
    if count.None? || count.value < -1 || (env.maxElements > 0 && count.value > env.maxElements) then Fail
    else if count.value <= 0 then
      Resume(Close(stack, if count.value < 0 then Nil else Aggregate(t, [])), rest)
    else Go(Machine(stack + [Frame(t, count.value * Arity(t), [])], None, rest))
  }

  lemma HeaderStepIs(env: Env, stack: seq<Frame>, t: Tag, s: string, i: nat)
    requires IsAggregate(t) && FindCRLF(s) == Some(i)
    ensures StepBody(env, stack, t, s) == HeaderStep(env, stack, t, ParseLL(s[..i]), s[i + 2..])
  {
  }

  /** `redisReadTask`; the parent pointer is the index of the enclosing task, -1 for none. */
  datatype Task = Task(ttype: Option<Tag>, elements: int, idx: int, obj: ReplyObject?, parent: int)

  const EMPTY_TASK := Task(None, 0, 0, null, -1)

  class Reader {
    const env: Env
    var err: bool
    var buf: string
    var pos: nat
    var len: nat
    var task: seq<Task>
    var tasks: nat
    var ridx: int
    var reply: ReplyObject?

    // The aggregates under construction, their objects, and the finished objects below them.
    ghost var frames: seq<Frame>
    ghost var spine: seq<ReplyObject>
    ghost var closed: set<ReplyObject>

    ghost predicate Buffers()
      reads this
    {
      len == |buf| && pos <= len && tasks == |task| && STACK_SIZE <= tasks && -1 <= ridx < tasks
    }

    ghost predicate TaskOk(k: nat)
      requires k < |frames| == |spine| && k + 1 < |task|
      reads `frames, `spine, `closed, `task, spine, closed
    {
      var o, f := spine[k], frames[k];
      FrameOk(f) && o !in closed &&
      task[k].ttype == Some(f.tag) && task[k].elements == f.n && task[k].obj == o &&
      task[k + 1].idx == |f.done| && task[k + 1].parent == k &&
      o.rtype == f.tag && |o.element| == f.n &&
      (forall i :: 0 <= i < |f.done| ==> ShowsSlot(o.element[i], f.done[i], closed)) &&
      (k + 1 < |spine| ==> o.element[|f.done|] == spine[k + 1])
    }

    ghost predicate Stack()
      reads this, spine, closed
    {
      Buffers() && |frames| == |spine| == (if ridx < 0 then 0 else ridx) &&
      (ridx >= 0 ==> task[0].parent == -1) &&
      (ridx > 0 ==> reply == spine[0]) &&
      (forall j, k :: 0 <= j < k < |spine| ==> spine[j] != spine[k]) &&
      forall k :: 0 <= k < |frames| ==> TaskOk(k)
    }

    ghost predicate Valid()
      reads this, spine, closed
    {
      Stack() &&
      (ridx <= 0 ==> reply == null && closed == {}) &&
      (err ==> buf == "" && ridx == -1)
    }

    ghost function Abs(): (m: Machine)
      requires Stack()
      reads this, spine, closed
      ensures Ok(m)
    {
      assert forall k :: 0 <= k < |frames| ==> FrameOk(frames[k]) by {
        forall k | 0 <= k < |frames|
          ensures FrameOk(frames[k])
        {
          assert TaskOk(k);
        }
      }
      Machine(frames, if ridx >= 0 then task[ridx].ttype else None, buf[pos..])
    }

    constructor (env: Env)
      ensures Valid() && !err && Abs() == START && this.env == env && spine == [] && closed == {}
    {
      this.env := env;
      err, buf, pos, len, ridx, reply := false, "", 0, 0, -1, null;
      task, tasks := seq(STACK_SIZE, _ => EMPTY_TASK), STACK_SIZE;
      frames, spine, closed := [], [], {};
    }

    // __redisReaderSetError
    method SetError()
      requires Buffers()
      modifies this
      ensures Valid() && err && spine == [] && closed == {}
    {
      reply := null;
      buf, pos, len := "", 0, 0;
      ridx := -1;
      err := true;
      frames, spine, closed := [], [], {};
    }

    /** The state after a step with result `r`. */
    ghost predicate After(r: StepResult)
      reads this, spine, closed
    {
      match r
      case Fail => Valid() && err
      case Wait(m) => Stack() && !err && ridx >= 0 && (ridx == 0 ==> reply == null && closed == {}) && Abs() == m
      case Go(m) => Stack() && !err && ridx >= 0 && (ridx == 0 ==> reply == null && closed == {}) && Abs() == m
      case Emit(v, rest) =>
        Stack() && !err && ridx == -1 && buf[pos..] == rest && reply != null && Shows(reply, v, closed)
    }

    /** The state after a step with result `r`, reported as `ok`. */
    ghost predicate Stepped(r: StepResult, ok: bool)
      reads this, spine, closed
    {
      After(r) && ok == (r.Go? || r.Emit?)
    }

    /** Every object in the reader's care is new, or was in its care before. */
    twostate predicate Keeps()
      reads this
    {
      (forall o <- spine :: fresh(o) || o in old(spine)) &&
      (forall o <- closed :: fresh(o) || o in old(spine) || o in old(closed))
    }

    // readBytes for one byte, and readLine: the line, without its end, if it is complete.
    method ReadLine() returns (line: Option<string>)
      requires Stack() && ridx >= 0
      modifies this`pos
      ensures Stack()
      ensures var s := old(buf[pos..]);
              match FindCRLF(s)
              case None => line == None && pos == old(pos)
              case Some(i) => line == Some(s[..i]) && pos == old(pos) + i + 2 && buf[pos..] == s[i + 2..]
    {
      var s := SeekNewline(buf[pos..]);
      if s.None? {
        return None;
      }
      line := Some(buf[pos..][..s.value]);
      pos := pos + s.value + 2;
    }

    /** The child slot that the current task fills. */
    ghost function Slot(): ReplyObject?
      requires Stack() && ridx > 0
      reads this, spine, closed
    {
      assert TaskOk(ridx - 1);
      spine[ridx - 1].element[|frames[ridx - 1].done|]
    }

    /** `o` shows the value `v` of the current task and sits where the current task belongs. */
    ghost predicate Placed(o: ReplyObject, v: Reply)
      requires Stack() && ridx >= 0
      reads this, spine, closed
    {
      Shows(o, v, closed) && (ridx > 0 ==> Slot() == o)
    }

    // The store `parent->element[task->idx] = r` at the end of every constructor.
    method Store(o: ReplyObject)
      requires Stack() && ridx >= 0
      modifies set i | i == ridx - 1 && 0 <= i < |spine| :: spine[i]
      ensures Stack() && (ridx > 0 ==> Slot() == o)
    {
      var cur := task[ridx];
      if ridx > 0 {
        assert TaskOk(ridx - 1);
      }
      if cur.parent >= 0 {
        var parent := task[cur.parent].obj;
        parent.element := parent.element[cur.idx := o];
        forall k | 0 <= k < |frames|
          ensures TaskOk(k)
        {
          assert old(TaskOk(k));
        }
      }
    }

    // moveToNextTask: the value of the current task is complete.
    method MoveToNextTask(ghost o0: ReplyObject, ghost v0: Reply)
      requires Stack() && !err && ridx >= 0 && Placed(o0, v0)
      modifies this`task, this`ridx, this`frames, this`spine, this`closed
      ensures After(Resume(Close(old(frames), v0), buf[pos..])) ||
              (old(ridx) == 0 && ridx == -1 && Stack() && !err && Shows(o0, v0, closed))
      ensures Keeps()
    {
      hide Shows;
      ghost var o, v := o0, v0;
      while ridx >= 0
        invariant Stack() && ridx >= 0 && Placed(o, v)
        invariant Close(old(frames), v0) == Close(frames, v)
        invariant ridx <= old(ridx)
        invariant ridx == old(ridx) ==> o == o0 && v == v0
        invariant ridx == 0 && old(ridx) > 0 ==> o == reply
        invariant Keeps()
        decreases ridx
      {
        if ridx == 0 {
          ridx := ridx - 1;
          return;
        }
        var cur, prv := task[ridx], task[ridx - 1];
        assert TaskOk(ridx - 1);
        if cur.idx == prv.elements - 1 {
          o, v := PopTask(o, v);
        } else {
          NextSibling(o, v);
          return;
        }
      }
    }

    // The last slot of the innermost aggregate is filled: the aggregate itself is now complete.
    method PopTask(ghost o: ReplyObject, ghost v: Reply) returns (ghost p: ReplyObject, ghost w: Reply)
      requires Stack() && ridx > 0 && Placed(o, v)
      requires |Top(frames).done| + 1 == Top(frames).n
      modifies this`ridx, this`frames, this`spine, this`closed
      ensures Stack() && ridx == old(ridx) - 1 && Placed(p, w)
      ensures w == Aggregate(Top(old(frames)).tag, Top(old(frames)).done + [v]) && frames == Pop(old(frames))
      ensures ridx == 0 ==> p == reply
      ensures p == old(spine[ridx - 1]) && spine == old(spine[..ridx - 1]) && closed == old(closed) + {p}
    {
      assert TaskOk(ridx - 1);
      ghost var f := frames[ridx - 1];
      p := spine[ridx - 1];
      ridx := ridx - 1;
      closed := closed + {p};
      frames, spine := frames[..ridx], spine[..ridx];
      w := Aggregate(f.tag, f.done + [v]);
      SlotsMonotone(p, f.done, old(closed), closed);
      ShowsMonotone(o, v, old(closed), closed);
      forall k | 0 <= k < |frames|
        ensures TaskOk(k)
      {
        assert old(TaskOk(k));
        SlotsMonotone(spine[k], frames[k].done, old(closed), closed);
      }
      if ridx > 0 {
        ghost var k := ridx - 1;
        assert old(TaskOk(k));
      }
    }

    method NextSibling(ghost o: ReplyObject, ghost v: Reply)
      requires Stack() && ridx > 0 && Placed(o, v)
      requires |Top(frames).done| + 1 < Top(frames).n
      modifies this`task, this`frames
      ensures Stack() && task[ridx].ttype == None
      ensures frames == Pop(old(frames)) + [Top(old(frames)).(done := Top(old(frames)).done + [v])]
    {
      assert TaskOk(ridx - 1);
      var cur := task[ridx];
      task := task[ridx := cur.(ttype := None, elements := -1, idx := cur.idx + 1)];
      ghost var f := frames[ridx - 1];
      frames := frames[ridx - 1 := f.(done := f.done + [v])];
      forall k | 0 <= k < |frames|
        ensures TaskOk(k)
      {
        assert old(TaskOk(k));
      }
    }

    /** A task is under way. */
    ghost predicate Ready()
      reads this, spine, closed
    {
      Stack() && !err && ridx >= 0 && (ridx == 0 ==> reply == null && closed == {})
    }

    // A finished object goes into its slot and is not written to again.
    method Place(o: ReplyObject, ghost v: Reply)
      requires Stack() && ridx >= 0 && Shows(o, v, {o}) && o !in spine
      modifies this`closed, set i | i == ridx - 1 && 0 <= i < |spine| :: spine[i]
      ensures Stack() && Placed(o, v) && closed == old(closed) + {o}
    {
      closed := closed + {o};
      forall k | 0 <= k < |frames|
        ensures TaskOk(k)
      {
        assert old(TaskOk(k));
        SlotsMonotone(spine[k], frames[k].done, old(closed), closed);
      }
      ShowsMonotone(o, v, {o}, closed);
      if ridx > 0 {
        assert TaskOk(ridx - 1);
      }
      Store(o);
    }

    // Creation of a scalar reply for the current task, and what follows it.
    method Complete(v: Reply)
      requires Ready() && !v.Aggregate?
      modifies this, spine
      ensures After(Resume(Close(old(frames), v), old(buf[pos..])))
      ensures Keeps()
    {
      var o := new ReplyObject.Scalar(v);
      Place(o, v);
      if ridx == 0 {
        reply := o;
      }
      MoveToNextTask(o, v);
    }

    method ProcessLineItem() returns (ok: bool)
      requires Ready() && task[ridx].ttype.Some?
      requires !IsBulk(task[ridx].ttype.value) && !IsAggregate(task[ridx].ttype.value)
      modifies this, spine
      ensures Stepped(StepBody(env, old(frames), old(task[ridx].ttype.value), old(buf[pos..])), ok)
      ensures Keeps()
    {
      hide Shows;
      var t := task[ridx].ttype.value;
      var read := ReadLine();
      if read.None? {
        return false;
      }
      var line := read.value;
      var v := ReadScalar(env, t, line);
      if v.None? {
        SetError();
        return false;
      }
      Complete(v.value);
      ok := true;
    }

    method ProcessBulkItem() returns (ok: bool)
      requires Ready() && task[ridx].ttype.Some? && IsBulk(task[ridx].ttype.value)
      modifies this, spine
      ensures Stepped(StepBody(env, old(frames), old(task[ridx].ttype.value), old(buf[pos..])), ok)
      ensures Keeps()
    {
      hide Shows;
      var t := task[ridx].ttype.value;
      var r := ReadBulk(env, t, buf[pos..]);
      match r
      case More => return false;
      case Bad =>
        SetError();
        return false;
      case Leaf(v, bytelen) =>
        ghost var p := buf[pos..];
        pos := pos + bytelen;
        assert buf[pos..] == p[bytelen..];
        Complete(v);
        return true;
    }

    // redisReaderGrow
    method Grow()
      requires Ready()
      modifies this`task, this`tasks
      ensures Ready() && Abs() == old(Abs()) && ridx < tasks - 1
    {
      var newlen := tasks + STACK_SIZE;
      while tasks < newlen
        invariant |task| == tasks <= newlen
        invariant task[..old(tasks)] == old(task)
      {
        task := task + [EMPTY_TASK];
        tasks := tasks + 1;
      }
      assert forall k :: 0 <= k < old(tasks) ==> task[k] == old(task)[k];
      forall k | 0 <= k < |frames|
        ensures TaskOk(k)
      {
        assert old(TaskOk(k));
      }
    }

    // An aggregate with elements: its object is opened and a task for its first child is pushed.
    method PushTask(o: ReplyObject, t: Tag, elements: nat)
      requires Stack() && !err && ridx >= 0 && ridx < tasks - 1 && elements > 0 && IsAggregate(t)
      requires o.rtype == t && |o.element| == elements && task[ridx].ttype == Some(t)
      requires o !in spine && o !in closed && (ridx > 0 ==> Slot() == o)
      modifies this`task, this`ridx, this`frames, this`spine, this`reply
      ensures After(Go(Machine(old(frames) + [Frame(t, elements, [])], None, buf[pos..])))
      ensures spine == old(spine) + [o]
    {
      hide Shows;
      var root := ridx == 0;
      if ridx > 0 {
        assert TaskOk(ridx - 1);
      }
      task := task[ridx := task[ridx].(elements := elements, obj := o)];
      ridx := ridx + 1;
      task := task[ridx := Task(None, -1, 0, null, ridx - 1)];
      frames, spine := frames + [Frame(t, elements, [])], spine + [o];
      if root {
        reply := o;
      }
      forall k | 0 <= k < |frames|
        ensures TaskOk(k)
      {
        if k < |old(frames)| {
          assert old(TaskOk(k));
        }
      }
    }

    method ProcessAggregateItem() returns (ok: bool)
      requires Ready() && task[ridx].ttype.Some? && IsAggregate(task[ridx].ttype.value)
      modifies this, spine
      ensures Stepped(StepBody(env, old(frames), old(task[ridx].ttype.value), old(buf[pos..])), ok)
      ensures Keeps()
    {
      if ridx == tasks - 1 {
        Grow();
      }
      ok := ProcessHeader();
    }

    method ProcessHeader() returns (ok: bool)
      requires Ready() && ridx < tasks - 1 && task[ridx].ttype.Some? && IsAggregate(task[ridx].ttype.value)
      modifies this, spine
      ensures Stepped(StepBody(env, old(frames), old(task[ridx].ttype.value), old(buf[pos..])), ok)
      ensures Keeps()
    {
      hide HeaderStep, Shows, ParseLL;
      var t := task[ridx].ttype.value;
      var line := ReadLine();
      if line.None? {
        return false;
      }
      HeaderStepIs(env, frames, t, old(buf[pos..]), |line.value|);
      var elements := String2ll(line.value);
      ok := Dispatch(t, elements);
    }

    // The branches of processAggregateItem once the header is read.
    method Dispatch(t: Tag, elements: Option<int>) returns (ok: bool)
      requires Ready() && ridx < tasks - 1 && IsAggregate(t) && task[ridx].ttype == Some(t)
      modifies this, spine
      ensures Stepped(HeaderStep(env, old(frames), t, elements, old(buf[pos..])), ok)
      ensures Keeps()
    {
      if elements.None? || elements.value < -1 || (env.maxElements > 0 && elements.value > env.maxElements) {
        SetError();
        return false;
      }
      ok := true;
      if elements.value == -1 {
        Complete(Nil);
      } else if elements.value == 0 {
        CompleteEmpty(t);
      } else {
        OpenAggregate(t, if t == TMap || t == TAttr then elements.value * 2 else elements.value);
      }
    }

    method OpenAggregate(t: Tag, elements: nat)
      requires Ready() && ridx < tasks - 1 && elements > 0 && IsAggregate(t) && task[ridx].ttype == Some(t)
      modifies this, spine
      ensures After(Go(Machine(old(frames) + [Frame(t, elements, [])], None, old(buf[pos..]))))
      ensures Keeps()
    {
      var o := new ReplyObject.Slots(t, elements);
      Store(o);
      PushTask(o, t, elements);
    }

    // An aggregate without elements is complete at once; the root reply is set after the move.
    method CompleteEmpty(t: Tag)
      requires Ready()
      modifies this, spine
      ensures After(Resume(Close(old(frames), Aggregate(t, [])), old(buf[pos..])))
      ensures Keeps()
    {
      var root := ridx == 0;
      var o := new ReplyObject.Slots(t, 0);
      Place(o, Aggregate(t, []));
      MoveToNextTask(o, Aggregate(t, []));
      if root {
        reply := o;
      }
    }

    method ProcessItem() returns (ok: bool)
      requires Ready()
      modifies this, spine
      ensures Stepped(Step(env, old(Abs())), ok)
      ensures Keeps()
    {
      hide Shows, StepBody;
      if task[ridx].ttype == None {
        if len - pos >= 1 {
          var p := buf[pos];
          pos := pos + 1;
          var t := TagOf(p);
          if t.None? {
            SetError();
            return false;
          }
          SetType(t.value);
        } else {
          return false;
        }
      }
      var t := task[ridx].ttype.value;
      if IsBulk(t) {
        ok := ProcessBulkItem();
      } else if IsAggregate(t) {
        ok := ProcessAggregateItem();
      } else {
        ok := ProcessLineItem();
      }
    }

    // The type byte of the current task is known.
    method SetType(t: Tag)
      requires Ready()
      modifies this`task
      ensures Ready() && task[ridx].ttype == Some(t)
    {
      task := task[ridx := task[ridx].(ttype := Some(t))];
      forall k | 0 <= k < |frames|
        ensures TaskOk(k)
      {
        assert old(TaskOk(k));
      }
    }

    // redisReaderFeed; `avail` is the unused capacity of the buffer.
    method Feed(chunk: string, avail: nat) returns (ok: bool)
      requires Valid()
      modifies this`buf, this`len, this`pos
      ensures Valid() && ok == !err
      ensures !err ==> Abs() == RespMachine.Feed(old(Abs()), chunk)
      ensures err ==> Abs() == old(Abs())
    {
      if err {
        return false;
      }
      if |chunk| >= 1 {
        if len == 0 && avail > MAX_BUF {
          buf, pos := "", 0;
        }
        ghost var before := buf[pos..];
        buf := buf + chunk;
        len := |buf|;
        assert buf[pos..] == before + chunk;
      } else {
        assert buf[pos..] + chunk == buf[pos..];
      }
      return true;
    }

    /** The state and result of a poll with outcome `p`. */
    ghost predicate Answered(p: Polled, ok: bool, r: ReplyObject?, fp: set<ReplyObject>)
      reads this, spine, closed, fp
    {
      Valid() &&
      match p
      case Failed => err && !ok && r == null
      case Waiting(m) => !err && ok && r == null && Abs() == m
      case Got(v, rest) => !err && ok && r != null && Shows(r, v, fp) && Abs() == Machine([], None, rest)
    }

    // redisReaderGetReply; `fp` are the objects of the reply that is handed over.
    method GetReply() returns (ok: bool, r: ReplyObject?, ghost fp: set<ReplyObject>)
      requires Valid()
      modifies this, spine
      ensures old(err) ==>
                !ok && r == null && fp == {} && err && Valid() && spine == old(spine) && closed == old(closed)
      ensures !old(err) ==> Answered(Poll(env, old(Abs())), ok, r, fp)
      ensures Keeps() && forall o <- fp :: fresh(o) || o in old(spine) || o in old(closed)
      ensures fp !! closed && forall o <- fp :: o !in spine
    {
      r, fp := null, {};
      if err {
        return false, null, {};
      }
      if len == 0 {
        return true, null, {};
      }
      ok, r, fp := Fetch();
    }

    // The part of redisReaderGetReply that reads the buffer.
    method Fetch() returns (ok: bool, r: ReplyObject?, ghost fp: set<ReplyObject>)
      requires Valid() && !err
      modifies this, spine
      ensures Answered(Poll(env, old(Abs())), ok, r, fp)
      ensures Keeps() && forall o <- fp :: fresh(o) || o in old(spine) || o in old(closed)
      ensures fp !! closed && forall o <- fp :: o !in spine
    {
      hide Poll, Shows;
      if ridx == -1 {
        task := task[0 := Task(None, -1, -1, null, -1)];
        ridx := 0;
      }
      ProcessItems();
      if err {
        return false, null, {};
      }
      ok := true;
      r, fp := HandOver(Poll(env, old(Abs())));
    }

    // The rest of it, once processing has stopped without an error.
    method HandOver(ghost p: Polled) returns (r: ReplyObject?, ghost fp: set<ReplyObject>)
      requires Reached(p) && !err
      modifies this
      ensures Answered(p, true, r, fp) && spine == old(spine)
      ensures closed + fp == old(closed) && fp !! closed && forall o <- fp :: o !in spine
    {
      hide Shows;
      r, fp := null, {};
      if pos >= DISCARD_AT {
        Discard();
      }
      if ridx == -1 {
        r, fp := reply, closed;
        reply, closed := null, {};
      }
    }

    // The loop that takes one item after the other until the reply is complete or an item cannot be read.
    method ProcessItems()
      requires Ready()
      modifies this, spine
      ensures Reached(Poll(env, old(Abs()))) && Keeps()
    {
      while ridx >= 0
        invariant ridx >= 0 ==> Ready() && Poll(env, Abs()) == Poll(env, old(Abs()))
        invariant ridx < 0 ==> Reached(Poll(env, old(Abs())))
        invariant Keeps()
        decreases |buf| - pos, ridx >= 0
      {
        StepProgress(env, Abs());
        assert forall i | 0 <= i < |spine| :: fresh(spine[i]) || spine[i] in old(spine);
        var ok := ProcessItem();
        if !ok {
          break;
        }
      }
    }

    // sdsrange(buf, pos, -1): the unread input moves to the front of the buffer.
    method Discard()
      requires Stack()
      modifies this`buf, this`pos, this`len
      ensures Stack() && buf == buf[pos..] == old(buf[pos..]) && pos == 0
    {
      buf := buf[pos..];
      pos := 0;
      len := |buf|;
    }

    /** The state in which the processing loop of GetReply stops. */
    ghost predicate Reached(p: Polled)
      reads this, spine, closed
    {
      match p
      case Failed => Valid() && err
      case Waiting(m) => Ready() && Abs() == m
      case Got(v, rest) =>
        Stack() && !err && ridx == -1 && buf[pos..] == rest && reply != null && Shows(reply, v, closed)
    }
  }

  // The decisions of processBulkItem on the unread input `p`.
  method ReadBulk(env: Env, t: Tag, p: string) returns (r: Scan)
    requires IsBulk(t)
    ensures r == ScanItem(env, t, p)
    ensures !r.Open? && (r.Leaf? ==> !r.v.Aggregate?)
  {
    var s := SeekNewline(p);
    if s.None? {
      return More;
    }
    var bytelen := s.value + 2;
    var n := String2ll(p[..bytelen - 2]);
    if n.None? || n.value < -1 {
      return Bad;
    }
    if n.value == -1 {
      return Leaf(Nil, bytelen);
    }
    bytelen := bytelen + n.value + 2;
    if bytelen > |p| {
      return More;
    }
    if t == TVerb && (n.value < 4 || p[s.value + 5] != ':') {
      return Bad;
    }
    var body := p[s.value + 2..s.value + 2 + n.value];
    if t == TVerb {
      assert body[..3] == p[s.value + 2..s.value + 5];
      assert body[4..] == p[s.value + 6..s.value + 2 + n.value];
      return Leaf(Verbatim(body[..3], body[4..]), bytelen);
    }
    return Leaf(Str(t, body), bytelen);
  }

  // The conversions of processLineItem.
  method ReadScalar(env: Env, t: Tag, line: string) returns (v: Option<Reply>)
    requires !IsBulk(t) && !IsAggregate(t)
    ensures v == ScanLine(env, t, line)
    ensures v.Some? ==> !v.value.Aggregate?
  {
    if t == TInteger {
      var n := String2ll(line);
      return if n.Some? then Some(Integer(n.value)) else None;
    } else if t == TDouble {
      if |line| >= DOUBLE_BUF {
        return None;
      }
      if LowerAll(line) in {"inf", "-inf", "nan", "-nan"} {
        return Some(Double(line));
      }
      return if line == "" || !env.strtodFinite(line) then None else Some(Double(line));
    } else if t == TNil {
      return if |line| != 0 then None else Some(Nil);
    } else if t == TBool {
      if |line| != 1 || line[0] !in "tTfF\0" {
        return None;
      }
      return Some(Bool(line[0] == 't' || line[0] == 'T'));
    } else if t == TBignum {
      for i := 0 to |line|
        invariant forall k :: 0 <= k < i ==> IsDigit(line[k]) || (k == 0 && line[k] == '-')
      {
        if !(i == 0 && line[0] == '-') && (line[i] < '0' || line[i] > '9') {
          return None;
        }
      }
      return Some(Str(TBignum, line));
    } else {
      for i := 0 to |line|
        invariant forall k :: 0 <= k < i ==> line[k] != '\r' && line[k] != '\n'
      {
        if line[i] == '\r' || line[i] == '\n' {
          return None;
        }
      }
      return Some(Str(t, line));
    }
  }

  // seekNewline, with memchr as the inner scan.
  method SeekNewline(s: string) returns (r: Option<nat>)
    ensures r == FindCRLF(s)
  {
    if |s| < 2 {
      return None;
    }
    var at := Memchr(s, 0, |s| - 1);
    while at.Some?
      invariant at.Some? ==> at.value < |s| - 1 && s[at.value] == '\r'
      invariant at.Some? ==> forall j: nat :: j < at.value ==> !CRLFAt(s, j)
      invariant at.None? ==> forall j: nat :: !CRLFAt(s, j)
      decreases if at.Some? then |s| - at.value else 0
    {
      if s[at.value + 1] == '\n' {
        FindCRLFIs(s, at.value);
        return at;
      }
      at := Memchr(s, at.value + 1, |s| - 1);
    }
    return None;
  }

  method Memchr(s: string, from: nat, to: nat) returns (r: Option<nat>)
    requires from <= to <= |s|
    ensures r.Some? ==> from <= r.value < to && s[r.value] == '\r' && '\r' !in s[from..r.value]
    ensures r.None? ==> '\r' !in s[from..to]
  {
    var i := from;
    while i < to
      invariant from <= i <= to && '\r' !in s[from..i]
    {
      if s[i] == '\r' {
        return Some(i);
      }
      i := i + 1;
    }
    return None;
  }

  /** The objects `out` are the trees `vs`, in order, each within its own footprint. */
  ghost predicate ShowsList(out: seq<ReplyObject>, vs: seq<Reply>, fps: seq<set<ReplyObject>>)
    reads set i, o | 0 <= i < |fps| && o in fps[i] :: o
  {
    |out| == |vs| == |fps| && forall i :: 0 <= i < |vs| ==> Shows(out[i], vs[i], fps[i])
  }

  ghost predicate Apart(r: Reader, fp: set<ReplyObject>)
    reads r
  {
    forall o <- fp :: o !in r.closed && o !in r.spine
  }

  /** None of the objects handed over is in the reader's care any more. */
  ghost predicate HandedOver(r: Reader, fps: seq<set<ReplyObject>>)
    reads r
  {
    forall i :: 0 <= i < |fps| ==> Apart(r, fps[i])
  }

  lemma DrainGoesOn(env: Env, m: Machine, vs: seq<Reply>)
    requires Ok(m)
    ensures var p := Poll(env, m);
            var d := RespMachine.Drain(env, m);
            if p.Got? then
              var rest := RespMachine.Drain(env, Machine([], None, p.rest));
              |p.rest| < |m.rest| && vs + d.replies == (vs + [p.v]) + rest.replies && d.next == rest.next
            else vs + d.replies == vs && d.next == if p.Failed? then None else Some(p.m)
  {
    hide Poll;
    var p := Poll(env, m);
    if p.Got? {
      var rest := RespMachine.Drain(env, Machine([], None, p.rest));
      assert vs + ([p.v] + rest.replies) == (vs + [p.v]) + rest.replies;
    } else {
      assert vs + [] == vs;
    }
  }

  // The client's loop: replies are fetched until there is none.
  method Drain(r: Reader) returns (out: seq<ReplyObject>, ghost fps: seq<set<ReplyObject>>)
    requires r.Valid() && !r.err
    modifies r, r.spine
    ensures r.Valid() && r.Keeps()
    ensures ShowsList(out, RespMachine.Drain(r.env, old(r.Abs())).replies, fps) && HandedOver(r, fps)
    ensures RespMachine.Drain(r.env, old(r.Abs())).next == if r.err then None else Some(r.Abs())
  {
    hide Reader.Stack, Shows, RespMachine.Drain, Poll;
    out, fps := [], [];
    ghost var vs: seq<Reply> := [];
    assert vs + RespMachine.Drain(r.env, r.Abs()).replies == RespMachine.Drain(r.env, r.Abs()).replies;
    while true
      invariant r.Valid() && !r.err && r.Keeps()
      invariant ShowsList(out, vs, fps) && HandedOver(r, fps)
      invariant RespMachine.Drain(r.env, old(r.Abs())) ==
                Drained(vs + RespMachine.Drain(r.env, r.Abs()).replies, RespMachine.Drain(r.env, r.Abs()).next)
      decreases |r.Abs().rest|
    {
      ghost var before := r.Abs();
      DrainGoesOn(r.env, before, vs);
      assert forall k | 0 <= k < |r.spine| :: fresh(r.spine[k]) || r.spine[k] in old(r.spine);
      var ok, reply, fp := r.GetReply();
      if !ok || reply == null {
        return;
      }
      var o: ReplyObject := reply;
      out, fps := out + [o], fps + [fp];
      vs := vs + [Poll(r.env, before).v];
    }
  }

  // redisReaderFeed followed by the loop.
  method ReadChunk(r: Reader, chunk: string) returns (out: seq<ReplyObject>, ghost fps: seq<set<ReplyObject>>)
    requires r.Valid() && !r.err
    modifies r, r.spine
    ensures r.Valid() && r.Keeps()
    ensures ShowsList(out, RespMachine.Drain(r.env, RespMachine.Feed(old(r.Abs()), chunk)).replies, fps)
    ensures HandedOver(r, fps)
    ensures RespMachine.Drain(r.env, RespMachine.Feed(old(r.Abs()), chunk)).next ==
            if r.err then None else Some(r.Abs())
  {
    var _ := r.Feed(chunk, 0);
    out, fps := Drain(r);
  }

  lemma AppendShown(r: Reader, out: seq<ReplyObject>, vs: seq<Reply>, fps: seq<set<ReplyObject>>,
                    out': seq<ReplyObject>, vs': seq<Reply>, fps': seq<set<ReplyObject>>)
    requires ShowsList(out, vs, fps) && ShowsList(out', vs', fps')
    requires HandedOver(r, fps) && HandedOver(r, fps')
    ensures ShowsList(out + out', vs + vs', fps + fps') && HandedOver(r, fps + fps')
  {
  }

  lemma SessionStep(env: Env, vs: seq<Reply>, m: Machine, chunks: seq<string>)
    requires Ok(m) && chunks != []
    ensures var d := RespMachine.Drain(env, RespMachine.Feed(m, chunks[0]));
            Prepend(vs, Session(env, m, chunks)) ==
            if d.next.None? then Stream(vs + d.replies, true)
            else Prepend(vs + d.replies, Session(env, d.next.value, chunks[1..]))
  {
    var d := RespMachine.Drain(env, RespMachine.Feed(m, chunks[0]));
    if d.next.Some? {
      var s := Session(env, d.next.value, chunks[1..]);
      assert vs + (d.replies + s.replies) == vs + d.replies + s.replies;
    }
  }

  /** Feeds the chunks one after the other, fetching all replies after each. However the stream is
      cut, the heap trees handed over are the replies of the whole stream, in order, and the reader
      ends in its error state exactly when the stream is malformed. */
  method ReadChunks(r: Reader, chunks: seq<string>) returns (out: seq<ReplyObject>, ghost fps: seq<set<ReplyObject>>)
    requires r.Valid() && !r.err && r.Abs() == START
    modifies r, r.spine
    ensures ShowsList(out, Replies(r.env, Flatten(chunks)).replies, fps)
    ensures r.err == Replies(r.env, Flatten(chunks)).failed
  {
    hide Reader.Stack, Shows, RespMachine.Drain, Poll, Replies;
    out, fps := [], [];
    ghost var vs: seq<Reply> := [];
    ChunkingIndependence(r.env, chunks);
    ghost var whole := Session(r.env, START, chunks);
    assert Prepend([], whole) == whole;
    var i := 0;
    while i < |chunks| && !r.err
      invariant 0 <= i <= |chunks|
      invariant r.Valid() && r.Keeps() && ShowsList(out, vs, fps) && HandedOver(r, fps)
      invariant whole == if r.err then Stream(vs, true) else Prepend(vs, Session(r.env, r.Abs(), chunks[i..]))
    {
      assert chunks[i..][1..] == chunks[i + 1..];
      SessionStep(r.env, vs, r.Abs(), chunks[i..]);
      ghost var d := RespMachine.Drain(r.env, RespMachine.Feed(r.Abs(), chunks[i]));
      assert forall k | 0 <= k < |r.spine| :: fresh(r.spine[k]) || r.spine[k] in old(r.spine);
      var more, morefps := ReadChunk(r, chunks[i]);
      assert ShowsList(out, vs, fps) && HandedOver(r, fps);
      AppendShown(r, out, vs, fps, more, d.replies, morefps);
      out, fps, vs := out + more, fps + morefps, vs + d.replies;
      i := i + 1;
    }
  }
}
