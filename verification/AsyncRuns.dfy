/** What every run of the client with the server keeps: each accepted command is answered once, by its
    own reply or by NULL, in the order of issue, and every published message reaches a callback. */
module AsyncRuns {
  import opened Wrappers
  import opened AsyncMatcher

  /** The regular commands whose callbacks have run. */
  function Handled(log: seq<Record>): seq<nat>
  {
    if log == [] then [] else
      (match log[0]
       case Answered(id, _) => [id]
       case Nulled(id) => [id]
       case _ => []) + Handled(log[1..])
  }

  predicate Matched(log: seq<Record>)
  {
    forall r <- log :: r.Answered? ==> r.reply.Reply? && r.reply.id == r.id
  }

  /** The callbacks of the regular commands, in the order of issue. */
  function Regulars(issued: seq<Command>): seq<nat>
  {
    if issued == [] then [] else
      var last := |issued| - 1;
      Regulars(issued[..last]) + if issued[last].Regular? then [last] else []
  }

  ghost predicate Ascending(ids: seq<nat>) { forall i, j :: 0 <= i < j < |ids| ==> ids[i] < ids[j] }

  lemma AscendingSnoc(ids: seq<nat>, more: nat)
    requires Ascending(ids) && forall id <- ids :: id < more
    ensures Ascending(ids + [more])
  {
    forall i | 0 <= i < |ids|
      ensures ids[i] < more
    {
      assert ids[i] in ids;
    }
  }

  lemma {:induction false} RegularsAre(issued: seq<Command>)
    ensures Ascending(Regulars(issued))
    ensures forall id: nat :: id in Regulars(issued) <==> id < |issued| && issued[id].Regular?
  {
    if issued != [] {
      var last := |issued| - 1;
      RegularsAre(issued[..last]);
      AscendingSnoc(Regulars(issued[..last]), last);
    }
  }

  /** The answers to the `n` commands in `replies` come before anything about subscriptions. A context
      that has just subscribed (`armed`) learns from a push that the server can push, before it
      receives the answer to any later command. */
  predicate Guarded(stream: seq<Event>, n: nat, armed: bool)
    decreases stream
  {
    if n > 0 then
      stream != [] &&
      if stream[0].Reply? then Guarded(stream[1..], n - 1, armed)
      else stream[0].Notice? && Guarded(stream[1..], n, false)
    else
      armed ==> stream != [] && !stream[0].Reply?
  }

  predicate Quiet(stream: seq<Event>)
  {
    forall e <- stream :: e.Reply? || e.Notice?
  }

  predicate Armed(c: Client) { c.subscribed && !c.supportsPush }

  ghost predicate Running(c: Client, front: set<Topic>, stream: seq<Event>)
  {
    Ids(stream) == c.replies + c.subReplies &&
    Books(c, front, stream) &&
    Guarded(stream, |c.replies|, Armed(c)) &&
    (c.replies != [] ==> front == {}) &&
    (!c.subscribed ==> c.subs == map[] && c.pendingUnsubs == 0 && c.subReplies == [])
  }

  predicate Recorded(c: Client, issued: seq<Command>)
  {
    !c.broken && Matched(c.log) && Handled(c.log) + c.replies + c.subReplies == Regulars(issued) &&
    (c.freed ==> c.replies == [] && c.subReplies == [])
  }

  ghost predicate Inv(s: System)
  {
    Recorded(s.client, s.issued) && (!s.client.freed ==> Running(s.client, s.front, s.stream))
  }

  // ---------- The log ----------

  lemma HandledFirst(log: seq<Record>)
    requires log != []
    ensures Handled(log) == (if log[0].Answered? || log[0].Nulled? then [log[0].id] else []) + Handled(log[1..])
  {
  }

  lemma {:induction false} HandledAppend(a: seq<Record>, b: seq<Record>)
    ensures Handled(a + b) == Handled(a) + Handled(b)
  {
    if a == [] {
      assert a + b == b;
    } else {
      hide Handled;
      HandledFirst(a);
      HandledFirst(a + b);
      assert (a + b)[1..] == a[1..] + b && (a + b)[0] == a[0];
      HandledAppend(a[1..], b);
    }
  }

  lemma {:induction false} NullAllHandled(ids: seq<nat>)
    ensures Handled(NullAll(ids)) == ids && forall r <- NullAll(ids) :: r.Nulled?
  {
    if ids != [] {
      NullAllHandled(ids[1..]);
      assert NullAll(ids)[1..] == NullAll(ids[1..]);
    }
  }

  lemma FreeRecords(c: Client, issued: seq<Command>)
    requires Recorded(c, issued)
    ensures Recorded(Free(c), issued)
  {
    var closed := [Closed(c.subs)];
    NullAllHandled(c.replies);
    NullAllHandled(c.subReplies);
    HandledAppend(c.log, NullAll(c.replies));
    HandledAppend(c.log + NullAll(c.replies), NullAll(c.subReplies));
    HandledAppend(c.log + NullAll(c.replies) + NullAll(c.subReplies), closed);
    assert closed[1..] == [] && Handled(closed) == [];
  }

  lemma NotedRecords(c: Client, r: Record)
    ensures Handled(Noted(c, r).log) == Handled(c.log) + Handled([r])
    ensures Handled([r]) == if r.Answered? || r.Nulled? then [r.id] else []
  {
    HandledAppend(c.log, [r]);
    assert [r][1..] == [];
  }

  // ---------- Guards ----------

  lemma {:induction false} GuardedDisarmed(stream: seq<Event>, n: nat, armed: bool)
    requires Guarded(stream, n, armed)
    ensures Guarded(stream, n, false)
    decreases stream
  {
    if n > 0 && stream[0].Reply? {
      GuardedDisarmed(stream[1..], n - 1, armed);
    }
  }

  lemma {:induction false} GuardedAppend(stream: seq<Event>, n: nat, armed: bool, more: seq<Event>)
    requires Guarded(stream, n, armed)
    ensures Guarded(stream + more, n, armed)
    decreases stream
  {
    if stream != [] {
      assert (stream + more)[1..] == stream[1..] + more;
      if n > 0 {
        GuardedAppend(stream[1..], if stream[0].Reply? then n - 1 else n, armed && stream[0].Reply?, more);
      }
    }
  }

  /** Where only answers and notices are in flight, the stream is guarded, also for what follows. */
  lemma {:induction false} QuietGuarded(stream: seq<Event>, more: seq<Event>, armed: bool)
    requires Quiet(stream) && (armed ==> more != [] && !more[0].Reply?)
    ensures Guarded(stream + more, |Ids(stream)|, armed)
    decreases stream
  {
    if stream != [] {
      assert (stream + more)[1..] == stream[1..] + more && (stream + more)[0] == stream[0];
      assert stream[0] in stream && forall e <- stream[1..] :: e in stream;
      QuietGuarded(stream[1..], more, armed);
      if stream[0].Notice? {
        QuietGuarded(stream[1..], more, false);
        if |Ids(stream)| == 0 && armed {
          assert !(stream + more)[0].Reply?;
        }
      }
    } else {
      assert stream + more == more;
    }
  }

  lemma {:induction false} GuardedInsert(front: set<Topic>, stream: seq<Event>, n: nat, armed: bool, at: nat, e: Event)
    requires Guarded(stream, n, armed) && at <= |stream| && (n > 0 ==> front == {})
    requires e.Notice? || (e.Message? && e.topic in Live(front, stream[..at]))
    ensures Guarded(Insert(stream, at, e), n, armed)
    decreases stream
  {
    var new_ := Insert(stream, at, e);
    if at == 0 {
      assert new_[1..] == stream;
      assert Live(front, stream[..0]) == front;
      GuardedDisarmed(stream, n, armed);
    } else {
      assert new_[1..] == Insert(stream[1..], at - 1, e) && new_[0] == stream[0];
      assert stream[..at][1..] == stream[1..][..at - 1];
      if n > 0 {
        GuardedInsert(front, stream[1..], if stream[0].Reply? then n - 1 else n, armed && stream[0].Reply?, at - 1, e);
      }
    }
  }

  /** With no subscription known and none to be forgotten, nothing but answers and notices is in flight. */
  lemma {:induction false} NothingInFlight(front: set<Topic>, stream: seq<Event>)
    requires forall t :: SubsDue(stream, t) == 0
    requires Owed(stream, {}) == 0 && front == {} && Honest(front, stream)
    ensures Quiet(stream)
    decreases stream
  {
    if stream != [] {
      var e, rest := stream[0], stream[1..];
      if e.SubAck? {
        var due := SubsDue(stream, e.topic);
        assert false;
      } else {
        forall t
          ensures SubsDue(rest, t) == 0
        {
          assert SubsDue(stream, t) == 0;
        }
        NothingInFlight(After(front, e), rest);
      }
    }
  }

  lemma QuietOutside(c: Client, front: set<Topic>, stream: seq<Event>)
    requires Books(c, front, stream) && c.subs == map[] && c.pendingUnsubs == 0
    ensures Quiet(stream) && front == {}
  {
    forall t
      ensures SubsDue(stream, t) == 0
    {
      assert PendingOk(c.subs, stream, t);
    }
    assert c.subs.Keys == {};
    NothingInFlight(front, stream);
  }

  // ---------- Issuing ----------

  lemma {:induction false} SubAcksShape(topics: seq<Topic>)
    ensures Ids(SubAcks(topics)) == []
    ensures topics != [] ==> SubAcks(topics) != [] && SubAcks(topics)[0].SubAck?
  {
    if topics != [] {
      SubAcksShape(topics[1..]);
      assert SubAcks(topics)[1..] == SubAcks(topics[1..]);
    }
  }

  lemma {:induction false} UnsubAcksShape(live: set<Topic>, topics: seq<Topic>)
    ensures Ids(UnsubAcks(live, topics)) == []
    decreases topics
  {
    if topics != [] {
      UnsubAcksShape(live - {topics[0]}, topics[1..]);
      assert UnsubAcks(live, topics)[1..] == UnsubAcks(live - {topics[0]}, topics[1..]);
    }
  }

  lemma AnswerIds(live: set<Topic>, cmd: Command, id: nat, shape: Shape, order: seq<Topic>)
    ensures Ids(Answer(live, cmd, id, shape, order)) == if cmd.Regular? then [id] else []
  {
    var one := Answer(live, cmd, id, shape, order);
    if cmd.Subscribe? {
      SubAcksShape(cmd.topics);
    } else if cmd.Unsubscribe? {
      UnsubAcksShape(live, cmd.topics);
    } else if cmd.UnsubscribeAll? && order != [] {
      UnsubAcksShape(live, order);
    } else {
      assert one[1..] == [];
    }
  }

  lemma {:induction false} DropsKeepQueues(c: Client, topics: seq<Topic>)
    ensures var d := DropTopics(c, topics);
            d == c.(subs := d.subs, pendingUnsubs := d.pendingUnsubs)
    decreases topics
  {
    if topics != [] {
      DropsKeepQueues(DropTopic(c, topics[0]), topics[1..]);
    }
  }

  lemma IssueKeepsRest(c: Client, cmd: Command, id: nat)
    requires Accepts(c, cmd)
    ensures var d := Issue(c, cmd, id);
            d == c.(subs := d.subs, pendingUnsubs := d.pendingUnsubs, replies := d.replies, subReplies := d.subReplies,
                    subscribed := c.subscribed || cmd.Subscribe?) &&
            (cmd.Regular? ==> d.subs == c.subs && d.pendingUnsubs == c.pendingUnsubs) &&
            d.replies == c.replies + (if cmd.Regular? && !c.subscribed then [id] else []) &&
            d.subReplies == c.subReplies + (if cmd.Regular? && c.subscribed then [id] else [])
  {
    if cmd.Unsubscribe? {
      DropsKeepQueues(c, cmd.topics);
    }
  }

  lemma IssueGuards(s: System, cmd: Command, shape: Shape, order: seq<Topic>)
    requires Inv(s) && Enabled(s, DoIssue(cmd, shape, order)) && Accepts(s.client, cmd)
    ensures var d := Issue(s.client, cmd, |s.issued|);
            Guarded(s.stream + Answer(Live(s.front, s.stream), cmd, |s.issued|, shape, order), |d.replies|, Armed(d))
    ensures Issue(s.client, cmd, |s.issued|).replies != [] ==> s.front == {}
  {
    var c, answer := s.client, Answer(Live(s.front, s.stream), cmd, |s.issued|, shape, order);
    IssueKeepsRest(c, cmd, |s.issued|);
    if !c.subscribed {
      QuietOutside(c, s.front, s.stream);
      if cmd.Subscribe? {
        SubAcksShape(cmd.topics);
        QuietGuarded(s.stream, answer, !c.supportsPush);
      } else {
        IdsAppend(s.stream, answer);
        AnswerIds(Live(s.front, s.stream), cmd, |s.issued|, shape, order);
        assert Quiet(s.stream + answer);
        QuietGuarded(s.stream + answer, [], false);
        assert s.stream + answer + [] == s.stream + answer;
      }
    } else {
      GuardedAppend(s.stream, |c.replies|, Armed(c), answer);
    }
  }

  lemma RegularsNext(issued: seq<Command>, cmd: Command)
    ensures Regulars(issued + [cmd]) == Regulars(issued) + if cmd.Regular? then [|issued|] else []
  {
    assert (issued + [cmd])[..|issued|] == issued;
  }

  lemma QueueGrows(handled: seq<nat>, replies: seq<nat>, subReplies: seq<nat>, id: nat)
    ensures handled + replies + (subReplies + [id]) == handled + replies + subReplies + [id]
    ensures replies + (subReplies + [id]) == replies + subReplies + [id]
    ensures subReplies == [] ==> handled + (replies + [id]) + subReplies == handled + replies + subReplies + [id] &&
                                 replies + [id] + subReplies == replies + subReplies + [id]
  {
  }

  lemma IssueKeeps(s: System, cmd: Command, shape: Shape, order: seq<Topic>)
    requires Inv(s) && Enabled(s, DoIssue(cmd, shape, order))
    ensures Inv(Next(s, DoIssue(cmd, shape, order)))
  {
    hide Issue, Answer, Books, Guarded, Ids, Live, Handled, Regulars, Matched;
    if Accepts(s.client, cmd) {
      var c, live := s.client, Live(s.front, s.stream);
      var d, answer := Issue(c, cmd, |s.issued|), Answer(live, cmd, |s.issued|, shape, order);
      IssueKeepsRest(c, cmd, |s.issued|);
      IssueGuards(s, cmd, shape, order);
      BooksIssue(c, s.front, s.stream, cmd, |s.issued|, shape, order);
      AnswerIds(live, cmd, |s.issued|, shape, order);
      IdsAppend(s.stream, answer);
      RegularsNext(s.issued, cmd);
      QueueGrows(Handled(c.log), c.replies, c.subReplies, |s.issued|);
      assert Recorded(d, s.issued + [cmd]);
      assert Ids(s.stream + answer) == d.replies + d.subReplies;
      assert Running(d, s.front, s.stream + answer);
    }
  }

  // ---------- Receiving ----------

  /** A reply is received by the callback of its own command. */
  lemma AnsweredRecords(c: Client, first: bool, e: Event, issued: seq<Command>)
    requires Recorded(c, issued) && !c.freed && e.Reply?
    requires if first then c.replies != [] && c.replies[0] == e.id
             else c.replies == [] && c.subReplies != [] && c.subReplies[0] == e.id
    ensures var d := if first then c.(replies := c.replies[1..]) else c.(subReplies := c.subReplies[1..]);
            Recorded(Noted(d, Answered(e.id, e)), issued)
  {
    hide Handled;
    NotedRecords(c, Answered(e.id, e));
    var log := Noted(c, Answered(e.id, e)).log;
    forall r <- log
      ensures r.Answered? ==> r.reply.Reply? && r.reply.id == r.id
    {
      assert r in c.log || r == Answered(e.id, e);
    }
    var queue := if first then c.replies else c.subReplies;
    assert queue == [e.id] + queue[1..];
  }

  lemma ReplyKeeps(s: System)
    requires Inv(s) && Enabled(s, DoDeliver) && s.stream[0].Reply?
    ensures Inv(Next(s, DoDeliver))
  {
    var c, e, rest := s.client, s.stream[0], s.stream[1..];
    BooksReceive(c, s.front, s.stream);
    assert Ids(s.stream) == [e.id] + Ids(rest);
    assert (c.replies + c.subReplies)[0] == e.id && (c.replies + c.subReplies)[1..] == Ids(rest);
    if c.replies != [] {
      AnsweredRecords(c, true, e, s.issued);
    } else if e.shape.Error? {
      FreeRecords(c.(disconnecting := true), s.issued);
    } else {
      AnsweredRecords(c, false, e, s.issued);
    }
  }

  lemma NoticePasses(stream: seq<Event>, n: nat, armed: bool)
    requires Guarded(stream, n, armed) && stream != [] && stream[0].Notice?
    ensures Guarded(stream[1..], n, false) && Ids(stream) == Ids(stream[1..])
  {
  }

  lemma SameBooks(c: Client, d: Client, front: set<Topic>, stream: seq<Event>)
    requires Books(c, front, stream) && d.subs == c.subs && d.pendingUnsubs == c.pendingUnsubs
    ensures Books(d, front, stream)
  {
    hide Live, Owed, Honest, PendingAll;
  }

  lemma NoticeKeeps(s: System)
    requires Inv(s) && Enabled(s, DoDeliver) && s.stream[0].Notice?
    ensures Inv(Next(s, DoDeliver))
  {
    hide Books, Handled, Guarded, Regulars, Ids;
    var c, rest := s.client, s.stream[1..];
    BooksReceive(c, s.front, s.stream);
    NotedRecords(c.(supportsPush := true), Pushed);
    NoticePasses(s.stream, |c.replies|, Armed(c));
    var d := c.(supportsPush := true);
    SameBooks(c, d, s.front, rest);
    NotedBooks(d, Pushed, s.front, rest);
    assert Running(Noted(d, Pushed), s.front, rest) && Recorded(Noted(d, Pushed), s.issued);
  }

  /** What concerns a subscription arrives only when no regular callback is in the way. */
  lemma Unobstructed(s: System)
    requires Inv(s) && Enabled(s, DoDeliver) && !s.stream[0].Reply? && !s.stream[0].Notice?
    ensures s.client.replies == [] && s.client.subscribed
  {
    if !s.client.subscribed {
      QuietOutside(s.client, s.front, s.stream);
      assert false;
    }
  }

  lemma NotedBooks(c: Client, r: Record, front: set<Topic>, stream: seq<Event>)
    requires Books(c, front, stream)
    ensures Books(Noted(c, r), front, stream)
  {
    hide Live, Owed, Honest;
  }

  lemma NotifyKeeps(c: Client, subs: map<Topic, Subscription>, of: Option<Topic>, e: Event, front: set<Topic>,
      stream: seq<Event>, issued: seq<Command>)
    requires Running(c, front, stream) && Recorded(c, issued)
    ensures Running(Notify(c, subs, of, e), front, stream) && Recorded(Notify(c, subs, of, e), issued)
  {
    hide Books, Guarded, Handled, Ids;
    if of.Some? && of.value in subs {
      NotedBooks(c, Notified(subs[of.value].fn, e), front, stream);
      NotedRecords(c, Notified(subs[of.value].fn, e));
    }
  }

  lemma PushKeeps(s: System)
    requires Inv(s) && Enabled(s, DoDeliver) && (s.stream[0].SubAck? || s.stream[0].Message?)
    ensures Inv(Next(s, DoDeliver))
  {
    Unobstructed(s);
    var e, rest := s.stream[0], s.stream[1..];
    var c := s.client.(supportsPush := true);
    if e.SubAck? {
      BooksSubAck(s.client, s.front, s.stream, e.topic);
      var d := c.(subs := c.subs[e.topic := c.subs[e.topic].(pending := c.subs[e.topic].pending - 1)]);
      assert Running(d, s.front + {e.topic}, rest);
      NotifyKeeps(d, c.subs, Some(e.topic), e, s.front + {e.topic}, rest, s.issued);
    } else {
      BooksReceive(s.client, s.front, s.stream);
      assert Running(c, s.front, rest);
      NotifyKeeps(c, c.subs, Some(e.topic), e, s.front, rest, s.issued);
    }
  }

  /** When the last unsubscription is confirmed, the commands issued meanwhile move over. */
  lemma LeaveKeeps(c: Client, front: set<Topic>, stream: seq<Event>, issued: seq<Command>, count: nat)
    requires Running(c, front, stream) && Recorded(c, issued) && c.replies == [] && c.supportsPush && count == |front|
    ensures Running(Leave(c, count), front, stream) && Recorded(Leave(c, count), issued)
  {
    if count == 0 && c.subs == map[] && c.pendingUnsubs == 0 {
      QuietOutside(c, front, stream);
      QuietGuarded(stream, [], false);
      assert stream + [] == stream;
    }
  }

  /** The client after the accounting for a confirmed unsubscription, before it leaves subscribed mode. */
  lemma ConfirmKeeps(s: System)
    requires Inv(s) && Enabled(s, DoDeliver) && s.stream[0].UnsubAck?
    ensures var d := Confirm(s.client.(supportsPush := true), s.stream[0].of);
            Running(d, After(s.front, s.stream[0]), s.stream[1..]) && Recorded(d, s.issued) && d.replies == []
    ensures s.stream[0].count == |After(s.front, s.stream[0])|
  {
    hide Handled, Matched;
    Unobstructed(s);
    BooksConfirm(s.client.(supportsPush := true), s.front, s.stream);
  }

  lemma UnsubAckKeeps(s: System)
    requires Inv(s) && Enabled(s, DoDeliver) && s.stream[0].UnsubAck?
    ensures Inv(Next(s, DoDeliver))
  {
    hide Running, Recorded;
    Unobstructed(s);
    ConfirmKeeps(s);
    var e, rest := s.stream[0], s.stream[1..];
    var c := s.client.(supportsPush := true);
    var front := After(s.front, e);
    var d := Confirm(c, e.of);
    LeaveKeeps(d, front, rest, s.issued, e.count);
    NotifyKeeps(Leave(d, e.count), c.subs, e.of, e, front, rest, s.issued);
  }

  // ---------- Every step, every run ----------

  lemma InsertKeeps(s: System, at: nat, e: Event)
    requires Inv(s) && !s.client.freed && at <= |s.stream|
    requires e.Notice? || (e.Message? && e.topic in Live(s.front, s.stream[..at]))
    ensures Inv(s.(stream := Insert(s.stream, at, e)))
  {
    BooksInsert(s.client, s.front, s.stream, at, e);
    InsertNeutral(s.front, s.stream, at, e);
    GuardedInsert(s.front, s.stream, |s.client.replies|, Armed(s.client), at, e);
  }

  lemma StepKeeps(s: System, step: Step)
    requires Inv(s) && Enabled(s, step)
    ensures Inv(Next(s, step))
  {
    match step
    case DoIssue(cmd, shape, order) => IssueKeeps(s, cmd, shape, order);
    case DoPublish(at, topic) => InsertKeeps(s, at, Message(topic));
    case DoNotice(at) => InsertKeeps(s, at, Notice);
    case DoDeliver =>
      if s.stream[0].Reply? {
        ReplyKeeps(s);
      } else if s.stream[0].Notice? {
        NoticeKeeps(s);
      } else if s.stream[0].UnsubAck? {
        UnsubAckKeeps(s);
      } else {
        PushKeeps(s);
      }
    case DoIdle(_) => FreeRecords(s.client, s.issued);
    case DoQuit => FreeRecords(s.client.(disconnecting := true), s.issued);
    case DoFree => FreeRecords(s.client, s.issued);
    case DoBreak => FreeRecords(s.client.(disconnecting := true), s.issued);
  }

  const START := System(CONNECTED, {}, [], [])

  lemma StartKept()
    ensures Inv(START)
  {
    assert forall t :: PendingOk(map[], [], t);
  }

  predicate Follows(s: System, steps: seq<Step>)
    decreases steps
  {
    steps == [] || (Enabled(s, steps[0]) && Follows(Next(s, steps[0]), steps[1..]))
  }

  function Run(s: System, steps: seq<Step>): System
    requires Follows(s, steps)
    decreases steps
  {
    if steps == [] then s else Run(Next(s, steps[0]), steps[1..])
  }

  lemma {:induction false} RunKeeps(s: System, steps: seq<Step>)
    requires Inv(s) && Follows(s, steps)
    ensures Inv(Run(s, steps))
    decreases steps
  {
    if steps != [] {
      StepKeeps(s, steps[0]);
      RunKeeps(Next(s, steps[0]), steps[1..]);
    }
  }

  /** In every run: no assertion fails; the commands whose callbacks have run, followed by those in
      the two queues, are the regular commands issued, in order; each callback that ran with a reply
      ran with the reply to its own command; and outside subscribed mode the second queue is empty.
      Once the context is freed, every regular command issued has been handled exactly once. */
  lemma EveryRun(steps: seq<Step>)
    requires Follows(START, steps)
    ensures var s := Run(START, steps);
            var all := Handled(s.client.log) + s.client.replies + s.client.subReplies;
            !s.client.broken && Matched(s.client.log) &&
            Ascending(all) && (forall id: nat :: id in all <==> id < |s.issued| && s.issued[id].Regular?) &&
            (!s.client.subscribed && !s.client.freed ==> s.client.subReplies == []) &&
            (s.client.freed ==> Handled(s.client.log) == all)
  {
    RegularsAre(Run(START, steps).issued);
    StartKept();
    RunKeeps(START, steps);
  }
}
