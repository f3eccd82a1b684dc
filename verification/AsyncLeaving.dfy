/** When does a context leave subscribed mode? Once the server holds no subscription and all its
    confirmations have arrived, one would expect. That fails exactly after a SUBSCRIBE whose
    bookkeeping counts too much, and then the context stays in subscribed mode for good. */
module AsyncLeaving {
  import opened Wrappers
  import opened AsyncMatcher
  import opened AsyncRuns

  /** How many of the messages owed concern `t`. */
  function Ignored(stream: seq<Event>, known: set<Topic>, t: Topic): nat
  {
    if stream == [] then 0 else
      var e, rest := stream[0], stream[1..];
      if !e.UnsubAck? then Ignored(rest, known, t)
      else if e.of.None? || e.of.value !in known then (if Drops(e, t) then 1 else 0) + Ignored(rest, known, t)
      else if SubsDue(rest, e.of.value) > 0 then Ignored(rest, known, t)
      else Ignored(rest, known - {e.of.value}, t)
  }

  /** A SUBSCRIBE counts exactly if no unsubscription from one of its topics that was counted as
      pending is still to be confirmed, and no new topic inherits a count other than one. */
  predicate Exactly(subs: map<Topic, Subscription>, stream: seq<Event>, topics: seq<Topic>, fn: nat, carried: int)
    decreases topics
  {
    topics == [] ||
    var t := topics[0];
    var pending := if t in subs then subs[t].pending + 1 else carried;
    Ignored(stream, subs.Keys, t) == 0 && (t !in subs ==> carried == 1) &&
    Exactly(subs[t := Subscription(fn, pending, false)], stream + [SubAck(t)], topics[1..], fn, pending)
  }

  predicate Miscounts(s: System, step: Step)
  {
    step.DoIssue? && step.cmd.Subscribe? && Accepts(s.client, step.cmd) &&
    !Exactly(s.client.subs, s.stream, step.cmd.topics, |s.issued|, 1)
  }

  predicate EverMiscounts(s: System, steps: seq<Step>)
    requires Follows(s, steps)
    decreases steps
  {
    steps != [] && (Miscounts(s, steps[0]) || EverMiscounts(Next(s, steps[0]), steps[1..]))
  }

  // ---------- Exact counts and counts that are too high ----------

  predicate ExactOk(subs: map<Topic, Subscription>, stream: seq<Event>, t: Topic)
  {
    t in subs ==> subs[t].pending == SubsDue(stream, t) && (subs[t].sent ==> !Covered(stream, t))
  }

  ghost predicate Tight(subs: map<Topic, Subscription>, pend: int, stream: seq<Event>)
  {
    (forall t :: ExactOk(subs, stream, t)) && pend == Owed(stream, subs.Keys)
  }

  predicate TooMany(subs: map<Topic, Subscription>, stream: seq<Event>, t: Topic)
  {
    t in subs && subs[t].pending > SubsDue(stream, t)
  }

  ghost predicate Over(subs: map<Topic, Subscription>, pend: int, stream: seq<Event>)
  {
    pend > Owed(stream, subs.Keys) || exists t :: TooMany(subs, stream, t)
  }

  ghost predicate Judged(c: Client, stream: seq<Event>, over: bool)
  {
    if over then Over(c.subs, c.pendingUnsubs, stream) else Tight(c.subs, c.pendingUnsubs, stream)
  }

  // ---------- Exact forms of the accounting ----------

  lemma {:induction false} OweSubExact(stream: seq<Event>, t: Topic, known: set<Topic>)
    ensures Owed(stream + [SubAck(t)], known + {t}) == Owed(stream, known) - Ignored(stream, known, t)
  {
    if stream == [] {
      assert (stream + [SubAck(t)])[1..] == [];
    } else {
      var e, rest := stream[0], stream[1..];
      assert (stream + [SubAck(t)])[1..] == rest + [SubAck(t)];
      OweSubExact(rest, t, known);
      if e.UnsubAck? && e.of.Some? {
        var x := e.of.value;
        AppendDue(rest, SubAck(t), x);
        OweSubExact(rest, t, known - {x});
        if x == t {
          assert known - {x} + {t} == known + {t};
        } else {
          assert known - {x} + {t} == known + {t} - {x};
        }
      }
    }
  }

  lemma {:induction false} OweUnsubExact(stream: seq<Event>, u: Event, known: set<Topic>)
    requires u.UnsubAck? && (u.of.None? || u.of.value !in known || !Covered(stream, u.of.value))
    ensures Owed(stream + [u], known) == Owed(stream, known) + 1
  {
    if stream == [] {
      assert (stream + [u])[1..] == [];
    } else {
      var e, rest := stream[0], stream[1..];
      assert (stream + [u])[1..] == rest + [u];
      if e.UnsubAck? && e.of.Some? && e.of.value in known {
        AppendDue(rest, u, e.of.value);
        if SubsDue(rest, e.of.value) > 0 {
          OweUnsubExact(rest, u, known);
        } else {
          OweUnsubExact(rest, u, known - {e.of.value});
        }
      } else {
        OweUnsubExact(rest, u, known);
      }
    }
  }

  // ---------- Issuing ----------

  lemma JudgeSubscribe(c: Client, front: set<Topic>, stream: seq<Event>, t: Topic, fn: nat, carried: int, over: bool)
    requires Books(c, front, stream) && carried >= 1 && Judged(c, stream, over)
    ensures var pending := if t in c.subs then c.subs[t].pending + 1 else carried;
            Judged(c.(subs := c.subs[t := Subscription(fn, pending, false)]), stream + [SubAck(t)],
              over || Ignored(stream, c.subs.Keys, t) > 0 || (t !in c.subs && carried != 1))
  {
    var pending := if t in c.subs then c.subs[t].pending + 1 else carried;
    var subs, done := c.subs[t := Subscription(fn, pending, false)], stream + [SubAck(t)];
    OweSubExact(stream, t, c.subs.Keys);
    assert subs.Keys == c.subs.Keys + {t};
    assert PendingOk(c.subs, stream, t);
    AppendDue(stream, SubAck(t), t);
    if over {
      if x :| TooMany(c.subs, stream, x) {
        AppendDue(stream, SubAck(t), x);
        assert TooMany(subs, done, x);
      }
    } else {
      forall x
        ensures x != t ==> ExactOk(subs, done, x)
      {
        assert ExactOk(c.subs, stream, x);
        AppendDue(stream, SubAck(t), x);
      }
      if t !in c.subs && carried != 1 {
        assert TooMany(subs, done, t);
      } else {
        assert ExactOk(c.subs, stream, t) && ExactOk(subs, done, t);
      }
    }
  }

  lemma OverAppend(subs: map<Topic, Subscription>, after: map<Topic, Subscription>, stream: seq<Event>, e: Event)
    requires !e.SubAck? && after.Keys == subs.Keys && forall t <- subs :: after[t].pending == subs[t].pending
    ensures (exists t :: TooMany(subs, stream, t)) ==> exists t :: TooMany(after, stream + [e], t)
  {
    if t :| TooMany(subs, stream, t) {
      AppendDue(stream, e, t);
      assert TooMany(after, stream + [e], t);
    }
  }

  lemma TightAppend(subs: map<Topic, Subscription>, stream: seq<Event>, e: Event)
    requires (forall t :: ExactOk(subs, stream, t)) && !e.SubAck?
    ensures forall t :: ExactOk(subs, stream + [e], t)
  {
    forall t
      ensures ExactOk(subs, stream + [e], t)
    {
      assert ExactOk(subs, stream, t);
      AppendDue(stream, e, t);
    }
  }

  lemma JudgeUnsubscribe(c: Client, front: set<Topic>, stream: seq<Event>, t: Topic, count: nat, over: bool)
    requires Books(c, front, stream) && Judged(c, stream, over)
    ensures Judged(DropTopic(c, t), stream + [UnsubAck(Some(t), count)], over)
  {
    var u := UnsubAck(Some(t), count);
    assert PendingOk(c.subs, stream, t);
    OweUnsub(stream, u, c.subs.Keys);
    if over {
      OverUnsubscribe(c, stream, t, u);
    } else {
      TightUnsubscribe(c, stream, t, u);
    }
  }

  lemma OverUnsubscribe(c: Client, stream: seq<Event>, t: Topic, u: Event)
    requires Over(c.subs, c.pendingUnsubs, stream) && Drops(u, t)
    requires t in c.subs && !c.subs[t].sent ==> Covered(stream, t)
    ensures Over(DropTopic(c, t).subs, DropTopic(c, t).pendingUnsubs, stream + [u])
  {
    var subs := DropTopic(c, t).subs;
    assert subs.Keys == c.subs.Keys;
    OweUnsub(stream, u, c.subs.Keys);
    OverAppend(c.subs, subs, stream, u);
  }

  lemma TightUnsubscribe(c: Client, stream: seq<Event>, t: Topic, u: Event)
    requires Tight(c.subs, c.pendingUnsubs, stream) && Drops(u, t)
    requires t in c.subs && !c.subs[t].sent ==> Covered(stream, t)
    ensures Tight(DropTopic(c, t).subs, DropTopic(c, t).pendingUnsubs, stream + [u])
  {
    var subs := DropTopic(c, t).subs;
    assert subs.Keys == c.subs.Keys;
    assert ExactOk(c.subs, stream, t);
    TightAppend(c.subs, stream, u);
    AppendDue(stream, u, t);
    if t !in c.subs || c.subs[t].sent {
      OweUnsubExact(stream, u, c.subs.Keys);
    } else {
      OweUnsub(stream, u, c.subs.Keys);
      forall x
        ensures ExactOk(subs, stream + [u], x)
      {
        assert ExactOk(c.subs, stream + [u], x);
      }
    }
  }

  lemma JudgeOther(c: Client, front: set<Topic>, stream: seq<Event>, e: Event, over: bool)
    requires Books(c, front, stream) && Judged(c, stream, over) && (e.Reply? || (e.UnsubAck? && e.of.None?))
    ensures Judged(if e.Reply? then c else c.(pendingUnsubs := c.pendingUnsubs + 1), stream + [e], over)
  {
    if e.Reply? {
      OweReply(stream, e, c.subs.Keys);
    } else {
      OweUnsubExact(stream, e, c.subs.Keys);
    }
    if over {
      OverAppend(c.subs, c.subs, stream, e);
    } else {
      TightAppend(c.subs, stream, e);
    }
  }

  lemma {:induction false} JudgeSubscribeAll(c: Client, front: set<Topic>, stream: seq<Event>, topics: seq<Topic>,
      fn: nat, carried: int, over: bool)
    requires Books(c, front, stream) && carried >= 1 && Judged(c, stream, over)
    ensures Judged(c.(subs := AddTopics(c.subs, topics, fn, carried)), stream + SubAcks(topics),
              over || !Exactly(c.subs, stream, topics, fn, carried))
    decreases topics
  {
    if topics == [] {
      assert stream + SubAcks(topics) == stream;
    } else {
      var t := topics[0];
      var pending := if t in c.subs then c.subs[t].pending + 1 else carried;
      BooksSubscribe(c, front, stream, t, fn, carried);
      JudgeSubscribe(c, front, stream, t, fn, carried, over);
      var d := c.(subs := c.subs[t := Subscription(fn, pending, false)]);
      var done, rest := stream + [SubAck(t)], SubAcks(topics[1..]);
      var now := over || Ignored(stream, c.subs.Keys, t) > 0 || (t !in c.subs && carried != 1);
      JudgeSubscribeAll(d, front, done, topics[1..], fn, pending, now);
      assert SubAcks(topics) == [SubAck(t)] + rest && done + rest == stream + SubAcks(topics);
    }
  }

  lemma {:induction false} JudgeUnsubscribeEach(c: Client, front: set<Topic>, stream: seq<Event>, topics: seq<Topic>,
      over: bool)
    requires Books(c, front, stream) && Judged(c, stream, over)
    ensures Judged(DropTopics(c, topics), stream + UnsubAcks(Live(front, stream), topics), over)
    decreases topics
  {
    var live := Live(front, stream);
    if topics == [] {
      assert stream + UnsubAcks(live, topics) == stream;
    } else {
      var t := topics[0];
      var u := UnsubAck(Some(t), |live - {t}|);
      BooksUnsubscribe(c, front, stream, t);
      JudgeUnsubscribe(c, front, stream, t, u.count, over);
      AppendLive(front, stream, u);
      var d, done, rest := DropTopic(c, t), stream + [u], UnsubAcks(live - {t}, topics[1..]);
      JudgeUnsubscribeEach(d, front, done, topics[1..], over);
      assert UnsubAcks(live, topics) == [u] + rest && done + rest == stream + UnsubAcks(live, topics);
    }
  }

  lemma JudgeIssue(s: System, step: Step, over: bool)
    requires Inv(s) && Enabled(s, step) && step.DoIssue? && Accepts(s.client, step.cmd) &&
             Judged(s.client, s.stream, over)
    ensures Judged(Next(s, step).client, Next(s, step).stream, over || Miscounts(s, step))
  {
    var c, cmd, order := s.client, step.cmd, step.order;
    if cmd.Regular? {
      JudgeOther(c, s.front, s.stream, Reply(|s.issued|, step.shape), over);
    } else if cmd.Subscribe? {
      JudgeSubscribeAll(c, s.front, s.stream, cmd.topics, |s.issued|, 1, over);
    } else if cmd.Unsubscribe? {
      JudgeUnsubscribeEach(c, s.front, s.stream, cmd.topics, over);
    } else {
      var some := OfVariant(Unsent(c.subs), cmd.pattern);
      if order == [] {
        assert Elements(order) == {} && some == {};
        JudgeOther(c, s.front, s.stream, UnsubAck(None, |Live(s.front, s.stream)|), over);
      } else {
        assert order[0] in Elements(order);
        DropAllIsDropTopics(c, order, cmd.pattern);
        JudgeUnsubscribeEach(c, s.front, s.stream, order, over);
      }
    }
  }

  // ---------- Receiving ----------

  lemma JudgeReceive(c: Client, stream: seq<Event>, over: bool)
    requires stream != [] && !stream[0].SubAck? && !stream[0].UnsubAck? && Judged(c, stream, over)
    ensures Judged(c, stream[1..], over)
  {
    var rest := stream[1..];
    if over {
      if x :| TooMany(c.subs, stream, x) {
        assert TooMany(c.subs, rest, x);
      }
    } else {
      forall x
        ensures ExactOk(c.subs, rest, x)
      {
        assert ExactOk(c.subs, stream, x);
      }
    }
  }

  lemma JudgeSubAck(c: Client, stream: seq<Event>, t: Topic, over: bool)
    requires stream != [] && stream[0] == SubAck(t) && Judged(c, stream, over) && t in c.subs
    ensures Judged(c.(subs := c.subs[t := c.subs[t].(pending := c.subs[t].pending - 1)]), stream[1..], over)
  {
    var subs, rest := c.subs[t := c.subs[t].(pending := c.subs[t].pending - 1)], stream[1..];
    assert subs.Keys == c.subs.Keys;
    if over {
      if x :| TooMany(c.subs, stream, x) {
        assert TooMany(subs, rest, x);
      }
    } else {
      forall x
        ensures ExactOk(subs, rest, x)
      {
        assert ExactOk(c.subs, stream, x);
      }
    }
  }

  lemma JudgeConfirm(c: Client, front: set<Topic>, stream: seq<Event>, over: bool)
    requires stream != [] && stream[0].UnsubAck? && Books(c, front, stream) && Judged(c, stream, over)
    ensures Judged(Confirm(c, stream[0].of), stream[1..], over)
  {
    var of, rest := stream[0].of, stream[1..];
    if of.Some? && of.value in c.subs {
      assert PendingOk(c.subs, stream, of.value);
      KnowingLess(rest, c.subs.Keys, c.subs.Keys - {of.value});
    }
    if over {
      OverConfirm(c, stream);
    } else {
      TightConfirm(c, stream);
    }
  }

  /** The topic of a confirmed unsubscription goes only when no subscription to it is pending. */
  lemma ConfirmedKeys(c: Client, t: Topic)
    requires t in c.subs
    ensures Confirm(c, Some(t)).subs.Keys == if c.subs[t].pending == 0 then c.subs.Keys - {t} else c.subs.Keys
  {
  }

  lemma DueAfter(stream: seq<Event>, t: Topic)
    requires stream != [] && stream[0].UnsubAck?
    ensures SubsDue(stream, t) == SubsDue(stream[1..], t)
  {
  }

  lemma OverConfirm(c: Client, stream: seq<Event>)
    requires stream != [] && stream[0].UnsubAck? && Over(c.subs, c.pendingUnsubs, stream)
    requires forall t <- c.subs :: stream[0].of == Some(t) ==>
               Owed(stream[1..], c.subs.Keys) <= Owed(stream[1..], c.subs.Keys - {t}) &&
               (c.subs[t].pending == 0 ==> SubsDue(stream[1..], t) == 0)
    ensures var d := Confirm(c, stream[0].of); Over(d.subs, d.pendingUnsubs, stream[1..])
  {
    hide SubsDue;
    var of, rest := stream[0].of, stream[1..];
    if of.Some? && of.value in c.subs {
      ConfirmedKeys(c, of.value);
    }
    if x :| TooMany(c.subs, stream, x) {
      DueAfter(stream, x);
      assert TooMany(Confirm(c, of).subs, rest, x);
    }
  }

  lemma TightConfirm(c: Client, stream: seq<Event>)
    requires stream != [] && stream[0].UnsubAck? && Tight(c.subs, c.pendingUnsubs, stream)
    ensures var d := Confirm(c, stream[0].of); Tight(d.subs, d.pendingUnsubs, stream[1..])
  {
    var of, rest := stream[0].of, stream[1..];
    if of.Some? && of.value in c.subs {
      ConfirmedKeys(c, of.value);
      assert ExactOk(c.subs, stream, of.value);
    }
    forall x
      ensures ExactOk(Confirm(c, of).subs, rest, x)
    {
      assert ExactOk(c.subs, stream, x);
    }
  }

  lemma JudgeInsert(c: Client, stream: seq<Event>, at: nat, e: Event, over: bool)
    requires at <= |stream| && (e.Message? || e.Notice?) && Judged(c, stream, over)
    ensures Judged(c, Insert(stream, at, e), over)
  {
    InsertOwed(stream, at, e, c.subs.Keys);
    if over {
      if x :| TooMany(c.subs, stream, x) {
        InsertDue(stream, at, e, x);
        assert TooMany(c.subs, Insert(stream, at, e), x);
      }
    } else {
      forall x
        ensures ExactOk(c.subs, Insert(stream, at, e), x)
      {
        assert ExactOk(c.subs, stream, x);
        InsertDue(stream, at, e, x);
      }
    }
  }

  // ---------- Leaving ----------

  predicate Confirmation(e: Event) { e.SubAck? || e.UnsubAck? }

  predicate AllConfirmed(stream: seq<Event>)
  {
    forall e <- stream :: !Confirmation(e)
  }

  lemma {:induction false} NothingConfirmed(front: set<Topic>, stream: seq<Event>, known: set<Topic>, t: Topic)
    requires AllConfirmed(stream)
    ensures Live(front, stream) == front && Owed(stream, known) == 0 && SubsDue(stream, t) == 0 && Covered(stream, t)
  {
    if stream != [] {
      assert stream[0] in stream && forall e <- stream[1..] :: e in stream;
      NothingConfirmed(front, stream[1..], known, t);
    }
  }

  /** As long as the counts are exact, subscribed mode means that something is still subscribed or to
      be confirmed; as soon as one is too high, the context stays in it. */
  ghost predicate Judgement(s: System, over: bool)
  {
    Judged(s.client, s.stream, over) &&
    if over then s.client.subscribed
    else s.client.subscribed && Live(s.front, s.stream) == {} ==> !AllConfirmed(s.stream)
  }

  lemma ExactEmpties(c: Client, front: set<Topic>, stream: seq<Event>)
    requires Books(c, front, stream) && Tight(c.subs, c.pendingUnsubs, stream)
    requires AllConfirmed(stream) && Live(front, stream) == {}
    ensures c.subs == map[] && c.pendingUnsubs == 0 && front == {}
  {
    if c.subs != map[] {
      var t :| t in c.subs;
      NothingConfirmed(front, stream, c.subs.Keys, t);
      var exact, unsent := ExactOk(c.subs, stream, t), t in Unsent(c.subs);
      assert false;
    }
    NothingConfirmed(front, stream, c.subs.Keys, Topic(false, ""));
  }

  lemma OverNeverLeaves(c: Client, stream: seq<Event>, count: nat)
    requires Over(c.subs, c.pendingUnsubs, stream)
    ensures Leave(c, count) == c
  {
    if t :| TooMany(c.subs, stream, t) {
      assert t in c.subs;
    }
  }

  lemma ConfirmJudged(s: System, over: bool)
    requires Inv(s) && Enabled(s, DoDeliver) && s.stream[0].UnsubAck? && Judged(s.client, s.stream, over)
    ensures var d, e := Confirm(s.client.(supportsPush := true), s.stream[0].of), s.stream[0];
            Books(d, After(s.front, e), s.stream[1..]) && Judged(d, s.stream[1..], over) &&
            e.count == |After(s.front, e)|
  {
    hide Books, Owed;
    ConfirmKeeps(s);
    RunningBooks(s);
    JudgeConfirm(s.client, s.front, s.stream, over);
  }

  lemma RunningBooks(s: System)
    requires Inv(s)
    ensures !s.client.freed ==> Books(s.client, s.front, s.stream)
    ensures forall c: Client, front: set<Topic>, stream: seq<Event> ::
              Running(c, front, stream) ==> Books(c, front, stream)
  {
  }

  lemma JudgementConfirm(s: System, over: bool)
    requires Inv(s) && Enabled(s, DoDeliver) && s.stream[0].UnsubAck? && Judgement(s, over)
    ensures Judgement(Next(s, DoDeliver), over)
  {
    hide Books, Over, Tight;
    Unobstructed(s);
    ConfirmJudged(s, over);
    var e := s.stream[0];
    var d := Confirm(s.client.(supportsPush := true), e.of);
    LeaveJudged(d, After(s.front, e), s.stream[1..], e.count, over);
  }

  lemma LeaveJudged(c: Client, front: set<Topic>, stream: seq<Event>, count: nat, over: bool)
    requires Books(c, front, stream) && Judged(c, stream, over) && c.subscribed && count == |front|
    ensures Judged(Leave(c, count), stream, over)
    ensures if over then Leave(c, count).subscribed
            else Leave(c, count).subscribed && Live(front, stream) == {} ==> !AllConfirmed(stream)
  {
    if over {
      OverNeverLeaves(c, stream, count);
    } else if AllConfirmed(stream) && Live(front, stream) == {} {
      ExactEmpties(c, front, stream);
    }
  }

  lemma JudgementSubAck(s: System, over: bool)
    requires Inv(s) && Enabled(s, DoDeliver) && s.stream[0].SubAck? && Judgement(s, over)
    ensures Judgement(Next(s, DoDeliver), over)
  {
    Unobstructed(s);
    BooksSubAck(s.client, s.front, s.stream, s.stream[0].topic);
    JudgeSubAck(s.client, s.stream, s.stream[0].topic, over);
    if AllConfirmed(s.stream[1..]) {
      NothingConfirmed(After(s.front, s.stream[0]), s.stream[1..], {}, s.stream[0].topic);
    }
  }

  lemma JudgementOther(s: System, over: bool)
    requires Inv(s) && Enabled(s, DoDeliver) && !Confirmation(s.stream[0]) && Judgement(s, over)
    ensures !Next(s, DoDeliver).client.freed ==> Judgement(Next(s, DoDeliver), over)
  {
    JudgeReceive(s.client, s.stream, over);
    if s.stream[0].Message? {
      Unobstructed(s);
    }
    assert s.stream == [s.stream[0]] + s.stream[1..];
  }

  lemma JudgementIssue(s: System, step: Step, over: bool)
    requires Inv(s) && Enabled(s, step) && step.DoIssue? && Judgement(s, over)
    ensures Judgement(Next(s, step), over || Miscounts(s, step))
  {
    if Accepts(s.client, step.cmd) {
      JudgeIssue(s, step, over);
      IssueKeepsRest(s.client, step.cmd, |s.issued|);
      var live := Live(s.front, s.stream);
      var answer := Answer(live, step.cmd, |s.issued|, step.shape, step.order);
      assert answer != [] && answer[0] in s.stream + answer;
      if step.cmd.Regular? {
        AppendLive(s.front, s.stream, answer[0]);
        assert forall e <- s.stream :: e in s.stream + answer;
      } else {
        assert Confirmation(answer[0]);
      }
    }
  }

  lemma JudgementInsert(s: System, at: nat, e: Event, over: bool)
    requires Inv(s) && !s.client.freed && at <= |s.stream| && (e.Message? || e.Notice?) && Judgement(s, over)
    ensures Judgement(s.(stream := Insert(s.stream, at, e)), over)
  {
    JudgeInsert(s.client, s.stream, at, e, over);
    InsertNeutral(s.front, s.stream, at, e);
    assert s.stream == s.stream[..at] + s.stream[at..];
    assert forall x <- s.stream :: x in Insert(s.stream, at, e);
  }

  lemma JudgementStep(s: System, step: Step, over: bool)
    requires Inv(s) && Enabled(s, step) && Judgement(s, over)
    ensures !Next(s, step).client.freed ==> Judgement(Next(s, step), over || Miscounts(s, step))
  {
    match step
    case DoIssue(cmd, shape, order) => JudgementIssue(s, step, over);
    case DoPublish(at, topic) => JudgementInsert(s, at, Message(topic), over);
    case DoNotice(at) => JudgementInsert(s, at, Notice, over);
    case DoDeliver =>
      if s.stream[0].UnsubAck? {
        JudgementConfirm(s, over);
      } else if s.stream[0].SubAck? {
        JudgementSubAck(s, over);
      } else {
        JudgementOther(s, over);
      }
    case DoIdle(_) =>
    case DoQuit =>
    case DoFree =>
    case DoBreak =>
  }

  lemma FreedForGood(s: System, steps: seq<Step>)
    requires s.client.freed && Follows(s, steps)
    ensures steps == []
  {
  }

  lemma {:induction false} JudgementRun(s: System, steps: seq<Step>, over: bool)
    requires Inv(s) && Follows(s, steps) && Judgement(s, over)
    ensures !Run(s, steps).client.freed ==> Judgement(Run(s, steps), over || EverMiscounts(s, steps))
    decreases steps
  {
    if steps != [] {
      StepKeeps(s, steps[0]);
      JudgementStep(s, steps[0], over);
      if Next(s, steps[0]).client.freed {
        FreedForGood(Next(s, steps[0]), steps[1..]);
      } else {
        JudgementRun(Next(s, steps[0]), steps[1..], over || Miscounts(s, steps[0]));
      }
    }
  }

  /** A context whose server holds no subscription, with nothing left to confirm, is still in
      subscribed mode if and only if some SUBSCRIBE of the run miscounted. */
  lemma StuckIffMiscounted(steps: seq<Step>)
    requires Follows(START, steps)
    requires var s := Run(START, steps); !s.client.freed && AllConfirmed(s.stream) && Live(s.front, s.stream) == {}
    ensures Run(START, steps).client.subscribed <==> EverMiscounts(START, steps)
  {
    StartKept();
    RunKeeps(START, steps);
    JudgementRun(START, steps, false);
  }

  // ---------- Every miscount can be felt ----------

  function Ask(topics: seq<Topic>): Step { DoIssue(Subscribe(topics), Plain, []) }

  function Undo(topics: seq<Topic>): Step { DoIssue(Unsubscribe(topics), Plain, []) }

  /** Nothing is subscribed to, nothing is on its way, and the context is still in subscribed mode. */
  predicate Stuck(s: System)
  {
    !s.client.freed && s.client.subscribed && s.stream == [] && Live(s.front, s.stream) == {}
  }

  predicate NoErrors(stream: seq<Event>)
  {
    forall e <- stream :: !(e.Reply? && e.shape.Error?)
  }

  lemma {:induction false} RunAppend(s: System, a: seq<Step>, b: seq<Step>)
    requires Follows(s, a) && Follows(Run(s, a), b)
    ensures Follows(s, a + b) && Run(s, a + b) == Run(Run(s, a), b)
    ensures EverMiscounts(s, a) ==> EverMiscounts(s, a + b)
    decreases a
  {
    if a == [] {
      assert a + b == b;
    } else {
      assert (a + b)[1..] == a[1..] + b;
      RunAppend(Next(s, a[0]), a[1..], b);
    }
  }

  lemma DeliverLives(c: Client, e: Event)
    requires !c.freed && !(e.Reply? && e.shape.Error?)
    ensures !Deliver(c, e).freed && Deliver(c, e).disconnecting == c.disconnecting
  {
  }

  lemma DeliverOne(s: System)
    requires !s.client.freed && s.stream != [] && NoErrors(s.stream)
    ensures Enabled(s, DoDeliver) && !Next(s, DoDeliver).client.freed && NoErrors(s.stream[1..])
    ensures Next(s, DoDeliver).client.disconnecting == s.client.disconnecting
    ensures Next(s, DoDeliver).stream == s.stream[1..] && Next(s, DoDeliver).front == After(s.front, s.stream[0])
  {
    hide Deliver, After;
    assert s.stream[0] in s.stream && forall e <- s.stream[1..] :: e in s.stream;
    DeliverLives(s.client, s.stream[0]);
  }

  /** What is on its way arrives; without errors the context lives on. */
  lemma {:induction false} DeliverAll(s: System) returns (steps: seq<Step>)
    requires !s.client.freed && NoErrors(s.stream)
    ensures Follows(s, steps)
    ensures var t := Run(s, steps);
            t.stream == [] && t.front == Live(s.front, s.stream) && !t.client.freed &&
            t.client.disconnecting == s.client.disconnecting
    decreases |s.stream|
  {
    hide Deliver, After, NoErrors;
    steps := [];
    if s.stream != [] {
      DeliverOne(s);
      var rest := DeliverAll(Next(s, DoDeliver));
      steps := [DoDeliver] + rest;
      assert steps[1..] == rest;
    }
  }

  lemma {:induction false} AnyOrder(topics: set<Topic>) returns (order: seq<Topic>)
    ensures Elements(order) == topics && |order| == |topics|
    decreases topics
  {
    order := [];
    if topics != {} {
      var t :| t in topics;
      var rest := AnyOrder(topics - {t});
      order := [t] + rest;
      assert Elements(order) == {t} + Elements(rest);
    }
  }

  lemma FirstElement(topics: seq<Topic>)
    requires topics != []
    ensures Elements(topics) == {topics[0]} + Elements(topics[1..])
  {
    assert topics == [topics[0]] + topics[1..];
  }

  lemma LiveAfterOne(live: set<Topic>, topics: seq<Topic>)
    requires topics != []
    ensures Live(live, UnsubAcks(live, topics)) ==
            Live(live - {topics[0]}, UnsubAcks(live - {topics[0]}, topics[1..]))
  {
    assert UnsubAcks(live, topics)[1..] == UnsubAcks(live - {topics[0]}, topics[1..]);
  }

  lemma {:induction false} AllDropped(live: set<Topic>, topics: seq<Topic>)
    ensures Live(live, UnsubAcks(live, topics)) == live - Elements(topics)
    decreases topics
  {
    if topics != [] {
      hide Live, Elements, UnsubAcks;
      AllDropped(live - {topics[0]}, topics[1..]);
      LiveAfterOne(live, topics);
      FirstElement(topics);
    }
  }

  lemma {:induction false} NoReplies(live: set<Topic>, topics: seq<Topic>)
    ensures NoErrors(SubAcks(topics)) && NoErrors(UnsubAcks(live, topics))
    decreases topics
  {
    if topics != [] {
      NoReplies(live - {topics[0]}, topics[1..]);
    }
  }

  /** Receives everything, gives up every subscription, and receives the confirmations. */
  lemma WindDown(s: System) returns (steps: seq<Step>)
    requires !s.client.freed && !s.client.disconnecting && NoErrors(s.stream)
    requires forall t :: Follows(s, t) && !Run(s, t).client.freed ==> Run(s, t).client.subscribed
    ensures Follows(s, steps) && Stuck(Run(s, steps))
  {
    steps := DeliverAll(s);
    var t := Run(s, steps);
    if t.front != {} {
      var order := AnyOrder(t.front);
      AllDropped(t.front, order);
      NoReplies(t.front, order);
      var undo := Next(t, Undo(order));
      assert [] + UnsubAcks(t.front, order) == UnsubAcks(t.front, order);
      assert undo.stream == UnsubAcks(t.front, order) && undo.front == t.front;
      DropsKeepQueues(t.client, order);
      var rest := DeliverAll(undo);
      var last := [Undo(order)] + rest;
      assert last[1..] == rest;
      assert Follows(t, last) && Run(t, last) == Run(undo, rest);
      RunAppend(s, steps, last);
      steps := steps + last;
    }
  }

  /** After any SUBSCRIBE that has miscounted, giving up everything leaves the context stuck. */
  lemma MiscountGetsStuck(steps: seq<Step>) returns (more: seq<Step>)
    requires Follows(START, steps) && EverMiscounts(START, steps)
    requires var s := Run(START, steps); !s.client.freed && !s.client.disconnecting && NoErrors(s.stream)
    ensures Follows(START, steps + more) && Stuck(Run(START, steps + more))
  {
    var s := Run(START, steps);
    forall t | Follows(s, t) && !Run(s, t).client.freed
      ensures Run(s, t).client.subscribed
    {
      RunAppend(START, steps, t);
      StartKept();
      RunKeeps(START, steps + t);
      JudgementRun(START, steps + t, false);
    }
    more := WindDown(s);
    RunAppend(START, steps, more);
  }

  // ---------- Both ways of miscounting happen ----------

  lemma AfterFirst(a: Topic)
    ensures Next(START, Ask([a])) ==
            System(CONNECTED.(subscribed := true, subs := map[a := Subscription(0, 1, false)]), {}, [SubAck(a)],
                   [Subscribe([a])])
  {
    assert [a][1..] == [];
    assert AddTopics(map[], [a], 0, 1) == map[a := Subscription(0, 1, false)];
    assert SubAcks([a]) == [SubAck(a)];
    assert [] + [SubAck(a)] == [SubAck(a)];
  }

  lemma {:induction false} MiscountsLater(s: System, step: Step, steps: seq<Step>)
    requires Enabled(s, step) && Follows(Next(s, step), steps)
    ensures Follows(s, [step] + steps)
    ensures Miscounts(s, step) || EverMiscounts(Next(s, step), steps) ==> EverMiscounts(s, [step] + steps)
  {
    assert ([step] + steps)[1..] == steps;
  }

  predicate OnSubscriptions(step: Step)
  {
    step.DoIssue? && (step.cmd.Subscribe? || step.cmd.Unsubscribe?)
  }

  /** Commands about subscriptions neither end the connection nor have errors for answers. */
  lemma {:induction false} OnlySubscriptions(s: System, steps: seq<Step>)
    requires Follows(s, steps) && forall step <- steps :: OnSubscriptions(step)
    requires !s.client.freed && !s.client.disconnecting && NoErrors(s.stream)
    ensures var t := Run(s, steps); !t.client.freed && !t.client.disconnecting && NoErrors(t.stream)
    decreases steps
  {
    if steps != [] {
      var step, live := steps[0], Live(s.front, s.stream);
      assert step in steps && forall x <- steps[1..] :: x in steps;
      if Accepts(s.client, step.cmd) {
        IssueKeepsRest(s.client, step.cmd, |s.issued|);
        NoReplies(live, step.cmd.topics);
      }
      OnlySubscriptions(Next(s, step), steps[1..]);
    }
  }

  /** A second topic inherits the count of a first one that is subscribed to twice: the run that gives
      both up ends stuck. */
  lemma CarriedCount(a: Topic, b: Topic) returns (more: seq<Step>)
    requires a != b
    ensures var steps := [Ask([a]), Ask([a, b])];
            Follows(START, steps + more) && EverMiscounts(START, steps + more) && Stuck(Run(START, steps + more))
  {
    AfterFirst(a);
    var first := Next(START, Ask([a]));
    assert [a, b][1..] == [b];
    assert !Exactly(first.client.subs[a := Subscription(1, 2, false)], first.stream + [SubAck(a)], [b], 1, 2);
    assert Miscounts(first, Ask([a, b]));
    MiscountsLater(first, Ask([a, b]), []);
    MiscountsLater(START, Ask([a]), [Ask([a, b])]);
    assert [Ask([a, b])] + [] == [Ask([a, b])] && [Ask([a])] + [Ask([a, b])] == [Ask([a]), Ask([a, b])];
    more := Continued([Ask([a]), Ask([a, b])]);
  }

  lemma Continued(steps: seq<Step>) returns (more: seq<Step>)
    requires Follows(START, steps) && EverMiscounts(START, steps) && forall step <- steps :: OnSubscriptions(step)
    ensures Follows(START, steps + more) && EverMiscounts(START, steps + more) && Stuck(Run(START, steps + more))
  {
    OnlySubscriptions(START, steps);
    more := MiscountGetsStuck(steps);
    StuckIffMiscounted(steps + more);
  }

  /** An unsubscription from an unknown topic is in flight when that topic is subscribed to: the run that
      gives both up ends stuck. */
  lemma OvertakenUnsubscription(a: Topic, b: Topic) returns (more: seq<Step>)
    requires a != b
    ensures var steps := [Ask([a]), Undo([b]), Ask([b])];
            Follows(START, steps + more) && EverMiscounts(START, steps + more) && Stuck(Run(START, steps + more))
  {
    AfterFirst(a);
    var first := Next(START, Ask([a]));
    var second := Next(first, Undo([b]));
    UnknownInFlight(first, a, b);
    assert Miscounts(second, Ask([b]));
    MiscountsLater(second, Ask([b]), []);
    MiscountsLater(first, Undo([b]), [Ask([b])]);
    MiscountsLater(START, Ask([a]), [Undo([b]), Ask([b])]);
    assert [Ask([b])] + [] == [Ask([b])] && [Undo([b])] + [Ask([b])] == [Undo([b]), Ask([b])];
    assert [Ask([a])] + [Undo([b]), Ask([b])] == [Ask([a]), Undo([b]), Ask([b])];
    more := Continued([Ask([a]), Undo([b]), Ask([b])]);
  }

  lemma UnknownInFlight(first: System, a: Topic, b: Topic)
    requires a != b && first == Next(START, Ask([a]))
    ensures Accepts(Next(first, Undo([b])).client, Subscribe([b]))
    ensures !Exactly(Next(first, Undo([b])).client.subs, Next(first, Undo([b])).stream, [b], 2, 1)
    ensures |Next(first, Undo([b])).issued| == 2
  {
    AfterFirst(a);
    UnknownDropped(first, a, b);
    StillIgnored(a, b, |{a} - {b}|);
    assert first.client.subs.Keys == {a};
  }

  lemma UnknownDropped(first: System, a: Topic, b: Topic)
    requires a != b && first.client.subscribed && !first.client.freed && !first.client.disconnecting
    requires first.client.subs.Keys == {a} && first.client.pendingUnsubs == 0 && first.front == {} &&
             first.stream == [SubAck(a)]
    ensures var u := UnsubAck(Some(b), |{a} - {b}|);
            Next(first, Undo([b])) ==
            System(first.client.(pendingUnsubs := 1), {}, [SubAck(a), u], first.issued + [Unsubscribe([b])])
  {
    assert [b][1..] == [] && [SubAck(a)][1..] == [];
    assert Live({}, [SubAck(a)]) == {a};
    var u := UnsubAck(Some(b), |{a} - {b}|);
    assert UnsubAcks({a}, [b]) == [u] && [SubAck(a)] + [u] == [SubAck(a), u];
    assert DropTopics(first.client, [b]) == first.client.(pendingUnsubs := 1);
  }

  lemma StillIgnored(a: Topic, b: Topic, count: nat)
    requires a != b
    ensures Ignored([SubAck(a), UnsubAck(Some(b), count)], {a}, b) == 1
  {
    var u := UnsubAck(Some(b), count);
    assert [SubAck(a), u][1..] == [u] && [u][1..] == [];
    assert Ignored([u], {a}, b) == 1;
  }
}
