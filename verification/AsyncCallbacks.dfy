/** Which callback runs: that of the last accepted SUBSCRIBE that names the topic, for every message
    and confirmation of every run. Also what closing a context leaves undone: nothing. */
module AsyncCallbacks {
  import opened Wrappers
  import opened AsyncMatcher
  import opened AsyncRuns

  predicate Names(cmd: Command, t: Topic) { cmd.Subscribe? && t in cmd.topics }

  /** `id` is the callback of the last accepted SUBSCRIBE that names `t`. */
  predicate LastNaming(issued: seq<Command>, t: Topic, id: nat)
  {
    id < |issued| && Names(issued[id], t) && forall j :: id < j < |issued| ==> !Names(issued[j], t)
  }

  ghost predicate Owned(s: System)
  {
    forall t <- s.client.subs :: LastNaming(s.issued, t, s.client.subs[t].fn)
  }

  predicate KeepsFns(before: map<Topic, Subscription>, after: map<Topic, Subscription>)
  {
    forall t <- after :: t in before && after[t].fn == before[t].fn
  }

  // ---------- Issuing ----------

  lemma {:induction false} TopicsAdded(subs: map<Topic, Subscription>, topics: seq<Topic>, fn: nat, carried: int)
    ensures var after := AddTopics(subs, topics, fn, carried);
            after.Keys == subs.Keys + Elements(topics) &&
            (forall t <- topics :: after[t].fn == fn && !after[t].sent) &&
            (forall t <- subs :: t !in topics ==> after[t] == subs[t])
    decreases topics
  {
    if topics != [] {
      var t := topics[0];
      var pending := if t in subs then subs[t].pending + 1 else carried;
      TopicsAdded(subs[t := Subscription(fn, pending, false)], topics[1..], fn, pending);
      assert topics == [t] + topics[1..];
    }
  }

  /** An accepted SUBSCRIBE makes its callback that of every topic it names; no other is changed. */
  lemma SubscribeSetsCallbacks(c: Client, topics: seq<Topic>, id: nat)
    requires Accepts(c, Subscribe(topics))
    ensures var d := Issue(c, Subscribe(topics), id);
            d.subscribed && d.subs.Keys == c.subs.Keys + Elements(topics) &&
            (forall t <- topics :: d.subs[t].fn == id) &&
            (forall t <- c.subs :: t !in topics ==> d.subs[t] == c.subs[t])
  {
    TopicsAdded(c.subs, topics, id, 1);
  }

  lemma {:induction false} DropsKeepFns(c: Client, topics: seq<Topic>)
    ensures DropTopics(c, topics).subs.Keys == c.subs.Keys && KeepsFns(c.subs, DropTopics(c, topics).subs)
    decreases topics
  {
    if topics != [] {
      DropsKeepFns(DropTopic(c, topics[0]), topics[1..]);
    }
  }

  lemma OwnedIssue(s: System, step: Step)
    requires Owned(s) && Enabled(s, step) && step.DoIssue?
    ensures Owned(Next(s, step))
  {
    if Accepts(s.client, step.cmd) {
      var cmd := step.cmd;
      if cmd.Subscribe? {
        SubscribeSetsCallbacks(s.client, cmd.topics, |s.issued|);
      } else if cmd.Unsubscribe? {
        DropsKeepFns(s.client, cmd.topics);
      }
      var after := Issue(s.client, cmd, |s.issued|).subs;
      forall t <- after
        ensures LastNaming(s.issued + [cmd], t, after[t].fn)
      {
        assert cmd.Subscribe? && t in Elements(cmd.topics) ==> t in cmd.topics;
        assert !Names(cmd, t) ==> t in s.client.subs && after[t].fn == s.client.subs[t].fn;
      }
    }
  }

  // ---------- Receiving ----------

  lemma NotifyKeepsSubs(c: Client, subs: map<Topic, Subscription>, of: Option<Topic>, e: Event)
    ensures Notify(c, subs, of, e).subs == c.subs
  {
  }

  lemma ConfirmKeepsFns(c: Client, of: Option<Topic>, count: nat)
    ensures KeepsFns(c.subs, Leave(Confirm(c, of), count).subs)
  {
  }

  lemma SubscriberKeepsFns(c: Client, e: Event)
    ensures KeepsFns(c.subs, Subscriber(c, e).subs)
  {
    hide Notify, Confirm, Leave;
    if e.UnsubAck? {
      ConfirmKeepsFns(c, e.of, e.count);
      NotifyKeepsSubs(Leave(Confirm(c, e.of), e.count), c.subs, e.of, e);
    } else if e.SubAck? && e.topic in c.subs {
      var d := c.(subs := c.subs[e.topic := c.subs[e.topic].(pending := c.subs[e.topic].pending - 1)]);
      NotifyKeepsSubs(d, c.subs, Some(e.topic), e);
    } else if e.Message? {
      NotifyKeepsSubs(c, c.subs, Some(e.topic), e);
    }
  }

  lemma DeliverKeepsFns(c: Client, e: Event)
    ensures KeepsFns(c.subs, Deliver(c, e).subs)
  {
    hide Subscriber;
    SubscriberKeepsFns(if e.Reply? then c else c.(supportsPush := true), e);
  }

  lemma OwnedStep(s: System, step: Step)
    requires Owned(s) && Enabled(s, step)
    ensures Owned(Next(s, step))
  {
    hide Deliver, Live;
    if step.DoIssue? {
      OwnedIssue(s, step);
    } else if step.DoDeliver? {
      DeliverKeepsFns(s.client, s.stream[0]);
    }
  }

  lemma {:induction false} OwnedRun(s: System, steps: seq<Step>)
    requires Owned(s) && Follows(s, steps)
    ensures Owned(Run(s, steps))
    decreases steps
  {
    if steps != [] {
      OwnedStep(s, steps[0]);
      OwnedRun(Next(s, steps[0]), steps[1..]);
    }
  }

  lemma Reached(steps: seq<Step>)
    requires Follows(START, steps)
    ensures Inv(Run(START, steps)) && Owned(Run(START, steps))
  {
    StartKept();
    RunKeeps(START, steps);
    OwnedRun(START, steps);
  }

  /** A published message runs the callback of the last accepted SUBSCRIBE that names its topic. */
  lemma MessageArrives(steps: seq<Step>) returns (id: nat)
    requires Follows(START, steps) && Enabled(Run(START, steps), DoDeliver) && Run(START, steps).stream[0].Message?
    ensures var s := Run(START, steps);
            LastNaming(s.issued, s.stream[0].topic, id) &&
            Next(s, DoDeliver).client.log == s.client.log + [Notified(id, s.stream[0])]
  {
    Reached(steps);
    var s := Run(START, steps);
    Unobstructed(s);
    id := s.client.subs[s.stream[0].topic].fn;
  }

  /** So does a confirmed subscription. */
  lemma SubscriptionConfirmed(steps: seq<Step>) returns (id: nat)
    requires Follows(START, steps) && Enabled(Run(START, steps), DoDeliver) && Run(START, steps).stream[0].SubAck?
    ensures var s := Run(START, steps);
            LastNaming(s.issued, s.stream[0].topic, id) &&
            Next(s, DoDeliver).client.log == s.client.log + [Notified(id, s.stream[0])]
  {
    Reached(steps);
    var s := Run(START, steps);
    Unobstructed(s);
    BooksSubAck(s.client, s.front, s.stream, s.stream[0].topic);
    id := s.client.subs[s.stream[0].topic].fn;
  }

  lemma LeavesLogAlone(c: Client, of: Option<Topic>, count: nat)
    ensures Leave(Confirm(c, of), count).log == c.log
  {
  }

  /** And a confirmed unsubscription from a known topic, also where it makes the client forget it. One
      from any other topic runs nothing. */
  lemma UnsubscriptionConfirmed(steps: seq<Step>)
    requires Follows(START, steps) && Enabled(Run(START, steps), DoDeliver) && Run(START, steps).stream[0].UnsubAck?
    ensures var s := Run(START, steps);
            var of, more := s.stream[0].of, Next(s, DoDeliver).client.log;
            if of.Some? && of.value in s.client.subs
            then exists id: nat :: LastNaming(s.issued, of.value, id) &&
                   more == s.client.log + [Notified(id, s.stream[0])]
            else more == s.client.log
  {
    hide Books, Guarded, Handled, Regulars, Matched;
    Reached(steps);
    var s := Run(START, steps);
    Unobstructed(s);
    var of := s.stream[0].of;
    LeavesLogAlone(s.client.(supportsPush := true), of, s.stream[0].count);
    if of.Some? && of.value in s.client.subs {
      assert LastNaming(s.issued, of.value, s.client.subs[of.value].fn);
    }
  }

  /** What a client in order does not expect, and what teaches it that the server can push. */
  lemma BreaksIff(c: Client, e: Event)
    requires !c.broken && !c.freed
    ensures Deliver(c, e).broken <==>
            c.replies == [] &&
            if e.Reply? then !e.shape.Error? && (!c.subscribed || (e.shape.LongArray? && !c.supportsPush))
            else !e.Notice? && (!c.subscribed || (e.SubAck? && e.topic !in c.subs))
    ensures Deliver(c, e).supportsPush <==> c.supportsPush || !e.Reply?
  {
  }

  /** A confirmed unsubscription is the last one exactly if the server says so, nothing is known any more, and no
      other is to be ignored. */
  lemma LeavesIff(c: Client, count: nat)
    requires c.subscribed
    ensures !Leave(c, count).subscribed <==> count == 0 && c.subs == map[] && c.pendingUnsubs == 0
  {
  }

  /** The server may publish on a topic from its confirmation on, behind all that is on its way. */
  lemma CanPublish(s: System, t: Topic)
    requires !s.client.freed && t in Live(s.front, s.stream)
    ensures Enabled(s, DoPublish(|s.stream|, t)) &&
            Next(s, DoPublish(|s.stream|, t)).stream == s.stream + [Message(t)]
  {
    assert s.stream[..|s.stream|] == s.stream;
  }

  // ---------- Closing ----------

  lemma {:induction false} NullAllAt(ids: seq<nat>)
    ensures |NullAll(ids)| == |ids| && forall i :: 0 <= i < |ids| ==> NullAll(ids)[i] == Nulled(ids[i])
  {
    if ids != [] {
      NullAllAt(ids[1..]);
    }
  }

  lemma FreeRuns(c: Client)
    ensures var pending := c.replies + c.subReplies;
            var more := Free(c).log;
            |more| == |c.log| + |pending| + 1 && more[..|c.log|] == c.log &&
            (forall i :: 0 <= i < |pending| ==> more[|c.log| + i] == Nulled(pending[i])) &&
            more[|c.log| + |pending|] == Closed(c.subs)
    ensures var d := Free(c); d.replies == [] && d.subReplies == [] && d.subs == map[]
  {
    NullAllAt(c.replies);
    NullAllAt(c.subReplies);
  }

  /** When a context is freed. */
  lemma FreedIff(s: System, step: Step)
    requires Enabled(s, step)
    ensures Next(s, step).client.freed <==>
            step.DoFree? || step.DoBreak? ||
            (s.client.replies == [] && (
               step.DoQuit? ||
               (step.DoIdle? && step.flushed && s.client.disconnecting) ||
               (step.DoDeliver? && s.stream[0].Reply? && s.stream[0].shape.Error?)))
  {
    if step.DoIssue? && Accepts(s.client, step.cmd) {
      IssueKeepsRest(s.client, step.cmd, |s.issued|);
    }
  }

  lemma FreedBy(s: System, step: Step)
    requires Enabled(s, step) && Next(s, step).client.freed
    ensures Next(s, step).client.log == Free(s.client).log ||
            Next(s, step).client.log == Free(s.client.(disconnecting := true)).log
    ensures var d := Next(s, step).client; d.replies == [] && d.subReplies == [] && d.subs == map[]
  {
    FreedIff(s, step);
  }

  /** The step that frees a context runs every callback that is still queued with NULL, in order, and
      then closes every subscription it knows: with the callback that its messages would have run. */
  lemma FreedRuns(steps: seq<Step>, step: Step)
    requires Follows(START, steps) && Enabled(Run(START, steps), step)
    requires Next(Run(START, steps), step).client.freed
    ensures var s := Run(START, steps);
            var pending, before, more := s.client.replies + s.client.subReplies, s.client.log,
              Next(s, step).client.log;
            |more| == |before| + |pending| + 1 && more[..|before|] == before &&
            (forall i :: 0 <= i < |pending| ==> more[|before| + i] == Nulled(pending[i])) &&
            more[|before| + |pending|] == Closed(s.client.subs) &&
            Next(s, step).client.replies == [] && Next(s, step).client.subReplies == [] &&
            Next(s, step).client.subs == map[] &&
            forall t <- s.client.subs :: LastNaming(s.issued, t, s.client.subs[t].fn)
  {
    hide Books, Guarded, Handled, Regulars, Matched;
    Reached(steps);
    var s := Run(START, steps);
    FreeRuns(s.client);
    FreeRuns(s.client.(disconnecting := true));
    FreedIff(s, step);
    FreedBy(s, step);
  }

  /** A disconnect without an error asserts that no regular callback is pending; one after an error drops none
      unheard. */
  lemma DisconnectAsserts(c: Client)
    ensures Disconnect(c, false).broken <==> c.broken || c.replies != []
    ensures Disconnect(c, true).broken == c.broken && Disconnect(c, true).log == Free(c).log
    ensures Disconnect(c, true).disconnecting && Disconnect(c, true).freed && Disconnect(c, false).freed
  {
  }

  lemma StillClosing(s: System, step: Step)
    requires s.client.disconnecting && Enabled(s, step)
    ensures Next(s, step).issued == s.issued && Next(s, step).client.disconnecting
  {
  }

  /** What is refused changes nothing. After a disconnect has been asked for, everything is refused. */
  lemma {:induction false} ClosingAcceptsNothing(s: System, steps: seq<Step>)
    requires s.client.disconnecting && Follows(s, steps)
    ensures Run(s, steps).issued == s.issued && Run(s, steps).client.disconnecting
    decreases steps
  {
    if steps != [] {
      StillClosing(s, steps[0]);
      ClosingAcceptsNothing(Next(s, steps[0]), steps[1..]);
    }
  }
}
