/** The context of `async.c` as it is updated in place: two linked queues of callbacks, the tables of
    subscriptions and the flags. Every operation does what `AsyncMatcher` says of it. */
module AsyncContext {
  import Dict
  import opened Subscriptions
  import opened Wrappers
  import opened AsyncMatcher
  import AsyncRuns

  class Callback {
    const fn: nat
    var next: Callback?

    constructor (fn: nat)
      ensures this.fn == fn && next == null
    {
      this.fn := fn;
      next := null;
    }
  }

  ghost function Fns(nodes: seq<Callback>): seq<nat>
  {
    seq(|nodes|, i requires 0 <= i < |nodes| => nodes[i].fn)
  }

  lemma FnsSnoc(nodes: seq<Callback>, cb: Callback)
    ensures Fns(nodes + [cb]) == Fns(nodes) + [cb.fn]
  {
  }

  ghost function At(nodes: seq<Callback>, i: int): Callback?
  {
    if 0 <= i < |nodes| then nodes[i] else null
  }

  ghost predicate Linked(nodes: seq<Callback>, i: nat)
    requires i < |nodes|
    reads nodes[i]
  {
    nodes[i].next == At(nodes, i + 1)
  }

  class CallbackList {
    var head: Callback?
    var tail: Callback?
    ghost var nodes: seq<Callback>

    ghost predicate Valid()
      reads this, nodes
    {
      head == At(nodes, 0) && tail == At(nodes, |nodes| - 1) &&
      (forall i :: 0 <= i < |nodes| ==> Linked(nodes, i)) &&
      (forall i, j :: 0 <= i < j < |nodes| ==> nodes[i] != nodes[j])
    }

    ghost function Contents(): seq<nat>
      reads this
    {
      Fns(nodes)
    }

    constructor ()
      ensures Valid() && nodes == []
    {
      head, tail, nodes := null, null, [];
    }

    /** `__redisPushCallback`. */
    method Push(fn: nat) returns (ghost added: Callback)
      requires Valid()
      modifies this, nodes
      ensures Valid() && Contents() == old(Contents()) + [fn]
      ensures nodes == old(nodes) + [added] && fresh(added)
    {
      hide Fns;
      var cb := new Callback(fn);
      added := cb;
      FnsSnoc(nodes, cb);
      if head == null {
        head := cb;
      }
      if tail != null {
        tail.next := cb;
      }
      tail := cb;
      nodes := nodes + [cb];
      assert forall i :: 0 <= i < |nodes| - 1 ==> nodes[i] == old(nodes)[i] && old(Linked(nodes, i));
    }

    /** `__redisShiftCallback`; nothing comes out of an empty list. */
    method Shift() returns (fn: Option<nat>)
      requires Valid()
      modifies this
      ensures Valid()
      ensures old(nodes) == [] ==> fn == None && nodes == []
      ensures old(nodes) != [] ==>
                fn == Some(old(Contents())[0]) && nodes == old(nodes)[1..] && Contents() == old(Contents())[1..]
    {
      var cb := head;
      if cb == null {
        return None;
      }
      assert Linked(nodes, 0);
      head := cb.next;
      if cb == tail {
        tail := null;
      }
      nodes := nodes[1..];
      fn := Some(cb.fn);
      assert forall i :: 0 <= i < |nodes| ==> nodes[i] == old(nodes)[i + 1] && old(Linked(nodes, i + 1));
    }
  }

  /** What the two loops of a drained list leave in the log. */
  function Drained(c: Client, events: seq<Event>, flushed: bool): Client
    decreases events
  {
    if events == [] then Idle(c, flushed) else
      var d := Deliver(c, events[0]);
      if d.freed then d else Drained(d, events[1..], flushed)
  }

  /** Processing what has arrived is a run of the client with the server: what is proved of runs holds. */
  lemma {:induction false} ProcessingRuns(s: System, n: nat, flushed: bool)
    requires !s.client.freed && n <= |s.stream|
    ensures exists steps :: AsyncRuns.Follows(s, steps) &&
              AsyncRuns.Run(s, steps).client == Drained(s.client, s.stream[..n], flushed)
    decreases n
  {
    if n == 0 {
      assert [DoIdle(flushed)][1..] == [] && s.stream[..0] == [];
      assert AsyncRuns.Follows(s, [DoIdle(flushed)]);
      assert AsyncRuns.Run(s, [DoIdle(flushed)]) == Next(s, DoIdle(flushed));
    } else {
      var next := Next(s, DoDeliver);
      assert s.stream[..n][1..] == next.stream[..n - 1];
      if next.client.freed {
        assert [DoDeliver][1..] == [];
        assert AsyncRuns.Follows(s, [DoDeliver]) && AsyncRuns.Run(s, [DoDeliver]) == next;
      } else {
        ProcessingRuns(next, n - 1, flushed);
        var rest :| AsyncRuns.Follows(next, rest) &&
                    AsyncRuns.Run(next, rest).client == Drained(next.client, next.stream[..n - 1], flushed);
        assert ([DoDeliver] + rest)[1..] == rest;
        assert AsyncRuns.Follows(s, [DoDeliver] + rest);
      }
    }
  }

  /** The table cannot grow without end: memory holds so many entries. */
  predicate Room(c: Client, cmd: Command)
  {
    cmd.Subscribe? ==> |c.subs| + |cmd.topics| <= Dict.MOST
  }

  class Context {
    const replies: CallbackList
    const subReplies: CallbackList
    var subs: Table
    var pendingUnsubs: int
    var subscribed: bool
    var supportsPush: bool
    var disconnecting: bool
    var freed: bool
    var broken: bool
    var log: seq<Record>

    ghost predicate Valid()
      reads `subs, replies, subReplies, replies.nodes, subReplies.nodes, subs, subs.table, subs.entries
    {
      Queues() && subs.Valid()
    }

    ghost predicate Queues()
      reads replies, subReplies, replies.nodes, subReplies.nodes
    {
      replies != subReplies && replies.Valid() && subReplies.Valid() &&
      (forall i :: 0 <= i < |replies.nodes| ==> replies.nodes[i] !in subReplies.nodes) &&
      (forall i :: 0 <= i < |subReplies.nodes| ==> subReplies.nodes[i] !in replies.nodes)
    }

    ghost function State(): Client
      reads this, replies, subReplies, subs
    {
      Client(replies.Contents(), subReplies.Contents(), subs.M, pendingUnsubs, subscribed, supportsPush, disconnecting,
        freed, broken, log)
    }

    /** The callbacks in the queues. */
    ghost function Queued(): set<Callback>
      reads replies, subReplies
    {
      (set n | n in replies.nodes) + set n | n in subReplies.nodes
    }

    /** The table with its array and its entries, and the callbacks in the queues. */
    ghost function Repr(): set<object>
      reads `subs, replies, subReplies, subs`table, subs`entries
    {
      {subs} + (if subs.table == null then {} else {subs.table}) + subs.entries + Queued()
    }

    constructor (hash: Topic -> nat)
      ensures Valid() && State() == CONNECTED && fresh(replies) && fresh(subReplies) && replies.nodes == [] &&
              subReplies.nodes == []
    {
      replies := new CallbackList();
      subReplies := new CallbackList();
      subs := new Dict.Dict(hash);
      pendingUnsubs := 0;
      subscribed, supportsPush, disconnecting, freed, broken, log := false, false, false, false, false, [];
    }

    /** `__redisAsyncCommand`, as long as the table has room for the topics of a subscription. */
    method IssueCommand(cmd: Command, id: nat) returns (accepted: bool)
      requires Valid()
      modifies this, replies, subReplies, Repr()
      ensures Valid() && accepted == Accepts(old(State()), cmd)
      ensures Room(old(State()), cmd) ==> State() == Issue(old(State()), cmd, id)
      ensures forall o <- Repr() :: o in old(Repr()) || fresh(o)
    {
      hide Dict.Dict.Valid, Context.Valid, Context.Repr;
      if disconnecting || freed {
        return false;
      }
      if cmd.Subscribe? {
        Subscribe(cmd.topics, id);
      } else if cmd.Unsubscribe? || cmd.UnsubscribeAll? {
        if !subscribed {
          return false;
        }
        Unsubscribe(cmd);
      } else {
        Enqueue(id);
      }
      return true;
    }

    method Subscribe(topics: seq<Topic>, id: nat)
      requires Valid()
      modifies this`subscribed, Repr()
      ensures Valid() && forall o <- Repr() :: o in old(Repr()) || fresh(o)
      ensures |old(State()).subs| + |topics| > Dict.MOST ||
              State() == old(State()).(subscribed := true, subs := AddTopics(old(State()).subs, topics, id, 1))
    {
      hide Dict.Dict.Valid, Context.Queues, Context.Queued;
      subscribed := true;
      AddEach(topics, id);
    }

    method Unsubscribe(cmd: Command)
      requires Valid() && (cmd.Unsubscribe? || cmd.UnsubscribeAll?)
      modifies this`pendingUnsubs, Repr()
      ensures Valid() && Repr() == old(Repr())
      ensures State() ==
              if cmd.Unsubscribe? then DropTopics(old(State()), cmd.topics) else DropAll(old(State()), cmd.pattern)
    {
      hide Dict.Dict.Valid, Context.Queues, Context.Queued;
      if cmd.Unsubscribe? {
        DropEach(cmd.topics);
      } else {
        DropEvery(cmd.pattern);
      }
    }

    method Enqueue(id: nat)
      requires Valid()
      modifies replies, subReplies, Repr()
      ensures Valid() && forall o <- Repr() :: o in old(Repr()) || fresh(o)
      ensures State() == if old(subscribed) then old(State()).(subReplies := old(subReplies.Contents()) + [id])
                         else old(State()).(replies := old(replies.Contents()) + [id])
    {
      hide Dict.Dict.Valid;
      if subscribed {
        ghost var _ := subReplies.Push(id);
      } else {
        ghost var _ := replies.Push(id);
      }
    }

    method AddEach(topics: seq<Topic>, fn: nat)
      requires subs.Valid()
      modifies subs, subs.table, subs.entries
      ensures subs.Valid() && Grew(subs)
      ensures |old(subs.M)| + |topics| > Dict.MOST || subs.M == AddTopics(old(subs.M), topics, fn, 1)
    {
      hide Dict.Dict.Valid;
      ghost var room := |subs.M| + |topics| <= Dict.MOST;
      var pending := 1;
      for i := 0 to |topics|
        invariant subs.Valid() && Grew(subs)
        invariant room ==> |subs.M| + |topics| - i <= Dict.MOST &&
                           AddTopics(subs.M, topics[i..], fn, pending) == AddTopics(old(subs.M), topics, fn, 1)
      {
        var t := topics[i];
        var known := Lookup(subs, t);
        if known.Some? {
          pending := known.value.pending + 1;
        }
        assert topics[i..][1..] == topics[i + 1..];
        Store(subs, t, Subscription(fn, pending, false));
      }
    }

    method DropEach(topics: seq<Topic>)
      requires subs.Valid()
      modifies this`pendingUnsubs, subs`M, subs.entries`val
      ensures subs.Valid() && State() == DropTopics(old(State()), topics)
    {
      hide Dict.Dict.Valid;
      for i := 0 to |topics|
        invariant subs.Valid() && DropTopics(State(), topics[i..]) == DropTopics(old(State()), topics)
      {
        var t := topics[i];
        assert topics[i..][1..] == topics[i + 1..];
        var known := Lookup(subs, t);
        if known.Some? && !known.value.sent {
          Update(subs, t, known.value.(sent := true));
        } else {
          pendingUnsubs := pendingUnsubs + 1;
        }
      }
    }

    method DropEvery(pattern: bool)
      requires subs.Valid()
      modifies this`pendingUnsubs, subs`M, subs.entries`val
      ensures subs.Valid() && State() == DropAll(old(State()), pattern)
    {
      hide Dict.Dict.Valid;
      var none := MarkEvery(subs, pattern);
      if none {
        pendingUnsubs := pendingUnsubs + 1;
      }
    }

    /** Runs what is left in a queue with NULL. */
    method RunWithNull(list: CallbackList)
      requires list.Valid()
      modifies this`log, list
      ensures list.Valid() && list.nodes == [] && log == old(log) + NullAll(old(list.Contents()))
    {
      hide Dict.Dict.Valid;
      var fn := list.Shift();
      while fn.Some?
        invariant list.Valid() && (fn.None? ==> list.nodes == [])
        invariant log + NullAll((if fn.Some? then [fn.value] else []) + list.Contents()) ==
                  old(log) + NullAll(old(list.Contents()))
        decreases fn.Some?, |list.nodes|
      {
        log := log + [Nulled(fn.value)];
        fn := list.Shift();
      }
    }

    /** `__redisAsyncFree`. */
    method FreeAll()
      requires Valid()
      modifies this, replies, subReplies
      ensures Valid() && State() == Free(old(State())) && replies.nodes == [] && subReplies.nodes == []
      ensures forall o <- Repr() :: o in old(Repr()) || fresh(o)
    {
      hide Dict.Dict.Valid;
      RunWithNull(replies);
      RunWithNull(subReplies);
      ReleaseTable();
      freed := true;
    }

    // The callbacks of the table run with NULL, and the table is released.
    method ReleaseTable()
      requires subs.Valid()
      modifies this`log, this`subs
      ensures fresh(subs) && subs.Valid() && subs.M == map[] && subs.table == null && subs.entries == {}
      ensures log == old(log) + [Closed(old(subs.M))]
    {
      hide Dict.Dict.Valid;
      var left := Snapshot(subs);
      log := log + [Closed(left)];
      subs := new Dict.Dict(subs.hash);
    }

    /** `__redisAsyncDisconnect`. */
    method DisconnectNow(error: bool)
      requires Valid()
      modifies this, replies, subReplies
      ensures Valid() && State() == Disconnect(old(State()), error) && replies.nodes == [] && subReplies.nodes == []
      ensures forall o <- Repr() :: o in old(Repr()) || fresh(o)
    {
      hide Dict.Dict.Valid;
      if error {
        disconnecting := true;
      } else {
        var left := replies.Shift();
        if left.Some? {
          broken := true;
        }
      }
      FreeAll();
    }

    /** `redisAsyncDisconnect`. */
    method QuitSoon()
      requires Valid()
      modifies this, replies, subReplies
      ensures Valid() && State() == Quit(old(State())) && forall o <- Repr() :: o in old(Repr()) || fresh(o)
    {
      hide Dict.Dict.Valid;
      disconnecting := true;
      if replies.head == null {
        DisconnectNow(false);
      }
    }

    /** Moves the commands issued in subscribed mode to the other queue. */
    method MoveOver()
      requires Queues()
      modifies replies, subReplies, Queued()
      ensures Queues() && (forall o <- Queued() :: o in old(Queued()) || fresh(o)) && subReplies.nodes == []
      ensures replies.Contents() == old(replies.Contents()) + old(subReplies.Contents())
    {
      hide Dict.Dict.Valid;
      while subReplies.head != null
        invariant Queues() && (forall o <- Queued() :: o in old(Queued()) || fresh(o))
        invariant replies.Contents() + subReplies.Contents() == old(replies.Contents()) + old(subReplies.Contents())
        decreases |subReplies.nodes|
      {
        MoveOne();
      }
    }

    method MoveOne()
      requires Queues() && subReplies.nodes != []
      modifies replies, subReplies, Queued()
      ensures Queues() && |subReplies.nodes| < |old(subReplies.nodes)|
      ensures (forall o <- Queued() :: o in old(Queued()) || fresh(o)) && subReplies.nodes == old(subReplies.nodes)[1..]
      ensures replies.Contents() + subReplies.Contents() == old(replies.Contents()) + old(subReplies.Contents())
    {
      hide Dict.Dict.Valid;
      ghost var before := subReplies.Contents();
      var fn := subReplies.Shift();
      assert before == [fn.value] + before[1..];
      ghost var _ := replies.Push(fn.value);
    }

    // The accounting for a confirmed unsubscription.
    method DropConfirmed(of: Option<Topic>)
      requires subs.Valid()
      modifies this`pendingUnsubs, subs, subs.table, subs.entries
      ensures subs.Valid() && State() == Confirm(old(State()), of) && Grew(subs)
    {
      hide Dict.Dict.Valid;
      var known := None;
      if of.Some? {
        known := Lookup(subs, of.value);
      }
      if known.None? {
        pendingUnsubs := pendingUnsubs - 1;
      } else if known.value.pending == 0 {
        Remove(subs, of.value);
      }
    }

    // With nothing subscribed to and nothing to be ignored, the context leaves subscribed mode.
    method LeaveIfDone(count: nat)
      requires Valid()
      modifies this`subscribed, replies, subReplies, Queued()
      ensures Queues() && State() == Leave(old(State()), count)
      ensures forall o <- Queued() :: o in old(Queued()) || fresh(o)
    {
      hide Dict.Dict.Valid;
      var empty := IsEmpty(subs);
      if count == 0 && empty && pendingUnsubs == 0 {
        subscribed := false;
        MoveOver();
      }
    }

    method ConfirmUnsubscription(of: Option<Topic>, count: nat)
      requires Valid()
      modifies this`pendingUnsubs, this`subscribed, replies, subReplies, Repr()
      ensures Valid() && State() == Leave(Confirm(old(State()), of), count)
      ensures forall o <- Repr() :: o in old(Repr()) || fresh(o)
    {
      hide Dict.Dict.Valid, Context.Queues;
      DropConfirmed(of);
      LeaveIfDone(count);
    }

    /** `__redisGetSubscribeCallback`, and the run of the callback it finds. */
    method GetSubscribeCallback(e: Event)
      requires Valid() && !e.Notice?
      modifies this, replies, subReplies, Repr()
      ensures Valid() && State() == Subscriber(old(State()), e)
      ensures forall o <- Repr() :: o in old(Repr()) || fresh(o)
    {
      hide Dict.Dict.Valid, Context.Queues, Context.Repr, Context.Queued;
      if e.Reply? {
        AnswerSubscribed(e);
        return;
      }
      if e.SubAck? {
        ConfirmSubscription(e);
      } else if e.UnsubAck? {
        var cb := None;
        if e.of.Some? {
          cb := Lookup(subs, e.of.value);
        }
        ConfirmUnsubscription(e.of, e.count);
        RunFound(cb, e);
      } else {
        var cb := Lookup(subs, e.topic);
        RunFound(cb, e);
      }
    }

    method ConfirmSubscription(e: Event)
      requires Valid() && e.SubAck?
      modifies this`broken, this`log, Repr()
      ensures Valid() && Repr() == old(Repr()) && State() == Subscriber(old(State()), e)
    {
      hide Dict.Dict.Valid, Context.Queues, Context.Queued;
      var cb := Lookup(subs, e.topic);
      if cb.None? {
        broken := true;
        return;
      }
      Update(subs, e.topic, cb.value.(pending := cb.value.pending - 1));
      RunFound(cb, e);
    }

    // The callback that has been found, if any.
    method RunFound(cb: Option<Subscription>, e: Event)
      modifies this`log
      ensures log == if cb.Some? then old(log) + [Notified(cb.value.fn, e)] else old(log)
    {
      if cb.Some? {
        log := log + [Notified(cb.value.fn, e)];
      }
    }

    method AnswerSubscribed(e: Event)
      requires Valid() && e.Reply?
      modifies this, subReplies
      ensures Valid() && State() == Subscriber(old(State()), e)
      ensures forall o <- Repr() :: o in old(Repr()) || fresh(o)
    {
      hide Dict.Dict.Valid;
      if e.shape.LongArray? && !supportsPush {
        broken := true;
        return;
      }
      var fn := subReplies.Shift();
      if fn.Some? {
        log := log + [Answered(fn.value, e)];
      }
    }

    // The first regular callback, if any.
    method TakeRegular() returns (fn: Option<nat>)
      requires Valid()
      modifies replies
      ensures Valid() && Repr() <= old(Repr()) && subReplies.Contents() == old(subReplies.Contents())
      ensures if old(replies.Contents()) == [] then fn == None && replies.Contents() == []
              else fn == Some(old(replies.Contents())[0]) && replies.Contents() == old(replies.Contents())[1..]
    {
      hide Dict.Dict.Valid;
      fn := replies.Shift();
    }

    // No regular callback is queued.
    method Idling() returns (idle: bool)
      requires Valid()
      ensures idle == (replies.Contents() == [])
    {
      idle := replies.head == null;
    }

    /** One turn of the loop of `redisProcessCallbacks`. */
    method ProcessReply(e: Event)
      requires Valid() && !freed
      modifies this, replies, subReplies, Repr()
      ensures Valid() && State() == Deliver(old(State()), e)
      ensures forall o <- Repr() :: o in old(Repr()) || fresh(o)
    {
      hide Dict.Dict.Valid, Context.Valid, Context.Repr;
      if !e.Reply? {
        supportsPush := true;
      }
      if e.Notice? {
        log := log + [Pushed];
        return;
      }
      var fn := TakeRegular();
      if fn.Some? {
        log := log + [Answered(fn.value, e)];
      } else if e.Reply? && e.shape.Error? {
        DisconnectNow(true);
      } else if !subscribed {
        broken := true;
      } else {
        GetSubscribeCallback(e);
      }
    }

    /** `redisProcessCallbacks` over the replies that the reader has. */
    method ProcessCallbacks(events: seq<Event>, flushed: bool)
      requires Valid() && !freed
      modifies this, replies, subReplies, Repr()
      ensures Valid() && State() == Drained(old(State()), events, flushed)
      ensures forall o <- Repr() :: o in old(Repr()) || fresh(o)
    {
      hide Dict.Dict.Valid, Context.Valid, Context.Repr;
      for i := 0 to |events|
        invariant Valid() && !freed && (forall o <- Repr() :: o in old(Repr()) || fresh(o))
        invariant Drained(State(), events[i..], flushed) == Drained(old(State()), events, flushed)
      {
        assert events[i..][0] == events[i] && events[i..][1..] == events[i + 1..];
        ProcessReply(events[i]);
        if freed {
          return;
        }
      }
      var idle := Idling();
      if disconnecting && flushed && idle {
        DisconnectNow(false);
      }
    }
  }
}
