/** Matching replies to callbacks, as in `async.c`: the client's bookkeeping as a transition function,
    an in-order RESP3 server that answers it, and what every run of the two together keeps. */
module AsyncMatcher {
  import opened Wrappers

  /** A channel, or a pattern (the commands and replies that start with a `p`). */
  datatype Topic = Topic(pattern: bool, name: string)

  datatype Subscription = Subscription(fn: nat, pending: int, sent: bool)

  /** What kind of value answers a regular command. */
  datatype Shape = Plain | LongArray | Error

  /** What the server sends. `count` is the number of subscriptions that remain. */
  datatype Event =
    | Reply(id: nat, shape: Shape)
    | SubAck(topic: Topic)
    | UnsubAck(of: Option<Topic>, count: nat)
    | Message(topic: Topic)
    | Notice

  /** What the callbacks record. */
  datatype Record =
    | Answered(id: nat, reply: Event)
    | Nulled(id: nat)
    | Notified(fn: nat, event: Event)
    | Pushed
    | Closed(fns: map<Topic, Subscription>)

  datatype Command =
    | Regular
    | Subscribe(topics: seq<Topic>)
    | Unsubscribe(topics: seq<Topic>)
    | UnsubscribeAll(pattern: bool)

  /** `broken` is set where an assertion of the source fails, or where it would take the answer to a
      regular command for a subscription message. */
  datatype Client = Client(
    replies: seq<nat>,
    subReplies: seq<nat>,
    subs: map<Topic, Subscription>,
    pendingUnsubs: int,
    subscribed: bool,
    supportsPush: bool,
    disconnecting: bool,
    freed: bool,
    broken: bool,
    log: seq<Record>
  )

  const CONNECTED := Client([], [], map[], 0, false, false, false, false, false, [])

  // ---------- Issuing commands ----------

  /** A SUBSCRIBE that names several topics carries the counter of one over to the next. */
  function AddTopics(subs: map<Topic, Subscription>, topics: seq<Topic>, fn: nat, carried: int)
    : map<Topic, Subscription>
    decreases topics
  {
    if topics == [] then subs else
      var t := topics[0];
      var pending := if t in subs then subs[t].pending + 1 else carried;
      AddTopics(subs[t := Subscription(fn, pending, false)], topics[1..], fn, pending)
  }

  function DropTopic(c: Client, t: Topic): Client
  {
    if t in c.subs && !c.subs[t].sent
    then c.(subs := c.subs[t := c.subs[t].(sent := true)])
    else c.(pendingUnsubs := c.pendingUnsubs + 1)
  }

  function DropTopics(c: Client, topics: seq<Topic>): Client
    decreases topics
  {
    if topics == [] then c else DropTopics(DropTopic(c, topics[0]), topics[1..])
  }

  function Unsent(subs: map<Topic, Subscription>): set<Topic>
  {
    set t | t in subs && !subs[t].sent
  }

  function OfVariant(topics: set<Topic>, pattern: bool): set<Topic>
  {
    set t | t in topics && t.pattern == pattern
  }

  function MarkSent(subs: map<Topic, Subscription>, topics: set<Topic>): map<Topic, Subscription>
  {
    map t | t in subs :: if t in topics then subs[t].(sent := true) else subs[t]
  }

  function DropAll(c: Client, pattern: bool): Client
  {
    var some := OfVariant(Unsent(c.subs), pattern);
    if some == {} then c.(pendingUnsubs := c.pendingUnsubs + 1) else c.(subs := MarkSent(c.subs, some))
  }

  predicate Accepts(c: Client, cmd: Command)
  {
    !c.disconnecting && !c.freed && ((cmd.Unsubscribe? || cmd.UnsubscribeAll?) ==> c.subscribed)
  }

  /** The client's part of `__redisAsyncCommand`; `id` is the callback. */
  function Issue(c: Client, cmd: Command, id: nat): Client
  {
    if !Accepts(c, cmd) then c else
    match cmd
    case Regular =>
      if c.subscribed then c.(subReplies := c.subReplies + [id]) else c.(replies := c.replies + [id])
    case Subscribe(topics) => c.(subscribed := true, subs := AddTopics(c.subs, topics, id, 1))
    case Unsubscribe(topics) => DropTopics(c, topics)
    case UnsubscribeAll(pattern) => DropAll(c, pattern)
  }

  // ---------- Receiving ----------

  function Noted(c: Client, r: Record): Client { c.(log := c.log + [r]) }

  function NullAll(ids: seq<nat>): seq<Record>
  {
    if ids == [] then [] else [Nulled(ids[0])] + NullAll(ids[1..])
  }

  /** Every pending callback runs with NULL. */
  function Free(c: Client): Client
  {
    c.(replies := [], subReplies := [], subs := map[], freed := true,
       log := c.log + NullAll(c.replies) + NullAll(c.subReplies) + [Closed(c.subs)])
  }

  /** `__redisAsyncDisconnect`; without an error there must be no pending callback. */
  function Disconnect(c: Client, error: bool): Client
  {
    if error then Free(c.(disconnecting := true))
    else if c.replies != [] then Free(c.(replies := c.replies[1..], broken := true))
    else Free(c)
  }

  /** `redisAsyncDisconnect`, called outside any callback. */
  function Quit(c: Client): Client
  {
    var d := c.(disconnecting := true);
    if c.replies == [] then Disconnect(d, false) else d
  }

  /** There is nothing more to read: time to disconnect, if that is wanted. */
  function Idle(c: Client, flushed: bool): Client
  {
    if c.disconnecting && flushed && c.replies == [] then Disconnect(c, false) else c
  }

  /** An unsubscription has been confirmed, and perhaps it was the last one. */
  function Leave(c: Client, count: nat): Client
  {
    if count == 0 && c.subs == map[] && c.pendingUnsubs == 0
    then c.(subscribed := false, replies := c.replies + c.subReplies, subReplies := [])
    else c
  }

  function Confirm(c: Client, of: Option<Topic>): Client
  {
    if of.None? || of.value !in c.subs then c.(pendingUnsubs := c.pendingUnsubs - 1)
    else if c.subs[of.value].pending == 0 then c.(subs := c.subs - {of.value})
    else c
  }

  /** Runs the callback that `topic` has in the client's tables. */
  function Notify(c: Client, subs: map<Topic, Subscription>, of: Option<Topic>, e: Event): Client
  {
    if of.Some? && of.value in subs then Noted(c, Notified(subs[of.value].fn, e)) else c
  }

  /** `__redisGetSubscribeCallback`, and the callback it finds. */
  function Subscriber(c: Client, e: Event): Client
  {
    match e
    case Message(t) => Notify(c, c.subs, Some(t), e)
    case SubAck(t) =>
      if t !in c.subs then c.(broken := true)
      else Notify(c.(subs := c.subs[t := c.subs[t].(pending := c.subs[t].pending - 1)]), c.subs, Some(t), e)
    case UnsubAck(of, count) => Notify(Leave(Confirm(c, of), count), c.subs, of, e)
    case Notice => c
    case Reply(_, shape) =>
      if shape.LongArray? && !c.supportsPush then c.(broken := true)
      else if c.subReplies == [] then c
      else Noted(c.(subReplies := c.subReplies[1..]), Answered(c.subReplies[0], e))
  }

  /** One turn of the loop of `redisProcessCallbacks`. */
  function Deliver(client: Client, e: Event): Client
  {
    var c := if e.Reply? then client else client.(supportsPush := true);
    if e.Notice? then Noted(c, Pushed)
    else if c.replies != [] then Noted(c.(replies := c.replies[1..]), Answered(c.replies[0], e))
    else if e.Reply? && e.shape.Error? then Disconnect(c, true)
    else if !c.subscribed then c.(broken := true)
    else Subscriber(c, e)
  }

  // ---------- The server ----------

  /** The subscriptions that the server holds once it has sent `stream`. */
  function Live(front: set<Topic>, stream: seq<Event>): set<Topic>
    decreases stream
  {
    if stream == [] then front else Live(After(front, stream[0]), stream[1..])
  }

  function After(front: set<Topic>, e: Event): set<Topic>
  {
    if e.SubAck? then front + {e.topic}
    else if e.UnsubAck? && e.of.Some? then front - {e.of.value}
    else front
  }

  function SubAcks(topics: seq<Topic>): seq<Event>
  {
    if topics == [] then [] else [SubAck(topics[0])] + SubAcks(topics[1..])
  }

  function UnsubAcks(live: set<Topic>, topics: seq<Topic>): seq<Event>
  {
    if topics == [] then [] else
      var rest := live - {topics[0]};
      [UnsubAck(Some(topics[0]), |rest|)] + UnsubAcks(rest, topics[1..])
  }

  /** The server's answer to a command: `order` lists what an UNSUBSCRIBE of everything drops. */
  function Answer(live: set<Topic>, cmd: Command, id: nat, shape: Shape, order: seq<Topic>): seq<Event>
  {
    match cmd
    case Regular => [Reply(id, shape)]
    case Subscribe(topics) => SubAcks(topics)
    case Unsubscribe(topics) => UnsubAcks(live, topics)
    case UnsubscribeAll(_) => if order == [] then [UnsubAck(None, |live|)] else UnsubAcks(live, order)
  }

  function Elements(order: seq<Topic>): set<Topic> { set t | t in order }

  predicate Lists(order: seq<Topic>, topics: set<Topic>)
  {
    (forall i, j :: 0 <= i < j < |order| ==> order[i] != order[j]) && Elements(order) == topics
  }

  // ---------- Client and server together ----------

  /** The events of `stream` are still to be received; `front` is what the server held before them.
      The answers to a command join the stream when it is issued. Accepted commands are recorded in
      `issued`, and the place of a command there is its callback. */
  datatype System = System(client: Client, front: set<Topic>, stream: seq<Event>, issued: seq<Command>)

  datatype Step =
    | DoIssue(cmd: Command, shape: Shape, order: seq<Topic>)
    | DoPublish(at: nat, topic: Topic)
    | DoNotice(at: nat)
    | DoDeliver
    | DoIdle(flushed: bool)
    | DoQuit
    | DoFree
    | DoBreak

  /** A message is published only on a topic that the server holds at that point of the stream. */
  predicate Enabled(s: System, step: Step)
  {
    !s.client.freed &&
    match step
    case DoIssue(cmd, _, order) =>
      (cmd.Subscribe? || cmd.Unsubscribe? ==> cmd.topics != []) &&
      (cmd.UnsubscribeAll? ==> Lists(order, OfVariant(Live(s.front, s.stream), cmd.pattern)))
    case DoPublish(at, topic) => at <= |s.stream| && topic in Live(s.front, s.stream[..at])
    case DoNotice(at) => at <= |s.stream|
    case DoDeliver => s.stream != []
    case DoIdle(_) => true
    case DoQuit => true
    case DoFree => true
    case DoBreak => true
  }

  function Insert(stream: seq<Event>, at: nat, e: Event): seq<Event>
    requires at <= |stream|
  {
    stream[..at] + [e] + stream[at..]
  }

  function Next(s: System, step: Step): System
    requires Enabled(s, step)
  {
    match step
    case DoIssue(cmd, shape, order) =>
      if !Accepts(s.client, cmd) then s else
        var id := |s.issued|;
        var answer := Answer(Live(s.front, s.stream), cmd, id, shape, order);
        System(Issue(s.client, cmd, id), s.front, s.stream + answer, s.issued + [cmd])
    case DoPublish(at, topic) => s.(stream := Insert(s.stream, at, Message(topic)))
    case DoNotice(at) => s.(stream := Insert(s.stream, at, Notice))
    case DoDeliver =>
      System(Deliver(s.client, s.stream[0]), After(s.front, s.stream[0]), s.stream[1..], s.issued)
    case DoIdle(flushed) => s.(client := Idle(s.client, flushed))
    case DoQuit => s.(client := Quit(s.client))
    case DoFree => s.(client := Free(s.client))
    case DoBreak => s.(client := Disconnect(s.client, true))
  }

  // ---------- The books ----------

  function Ids(stream: seq<Event>): seq<nat>
  {
    if stream == [] then [] else (if stream[0].Reply? then [stream[0].id] else []) + Ids(stream[1..])
  }

  /** How many subscriptions to `t` are still to be confirmed. */
  function SubsDue(stream: seq<Event>, t: Topic): nat
  {
    if stream == [] then 0 else (if stream[0] == SubAck(t) then 1 else 0) + SubsDue(stream[1..], t)
  }

  predicate Drops(e: Event, t: Topic) { e.UnsubAck? && e.of == Some(t) }

  /** Every confirmed unsubscription from `t` comes before a subscription to it. */
  predicate Covered(stream: seq<Event>, t: Topic)
  {
    stream == [] || (Covered(stream[1..], t) && (Drops(stream[0], t) ==> SubsDue(stream[1..], t) > 0))
  }

  /** How many unsubscription messages will find no subscription, when `known` are the client's
      topics: those it must have counted as pending. */
  function Owed(stream: seq<Event>, known: set<Topic>): nat
  {
    if stream == [] then 0 else
      var e, rest := stream[0], stream[1..];
      if !e.UnsubAck? then Owed(rest, known)
      else if e.of.None? || e.of.value !in known then 1 + Owed(rest, known)
      else if SubsDue(rest, e.of.value) > 0 then Owed(rest, known)
      else Owed(rest, known - {e.of.value})
  }

  /** The counts are right, and messages come only while the server holds the subscription. */
  predicate Apt(live: set<Topic>, e: Event)
  {
    (e.UnsubAck? ==> e.count == |After(live, e)|) && (e.Message? ==> e.topic in live)
  }

  predicate Honest(front: set<Topic>, stream: seq<Event>)
    decreases stream
  {
    stream == [] ||
    (Apt(front, stream[0]) && Honest(After(front, stream[0]), stream[1..]))
  }

  predicate PendingOk(subs: map<Topic, Subscription>, stream: seq<Event>, t: Topic)
  {
    if t in subs
    then subs[t].pending >= SubsDue(stream, t) && (!subs[t].sent ==> Covered(stream, t))
    else SubsDue(stream, t) == 0
  }

  ghost predicate PendingAll(subs: map<Topic, Subscription>, stream: seq<Event>)
  {
    forall t :: PendingOk(subs, stream, t)
  }

  ghost predicate Books(c: Client, front: set<Topic>, stream: seq<Event>)
  {
    PendingAll(c.subs, stream) &&
    Live(front, stream) == Unsent(c.subs) &&
    Owed(stream, c.subs.Keys) <= c.pendingUnsubs &&
    Honest(front, stream) && front <= c.subs.Keys
  }

  // What is appended to the stream.

  lemma {:induction false} AppendLive(front: set<Topic>, stream: seq<Event>, e: Event)
    ensures Live(front, stream + [e]) == After(Live(front, stream), e)
    decreases stream
  {
    if stream == [] {
      assert (stream + [e])[1..] == [];
    } else {
      assert (stream + [e])[1..] == stream[1..] + [e];
      AppendLive(After(front, stream[0]), stream[1..], e);
    }
  }

  lemma {:induction false} AppendHonest(front: set<Topic>, stream: seq<Event>, e: Event)
    requires Honest(front, stream) && Apt(Live(front, stream), e)
    ensures Honest(front, stream + [e])
    decreases stream
  {
    if stream == [] {
      assert (stream + [e])[1..] == [];
    } else {
      assert (stream + [e])[1..] == stream[1..] + [e];
      AppendHonest(After(front, stream[0]), stream[1..], e);
    }
  }

  lemma IdsFirst(stream: seq<Event>)
    requires stream != []
    ensures Ids(stream) == (if stream[0].Reply? then [stream[0].id] else []) + Ids(stream[1..])
  {
  }

  lemma {:induction false} IdsAppend(a: seq<Event>, b: seq<Event>)
    ensures Ids(a + b) == Ids(a) + Ids(b)
  {
    if a == [] {
      assert a + b == b;
    } else {
      hide Ids;
      IdsFirst(a);
      IdsFirst(a + b);
      assert (a + b)[1..] == a[1..] + b && (a + b)[0] == a[0];
      IdsAppend(a[1..], b);
    }
  }

  lemma {:induction false} AppendDue(stream: seq<Event>, e: Event, t: Topic)
    ensures SubsDue(stream + [e], t) == SubsDue(stream, t) + if e == SubAck(t) then 1 else 0
    ensures e == SubAck(t) ==> Covered(stream + [e], t)
    ensures e != SubAck(t) ==> (Covered(stream + [e], t) <==> Covered(stream, t) && !Drops(e, t))
  {
    if stream == [] {
      assert stream + [e] == [e];
      assert [e][1..] == [];
    } else {
      assert (stream + [e])[1..] == stream[1..] + [e];
      AppendDue(stream[1..], e, t);
      if Drops(e, t) {
        LastDrops(stream, e, t);
      }
    }
  }

  lemma LastDrops(stream: seq<Event>, e: Event, t: Topic)
    requires Drops(e, t)
    ensures !Covered(stream + [e], t)
  {
    if stream == [] {
      assert stream + [e] == [e];
    } else {
      assert (stream + [e])[1..] == stream[1..] + [e];
      LastDrops(stream[1..], e, t);
    }
  }

  lemma {:induction false} KnowingLess(stream: seq<Event>, known: set<Topic>, less: set<Topic>)
    requires less <= known
    ensures Owed(stream, known) <= Owed(stream, less)
  {
    if stream != [] {
      var e, rest := stream[0], stream[1..];
      KnowingLess(rest, known, less);
      if e.UnsubAck? && e.of.Some? {
        KnowingLess(rest, known - {e.of.value}, less - {e.of.value});
        assert e.of.value !in less ==> less - {e.of.value} == less;
      }
    }
  }

  lemma {:induction false} OweSub(stream: seq<Event>, t: Topic, known: set<Topic>)
    ensures Owed(stream + [SubAck(t)], known) <= Owed(stream, known)
  {
    if stream == [] {
      assert (stream + [SubAck(t)])[1..] == [];
    } else {
      var e, rest := stream[0], stream[1..];
      assert (stream + [SubAck(t)])[1..] == rest + [SubAck(t)];
      OweSub(rest, t, known);
      if e.UnsubAck? && e.of.Some? {
        AppendDue(rest, SubAck(t), e.of.value);
        OweSub(rest, t, known - {e.of.value});
        KnowingLess(rest, known, known - {e.of.value});
      }
    }
  }

  lemma {:induction false} OweUnsub(stream: seq<Event>, u: Event, known: set<Topic>)
    requires u.UnsubAck?
    ensures Owed(stream + [u], known) <= Owed(stream, known) + 1
    ensures u.of.Some? && u.of.value in known && Covered(stream, u.of.value) ==>
              Owed(stream + [u], known) == Owed(stream, known)
  {
    if stream == [] {
      assert (stream + [u])[1..] == [];
    } else {
      var e, rest := stream[0], stream[1..];
      assert (stream + [u])[1..] == rest + [u];
      OweUnsub(rest, u, known);
      if e.UnsubAck? && e.of.Some? {
        AppendDue(rest, u, e.of.value);
        OweUnsub(rest, u, known - {e.of.value});
      }
    }
  }

  lemma {:induction false} OweReply(stream: seq<Event>, r: Event, known: set<Topic>)
    requires !r.UnsubAck? && !r.SubAck?
    ensures Owed(stream + [r], known) == Owed(stream, known)
  {
    if stream == [] {
      assert (stream + [r])[1..] == [];
    } else {
      var e, rest := stream[0], stream[1..];
      assert (stream + [r])[1..] == rest + [r];
      OweReply(rest, r, known);
      if e.UnsubAck? && e.of.Some? {
        AppendDue(rest, r, e.of.value);
        OweReply(rest, r, known - {e.of.value});
      }
    }
  }

  // ---------- Each command keeps the books ----------

  lemma BooksSubscribe(c: Client, front: set<Topic>, stream: seq<Event>, t: Topic, fn: nat, carried: int)
    requires Books(c, front, stream) && carried >= 1
    ensures var pending := if t in c.subs then c.subs[t].pending + 1 else carried;
            pending >= 1 &&
            Books(c.(subs := c.subs[t := Subscription(fn, pending, false)]), front, stream + [SubAck(t)])
  {
    var pending := if t in c.subs then c.subs[t].pending + 1 else carried;
    var subs := c.subs[t := Subscription(fn, pending, false)];
    assert PendingOk(c.subs, stream, t);
    forall x
      ensures PendingOk(subs, stream + [SubAck(t)], x)
    {
      assert PendingOk(c.subs, stream, x);
      AppendDue(stream, SubAck(t), x);
    }
    AppendLive(front, stream, SubAck(t));
    AppendHonest(front, stream, SubAck(t));
    assert Unsent(subs) == Unsent(c.subs) + {t};
    OweSub(stream, t, subs.Keys);
    KnowingLess(stream, subs.Keys, c.subs.Keys);
  }

  lemma PendingUnsubscribe(subs: map<Topic, Subscription>, stream: seq<Event>, t: Topic, count: nat)
    requires PendingAll(subs, stream)
    ensures t in subs ==> PendingAll(subs[t := subs[t].(sent := true)], stream + [UnsubAck(Some(t), count)])
    ensures t !in subs ==> PendingAll(subs, stream + [UnsubAck(Some(t), count)])
  {
    var u := UnsubAck(Some(t), count);
    var subs' := if t in subs then subs[t := subs[t].(sent := true)] else subs;
    forall x
      ensures PendingOk(subs', stream + [u], x)
    {
      assert PendingOk(subs, stream, x);
      AppendDue(stream, u, x);
    }
  }

  lemma BooksUnsubscribe(c: Client, front: set<Topic>, stream: seq<Event>, t: Topic)
    requires Books(c, front, stream)
    ensures Books(DropTopic(c, t), front, stream + [UnsubAck(Some(t), |Live(front, stream) - {t}|)])
  {
    hide Live, Honest, Owed;
    var u := UnsubAck(Some(t), |Live(front, stream) - {t}|);
    PendingUnsubscribe(c.subs, stream, t, u.count);
    AppendLive(front, stream, u);
    AppendHonest(front, stream, u);
    OweUnsub(stream, u, c.subs.Keys);
    if t in c.subs {
      assert PendingOk(c.subs, stream, t);
      var subs := c.subs[t := c.subs[t].(sent := true)];
      assert subs.Keys == c.subs.Keys;
      assert Unsent(subs) == Unsent(c.subs) - {t};
      assert c.subs[t].sent ==> subs == c.subs;
    }
  }

  lemma PendingOther(subs: map<Topic, Subscription>, stream: seq<Event>, e: Event)
    requires PendingAll(subs, stream) && !e.SubAck? && (e.UnsubAck? ==> e.of.None?)
    ensures PendingAll(subs, stream + [e])
  {
    forall x
      ensures PendingOk(subs, stream + [e], x)
    {
      assert PendingOk(subs, stream, x);
      AppendDue(stream, e, x);
    }
  }

  lemma BooksNothing(c: Client, front: set<Topic>, stream: seq<Event>)
    requires Books(c, front, stream)
    ensures Books(c.(pendingUnsubs := c.pendingUnsubs + 1), front, stream + [UnsubAck(None, |Live(front, stream)|)])
  {
    var u := UnsubAck(None, |Live(front, stream)|);
    PendingOther(c.subs, stream, u);
    AppendLive(front, stream, u);
    AppendHonest(front, stream, u);
    OweUnsub(stream, u, c.subs.Keys);
  }

  lemma BooksRegular(c: Client, front: set<Topic>, stream: seq<Event>, id: nat, shape: Shape)
    requires Books(c, front, stream)
    ensures Books(c, front, stream + [Reply(id, shape)])
  {
    var r := Reply(id, shape);
    PendingOther(c.subs, stream, r);
    AppendLive(front, stream, r);
    AppendHonest(front, stream, r);
    OweReply(stream, r, c.subs.Keys);
  }

  lemma {:induction false} BooksSubscribeAll(c: Client, front: set<Topic>, stream: seq<Event>, topics: seq<Topic>,
      fn: nat, carried: int)
    requires Books(c, front, stream) && carried >= 1
    ensures Books(c.(subs := AddTopics(c.subs, topics, fn, carried)), front, stream + SubAcks(topics))
    decreases topics
  {
    hide Books;
    if topics == [] {
      assert stream + SubAcks(topics) == stream;
    } else {
      var t := topics[0];
      var pending := if t in c.subs then c.subs[t].pending + 1 else carried;
      BooksSubscribe(c, front, stream, t, fn, carried);
      var d := c.(subs := c.subs[t := Subscription(fn, pending, false)]);
      var done, rest := stream + [SubAck(t)], SubAcks(topics[1..]);
      BooksSubscribeAll(d, front, done, topics[1..], fn, pending);
      assert SubAcks(topics) == [SubAck(t)] + rest && done + rest == stream + SubAcks(topics);
      var subs := AddTopics(c.subs, topics, fn, carried);
      assert d.(subs := AddTopics(d.subs, topics[1..], fn, pending)) == c.(subs := subs);
      assert Books(c.(subs := subs), front, stream + SubAcks(topics));
    }
  }

  lemma {:induction false} BooksUnsubscribeEach(c: Client, front: set<Topic>, stream: seq<Event>, topics: seq<Topic>)
    requires Books(c, front, stream)
    ensures Books(DropTopics(c, topics), front, stream + UnsubAcks(Live(front, stream), topics))
    decreases topics
  {
    hide Books, Live, DropTopic;
    var live := Live(front, stream);
    if topics == [] {
      assert stream + UnsubAcks(live, topics) == stream;
    } else {
      var t := topics[0];
      var u := UnsubAck(Some(t), |live - {t}|);
      BooksUnsubscribe(c, front, stream, t);
      AppendLive(front, stream, u);
      var d, done, rest := DropTopic(c, t), stream + [u], UnsubAcks(live - {t}, topics[1..]);
      BooksUnsubscribeEach(d, front, done, topics[1..]);
      assert UnsubAcks(live, topics) == [u] + rest && done + rest == stream + UnsubAcks(live, topics);
      assert Books(DropTopics(d, topics[1..]), front, stream + UnsubAcks(live, topics));
    }
  }

  /** An UNSUBSCRIBE of everything is one of exactly the topics that the server holds, in its order. */
  lemma {:induction false} DropAllIsDropTopics(c: Client, order: seq<Topic>, pattern: bool)
    requires Lists(order, OfVariant(Unsent(c.subs), pattern)) && order != []
    ensures DropAll(c, pattern) == DropTopics(c, order)
  {
    var some := OfVariant(Unsent(c.subs), pattern);
    assert order[0] in Elements(order);
    forall t <- order
      ensures t in c.subs && !c.subs[t].sent
    {
      assert t in Elements(order);
    }
    MarkEach(c, order);
  }

  lemma {:induction false} MarkEach(c: Client, order: seq<Topic>)
    requires forall t <- order :: t in c.subs && !c.subs[t].sent
    requires forall i, j :: 0 <= i < j < |order| ==> order[i] != order[j]
    ensures DropTopics(c, order) == c.(subs := MarkSent(c.subs, Elements(order)))
    decreases order
  {
    if order == [] {
      assert MarkSent(c.subs, {}) == c.subs;
    } else {
      var t := order[0];
      assert t in order;
      var subs := c.subs[t := c.subs[t].(sent := true)];
      forall x <- order[1..]
        ensures x in subs && !subs[x].sent
      {
        assert x in order;
      }
      MarkEach(c.(subs := subs), order[1..]);
      assert Elements(order) == {t} + Elements(order[1..]);
      MarkOneMore(c.subs, t, Elements(order[1..]));
    }
  }

  lemma MarkOneMore(subs: map<Topic, Subscription>, t: Topic, more: set<Topic>)
    requires t in subs
    ensures MarkSent(subs[t := subs[t].(sent := true)], more) == MarkSent(subs, {t} + more)
  {
  }

  /** Issuing a command keeps the books, whatever the order in which the server drops everything. */
  lemma BooksIssue(c: Client, front: set<Topic>, stream: seq<Event>, cmd: Command, id: nat, shape: Shape,
      order: seq<Topic>)
    requires Books(c, front, stream)
    requires cmd.UnsubscribeAll? ==> Lists(order, OfVariant(Live(front, stream), cmd.pattern))
    ensures Accepts(c, cmd) ==>
              Books(Issue(c, cmd, id), front, stream + Answer(Live(front, stream), cmd, id, shape, order))
  {
    if Accepts(c, cmd) {
      match cmd
      case Regular => BooksRegular(c, front, stream, id, shape);
      case Subscribe(topics) => BooksSubscribeAll(c, front, stream, topics, id, 1);
      case Unsubscribe(topics) => BooksUnsubscribeEach(c, front, stream, topics);
      case UnsubscribeAll(pattern) =>
        var some := OfVariant(Unsent(c.subs), pattern);
        if order == [] {
          assert Elements(order) == {} && some == {};
          BooksNothing(c, front, stream);
        } else {
          assert order[0] in Elements(order);
          DropAllIsDropTopics(c, order, pattern);
          BooksUnsubscribeEach(c, front, stream, order);
        }
    }
  }

  // ---------- Receiving keeps the books ----------

  lemma BooksReceive(c: Client, front: set<Topic>, stream: seq<Event>)
    requires Books(c, front, stream) && stream != [] && !stream[0].SubAck? && !stream[0].UnsubAck?
    ensures Books(c, After(front, stream[0]), stream[1..])
  {
    forall x
      ensures PendingOk(c.subs, stream[1..], x)
    {
      assert PendingOk(c.subs, stream, x);
    }
  }

  lemma BooksSubAck(c: Client, front: set<Topic>, stream: seq<Event>, t: Topic)
    requires Books(c, front, stream) && stream != [] && stream[0] == SubAck(t)
    ensures t in c.subs
    ensures Books(c.(subs := c.subs[t := c.subs[t].(pending := c.subs[t].pending - 1)]), front + {t}, stream[1..])
  {
    assert PendingOk(c.subs, stream, t);
    var subs := c.subs[t := c.subs[t].(pending := c.subs[t].pending - 1)];
    forall x
      ensures PendingOk(subs, stream[1..], x)
    {
      assert PendingOk(c.subs, stream, x);
    }
    assert Unsent(subs) == Unsent(c.subs);
    assert subs.Keys == c.subs.Keys;
  }

  lemma BooksConfirm(c: Client, front: set<Topic>, stream: seq<Event>)
    requires Books(c, front, stream) && stream != [] && stream[0].UnsubAck?
    ensures Books(Confirm(c, stream[0].of), After(front, stream[0]), stream[1..])
  {
    var of, rest := stream[0].of, stream[1..];
    if of.None? || of.value !in c.subs {
      PendingConfirm(c.subs, c.subs, stream);
    } else {
      var t := of.value;
      assert PendingOk(c.subs, stream, t);
      KnowingLess(rest, c.subs.Keys, c.subs.Keys - {t});
      if c.subs[t].pending == 0 {
        var subs := c.subs - {t};
        assert subs.Keys == c.subs.Keys - {t};
        assert Unsent(subs) == Unsent(c.subs);
        PendingConfirm(c.subs, subs, stream);
      } else {
        PendingConfirm(c.subs, c.subs, stream);
      }
    }
  }

  lemma PendingConfirm(subs: map<Topic, Subscription>, after: map<Topic, Subscription>, stream: seq<Event>)
    requires PendingAll(subs, stream) && stream != [] && stream[0].UnsubAck?
    requires after == subs || exists t :: t in subs && subs[t].pending == 0 && after == subs - {t}
    ensures PendingAll(after, stream[1..])
  {
    forall x
      ensures PendingOk(after, stream[1..], x)
    {
      assert PendingOk(subs, stream, x);
    }
  }

  // ---------- Published messages change nothing in the books ----------

  lemma {:induction false} InsertNeutral(front: set<Topic>, stream: seq<Event>, at: nat, e: Event)
    requires at <= |stream| && (e.Message? || e.Notice?)
    ensures Live(front, Insert(stream, at, e)) == Live(front, stream)
    ensures Ids(Insert(stream, at, e)) == Ids(stream)
    ensures Honest(front, stream) && (e.Message? ==> e.topic in Live(front, stream[..at])) ==>
            Honest(front, Insert(stream, at, e))
    decreases stream
  {
    var new_ := Insert(stream, at, e);
    if at == 0 {
      assert new_[1..] == stream;
    } else {
      assert new_[1..] == Insert(stream[1..], at - 1, e) && new_[0] == stream[0];
      assert stream[..at][1..] == stream[1..][..at - 1];
      InsertNeutral(After(front, stream[0]), stream[1..], at - 1, e);
    }
  }

  lemma {:induction false} InsertDue(stream: seq<Event>, at: nat, e: Event, t: Topic)
    requires at <= |stream| && (e.Message? || e.Notice?)
    ensures SubsDue(Insert(stream, at, e), t) == SubsDue(stream, t)
    ensures Covered(Insert(stream, at, e), t) <==> Covered(stream, t)
    decreases stream
  {
    var new_ := Insert(stream, at, e);
    if at == 0 {
      assert new_[1..] == stream;
    } else {
      assert new_[1..] == Insert(stream[1..], at - 1, e) && new_[0] == stream[0];
      InsertDue(stream[1..], at - 1, e, t);
    }
  }

  lemma {:induction false} InsertOwed(stream: seq<Event>, at: nat, e: Event, known: set<Topic>)
    requires at <= |stream| && (e.Message? || e.Notice?)
    ensures Owed(Insert(stream, at, e), known) == Owed(stream, known)
    decreases stream
  {
    var new_ := Insert(stream, at, e);
    if at == 0 {
      assert new_[1..] == stream;
    } else {
      assert new_[1..] == Insert(stream[1..], at - 1, e) && new_[0] == stream[0];
      InsertOwed(stream[1..], at - 1, e, known);
      if stream[0].UnsubAck? && stream[0].of.Some? {
        InsertDue(stream[1..], at - 1, e, stream[0].of.value);
        InsertOwed(stream[1..], at - 1, e, known - {stream[0].of.value});
      }
    }
  }

  lemma BooksInsert(c: Client, front: set<Topic>, stream: seq<Event>, at: nat, e: Event)
    requires Books(c, front, stream) && at <= |stream| && (e.Message? || e.Notice?)
    requires e.Message? ==> e.topic in Live(front, stream[..at])
    ensures Books(c, front, Insert(stream, at, e))
  {
    forall x
      ensures PendingOk(c.subs, Insert(stream, at, e), x)
    {
      assert PendingOk(c.subs, stream, x);
      InsertDue(stream, at, e, x);
    }
    InsertNeutral(front, stream, at, e);
    InsertOwed(stream, at, e, c.subs.Keys);
  }
}
