# Verification of the control station's core logic

A Dafny model of the parts of the repository whose behaviour is hardest to see by reading one function:
the Redis reply reader and command writer, the matching of replies to callbacks, the hash table behind
it, the coroutine mutex and the event wait, the configuration dump with its tokenizer and its replay,
the state machine that runs a configuration, the JSON printer and parser, the string quoting and the
integer conversions, the chute relay and the line editor. `dafny verify dfyconfig.toml` checks it all.

How the files divide:

- `Decimal` (integer text), `Resp` (the wire format as a grammar, its printer), `RespWire` (what each line of
  it means, in its literal characters), `RespMachine` (the incremental parser as a machine), `RespReader` (the
  reader object with its task stack, its buffer and the reply objects on the heap), `CommandWriter`, `SdsQuote`,
  `SdsWords` (the words that splitting reads, written out).
- `AsyncMatcher` (the client's bookkeeping, an in-order RESP3 server, what each step keeps), `AsyncRuns`
  (all runs), `AsyncCallbacks` (which callback runs), `AsyncLeaving` (when subscribed mode ends), `Dict` and `DictIteration` (the hash table and its
  iterator), `Subscriptions` (the table of subscriptions in it), `AsyncContext` (the context object, with that
  table and its linked queues).
- `CoMutex` and `EventWait` (transition systems over all schedules, and the objects), `Coroutines`.
- `Tokenizer`, `TokenText` (what a line is split into, written out), `WordExact` (which words of a line are read
  as they stand), `ActionText`, `SmConfig`,
  `SmSession` (a session: its menus and the lines that it runs), `SmReplay` (what the replay of a dump
  rebuilds), `SmExact` (when that is the configuration itself), `SmEdits` (what sessions keep), `SmSaved` (the
  saved file), `SmRuntime`.
- `Json` (grammar and printer), `JsonText` (what escapes and numbers mean, and how texts are laid out),
  `JsonRoundTrip`, `JsonItems` (linked items), `JsonPrinter`, `JsonParser`.
- `RelayController`, `LineEditor`; `Wrappers` (the option type) and `Buffers` (copying into a buffer).

Conventions. A character stands for a byte. Code that works by assignment is a class or a method with
loops, proved equal to a function of the old state; the properties are lemmas about those functions and
invariants of the transition systems. A concurrent or asynchronous part is a transition system: `Enabled`
says when a step may happen, `Next` what it does, and a run is any sequence of enabled steps. What such a
function computes is also stated without it: by the literal characters of a format, by a law of several
functions, or by an if-and-only-if over all inputs.

What the proofs brought to light, each stated exactly in the table below:

- Leaving subscribed mode. After every subscription has been given up and confirmed, the context of
  `async.c` stays in subscribed mode exactly if some SUBSCRIBE miscounted: a topic of it was unknown to
  the context and inherited a counter other than one from the topic before it (`cb` carries over between
  the turns of the loop), or an unsubscription from one of its topics that had been counted as pending was
  still to be confirmed (`StuckIffMiscounted`). Every run with such a SUBSCRIBE, as long as the connection
  stands, goes on to a state with nothing subscribed, nothing in flight and the context still in subscribed
  mode (`MiscountGetsStuck`; `CarriedCount` and `OvertakenUnsubscription` are one run for each of the two
  cases, up to that state). Replies are matched correctly all the same.
- Action text survives the dump, the tokenizer and the restoring of newlines if and only if it holds no
  `<>` and no backslash that is last or stands before a quote or a backslash (`SurvivesIffClean`).
- The dump of a configuration rebuilds it if and only if every name and every trigger is plain and all code
  is clean (`DumpReplaysIff`, `EditedConfigReplaysIff`). Nothing checks names: `create_state "a b"` creates
  a state called `a b`, and its dump creates a state called `a` (`BlankNameIsCreated`, `BlankNameIsLost`).
  A plain word has no quote, a backslash only before a character that is no quote, no backslash and no
  newline, and a blank only behind such a backslash; exactly these words are read as they stand
  (`LastWordReads`). Of the commands, exactly those that are refused, or that bring no name, trigger or code
  along but plain and clean ones, keep a configuration rebuildable (`CommandPreservesIff`).
- The mutex is ever free with a coroutine waiting in `lock` and none of those woken if and only if some last
  unlock popped a coroutine that did not wait any more, while others waited and none of them had been woken
  (`LostIffWasted`). This needs a wakeup that does not come from `unlock`
  (`NoLostWakeup`), and one is enough (`SpuriousWakeupLosesOne`).
- A wait on a descriptor that is already registered is not registered, and its timeout takes the other
  registration away (`RegisteredIffFree`, `TimeoutTakesAnother`). A wait can still end if and only if one of
  its own registrations is left that no started handler will remove, or has been reported
  (`CanEndIffHeard`); so one without a timeout on a descriptor that is taken never ends (`TakenNeverEnds`),
  and one that could end no longer can once the last of them is removed, by the end of another wait on one of
  its descriptors or by hand (`GoesDeafIff`).
- A relay request for the present position while the relay is moving stops it one step beyond
  (`RequestForHere`).
- A JSON integer is read back as the number that is printed, if that is below 2^63 in magnitude, and a number
  with a fraction as what is printed of it, which is rounded to six decimals (`IntReadsBack`,
  `DoubleReadsBack`, `PrintParse`). A tree comes back itself if and only if the `sign` of each integer is -1
  for a negative value and 1 otherwise, no integer is the least one, and six decimals are enough for the other
  numbers (`RoundTrip`): an unsigned value of 2^63 or more, which is an item of sign 1 with a negative
  `valueint`, does not.
- The escape of a surrogate pair gives the bytes of its code point if and only if bit 16 of the value that the
  pair carries is clear, for the source sets that bit where it should add; otherwise it gives those of the
  character 0x10000 below (`PairEscape`).
- A number with a fraction is printed into 64 bytes. That is enough if and only if it is below 10^56, or above
  -10^55 if it is negative (`DoubleRoom`); the buffers of whole trees suffice as long as these do.
- The state machine runs on for ever on a cycle of `do.next` edges: `trigger` ends within n turns if and only
  if the chain does, and otherwise has gone on to a new state in each (`DynamicSm.Trigger`); the chain ends
  if and only if it never comes back to a state (`EndsWithinStates`).

Where code and documentation disagree the model follows the code: the comment at
`src/cli/detail/split.h:228` shows a sentence in which an escaped backslash is followed by a quote that
does not end the sentence, but the code ends it there. The boolean reply accepts a NUL byte as false,
because the source looks the byte up with `strchr`; the two bytes after a bulk string are not examined.

## Model

| member | source | states |
|---|---|---|
| Decimal.ParseLLExact | src/public/hiredis/read.c:162-223 | the accepted texts are exactly the canonical decimals of 64-bit values: a text is read as v if and only if v fits and the text is what printing v gives |
| Decimal.String2ll | src/public/hiredis/read.c:162-223 | the loop with its overflow tests on unsigned 64-bit arithmetic computes exactly that; no overflow slips through |
| Decimal.TextParses | src/public/hiredis/sds.c:434-463 | reading back the printed text of any 64-bit value returns the value |
| Decimal.DigitsAt | src/public/hiredis/sds.c:434-463 | counted from the right, digit k of a text is n / 10^k modulo 10 |
| Decimal.Sdsll2str | src/public/hiredis/sds.c:434-463 | digits produced backwards and reversed in place are the decimal text, within the 21 bytes reserved |
| Decimal.Sdsull2str | src/public/hiredis/sds.c:466-494 | the same for unsigned values up to 2^64-1 |
| Decimal.CountDigits | src/public/hiredis/hiredis.c:306-317 | the digit count equals the length of the decimal text, for every value |
| Resp.ParseStable | src/public/hiredis/read.c:574-657 | what has been decided about a stream, a reply or an error, does not change when more bytes arrive |
| Resp.ParseEncode | src/public/hiredis/read.c:269-572 | for every reply tree of any depth: parsing its encoding followed by anything gives that tree and consumes exactly its encoding |
| Resp.PrefixIsIncomplete | src/public/hiredis/read.c:742-793 | no proper prefix of an encoding yields a reply or an error |
| Resp.EncodeInjective | src/public/hiredis/read.c:574-657 | two streams that start with encodings of trees and agree have the same tree and the same rest |
| Resp.RepliesEncode | src/public/hiredis/read.c:742-793 | a stream of encoded trees is read as exactly those trees, with no error |
| RespWire.BulkHeader | src/public/hiredis/read.c:398-468 | for every line: `$` and the line are nil if and only if the line is -1, an error if and only if it is no decimal of a 64-bit value from -1 on, and otherwise the string of so many bytes, or a wait for them |
| RespWire.VerbatimHeader | src/public/hiredis/read.c:398-468 | the same of a verbatim string, whose bytes must be four or more with a colon in fourth place: its three letters of kind, and the bytes behind the colon |
| RespWire.AggregateHeader | src/public/hiredis/read.c:496-572 | for every line: an array, a map, a set, a push or an attribute is nil, an error, empty, or has so many elements, two for each pair of a map, as the number in the line says, within the limit on elements |
| RespWire.IntegerLine | src/public/hiredis/read.c:269-396 | an integer line is an integer if and only if it is the decimal of a 64-bit value, and then that one |
| RespWire.StatusLine | src/public/hiredis/read.c:269-396 | the lines of statuses and errors are themselves, except that a carriage return or newline in them is an error |
| RespWire.BoolLine | src/public/hiredis/read.c:269-396 | a boolean is one of the four letters, either case, and a lone NUL counts as false; every other line is an error |
| RespWire.DoubleLine | src/public/hiredis/read.c:269-396 | the infinities and NaN in either case, or what the C library reads whole; empty, too long and other lines are errors |
| RespWire.BigNumberLine | src/public/hiredis/read.c:269-396 | an optional minus sign and digits, and nothing else |
| RespWire.NilLine | src/public/hiredis/read.c:269-396 | nil is an empty line |
| RespWire.OtherByte | src/public/hiredis/read.c:574-657 | any first byte but the fourteen of the format is an error |
| RespWire.OpenLine | src/public/hiredis/read.c:574-657 | a line without its end is waited for, whatever its first byte |
| RespMachine.StepProgress | src/public/hiredis/read.c:574-657 | every successful item consumes at least one byte, at any nesting |
| RespMachine.StepMeaning | src/public/hiredis/read.c:240-657 | a step of the explicit-stack parser, at any stack and however the stream goes on, keeps what the recursive grammar makes of the whole |
| RespMachine.PollRefinesParse | src/public/hiredis/read.c:240-657 | the stack machine gives the tree, the error or the wait that the recursive grammar gives |
| RespMachine.ChunkingIndependence | src/public/hiredis/read.c:711-793 | for every stream and every way of cutting it, feeding the pieces with a drain after each delivers the replies of the whole stream and ends in an error exactly when it does |
| RespMachine.SameBytesSameReplies | src/public/hiredis/read.c:711-793 | two cuttings of the same bytes deliver the same |
| RespMachine.SessionDelivers | src/public/hiredis/read.c:711-793 | encoded trees arrive as those trees, however the stream is cut |
| RespReader.ShowsUnique | src/public/hiredis/hiredis.c:126-304 | a reply object on the heap shows at most one tree |
| RespReader.Reader.MoveToNextTask | src/public/hiredis/read.c:240-267 | the loop over the task stack closes the finished aggregates and leaves the next child slot to be filled |
| RespReader.Reader.ProcessLineItem | src/public/hiredis/read.c:269-396 | a line item does what the machine's step does: the value is built and stored in its parent's slot, or the reader waits, or fails |
| RespReader.Reader.ProcessBulkItem | src/public/hiredis/read.c:398-468 | a bulk item, a verbatim string or a nil on the heap does what the machine's step does with the header that `RespWire.BulkHeader` spells out |
| RespReader.Reader.ProcessAggregateItem | src/public/hiredis/read.c:496-572 | the same for aggregate headers, including the growth of the stack and empty and nil aggregates |
| RespReader.Reader.ProcessItem | src/public/hiredis/read.c:574-657 | one item on the heap is one step of the machine |
| RespReader.Reader.Feed | src/public/hiredis/read.c:711-740 | feeding appends to the unread bytes and changes nothing else, unless the reader has failed |
| RespReader.Reader.GetReply | src/public/hiredis/read.c:742-793 | returns the next tree of the stream on the heap with every slot filled, or nothing yet, or the error; the compaction of the buffer changes nothing, and what was handed over is no longer the reader's |
| RespReader.ReadChunks | src/public/hiredis/read.c:711-793 | the heap trees handed over, however the stream is cut, are the replies of the whole stream in order, and the reader fails exactly when the stream is malformed |
| CommandWriter.CommandReadsBack | src/public/hiredis/hiredis.c:593-685 | the reader returns exactly the array of bulk strings argv, for arbitrary byte strings |
| CommandWriter.CommandBytes | src/public/hiredis/hiredis.c:593-685 | the command is `*`, the number of arguments, and for each `$`, its number of bytes and the bytes, every part ended by a carriage return and a newline |
| CommandWriter.RequestReadsBack | src/public/hiredis/hiredis.c:593-685 | for every argv, with or without lengths: the reader returns from the request exactly those arguments |
| CommandWriter.TotalLength | src/public/hiredis/hiredis.c:649-668 | the length computed beforehand is the number of bytes of the command |
| CommandWriter.FormatCommandArgv | src/public/hiredis/hiredis.c:649-685 | every write is within the buffer; the bytes written are the request, in literal characters, with these arguments: without lengths each text up to its first NUL, and with lengths the first so many bytes of each |
| CommandWriter.FormatSdsCommandArgv | src/public/hiredis/hiredis.c:593-638 | the other formatter writes the same request for the same arguments |
| CommandWriter.OneArgument | src/public/hiredis/hiredis.c:593-685 | what the formatters promise of an argument is met by one text only |
| CommandWriter.SplitFormat | src/public/hiredis/hiredis.c:340-480 | the loop over a format splits and interpolates as the interpretation of the format says, including its error |
| CommandWriter.FormatCommand | src/public/hiredis/hiredis.c:323-537 | a format gives the command of its interpolated words, within the computed length, or -2 for a bad conversion |
| CommandWriter.InterpretWords | src/public/hiredis/hiredis.c:340-480 | for all words of literals, %% , %s and %b: the arguments are the words with their places filled in; spaces and percent signs inside arguments never split or convert |
| CommandWriter.ConversionIff | src/public/hiredis/hiredis.c:340-480 | the scan of a number conversion accepts exactly flags, width, precision, size and letter in that order, and stops behind the letter |
| CommandWriter.InterpretNumber | src/public/hiredis/hiredis.c:340-480 | such a conversion of fewer than fourteen characters adds what the C library renders; of a longer one the value and the first two characters are lost, and the rest is read as text |
| CommandWriter.BadConversion | src/public/hiredis/hiredis.c:340-480 | what is neither that nor one of the other conversions makes the whole format an error |
| CommandWriter.PercentStands | src/public/hiredis/hiredis.c:340-480 | two percent signs stand for one, wherever they come |
| SdsQuote.Sdscatrepr | src/public/hiredis/sds.c:875-898 | the loop appends the quoted form of the bytes |
| SdsQuote.Sdssplitargs | src/public/hiredis/sds.c:943-1059 | the pointer walk splits a line as the grammar of arguments says, including its errors |
| SdsQuote.SplitInvertsRepr | src/public/hiredis/sds.c:875-1059 | for every list of byte strings, empty ones and ones with NUL included: splitting the quoted forms joined by blanks returns the list |
| SdsWords.SplitReadsWord | src/public/hiredis/sds.c:943-1059 | a line that begins with a word, bare or ending in a part between double or single quotes with every kind of escape written out: the first argument is what the word means and the others those of the rest, and behind a closing quote there must be white space or nothing |
| SdsWords.SplitReadsLine | src/public/hiredis/sds.c:943-1059 | every line of such words, separated by white space, splits into what they mean |
| SdsWords.DoubleQuoted | src/public/hiredis/sds.c:963-1000 | between double quotes: five letters behind a backslash are control bytes, `\x` and two digits of either case a byte, any other character behind a backslash itself |
| SdsWords.SingleQuoted | src/public/hiredis/sds.c:1001-1018 | between single quotes only the quote is written with a backslash, and every text that does not end in one can be written |
| SdsWords.EscapeIsUnit | src/public/hiredis/sds.c:875-898 | quoting writes printable bytes as themselves, the quote, the backslash and five control bytes with a backslash, and all others as two lower-case digits |
| AsyncMatcher.DropAllIsDropTopics | src/public/hiredis/async.c:925-943 | an UNSUBSCRIBE of everything marks exactly the topics that the server holds, whatever order the server confirms them in |
| AsyncMatcher.BooksIssue | src/public/hiredis/async.c:834-968 | every accepted command keeps the books: counters cover the subscriptions in flight, the topics not marked as given up are those that the server will hold, and the ignored confirmations are covered by the pending count |
| AsyncMatcher.BooksSubAck | src/public/hiredis/async.c:505-507 | a confirmed subscription finds its callback, so the assertion holds, and the books are kept |
| AsyncMatcher.BooksConfirm | src/public/hiredis/async.c:509-513 | a confirmed unsubscription keeps the books, whichever of its three cases applies |
| AsyncMatcher.BooksInsert | src/public/hiredis/async.c:470-501 | messages may be woven in wherever the server holds the topic |
| AsyncRuns.Unobstructed | src/public/hiredis/async.c:602-634 | what concerns a subscription arrives only in subscribed mode with no regular callback queued before it |
| AsyncRuns.LeaveKeeps | src/public/hiredis/async.c:515-533 | when the context leaves subscribed mode nothing but answers to regular commands is in flight, and those moved over are in order |
| AsyncRuns.StepKeeps | src/public/hiredis/async.c:362-657 | every step of client, server and event loop keeps the invariant |
| AsyncRuns.EveryRun | src/public/hiredis/async.c:269-657 | in every run: no assertion fails; the callbacks that have run, followed by the two queues, are those of all regular commands issued, each once and in order; each ran with the reply to its own command or with NULL; once freed, all have run; outside subscribed mode the second queue is empty |
| AsyncCallbacks.SubscribeSetsCallbacks | src/public/hiredis/async.c:863-889 | an accepted SUBSCRIBE makes its callback that of every topic it names, and changes no other topic |
| AsyncCallbacks.MessageArrives | src/public/hiredis/async.c:493-501 | in every run, a published message runs the callback of the last accepted SUBSCRIBE that names its topic, and nothing else |
| AsyncCallbacks.SubscriptionConfirmed | src/public/hiredis/async.c:493-507 | so does every confirmation of a subscription |
| AsyncCallbacks.UnsubscriptionConfirmed | src/public/hiredis/async.c:493-533 | so does the confirmation of an unsubscription from a topic that the client knows, also where it makes the client forget the topic; one from any other topic runs nothing |
| AsyncCallbacks.FreedRuns | src/public/hiredis/async.c:362-452 | in every run, the step that frees the context runs every queued callback with NULL, in order and once, and then every subscription's, each that of the last SUBSCRIBE naming its topic |
| AsyncCallbacks.FreedIff | src/public/hiredis/async.c:427-657 | a context is freed when that is asked for, when the connection breaks, by an error reply that no command waits for, and by a disconnect with no regular callback pending, at once or as soon as there is none |
| AsyncCallbacks.DisconnectAsserts | src/public/hiredis/async.c:427-452 | a disconnect without an error asserts that no regular callback is pending, and one after an error does not |
| AsyncCallbacks.ClosingAcceptsNothing | src/public/hiredis/async.c:454-468 | after a disconnect has been asked for no command is accepted any more |
| AsyncCallbacks.BreaksIff | src/public/hiredis/async.c:470-634 | what an assertion of the source rules out, for every client and reply, and what teaches a client that the server can push |
| AsyncCallbacks.LeavesIff | src/public/hiredis/async.c:509-533 | a confirmed unsubscription ends subscribed mode if and only if the server counts none, none is known and none is to be ignored |
| AsyncLeaving.OweSubExact | src/public/hiredis/async.c:865-886 | a new subscription takes over exactly the unsubscriptions of its topic that were to be ignored |
| AsyncLeaving.JudgementStep | src/public/hiredis/async.c:470-968 | every step keeps the counts exact, or too high for good once a SUBSCRIBE has miscounted |
| AsyncLeaving.StuckIffMiscounted | src/public/hiredis/async.c:509-533 | in every run, with no subscription held and nothing left to confirm, the context is still in subscribed mode if and only if some SUBSCRIBE of the run miscounted |
| AsyncLeaving.MiscountGetsStuck | src/public/hiredis/async.c:509-533 | every run with a SUBSCRIBE that has miscounted, on a connection that stands with no error under way, can be continued to a state in which nothing is subscribed or in flight and the context is still in subscribed mode |
| AsyncLeaving.CarriedCount | src/public/hiredis/async.c:869-886 | subscribing to a known and then a new topic in one command miscounts, and the run that gives both up ends stuck in subscribed mode |
| AsyncLeaving.OvertakenUnsubscription | src/public/hiredis/async.c:903-921 | subscribing to a topic whose ignored unsubscription is in flight miscounts, and the run that gives everything up ends stuck in subscribed mode |
| AsyncContext.CallbackList.Push | src/public/hiredis/async.c:269-289 | appends at the end of the linked queue |
| AsyncContext.CallbackList.Shift | src/public/hiredis/async.c:291-305 | removes the first callback of the linked queue, nothing from an empty one |
| Subscriptions.MarkEvery | src/public/hiredis/async.c:925-939 | the walk of the table's iterator marks exactly the topics of that kind that are not marked yet, and says whether there were none |
| Subscriptions.Snapshot | src/public/hiredis/async.c:374-392 | the walk of the iterator meets every subscription once, with its value |
| AsyncContext.Context.IssueCommand | src/public/hiredis/async.c:834-968 | on the hash table and the linked queues: the loops over the arguments and the table do what the transition says, and the command is refused exactly when it says so |
| AsyncContext.Context.GetSubscribeCallback | src/public/hiredis/async.c:470-544 | finds, counts and deletes in the hash table, leaves subscribed mode and moves the queue as the transition says |
| AsyncContext.Context.ProcessReply | src/public/hiredis/async.c:587-657 | one turn of the loop is one delivery of the transition system |
| AsyncContext.Context.ProcessCallbacks | src/public/hiredis/async.c:570-657 | the whole loop over the replies at hand, up to a free or a deferred disconnect |
| AsyncContext.Context.DisconnectNow | src/public/hiredis/async.c:427-452 | disconnecting runs every pending callback with NULL, in order |
| AsyncContext.Context.QuitSoon | src/public/hiredis/async.c:460-468 | a requested disconnect is the transition's: at once if no regular callback is pending, and otherwise only marked |
| AsyncContext.ProcessingRuns | src/public/hiredis/async.c:570-657 | processing what has arrived is a run of the transition system, so all that is proved of runs holds of it |
| Dict.NextPower | src/public/hiredis/dict.c:311-320 | the least power of two that is large enough and at least the initial size |
| Dict.PowerIsExact | src/public/hiredis/dict.c:311-320 | a size that is such a power already is not enlarged |
| Dict.MaskIsRemainder | src/public/hiredis/dict.c:325-342 | the bitwise and with one less than a power of two is the remainder |
| Dict.Dict.BucketOfHash | src/public/hiredis/dict.c:325-342 | an entry is in the bucket that the mask picks from the hash of its key, and in no other |
| Dict.Dict.Find | src/public/hiredis/dict.c:255-268 | finds the entry of a key exactly when the map has the key, with the map's value |
| Dict.Dict.Add | src/public/hiredis/dict.c:141-165 | adds a key exactly when it is new and there is room for it or for growing, and changes nothing otherwise |
| Dict.Dict.Replace | src/public/hiredis/dict.c:169-190 | the map is updated, and the result says whether the key is new |
| Dict.Dict.Delete | src/public/hiredis/dict.c:194-222 | the key is gone, nothing else is, and only the one chain changes |
| Dict.Dict.Expand | src/public/hiredis/dict.c:92-138 | rehashing keeps the map and every entry, and the new size is the power of two |
| Dict.Dict.ExpandIfNeeded | src/public/hiredis/dict.c:300-308 | afterwards there is room, so the number of entries never exceeds the size |
| Dict.Dict.KeyIndex | src/public/hiredis/dict.c:325-342 | the bucket of a new key in the table as it is after growing, -1 exactly for a key that is there |
| DictIteration.ChainsListEntries | src/public/hiredis/dict.c:270-297 | the chains list every entry of the table exactly once |
| DictIteration.DictIterator.Next | src/public/hiredis/dict.c:277-297 | returns the entries still to be visited one after the other, and then nothing |
| DictIteration.DictIterator.DeleteReturned | src/public/hiredis/dict.c:194-297 | deleting the entry just returned leaves what is still to be visited unchanged |
| DictIteration.DictIterator.SetReturned | src/public/hiredis/dict.c:277-297 | so does changing its value, and the map changes at its key |
| DictIteration.VisitAll | src/public/hiredis/dict.c:270-297 | an iteration that deletes any of the entries it returns visits every entry exactly once, and exactly the chosen ones are gone |
| CoMutex.MutualExclusion | src/public/event_sc/ad_event_sc.cpp:457-496 | in every run, with any wakeups: the one inside is the holder, nobody else is, and m_self_count + 1 is its nesting depth |
| CoMutex.ReleasedAtDepthZero | src/public/event_sc/ad_event_sc.cpp:479-496 | an unlock releases the mutex if and only if it is the last one of the holder |
| CoMutex.Schedules | src/public/event_sc/ad_event_sc.h:46-153 | only spawning adds a coroutine and only finishing removes one; yielding and finishing leave the mutex alone |
| CoMutex.NoLostWakeup | src/public/event_sc/ad_event_sc.cpp:457-496 | in every run in which only unlock wakes waiters: each waiter is queued once or woken, and while the mutex is free with waiters queued some waiter is ready; the first of them to be resumed gets it, even after barging |
| CoMutex.NextLosesIffWasted | src/public/event_sc/ad_event_sc.cpp:457-496 | a step leaves the mutex free with waiters and none of them woken if and only if it is a last unlock, with waiters none of whom had been woken, that pops a coroutine that does not wait any more |
| CoMutex.LostIffWasted | src/public/event_sc/ad_event_sc.cpp:457-496 | in every run, with any wakeups: waiters are ever left with none of them woken and the mutex free if and only if the run has such an unlock |
| CoMutex.SpuriousWakeupLosesOne | src/public/event_sc/ad_event_sc.cpp:457-496 | a run with one spurious wakeup that ends with the mutex free, a waiter queued and nobody woken |
| CoMutex.Mutex.LockCo | src/public/event_sc/ad_event_sc.cpp:457-477 | lock up to its first yield or its return, on the object |
| CoMutex.Mutex.ResumeIn | src/public/event_sc/ad_event_sc.h:46-153 | resuming a coroutine that has yielded inside lock looks at the holder again |
| CoMutex.Mutex.UnlockCo | src/public/event_sc/ad_event_sc.cpp:479-496 | unlock on the object: the count, the holder, the queue and the state of the coroutine woken |
| EventWait.EveryWait | src/public/event_sc/ad_event_sc.cpp:96-143 | in every run, on any descriptors: a waiting coroutine is suspended until it is made ready; that happens once, its result is true exactly if the descriptor fired, and then no registration of it is left |
| EventWait.PoliteWait | src/public/event_sc/ad_event_sc.cpp:33-143 | in every run in which waits are on free descriptors, a waiting coroutine has its registrations in place |
| EventWait.CanEndIffHeard | src/public/event_sc/ad_event_sc.cpp:33-143 | after every run: the run can be continued to the end of a wait if and only if one of its registrations is there that no started handler will remove, or one has been reported |
| EventWait.BeginsHeardIff | src/public/event_sc/ad_event_sc.cpp:137-143 | a wait that begins can end if and only if its descriptor is free or it has a timeout |
| EventWait.TakenNeverEnds | src/public/event_sc/ad_event_sc.cpp:33-55 | a wait without a timeout on a descriptor that is taken is never made ready, however the run goes on |
| EventWait.GoesDeafIff | src/public/event_sc/ad_event_sc.cpp:57-136 | a step makes a wait that can end unable to if and only if it unregisters its last descriptor, or reports another wait whose end removes all that are left |
| EventWait.EndKeeps | src/public/event_sc/ad_event_sc.cpp:96-136 | the handler of the descriptor or of the timer ends the wait, makes it ready with the result that tells them apart, and removes what is registered under both descriptors and nothing else; no registration of the wait is left |
| EventWait.EndTouchesOnly | src/public/event_sc/ad_event_sc.cpp:96-136 | the end of a wait touches no other wait, coroutine, handler or result |
| EventWait.ReportStarts | src/public/event_sc/ad_event_sc.cpp:222-240 | a descriptor that is reported starts a handler for exactly the node registered there, of any kind, and every other handler and registration stays |
| EventWait.OtherHandlerRuns | src/public/event_sc/ad_event_sc.cpp:222-240 | the handler of a node of another kind becomes the running coroutine and nothing else changes |
| EventWait.Schedules | src/public/event_sc/ad_event_sc.h:46-153 | which coroutines there are and which one runs after a step that is none of the event loop |
| EventWait.RegisteredIffFree | src/public/event_sc/ad_event_sc.cpp:33-55 | a wait is registered if and only if its descriptor was free |
| EventWait.TimeoutTakesAnother | src/public/event_sc/ad_event_sc.cpp:57-75 | the timeout of a wait that was not registered removes the registration in its place |
| EventWait.EventLoop.YieldFor | src/public/event_sc/ad_event_sc.cpp:137-143 | registering and suspending, on the object |
| EventWait.EventLoop.Handle | src/public/event_sc/ad_event_sc.cpp:104-135 | the two handlers on the object, with the order of their effects on the result |
| EventWait.EventLoop.Dispatch | src/public/event_sc/ad_event_sc.cpp:222-240 | a reported descriptor starts a coroutine for the node registered there, if any |
| Tokenizer.Text.SplitInto | src/cli/detail/split.h:50-184 | the scanner object, character by character, gives the tokens of its input; in every state but the blank one there is a token to append to |
| Tokenizer.TokensOfWords | src/cli/detail/split.h:50-184 | plain words joined by blanks are tokenized as those words |
| TokenText.TokensOfLine | src/cli/detail/split.h:50-184 | every line of words, sentences between quotes of either kind and blanks of three kinds, with all escapes written out, splits into what its words and sentences mean; a sentence needs no blank around it, and an empty one is no token |
| TokenText.TokensOfOpenLine | src/cli/detail/split.h:50-184 | a sentence still open at the end of the line is taken as closed there |
| WordExact.LastWordReads | src/cli/detail/split.h:50-184 | behind any plain words, the last word of a line is read as it stands if and only if it is plain |
| WordExact.WordBeforeLastReads | src/cli/detail/split.h:50-184 | the same for the last word but one in front of a plain word: both are read as they stand if and only if it is plain |
| ActionText.ReplaceNewlinesAndQuotes | src/cli/sm_config.cpp:343-361 | the two in-place find and replace loops rewrite each newline and each quote once |
| ActionText.RestoreNewlines | src/cli/sm_config.cpp:243-247 | the loop that turns markers back into newlines ends and restores the leftmost marker each time |
| ActionText.RewriteJoins | src/cli/sm_config.cpp:343-361 | newlines and quotes are rewritten one by one, to `<>` and to a backslash and the quote, and nothing else is changed |
| ActionText.RestoresFirst | src/cli/sm_config.cpp:243-247 | the first marker becomes a newline and what follows it is restored in turn |
| ActionText.RestoresNothing | src/cli/sm_config.cpp:243-247 | a text without a marker is left alone |
| ActionText.ReadCode | src/cli/detail/split.h:133-165 | a rewritten text between quotes is read as one token |
| ActionText.ReadClean | src/cli/detail/split.h:133-165 | after a clean text and its closing quote the scanner is between tokens, with the text as one token and nothing after it |
| ActionText.SurvivesIffClean | src/cli/sm_config.cpp:343-361 | for all texts: what arrives after rewriting, tokenizing and restoring is the text itself if and only if the text has no marker and no critical backslash |
| SmConfig.SmConfigCli.MakeBdr | src/cli/sm_config.cpp:363-407 | the loops print the commands of the dump in order |
| SmConfig.SmConfigCli.Execute | src/cli/sm_config.cpp:66-334 | a line does what the function for it says: the commands of the menu, `edit_action` with whatever the editor leaves, and `clear` |
| SmConfig.ActionChanges | src/cli/sm_config.cpp:184-276 | an action is changed if and only if the state exists, the kind is one of three and the code is accepted: in the first state of that name, the field of that kind and nothing else |
| SmConfig.StateCommands | src/cli/sm_config.cpp:66-149 | what `create_state`, `set_init`, `set_next` and `add_event` change of a state that exists, and when they are refused |
| SmConfig.NewStates | src/cli/sm_config.cpp:278-303 | a new name creates an empty state behind the others |
| SmConfig.Messages | src/cli/sm_config.cpp:66-303 | when each command complains of a missing parameter, a missing state or one that is there; then nothing is changed |
| SmConfig.LinesOfState | src/cli/sm_config.cpp:363-407 | the lines of the dump for a state, in literal text: what creates it, its three kinds of code where there is some, its link and its events |
| SmConfig.ActionLineIs | src/cli/sm_config.cpp:376-390 | the line of an action: the command, the name, the kind, and the rewritten code between quotes |
| SmConfig.DumpOrder | src/cli/sm_config.cpp:363-407 | all states come before all links, and the initial state is last |
| SmSession.CliSession.FeedLine | src/cli/cli.h:783-813 | a line is looked up in the menus as the routing says: `exit`, the names of menus, commands behind the name of their menu, and the commands of the current one |
| SmSession.CliSession.Start | src/cli/clifilesession.h:47-62 | running a file is feeding its complete lines up to `exit`, and the session is over then |
| SmSession.Menus | src/cli/cli.h:477-506 | where the names of the menus lead from each menu, what `exit` and `clear` do in each |
| SmSession.QualifiedCommand | src/cli/cli.h:477-506 | a command of the state machine does the same in its menu, behind its menu's name, and behind the root's and its menu's name; without them it does nothing outside its menu |
| SmReplay.ActionCodeReplays | src/cli/sm_config.cpp:233-255 | the third argument of a dumped action restores to the code if and only if the code is clean, and then nothing follows it |
| SmReplay.UncleanExamples | src/cli/sm_config.cpp:343-361 | a marker and an escaped quote inside code do not survive |
| SmReplay.DumpRebuilds | src/cli/sm_config.cpp:363-407 | with plain names, whatever the triggers and the code are: replaying the dump on a cleared configuration gives the states in order, each with the code that arrives, its link and the events that are heard, and the initial state |
| SmExact.DumpReplaysIff | src/cli/sm_config.cpp:363-407 | for every configuration that commands can build: replaying its dump on a cleared one gives the configuration itself if and only if its names and triggers are plain and its code is clean |
| SmSaved.SavedFileReplaysIff | src/cli/main.cpp:12-45 | the same for the saved file as a session reads it from the root menu, line by line: the sections of all four menus, each indented between the name of its menu and the way back, whatever the others have dumped that does not leave their menu; the session ends where it began |
| SmSaved.TextLinesJoin | src/cli/main.cpp:12-24 | the lines taken from the text of a dump are that text again; only a text without a newline at its end gets one |
| SmSaved.FileLines | src/cli/main.cpp:26-45 | the saved file in literal lines: each of the four menus is entered by its name and left by that of the root, in this order |
| SmSaved.SaveClearRun | src/cli/sm_config.cpp:363-415 | saving, clearing and running the saved file leaves the configuration as it was if and only if its names and triggers are plain and its code is clean |
| SmEdits.SessionSound | src/cli/sm_config.cpp:66-415 | every session, in any menus and with any use of the editor and of `clear`, keeps names and triggers unique, targets declared and code accepted |
| SmEdits.CommandPreservesIff | src/cli/sm_config.cpp:66-415 | a command on a well-formed configuration keeps it well formed if and only if it is refused (`Refused`: a state or trigger that is there already or is missing, or code that Lua rejects) or the name, trigger or code it brings along is plain or clean (`LineOk`) |
| SmEdits.FeedPreservesIff | src/cli/cli.h:477-506 | the same of every line that a session is fed, in whatever menu it is |
| SmEdits.EditsPreserveIff | src/cli/sm_config.cpp:66-415 | the configuration is well formed throughout a session if and only if each line, where it comes, is no command of the menu, is refused or is `LineOk` |
| SmEdits.BlankNameIsCreated | src/cli/sm_config.cpp:284-303 | `create_state "a b"` creates a state with a blank in its name |
| SmEdits.BlankNameIsLost | src/cli/sm_config.cpp:284-407 | that configuration is not rebuilt from its dump |
| SmSaved.EditedConfigReplaysIff | src/cli/sm_config.cpp:66-415 | whatever any session builds, from any text, the file that it saves rebuilds it if and only if its names and triggers are plain and its code is clean |
| SmRuntime.EventMapTargets | src/sm/lib/sm.h:80-96 | a later event with the same trigger replaces an earlier one |
| SmRuntime.EventIff | src/sm/lib/sm.h:80-96 | an event leads to a state if and only if the last event of the first state of that name with that trigger names it and it exists |
| SmRuntime.NextIff | src/sm/lib/sm.cpp:48-61 | the state after `do` is the one named by `do.next` of the first state of that name, if it names one that exists |
| SmRuntime.MakeState | src/sm/lib/sm.cpp:4-30 | builds the first state of that name with its hooks and events, or nothing |
| SmRuntime.EndsWithinStates | src/sm/lib/sm.h:143-151 | the chain of do.next edges ends if and only if it ends within as many steps as there are states, and if and only if it never comes back to a state |
| SmRuntime.DynamicSm.Trigger | src/sm/lib/sm.h:143-151 | the first n turns of trigger, for every n and every configuration: it ends within them if and only if the chain of do.next edges does, having followed it to its end; otherwise it has entered n further states of the chain |
| SmRuntime.DynamicSm.Begin | src/sm/lib/sm.h:133-142 | the trace begins with the `enter` of the initial state; it has an `enter` and a `do.action` for every state of the path and an `exit` before the next, each the code of the first state of that name; with as many turns as there are states it has ended if and only if the chain ever ends |
| SmRuntime.DynamicSm.ProcEvent | src/sm/lib/sm.h:152-161 | an event without a declared target changes nothing; otherwise the path goes to the target and then along the chain, to its end if and only if that comes within the given turns; the trace is that of the path, entry by entry |
| JsonRoundTrip.IntReadsBack | src/public/utils/cJSON.c:117-214 | for every sign and value, in front of anything that ends a number: the text of an integer is read as the number printed, with the sign of that number |
| JsonRoundTrip.DoubleReadsBack | src/public/utils/cJSON.c:117-180 | the text of a number with six decimals is read as exactly that number |
| JsonRoundTrip.TextReadsBack | src/public/utils/cJSON.c:217-388 | an escaped text reads back, control characters included |
| JsonText.CharacterEscape | src/public/utils/cJSON.c:262-307 | four hexadecimal digits of either case that write any code point but NUL and the surrogates give its bytes: the lead byte's mark is right for their number, the others are continuation bytes, the payload bits in order are the code point, and no shorter form would do |
| JsonText.PairEscape | src/public/utils/cJSON.c:262-307 | for every surrogate pair: four bytes, which encode its code point if and only if bit 16 of the value it carries is clear, and otherwise the character 0x10000 below |
| JsonText.EscapeOfNothing | src/public/utils/cJSON.c:262-307 | NUL, a lone second half, and a first half without another escape behind it give no bytes |
| JsonText.HalfPair | src/public/utils/cJSON.c:262-307 | a first half swallows the escape behind it if that is no second half |
| JsonText.LetterEscape | src/public/utils/cJSON.c:244-312 | five letters stand for control characters, every other character for itself |
| JsonText.TextEnds | src/public/utils/cJSON.c:217-320 | a string ends at a quote or with the text |
| JsonText.NumberReads | src/public/utils/cJSON.c:117-163 | every number text, all its parts optional: it is read to its end, its value is that of its digits moved by its exponent and the length of its fraction, and it is an integer without a fraction and with no exponent but zero |
| JsonText.EscapeForms | src/public/utils/cJSON.c:323-388 | which characters are printed as themselves, with a letter, or as four lower-case digits; each form reads back |
| JsonText.IntegerText | src/public/utils/cJSON.c:182-214 | a negative integer is printed as signed if its sign is -1 and as the unsigned 64-bit value otherwise |
| JsonText.DoubleText | src/public/utils/cJSON.c:167-180 | a number with a fraction is printed with its sign, the digits of its whole part, a point and exactly six digits, each the right one |
| JsonText.ItemsJoin | src/public/utils/cJSON.c:558-624 | the items of an array are separated by a comma, with a blank in a formatted text |
| JsonText.ArrayLayout | src/public/utils/cJSON.c:558-624 | arrays of none and of one item in literal characters |
| JsonText.MembersJoin | src/public/utils/cJSON.c:689-783 | the members of an object are separated by a comma, with a line each in a formatted text |
| JsonText.ObjectLayout | src/public/utils/cJSON.c:689-783 | an object in literal characters: braces, tabs for the depth, a tab before the value and a newline after it if formatted, none of them if not |
| JsonText.BlanksSkipped | src/public/utils/cJSON.c:405-410 | exactly the characters up to the blank are skipped |
| JsonText.NoSeparator | src/public/utils/cJSON.c:517-686 | a missing comma, colon or bracket is an error |
| JsonText.NoValue | src/public/utils/cJSON.c:436-478 | what begins with none of the characters that begin a value is an error |
| JsonText.ErrorsPass | src/public/utils/cJSON.c:517-686 | an error in a part is the error of the whole |
| JsonRoundTrip.PrintParse | src/public/utils/cJSON.c:413-783 | for every tree, at any depth, formatted or not: if every integer is printed with a magnitude below 2^63, parsing what is printed gives the tree with the numbers printed and the signs of its integers, and consumes all of it; otherwise the parser meets a number that it cannot convert |
| JsonRoundTrip.RoundTrip | src/public/utils/cJSON.c:413-783 | the tree itself comes back if and only if the sign of each integer is -1 for a negative value and 1 otherwise, no integer is the least one, and the other numbers are printed without rounding |
| JsonPrinter.DoubleRoom | src/public/utils/cJSON.c:167-180 | the text of a number with a fraction has room in its 64 bytes if and only if the number is below 10^56, or above -10^55 |
| JsonPrinter.PrintStringPtr | src/public/utils/cJSON.c:323-388 | the computed length suffices, and the buffer holds the quoted text |
| JsonPrinter.PrintArray | src/public/utils/cJSON.c:558-624 | if the fractional numbers in it have room, the sum of the entries' lengths suffices for every array, depth and format, and the buffer holds the printed array |
| JsonPrinter.PrintObject | src/public/utils/cJSON.c:689-783 | the same for objects, with their indentation |
| JsonPrinter.PrintValue | src/public/utils/cJSON.c:481-514 | the text of the tree that the items show, for every kind, if the fractional numbers in it have room |
| JsonPrinter.PairsFit | src/public/utils/cJSON.c:694-728 | the lengths added up for an object are at least those written |
| JsonParser.UnicodeRoom | src/public/utils/cJSON.c:230-232 | a unicode escape never writes more bytes than were counted for it, surrogate pairs included |
| JsonParser.ParseTextInto | src/public/utils/cJSON.c:217-320 | every write is within the counted buffer, and the item gets the text, whose escapes `JsonText.CharacterEscape` and the rows after it spell out |
| JsonParser.ParseArrayInto | src/public/utils/cJSON.c:517-555 | the linked children, with both links, show the values parsed, or the parse fails as the grammar says |
| JsonParser.ParseObjectInto | src/public/utils/cJSON.c:628-686 | the same for members and their names |
| JsonParser.ParseRoot | src/public/utils/cJSON.c:413-426 | the items built show exactly the tree that the grammar gives |
| RelayController.AlwaysSafe | src/driver/lib/common_driver.cpp:124-196 | in every run, at no call are opening and closing both commanded, and for requests of 0 to 100 percent the position stays in range |
| RelayController.RequestIsMet | src/driver/lib/common_driver.cpp:182-196 | an undisturbed request for another position stops exactly there after as many ticks as it is away, not before, and reports less than one step below the request |
| RelayController.Underway | src/driver/lib/common_driver.cpp:124-147 | on the way to the target, after every tick: the position is one step further, the relay is held until the target, and the opening reported is that of the position |
| RelayController.AtRest | src/driver/lib/common_driver.cpp:124-147 | at rest a tick changes nothing but the opening reported |
| RelayController.DivideTruncates | src/driver/lib/common_driver.cpp:182-196 | a request is divided by the step toward zero, negative ones included |
| RelayController.SwitchesSafe | src/driver/lib/common_driver.cpp:152-179 | whatever the coils have been told before, as long as it was safe, the commands of an action are safe one by one |
| RelayController.ActCommands | src/driver/lib/common_driver.cpp:152-179 | the commands of every action, in order; changing direction is stopping and then holding |
| RelayController.RequestForHere | src/driver/lib/common_driver.cpp:182-196 | a request for the present position is met if and only if nothing is moving; otherwise the relay stops one step beyond |
| RelayController.CommonDriver.DoAction | src/driver/lib/common_driver.cpp:152-179 | the recursive switching on the object |
| RelayController.CommonDriver.OnTimer | src/driver/lib/common_driver.cpp:128-147 | one tick on the object |
| RelayController.CommonDriver.ExecuteToThreshold | src/driver/lib/common_driver.cpp:182-196 | one request on the object |
| LineEditor.PlayText | src/cli/detail/terminal.h:59-82 | text sent to the terminal overwrites its row from the cursor |
| LineEditor.TypedInserts | src/cli/detail/terminal.h:138-162 | typing any text inserts it at the cursor |
| LineEditor.TypeAndErase | src/cli/detail/terminal.h:84-160 | typing a character and erasing it, either way, gives the line back |
| LineEditor.LeftAndRight | src/cli/detail/terminal.h:80-202 | moving left and right undo each other, and stop at the ends |
| LineEditor.TypedAtEnds | src/cli/detail/terminal.h:80-202 | what is typed after the key for the start of the line comes before all of it, and after the key for its end behind all of it |
| LineEditor.ReturnsTyped | src/cli/detail/terminal.h:80-202 | what was typed is the command when the line is returned, and the next line is empty |
| LineEditor.KeysAsk | src/cli/detail/terminal.h:80-202 | exactly which keys ask the session for what, and that they leave the line alone |
| LineEditor.Terminal.Keypressed | src/cli/detail/terminal.h:80-202 | every key edits the line as it should, and after what it emits the terminal shows exactly the line with its cursor at the position |
| LineEditor.Terminal.SetLine | src/cli/detail/terminal.h:59-82 | the new line replaces what was shown, a longer old line included |
| LineEditor.Terminal.ShowAgain | src/cli/detail/inputhandler.h:111-119 | after completions have been listed the same line is shown again at the new prompt |

## Left out

- Sockets, epoll, timerfd, TLS, DNS, Thrift, Modbus, YAML and Lua: events, parameters or opaque results. Reading and writing the configuration file is taken to be lossless, and whether Lua accepts a text is a parameter.
- Allocation failures, and widths of lengths and counters (`int idx`, `size_t totlen`): mathematical integers. Where the width matters, in the integer conversions, it is modelled.
- `maxElements` of the reader: positive, or zero for no limit.
- RESP doubles: whether a text is a finite double is a parameter; the value is its text.
- printf conversions of commands other than %s, %b and %%: how they render is a parameter.
- The hash function is a parameter.
- What the commands of the other menus do, and `save`, `bash`, `help` and `bdr` as commands: they leave this part of the configuration alone. Of the interactive editor only the text that it leaves counts, which is a parameter for each line; its temporary file is not modelled.
- RESP2 servers, MONITOR, and callbacks that call back into the context: the callbacks of the model record that they have run. Callbacks are never null.
- AsyncMatcher.Next: the server answers in order, accepts every subscription, and its answers are fixed when a command is issued; published messages and notices may come anywhere among them.
- AsyncMatcher.Issue: channels and patterns are one table keyed by kind and name.
- AsyncContext.Context.IssueCommand: which subscriptions the table holds is left open once it would have more than 2^60 entries, for then an allocation fails and the source ignores it.
- Decimal.Sdsll2str: the least 64-bit value is negated as a mathematical integer; in the source that negation is a signed overflow.
- JsonParser.ParseNumberInto: exact real numbers where the source computes in `long double` and keeps a `double`. Integers of 2^63 and more in magnitude do not fit the field they are converted to, and nothing is said of the outcome.
- JsonPrinter.PrintValue: how the C library rounds a number to six decimals is a parameter. A number that is too long for its 64 bytes is excluded, for the source writes beyond them; infinities and NaN are no numbers here.
- Json.ParseText: an escape without four hexadecimal digits, and a backslash at the very end, are read beyond the text by the source; nothing is said of them. Surrogate pairs are combined as the source does, which is not as they should be.
- EventWait.Next: a timer gets a descriptor that is not registered, and only the event loop wakes a coroutine that waits for a descriptor.
- CoMutex.NoLostWakeup: not the order in which waiters get the mutex, for barging is allowed.
- CoMutex.Next: a coroutine that has finished is gone at once; the source removes it at the end of its scheduling pass.
- SmRuntime.DynamicSm.Trigger: one event at a time; `change_state` is not atomic under the lock. The recursion is cut after a number of turns that is a parameter, for it may have no end.
- RelayController.AlwaysSafe: the commanded values, not the order in which the coils are written.
- LineEditor.Terminal.Keypressed: characters that take one cell; a carriage return typed as a character is excluded.
- Termination of `AD_RPC_TRANSPORT::read_more` on a partial frame: its loop has no exit there.
- Filters, geometry and the plotting of floating point values.
