# Verification of the backend building blocks

This project models the parts of the repository that hold real invariants, and proves what they
promise with Dafny 4.11. `dafny verify dfyconfig.toml` checks all of it.

| part | files |
|---|---|
| Decimal numbers, RESP grammar and reader of hiredis, the two readers compared | `Numbers`, `Resp`, `WireText`, `Resume`, `Dialects`, `ReplyTree`, `ReaderStack`, `Reader` |
| The three command formatters; quoted strings of sds | `Formatter`, `FormatTemplates`, `Quote`, `QuoteSpellings` |
| Lock-free queues | `ArrayQueue`, `ArrayQueueRefusals`, `ArrayQueueCalls`, `YPipe`, `YPipeRuns`, `YPipeLinks`, `YPipeIdeal`, `LinkedQueue`, `LinkedQueueSteps`, `LinkedQueueRuns`, `LinkedQueueCalls`, `Words` |
| Asynchronous client: callback queue and teardown | `CallbackList`, `AsyncContext`, `PushReplies` |
| Hash table and iterator | `Dict`, `DictRun` |
| Deadlock detector | `Deadlock`, `DeadlockAlarm` |
| Double-buffered logging | `AsyncLogging` |

**How the code is modelled.** Code that updates objects in place is a class with the same fields, and its
loops are loops: the reader's buffer, position and task stack, the callback list, the asynchronous
context, the hash table with its chained entries and its iterator, the detector's global arrays,
the logger's buffers, the number printer, the formatters and the splitter. The lock-free queues are run by several
threads at once, so each is a state and a function from a state and the scheduler's choice to the
next state, where one step is one access to memory that several threads can reach; the theorems
range over all finite sequences of choices. Three steps of the chunked queue under the pipe, `unpush`, the linking of
a chunk and `pop`, follow and write several links at once. `YPipeLinks.StepsApart` proves that in every reachable
state the other thread touches none of these links or chunks, so its accesses commute with theirs. Bytes are characters, and a buffer is a string.

**What ties the queues to their calls.** `ArrayQueueCalls`, `YPipeIdeal` and `LinkedQueueCalls` run beside every
interleaving a record of the calls and their arguments, which no step of a queue touches, and prove that each call has
its effect once, returns the answer that belongs to it, and ends in no other way.

**How the reader is proved.** `Resp` gives the meaning of a byte stream as a plain recursive grammar.
`WireText` says, without reading anything, which bytes denote which reply and which are broken, and proves that the
grammar reads and rejects exactly these. `Resume` describes the suspended reader as a value and proves that it computes this meaning, however the
stream is cut. `Reader` has the mutable task stack and the reply objects and proves, method by method,
that they do what the value does.

## What the proofs found

Each of these is a lemma or part of a contract below; the code is modelled as it is.

- A bool or a double directly inside a push reply fails an assertion of the object builders, so
  such a reply is not readable (`Resp.RoundTrip`, `Reader.Reader.CreateObject`; hiredis.c:241-243, 278-280).
- `redisFormatSdsCommandArgv` prints lengths with a 32-bit conversion. It is right exactly if every
  argument is shorter than 2^32 bytes (`Formatter.FormatSdsCommandArgv`, `Formatter.LongArgument`).
- The array queue compares a copy of its own index, which may be stale, modulo the ring size. So with two producers
  it can say "full" of an empty ring, and with two consumers "empty" of a full one, whatever the ring size
  (`ArrayQueueRefusals.FalseFull`, `ArrayQueueRefusals.FalseEmpty`); `ArrayQueueRefusals.FullExactly` and
  `ArrayQueueRefusals.EmptyExactly` say for which groups of threads a refusal is always true.
- The deadlock detector reports more than cycles: it also answers yes if two different walks with a
  common first edge meet (`DeadlockAlarm.RaiseFalseAlarm`, and exactly when: `Deadlock.Detector.CheckDeadLock`).
- A log line of 4,000,000 bytes or more is lost silently (`AsyncLogging.AsyncLogging.Append`).
- A reply that nobody asked for and that is no error fails an assertion of
  `redisProcessCallbacks` (`AsyncContext.AsyncContext.Answered`).
- A free that the push callback asks for is not done when that callback returns, but only with the next reply that has a
  callback (`AsyncContext.AsyncContext.ReceivePush`; async.c:534-538 has no test as async.c:575-579 has one).
- The confirmation of an unsubscription, sent as a push, is taken for a spontaneous push and goes to no
  command (`PushReplies.UnsubscribeIsSpontaneous`; async.c:495-500 compares with two words only).
- The two bytes behind a string of known length are skipped unread, so `$1\r\nabc` is the string `a`
  (`WireText.ReadExactly`; read.c:384-393).

Two remarks on the text of the source, which have no lemma: the second test for "0" in `string2ll` (read.c:191-193) can
never succeed; and the comment in read.c:456 speaks of nesting up to 7, while the growing reader has no such limit and
the older one rejects an aggregate at stack index 8.

## Model

| member | source | states |
|---|---|---|
| `Numbers.NumberInvertsShow` | 3.1池式组件/3.1.4mysql连接池的实现/hiredis/read.c:163-224 | A string is read as `v` exactly if it is what `v` prints as and `v` fits 64 signed bits: reading and printing numbers are inverse in both directions, and nothing but the canonical form is accepted. |
| `Numbers.String2ll` | 3.1池式组件/3.1.4mysql连接池的实现/hiredis/read.c:163-224 | The loop with its two overflow tests computes that reading; its accumulator is a 64-bit unsigned type, so no intermediate value exceeds it. |
| `Numbers.TooBig` | 3.1池式组件/3.1.4mysql连接池的实现/hiredis/read.c:198-206 | When the next digit would exceed 64 unsigned bits, the whole string is no 64-bit number, whatever follows. |
| `Numbers.ShowFitsBuffer` | 3.1池式组件/3.1.4mysql连接池的实现/hiredis/sds.c:430-448 | The printed form of a 64-bit value and its NUL always fit 21 bytes. |
| `Numbers.PutDigits` | 3.1池式组件/3.1.4mysql连接池的实现/hiredis/sds.c:438-443 | The digit loop leaves the decimal digits, least significant first, and changes nothing behind them. |
| `Numbers.ReverseInPlace` | 3.1池式组件/3.1.4mysql连接池的实现/hiredis/sds.c:450-458 | The closing loop reverses the first `l` bytes in place and touches no other byte. |
| `Numbers.Ll2str` | 3.1池式组件/3.1.4mysql连接池的实现/hiredis/sds.c:431-460 | The buffer holds the decimal form of the value, then a NUL; nothing behind that changes; the result is the length. |
| `Resp.RoundTrip` | 3.1池式组件/3.1.4mysql连接池的实现/hiredis/read.c:351-526 | Reading the wire form of any reply tree in front of any further bytes gives that tree back and stops right behind it if and only if the tree is readable: no CRLF in a line, numbers of 64 bits, verbatim types of three bytes, no bool or double directly in a push, counts within the limit, and for the older reader no aggregate in its last slot. |
| `Resp.AggregateTrip` | 3.1池式组件/3.1.4mysql连接池的实现/hiredis/read.c:449-526 | The same for the part of an aggregate behind its type byte. |
| `Resp.ItemsTrip` | 3.1池式组件/3.1.4mysql连接池的实现/hiredis/read.c:449-526 | The elements of an aggregate are read back in order exactly if each of them is readable in its place. |
| `Resp.BulkTrip` | 3.1池式组件/3.1.4mysql连接池的实现/hiredis/read.c:351-421 | A length-prefixed string is read back whatever its bytes are, CRLF included; exactly the errors for lengths beyond 64 bits and for malformed verbatim strings. |
| `Resp.HeaderTrip` | 3.1池式组件/3.1.4mysql连接池的实现/hiredis/read.c:456-477 | The count line of an aggregate is read back, or rejected exactly for depth, for 64-bit range, or for the limit on elements. |
| `Resp.NewlineStable` | 3.1池式组件/3.1.4mysql连接池的实现/hiredis/read.c:125-149 | A line that is complete stays the same line when more bytes arrive. |
| `WireText.ReadExactly` | 3.1池式组件/3.1.4mysql连接池的实现/hiredis/read.c:269-526 | For any settings, nesting and following bytes: a reply is read off a text, up to its end, if and only if the text denotes it. Which texts denote which reply is said without a reader: null as `_` with any line or as length -1 behind any of the five other types, bools by their first letter in either case, canonical decimals, strings by their length whatever two bytes follow them, aggregates by their count. |
| `WireText.RejectedExactly` | 3.1池式组件/3.1.4mysql连接池的实现/hiredis/read.c:269-603 | A stream is rejected if and only if it begins with a broken text, and the error names what is broken: the type byte, a number, a length, a double, a verbatim string, a count, the nesting, or an assertion. |
| `WireText.StreamExactly` | 3.1池式组件/3.1.4mysql连接池的实现/hiredis/read.c:688-739 | The meaning of a stream is exactly the sequence of replies that the texts it is made of denote, followed by a broken text or by bytes with which nothing begins yet. |
| `WireText.DrainedReader` | 3.1池式组件/3.1.4mysql连接池的实现/hiredis/read.c:528-739 | So a drained reader, however its stream was cut, has given exactly these replies and this end. |
| `WireText.Reads` | 3.1池式组件/3.1.4mysql连接池的实现/hiredis/read.c:269-526 | A text that denotes a reply is read as that reply, and nothing behind it is touched. |
| `WireText.Rejects` | 3.1池式组件/3.1.4mysql连接池的实现/hiredis/read.c:269-603 | A broken text is rejected as soon as it is complete, whatever follows. |
| `WireText.ItemExplained` | 3.1池式组件/3.1.4mysql连接池的实现/hiredis/read.c:269-603 | Whatever is read denotes its reply, and whatever is rejected begins with a broken text. |
| `WireText.NilIsRead` | 3.1池式组件/3.1.4mysql连接池的实现/hiredis/read.c:376-382 | Every form of null is read as null: `$-1`, `*-1` and the other lengths of -1, and any line of type `_`. |
| `Resume.ChunkingIndependence` | 3.1池式组件/3.1.4mysql连接池的实现/hiredis/read.c:528-739 | However a stream is cut into feeds and however often replies are asked for in between, a drained reader has handed out exactly the replies of the recursive grammar on the whole stream, and fails exactly when the grammar rejects it, with the same error. |
| `Resume.SameStreamSameReplies` | 3.1池式组件/3.1.4mysql连接池的实现/hiredis/read.c:657-739 | Two drained readers that were fed the same bytes in any two ways have given the same replies and the same final error. |
| `Resume.NeverAhead` | 3.1池式组件/3.1.4mysql连接池的实现/hiredis/read.c:657-739 | At any time the replies handed out are a prefix of those of the stream, whatever bytes are still to come; an error is final. |
| `Resume.RunMeaning` | 3.1池式组件/3.1.4mysql连接池的实现/hiredis/read.c:688-739 | After any run, what was handed out followed by what the suspended stack and buffer stand for is the meaning of the whole stream. |
| `Resume.GetMeaning` | 3.1池式组件/3.1.4mysql连接池的实现/hiredis/read.c:712-738 | One request for a reply loses and invents nothing, and gives none only if the buffered bytes hold none. |
| `Resume.ItemKeeps` | 3.1池式组件/3.1.4mysql连接池的实现/hiredis/read.c:528-603 | One round of `processItem` keeps what the suspended reader stands for, with any bytes appended later; when it gives up for lack of input it has changed nothing but the type byte. |
| `Resume.PlaceMeaning` | 3.1池式组件/3.1.4mysql连接池的实现/hiredis/read.c:241-267 | Hanging a finished item into the enclosing aggregates and closing those that are complete keeps the meaning of the stack. |
| `Resume.ItemStep` | 3.1池式组件/3.1.4mysql连接池的实现/hiredis/read.c:528-603 | A round that continues consumes at least one byte and leaves every open aggregate with an empty slot, so the loop over items ends. |
| `Resume.FeedMeaning` | 3.1池式组件/3.1.4mysql连接池的实现/hiredis/read.c:657-686 | Feeding bytes in two steps is feeding them in one. |
| `Dialects.ReadersAgree` | 3.1池式组件/3.1.4mysql连接池的实现/src/redis_pool/read.c:365-488 | On every stream the nine-slot RESP2 reader and the growing RESP3 reader give the same replies and the same end if and only if the stream, read along the grammar, has no RESP3 type byte, no array at stack index 8 and no array of more than INT_MAX elements; on any other stream the older one has given a prefix and stops at such a limit. |
| `Dialects.ItemsAgree` | 3.1池式组件/3.1.4mysql连接池的实现/src/redis_pool/read.c:235-258 | Inside an aggregate, at any depth, the two readers have the same outcome unless the older one meets such a limit, and it meets one exactly if the elements hold something beyond it. |
| `Dialects.HeadersAgree` | 3.1池式组件/3.1.4mysql连接池的实现/src/redis_pool/read.c:365-405 | They treat the count line of an array alike unless the older one is in its last slot or the count exceeds INT_MAX. |
| `ReplyTree.BuiltUnique` | 3.1池式组件/3.1.4mysql连接池的实现/hiredis/hiredis.c:121-284 | The objects below a reply object stand for one tree only. |
| `ReplyTree.BuiltExtends` | 3.1池式组件/3.1.4mysql连接池的实现/hiredis/hiredis.c:121-284 | A finished tree is never disturbed by objects that are created or slots that are filled later. |
| `ReplyTree.AttachExtends` | 3.1池式组件/3.1.4mysql连接池的实现/hiredis/hiredis.c:154-161 | Writing a child into its empty slot of the parent overwrites no other slot. |
| `ReaderStack.HangLinks` | 3.1池式组件/3.1.4mysql连接池的实现/hiredis/hiredis.c:121-195 | A new object goes into the slot of its parent that is in progress, and all other slots of all open aggregates stay as they were. |
| `ReaderStack.PopLinks` | 3.1池式组件/3.1.4mysql连接池的实现/hiredis/read.c:256-257 | When the last slot is filled, the object one level below stands for the finished aggregate, and the task below goes on. |
| `ReaderStack.NextLinks` | 3.1池式组件/3.1.4mysql连接池的实现/hiredis/read.c:258-265 | Otherwise the task goes on with the next, still empty slot of the same parent. |
| `ReaderStack.OpenLinks` | 3.1池式组件/3.1.4mysql连接池的实现/hiredis/read.c:505-514 | A new aggregate opens a task one slot up whose parent is the slot below and whose index is 0. |
| `ReaderStack.Ascending` | 3.1池式组件/3.1.4mysql连接池的实现/hiredis/read.c:241-267 | The objects on the stack are pairwise different, each created after the one below it. |
| `Reader.SeekNewline` | 3.1池式组件/3.1.4mysql连接池的实现/hiredis/read.c:125-149 | The two nested loops find the first CR LF, or none exactly if there is none. |
| `Reader.BuildLine` | 3.1池式组件/3.1.4mysql连接池的实现/hiredis/read.c:276-335 | The object built for a line of any type is the tree the grammar reads from it; the errors are the same. |
| `Reader.Reader.constructor` | 3.1池式组件/3.1.4mysql连接池的实现/hiredis/read.c:605-635 | A new reader is empty, with a stack of nine tasks. |
| `Reader.Reader.Feed` | 3.1池式组件/3.1.4mysql连接池的实现/hiredis/read.c:657-686 | Appends the bytes unless the reader is in error; the stack, the objects and the position stay. |
| `Reader.Reader.SetError` | 3.1池式组件/3.1.4mysql连接池的实现/hiredis/read.c:53-75 | The error is recorded, the stack emptied, and buffer and reply discarded. |
| `Reader.Reader.ReadLine` | 3.1池式组件/3.1.4mysql连接池的实现/hiredis/read.c:226-239 | Takes the first line off the buffer, or nothing if it is not complete. |
| `Reader.Reader.CreateObject` | 3.1池式组件/3.1.4mysql连接池的实现/hiredis/hiredis.c:121-284 | A new object is entered into the slot of its parent; a bool or a double directly inside a push fails an assertion, and nothing else does. |
| `Reader.Reader.MoveToNextTask` | 3.1池式组件/3.1.4mysql连接池的实现/hiredis/read.c:241-267 | Closes every aggregate that is complete, from the inside out, and goes on with the next slot of the first one that is not; its assertions hold. |
| `Reader.Reader.CloseAggregate` | 3.1池式组件/3.1.4mysql连接池的实现/hiredis/read.c:256-257 | One step of that: the innermost aggregate is complete and becomes the item of the one below. |
| `Reader.Reader.NextElement` | 3.1池式组件/3.1.4mysql连接池的实现/hiredis/read.c:258-265 | The other step: the task is reset for the next slot. |
| `Reader.Reader.Deliver` | 3.1池式组件/3.1.4mysql连接池的实现/hiredis/read.c:337-345 | A finished scalar is entered and the stack moved on. |
| `Reader.Reader.ProcessLineItem` | 3.1池式组件/3.1.4mysql连接池的实现/hiredis/read.c:269-349 | A line item has the effect of the value-level step, error cases and missing input included. |
| `Reader.Reader.ProcessBulkItem` | 3.1池式组件/3.1.4mysql连接池的实现/hiredis/read.c:351-421 | The same for length-prefixed and verbatim strings. |
| `Reader.Reader.Grow` | 3.1池式组件/3.1.4mysql连接池的实现/hiredis/read.c:423-446 | Nine more tasks; what the reader stands for does not change. |
| `Reader.Reader.ProcessAggregateItem` | 3.1池式组件/3.1.4mysql连接池的实现/hiredis/read.c:449-526 | The same for arrays, maps, sets and pushes, with growing in the newer and the depth error in the older reader. |
| `Reader.Reader.ReadHeader` | 3.1池式组件/3.1.4mysql连接池的实现/hiredis/read.c:462-477 | The count line is read as the grammar reads it, and consumed only if it is complete. |
| `Reader.Reader.ProcessElements` | 3.1池式组件/3.1.4mysql连接池的实现/hiredis/read.c:479-522 | Nil, empty and non-empty aggregates: the first two are finished items, the last one opens a task. |
| `Reader.Reader.ProcessItem` | 3.1池式组件/3.1.4mysql连接池的实现/hiredis/read.c:528-603 | One item has the effect of one value-level step; no index leaves the stack. |
| `Reader.Reader.ReadByte` | 3.1池式组件/3.1.4mysql连接池的实现/hiredis/read.c:114-122 | Takes one byte off the buffer if there is one. |
| `Reader.Reader.GetReply` | 3.1池式组件/3.1.4mysql连接池的实现/hiredis/read.c:688-739 | The call on the mutable stack and buffer has the effect and the result of the value-level request, discarding of consumed input included, and the object returned is the root of the reply tree. |
| `Reader.Reader.ProcessItems` | 3.1池式组件/3.1.4mysql连接池的实现/hiredis/read.c:712-715 | The loop over items ends, for lack of input, with an error or with a reply. |
| `Reader.Play` | 3.1池式组件/3.1.4mysql连接池的实现/hiredis/read.c:657-739 | A whole run on the real reader: the objects handed out are the trees of the value-level run, are still intact at the end, and are the meaning of the stream if the reader was drained. |
| `Formatter.CommandRoundTrip` | 3.1池式组件/3.1.4mysql连接池的实现/hiredis/hiredis.c:625-661 | Reading a formatted command gives an array of exactly its arguments, whatever bytes they hold, and consumes every byte. |
| `Formatter.CountDigits` | 3.1池式组件/3.1.4mysql连接池的实现/hiredis/hiredis.c:288-298 | The loop that divides by 10000 counts the decimal digits. |
| `Formatter.BulkLen` | 3.1池式组件/3.1.4mysql连接池的实现/hiredis/hiredis.c:301-303 | The predicted length is that of the length-prefixed string. |
| `Formatter.TotalLen` | 3.1池式组件/3.1.4mysql连接池的实现/hiredis/hiredis.c:634-639 | The predicted total is the length of the command. |
| `Formatter.PutBulk` | 3.1池式组件/3.1.4mysql连接池的实现/hiredis/hiredis.c:649-655 | One argument is written behind the bytes already there. |
| `Formatter.Build` | 3.1池式组件/3.1.4mysql连接池的实现/hiredis/hiredis.c:641-660 | Filling the buffer ends exactly at the predicted length, with the bytes of the command and a NUL. |
| `Formatter.FormatCommandArgv` | 3.1池式组件/3.1.4mysql连接池的实现/hiredis/hiredis.c:625-661 | The result is the wire form of the arguments, and its length is the one predicted. |
| `Formatter.FormatSdsCommandArgv` | 3.1池式组件/3.1.4mysql连接池的实现/hiredis/hiredis.c:568-614 | The command is the same as that of the other formatters, and the closing assertion holds, if and only if every argument is shorter than 2^32 bytes. |
| `Formatter.SdsBulksAgree` | 3.1池式组件/3.1.4mysql连接池的实现/hiredis/hiredis.c:602-607 | Printing lengths with a 32-bit conversion gives the right bytes if and only if every length is below 2^32. |
| `Formatter.CollectArguments` | 3.1池式组件/3.1.4mysql连接池的实现/hiredis/hiredis.c:326-486 | The loop with its current argument and its `touched` flag computes the words of the format. |
| `Formatter.FormatCommand` | 3.1池式组件/3.1.4mysql连接池的实现/hiredis/hiredis.c:305-545 | The command is byte for byte the one built from the words of the format; no command for an unknown conversion. |
| `Formatter.ValuesStayWhole` | 3.1池式组件/3.1.4mysql连接池的实现/hiredis/hiredis.c:326-370 | For any argument list, blanks, percent signs and empty strings included, the format of as many `%b`, or `%s` for values without a NUL, separated by blanks yields exactly that list: an interpolated value is never split. |
| `Formatter.CString` | 3.1池式组件/3.1.4mysql连接池的实现/hiredis/hiredis.c:354-361 | What `%s` copies of a value is what stands in front of its first NUL. |
| `Formatter.FormattersAgree` | 3.1池式组件/3.1.4mysql连接池的实现/hiredis/hiredis.c:305-661 | On the same arguments the three formatters write the same bytes if and only if every argument is shorter than 2^32 bytes. |
| `Formatter.LongArgument` | 3.1池式组件/3.1.4mysql连接池的实现/hiredis/hiredis.c:602-607 | An argument for which they do not. |
| `Formatter.Convert` | 3.1池式组件/3.1.4mysql连接池的实现/hiredis/hiredis.c:354-369 | One conversion gives the text that the scanning function gives, and takes as many values. |
| `FormatTemplates.FormatAloneSplits` | 3.1池式组件/3.1.4mysql连接池的实现/hiredis/hiredis.c:326-486 | For every format and every list of values: the arguments are the templates that the format alone describes, each filled in. So an argument ends only at a blank of the format, a value goes whole to where its conversion stands, and there is no command exactly for an unknown conversion or too few values. |
| `FormatTemplates.FormatSaysArguments` | 3.1池式组件/3.1.4mysql连接池的实现/hiredis/hiredis.c:326-486 | For any arguments put together from characters and values, and any blanks between them: the format that writes them down, `%%` for a percent sign, gives exactly these arguments. |
| `FormatTemplates.FormatIsRead` | 3.1池式组件/3.1.4mysql连接池的实现/hiredis/hiredis.c:326-486 | A format written for given arguments is read as these arguments. |
| `Formatter.NothingLost` | 3.1池式组件/3.1.4mysql连接池的实现/hiredis/hiredis.c:326-486 | The arguments put together are the pieces of format and values put together: no byte is lost, repeated or moved. |
| `ArrayQueue.QueueSafety` | 3.2高性能组件/3.2.3无锁消息队列实现/src/cas_queue/ArrayLockFreeQueueImp.h:40-121 | In every interleaving of any number of producers and consumers readIndex <= maximumReadIndex <= writeIndex <= readIndex + Q_SIZE - 1; what was dequeued is the values of the first tickets, in ticket order, once each; a ticket not yet committed is held by exactly one thread, with its value. |
| `ArrayQueue.DequeueReturnsItsTicket` | 3.2高性能组件/3.2.3无锁消息队列实现/src/cas_queue/ArrayLockFreeQueueImp.h:105-115 | A dequeue whose compare-and-swap succeeds returns the value enqueued under its ticket, although it copied the slot before. |
| `ArrayQueue.CountIsExact` | 3.2高性能组件/3.2.3无锁消息队列实现/src/cas_queue/ArrayLockFreeQueueImp.h:73-113 | `m_count` differs from the number of committed and unread items by exactly the threads that have not updated it yet. |
| `ArrayQueueCalls.EveryValueHasATicket` | 3.2高性能组件/3.2.3无锁消息队列实现/src/cas_queue/ArrayLockFreeQueueImp.h:40-77 | In every interleaving the values of the tickets of each thread are, in order and once each, the values it has called `enqueue` with and was not told the ring is full; only a value still in its hands is missing. Between two calls none is missing and all its tickets are committed. |
| `ArrayQueueCalls.EveryCallReturns` | 3.2高性能组件/3.2.3无锁消息队列实现/src/cas_queue/ArrayLockFreeQueueImp.h:40-117 | In every interleaving a call ends in no other way than with an answer: false at the test for a full or an empty ring, or true, and then a `dequeue` has taken exactly one item. |
| `ArrayQueueCalls.EnqueueAlone` | 3.2高性能组件/3.2.3无锁消息队列实现/src/cas_queue/ArrayLockFreeQueueImp.h:40-77 | When nobody else is inside a call, `enqueue` ends after seven steps with its value behind all others, or after three steps having changed nothing if Q_SIZE - 1 items are in the ring. |
| `ArrayQueueCalls.DequeueAlone` | 3.2高性能组件/3.2.3无锁消息队列实现/src/cas_queue/ArrayLockFreeQueueImp.h:85-117 | When nobody else is inside a call, `dequeue` ends after six steps with the oldest item, or after three steps having changed nothing if there is none. |
| `ArrayQueueRefusals.OneProducerSeesFull` | 3.2高性能组件/3.2.3无锁消息队列实现/src/cas_queue/ArrayLockFreeQueueImp.h:45-55 | With one producer and any number of consumers `enqueue` refuses exactly if the ring is full at that moment. |
| `ArrayQueueRefusals.OneConsumerSeesEmpty` | 3.2高性能组件/3.2.3无锁消息队列实现/src/cas_queue/ArrayLockFreeQueueImp.h:90-104 | With one consumer and any number of producers `dequeue` refuses exactly if nothing committed is left at that moment. |
| `ArrayQueueRefusals.FullExactly` | 3.2高性能组件/3.2.3无锁消息队列实现/src/cas_queue/ArrayLockFreeQueueImp.h:45-55 | For a ring of any size and any groups of producers and consumers: a refused enqueue means a full ring in every interleaving if and only if there is at most one producer, or no consumer, or the ring has one slot only. |
| `ArrayQueueRefusals.EmptyExactly` | 3.2高性能组件/3.2.3无锁消息队列实现/src/cas_queue/ArrayLockFreeQueueImp.h:90-104 | A refused dequeue means that nothing committed is left, in every interleaving, if and only if there is at most one consumer, or no producer, or the ring has one slot only. |
| `ArrayQueueRefusals.FalseFull` | 3.2高性能组件/3.2.3无锁消息队列实现/src/cas_queue/ArrayLockFreeQueueImp.h:45-55 | In every ring of at least two slots, two producers and a consumer have a run after which a producer is refused although the ring is empty. |
| `ArrayQueueRefusals.FalseEmpty` | 3.2高性能组件/3.2.3无锁消息队列实现/src/cas_queue/ArrayLockFreeQueueImp.h:90-104 | In every ring of at least two slots, two consumers and a producer have a run after which a consumer is refused although the ring is full. |
| `ArrayQueue.ReserveStep` | 3.2高性能组件/3.2.3无锁消息队列实现/src/cas_queue/ArrayLockFreeQueueImp.h:55-55 | Reserving a ticket keeps the invariant, however stale the read index was. |
| `ArrayQueue.StoreStep` | 3.2高性能组件/3.2.3无锁消息队列实现/src/cas_queue/ArrayLockFreeQueueImp.h:58-58 | Storing under a reserved ticket overwrites no committed and unread value and no other reserved slot. |
| `ArrayQueue.CommitStep` | 3.2高性能组件/3.2.3无锁消息队列实现/src/cas_queue/ArrayLockFreeQueueImp.h:64-71 | Commits happen in ticket order and publish only slots that hold their value. |
| `ArrayQueue.ClaimStep` | 3.2高性能组件/3.2.3无锁消息队列实现/src/cas_queue/ArrayLockFreeQueueImp.h:106-115 | A claim takes the next ticket with its value, although the slot was copied before. |
| `ArrayQueue.DifferentSlots` | 3.2高性能组件/3.2.3无锁消息队列实现/src/cas_queue/ArrayLockFreeQueueImp.h:22-25 | Counters less than Q_SIZE apart have different slots. |
| `YPipeRuns.PipeSafety` | 3.2高性能组件/3.2.3无锁消息队列实现/src/cas_queue/ypipe.hpp:68-176 | In every interleaving of one writer and one reader what has been read is a prefix of the flushed and therefore completed items; `c` is `w` or NULL, and NULL only if all flushed items have been read; no next step of either thread touches a chunk or link that is not allocated. |
| `YPipeRuns.WriterTestsAreExact` | 3.2高性能组件/3.2.3无锁消息队列实现/src/cas_queue/ypipe.hpp:92-134 | In every reachable state `unwrite` takes back the newest item exactly if it is incomplete, `flush` does nothing exactly if everything completed is flushed, and it finds `c` changed exactly if the reader has gone to sleep since the last flush. |
| `YPipeRuns.ReaderTestsAreExact` | 3.2高性能组件/3.2.3无锁消息队列实现/src/cas_queue/ypipe.hpp:138-176 | In every reachable state `check_read` finds an item exactly if a flushed one is unread, prefetched or not, and `read` takes the next item of the stream out of its slot. |
| `YPipeRuns.StoreIsAQueue` | 3.2高性能组件/3.2.3无锁消息队列实现/src/cas_queue/yqueue.hpp:94-171 | In every reachable state the positions from begin to back have pairwise distinct addresses and hold the written and unread items in order, and every allocated chunk is in exactly one of the chain, the spare slot, or the hands of one thread. |
| `YPipeIdeal.PipeIsIdeal` | 3.2高性能组件/3.2.3无锁消息队列实现/src/cas_queue/ypipe.hpp:54-176 | In every interleaving the memory of the pipe is what the writer's calls mean, one after the other: between two calls the items written and not taken back, the position behind the last item whose `write` was not incomplete, and the position of the last `flush`. What has been read is a prefix of the flushed items, so none is read before a complete one at or behind it has been written and flushed. |
| `YPipeIdeal.CallsAreAnswered` | 3.2高性能组件/3.2.3无锁消息队列实现/src/cas_queue/ypipe.hpp:92-176 | In every interleaving each call returns the answer that belongs to it: `read` true with exactly one item more, false only if every flushed item has been read; `check_read` true only if one has not; `unwrite` whether the newest item is incomplete; `flush` false exactly if the reader has gone to sleep since the last flush. |
| `YPipeIdeal.WaitFree` | 3.2高性能组件/3.2.3无锁消息队列实现/src/cas_queue/ypipe.hpp:68-176 | Every step of a thread brings its call nearer to its end, and no step of the other one delays it. |
| `YPipeIdeal.CallBegins` | 3.2高性能组件/3.2.3无锁消息队列实现/src/cas_queue/ypipe.hpp:68-110 | A call of the writer starts out to do what it means. |
| `YPipeIdeal.WriterGoesOn` | 3.2高性能组件/3.2.3无锁消息队列实现/src/cas_queue/ypipe.hpp:68-134 | Each of its steps keeps to that, `f` moving exactly for complete items. |
| `YPipeIdeal.ReaderGoesOn` | 3.2高性能组件/3.2.3无锁消息队列实现/src/cas_queue/ypipe.hpp:138-176 | The same for the calls of the reader and their answers. |
| `YPipeLinks.StepsApart` | 3.2高性能组件/3.2.3无锁消息队列实现/src/cas_queue/yqueue.hpp:94-171 | In every reachable state no step that one thread can take touches a link that the next step of the other one follows or writes, or a chunk that it links, frees or allocates: the accesses that `unpush`, the linking of a chunk and `pop` are made of commute with everything the other thread does. |
| `YPipeRuns.NextKeeps` | 3.2高性能组件/3.2.3无锁消息队列实现/src/cas_queue/ypipe.hpp:68-176 | Every step that either thread may take is safe and keeps the invariant. |
| `YPipe.AddressesMeanPositions` | 3.2高性能组件/3.2.3无锁消息队列实现/src/cas_queue/yqueue.hpp:79-91 | Two pointers between begin and back are equal exactly if they stand for the same position. |
| `YPipeRuns.StartInv` | 3.2高性能组件/3.2.3无锁消息队列实现/src/cas_queue/ypipe.hpp:38-47 | The constructor establishes the invariant. |
| `YPipe.UnwriteStep` | 3.2高性能组件/3.2.3无锁消息队列实现/src/cas_queue/yqueue.hpp:129-153 | Taking back an item undoes the last push: stream, pointers, links and chunks are those without the item, which is still in the back slot. |
| `YPipe.UnwriteIsSafe` | 3.2高性能组件/3.2.3无锁消息队列实现/src/cas_queue/ypipe.hpp:92-99 | The test of `unwrite` finds an incomplete item exactly if there is one, and then everything `unpush` follows is there. |
| `YPipe.WriterCasStep` | 3.2高性能组件/3.2.3无锁消息队列实现/src/cas_queue/ypipe.hpp:115-133 | The exchange of `flush` fails exactly if the reader sleeps, and then everything flushed before has been read. |
| `YPipe.ReaderCasStep` | 3.2高性能组件/3.2.3无锁消息队列实现/src/cas_queue/ypipe.hpp:151-160 | The exchange of `check_read` puts the reader to sleep exactly if everything flushed has been read. |
| `YPipe.LookStep` | 3.2高性能组件/3.2.3无锁消息队列实现/src/cas_queue/ypipe.hpp:138-142 | The test on the prefetched pointer is false exactly if nothing prefetched is unread. |
| `YPipe.StoreStep` | 3.2高性能组件/3.2.3无锁消息队列实现/src/cas_queue/ypipe.hpp:71-71 | Storing a value fills the slot of the next position and no slot that is still to be read. |
| `YPipe.PushStep` | 3.2高性能组件/3.2.3无锁消息队列实现/src/cas_queue/yqueue.hpp:94-100 | Moving `back` and `end`, and `f` unless the item is incomplete, keeps pointers and positions together. |
| `YPipe.LinkStep` | 3.2高性能组件/3.2.3无锁消息队列实现/src/cas_queue/yqueue.hpp:102-118 | A recycled or new chunk is linked behind the chain and is in one place only. |
| `YPipe.PopStep` | 3.2高性能组件/3.2.3无锁消息队列实现/src/cas_queue/yqueue.hpp:156-165 | `pop` stays inside the chain: the next chunk is there and linked. |
| `YPipe.SwapStep` | 3.2高性能组件/3.2.3无锁消息队列实现/src/cas_queue/yqueue.hpp:168-168 | The used chunk becomes the spare one, the former spare is in the hands of the reader. |
| `YPipe.FreeStep` | 3.2高性能组件/3.2.3无锁消息队列实现/src/cas_queue/yqueue.hpp:169-169 | A chunk is freed once, while no one else holds it. |
| `LinkedQueueRuns.QueueSafety` | 3.2高性能组件/3.2.3无锁消息队列实现/src/cas_queue/SimpleLockFreeQueue.h:75-134 | In every interleaving of any number of producers and one consumer items come out once each, in the order in which their nodes were exchanged into `tail`, despite the gap before the link; no step touches a node or item that is not there, or constructs an item over another. |
| `LinkedQueueRuns.RefusalMeansEmptyOrUnlinked` | 3.2高性能组件/3.2.3无锁消息队列实现/src/cas_queue/SimpleLockFreeQueue.h:95-101 | At its test of `next`, `try_dequeue` answers false exactly if all items have been taken, or everything in front of `head` has been taken and the thread that appended the next node has not linked it yet. |
| `LinkedQueueCalls.EveryValueIsAppended` | 3.2高性能组件/3.2.3无锁消息队列实现/src/cas_queue/SimpleLockFreeQueue.h:74-85 | In every interleaving the items each thread has appended are, in order and once each, the values it has called `enqueue` with; only the value of a call that has not reached its exchange is missing, and none once the call has returned. |
| `LinkedQueueCalls.EveryCallReturns` | 3.2高性能组件/3.2.3无锁消息队列实现/src/cas_queue/SimpleLockFreeQueue.h:87-134 | In every interleaving `try_dequeue` returns true with exactly one item more than when it was called, or false with none, and false only at its test of `next`; it ends in no other way. |
| `LinkedQueueCalls.DequeueAlone` | 3.2高性能组件/3.2.3无锁消息队列实现/src/cas_queue/SimpleLockFreeQueue.h:87-134 | From every reachable state a `try_dequeue` that runs alone returns within 14 steps, with the next item if there is one and it is linked, and with nothing otherwise. |
| `LinkedQueueCalls.EnqueueAlone` | 3.2高性能组件/3.2.3无锁消息队列实现/src/cas_queue/SimpleLockFreeQueue.h:74-85 | From every reachable state an `enqueue` that runs alone returns within 8 steps with its value in the queue. |
| `LinkedQueueCalls.CanTakeMeaning` | 3.2高性能组件/3.2.3无锁消息队列实现/src/cas_queue/SimpleLockFreeQueue.h:91-98 | Between two calls there is something to take exactly if the queue is not empty and its next node is linked. |
| `LinkedQueueRuns.NoStaleLink` | 3.2高性能组件/3.2.3无锁消息队列实现/src/cas_queue/SimpleLockFreeQueue.h:220-234 | When the exchange that takes a node off the free list succeeds, the link read before is still the link to the node below. |
| `LinkedQueueRuns.FreeNodesUnreachable` | 3.2高性能组件/3.2.3无锁消息队列实现/src/cas_queue/SimpleLockFreeQueue.h:87-134 | Following links from `head` never meets a node that the links of the free list meet. |
| `LinkedQueueRuns.NextKeeps` | 3.2高性能组件/3.2.3无锁消息队列实现/src/cas_queue/SimpleLockFreeQueue.h:75-134 | Every step is safe and keeps the invariant. |
| `LinkedQueueRuns.StartInv` | 3.2高性能组件/3.2.3无锁消息队列实现/src/cas_queue/SimpleLockFreeQueue.h:33-41 | The constructor establishes the invariant. |
| `LinkedQueueSteps.XchgStep` | 3.2高性能组件/3.2.3无锁消息队列实现/src/cas_queue/SimpleLockFreeQueue.h:79-81 | The exchange into `tail` appends the node while its link is still missing. |
| `LinkedQueueSteps.LinkStep` | 3.2高性能组件/3.2.3无锁消息队列实现/src/cas_queue/SimpleLockFreeQueue.h:82-82 | The late link connects the node with the one that was `tail`, which is still in the chain. |
| `LinkedQueueSteps.PopStep` | 3.2高性能组件/3.2.3无锁消息队列实现/src/cas_queue/SimpleLockFreeQueue.h:220-234 | Taking a node off the free list makes it private to one producer, in a new version. |
| `LinkedQueueSteps.OwnStep` | 3.2高性能组件/3.2.3无锁消息队列实现/src/cas_queue/SimpleLockFreeQueue.h:103-108 | The last item is moved out once while its node stays in the chain. |
| `LinkedQueueSteps.MoveStep` | 3.2高性能组件/3.2.3无锁消息队列实现/src/cas_queue/SimpleLockFreeQueue.h:116-125 | `head` moves on only over a node that is linked, and only then does the consumer own the old one. |
| `LinkedQueueSteps.PushStep` | 3.2高性能组件/3.2.3无锁消息队列实现/src/cas_queue/SimpleLockFreeQueue.h:211-218 | A node goes onto the free list only when it is out of the chain and empty. |
| `Words.SameNodeSameBits` | 3.2高性能组件/3.2.3无锁消息队列实现/src/cas_queue/SimpleLockFreeQueue.h:236-243 | Two words lead to the same node through the tree of blocks exactly if their low 40 bits, the consumed flag aside, are equal; the path stays within the block sizes. |
| `Words.NodeSurvives` | 3.2高性能组件/3.2.3无锁消息队列实现/src/cas_queue/SimpleLockFreeQueue.h:196-234 | Raising the version and setting or clearing the consumed flag keep the node a word leads to; the version does change the word, and clearing undoes setting. |
| `Words.PackedNode` | 3.2高性能组件/3.2.3无锁消息队列实现/src/cas_queue/SimpleLockFreeQueue.h:267-281 | Words made for two node numbers lead to the same node exactly if the numbers are equal, whatever the versions. |
| `Words.WordsArePairs` | 3.2高性能组件/3.2.3无锁消息队列实现/src/cas_queue/SimpleLockFreeQueue.h:196-234 | Words are pairs of number and version: equal exactly if both are, never consumed, never 0 for a node, and raising the version adds one up to 2^24 - 1 and then wraps. |
| `CallbackLists.CallbackList.constructor` | 3.1池式组件/3.1.4mysql连接池的实现/hiredis/async.c:140-141 | A new list is empty. |
| `CallbackLists.CallbackList.Push` | 3.1池式组件/3.1.4mysql连接池的实现/hiredis/async.c:245-265 | On the linked list with head and tail: the callback comes last. |
| `CallbackLists.CallbackList.Shift` | 3.1池式组件/3.1.4mysql连接池的实现/hiredis/async.c:267-281 | The first callback is taken off, or the call fails exactly if there is none. |
| `CallbackLists.CallbackList.IsEmpty` | 3.1池式组件/3.1.4mysql连接池的实现/hiredis/async.c:410-410 | The test of `head` says whether any callback is pending. |
| `AsyncContext.AsyncContext.Run` | 3.1池式组件/3.1.4mysql连接池的实现/hiredis/async.c:245-592 | Whatever program, callbacks, server and network do in whatever order: the k-th answer belongs to the k-th accepted command and carries the k-th reply that is no spontaneous push, NULL beyond the replies; no such reply is lost while the context is alive; the callbacks called are those of the answers; which commands were accepted, and the two flags, are what all calls made so far amount to, and the program's calls are among them in order; no context outlives an I/O error, a broken stream or a free; when it is freed every accepted command has been answered; nothing uses it after that. |
| `AsyncContext.AsyncContext.Happen` | 3.1池式组件/3.1.4mysql连接池的实现/hiredis/async.c:363-719 | Each kind of event has its own effect. |
| `AsyncContext.AsyncContext.Told` | 3.1池式组件/3.1.4mysql连接池的实现/hiredis/async.c:363-412 | A call of the program: a free ends the context, a disconnect exactly if nothing is pending, a command never. |
| `AsyncContext.AsyncContext.TakeReplies` | 3.1池式组件/3.1.4mysql连接池的实现/hiredis/async.c:504-592 | Replies end the context only if a callback asked for it, the connection is being closed, or the stream is broken. |
| `AsyncContext.AsyncContext.Written` | 3.1池式组件/3.1.4mysql连接池的实现/hiredis/async.c:675-690 | Bytes written leave the output buffer, and nothing else changes. |
| `AsyncContext.AsyncContext.Fail` | 3.1池式组件/3.1.4mysql连接池的实现/hiredis/async.c:371-396 | An error ends the context with every command answered. |
| `PushReplies.SubscribeReplies` | 3.1池式组件/3.1.4mysql连接池的实现/hiredis/async.c:483-502 | A push goes to a command exactly if its name has at least seven letters and is, in either case, a beginning of `subscribe`, `message`, `psubscribe` or `pmessage`. |
| `PushReplies.UnsubscribeIsSpontaneous` | 3.1池式组件/3.1.4mysql连接池的实现/hiredis/async.c:480-502 | The confirmation of an unsubscription is a push that goes to no command. |
| `AsyncContext.CalledOnce` | 3.1池式组件/3.1.4mysql连接池的实现/hiredis/async.c:504-592 | The callback of an answered command has been called exactly once, with the k-th reply or with NULL, never with anything else; that of an unanswered command not at all. |
| `AsyncContext.CallsInOrder` | 3.1池式组件/3.1.4mysql连接池的实现/hiredis/async.c:504-592 | Callbacks are called in the order in which their commands were accepted. |
| `AsyncContext.AsyncContext.AsyncCommand` | 3.1池式组件/3.1.4mysql连接池的实现/hiredis/async.c:737-821 | A plain command is accepted exactly if the context is neither disconnecting nor freeing, and then its callback is queued last. |
| `AsyncContext.AsyncContext.AsyncFree` | 3.1池式组件/3.1.4mysql连接池的实现/hiredis/async.c:363-368 | Inside a callback freeing is put off; otherwise the context is freed now, with every command answered. |
| `AsyncContext.AsyncContext.AsyncDisconnect` | 3.1池式组件/3.1.4mysql连接池的实现/hiredis/async.c:404-412 | Freed at once exactly if outside a callback and nothing is pending; otherwise only the flag is set. |
| `AsyncContext.AsyncContext.DisconnectNow` | 3.1池式组件/3.1.4mysql连接池的实现/hiredis/async.c:371-396 | The assertion that a clean disconnect leaves no callback pending always holds; afterwards every command is answered and the context is gone. |
| `AsyncContext.AsyncContext.Teardown` | 3.1池式组件/3.1.4mysql连接池的实现/hiredis/async.c:301-357 | Every pending callback is called with NULL, none is added meanwhile, and the context is freed once. |
| `AsyncContext.AsyncContext.Shift` | 3.1池式组件/3.1.4mysql连接池的实现/hiredis/async.c:267-281 | The oldest unanswered command gets the reply. |
| `AsyncContext.AsyncContext.RunCallback` | 3.1池式组件/3.1.4mysql连接池的实现/hiredis/async.c:283-290 | Whatever the callback calls in turn, the context is still there when it returns and no pending answer is lost; the commands accepted and the two flags are those that its calls, in order, lead to. |
| `AsyncContext.AsyncContext.RunActions` | 3.1池式组件/3.1.4mysql连接池的实现/hiredis/async.c:283-290 | No sequence of commands, disconnects and frees from inside a callback frees the context or answers a command; the commands in front of the first disconnect or free are accepted, those behind it refused. |
| `AsyncContext.AsyncContext.Perform` | 3.1池式组件/3.1.4mysql连接池的实现/hiredis/async.c:363-412 | A call from inside a callback only queues a command or sets a flag; outside, a free or disconnect may end the context, with every command answered. |
| `AsyncContext.AsyncContext.CallNext` | 3.1池式组件/3.1.4mysql连接池的实现/hiredis/async.c:308-309 | One round of the loop: the oldest pending callback is called with NULL, and no command is accepted meanwhile. |
| `AsyncContext.AsyncContext.GiveReply` | 3.1池式组件/3.1.4mysql连接池的实现/hiredis/async.c:571-579 | After the callback the context is freed exactly if what the callback did asks for it, and then every command is answered. |
| `AsyncContext.AsyncContext.Deliver` | 3.1池式组件/3.1.4mysql连接池的实现/hiredis/async.c:530-587 | One round of the loop: a spontaneous push goes to no command, every other reply to the oldest pending one; an unsolicited error closes the connection; any other unsolicited reply fails an assertion. |
| `AsyncContext.AsyncContext.ReceivePush` | 3.1池式组件/3.1.4mysql连接池的实现/hiredis/async.c:292-298 | The push callback, if there is one, is called with the effect its calls have from inside a callback; no command is answered, and a free it asks for is still pending when it returns. |
| `AsyncContext.AsyncContext.Answered` | 3.1池式组件/3.1.4mysql连接池的实现/hiredis/async.c:540-587 | A reply goes to the oldest pending command; an unsolicited error closes the connection; any other unsolicited reply fails an assertion. |
| `AsyncContext.AsyncContext.ProcessCallbacks` | 3.1池式组件/3.1.4mysql连接池的实现/hiredis/async.c:504-592 | The replies of a batch are dealt with in order, spontaneous pushes apart; it stops early only when the context is freed or at a reply nobody asked for; if the context survives, nothing was left to disconnect for. |
| `AsyncContext.AsyncContext.Finish` | 3.1池式组件/3.1.4mysql连接池的实现/hiredis/async.c:510-518 | When the replies run out the context is freed exactly if the stream is broken, or if it is disconnecting with nothing to send and nothing pending. |
| `Dicts.MaskIsMod` | 3.1池式组件/3.1.4mysql连接池的实现/hiredis/dict.c:124-124 | Masking with a power of two less one is the remainder: the bucket of a key. |
| `Dicts.NextPower` | 3.1池式组件/3.1.4mysql连接池的实现/hiredis/dict.c:320-329 | The smallest power of two of at least 4 that is not below the size asked for. |
| `Dicts.Dict.Find` | 3.1池式组件/3.1.4mysql连接池的实现/hiredis/dict.c:255-268 | The entry of the key, or NULL exactly if there is none. |
| `Dicts.Dict.Expand` | 3.1池式组件/3.1.4mysql连接池的实现/hiredis/dict.c:92-138 | Succeeds exactly if the entries fit; every key then has the very entry it had before, in a table of the size asked for: no entry is lost although the loop stops when `used` reaches 0, and the count and the assertion after the loop are right. |
| `Dicts.Dict.MoveChains` | 3.1池式组件/3.1.4mysql连接池的实现/hiredis/dict.c:112-132 | The loops over the old table move every entry into the new one and end with `used` at 0. |
| `Dicts.Dict.MoveChain` | 3.1池式组件/3.1.4mysql连接池的实现/hiredis/dict.c:117-130 | One chain: what is moved and what is left together are still all entries, none twice. |
| `Dicts.Dict.MoveEntry` | 3.1池式组件/3.1.4mysql连接池的实现/hiredis/dict.c:124-126 | One entry is put in front of its chain in the new table. |
| `Dicts.EndMove` | 3.1池式组件/3.1.4mysql连接池的实现/hiredis/dict.c:112-112 | When the loop stops, at the end of the table or because the count is 0, nothing is left behind. |
| `Dicts.Dict.ExpandIfNeeded` | 3.1池式组件/3.1.4mysql连接池的实现/hiredis/dict.c:309-317 | Never fails, keeps all entries, and leaves room for one more; the table changes exactly if it is absent or has as many entries as buckets, and then to 4 buckets or to twice as many. |
| `Dicts.Dict.KeyIndex` | 3.1池式组件/3.1.4mysql连接池的实现/hiredis/dict.c:334-351 | -1 exactly if the key is present, otherwise its bucket; all entries are kept. |
| `Dicts.Dict.Insert` | 3.1池式组件/3.1.4mysql连接池的实现/hiredis/dict.c:150-161 | A new entry in front of its chain; every other key keeps its entry and its value. |
| `Dicts.Dict.Add` | 3.1池式组件/3.1.4mysql连接池的实现/hiredis/dict.c:141-163 | The map gains the key exactly if it was absent; every other key keeps its value; `used` counts it. |
| `Dicts.Dict.Replace` | 3.1池式组件/3.1.4mysql连接池的实现/hiredis/dict.c:169-191 | The map maps the key to the value, whether it was there or not, and changes nowhere else; the result says which. |
| `Dicts.Dict.Overwrite` | 3.1池式组件/3.1.4mysql连接池的实现/hiredis/dict.c:187-189 | Overwriting the value of an entry changes the map at its key only. |
| `Dicts.Dict.Delete` | 3.1池式组件/3.1.4mysql连接池的实现/hiredis/dict.c:194-222 | The map loses exactly the key; the entry is cut out of its chain and all others keep their places; fails exactly if the key is absent. |
| `Dicts.Dict.Locate` | 3.1池式组件/3.1.4mysql连接池的实现/hiredis/dict.c:203-219 | The walk ends at the entry of the key with its predecessor, or at the end exactly if there is none. |
| `Dicts.Dict.UnlinkFirst` | 3.1池式组件/3.1.4mysql连接池的实现/hiredis/dict.c:209-210 | Unlinking the head of a chain cuts out exactly that entry. |
| `Dicts.Dict.UnlinkInside` | 3.1池式组件/3.1.4mysql连接池的实现/hiredis/dict.c:207-208 | Unlinking behind a predecessor cuts out exactly that entry. |
| `Dicts.LookupCut` | 3.1池式组件/3.1.4mysql连接池的实现/hiredis/dict.c:206-210 | Cutting an entry out of a chain changes the lookup of its key only. |
| `Dicts.Iterator.constructor` | 3.1池式组件/3.1.4mysql连接池的实现/hiredis/dict.c:270-280 | A new iterator has all entries before it. |
| `Dicts.Iterator.Next` | 3.1池式组件/3.1.4mysql连接池的实现/hiredis/dict.c:282-300 | Returns the next of the entries before it, and NULL exactly if there are none left. |
| `Dicts.Sweep` | 3.1池式组件/3.1.4mysql连接池的实现/hiredis/dict.c:194-222 | A sweep that deletes any of the entries, each just after it was returned, meets every entry that was there exactly once and then NULL; afterwards exactly the entries chosen are gone. |
| `Dicts.Visit` | 3.1池式组件/3.1.4mysql连接池的实现/hiredis/dict.c:293-296 | Deleting the entry just returned, with its memory gone, changes nothing of what the iterator has before it. |
| `Dicts.DeletePassed` | 3.1池式组件/3.1.4mysql连接池的实现/hiredis/dict.c:293-296 | Cutting out an entry that the iterator has passed keeps its position valid, because it saved the next entry. |
| `Dicts.FlatLists` | 3.1池式组件/3.1.4mysql连接池的实现/hiredis/dict.c:282-300 | The order of the iterator lists every entry once. |
| `DictRuns.Play` | 3.1池式组件/3.1.4mysql连接池的实现/hiredis/dict.c:92-351 | Any run of add, replace, delete and find on a new table gives the answers of a finite map and ends standing for it: `used` counts its keys, the size is 0 or a power of two of at least 4 and not below `used`, every entry is in the bucket of its key, and keys are unique. |
| `DictRuns.Act` | 3.1池式组件/3.1.4mysql连接池的实现/hiredis/dict.c:141-268 | Each operation has the effect and the answer it has on a finite map. |
| `Deadlock.Detector.CheckDeadLock` | 3.2高性能组件/3.2.4手写死锁检测组件/src/example/deadlock_success.c:280-296 | The search ends on every graph; the flag is set if and only if there is a cycle, or two different walks with a common first edge to a common last vertex; a path has been printed exactly if the flag is set, and every printed path is a walk that ends at a vertex visited before. |
| `Deadlock.SingleEdgesNoFalseAlarm` | 3.2高性能组件/3.2.4手写死锁检测组件/src/example/deadlock_success.c:178-231 | If every vertex has at most one outgoing edge, that is exactly when there is a cycle. |
| `Deadlock.FalseAlarm` | 3.2高性能组件/3.2.4手写死锁检测组件/src/example/deadlock_success.c:178-188 | A graph without a cycle for which the flag is set nevertheless. |
| `DeadlockAlarm.RaiseFalseAlarm` | 3.2高性能组件/3.2.4手写死锁检测组件/src/example/deadlock_success.c:100-113 | A detector that `add_edge` has built from four edges without a cycle raises the alarm. |
| `Deadlock.AllClear` | 3.2高性能组件/3.2.4手写死锁检测组件/src/example/deadlock_success.c:280-296 | If the searches over all edges of all vertices find nothing, there is neither a cycle nor such a pair of walks. |
| `Deadlock.NothingFound` | 3.2高性能组件/3.2.4手写死锁检测组件/src/example/deadlock_success.c:204-231 | If one search never meets a visited vertex, no walk over its first edge returns to the start and no two of them meet. |
| `Deadlock.OneWalk` | 3.2高性能组件/3.2.4手写死锁检测组件/src/example/deadlock_success.c:178-202 | In such a search every vertex is reached by one walk only. |
| `Deadlock.MetAgain` | 3.2高性能组件/3.2.4手写死锁检测组件/src/example/deadlock_success.c:181-188 | Meeting a visited vertex means a cycle or two walks that meet. |
| `Deadlock.Detector.DFS` | 3.2高性能组件/3.2.4手写死锁检测组件/src/example/deadlock_success.c:178-202 | The recursion ends; all edges from the vertices it marks are explored; the flag is set if the vertex had been visited; `k` and the path are one longer and stay within the array. |
| `Deadlock.Detector.MeetAgain` | 3.2高性能组件/3.2.4手写死锁检测组件/src/example/deadlock_success.c:181-188 | What is printed is a walk in the graph that ends at a visited vertex. |
| `Deadlock.Detector.Explore` | 3.2高性能组件/3.2.4手写死锁检测组件/src/example/deadlock_success.c:193-199 | The loop over the edges leaves path and `k` as they were, with every edge explored. |
| `Deadlock.Detector.SearchEdge` | 3.2高性能组件/3.2.4手写死锁检测组件/src/example/deadlock_success.c:211-230 | One search from a vertex over one of its edges: without a finding, no walk over that edge returns or meets another. |
| `Deadlock.Detector.Reset` | 3.2高性能组件/3.2.4手写死锁检测组件/src/example/deadlock_success.c:213-226 | All marks but that of the start are cleared, and the path is the start only. |
| `Deadlock.Detector.SearchForCycle` | 3.2高性能组件/3.2.4手写死锁检测组件/src/example/deadlock_success.c:204-231 | The same for all edges of a vertex. |
| `Deadlock.Detector.SearchVertex` | 3.2高性能组件/3.2.4手写死锁检测组件/src/example/deadlock_success.c:75-88 | The index of the vertex with this id and type, or -1 exactly if there is none. |
| `Deadlock.Detector.AddVertex` | 3.2高性能组件/3.2.4手写死锁检测组件/src/example/deadlock_success.c:90-98 | The vertex is in the list once, without edges if it is new. |
| `Deadlock.Detector.AddEdge` | 3.2高性能组件/3.2.4手写死锁检测组件/src/example/deadlock_success.c:100-113 | Missing vertices are appended, the edge is the last of those of its vertex, every other vertex keeps its edges, and every edge leads to a vertex in the list. |
| `Deadlock.Detector.RemoveEdge` | 3.2高性能组件/3.2.4手写死锁检测组件/src/example/deadlock_success.c:139-163 | Removes the first edge whose id fits, whatever its type, if both vertices are in the list, and nothing else. |
| `AsyncLogging.AsyncLogging.Run` | 3.3开源组件/3.3.2 异步日志方案log4cpp/log-src-20211230/muduo_log/AsyncLogging.cc:34-141 | In every interleaving of appending threads with the writer thread, all lines that fit a buffer are, in order and once each, in the batches handed to the writer, the queue and the current buffer; at the top of its loop the file holds what the batches call for; a missing spare buffer means that the queue is not empty. |
| `AsyncLogging.NothingLost` | 3.3开源组件/3.3.2 异步日志方案log4cpp/log-src-20211230/muduo_log/AsyncLogging.cc:95-113 | The file gets all text handed over as long as no batch has more than 25 buffers. |
| `AsyncLogging.EveryBufferCounts` | 3.3开源组件/3.3.2 异步日志方案log4cpp/log-src-20211230/muduo_log/AsyncLogging.cc:95-113 | In general every buffer handed over is in the file or counted in a note. |
| `AsyncLogging.TwoKept` | 3.3开源组件/3.3.2 异步日志方案log4cpp/log-src-20211230/muduo_log/AsyncLogging.cc:95-103 | Of a larger batch the file gets a note and the first two buffers. |
| `AsyncLogging.AsyncLogging.FileHasAll` | 3.3开源组件/3.3.2 异步日志方案log4cpp/log-src-20211230/muduo_log/AsyncLogging.cc:34-141 | At the top of the writer's loop, if no batch was too large, the stored lines are, in order and once each, in the file, the queue and the current buffer. |
| `AsyncLogging.AsyncLogging.Perform` | 3.3开源组件/3.3.2 异步日志方案log4cpp/log-src-20211230/muduo_log/AsyncLogging.cc:34-141 | A step of an appending thread leaves the writer alone; a step of the writer moves it on in its loop. |
| `AsyncLogging.AsyncLogging.NewIsValid` | 3.3开源组件/3.3.2 异步日志方案log4cpp/log-src-20211230/muduo_log/AsyncLogging.cc:13-31 | A new logger, with four empty buffers, satisfies the invariant. |
| `AsyncLogging.Buffer.Append` | 3.3开源组件/3.3.2 异步日志方案log4cpp/log-src-20211230/muduo_log/LogStream.h:38-46 | A line is stored whole if it leaves room, and otherwise ignored. |
| `AsyncLogging.AsyncLogging.Append` | 3.3开源组件/3.3.2 异步日志方案log4cpp/log-src-20211230/muduo_log/AsyncLogging.cc:34-58 | The line is stored exactly if it is shorter than a buffer, behind all earlier lines. |
| `AsyncLogging.AsyncLogging.NextBuffer` | 3.3开源组件/3.3.2 异步日志方案log4cpp/log-src-20211230/muduo_log/AsyncLogging.cc:44-54 | The full buffer goes to the queue and an empty one, the spare or a new one, takes its place. |
| `AsyncLogging.AsyncLogging.MakeRoom` | 3.3开源组件/3.3.2 异步日志方案log4cpp/log-src-20211230/muduo_log/AsyncLogging.cc:44-54 | The text of all buffers stays the same, and the current buffer is empty. |
| `AsyncLogging.AsyncLogging.WriterStep` | 3.3开源组件/3.3.2 异步日志方案log4cpp/log-src-20211230/muduo_log/AsyncLogging.cc:71-139 | The writer goes through its loop: take the buffers, apply the drop rule, write one buffer after the other, reclaim two of them. |
| `AsyncLogging.AsyncLogging.TakeBuffers` | 3.3开源组件/3.3.2 异步日志方案log4cpp/log-src-20211230/muduo_log/AsyncLogging.cc:85-92 | The writer gets the queue and the current buffer; it has a spare of its own left or has got at least two buffers. |
| `AsyncLogging.AsyncLogging.Rotate` | 3.3开源组件/3.3.2 异步日志方案log4cpp/log-src-20211230/muduo_log/AsyncLogging.cc:73-93 | The assertions at the top of the loop hold; all text in front of the writer becomes one batch. |
| `AsyncLogging.AsyncLogging.CutBatch` | 3.3开源组件/3.3.2 异步日志方案log4cpp/log-src-20211230/muduo_log/AsyncLogging.cc:97-107 | Of more than 25 buffers exactly the first two are kept, and a note says how many were dropped. |
| `AsyncLogging.AsyncLogging.Trim` | 3.3开源组件/3.3.2 异步日志方案log4cpp/log-src-20211230/muduo_log/AsyncLogging.cc:95-107 | The batch is not empty; after the drop rule it is what will be written. |
| `AsyncLogging.AsyncLogging.WriteBuffer` | 3.3开源组件/3.3.2 异步日志方案log4cpp/log-src-20211230/muduo_log/AsyncLogging.cc:109-113 | The next buffer of the batch goes to the file. |
| `AsyncLogging.AsyncLogging.Recycle` | 3.3开源组件/3.3.2 异步日志方案log4cpp/log-src-20211230/muduo_log/AsyncLogging.cc:115-137 | Both assertions hold: there are buffers enough to refill both spares, and these are empty again. |
| `AsyncLogging.AsyncLogging.RecycleFirst` | 3.3开源组件/3.3.2 异步日志方案log4cpp/log-src-20211230/muduo_log/AsyncLogging.cc:115-127 | All but two of the written buffers are freed, and the last one left becomes the first spare, empty again. |
| `AsyncLogging.AsyncLogging.RecycleSecond` | 3.3开源组件/3.3.2 异步日志方案log4cpp/log-src-20211230/muduo_log/AsyncLogging.cc:129-137 | A missing second spare is refilled too, and the batch is empty afterwards. |
| `AsyncLogging.AsyncLogging.Reclaim` | 3.3开源组件/3.3.2 异步日志方案log4cpp/log-src-20211230/muduo_log/AsyncLogging.cc:115-137 | At the end of the loop the file holds exactly the output of all batches. |
| `AsyncLogging.HandOver` | 3.3开源组件/3.3.2 异步日志方案log4cpp/log-src-20211230/muduo_log/AsyncLogging.cc:85-88 | Handing over a batch moves text but loses, repeats and reorders none. |
| `Quote.QuoteRoundTrip` | 3.1池式组件/3.1.4mysql连接池的实现/hiredis/sds.c:872-1056 | For every list of byte strings, splitting their quoted forms joined by single spaces gives the list back: empty strings, quotes, backslashes, NUL bytes and text that looks like an escape included. |
| `QuoteSpellings.LineSpellsArguments` | 3.1池式组件/3.1.4mysql连接池的实现/hiredis/sds.c:940-1056 | Any line of arguments is split into them, whichever way each is written: plain, in double quotes with any escapes in either case, in single quotes, or plain in front of quotes; with any blanks in front, between and behind. |
| `QuoteSpellings.SpellingScans` | 3.1池式组件/3.1.4mysql连接池的实现/hiredis/sds.c:949-1018 | One such argument is read up to the blank or the end behind it; text right behind a closing quote is an error. |
| `QuoteSpellings.Unclosed` | 3.1池式组件/3.1.4mysql连接池的实现/hiredis/sds.c:949-1018 | A quote that is not closed is an error. |
| `Quote.ReprIsPrintable` | 3.1池式组件/3.1.4mysql连接池的实现/hiredis/sds.c:872-895 | Every character of a quoted form is printable, whatever the bytes are. |
| `Quote.ReprScans` | 3.1池式组件/3.1.4mysql连接池的实现/hiredis/sds.c:949-1018 | A quoted form followed by a blank or the end is read back as one argument, up to that character. |
| `Quote.EscapeStep` | 3.1池式组件/3.1.4mysql连接池的实现/hiredis/sds.c:955-986 | The escape of any byte is decoded to that byte by one round of the loop. |
| `Quote.CatRepr` | 3.1池式组件/3.1.4mysql连接池的实现/hiredis/sds.c:872-895 | The loop appends the quoted form. |
| `Quote.NextCharacter` | 3.1池式组件/3.1.4mysql连接池的实现/hiredis/sds.c:953-1017 | One round with its three modes and the final advance has the effect of one step of the splitting function. |
| `Quote.NextArgument` | 3.1池式组件/3.1.4mysql连接池的实现/hiredis/sds.c:949-1018 | The loop reads one argument, and fails exactly for unbalanced quotes or text right behind a closing quote. |
| `Quote.SkipSpaces` | 3.1池式组件/3.1.4mysql连接池的实现/hiredis/sds.c:946-947 | All blanks in front are skipped. |
| `Quote.SplitArgs` | 3.1池式组件/3.1.4mysql连接池的实现/hiredis/sds.c:940-1056 | The arguments of the line, or none at all if quotes do not match. |

## Left out

- ArrayQueue, YPipe, LinkedQueue: sequentially consistent steps; weaker memory orderings of the source are not modelled, nor is progress of its retry loops under contention (calls of the two queues that run alone are shown to end, and the pipe is wait-free). They are states and step functions, not classes, because any thread may run between two accesses.
- YPipeRuns.PipeSafety: `unpush`, linking a chunk and `pop` are one step each, which `YPipeLinks.StepsApart` justifies.
- YPipe: one writer and one reader, as the source demands; the destructors and `probe` are not part of this model.
- LinkedQueue: one consumer; with more of them the move of the item is a separate step from the exchange that claims it. Versions and node numbers are unbounded there; `Words` states how far the packed words follow them.
- Words.WordsArePairs: the version wraps after 2^24 changes of a node, which the queue's proofs exclude by unbounded versions; two threads that create the same block at the same time are not modelled.
- ArrayQueue.QueueSafety: indices do not wrap at 2^64; `size()` reads two indices at different times and promises nothing.
- Resp: a double is its text, and whether the C library accepts it is a parameter; lengths and positions over 2 GB, which the source cuts to `int`, and the doubling of a map count beyond 2^63 are not modelled.
- Reader.BuildLine: whether the C library accepts the text of a double, and its value.
- Reader: allocation failure, readers without object functions, the pointer arguments that may be NULL, and the size of the spare buffer; reply objects are entries of a sequence that only grows, and freeing them is not modelled.
- Numbers.Ll2str: the source negates the smallest 64-bit value in signed arithmetic; the model takes its magnitude.
- Formatter.CollectArguments: the printf branch of the loop, which gives no command here.
- Formatter.FormatCommand: conversions other than `%s`, `%b` and `%%` give no command here; the source passes them to printf. A format is the text in front of its NUL.
- Formatter.FormatCommandArgv: totals over INT_MAX, which the source cuts to `int`.
- AsyncContext: publish and subscribe, monitor, connect and disconnect callbacks, timers, contexts without automatic freeing, and allocation failure; the event loop is any sequence of reads, writes and errors, and a callback's body is any sequence of commands, disconnects and frees.
- Dicts.NextPower: sizes from LONG_MAX on, for which the source returns LONG_MAX; no such table can be allocated.
- Dicts: the hash function and the equality of keys are parameters; copying and destroying of keys and values; the iterator's signed comparison beyond 2^31 buckets; `_dictClear` and `dictRelease` would add only easy members.
- Deadlock: the list of edges of a vertex is a sequence, so relinking and freeing of its nodes is not shown; at most 100 vertices is a duty of the caller, as the source does not test it; `verify_edge`, the lock hooks and the thread that calls the check are not modelled, and the claims are about the graph, not about the locks.
- AsyncLogging: the file, its rolling and flushing, timestamps, and the text still buffered when the writer is stopped; waiting on the condition is no step of its own, since the writer may run at any time.
- Quote: character classes are those of the "C" locale; allocation failure.
- sds.c: growing, trimming, ranges and joining of strings, and the thread pools, memory pool, network code and client wrappers of the repository would add only easy members or concern code that is not part of this model.
