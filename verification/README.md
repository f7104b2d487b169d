# Models of the push server's protocol code

The server relays messages between HTTP clients and Redis. Its own code is thin; what can go
wrong lies in the parsers, queues and indexes below it. This project models those in Dafny and
proves what they are for. `dafny verify dfyconfig.toml` checks all of it.

Each component has a specification (a state machine, a grammar or a recursive meaning, all
functions on values) and, where the program works by changing things in place, classes and
loops of the program's own shape whose contracts say that they do what the specification says.
The main theorems are about the specification, and hold of the code through those contracts.

**The bounded queue and the log worker** (`PositionBits`, `MpmcQueue`, `MpmcBoundedQueue`,
`LogWorker`, `AsyncLogHelper`). Every load, compare-exchange, move and store of `enqueue` and
`dequeue` is one atomic step of one thread, and a run is any sequence of steps of any number of
threads; a weak exchange may also fail for no reason. One inductive invariant ties both positions,
every `sequence_` and every thread's program counter together. From it follow exactly-once
first-in first-out delivery, the exact conditions under which a call returns false, and, for the
log worker on top, the drain on shutdown and the conservation of messages. The queue object and
the helper's own retry and worker loops are proved against the same functions for runs without
interleaving.

**The Redis protocol** (`Resp`, `RespDecode`, `RespNumbers`, `RedisParser`, `RespStream`,
`RespCommand`, `RedisClient`, `RedisSync`, `Mailbox`, `MailboxClient`, `MailboxReader`). The
incremental parser with its two stacks and its mutually recursive methods is proved to be a
machine that takes one byte at a time, and that machine to be a recursive-descent decoder of the
whole stream. So reads may cut the stream anywhere. Commands printed by the client read back as
themselves, and the pipelined client hands the k-th reply to the k-th handler, also when handlers
issue commands themselves. The mailbox is the push-then-trim protocol, and `MailboxClient` shows
that this client, its handlers and a server that decodes its bytes are that protocol;
`MailboxReader` says what fetching it can lose.

**The URL trie and the router** (`UrlPatterns`, `TrieNodes`, `TrieMerge`, `TrieSearch`, `UrlTrie`,
`UrlRouter`, `UrlRedirect`). A rule is a list of tokens, and a trie holds a rule if its tokens
lead to a node with the rule's index. Adding, merging edges and searching, in any order, are
proved against that relation, and the router's answer is that of trying every rule in turn. `UrlRedirect` follows a
redirect to the answer of the redirected URL.

**The HTTP request parser** (`HttpTables`, `HttpTurns`, `HttpMachine`, `HttpInvariant`,
`HttpBody`, `HttpBuilder`, `HttpParser`, `HttpFeed`, `HttpLengths`, `HttpChunkSizes`,
`HttpMethods`, `HttpNames`, `HttpValues`, `HttpLines`, `HttpHeaders`, `HttpUrl`, `HttpFirstLine`,
`HttpRequests`, `HttpLost`). `HttpTurns` lists what one visit of each state does with a byte, and
`HttpMachine` runs it with a log in which adjacent pieces of one element are joined. The parser
itself, with marks into the current buffer, bulk skips over bodies and `goto reexecute_byte`, is
proved to end every buffer as that machine does. On the machine: segmentation is invisible, no
internal assertion can fail, lengths are the numbers written, and requests with any URL the code
accepts, any version, headers continued or not, and a body of a length or chunks with extensions
and trailers are handed over, any number of them on one connection; one that asks for an upgrade is
handed over last. Which headers get lost on the way is said exactly.

**The decimal printer** (`DecimalFormat`, `DecimalWriter`), **JSON** (`JsonText`, `JsonSyntax`,
`JsonPrint`, `JsonLoad`, `JsonCells`, `JsonParser`, `JsonDump`) and **Mustache templates**
(`MustacheTree`, `MustacheActions`, `MustacheLex`, `MustacheBlocks`, `MustacheNesting`,
`MustacheStandalone`, `MustacheParse`, `MustacheText`, `MustacheRender`). The JSON parser cuts strings out of its
own buffer and unescapes them there; a parsed value is therefore a set of cells, and the proofs
say which cells each step may touch. Templates compile to a flat array of actions with jump
targets, which a loop runs with an explicit context stack; its meaning is a section tree rendered
by recursion, and that tree is what recursive descent finds in the tags of the text. Partials are
compiled when they are reached, so rendering need not end; what is proved holds whenever it does. `Bytes` and
`Options` hold what several of them use.

## Where the code does not do what one would expect

The model follows the code. Each point is a theorem with the condition, and a lemma at an input
that shows it.

- A header with an empty value is lost if another header follows it, since its name is
  overwritten before it is stored (`HttpRequests.HeadersArrive`; `HttpLost.HeaderWithoutValue`
  loses `A` of the lines `A: ` and `B: x`).
- The last trailer of a chunked body is always lost, and so are trailers without a value: nothing
  stores them when the message is complete (`HttpRequests.HeadersArrive`,
  `HttpHeaders.ChunkedBody`; `HttpLost.TrailerIsLost`).
- A URL redirected to its trailing slash is redirected again if and only if a redirect entry
  matches the new URL as well. After an entry with a path parameter that is always so, without
  end (`UrlRedirect.RedirectAnswered`, `UrlRedirect.RedirectsForever`; `UrlRedirect.PathRedirectLoops`,
  `UrlRedirect.StrRedirectLoops`).
- A rule added when `validate` has merged edges is refused only if its characters lead, one at a
  time, to a rule; an equal rule behind a merged edge goes unnoticed. Of the two the smaller index
  answers: the earlier rule, or the redirect of a later one (`UrlTrie.Trie.Add`,
  `UrlRouter.Router.AddRule`; `UrlTrie.MergedRuleNotTaken`).
- The loop over a rule's characters ends if and only if every `<` in it starts a known tag; at any
  other it stands still (`UrlPatterns.LoopEnds`, `UrlPatterns.StandsStill`).
- A template that begins by inserting itself is never rendered to its end; without cycles rendering
  ends (`MustacheTree.RankedEnds`, `MustacheTree.InsertsItself`).
- A synchronous Redis call drops whatever its last read holds behind the reply, so the next call
  is in step if and only if a read ends where the reply does (`RedisSync.NextCallInStep`;
  `RedisSync.SecondReplyLost`).
- GetMsg clears the list on another connection than it reads it, so it drops messages unread if and
  only if some were pushed between; a client alone with its mailbox, if and only if pushes of its
  own are still outstanding (`MailboxReader.ClearedUnread`, `MailboxReader.GetMsgLoses`;
  `MailboxReader.SentAndLost`).
- An integer reply is the number written if and only if that lies in -2^31 .. 2^31-1; any other is
  narrowed to its low 32 bits, those of the saturated number beyond 64 bits
  (`RespNumbers.IntegerReply`; `RespNumbers.IntegerOverflows` reads `:2147483648`).
- A length field is read to its end if and only if it is an optional minus and digits; otherwise its
  longest such beginning counts, and 0 if there is none (`RespNumbers.WholeField`,
  `RespNumbers.StrtolReadsPrefix`; `RespNumbers.SizeWithoutNumber` reads `$-` and `$1-2`). The null
  array `*-1` is not told from an empty one (`RespNumbers.ArraySize`, `RespNumbers.NullArrayIsEmpty`).
- The table of hexadecimal digits lists 128 of its 256 entries, so that a chunk size the parser takes
  is made of hexadecimal digits if and only if no byte is 128 or above
  (`HttpChunkSizes.SizeIsNumber`; `HttpChunkSizes.ByteCountsAsZero`).

Two limits of the queue are not met in practice. Its signed difference is right only while
positions are less than half a lap of the machine word apart (`PositionBits.WrappedDifference`).
The two positions are never further apart than the buffer is long (`MpmcQueue.PositionsBounded`),
so only a thread that sleeps through 2^63 operations between two loads would see it fail. With a
single cell the protocol would lose items (`MpmcQueue.OneCellLosesAnItem`); the constructor
refuses that size.

## Model

| member | source | states |
|---|---|---|
| `PositionBits.MaskIsRemainder` | include/spdlog/details/mpmc_bounded_q.h:86 | masking a position with `2^k - 1` gives its remainder by `2^k`, for every position |
| `PositionBits.PowerOfTwoTest` | include/spdlog/details/mpmc_bounded_q.h:65 | whatever passes `n & (n - 1) == 0` is a power of two |
| `PositionBits.PowerOfTwoPasses` | include/spdlog/details/mpmc_bounded_q.h:65-66 | every power of two passes the test |
| `PositionBits.WrappedDifference` | include/spdlog/details/mpmc_bounded_q.h:88 | the signed 64-bit difference is the true difference of two unbounded positions exactly if they are less than half a lap of the word apart |
| `PositionBits.MaskOfWrapped` | include/spdlog/details/mpmc_bounded_q.h:114 | a position that has wrapped at 64 bits still selects the cell of the unbounded one |
| `MpmcQueue.InitInv` | include/spdlog/details/mpmc_bounded_q.h:60-72 | the constructed queue satisfies the protocol invariant |
| `MpmcQueue.StepInv` | include/spdlog/details/mpmc_bounded_q.h:80-131 | every atomic step of every thread keeps the invariant tying both positions, all sequences and all program counters |
| `MpmcQueue.RunInv` | include/spdlog/details/mpmc_bounded_q.h:80-131 | the invariant holds after any interleaving of any number of producers and consumers |
| `MpmcQueue.FreeCell` | include/spdlog/details/mpmc_bounded_q.h:86-91 | a compare-exchange that succeeds finds its cell free: the ticket one lap before was released |
| `MpmcQueue.PublishedCell` | include/spdlog/details/mpmc_bounded_q.h:114-120 | a dequeue compare-exchange that succeeds finds in its cell exactly the item enqueued at its ticket |
| `MpmcQueue.TicketHoldersUseDifferentCells` | include/spdlog/details/mpmc_bounded_q.h:91-104 | two threads are never between their compare-exchange and their sequence store on one cell, in any run |
| `MpmcQueue.PositionsBounded` | include/spdlog/details/mpmc_bounded_q.h:80-131 | `dequeue_pos_ <= enqueue_pos_ <= dequeue_pos_ + N` in every reachable state |
| `MpmcQueue.EnqueueReturns` | include/spdlog/details/mpmc_bounded_q.h:80-106 | a run contains the return of enqueue ticket p if and only if p is open before it and closed after it |
| `MpmcQueue.DequeueReturns` | include/spdlog/details/mpmc_bounded_q.h:108-131 | a dequeue returns item x for ticket p during a run if and only if the run delivers x at p; a delivered ticket is never delivered again |
| `MpmcQueue.NoTicketReturnedTwice` | include/spdlog/details/mpmc_bounded_q.h:80-131 | no two returns of one run are for the same enqueue ticket or the same dequeue ticket |
| `MpmcQueue.DequeueReturnsClaim` | include/spdlog/details/mpmc_bounded_q.h:108-131 | first in first out, exactly once: the item returned for ticket p is that of the p-th successful enqueue compare-exchange |
| `MpmcQueue.QuiescentRun` | include/spdlog/details/mpmc_bounded_q.h:80-131 | when all calls have returned, tickets returned are exactly 0..enqueue_pos_ and 0..dequeue_pos_, each with its own item, and the rest lie in the cells |
| `MpmcQueue.EnqueuesFollowCallOrder` | include/spdlog/details/mpmc_bounded_q.h:80-106 | an enqueue called after another has returned gets the later ticket |
| `MpmcQueue.DequeuesFollowCallOrder` | include/spdlog/details/mpmc_bounded_q.h:108-131 | a dequeue called after another has returned gets the later ticket |
| `MpmcQueue.EnqueueFailsIff` | include/spdlog/details/mpmc_bounded_q.h:83-97 | `enqueue` returns false exactly if its position is still `enqueue_pos_` and the ticket one lap before is not released |
| `MpmcQueue.DequeueFailsIff` | include/spdlog/details/mpmc_bounded_q.h:111-124 | `dequeue` returns false exactly if its position is still `dequeue_pos_` and that ticket is unclaimed or unpublished |
| `MpmcQueue.OneCellLosesAnItem` | include/spdlog/details/mpmc_bounded_q.h:65-66 | why one cell is refused: two enqueues in a row would both succeed and the first item would be gone |
| `MpmcQueue.QuiescentIsQuiet` | include/spdlog/details/mpmc_bounded_q.h:134-149 | a quiescent state of the machine is a ring that stores exactly the items claimed and not taken, in claim order |
| `MpmcBoundedQueue.BoundedQueue.constructor` | include/spdlog/details/mpmc_bounded_q.h:60-72 | the ring starts empty with sequences 0..N-1 |
| `MpmcBoundedQueue.BoundedQueue.Create` | include/spdlog/details/mpmc_bounded_q.h:64-66 | construction fails exactly for sizes that are below 2 or no power of two |
| `MpmcBoundedQueue.BoundedQueue.Enqueue` | include/spdlog/details/mpmc_bounded_q.h:80-106 | without other threads: succeeds exactly if the ring is not full and appends the item, however often the weak exchange fails |
| `MpmcBoundedQueue.BoundedQueue.Dequeue` | include/spdlog/details/mpmc_bounded_q.h:108-131 | without other threads: succeeds exactly if the ring is not empty and takes the oldest item |
| `LogWorker.StartInv` | include/spdlog/details/async_log_helper.h:181-197 | the helper starts with nothing processed and the worker invariant |
| `LogWorker.SystemStepInv` | include/spdlog/details/async_log_helper.h:222-316 | every step of a client or the worker keeps: sinks have seen exactly the texts of the processed tickets, flags agree with the messages processed |
| `LogWorker.SystemRunInv` | include/spdlog/details/async_log_helper.h:222-316 | the same in every interleaving of clients and worker |
| `LogWorker.DrainOnShutdown` | include/spdlog/details/async_log_helper.h:263-316 | when the worker loop has ended, every log message ticketed before the one terminate message was logged once, in ticket order, and the sinks were flushed last |
| `LogWorker.ClientStepConserves` | include/spdlog/details/async_log_helper.h:222-237 | a step of `push_msg` neither loses nor duplicates its message |
| `LogWorker.NothingLost` | include/spdlog/details/async_log_helper.h:222-237 | for every message: pushes = tickets + pushes under way + drops, and under block_retry nothing is dropped |
| `AsyncLogHelper.ProcessAllLogs` | include/spdlog/details/async_log_helper.h:271-292 | handling messages one after the other logs each text once, in order; the flags say exactly what was asked for |
| `AsyncLogHelper.Helper.constructor` | include/spdlog/details/async_log_helper.h:181-197 | nothing requested, nothing logged |
| `AsyncLogHelper.Helper.PushMsg` | include/spdlog/details/async_log_helper.h:221-237 | a message is refused only by a full queue under discard_log_msg; otherwise, whatever the worker and other threads do during each sleep, it waits behind all that are there when a sleep has made room |
| `AsyncLogHelper.RoomyLosesNothing` | include/spdlog/details/async_log_helper.h:225-235 | whatever goes on during the sleeps, every text is logged or queued once, in order: those of before, then those of other threads that found room |
| `AsyncLogHelper.Helper.RetryLoop` | include/spdlog/details/async_log_helper.h:225-235 | the retry loop, begun with a full queue, ends at the first sleep that leaves room, with the message behind all that are then queued |
| `AsyncLogHelper.Helper.Retry` | include/spdlog/details/async_log_helper.h:229-235 | one round of the retry loop succeeds exactly if there is room after what goes on meanwhile |
| `AsyncLogHelper.Helper.ProcessNextMsg` | include/spdlog/details/async_log_helper.h:264-304 | the oldest message is handled, or, only when the queue is empty, the sinks are flushed and the loop may stop |
| `AsyncLogHelper.Helper.HandleFlushInterval` | include/spdlog/details/async_log_helper.h:306-316 | flushes exactly if a flush was requested or is due |
| `AsyncLogHelper.Helper.WorkerLoop` | include/spdlog/details/async_log_helper.h:244-261 | with a terminate message on its way the loop ends with the queue empty; everything queued, and everything other threads push before its last look at the queue, is logged once and in order, and a flush is last |
| `Resp.RunSplit` | src/redis_parser.cpp:102-440 | the reply machine cannot tell where a stream was cut |
| `Resp.CloseEnclosed` | src/redis_parser.cpp:70-99 | finishing a value inside one more enclosing array is finishing it alone and handing the result on |
| `Resp.RunEnclosed` | src/redis_parser.cpp:19-100 | reading inside a suspended array is reading the inner reply alone and then letting the array go on |
| `Resp.RunBulk` | src/redis_parser.cpp:244-295 | taking a stretch of bulk bytes at once is taking them one at a time |
| `RespDecode.DecodeIsRun` | src/redis_parser.cpp:11-440 | on every input the byte machine and a recursive-descent decoder agree on value, length and offset of the first error |
| `RespNumbers.StrtolReadsPrefix` | src/redis_parser.cpp:217-222 | a number field is read as its longest numeral at the start, saturated to 64 bits, and as 0 if there is none |
| `RespNumbers.WholeField` | src/redis_parser.cpp:217-222 | a field is read to its end if and only if it is an optional minus and digits, and then as the number written if and only if that fits 64 bits |
| `RespNumbers.IntegerReply` | src/redis_parser.cpp:413-425 | an integer reply is delivered as the number written if and only if it lies in -2^31 .. 2^31-1; otherwise as the low 32 bits of it, or of the saturated number |
| `RespNumbers.BulkSize` | src/redis_parser.cpp:217-250 | a bulk size that is a numeral: -1 is nil, a smaller one an error, any other is followed by exactly that many bytes |
| `RespNumbers.ArraySize` | src/redis_parser.cpp:344-400 | an array size likewise, except that -1 is an empty array |
| `RespNumbers.IntegerOverflows` | src/redis_parser.cpp:413-425 | `:2147483648` is delivered as -2147483648 |
| `RespNumbers.SizeWithoutNumber` | src/redis_parser.cpp:217-250 | `$-` is a size of 0, and of `$1-2` only the 1 is read |
| `RespNumbers.NullArrayIsEmpty` | src/redis_parser.cpp:344-400 | `*-1` is read as `*0` is |
| `RedisParser.RedisParser.constructor` | src/redis_parser.cpp:6-9 | a new parser stands for the fresh machine |
| `RedisParser.RedisParser.LineByte` | src/redis_parser.cpp:137-189 | a byte inside a line extends it, ends it or is refused, as the machine does |
| `RedisParser.RedisParser.SizeEnd` | src/redis_parser.cpp:217-382 | a length field means nil, an empty or non-empty body, an array, or an error, as its longest valid prefix says |
| `RedisParser.RedisParser.ResumeBody` | src/redis_parser.cpp:272-296 | a suspended bulk body takes exactly the bytes that continue it; the copied range is right because it is only resumed at offset 0 |
| `RedisParser.RedisParser.ParseChunk` | src/redis_parser.cpp:102-440 | one reply, or the part of it that is there, ends as the machine run over the same bytes; called only with both stacks empty |
| `RedisParser.RedisParser.ParseItems` | src/redis_parser.cpp:68-99 | the remaining items of an array are read, or the array is suspended on both stacks |
| `RedisParser.RedisParser.ParseArray` | src/redis_parser.cpp:19-100 | resuming arrays suspended on the stacks, outermost on top, ends as the machine resumed from those frames |
| `RedisParser.RedisParser.Parse` | src/redis_parser.cpp:11-17 | for every suspended parser and buffer: Completed, Incompleted (all bytes used) or Error (at the offending byte) exactly as the machine; the mutual recursion terminates |
| `RedisParser.RedisParser.Result` | src/redis_parser.cpp:442-457 | the completed reply is taken off the value stack |
| `RedisParser.PushFrame` | include/redis/redis_parser.h:61-64 | the top of the two stacks is the outermost suspended array |
| `RespStream.FeedSplit` | src/redis_client_impl.cpp:256-276 | the read loop over two reads in a row is the read loop over their concatenation |
| `RespStream.ReadsDoNotMatter` | src/redis_client_impl.cpp:256-278 | however a stream is cut into reads, the loop yields the same replies, suspended parser and first error offset |
| `RespStream.FeedDecodes` | src/redis_client_impl.cpp:256-278 | the replies of the read loop are those of recursive descent over the whole stream |
| `RespStream.StreamDecodes` | src/redis_client_impl.cpp:256-278 | both together: any division of a stream yields the decoder's replies and first error |
| `RespCommand.MakeCommand` | src/redis_client_impl.cpp:157-178 | the printing loop yields an array header and one bulk string for each item, for all byte strings |
| `RespCommand.StrtolOfDecimal` | src/redis_client_impl.cpp:164-171 | a printed size is read back as the same number |
| `RespCommand.CommandRoundTrip` | src/redis_client_impl.cpp:157-178 | a printed command, followed by anything, decodes to the array of exactly its byte strings and takes exactly its own bytes |
| `RespCommand.CommandCompletesOnce` | src/redis_client_impl.cpp:157-178 | under any division into reads a command completes once, at its last byte; no proper prefix completes or fails |
| `RedisClient.RedisClient.constructor` | src/redis_client_impl.cpp:141-149 | a connected client with nothing outstanding |
| `RedisClient.RedisClient.DoAsyncCommand` | src/redis_client_impl.cpp:229-246 | a command joins the queue and the handlers; it is written at once exactly if the queue was empty; all this also inside a handler whose own entry is still in front |
| `RedisClient.RedisClient.AsyncWrite` | src/redis_client_impl.cpp:120-139 | the queue is not empty when a write completes (the assertion holds); writes go out in command order |
| `RedisClient.WriteFinished` | src/redis_client_impl.cpp:128-138 | a write is outstanding exactly when the queue is not empty, and the next one is the next command |
| `RedisClient.RedisClient.DoProcessMessage` | src/redis_client_impl.cpp:100-117 | a reply goes to the longest waiting handler, which may issue commands and is taken off the queue after it has run; a reply that finds no handler is an error |
| `RedisClient.RedisClient.RunHandler` | src/database_manager.cpp:109-117 | the commands a handler issues queue up behind all others, handlers and writes alike, while its own entry is still in front |
| `RedisClient.AttendAllInTurn` | src/redis_client_impl.cpp:100-117 | replies are handed over in command order, whatever commands the handlers issue meanwhile |
| `RedisClient.EnoughHandlers` | src/redis_client_impl.cpp:100-117 | no more replies than waiting handlers: none finds the client without a handler |
| `RedisClient.RedisClient.AsyncRead` | src/redis_client_impl.cpp:248-280 | a read fails exactly if it is empty, malformed, or has a reply that finds no handler waiting, those queued by handlers during the read included; otherwise every reply reaches its handler |
| `RedisClient.RedisClient.KthReply` | src/redis_client_impl.cpp:229-280 | in every run, commands issued by handlers included, the k-th handler call is that of the k-th command, with the k-th reply decoded from all bytes received; waiting handlers are commands minus replies, and writes are the first commands in order |
| `RedisSync.ReadsToFirstReply` | src/redis_client_impl.cpp:201-225 | however the stream is cut, a synchronous call answers with its first reply and takes the reads up to the one it ends in |
| `RedisSync.SyncClient.DoSyncCommand` | src/redis_client_impl.cpp:180-227 | the command is written and the answer, and the reads taken, are those of the first reply of the stream; when the write fails nothing is read and the parser is as it was |
| `RedisSync.NextCallInStep` | src/redis_client_impl.cpp:201-214 | the next call goes on where the first reply ended if and only if some read ends exactly there |
| `RedisSync.NextAnswer` | src/redis_client_impl.cpp:201-214 | the next call answers with the first reply of the stream behind the bytes taken, the dropped ones included; with the second reply if a read ends where the first one does |
| `RedisSync.CallsInStep` | src/redis_client_impl.cpp:180-227 | if every reply ends where a read ends, the n-th call answers with the n-th reply of the stream |
| `RedisSync.SecondReplyLost` | src/redis_client_impl.cpp:210-213 | a read with two replies in it loses the second: the next call returns the third |
| `Mailbox.StepInv` | src/database_manager.cpp:102-124 | every AddMsg, server step and reply keeps: the list is the newest messages, at least 100 or all, and if longer than 100 a trim is pending |
| `Mailbox.LongListIsTrimmed` | src/database_manager.cpp:109-117 | in every run a list longer than 100 has a trim, or a push reply that will cause one, still pending |
| `Mailbox.NoneLost` | src/database_manager.cpp:102-124 | messages pushed followed by messages waiting are the messages sent, in order |
| `Mailbox.QuietMailbox` | src/database_manager.cpp:102-124 | when nothing is outstanding the list is exactly the newest min(n, 100) messages, newest first |
| `MailboxClient.AddMsg` | src/database_manager.cpp:102-124 | AddMsg issues one push command of the pipelining client, for a handler of its own |
| `MailboxClient.ReactionTo` | src/database_manager.cpp:109-122 | the handler of a push issues a trim exactly when the reply is a length above 99; the handler of a trim issues nothing |
| `MailboxClient.ServedPush` | src/database_manager.cpp:109-111 | the bytes of a push, decoded by the server, push exactly that message |
| `MailboxClient.ServedTrim` | src/database_manager.cpp:112-115 | the bytes of a trim, decoded by the server, keep the first 100 |
| `MailboxClient.StepShows` | src/database_manager.cpp:102-124 | every step of the client with its handlers, and of the server, is that step of the mailbox |
| `MailboxClient.ClientMailbox` | src/database_manager.cpp:102-124 | in every run of the client no reply finds it without a handler, and when no handler waits the server has the newest min(n, 100) messages, newest first |
| `MailboxReader.UnreadAreNewest` | src/database_manager.cpp:102-137 | what nobody has read since the list was fetched are the newest of the messages pushed since, and trims take none of the newest hundred |
| `MailboxReader.ClearedUnread` | src/database_manager.cpp:126-137 | of the messages pushed between the fetching and the clearing exactly the newest, up to a hundred, are cleared unread; none if and only if none was pushed |
| `MailboxReader.GetMsgLoses` | src/database_manager.cpp:102-137 | a client alone with its mailbox loses messages by GetMsg if and only if some of its own pushes are not executed yet |
| `MailboxReader.SentAndLost` | src/database_manager.cpp:102-137 | a message sent just before GetMsg is in no answer and not in the list |
| `UrlPatterns.MatchText` | include/crow/routing.h:627-637 | matching a label character by character is one comparison of the label with the URL |
| `TrieNodes.HasStep` | include/crow/routing.h:519-640 | what a node holds is its own rule and what its parameter and edge branches hold, nothing else |
| `UrlPatterns.LoopEnds` | include/crow/routing.h:646-692 | the loop over the characters of a rule ends if and only if every `<` starts a known tag |
| `TrieNodes.ReachUnique` | include/crow/routing.h:436-454 | where labels are prefix-free a token list leads to at most one node |
| `TrieNodes.ChildAdded` | include/crow/routing.h:664-690 | a new child keeps the paths of all nodes; edges that can still be merged stay single characters |
| `TrieNodes.HasRuleSet` | include/crow/routing.h:694-696 | storing an index in a node that had none adds exactly that rule |
| `UrlTrie.Trie.constructor` | include/crow/routing.h:456-458 | an empty trie holds no rule |
| `UrlTrie.Trie.Descend` | include/crow/routing.h:666-692 | going down by one token, creating a node if need be, changes nothing that is held |
| `UrlTrie.Trie.Add` | include/crow/routing.h:642-697 | adds exactly the given rule under its tokens, before or after edges are merged; fails exactly if the tokens, one at a time, lead to a node with a rule, which until edges are merged is so exactly if the tokens hold one |
| `UrlTrie.MergedRuleNotTaken` | include/crow/routing.h:642-697 | the rule `/a`, held by a merged edge, is not refused a second time |
| `UrlTrie.FindTag` | include/crow/routing.h:651-679 | the tag found is the first of the table that stands at the position |
| `TrieMerge.MergedLabels` | include/crow/routing.h:484-492 | two merged labels of which one is a prefix of the other come from the same edge of the node, and of its child if the labels of that are prefix-free |
| `TrieMerge.MergedMergeable` | include/crow/routing.h:472-494 | after a merge the labels are prefix-free or one of the edges leads to a node that cannot be merged away |
| `TrieMerge.TouchedSettled` | include/crow/routing.h:461-504 | after optimizing, a node whose edges can still be merged has edges of one character, as after adding |
| `TrieMerge.MergeOneMore` | include/crow/routing.h:490 | merging one more pair of edges never overwrites a merged edge |
| `TrieMerge.MergedHas` | include/crow/routing.h:482-494 | merging a node whose children are all simple keeps every rule it holds |
| `TrieMerge.HasAbove` | include/crow/routing.h:461-504 | rewriting one node that keeps what it holds keeps what every other node holds |
| `TrieMerge.MergedIsOptimized` | include/crow/routing.h:482-494 | one merge keeps well-formedness, indices, parameters, finished nodes and every rule of every node |
| `UrlTrie.MergeChildren` | include/crow/routing.h:484-493 | the double loop computes exactly the merged edges |
| `UrlTrie.AllSimple` | include/crow/routing.h:472-481 | the scan answers whether all children are simple |
| `UrlTrie.Trie.OptimizeNode` | include/crow/routing.h:461-504 | terminates; every node holds the same rules as before and keeps its path, and nothing is left to merge below |
| `UrlTrie.Trie.Validate` | include/crow/routing.h:512-517 | refuses exactly a head that is not simple; otherwise optimizes everything, keeping every rule, also when rules were added since the last time |
| `UrlTrie.ScanParam` | include/crow/routing.h:542-625 | the parameter found at a position and its end, for each of the five kinds |
| `TrieSearch.BetterIsBest` | include/crow/routing.h:533-540 | keeping the smaller non-zero index combines the best answers of two sets of branches |
| `TrieSearch.ParamBranch` | include/crow/routing.h:542-625 | the best answer of a parameter branch is the child's best answer from the end of the parameter |
| `TrieSearch.EdgeBranch` | include/crow/routing.h:627-637 | the best answer of an edge is the child's best answer from behind its label |
| `TrieSearch.AllBranches` | include/crow/routing.h:542-639 | the branches tried are all the ways a rule can match |
| `UrlTrie.Trie.Find` | include/crow/routing.h:519-640 | returns the smallest matching rule index below the node with the parameters of a match, 0 if none; `params` is as before on every return |
| `UrlTrie.Trie.FindByParam` | include/crow/routing.h:542-625 | the same for one parameter kind |
| `UrlTrie.Trie.FindByEdge` | include/crow/routing.h:627-637 | the same for one edge |
| `UrlRouter.Router.AddRule` | include/crow/routing.h:791-804 | a rule, and for a trailing slash the redirect entry without it; which of the two is refused when taken; one that is taken but not refused counts only if its index is smaller |
| `UrlRouter.Router.AddEntry` | include/crow/routing.h:794-802 | one entry of trie and table together; refused exactly if the trie refuses it, before edges are merged exactly if the tokens are taken |
| `UrlRouter.Router.Validate` | include/crow/routing.h:806-814 | optimizing the trie leaves the table of rules as it is |
| `UrlRouter.Router.Find` | include/crow/routing.h:818-820 | the answer of the trie is that of trying every rule in turn: the smallest matching index, with its parameters |
| `UrlRouter.Router.Dispatch` | include/crow/routing.h:816-865 | not found, redirect or serve, exactly as the smallest matching rule and its methods say; the index is always in range |
| `UrlRouter.BestIsSmallest` | include/crow/routing.h:519-640 | the best answer of a trie that holds a table is the smallest matching rule of the table |
| `UrlRouter.OwnParameters` | include/crow/routing.h:519-640 | for an index of 2 or more the parameters are those of that rule's own left-to-right match |
| `UrlRouter.TokensDropSlash` | include/crow/routing.h:798-802 | a rule without its trailing slash has the same tokens less the slash |
| `UrlRedirect.RedirectLands` | include/crow/routing.h:796-803 | a URL matched by a rule without its slash is, with the slash, matched by the rule with the slash and the same parameters exactly if the rule has no path parameter |
| `UrlRedirect.PathTakesSlash` | include/crow/routing.h:590-607 | a rule with a path parameter that matches a URL also matches it with a slash appended |
| `UrlRedirect.SmallestRedirects` | include/crow/routing.h:824-846 | the router redirects exactly if any redirect entry matches |
| `UrlRedirect.RedirectAnswered` | include/crow/routing.h:816-865 | a redirected URL is redirected again if and only if a redirect entry matches it with the slash too, always so after an entry with a path parameter; otherwise it is answered by the rule whose slash was missing or a smaller one, never as unmatched |
| `UrlRedirect.RedirectsForever` | include/crow/routing.h:833-846 | after a redirect by an entry with a path parameter every further URL is redirected again |
| `UrlRedirect.PathRedirectLoops` | include/crow/routing.h:796-803 | with the rule `/<path>/` alone `/x` is redirected to `/x/`, which is redirected again |
| `UrlRedirect.StrRedirectLoops` | include/crow/routing.h:796-803 | with the rules `/<str>/` and `/<path>/` the URL `/x/` matches the first rule, but is redirected |
| `HttpTurns.RankFalls` | include/crow/http_parser_merged.h:979-2206 | every `goto reexecute_byte` goes to a state of lower rank, so a byte is consumed or the parser leaves |
| `HttpInvariant.EveryTurnOk` | include/crow/http_parser_merged.h:979-2206 | no visit of a reachable state fails an internal assertion, and the fields stay in range |
| `HttpInvariant.EveryTurnFits` | include/crow/http_parser_merged.h:1355-2193 | marks and callbacks fit the element being read before and after every visit |
| `HttpInvariant.RunOk` | include/crow/http_parser_merged.h:957-2207 | for every input: no assertion fails, lengths stay at most the sentinel, and a chunk starts with `nread` 1 |
| `HttpInvariant.SwitchOk` | include/crow/http_parser_merged.h:1279-1345 | a letter that leads to another method agrees with all letters before it |
| `HttpMachine.RunSplit` | include/crow/http_parser_merged.h:957-2231 | the byte machine cannot tell where a stream was cut |
| `HttpMachine.EmitTwice` | include/crow/http_parser_merged.h:408-433 | delivering an element in two pieces logs what delivering it whole logs |
| `HttpBody.RunData` | include/crow/http_parser_merged.h:2036-2185 | a stretch of body bytes taken at once is the same as byte by byte, including the completion at its last byte |
| `HttpBuilder.BuildEmit` | include/crow/parser.h:23-78 | the request builder cannot tell joined pieces from the pieces |
| `HttpBuilder.BeforeQuery` | include/crow/parser.h:84 | the URL up to the first question mark |
| `HttpParsing.HttpParser.constructor` | include/crow/parser.h:90-94 | a new parser waits for a request |
| `HttpParsing.HttpParser.OnData` | include/crow/parser.h:23-78 | the data callbacks do what the builder function says |
| `HttpParsing.HttpParser.OnNotify` | include/crow/parser.h:17-89 | the notifications do what the builder function says |
| `HttpParsing.HttpParser.Callback` | include/crow/http_parser_merged.h:408-433 | a data callback delivers the marked bytes and clears the mark |
| `HttpParsing.HttpParser.Perform` | include/crow/http_parser_merged.h:408-441 | marks, data callbacks and notifications of one visit amount to the log of the machine |
| `HttpParsing.HttpParser.Visit` | include/crow/http_parser_merged.h:979-2206 | the switch with its jumps back is the machine's visits of one byte |
| `HttpParsing.HttpParser.ReadData` | include/crow/http_parser_merged.h:2036-2185 | the bulk reads take min(length, what is there) bytes and do what the machine does with each of them |
| `HttpParsing.HttpParser.ReadByte` | include/crow/http_parser_merged.h:957-2207 | one byte with the header limit, as the machine reads it |
| `HttpParsing.HttpParser.Leftovers` | include/crow/http_parser_merged.h:2219-2229 | at most one mark is left at the end of a buffer, and what it marks is delivered |
| `HttpParsing.HttpParser.Execute` | include/crow/http_parser_merged.h:831-2239 | over any buffer the parser with marks and bulk reads ends with the state, log, error and byte count of the byte machine |
| `HttpFeed.Feed` | include/crow/parser.h:97-112 | `feed` is false exactly on an error, unless the parser leaves for an upgrade |
| `HttpFeed.FeedAll` | include/crow/parser.h:97-112 | segmentation is invisible: any non-empty pieces leave the fields, events and assembled request of the whole stream, and meet an error at the same byte |
| `HttpMethods.MethodIsItsName` | include/crow/http_parser_merged.h:1225-1349 | a word accepted as a method is the name of the method recorded |
| `HttpMethods.MethodIsRead` | include/crow/http_parser_merged.h:1225-1349 | every method of the table is read as itself and begins a new message |
| `HttpNames.NameRecognised` | include/crow/http_parser_merged.h:1560-1702 | a header name is recognised exactly if it is, in any case, one of the five names acted on |
| `HttpValues.ValueRecognised` | include/crow/http_parser_merged.h:1741-1885 | after any value of Transfer-Encoding or Connection the matcher says exactly whether the value is `chunked`, `keep-alive` or `close` |
| `HttpLengths.ContentLengthIsNumber` | include/crow/http_parser_merged.h:1765-1842 | a Content-Length is the decimal number of its digits, spaces skipped; refused exactly when over the limit, never wrapped and never the sentinel |
| `HttpLengths.ChunkSizeIsNumber` | include/crow/http_parser_merged.h:2100-2135 | a chunk size is the number its digits write; refused exactly when over the limit |
| `HttpChunkSizes.SizeIsNumber` | include/crow/http_parser_merged.h:885-894 | a size the parser takes is made of hexadecimal digits if and only if no byte is 128 or above, and is then the number they write |
| `HttpChunkSizes.ByteCountsAsZero` | include/crow/http_parser_merged.h:885-894 | a chunk whose size is byte 128 and `1` is taken as a chunk of one byte |
| `HttpLengths.ExtensionRead` | include/crow/http_parser_merged.h:2121-2146 | a chunk extension is skipped up to the end of its line |
| `HttpLengths.SizeLine` | include/crow/http_parser_merged.h:2084-2162 | a size line, with an extension or without, announces exactly its number of bytes; zero leads to the trailers |
| `HttpLengths.ChunkArrives` | include/crow/http_parser_merged.h:2084-2200 | a chunk, with an extension or without, delivers exactly its bytes and leads to the next chunk |
| `HttpLengths.IdentityBody` | include/crow/http_parser_merged.h:2036-2082 | a message with a length is handed over with exactly that many bytes |
| `HttpLengths.UnfinishedBody` | include/crow/http_parser_merged.h:2036-2070 | before its last byte such a message is not complete |
| `HttpLines.EmptyLws` | include/crow/http_parser_merged.h:1931-1943 | a header without a value delivers an empty value before the byte that follows it |
| `HttpLines.PadRead` | include/crow/http_parser_merged.h:1726-1739 | white space before a value is skipped, line ends followed by a blank included |
| `HttpLines.FoldFirst` | include/crow/http_parser_merged.h:1898-1912 | a blank at the start of the next line continues a value, and no word is recognised any more; a Content-Length cannot be continued |
| `HttpLines.FoldsRead` | include/crow/http_parser_merged.h:1741-1912 | the lines that continue a value are delivered as part of it, with their leading blanks |
| `HttpLines.FlagsSaid` | include/crow/http_parser_merged.h:1898-1922 | the end of a value sets exactly the flag its words say |
| `HttpLines.LineRead` | include/crow/http_parser_merged.h:1546-1943 | any header, with or without a value, on one line or continued on others, lines ended by CR LF or a bare LF: it delivers name and value, has the effect on length and flags that its name and value say, and leads to the next line |
| `HttpHeaders.EffectsSay` | include/crow/http_parser_merged.h:1741-1922 | chunked, keep-alive, close and upgrade are set if and only if some line of the right name says so; for an upgrade any value does |
| `HttpHeaders.HeadersRead` | include/crow/http_parser_merged.h:1546-1943 | any number of headers: their joint effect, the builder that has them all, and nothing else changed |
| `HttpHeaders.BlankLine` | include/crow/http_parser_merged.h:1945-2034 | without an upgrade the blank line completes the headers and leads to chunks, to a body of the announced length, or to the next message |
| `HttpHeaders.UpgradeLeaves` | include/crow/http_parser_merged.h:1945-2003 | after an upgrade or CONNECT the blank line completes the message, whatever length was announced, and nothing behind it is read |
| `HttpHeaders.TrailerEnd` | include/crow/http_parser_merged.h:1945-1954 | the blank line after trailers completes the message; the count of header bytes goes on |
| `HttpHeaders.HeadersCollected` | include/crow/parser.h:29-62 | header lines in turn: those with a value are stored when the next one starts, the last one is kept apart |
| `HttpHeaders.HeadersAreStored` | include/crow/parser.h:29-72 | of headers and trailers everything is stored if and only if every header but the last has a value and there are no trailers |
| `HttpHeaders.ChunkedBody` | include/crow/http_parser_merged.h:2084-2200 | a chunked body with extensions and trailers is handed over with the concatenation of its chunks, in order; trailers with a value join the headers, the last trailer never |
| `HttpUrl.UrlRead` | include/crow/http_parser_merged.h:1351-1422 | up to its end a URL is taken as it is as long as every character has a place, and refused at the first that has none |
| `HttpUrl.UrlAccepted` | include/crow/http_parser_merged.h:1351-1422 | a URL is accepted if and only if its characters lead to a state in which a URL may end; it is delivered as it is, any other is refused |
| `HttpUrl.OriginForm` | include/crow/http_parser_merged.h:641-829 | a URL that starts with a slash or an asterisk is accepted if and only if all its characters are visible |
| `HttpUrl.AbsoluteForm` | include/crow/http_parser_merged.h:641-829 | a URL that starts with a letter is accepted if and only if it is a scheme of letters, `://`, and an authority or a visible path or query or both |
| `HttpUrl.NoOtherForm` | include/crow/http_parser_merged.h:641-829 | no URL of another method than CONNECT starts with any other character |
| `HttpFirstLine.VersionNumber` | include/crow/http_parser_merged.h:1458-1533 | a number of the version is read as its digits write it, and refused exactly above 999 |
| `HttpFirstLine.VersionRead` | include/crow/http_parser_merged.h:1424-1543 | a version is read as its two numbers |
| `HttpFirstLine.FirstLineRead` | include/crow/http_parser_merged.h:1225-1543 | the first line, after any line ends and with any further spaces around the URL, with a version or without, starts a new message and sets method, URL and version |
| `HttpRequests.HeadRead` | include/crow/http_parser_merged.h:1225-2034 | a head is read as the method, URL, version, headers, length and flags it was written from |
| `HttpRequests.FlagsMean` | include/crow/http_parser_merged.h:1898-1922 | the connection flags at the end are those said by the headers or the trailers |
| `HttpRequests.StaysOpen` | include/crow/http_parser_merged.h:2267-2282 | the connection stays open by default from HTTP/1.1 on, unless told to close, and before only if told to be kept |
| `HttpRequests.PayloadArrives` | include/crow/http_parser_merged.h:2036-2200 | the body of a length, or the chunks and trailers, complete the request |
| `HttpRequests.RequestArrives` | include/crow/http_parser_merged.h:831-2239 | a request as written, with any first line and headers, no body, a body of a length or chunks with trailers, is handed over with the headers that are stored; the parser is ready for the next exactly if the connection stays open |
| `HttpRequests.UpgradeArrives` | include/crow/http_parser_merged.h:1225-2003 | a request that asks for an upgrade is handed over without a body, and the parser leaves what follows unread |
| `HttpRequests.HeadersArrive` | include/crow/parser.h:29-93 | all headers and trailers that were sent arrive if and only if every header but the last has a value and there are no trailers |
| `HttpRequests.RequestsArrive` | include/crow/http_parser_merged.h:831-2239 | any number of such requests on one connection are handed over in order |
| `HttpLost.HeaderWithoutValue` | include/crow/parser.h:33-47 | of the headers `A: ` and `B: x` only the second arrives |
| `HttpLost.TrailerIsLost` | include/crow/parser.h:33-72 | the only trailer of a chunked request does not arrive |
| `HttpRequests.NothingAfterClose` | include/crow/http_parser_merged.h:982-990 | after a message that closes the connection only line ends are skipped; any other byte is an error and nothing more is delivered |
| `DecimalFormat.DigitsRoundTrip` | include/spdlog/details/format.h:896-916 | the canonical digits read back give the number, and only 0 starts with 0 |
| `DecimalFormat.DigitsBetween` | include/spdlog/details/format.h:862-869 | a number between two neighbouring powers of ten has the digits that says |
| `DecimalFormat.LogarithmTrick` | include/spdlog/details/format.h:867 | `bits * 1233 >> 12` is the digit count or one more, for all 64 bit lengths |
| `DecimalFormat.CountDigits64` | include/spdlog/details/format.h:864-869 | the digit count of every 64-bit number |
| `DecimalFormat.CountDigits32` | include/spdlog/details/format.h:890-893 | the digit count of every 32-bit number |
| `DecimalFormat.CountIsExact` | include/spdlog/details/format.h:864-893 | both tables are indexed in range and the corrected estimate is the exact length |
| `DecimalFormat.PowersAreExact` | include/spdlog/details/format.cc:474-498 | the table entries are the powers of ten |
| `DecimalWriter.CountDigitsInFours` | include/spdlog/details/format.h:872-885 | the fallback loop counts the digits of every number |
| `DecimalWriter.FormatDecimal` | include/spdlog/details/format.h:896-916 | fills exactly the cells of the canonical digits, from the last one back, and no other cell |
| `DecimalWriter.Writer.GrowBuffer` | include/spdlog/details/format.h:2351-2355 | old cells keep their contents |
| `DecimalWriter.Writer.WriteUnsignedDecimal` | include/spdlog/details/format.h:2357-2364 | appends the prefix cells and the canonical digits |
| `DecimalWriter.AbsValue` | include/spdlog/details/format.h:2369-2371 | `0 - value` in unsigned arithmetic is the magnitude, for the smallest value too |
| `DecimalWriter.Writer.WriteDecimal` | include/spdlog/details/format.h:2366-2377 | appends the decimal text of every signed or unsigned 32- or 64-bit value |
| `JsonText.AppendEscaped` | include/crow/json.h:33-66 | the escaping loop appends the escaped text |
| `JsonText.EscapeRoundTrip` | include/crow/json.h:33-66 | unescaping undoes escaping for every byte string |
| `JsonText.PieceMoved` | include/crow/json.h:317-371 | moving one unescaped piece keeps what is already moved and what is still to be read |
| `JsonLoad.MovePieces` | include/crow/json.h:317-371 | the write cursor never passes the read cursor; the cells before it hold the unescaped text and no cell outside changes |
| `JsonLoad.UnescapeInPlace` | include/crow/json.h:313-376 | the string's text is left at its start, bytes outside its quotes are untouched, and a second call changes nothing |
| `JsonLoad.ReadPiece` | include/crow/json.h:321-369 | an escape means its character, or the UTF-8 bytes of its code |
| `JsonLoad.Growing.EmplaceBack` | include/crow/json.h:549-567 | appends one element, growing the storage when it is full, within the width of the counter |
| `JsonCells.HoldsFrame` | include/crow/json.h:690-1024 | parsed values depend on their own cells only |
| `JsonParsing.Parser.ScanString` | include/crow/json.h:696-748 | finds the closing quote, or fails at a NUL or a malformed escape, and knows whether a backslash was seen |
| `JsonParsing.Parser.DecodeString` | include/crow/json.h:690-750 | a string is cut out in place and denotes its unescaped text |
| `JsonParsing.Parser.DecodeNumber` | include/crow/json.h:792-908 | the longest number by the transition strings, or failure |
| `JsonParsing.Parser.DecodeValue` | include/crow/json.h:910-962 | a value parsed in place is what the grammar says; nothing before it or behind the cursor changes |
| `JsonParsing.Parser.DecodeList` | include/crow/json.h:752-790 | the same for lists |
| `JsonParsing.Parser.DecodeObject` | include/crow/json.h:964-1024 | the same for objects |
| `JsonParsing.Parser.DecodeMember` | include/crow/json.h:983-1006 | a key, a colon and a value: the key is unescaped where it stands without disturbing the rest |
| `JsonParsing.Parser.DecodeKey` | include/crow/json.h:983-1000 | the key's unescaped bytes stay in its own cells |
| `JsonParsing.Parser.Parse` | include/crow/json.h:1026-1034 | a document parses in place exactly if the grammar accepts all of it |
| `JsonParsing.Load` | include/crow/json.h:1040-1051 | the same over a copied and terminated text |
| `JsonPrint.ParsePrinted` | include/crow/json.h:690-1024 | a printed value is read back as itself and ends where it ends, whatever follows |
| `JsonPrint.DocumentRoundTrip` | include/crow/json.h:1026-1034 | a printed document is read back as itself |
| `JsonDump.ToWValue` | include/crow/json.h:1078-1109 | the value converted from cells is the parsed value; only its own cells change |
| `JsonDump.DumpInternal` | include/crow/json.h:1347-1403 | appends a text of the value with its members in some order |
| `JsonDump.DumpItems` | include/crow/json.h:1362-1380 | the items of a list with a comma before each but the first |
| `JsonDump.DumpMembers` | include/crow/json.h:1381-1401 | every member of an object exactly once, in any order |
| `JsonDump.RoundTrip` | include/crow/json.h:1347-1411 | dumping, loading and converting back gives the value, whatever order members were printed in |
| `MustacheTree.RenderAppend` | include/crow/mustache.h:153-268 | rendering a sequence is rendering its parts one after the other |
| `MustacheTree.DeepEnough` | include/crow/mustache.h:164-171 | how deep one looks into inserted templates makes no difference to the output |
| `MustacheTree.RankedEnds` | include/crow/mustache.h:164-171 | where templates are inserted in one another without a cycle, rendering ends |
| `MustacheTree.InsertsItself` | include/crow/mustache.h:164-171 | a template that begins by inserting itself is never rendered to its end |
| `MustacheRender.SplitName` | include/crow/mustache.h:87-98 | the parts of a name between its dots |
| `MustacheRender.FindContext` | include/crow/mustache.h:67-126 | the innermost context in which the dotted name can be followed, or an empty string |
| `MustacheRender.Rendering.Escape` | include/crow/mustache.h:128-144 | the escaping loop appends the escaped text |
| `MustacheRender.Rendering.RenderFragment` | include/crow/mustache.h:270-283 | a fragment is put out with the indentation after every line end but one that ends the template |
| `MustacheRender.Rendering.RenderPartial` | include/crow/mustache.h:164-171 | another template is compiled when it is reached and rendered in the same contexts with its own indentation, or throws |
| `MustacheActions.OutputSimple` | include/crow/mustache.h:155-191 | an action that is no block puts out its fragment and its text, then the rest |
| `MustacheActions.OutputBlock` | include/crow/mustache.h:192-258 | a block puts out its fragment and its body once for each of its contexts, then what follows its closer |
| `MustacheActions.RestEnter` | include/crow/mustache.h:197-251 | going into a block with a pushed context leaves the same text to come as rendering its body once |
| `MustacheActions.RestClose` | include/crow/mustache.h:259-261 | a closer pops exactly the context its opener pushed |
| `MustacheRender.Rendering.RenderInternal` | include/crow/mustache.h:146-269 | the loop with jumps, partials and indentation puts out the text of the recursive semantics of the section tree, throws exactly when that does, terminates whenever that has an output and leaves the context stack as it was |
| `MustacheRender.Rendering.EnterBlock` | include/crow/mustache.h:192-258 | what a section does with each kind of value, list sections item by item |
| `MustacheRender.Rendering.EachItem` | include/crow/mustache.h:233-242 | a list section renders its body in each item and restores the stack |
| `MustacheRender.Render` | include/crow/mustache.h:295-303 | a template renders to the text of its section tree in the given context |
| `MustacheActions.BlockOnce` | include/crow/mustache.h:192-251 | a block with one context that is no list item is rendered once, without further indentation |
| `MustacheNesting.AddCloser` | include/crow/mustache.h:347-364 | a closer completes the innermost open block and leaves the others open |
| `MustacheNesting.ClosedConcat` | include/crow/mustache.h:315-444 | closed stretches of actions one after the other are closed |
| `MustacheBlocks.RefusedOrEnds` | include/crow/mustache.h:307-444 | a text of which no tag is refused ends after one number of tags, and none before is refused |
| `MustacheBlocks.OneProblem` | include/crow/mustache.h:307-444 | a text is refused for one reason, that of its first tag that is refused |
| `MustacheLex.TokenIsTag` | include/crow/mustache.h:317-337 | a tag stands right behind its fragment, at the first opening delimiter, and ends at the first closing one |
| `MustacheLex.NameIsTrimmed` | include/crow/mustache.h:342-343 | a name has no spaces around it, and only spaces are cut off |
| `MustacheParse.Compiler.ParseTag` | include/crow/mustache.h:338-443 | one tag becomes the action that its mark says, or is refused |
| `MustacheParse.Compiler.PushCloser` | include/crow/mustache.h:351-363 | a closer is matched with the innermost open block; refused exactly if none is open or the names differ |
| `MustacheParse.Compiler.ChangeDelimiters` | include/crow/mustache.h:402-436 | the new delimiters are the two space-separated texts between the `=` signs, neither empty nor with spaces; refused otherwise |
| `MustacheParse.Compiler.ParseBody` | include/crow/mustache.h:309-444 | the fragments and actions are the tags of the text in order, or the first tag that is refused is named |
| `MustacheStandalone.TrimmingKeepsLineEnd` | include/crow/mustache.h:447-500 | a fragment trimmed by the tag behind it still decides in the same way about the tag before it |
| `MustacheStandalone.OnlyWhiteDropped` | include/crow/mustache.h:447-500 | what a standalone tag takes with it is spaces and line ends |
| `MustacheStandalone.SameKinds` | include/crow/mustache.h:447-450 | which tags stand alone depends on the kinds of the actions only |
| `MustacheStandalone.IndentedInsets` | include/crow/mustache.h:488-491 | a partial alone on its line has the indentation of the line, any other has none |
| `MustacheParse.Compiler.RemoveStandalone` | include/crow/mustache.h:449-499 | one tag is looked at: the spaces before it and the line end behind it go exactly if it is alone on its line |
| `MustacheParse.Compiler.RemoveStandalones` | include/crow/mustache.h:447-500 | the loop from the last tag to the first drops exactly the lines of all tags that stand alone in the original text |
| `MustacheParse.Compile` | include/crow/mustache.h:307-501 | a text is refused exactly if one of its tags is, for that reason; otherwise the fragments and actions are those of its tags, names match, and with no block left open every opener's `pos` names its properly nested closer |
| `MustacheText.DescendIsTree` | include/crow/mustache.h:307-501 | where openers name their closers, recursive descent over the tags, without jump targets, finds the same section tree |
| `MustacheText.CompiledTree` | include/crow/mustache.h:307-501 | a compiled template has the section tree of the tags of its text, less the lines of standalone tags |
| `MustacheText.SourceOfText` | include/crow/mustache.h:307-501 | what a text is as a template is decided by its tags: refused, a section tree, or left open |
| `MustacheRender.CompileText` | include/crow/mustache.h:508-511 | compiling accepts exactly the texts that are templates, and yields the section tree of the text |
| `MustacheRender.RenderText` | include/crow/mustache.h:295-303 | compile and render, partials included: the output of the section tree of the text in the context, or an exception exactly where that has one |
| `MustacheRender.OneRendition` | include/crow/mustache.h:295-303 | a text has one output in a context |

## Left out

- MpmcQueue.RunInv: steps are sequentially consistent; the acquire and release orderings of the atomics are not modelled, and position counters are unbounded (module `PositionBits` has their 64-bit form).
- LogWorker.DrainOnShutdown: sinks do not throw, all sinks together are one, and clocks, sleeping and the warm-up callback are parameters of a step or absent.
- AsyncLogHelper.Helper.PushMsg: after the sleeps given, one more in which only the worker takes a turn; a queue that others fill up again for ever would keep the code in its loop.
- RedisClient.RedisClient.AsyncRead: only the Connected state, without socket errors; after an error the error handler throws, as the default one does, and nothing is claimed afterwards. A handler's commands are a function of the handler, the reply and the number of the call. Subscribed mode is left out, because the state changes when `subscribe` is called and not when the server confirms.
- RedisParser.RedisParser.Parse: nothing is claimed about the parser after its first Error, which leaves outer arrays on the stacks.
- RedisSync.SyncClient.DoSyncCommand: a socket that fails while it is read is not modelled; `Waiting` means that the call would read again.
- Mailbox.StepInv: one mailbox, whose pushes all succeed; GetMsg is treated apart, in `MailboxReader`.
- MailboxClient.ClientMailbox: the server's replies are values, not bytes; a list of 2^31 messages or more would be announced as a negative length (`RespNumbers.IntegerReply`).
- MailboxReader.ClearedUnread: one GetMsg, which succeeds; others do not fetch or clear meanwhile.
- UrlTrie.Trie.Add: rules with a `<` that starts no known tag are not admitted, because the loop then does not end (`UrlPatterns.LoopEnds`).
- UrlRouter.Router.AddRule: the same rules are not admitted, for the same reason.
- UrlTrie.Trie.Find: `strtoll`, `strtoull` and `strtod` are any functions that give a value and an end behind the start (module `UrlPatterns`).
- UrlRouter.Router.Dispatch: calling the rule, its exceptions and the compatibility of a handler's parameter types with the rule are left out; so are duplicate Host headers.
- UrlRedirect.RedirectAnswered: the number scanners stop at a slash (`SlashEndsNumbers`), as `strtoll`, `strtoull` and `strtod` do; the client asks for the redirected URL with the same method and host.
- HttpFeed.FeedAll: nothing is claimed for a stream in which the parser leaves for an upgrade or CONNECT.
- HttpParsing.HttpParser.Execute: type HTTP_REQUEST in strict mode, callbacks that return 0 (so no skipped bodies), responses and URL host parsing left out; an empty buffer means the end of the stream.
- HttpBuilder.BuildEmit: query-string parsing is left out, and a string that was moved from is taken to be empty.
- HttpRequests.RequestArrives: CONNECT is left out, whose URL is of another form (after its blank line `HttpHeaders.UpgradeLeaves` holds); so are header lines without a colon, whose name runs into the next one.
- HttpLengths.ContentLengthIsNumber: the limit is the code's, (ULLONG_MAX - 10) / 10 before each further digit, which refuses some lengths below ULLONG_MAX.
- DecimalWriter.Writer.WriteDecimal: width, fill, other bases and floating-point numbers are left out; a buffer that grows is a new array with the old cells.
- JsonDump.RoundTrip: no numbers, which are printed by `%g` and lose digits; an absent list or object and an empty one are the same value.
- JsonDump.ToWValue: one live value per string; copies of a parsed value that share its buffer, the ownership of strings and sorting by key for lookups are left out.
- MustacheRender.Rendering.RenderInternal: sections that are not closed (`Closed`), in the template or in a partial; the jump target of an opener without a closer is 0, and what the code then renders is not stated. Files are a function of their names, so one that changes while a template is rendered is not modelled.
- MustacheRender.RenderText: texts that leave a section open are left out, for the same reason, and so is rendering that does not end (`Stuck`).
- MustacheParse.Compiler.PushCloser: a closing tag with no open section is reported as NoOpenBlock, where the code reads the back of an empty vector.
- Sockets, TLS, signals, files, syslog, the logger registry, configuration, the wrappers around `command`, pattern flags and the timer queue: input and output, or too easy to be worth members.
