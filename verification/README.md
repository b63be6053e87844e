# HybridKV, modelled and proved in Dafny

This project models the user-space half of HybridKV (client, wire protocol, server and in-memory
engine) and proves what its parts promise each other. `dafny verify dfyconfig.toml` checks all of it.

The code comes in two forms. Where the Rust updates state in place, the model is a class or a method
with loops (`Shard`, `Engine`, `ServerParser`, `ClientResp`, `Pool`, `Metrics`, the handlers of
`Server`, the connection loop of `Pipelines`), proved against functions on values. What the system
promises over whole runs, whole streams and all interleavings is then proved about those functions.

- **Engine.** A shard is a hash index, a slot arena, a free list and a doubly linked list threaded
  through the slots. `Shard` proves that every operation keeps all four in agreement and computes a
  function on one recency list (`Recency`). `Engine` puts the shards, the byte counter and the eviction
  cursor together and proves each operation to be a `Step` of `Cache`. `PlainStore` proves that over any
  run such steps answer like a plain map with deadlines, exactly when capacity is unlimited, and with
  that answer or a miss when it is bounded. `Lru` proves that the lists are the true recency order and
  what eviction removes from each; `RoundRobin` how it goes around the shards.
- **Byte accounting.** `Accounting` interleaves any number of threads at the grain of one atomic access
  or one change under a shard lock, and proves that the counter is exact up to what is in flight, never
  wraps below zero, and is within budget whenever nothing is in flight. `StepsOfOps` shows that every
  operation of the sequential engine is a sequence of those steps.
- **Answers under interleaving.** `Linear` lets any number of threads run the operations as programs over
  those steps and proves the engine linearizable: every call takes effect once, between its call and its
  return, and answers like the plain map fed the calls in that order, or with a miss. With unlimited
  capacity the answer is exactly the map's unless a call other than a set reads the clock, which it does
  before it takes the lock, ahead of a deadline of its own key that the shard has already seen pass;
  sweeps may come at any time. `StaleReading` is a history in which one such call, and no other, goes
  wrong. `Connections` carries this to any number of clients, each with its connection.
- **Wire.** `ServerParser` proves that the resumable parser accepts exactly the frames of the RESP2
  command grammar and that cutting the stream anywhere changes nothing; `StreamGrammar` that it refuses
  exactly the malformed buffers, so that a whole session is determined by the grammar. `ClientResp` proves
  that the client's commands are such frames, and that a reply survives printing and reading if and only if
  it is printable; `ReplyGrammar` that the client reads exactly the streams that spell a reply, and gives up
  for want of bytes exactly where a declared length outruns the stream. `CutReplies` says which replies can
  be cut short without the client noticing, and that the server sends none of them. `Decimal` holds the
  digit printers and the saturating digit readers of both ends.
- **Server and end to end.** `Server` proves that every command gets one well-formed reply, and exactly
  which commands lose their connection instead; `CommandReplies` what each reply says, and exactly which
  commands are refused. `EndToEnd` proves that a client call over the wire is the engine call, and that whole
  sessions against an unlimited server cannot be told from a local map. `Pipelines` runs the connection loop
  over the engine and proves the same of commands sent without waiting, however the stream is cut.
- **Pool and metrics.** `Pool`, `MaxRegister` and `RequestCounters` are state machines over any number
  of borrowers, threads and connections. `Metrics` brackets the true order statistic, and
  `HistogramSteps` shows that its histogram survives interleaved recording.

What the model fixes:

- Machine words have 64 bits. `bulk_len + 2`, `start + offset`, the eviction cursor and the latency sum
  wrap as in a release build. No Rust slice is longer than `isize::MAX`; the bounds on argument and
  value lengths say this.
- Two panics are outcomes of the model, not assumptions. A bulk length of `usize::MAX - 1` or
  `usize::MAX` overflows the parser's length arithmetic (hkv-server/src/protocol.rs:90):
  `PanicsExactlyOnOversizeFrames` gives exactly the buffers, `OversizeExample` one of them. A deadline
  an `Instant` cannot hold makes `expire` panic (hkv-engine/src/memory.rs:578): `ExpireIn` answers
  `Overflowed`, the connection ends without a reply, `PanicsExactlyOnDeadlines` gives exactly the
  commands, and in the end-to-end theorems the same calls are `Broken` remotely and locally.
- Every operation takes its clock reading as a parameter, in nanoseconds; the runs of
  one caller at a time have readings that do not decrease. The hash is an arbitrary function. Atomics are sequentially consistent.
- A requested shard count above 2^63 has no next power of two in a machine word. A release build then
  wraps to a count of zero: the constructor makes an engine without shards, on which every operation
  on a key panics. The theorems about engines are about the others.
- `used_bytes` is an integer. That it never wraps below zero is proved. That it does not wrap above is
  assumed: by `CounterExact` it is at most the bytes stored plus, for each thread, one entry or difference
  that the thread has removed and not yet subtracted.
- Three branches of the engine are left out of the methods because the shard invariant rules them out:
  an index entry that names an empty slot, the second comparison with the deadline in `ttl`, and (in the
  sequential engine) the exit from eviction after a fruitless scan. The interleaved model keeps that exit.
- At the end of a stream the client's `read_line` accepts an unterminated line if its last byte but one
  is CR, although the module documentation speaks of CRLF line endings. The model does what the code
  does. `UnterminatedLineReads` gives two such streams, `LineTerminatedExactlyWithLf` says when a line was
  really terminated, and `CutsFailExactlyWhenSafe` says of which replies every cut is noticed.

## Model

| member | source | states |
|---|---|---|
| Decimal.UnsignedRoundTrip | hkv-server/src/protocol.rs:123-135 | every number in range is read back from its digits |
| Decimal.SignedRoundTrip | hkv-client/src/resp.rs:134-156 | every i64 is read back from its digits, except the minimum, which comes back as minus the maximum |
| Decimal.UnsignedReadsExactly | hkv-server/src/protocol.rs:123-135 | a text reads as a number below the maximum if and only if it is that number's digits behind any number of zeros |
| Decimal.PositiveReadsExactly | hkv-client/src/resp.rs:134-156 | the same for a positive number of the signed reader: no sign, then zeros and digits |
| Decimal.NegativeReadsExactly | hkv-client/src/resp.rs:134-156 | the same for a negative one, a minus sign in front |
| Decimal.DigitsFitBuffer | hkv-client/src/resp.rs:158-171 | the digits of any usize fit the 20-byte stack buffer |
| Decimal.FillDigits | hkv-client/src/resp.rs:166-170 | the divide-by-ten loop leaves the decimal digits in reverse and never overruns its buffer |
| Decimal.PushUsize | hkv-client/src/resp.rs:158-175 | appends exactly the decimal digits of the number |
| Decimal.EncodeU64 | hkv-client/src/client.rs:269-284 | the buffer prefix is the decimal digits of the number |
| Decimal.ParseUnsigned | hkv-server/src/protocol.rs:123-135 | digit strings of any length give their true value clamped to the maximum; the empty string and non-digits are refused (also parse_u64 of the server) |
| Decimal.ParseI64 | hkv-client/src/resp.rs:134-156 | optional sign and digits give the clamped value; anything else is refused |
| ServerParser.Advance | hkv-server/src/protocol.rs:57-107 | a turn of the loop that goes on or emits consumes at least two bytes and leaves an argument due in both bulk states; what turns add up to is `ParseAcceptsExactlyFrames`, `StreamGrammar.RefusesExactlyMalformed` and `PanicsExactlyOnOversizeFrames` |
| ServerParser.ParseExtends | hkv-server/src/protocol.rs:57-107 | more bytes behind a buffer never change a decision the parser could take without them |
| ServerParser.DrainResumes | hkv-server/src/server.rs:42-65 | draining a stream is draining a prefix and resuming with the rest |
| ServerParser.ChunkingIrrelevant | hkv-server/src/server.rs:36-66 | any way of cutting a stream into reads gives the commands, outcome and suspended state of one piece |
| ServerParser.FrameParses | hkv-server/src/protocol.rs:57-107 | every frame is accepted, whatever bytes its arguments hold, and what follows is untouched |
| ServerParser.ParseAcceptsExactlyFrames | hkv-server/src/protocol.rs:57-107 | the parser answers a command if and only if the buffer starts with a frame of it |
| ServerParser.ProperPrefixWaits | hkv-server/src/protocol.rs:54-57 | no proper prefix of a frame yields a command or an error |
| ServerParser.PanicsExactlyOnOversizeFrames | hkv-server/src/protocol.rs:89-93 | the buffers on which the length arithmetic panics, both directions |
| ServerParser.OversizeExample | hkv-server/src/protocol.rs:89-93 | such buffers for both lengths: a header alone, and a header with one byte |
| StreamGrammar.SplitsExactlyAtFirstCrlf | hkv-server/src/protocol.rs:110-121 | a line is taken off a buffer if and only if the buffer is that line without CRLF in it, CRLF and the rest |
| StreamGrammar.RefusesExactlyMalformed | hkv-server/src/protocol.rs:57-107 | a protocol error if and only if the buffer is malformed: a header line that is no array length, or complete bulk strings, fewer than declared, followed by a line that is no bulk length or by data without its CRLF |
| StreamGrammar.SessionExactly | hkv-server/src/server.rs:42-65 | a stream gives these commands and this ending if and only if it is frames of them followed by bytes that are malformed, or panic, or can still become a frame |
| ServerParser.ReadLine | hkv-server/src/protocol.rs:110-121 | takes the first CRLF-terminated line off the buffer, or leaves it alone |
| ServerParser.RespParser.constructor | hkv-server/src/protocol.rs:45-52 | a new parser waits at the start of a command |
| ServerParser.RespParser.ArrayLenTurn | hkv-server/src/protocol.rs:60-76 | the array header turn is `Advance`; unless it is refused, the buffer is what `Advance` leaves |
| ServerParser.RespParser.BulkLenTurn | hkv-server/src/protocol.rs:77-88 | the bulk length turn is `Advance` |
| ServerParser.RespParser.BulkDataTurn | hkv-server/src/protocol.rs:89-104 | the bulk data turn is `Advance`; `remaining` never underflows |
| ServerParser.RespParser.Parse | hkv-server/src/protocol.rs:57-107 | terminates; result, suspended state and unread buffer are those of `ParseOnce` |
| ServerParser.DrainBuffer | hkv-server/src/server.rs:42-65 | the inner loop delivers exactly the complete commands of the buffer |
| ServerParser.ReadLoop | hkv-server/src/server.rs:36-66 | the loop of reads and drains computes the session of those reads |
| ServerParser.HandleConnection | hkv-server/src/server.rs:27-69 | a connection hands over the commands of the whole stream, however it was cut |
| ClientResp.EncodeCommand | hkv-client/src/resp.rs:43-55 | appends the encoding of the command |
| ClientResp.EncodeIsFrame | hkv-client/src/resp.rs:43-55 | the client sends only frames of the server's grammar |
| ClientResp.PipelineRoundTrip | hkv-client/src/resp.rs:43-55 | any pipeline is parsed back to exactly its commands and trailing bytes are parsed as if alone |
| ClientResp.PipelineSurvivesChunking | hkv-server/src/server.rs:36-66 | the same under any chunking, ending at a fresh parser with an empty buffer |
| ClientResp.CutCommandWaits | hkv-server/src/protocol.rs:54-57 | a command cut short is neither a command nor an error |
| ClientResp.PrintedReadsBack | hkv-client/src/resp.rs:58-119 | every printable reply, nested arrays included, decodes to itself and exactly its bytes are consumed |
| ClientResp.PrintedItemsReadBack | hkv-client/src/resp.rs:105-119 | printed items in sequence decode to themselves |
| ClientResp.ReadIsPrintable | hkv-client/src/resp.rs:58-119 | on any stream the reader returns only printable values |
| ClientResp.RepliesSurviveExactlyWhenPrintable | hkv-client/src/resp.rs:58-119 | a reply survives the wire if and only if it is printable |
| ClientResp.MinimumReadsAsMinusMaximum | hkv-client/src/resp.rs:134-156 | the one i64 that does not survive |
| ReplyGrammar.LinesExactly | hkv-client/src/resp.rs:121-132 | the lines the client takes off a stream, both directions, the unterminated ones at its end included |
| ReplyGrammar.ReadsExactlySpellings | hkv-client/src/resp.rs:58-119 | a stream reads as a value with a rest if and only if it spells that value followed by that rest; every other stream is an error |
| ReplyGrammar.SpellingIsUnique | hkv-client/src/resp.rs:58-119 | no stream spells two values |
| ReplyGrammar.IoExactlyWhenShort | hkv-client/src/resp.rs:83-119 | the error is a short stream if and only if a declared bulk length, itself or inside an array, outruns the stream |
| ClientResp.ReadLine | hkv-client/src/resp.rs:121-132 | the line, without its last two bytes, if the last but one is CR |
| ClientResp.ReadExact | hkv-client/src/resp.rs:91-96 | exactly the bytes asked for, or an error |
| ClientResp.ReadResponse | hkv-client/src/resp.rs:58-81 | value, error and unread stream are those of `ReadValue`; the recursion terminates on the stream |
| ClientResp.ParseBulkLen | hkv-client/src/resp.rs:83-103 | as `ReadBulk`: null, data and its CRLF, short stream, wrong terminator |
| ClientResp.ParseArrayLen | hkv-client/src/resp.rs:105-119 | as `ReadArray`: as many values as declared, or the first error |
| Recency.SweepExact | hkv-engine/src/memory.rs:334-355 | a sweep removes exactly the expired entries, counts them and frees their bytes |
| Recency.SurvivorsKeepOrder | hkv-engine/src/memory.rs:334-355 | survivors keep their relative recency |
| Shard.UnlinkKeepsRest | hkv-engine/src/memory.rs:133-159 | bypassing a slot leaves a chain of all the others, with the right ends |
| Shard.Filled | hkv-engine/src/memory.rs:196-213 | filling a free slot keeps slots, free list and index in agreement |
| Shard.Emptied | hkv-engine/src/memory.rs:218-229 | emptying a slot keeps slots, free list and index in agreement |
| Shard.ShardInner.constructor | hkv-engine/src/memory.rs:120-128 | a new shard is sound and empty |
| Shard.ShardInner.LruRemove | hkv-engine/src/memory.rs:133-159 | the chain without the slot, nothing but links changed |
| Shard.ShardInner.LruPushBack | hkv-engine/src/memory.rs:164-180 | the chain with the slot at its end, nothing but links changed |
| Shard.ShardInner.Touch | hkv-engine/src/memory.rs:185-191 | the entry becomes the most recent one, the others keep their order |
| Shard.ShardInner.TakeSlot | hkv-engine/src/memory.rs:196-200 | a slot that is in no use, counted as free while chain, index and entries stay as they were |
| Shard.ShardInner.InsertNew | hkv-engine/src/memory.rs:196-213 | the new entry is last, without deadline, and the invariant holds |
| Shard.ShardInner.Discard | hkv-engine/src/memory.rs:223-227 | map, chain and free list give the slot up and agree again |
| Shard.ShardInner.RemoveIdx | hkv-engine/src/memory.rs:218-229 | removes the entry and returns its size, or nothing for an empty slot |
| Shard.ShardInner.PopLru | hkv-engine/src/memory.rs:234-237 | removes the least recent entry and returns its size |
| Shard.ShardInner.LiveSlot | hkv-engine/src/memory.rs:456-471 | finds a live entry; an expired one is removed and accounted |
| Shard.ShardInner.Get | hkv-engine/src/memory.rs:454-477 | answer, list and freed bytes of a get |
| Shard.ShardInner.Set | hkv-engine/src/memory.rs:485-520 | whichever branch is taken, the entry ends up last without deadline, and the counter adjustments match the bytes |
| Shard.ShardInner.Overwrite | hkv-engine/src/memory.rs:501-516 | overwriting in place is removal and insertion at the end |
| Shard.ShardInner.Delete | hkv-engine/src/memory.rs:533-549 | the key is gone; the answer says whether it was live |
| Shard.ShardInner.Expire | hkv-engine/src/memory.rs:558-581 | a live key gets the deadline and keeps its place; a missing or expired one is not found |
| Shard.ShardInner.Ttl | hkv-engine/src/memory.rs:590-621 | missing, no expiry, or the time left; recency unchanged |
| Shard.ShardInner.CollectExpired | hkv-engine/src/memory.rs:338-345 | exactly the slots of expired entries, once each, in any order of scanning |
| Shard.ShardInner.PurgeSlot | hkv-engine/src/memory.rs:347-352 | one expired entry less, survivors unchanged |
| Shard.ShardInner.Purge | hkv-engine/src/memory.rs:336-353 | the survivors in order, the number removed and the bytes freed |
| Masking.MaskIsMod | hkv-engine/src/memory.rs:387-391 | masking with 2^k - 1 is the remainder modulo 2^k |
| Masking.ScanVisitsEachOnce | hkv-engine/src/memory.rs:422-423 | a scan visits every shard at exactly one offset, also across the wrap of the cursor |
| Masking.NormalizeShardCount | hkv-engine/src/memory.rs:628-631 | a power of two that is at least the requested count and at least one; zero for counts above 2^63, as a release build wraps |
| Masking.NormalizedIsLeast | hkv-engine/src/memory.rs:628-631 | and the least such |
| Cache.ScanFindsVictim | hkv-engine/src/memory.rs:422-433 | while entries are stored a scan finds one, so without interference the exit after a fruitless scan is never taken |
| Cache.EvictOne | hkv-engine/src/memory.rs:413-434 | a round removes exactly one entry and keeps the state well formed |
| Cache.Evict | hkv-engine/src/memory.rs:408-435 | eviction terminates within budget |
| RoundRobin.VictimIsFirst | hkv-engine/src/memory.rs:420-434 | a round takes the oldest entry of the first shard with entries, counting from the cursor around, and advances the cursor by one |
| RoundRobin.EvictIsRounds | hkv-engine/src/memory.rs:408-435 | eviction is as many rounds as it takes to be within budget, and no more |
| RoundRobin.FullTurnTakesOneOfEach | hkv-engine/src/memory.rs:408-435 | with entries in every shard, as many rounds as there are shards take the oldest entry of each |
| Cache.SweepAnswersRemoved | hkv-engine/src/memory.rs:334-355 | a sweep answers the number of entries it removed, which are the expired ones and no others |
| Cache.AccessDropsExpired | hkv-engine/src/memory.rs:451-622 | a get, delete, expire or ttl that does not find its key live leaves nothing of it stored, frees its bytes and touches no other key |
| Engine.MemoryEngine.constructor | hkv-engine/src/memory.rs:311-329 | a new engine is sound and empty, or without shards for a count above 2^63 |
| Engine.MemoryEngine.Settle | hkv-engine/src/memory.rs:509-519 | the counter follows the shard and equals the stored bytes again; the subtraction does not wrap |
| Engine.MemoryEngine.Get | hkv-engine/src/memory.rs:451-478 | one step of the abstract cache, state and answer |
| Engine.MemoryEngine.Store | hkv-engine/src/memory.rs:483-520 | the locked part of set |
| Engine.MemoryEngine.Set | hkv-engine/src/memory.rs:483-525 | one step of the abstract cache; a bounded engine ends within its budget |
| Engine.MemoryEngine.Delete | hkv-engine/src/memory.rs:530-550 | one step of the abstract cache, state and answer |
| Engine.MemoryEngine.Expire | hkv-engine/src/memory.rs:555-582 | one step of the abstract cache, state and answer |
| Engine.MemoryEngine.Ttl | hkv-engine/src/memory.rs:587-622 | one step of the abstract cache, state and answer |
| Engine.MemoryEngine.EvictFrom | hkv-engine/src/memory.rs:440-444 | the oldest entry of the shard goes, if there is one, and its bytes come off the counter |
| Engine.MemoryEngine.ScanShards | hkv-engine/src/memory.rs:420-429 | the first non-empty shard from the cursor on loses its oldest entry |
| Engine.MemoryEngine.EvictRound | hkv-engine/src/memory.rs:413-434 | one round of eviction, which always evicts |
| Engine.MemoryEngine.EvictIfNeeded | hkv-engine/src/memory.rs:408-435 | terminates on the number of live entries and computes `Evict` |
| Engine.MemoryEngine.PurgeShard | hkv-engine/src/memory.rs:336-353 | one shard's survivors, count and bytes |
| Engine.MemoryEngine.PurgeExpired | hkv-engine/src/memory.rs:334-355 | every shard keeps exactly its survivors, in order; the result is the number of entries fewer than before and the counter drops by their bytes |
| PlainStore.EvictForgets | hkv-engine/src/memory.rs:408-435 | eviction makes keys absent and changes nothing else that is visible |
| PlainStore.LockedSimulates | hkv-engine/src/memory.rs:451-622 | the locked part of every operation acts like the map, on its own key and on all others |
| PlainStore.SweepSimulates | hkv-engine/src/memory.rs:334-355 | a sweep at any moment is invisible |
| PlainStore.StepSimulates | hkv-engine/src/memory.rs:451-622 | one operation keeps the simulation and answers like the map, or (bounded) with a miss |
| PlainStore.RunSimulates | hkv-engine/src/memory.rs:451-622 | the same for every run under a non-decreasing clock |
| PlainStore.UnlimitedIsPlainMap | hkv-engine/src/engine.rs:32-49 | with unlimited capacity every run answers exactly like a plain map with deadlines |
| PlainStore.BoundedNeverStale | hkv-engine/src/engine.rs:32-49 | with bounded capacity every answer is the map's or a miss |
| PlainStore.DeadlineIsExact | hkv-engine/src/memory.rs:555-622 | on every engine, until now + ttl and not from then on the key is there with its value, and ttl tells what is left to the nanosecond |
| Lru.StepTidy | hkv-engine/src/memory.rs:185-191 | every operation keeps every shard's list in order of last use and its keys in their shard |
| Lru.ListsAreRecencyOrder | hkv-engine/src/memory.rs:185-191 | after any run each list is in strict order of last use, defined from the history alone |
| Lru.StoredKeysWereUsed | hkv-engine/src/memory.rs:387-396 | after any run every stored key sits in its own shard and was used |
| Lru.EvictTakesPrefixes | hkv-engine/src/memory.rs:408-444 | eviction removes a prefix of each list |
| Lru.EvictStopsInTime | hkv-engine/src/memory.rs:413-417 | for any number of shards, the last entry evicted, given by shard and position, was one too many to keep |
| Lru.OneShardKeepsLongestSuffix | hkv-engine/src/memory.rs:408-444 | with one shard the longest fitting recency suffix survives |
| Lru.SetKeepsLongestSuffix | hkv-engine/src/memory.rs:483-525 | the same for a whole set |
| Accounting.CounterCoversDue | hkv-engine/src/memory.rs:424-425 | the counter covers every subtraction that is due |
| Accounting.StepAccounted | hkv-engine/src/memory.rs:408-525 | every step of every thread keeps locks, charges and counter in balance |
| Accounting.StepGuarded | hkv-engine/src/memory.rs:408-435 | over budget only while bytes are still to be charged or the last to charge has still to evict |
| Accounting.CounterExact | hkv-engine/src/memory.rs:466-468 | in every state of every run the counter is stored bytes, plus bytes removed and not yet subtracted, minus bytes inserted and not yet added, and never negative |
| Accounting.QuiescentWithinBudget | hkv-engine/src/memory.rs:408-444 | with nothing in flight the counter is exact and a bounded engine is within budget |
| StepsOfOps.OperationIsTrail | hkv-engine/src/memory.rs:451-622 | every sequential operation, eviction and sweep included, is a run of one undisturbed thread of the interleaved model that leaves the same lists, cursor and counter |
| StepsOfOps.LockedIsTrail | hkv-engine/src/memory.rs:451-622 | the same for the part of an operation under its shard lock, once that lock is free, whatever the other threads are doing |
| StepsOfOps.EvictIsTrail | hkv-engine/src/memory.rs:408-444 | the same for the eviction loop |
| StepsOfOps.SweepTrail | hkv-engine/src/memory.rs:334-355 | the same for a sweep, shard by shard |
| Linear.InterleavedNeverStale | hkv-engine/src/memory.rs:451-622 | in every interleaving, whatever the clock readings, every answer is the plain map's in the order of effect, or a miss |
| Linear.InterleavedIsPlainMap | hkv-engine/src/memory.rs:451-622 | with unlimited capacity exactly the map's, unless a call other than a set reads the clock before a deadline of its own key that the shard has seen pass; sweeps are unrestricted |
| Linear.InOrderIsPlainMap | hkv-engine/src/memory.rs:451-622 | in particular when no call enters a shard with a reading older than one seen there |
| Linear.AnswerExactlyUnlessDropped | hkv-engine/src/memory.rs:451-622 | call by call, on any engine, the answer is the map's if and only if it is a set, the shard has the key, or the map has no live entry at the call's reading |
| Linear.CallsTakeEffectOnce | hkv-engine/src/memory.rs:451-622 | every finished call took effect exactly once, between its call and its return |
| Linear.LoggedCallsWereMade | hkv-engine/src/memory.rs:451-622 | every call that takes effect was made by an earlier step, with that operation and that clock reading |
| Linear.RealTimeOrder | hkv-engine/src/memory.rs:451-622 | a call made after another has returned takes effect after it |
| Linear.ChoiceIsOperation | hkv-engine/src/memory.rs:451-622 | the one step a call takes after looking is its operation on the shard's list |
| Linear.LockShelters | hkv-engine/src/memory.rs:440-444 | no step of another thread, eviction included, changes a shard while its lock is held |
| StaleReading.OldReadingMisses | hkv-engine/src/memory.rs:451-471 | a history on an unlimited engine in which only the last call violates that condition, and only its answer is not the map's |
| Server.DispatchPrintable | hkv-server/src/server.rs:71-204 | every reply is printable, and values and deadlines stay in range |
| Server.EveryCommandOneReply | hkv-server/src/server.rs:71-204 | any arguments in any engine state are answered, if and only if the command does not cost the connection, by one reply that the client decodes to itself, consuming exactly its bytes |
| Server.PanicsExactlyOnDeadlines | hkv-server/src/server.rs:121-191 | the commands that get no reply, both directions: EXPIRE on a live key, or SET EX whose entry outlives eviction, with a deadline an Instant cannot hold |
| Server.UnlimitedSetExPanics | hkv-server/src/server.rs:136-154 | on an unlimited engine SET EX panics if and only if its deadline is out of range |
| Server.OneShardSetExPanics | hkv-server/src/server.rs:136-154 | on a bounded engine with one shard, if and only if also the entry is no larger than the budget |
| Server.BoundedSetExPanics | hkv-server/src/server.rs:136-154 | with any number of shards, never for an entry larger than the budget; for one that fits beside all that is stored, if and only if its deadline is out of range |
| Server.LongestTtlPanics | hkv-engine/src/memory.rs:577-579 | one such command, on any live key |
| Server.DelCountsDistinctLiveKeys | hkv-server/src/server.rs:159-174 | at a fixed clock DEL counts the distinct live keys among its arguments; `CommandReplies.DelReply` carries this to the reply |
| Server.FirstByteTellsErrors | hkv-server/src/server.rs:286-288 | the first byte tells error replies from all others |
| CommandReplies.ComparesUpToCase | hkv-server/src/server.rs:290-295 | two words compare equal if and only if they have the same letters up to ASCII case and are otherwise the same bytes |
| CommandReplies.CaseIrrelevant | hkv-server/src/server.rs:71-100 | spelling the command word, or the EX of SET, in other letter case changes neither reply nor state |
| CommandReplies.RefusesExactly | hkv-server/src/server.rs:71-204 | an error reply if and only if the word is unknown or missing, its arguments are wrong in number or kind, or a SET with EX evicts its own entry; the first three leave the engine as it was |
| CommandReplies.PingAndInfoReply | hkv-server/src/server.rs:102-108 | PING answers PONG or echoes its argument, INFO answers the metrics text; the engine is untouched |
| CommandReplies.GetReply | hkv-server/src/server.rs:110-119 | the live value, or null |
| CommandReplies.SetReply | hkv-server/src/server.rs:121-157 | on an unlimited engine OK, and from then on the value is there without a deadline |
| CommandReplies.SetExReply | hkv-server/src/server.rs:136-154 | with EX, the deadline is that many seconds after the second clock reading |
| CommandReplies.DelReply | hkv-server/src/server.rs:159-174 | at a fixed clock the number of distinct live keys among the arguments; afterwards none of them is live, and every other key is as before |
| CommandReplies.ExpireReply | hkv-server/src/server.rs:176-191 | 1 and a deadline that many seconds away for a live key, 0 and nothing stored for any other |
| CommandReplies.TtlReply | hkv-server/src/server.rs:193-204 | whole seconds rounded down, minus one without a deadline, minus two without a live key |
| Server.RespSimple | hkv-server/src/server.rs:248-254 | prints a simple string |
| Server.RespError | hkv-server/src/server.rs:256-262 | prints an error |
| Server.RespInteger | hkv-server/src/server.rs:264-270 | prints an integer |
| Server.RespBulk | hkv-server/src/server.rs:272-280 | prints a bulk string |
| Server.RespNull | hkv-server/src/server.rs:282-284 | prints the null bulk string |
| Server.ServePing | hkv-server/src/server.rs:102-108 | reply of PING |
| Server.ServeGet | hkv-server/src/server.rs:110-119 | engine state and reply of GET |
| Server.ServeSet | hkv-server/src/server.rs:121-157 | engine state and reply of SET in all its forms |
| Server.ServeSetEx | hkv-server/src/server.rs:136-154 | set and expire as two calls, with the error and panic cases |
| Server.ServeDel | hkv-server/src/server.rs:159-174 | engine state and reply of DEL, whose meaning is `CommandReplies.DelReply` |
| Server.DeleteKeys | hkv-server/src/server.rs:164-171 | deletes in turn and counts |
| Server.ServeExpire | hkv-server/src/server.rs:176-191 | engine state and reply of EXPIRE |
| Server.ServeTtl | hkv-server/src/server.rs:193-204 | engine state and reply of TTL |
| Server.DispatchCommand | hkv-server/src/server.rs:71-100 | the whole dispatch over the engine |
| CutReplies.LineTerminatedExactlyWithLf | hkv-client/src/resp.rs:121-132 | a line taken off a stream was terminated by CRLF if and only if the stream has a line feed |
| CutReplies.UnterminatedLineReads | hkv-client/src/resp.rs:121-132 | two unterminated streams that read as complete replies, one of them a printed reply cut short |
| CutReplies.CutReply | hkv-client/src/resp.rs:58-119 | any proper prefix of a printable reply is an error or uses up the stream, and an error for the safe ones |
| CutReplies.UnsafeCut | hkv-client/src/resp.rs:58-119 | every other printable reply has a proper prefix that reads as a different reply |
| CutReplies.CutsFailExactlyWhenSafe | hkv-client/src/resp.rs:58-119 | every cut of a printable reply is an error if and only if no status or error text with CR ends it |
| CutReplies.DispatchCutSafe | hkv-server/src/server.rs:71-204 | every reply of the server is such a reply |
| CutReplies.TruncatedServerReplyIsError | hkv-server/src/server.rs:71-204 | a server reply that does not arrive whole is an error to the client |
| CutReplies.TruncatedStreamIsError | hkv-server/src/server.rs:36-66 | the same for everything a connection writes, cut anywhere |
| EndToEnd.WireIsDirect | hkv-client/src/client.rs:164-237 | any call over the wire returns what the engine call returns and leaves nothing unread |
| EndToEnd.StreamOfRepliesDecodes | hkv-server/src/server.rs:36-66 | whatever arrives and however cut, what the server writes decodes to the replies in order with nothing left over; `Pipelines` says which replies these are |
| Pipelines.ServeTurn | hkv-server/src/server.rs:42-65 | one turn of the inner loop: a command parsed, dispatched and its reply written, or the loop stops |
| Pipelines.ServeBuffer | hkv-server/src/server.rs:42-65 | the inner loop writes the replies to the commands complete in the buffer and leaves the engine as they leave it |
| Pipelines.ServeReads | hkv-server/src/server.rs:36-66 | the same for the loop of reads |
| Pipelines.ServeConnection | hkv-server/src/server.rs:27-69 | over any reads a connection writes the printed replies of `Written` and leaves the engine as they leave it |
| Pipelines.PipelineWritten | hkv-server/src/server.rs:36-66 | encoded commands followed by any bytes: the replies of the commands, then what those bytes deserve, unless a command costs the connection |
| Pipelines.PipelineIsPlainMap | hkv-server/src/server.rs:36-66 | any pipeline of client calls, cut anywhere, on a new unlimited server: every reply means the result of a plain map, and if the replies stop early the map's next result is a broken connection |
| Pipelines.PipelineNeverStale | hkv-server/src/server.rs:36-66 | on a bounded server every reply means the map's result or that of an absent key |
| Pipelines.MalformedTailGetsOneError | hkv-server/src/server.rs:56-63 | malformed bytes behind a pipeline cost its commands nothing: their replies, and then one error |
| EndToEnd.SessionSimulates | hkv-client/src/client.rs:164-237 | sessions with sweeps in between keep the simulation |
| EndToEnd.RemoteSessionIsPlainMap | hkv-client/src/client.rs:164-237 | sessions against an unlimited server are sessions with a plain map, seconds floored |
| EndToEnd.RemoteSessionNeverStale | hkv-client/src/client.rs:164-237 | against a bounded server every result is the map's or that of an absent key |
| Connections.ReplyIsDispatch | hkv-server/src/server.rs:71-204 | the reply to a client call is a function of the engine's answer alone, and that of the dispatch |
| Connections.ToldIsMeaning | hkv-client/src/client.rs:164-237 | over the wire the client is told what the engine's answer means |
| Connections.ClientsNeverStale | hkv-client/src/client.rs:164-237 | for any number of clients, sweeps and other callers interleaved, every result is the map's in the order of effect or that of an absent key, and each client's calls take effect in the order it made them |
| Connections.ClientsSeePlainMap | hkv-client/src/client.rs:164-237 | against an unlimited server, exactly the map's under the condition above |
| Pool.NeverSaturates | hkv-client/src/pool.rs:96-108 | the saturating subtractions never saturate |
| Pool.StepInv | hkv-client/src/pool.rs:64-156 | every step of every borrower keeps counts, ownership and clean wires |
| Pool.PoolSafe | hkv-client/src/pool.rs:64-156 | in every state: total is idle plus slots held, both limits kept, one owner per connection, idle connections clean |
| Pool.RunNeverSaturates | hkv-client/src/pool.rs:96-108 | over runs, a released slot or a connection not kept takes exactly one off the total, a connection kept takes nothing |
| Pool.ExhaustedMeansFull | hkv-client/src/pool.rs:64-71 | PoolExhausted means idle was empty at one instant of the call and total at its limit at a later one |
| Pool.IdleBalances | hkv-client/src/pool.rs:82-108 | between any two states of a run the idle queue grows by the connections returned to it minus those taken |
| Pool.QueueIsFifo | hkv-client/src/pool.rs:82-108 | in every state the connections that entered the idle queue are those that left it, in the same order, followed by the queue |
| Pool.RefusedWhileIdleExactly | hkv-client/src/pool.rs:64-71 | a refusal meets an idle connection if and only if, since the borrower found the queue empty, more were returned than taken |
| Pool.RefusedWhileIdle | hkv-client/src/pool.rs:64-71 | a run of six turns in which that happens, although the error is documented as having no idle connection |
| Pool.ConnectionPool.constructor | hkv-client/src/pool.rs:50-61 | a new pool is empty |
| Pool.ConnectionPool.PopIdleConnection | hkv-client/src/pool.rs:82-85 | the oldest idle connection, or none |
| Pool.ConnectionPool.Reserve | hkv-client/src/pool.rs:87-94 | a slot below the limit, or refusal |
| Pool.ConnectionPool.Release | hkv-client/src/pool.rs:96-99 | one slot less |
| Pool.ConnectionPool.Return | hkv-client/src/pool.rs:101-108 | kept if there is room, else one slot less |
| Pool.ConnectionPool.Acquire | hkv-client/src/pool.rs:64-80 | all four outcomes and the state each leaves |
| Pool.PooledConnection.constructor | hkv-client/src/pool.rs:119-125 | holds its connection, valid |
| Pool.PooledConnection.Exec | hkv-client/src/pool.rs:128-136 | a failed exchange invalidates the connection for good |
| Pool.PooledConnection.Release | hkv-client/src/pool.rs:139-156 | the connection is given up once, to the queue if valid and else as a free slot |
| Metrics.RankExists | hkv-server/src/metrics.rs:234-235 | every rank is taken by a sample |
| Metrics.PercentileBrackets | hkv-server/src/metrics.rs:229-252 | the r-th smallest sample is at most the answer, above every bound below the answer, and the answer is a bound, or the maximum if the sample exceeds them all |
| Metrics.PercentileIsLeastBound | hkv-server/src/metrics.rs:229-252 | the least bound that the r-th smallest sample does not exceed, or the maximum if there is none |
| Metrics.SumOfIsSum | hkv-server/src/metrics.rs:184-198 | the latency sum is the sum of the samples |
| Metrics.PercentileMonotone | hkv-server/src/metrics.rs:229-252 | answers are monotone in the rank |
| Metrics.LatencyHistogram.constructor | hkv-server/src/metrics.rs:166-179 | an empty histogram |
| Metrics.LatencyHistogram.Record | hkv-server/src/metrics.rs:184-198 | one more sample in the history, all counters following |
| Metrics.LatencyHistogram.TakeSnapshot | hkv-server/src/metrics.rs:201-215 | depicts the recorded samples |
| Metrics.PercentileUs | hkv-server/src/metrics.rs:229-252 | the percentile of the recorded samples, as `PercentileBrackets` pins it, none without samples |
| Metrics.BucketsSumToSamples | hkv-server/src/metrics.rs:184-198 | bucket counts add up to the number of samples |
| HistogramSteps.StepInv | hkv-server/src/metrics.rs:184-198 | every atomic update of every `record` keeps count, sum, buckets and maximum in balance with what is still owed |
| HistogramSteps.AtRestDepictsSamples | hkv-server/src/metrics.rs:184-198 | after any interleaving, with no call part-way, the counters depict exactly the samples that the calls of the run offered |
| MaxRegister.StepSafe | hkv-server/src/metrics.rs:255-263 | a step keeps the invariant, never lowers the register and, in the loop, uses up budget |
| MaxRegister.RunMonotone | hkv-server/src/metrics.rs:255-263 | the register never goes down |
| MaxRegister.RegisterIsMaximum | hkv-server/src/metrics.rs:255-263 | zero or the value of a call that has begun, and at least every value whose call has returned |
| MaxRegister.CallTakesBoundedTurns | hkv-server/src/metrics.rs:255-263 | under every interleaving a call with v takes at most v + 1 turns |
| RequestCounters.StepInv | hkv-server/src/metrics.rs:100-116 | every counter update keeps the books; inflight is positive when lowered |
| RequestCounters.CountersCountUpdates | hkv-server/src/metrics.rs:100-116 | requests, errors and samples are the numbers of their updates so far, inflight the requests entered less those left |
| RequestCounters.CountersConsistent | hkv-server/src/server.rs:42-65 | errors never exceed requests, and with no update part-way every request is in flight or sampled, also after failed writes |

## Left out

- Kernel cache, invalidation, promotion and tenant policies: hkv-kernel holds only a placeholder.
- hkv-common: constants, enum conversions and struct layouts, which have no behaviour of their own.
- TCP, tokio, timeouts, address parsing, real threads and the sleeping sweeper: streams are byte sequences, a connect succeeds or fails, the sweeper is a sequence of sweeps.
- Internals of the hash map, the hasher, `Arc`, `BytesMut` and `BufRead`: a map, an arbitrary function, and sequences. Allocation failure on a huge declared length is not modelled.
- Floating point: qps, averages, error rate and the rank computed in f64.
- INFO text and the `ping` and `info` calls of the client: INFO is an arbitrary byte string in a bulk reply.
- Pipelined commands of concurrent clients: `Connections` models clients that wait for each reply, as the client library does.
- Server.BoundedSetExPanics: gives no closed condition for a set that has to evict among several shards, where the round-robin decides; Server.PanicsExactlyOnDeadlines covers it through the state the set leaves.
- Accounting: a thread may make any sequence of changes under a lock, which includes the six operations; popping a victim under its lock is one step.
- Metrics.PercentileUs: takes an integer rank in place of the f64 percentile, because rounding is not modelled.
- Metrics.LatencyHistogram.Record: stated for one caller, because interleaved recording is the subject of HistogramSteps.AtRestDepictsSamples; its counters other than the sum do not wrap, because that takes 2^64 requests.
- Metrics.LatencyHistogram.TakeSnapshot: stated with no update in flight, because the counters are read one by one.
- Pool.ConnectionPool.Acquire: stated for a caller that meets no interference, because the interleaved protocol is the subject of Pool.PoolSafe and Pool.ExhaustedMeansFull.
- ServerParser.RespParser.ArrayLenTurn: leaves the buffer unspecified after an error, because the connection is closed without another look at it.
- ServerParser.RespParser.BulkLenTurn: leaves the buffer unspecified after an error, for the same reason.
- ServerParser.RespParser.BulkDataTurn: leaves the buffer unspecified after an error, for the same reason.
- ServerParser.RespParser.Parse: leaves the buffer unspecified after an error, because the connection is closed without another look at it.
- ClientResp.ReadLine: leaves the stream unspecified after an error, because the connection is discarded.
- ClientResp.ReadExact: leaves the stream unspecified after a short read, because the connection is discarded.
- ClientResp.ParseBulkLen: leaves the stream unspecified after an error, because the connection is discarded.
- ClientResp.ParseArrayLen: leaves the stream unspecified after an error, because the connection is discarded.
- ClientResp.ReadResponse: leaves the stream unspecified after an error, because the connection is discarded.
- hkv-bench, hkv-gui and the engine benchmark: placeholders and a driver.
