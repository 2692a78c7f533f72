# mini-cache, verified

A Dafny model of mini-cache: an in-memory cache server with expiry, an LRU memory cap, an append-only
log (AOF), primary/replica replication and a client-side sharding library. The model covers the engine
and everything that has to agree with it, and proves that they do agree - or states exactly when they
do not.

`dafny verify dfyconfig.toml` checks the whole project.

## How the model is organised

| file | what it holds |
|---|---|
| `Base`, `Decimal` | byte strings; decimal text of integers and its round trip |
| `Resp`, `Wire` | the RESP2 codec of `protocol.py`: encoder, command reader, reply reader; the grammar of its bytes, its limits in numbers, and typed lines |
| `CacheModel` | the store as functions on an ordered map with deadlines, a cap and lazy expiry |
| `StoreEngine` | the store as a class: ordered map, memory counter, expiry heap with stale pairs, eviction loop; each method refines a function of `CacheModel` |
| `SweepLaws`, `LruLaws`, `Counters`, `Footprints` | laws of the store over whole runs, and memory in bytes |
| `Commands`, `Handlers` | the command layer: parsing, SET grammar, effects; the handlers as methods on the store object |
| `Words` | what the words of a request say: each name, its arguments and the options of SET, as a relation that the parser is proved to compute, and the error replies |
| `TimedMap` | the reference that replies and effects are measured against: a bare map of values with deadlines |
| `Tales`, `CounterTales`, `Recency` | whole runs of requests, told from their words: what a key holds and GET answers, what a counter stands at, which keys are used and which are evicted |
| `LogScan`, `LogForms`, `TimedReplay`, `SetForms`, `Rewrite`, `CrashCuts` | the log: scan and repair, which written forms the repair understands, meaning of replay, normal forms, rewriting, and which cuts of the bytes are cuts between commands |
| `Bounds`, `Durability`, `Server` | sizes that stay within the wire's limits; the commit/rewrite/sweep/crash protocol as a step system; the log object and the write path as methods that perform its steps |
| `PlainMap`, `PlainDurability`, `TimedDurability` | a bare-map reference; what the protocol guarantees without deadlines and with them, earlier crashes included |
| `CommitProgress`, `PoolProgress` | that commits, rewrites and pooled requests can always finish, and in how few steps |
| `Replication`, `TimedReplicas`, `ReplicaLink`, `ReplicaStream` | the replication stream, without deadlines and with them, its bounded queue, and what a replica holds after any part of the bytes |
| `Replies`, `NameReadings`, `FrontDesk` | which replies of the command layer survive the trip to the client; the two readings of a command's name; the names the server answers itself |
| `Ring`, `RingLookups`, `Scatter`, `ClusterReads`, `Pool`, `Pipelines`, `PipelineRuns` | the consistent-hash ring and when its lookups fail, scatter/gather, cluster MGET, the connection pool over bytes, pipelines that read their replies off the connections, and what they do to the stores |

Modelling choices. Time is an integer number of milliseconds, one clock serves as monotonic and wall
clock, and each operation reads it once. A byte is a character. The ordered dictionary is a key sequence
plus a map. The binary heap is a multiset from which a least deadline is popped. The hash of the ring is
an arbitrary function, and so are the glob of KEYS and the decoding and upper-casing of names that are
not ASCII. Coroutines are step systems in which everything between two awaits is one step.

Crash axioms of the durability theorems: bytes covered by a finished fsync survive; of the later bytes of
the file any prefix may survive; replacing the file by a synced one is atomic and durable; and the bytes
a restart finds, with its truncation of a torn tail, are on disk when it goes on. No source line syncs at
a restart, so the last axiom does not cover a killed process that is restarted and then loses power.

## Where a promise fails, and exactly when

* **Replay runs at the present time.** An INCR, PERSIST or deadline extension that hit a key whose old
  deadline passes before the restart replays differently. `TimedReplay.ReplayFaithfulIffNoHazard` gives
  the exact condition; `SetForms.IncrementBeforeDeadlineIsResurrected` is a concrete run. One such
  increment is harmless after all: DECRBY by -2^63, which adds 2^63, cannot be applied to a missing key
  either, so the replay drops it. After a restart the records themselves are replayed at one time and,
  after a second crash, at a later one: `TimedDurability.SameAtBothIffSteady` is the condition for that.
* **MSET under a cap** may evict a key and write it again; its eviction DEL is sent after the MSET, so
  the replica loses the key. `Replication.ReplicaAgreesIffNothingBroughtBack` states the exact condition
  on the states before the MSETs and their pairs, `Replication.OnlyMsetClobbers` says no other command can
  do it, and `Replication.MsetBringsBackEvictedKey` is a concrete case. With deadlines the same is said by
  `TimedReplicas.AgreeStep` and, for whole runs, `TimedReplicas.TimedRunAgreesIff`.
* **EX to PX conversion** multiplies by 1000 and the replica checks 64 bits again:
  `SetForms.ReplicationFormOfSet` (exact condition), `SetForms.LargestExRefusedByReplica` (input). Such a
  SET is the other request that parts a replica in `TimedReplicas.TimedRunAgreesIff`.
* **A resync sends deadlines as whole seconds**, which EXPIRE reads as 64 bits. A deadline comes back late
  by at most a second, never early, iff its seconds fit; otherwise the EXPIRE is refused and the key stays
  for ever: `TimedReplicas.ResyncWithDeadlines` (exact condition), `TimedReplicas.LongestTimeIsLost` (input).
* **Simple strings and errors** come back from `encode` and `read_reply` iff they hold no LF and are at
  most 65534 bytes long: `Resp.ReplyRoundTrip`.
* **The error reply to an unknown command repeats its name as it came.** A name with CR LF in it ends the
  reply early: the client takes the first line for the answer, returns the connection to the pool with
  bytes unread, and the next request reads them as its answer (`PoolProgress.LeftoversAreTheAnswer`);
  `Replies.ForgedAnswer` is an input that makes the client read OK.
* **SYNC turns a pooled connection into a replication stream.** A pipeline accepts SYNC with any key, the
  server ignores its arguments, the client reads the FLUSHDB message as the reply and pools a connection
  on which the snapshot, heartbeats and live writes go on arriving: `FrontDesk.SyncWithAKey` is the input,
  `FrontDesk.FlushReadAsReply` what the client reads. `FrontDesk.PoolRightIff` says that these two kinds of
  request, told from their name before the call, and no other, make a pooled request read something else
  than its replies; `FrontDesk.ServedHarmlessIff` says it of one request; `FrontDesk.ServedTransportableIff`
  and `Pipelines.PipelineReplyIff` say exactly which requests are answered faithfully.
* **Ring collisions** break the agreement of list and map: `Ring.AgreementIffNoCollision`. A lookup can
  fail, after some edits of some of the nodes, iff two different nodes share a point:
  `RingLookups.LookupsNeverFailIffNoSharedPoint`. `Ring.CollisionBreaksLookup` is an input, and
  `RingLookups.OwnCollisionsAreHarmless` shows that collisions within a node are not one.
* **One command may be several log records**: the two of a SET with a time to live, and a DEL for each key
  the command evicted. `CrashCuts.CommandAtomicIff` says, under any cap, that exactly the commands that
  took effect with one of these can be halved by a crash, `CrashCuts.CrashAtomicIff` says for whole runs
  which cuts do, `CrashCuts.TornSetLosesDeadline` that the key of the first kind then comes back for ever,
  and `CrashCuts.EvictingSetIsHalved` is a plain SET of the second kind.
* **A retry on a reused connection** repeats the request, which may then be executed twice:
  `Pool.RetryRepeatsRequest`, and for the batches of a pipeline `Pipelines.ExecutedInAll`.
* **An MGET, or a KEYS, with too many elements** is refused by the reader: `ClusterReads.ClusterMget` and
  `Replies.ReplyTransportableIff` give the exact bounds.
* **The repair of a torn log** trusts the lengths of re-encoded commands. On arbitrary bytes
  `LogScan.OffsetRightIff` and `LogScan.RepairRightIff` say exactly when that is right, and
  `LogForms.ArrayKeepsLengthIff` which arrays keep their length, told from their header lines;
  `LogScan.InlineLineDefeatsRepair` is a hand-written inline line before a torn tail, which the repair
  keeps and pads with zero bytes.
* **Names outside ASCII.** The server decides whether to log and replicate from an ASCII reading of the
  name (`src/mini_cache/server.py:352`), `dispatch` runs the command from a Unicode one
  (`src/mini_cache/commands.py:23`). `NameReadings.PublishedIffReadAsWrite`: a write that took effect is
  logged and sent iff the server reads its name as a write. `NameReadings.LongSetIsNotPublished` is SET
  with a long s: run, answered OK, neither logged nor sent. `NameReadings.HeardRunAgreesIff` says for whole
  runs, whatever the names, when a replica agrees. The evictions of such a command go out with the next
  published write, too late. The durability and replay theorems are about requests that both readings take
  for the same, which `NameReadings.AsciiUnderstood` says of every ASCII name.

## Model

| member | source | states |
|---|---|---|
| `Resp.CommandRoundTrip` | src/mini_cache/protocol.py:39-57 | reading the encoding of any command within the length limits, followed by any bytes, returns the command and leaves those bytes |
| `Resp.CommandPrefixFree` | src/mini_cache/protocol.py:39-93 | no strict non-empty prefix of an encoded command reads as a command: every one is an error |
| `Resp.CommandsReadAreWithinLimits` | src/mini_cache/protocol.py:39-93 | a command read as an array is always one that the encoding can carry |
| `Resp.EncodeCommandIsEncode` | src/mini_cache/protocol.py:96-117 | encoding a command is encoding the array of its bulk strings |
| `Resp.ReplyRoundTrip` | src/mini_cache/protocol.py:96-151 | `read_reply` inverts `encode` at any nesting depth on exactly the transportable values (no LF in text, lengths within the line and size limits), and on no other |
| `Resp.RepliesRoundTrip` | src/mini_cache/protocol.py:111-151 | the same for the elements of an array, read one after the other |
| `Resp.BatchReadIff` | src/mini_cache/cluster.py:324-329 | the byte stream of the replies to a batch is read as exactly those replies, with nothing left, iff every one is transportable |
| `Resp.HarmlessBatchOf` | src/mini_cache/cluster.py:324-329 | a batch of replies each of which is read back or refused is itself read back whole or refused |
| `Resp.HarmlessShort` | src/mini_cache/cluster.py:324-329 | reading more replies than there are, each of them read back or refused, fails; reading as many does no harm |
| `Wire.EncodedForm` | src/mini_cache/protocol.py:96-117 | what is sent for a value is its text in the grammar of RESP2: the tag, a decimal number without leading zeros that denotes the length, CR LF, and the parts |
| `Wire.CommandArrivesIff` | src/mini_cache/protocol.py:8-57 | a command arrives as it was sent iff it has at most 1048576 words, none longer than 67108864 bytes |
| `Wire.LineArrivesIff` | src/mini_cache/protocol.py:60-70 | a one-line reply arrives iff it has no LF and at most 65534 bytes |
| `Wire.ValueArrivesIff` | src/mini_cache/protocol.py:120-151 | a stored value arrives iff it has at most 67108864 bytes |
| `Wire.WordsOfLine` | src/mini_cache/protocol.py:44-45 | the words of a typed line: a solid line is one word, and at any blank the line falls into the words before it and those after it |
| `Wire.TypedCommandRead` | src/mini_cache/protocol.py:39-45 | words typed with blanks between them are read as those words, unless the line begins like an array |
| `Wire.NullForms` | src/mini_cache/protocol.py:49-85 | an array of negative length is an empty command, and a null string an empty word; as replies both are nil |
| `Decimal.ParseIntDenotes` | src/mini_cache/commands.py:56-60 | a text is accepted as an integer iff it is digits after at most one minus sign, and it denotes their place value |
| `Decimal.IntTextRoundTrip` | src/mini_cache/store.py:22-35 | printing an integer and parsing the text gives the integer back |
| `LogScan.TornTail` | src/mini_cache/aof.py:166-191 | cutting the encoding of any records at any byte, replay runs exactly the whole records before the cut, the good offset is their exact length, and a tail is reported iff bytes remain |
| `LogScan.WholeRecordsIsLargest` | src/mini_cache/aof.py:175-191 | the number of records run is the largest whose encoding fits before the cut |
| `LogScan.RepairedLog` | src/mini_cache/aof.py:193-206 | after the repair the file is the encoding of exactly the surviving records |
| `LogScan.RepairThenAppend` | src/mini_cache/aof.py:105-206 | appending to a repaired file and replaying gives the old prefix followed by the new records, with no tail |
| `LogScan.OffsetRightIff` | src/mini_cache/aof.py:175-191 | on any bytes whatever, the offset is right after every command read iff each command re-encodes to the length it was read from |
| `LogScan.RepairRightIff` | src/mini_cache/aof.py:193-206 | the repair of any torn file keeps exactly the bytes of the commands that were run iff the final offset is right |
| `LogForms.ArrayKeepsLengthIff` | src/mini_cache/protocol.py:39-93 | a command written as an array re-encodes to the length it was read from iff its count is not negative and the padding of its headers (zeros or plus signs; none iff they are canonical) equals the number of its null bulk strings |
| `LogForms.HeaderAtLeast` | src/mini_cache/protocol.py:32-36 | the text of a number in a header is at least as long as the canonical one, and as long only if it is that |
| `LogScan.InlineLineDefeatsRepair` | src/mini_cache/aof.py:185-206 | an inline line before a torn tail: the line is run, and the repair keeps the tail and pads the file with six zero bytes |
| `CacheModel.StepWF` | src/mini_cache/store.py:62-174 | every operation keeps the ordered map well formed: distinct keys, keys of order and map equal, recorded sizes right |
| `SweepLaws.SameStep` | src/mini_cache/store.py:62-223 | no operation can tell apart two stores that differ only in expired entries: same reply, same evictions, same live state |
| `SweepLaws.EvictFromLive` | src/mini_cache/store.py:215-223 | eviction depends only on the unexpired part, because it sweeps before it chooses victims |
| `SweepLaws.SweepsUnobservable` | src/mini_cache/store.py:183-193 | erasing every sweep from any run with a non-decreasing clock changes no reply, no drained eviction and no live entry |
| `SweepLaws.SweepTimingUnobservable` | src/mini_cache/store.py:183-223 | any two runs that differ only in where and how often they sweep give the same observations |
| `LruLaws.UsedRemove` | src/mini_cache/store.py:208-213 | removing a key frees exactly the size recorded in its entry |
| `LruLaws.UsedPut` | src/mini_cache/store.py:199-206 | writing a key replaces its old size, if any, by the new one |
| `LruLaws.ShortestSufficientPrefix` | src/mini_cache/store.py:215-223 | the victims are a prefix of the LRU order, enough to end the need to evict, and no shorter prefix is |
| `LruLaws.StepWithinCap` | src/mini_cache/store.py:62-223 | every operation keeps memory within the cap or leaves at most one key |
| `LruLaws.AlwaysWithinCap` | src/mini_cache/store.py:199-223 | in every reachable state of an LRU store memory is within the cap or at most one key remains |
| `LruLaws.MostRecentSpared` | src/mini_cache/store.py:218-223 | eviction never takes the most recently used key |
| `LruLaws.WrittenKeySurvives` | src/mini_cache/store.py:62-92 | a key just written without a deadline or with a later one survives its own eviction round with its entry |
| `LruLaws.StepOrder` | src/mini_cache/store.py:62-174 | after any operation the untouched survivors keep their relative order and the key used is last |
| `LruLaws.OrderIsRecency` | src/mini_cache/store.py:133-141 | in every reachable state the key order is the order of the last successful get, set or incr |
| `Footprints.UsedIsFootprint` | src/mini_cache/store.py:195-197 | the memory in use is 96 bytes for each entry and the bytes of its key and value |
| `Footprints.EvictsFewestOldest` | src/mini_cache/store.py:215-223 | an eviction round takes nothing under noeviction, without a limit or within it; otherwise the oldest live keys, as few as leave the rest within the limit or a single key |
| `StoreEngine.Store.constructor` | src/mini_cache/store.py:45-60 | a new store is empty and satisfies the representation invariant |
| `StoreEngine.Store.Set` | src/mini_cache/store.py:62-68 | acts on the ordered map as the model's SET, keeps memory sum, heap cover and heap bound, records the evictions in order and counts one write |
| `StoreEngine.Store.Incr` | src/mini_cache/store.py:70-92 | the same for increments, with the two rejections, and one write counted only on success |
| `StoreEngine.Store.Delete` | src/mini_cache/store.py:94-100 | removes the key; true only if it was alive; the invariant is kept |
| `StoreEngine.Store.Expire` | src/mini_cache/store.py:102-111 | moves the deadline of a live key and schedules it; drops an expired one; the invariant is kept |
| `StoreEngine.Store.ExpireAtUnix` | src/mini_cache/store.py:113-114 | the same for an absolute deadline |
| `StoreEngine.Store.Persist` | src/mini_cache/store.py:116-126 | clears a deadline, leaving a stale pair that the invariant allows |
| `StoreEngine.Store.Flush` | src/mini_cache/store.py:128-131 | empties the store; the invariant is kept |
| `StoreEngine.Store.Get` | src/mini_cache/store.py:133-141 | returns the value stored under the key if it has no deadline or one still to come, and moves the key to the recent end; otherwise nothing, and drops an expired entry |
| `StoreEngine.Store.TimeToLive` | src/mini_cache/store.py:146-155 | remaining time, permanence or absence, without changing the order |
| `StoreEngine.Store.KeyList` | src/mini_cache/store.py:157-159 | the live keys in LRU order, after a sweep |
| `StoreEngine.Store.TakeSnapshot` | src/mini_cache/store.py:161-170 | one row for each live entry, in LRU order, with its remaining time |
| `StoreEngine.Store.Length` | src/mini_cache/store.py:172-174 | the number of live keys |
| `StoreEngine.Store.SweepExpired` | src/mini_cache/store.py:183-193 | popping due pairs and ignoring stale ones removes exactly the entries expired by now, and counts them |
| `StoreEngine.Store.PutEntry` | src/mini_cache/store.py:199-206 | replaces or adds the entry, moves its key last and keeps the memory counter equal to the sum of sizes |
| `StoreEngine.Store.RemoveKey` | src/mini_cache/store.py:208-213 | removes an entry and its exact size; nothing changes if the key is absent |
| `StoreEngine.Store.EvictLru` | src/mini_cache/store.py:215-223 | sweep, then the eviction loop: resulting state and recorded victims are those of the model |
| `StoreEngine.Store.Schedule` | src/mini_cache/store.py:225-233 | the pair is pushed, unless the heap would exceed 4 times the keys plus 1024: then it is rebuilt with no stale pair; either way every entry with a deadline has its exact pair |
| `StoreEngine.SweptAll` | src/mini_cache/store.py:183-193 | when no pair is due, a heap that covers the deadlines proves that no entry is expired |
| `StoreEngine.LeastExists` | src/mini_cache/store.py:185-187 | a non-empty heap has a least deadline to pop |
| `Counters.CounterExact` | src/mini_cache/store.py:70-92 | over any run that does not otherwise disturb the key, at every moment its text parses to the start plus the successful increments so far, within 64 bits, with its deadline kept |
| `Counters.IncrCounter` | src/mini_cache/store.py:70-92 | on a live counter an increment writes the text of the sum under the same deadline, or is rejected for overflow and changes nothing |
| `Counters.RejectedIncrementChangesNothing` | src/mini_cache/store.py:75-79 | a rejected increment leaves everything alive as it was and evicts nothing |
| `Words.ParsedIffSaid` | src/mini_cache/commands.py:19-280 | the parser gives a command iff the words of the request say it: each of the twenty names in any case, its number of arguments, the amount and its sign for INCR, DECR, INCRBY and DECRBY, seconds or milliseconds for EXPIRE, PEXPIRE, EX and PX, the options of SET |
| `Words.PairsByPosition` | src/mini_cache/commands.py:157-158 | MSET has half as many pairs as arguments, the i-th made of the arguments at 2i and 2i+1 |
| `Words.RefusedWhere` | src/mini_cache/commands.py:91-121 | options of SET that are refused make sense up to some word, and the message says what is wrong there: an unknown option, a second or unfinished time, NX with XX, no 64-bit integer, or a time that is not positive |
| `Words.Refusals` | src/mini_cache/commands.py:19-35 | a request that says no command is told so: empty, unknown name, wrong number of arguments for a known one, and what is wrong with the argument |
| `TimedMap.StepTells` | src/mini_cache/store.py:62-174 | every operation of the store answers what the reference map answers to what is alive, under any cap and with any expired entries still about |
| `TimedMap.StepLeaves` | src/mini_cache/store.py:62-131 | every operation leaves at every key what the reference leaves, or nothing if it evicted the key |
| `TimedMap.CommandAnswered` | src/mini_cache/commands.py:124-256 | the reply of every command, from what is alive: the stored value or nil for GET and MGET, the previous value for SET with GET, distinct keys counted by DEL and positions by EXISTS, seconds rounded up by TTL, the matching keys in order of use by KEYS, sums and both errors of increments |
| `TimedMap.CommandLeft` | src/mini_cache/commands.py:137-251 | what every command leaves at every key, values and deadlines, under any cap, evicted keys apart |
| `Tales.RequestServed` | src/mini_cache/commands.py:19-35 | every request is answered, and leaves at each key, what the reference does with the command its words say; if they say none, an error and no change |
| `Tales.GetAnswersValue` | src/mini_cache/commands.py:148-150 | GET answers the value stored under the key if it has no deadline or one still to come, else nil |
| `Tales.MsetByPosition` | src/mini_cache/commands.py:153-159 | without a cap, after MSET each key named holds, without a deadline, the argument after its last mention, and every other key what it held |
| `Tales.TaleIsTrue` | src/mini_cache/commands.py:137-251 | after any run of requests, under any cap, a store holds at a key what the requests say, given which of them evicted it |
| `Tales.GetTellsTheTale` | src/mini_cache/commands.py:148-150 | and so GET answers |
| `Tales.LastWriteIsRead` | src/mini_cache/store.py:133-141 | after any run, GET answers the value last written to the key, if no request since has written, deleted, re-timed or evicted it and its deadline has not come |
| `CounterTales.CounterRequest` | src/mini_cache/commands.py:167-191 | a request that asks to add to a live counter is answered the sum and stores its text under the same deadline if it has 64 bits; otherwise it is refused and nothing alive changes |
| `CounterTales.CountsByOne` | src/mini_cache/commands.py:174-181 | on a counter that stands at n, INCR and DECR answer and store n + 1 and n - 1, or are refused |
| `CounterTales.CountsUp` | src/mini_cache/commands.py:184-186 | INCRBY by d answers and stores n + d, or is refused |
| `CounterTales.CountsDown` | src/mini_cache/commands.py:189-191 | DECRBY by d answers and stores n - d, or is refused |
| `CounterTales.RunCounts` | src/mini_cache/commands.py:167-191 | over any run of requests that otherwise spare the counter, under any cap that does not evict it, it stands at the start plus the amounts named by the requests that were answered, with its deadline |
| `Recency.CommandUses` | src/mini_cache/commands.py:137-256 | which keys a command uses: GET, MGET and EXISTS those they find, SET, MSET and increments those they write or look at; EXPIRE, TTL, PERSIST, KEYS, DEL none; the order is moved by these and by nothing else |
| `Recency.RunOrdered` | src/mini_cache/store.py:133-141 | after any run of requests, under any cap, the store's order is the unused keys as they were and then the used ones by their last use |
| `Recency.LeastRecentlyUsedGo` | src/mini_cache/store.py:215-223 | after any run of requests, every key that a SET or an increment evicts was last used before every key that stays |
| `Commands.ParseSetLoop` | src/mini_cache/commands.py:98-121 | the option loop over a moving index computes the grammar of SET, errors included |
| `Commands.ParsePrintSet` | src/mini_cache/commands.py:98-121 | parsing inverts printing on all valid SET options |
| `Commands.ParsedSetReprints` | src/mini_cache/commands.py:91-121 | everything the parser accepts is valid, and printing it and parsing again gives it back |
| `Commands.ParseSetPx` | src/mini_cache/replication.py:36-41 | a SET with PX parses back iff its milliseconds fit 64 bits |
| `Commands.DispatchWF` | src/mini_cache/commands.py:19-35 | any command, valid or not, keeps the ordered map well formed |
| `Handlers.RunSet` | src/mini_cache/commands.py:137-145 | the handler's lookups, condition and write have the modelled effect, reply, evictions and write count |
| `Handlers.RunMset` | src/mini_cache/commands.py:153-159 | the loop over given pairs has the modelled effect; evictions accumulate in order (which pairs a request gives is `Words.PairsByPosition`) |
| `Handlers.RunMget` | src/mini_cache/commands.py:162-164 | the loop of lookups returns the modelled values and touches the keys in order |
| `Handlers.RunIncr` | src/mini_cache/commands.py:167-191 | an increment by a given amount answers the new number or the matching error (which amount each name means is `Words.ParsedIffSaid`) |
| `Handlers.RunDel` | src/mini_cache/commands.py:194-196 | deletes in turn and counts the keys that were alive |
| `Handlers.RunKeys` | src/mini_cache/commands.py:238-245 | sweeps, and lists in LRU order exactly the keys that match the pattern, or all of them without one |
| `Handlers.RunCommand` | src/mini_cache/commands.py:19-35 | dispatch on the store object, given the name as it was read, has the modelled effect for every argument list, and its reply is the reference's to the command that the words say, or an error if they say none |
| `Handlers.RunReadable` | src/mini_cache/aof.py:175-191 | the replay loop over the bytes of a file runs the scanned commands and computes the scanned offset |
| `TimedReplay.CommandStep` | src/mini_cache/aof.py:42-63 | from states that agree on what is alive at T, running a command and replaying its records at T leaves agreeing states iff the command is not a hazard |
| `TimedReplay.ReplayRestoresLive` | src/mini_cache/aof.py:166-191 | for every hazard-free timed run on an uncapped store and every later T, replay gives exactly the keys, values and deadlines alive at T |
| `TimedReplay.ReplayFaithfulIffNoHazard` | src/mini_cache/aof.py:42-191 | replay is faithful at every point where the run could have stopped iff no command of the run was a hazard |
| `SetForms.AofFormOfSet` | src/mini_cache/aof.py:47-56 | under any memory cap: whenever a SET with any options takes effect, its log form run at the same instant leaves the very same cache, order included, evicts the same keys, and the key holds the value and deadline of the SET |
| `SetForms.ReplicationFormOfSet` | src/mini_cache/replication.py:27-41 | whatever the caps and contents of the two stores: the primary holds the entry written, and the replica does after the replicated form iff the milliseconds fit 64 bits or it already held that very entry; otherwise it answers an error and changes nothing |
| `SetForms.ReplicationFormSameStore` | src/mini_cache/replication.py:27-41 | on the same store a replicated form that fits leaves the same cache and evicts the same keys as the SET |
| `SetForms.ReplicationFormIdempotent` | src/mini_cache/replication.py:27-41 | normalising for replication twice is normalising once, for every command |
| `SetForms.LargestExRefusedByReplica` | src/mini_cache/replication.py:36-41 | SET with the largest EX takes effect on the primary and is refused by the replica |
| `SetForms.IncrementBeforeDeadlineIsResurrected` | src/mini_cache/store.py:70-92 | a concrete run whose INCR before the deadline makes the replay unfaithful |
| `Rewrite.BuildRewriteCommands` | src/mini_cache/aof.py:66-73 | sweeps the store and returns the records that rebuild its live entries in LRU order with absolute deadlines |
| `Rewrite.RewrittenLogRestores` | src/mini_cache/aof.py:66-73 | a fresh rewrite, replayed at any later time into a store with the same cap, restores the same entries, deadlines and LRU order and evicts nothing |
| `PlainMap.PlainExecOf` | src/mini_cache/commands.py:137-254 | without deadlines and cap every command acts on the store as on a bare map |
| `PlainMap.PlainLogged` | src/mini_cache/server.py:412-419 | the records logged for a command carry the bare map from before it to after it; a command not logged changed nothing |
| `Bounds.TtlFreeFormLoggable` | src/mini_cache/aof.py:42-63 | whatever the wire could carry as a request without a deadline, the log can carry as a record |
| `Bounds.FormLoggable` | src/mini_cache/aof.py:42-63 | the same for every request, deadlines included, if the clock fits 64 bits |
| `Bounds.RewriteLoggable` | src/mini_cache/aof.py:66-73 | the records of a rewrite can be carried by the log if keys, values and deadline texts fit a bulk string |
| `Bounds.StoreStaysBounded` | src/mini_cache/commands.py:19-35 | whatever comes over the wire, keys and values stay within the size limit, with deadlines, counters and a cap |
| `Durability.StepInv` | src/mini_cache/aof.py:105-164 | every step - write, lock, fsync done, cancellation, rewrite start, temporary file written, swap, failure, background sweep, crash - keeps the invariant tying memory, file, sequence numbers and rewrite buffer together |
| `Durability.RecoveredRecords` | src/mini_cache/aof.py:166-206 | a crash keeping the synced bytes and any prefix of the rest is read as the last snapshot and the records appended since, up to the n-th, with n between the durable and the current sequence number, deadlines allowed; the repaired file holds just these |
| `PlainDurability.StepMeaning` | src/mini_cache/aof.py:105-164 | every step without deadlines keeps memory, file and rewrite meaning what the records say |
| `PlainDurability.RecoverySound` | src/mini_cache/aof.py:166-206 | without deadlines a restart finds the contents after n records, with n covering everything durable |
| `PlainDurability.NoAcknowledgedWriteLost` | src/mini_cache/server.py:411-427 | after any interleaving of steps without deadlines, sweeps and earlier crashes included, recovery covers every acknowledged commit |
| `PlainDurability.RewriteAlwaysPossible` | src/mini_cache/aof.py:136-140 | without deadlines a rewrite can start in every reachable state in which none is in progress |
| `TimedDurability.AgreeReplay` | src/mini_cache/aof.py:175-191 | replaying the same records at the same time from states that agree on what is alive keeps them in agreement |
| `TimedDurability.RecordStep` | src/mini_cache/aof.py:166-191 | from states that agree on what is alive at T, one log record replayed now and again at T leaves agreeing states iff it is no hazard |
| `TimedDurability.SameAtBothIffSteady` | src/mini_cache/aof.py:166-191 | every prefix of a log means the same, as far as it is alive at T, replayed now and at T, iff no record met in the replay now is a hazard |
| `TimedDurability.StepTimed` | src/mini_cache/aof.py:105-164 | every step, with deadlines, that is no hazard at T - sweeps, and crashes whose restart replays steady records, included - keeps memory, snapshots and history in agreement at T |
| `TimedDurability.NoAcknowledgedTimedWriteLost` | src/mini_cache/server.py:411-427 | with deadlines: after any interleaving of writes, commits, rewrites, failures, cancellations, sweeps and earlier crashes in which no command and no replayed record is a hazard at T, a crash and a restart at T recover what is alive at T of the memory after n records, n covering every acknowledged commit |
| `TimedDurability.BoundaryOrSplit` | src/mini_cache/server.py:416-419 | in a run without crashes every record count is that of some moment, except between the two records of a SET with a time to live |
| `CrashCuts.OnlyWritesEvict` | src/mini_cache/server.py:413-424 | a command whose evictions are not drained has none |
| `CrashCuts.AtomicIffOneRecord` | src/mini_cache/aof.py:166-191 | every byte cut of some records recovers all of them or none iff there is at most one |
| `CrashCuts.CommandAtomicIff` | src/mini_cache/server.py:413-424 | under any cap, every byte cut of what a command appends recovers all of it or nothing iff it did not take effect, or set no time to live by SET and evicted nothing |
| `CrashCuts.CrashAtomicIff` | src/mini_cache/server.py:413-424 | under any cap, with deadlines: what survives a cut of the log of a run is the log of a prefix of its requests iff the cut does not fall among the records of a request that set a time to live by SET or evicted |
| `CrashCuts.UncappedFullLog` | src/mini_cache/server.py:413-424 | without a cap the log of a run is the one whose replay is studied |
| `CrashCuts.TornSetLosesDeadline` | src/mini_cache/aof.py:47-56 | a crash between the two records brings the key back without its deadline |
| `CrashCuts.EvictingSetIsHalved` | src/mini_cache/server.py:413-424 | a plain SET that evicts appends two records, and some cut recovers one of them |
| `Durability.DurableNeverDecreases` | src/mini_cache/aof.py:114-164 | between crashes neither the durable nor the acknowledged sequence number decreases |
| `Durability.CommitReturnsDurable` | src/mini_cache/aof.py:114-125 | when a commit returns, the durable number is at least the sequence number seen on entry |
| `Durability.CommitWaitsForItsRecords` | src/mini_cache/aof.py:114-119 | a commit entered after a write waits for exactly the records appended so far |
| `CommitProgress.EveryCommitCanReturn` | src/mini_cache/aof.py:114-125 | after any run of steps, crashes included, every commit in progress can return within three steps - the end of the running fsync, its turn, its own fsync - with its records durable |
| `CommitProgress.WaiterReturns` | src/mini_cache/aof.py:120-125 | with the lock free a waiting commit returns in one step iff its records are durable already, else after one fsync |
| `CommitProgress.ReturnsAtOnceIff` | src/mini_cache/aof.py:117-119 | a write that succeeded returns at once iff every record is durable already |
| `CommitProgress.OneSyncServesAll` | src/mini_cache/aof.py:120-125 | group commit: whatever happens during one client's fsync, crashes apart, its end lets everyone whose records were in the log when it began return without an fsync of their own |
| `CommitProgress.RewriteCanFinish` | src/mini_cache/aof.py:136-164 | a rewrite in progress can be finished within three steps: the file is then its snapshot and everything appended since, all of it durable |
| `Server.AofLog.Append` | src/mini_cache/aof.py:105-112 | appends the encoding to the file and to an open rewrite buffer and advances the sequence number |
| `Server.AofLog.EnterCommit` | src/mini_cache/aof.py:114-119 | performs the protocol's commit entry: return at once when durable, else wait for the sequence number seen |
| `Server.AofLog.LockAcquired` | src/mini_cache/aof.py:120-124 | performs the lock step when it is enabled and keeps the invariant: return if a shared fsync covered it, else start one up to the current end |
| `Server.AofLog.FsyncDone` | src/mini_cache/aof.py:123-125 | performs the sync step when it is enabled and keeps the invariant: publishes the number read before the fsync, not the current one |
| `Server.AofLog.CancelCommit` | src/mini_cache/aof.py:120-125 | performs the cancellation step and keeps the invariant: the client leaves and the lock is given back |
| `Server.AofLog.BeginRewrite` | src/mini_cache/aof.py:136-141 | performs the rewrite start and keeps the invariant; refused, with no change, while another is in progress |
| `Server.AofLog.SwapFiles` | src/mini_cache/aof.py:144-156 | performs the swap when it is enabled and keeps the invariant: snapshot plus buffered tail replace the file, all of it durable |
| `Server.AofLog.FailRewrite` | src/mini_cache/aof.py:157-161 | performs the failure step and keeps the invariant: the log file stays and the buffer goes |
| `Server.AofLog.ReplayInto` | src/mini_cache/aof.py:166-206 | runs the scanned commands on the store, truncates the file to the good offset after an error, drops recorded evictions |
| `Server.Restart` | src/mini_cache/aof.py:166-206 | opening and replaying the bytes a crash left performs the crash step and establishes the invariant |
| `Server.ServeCommand` | src/mini_cache/server.py:411-427 | the write path, with its two readings of the name, has the modelled effect and reply; iff the server reads a write and it succeeded, it appends the normal form if it took effect, then one DEL for each eviction recorded so far, sends each replica the matching messages (what these do is `TimedReplicas.AgreeStep`), and enters the commit; otherwise the evictions stay recorded |
| `Server.UncappedWriteIsProtocolStep` | src/mini_cache/server.py:411-426 | on a store without a cap, for an ASCII name, the write path is the write step of the durability protocol, and keeps its invariant |
| `NameReadings.AsciiUnderstood` | src/mini_cache/commands.py:19-35 | on an ASCII name the command layer does what the server's reading says |
| `NameReadings.CommitsByName` | src/mini_cache/server.py:414-414 | the server's test, on its own reading of the name and the reply, holds exactly for the successful writes of the model |
| `NameReadings.PublishedIffReadAsWrite` | src/mini_cache/server.py:411-426 | a write that took effect is logged and sent to replicas, with all its evictions, iff the server reads its name as a write; otherwise nothing is |
| `NameReadings.LongSetIsNotPublished` | src/mini_cache/server.py:352-426 | SET with a long s is run and answered OK, and neither logged nor sent |
| `NameReadings.HeardStep` | src/mini_cache/server.py:411-426 | from equal contents, a request of any name leaves primary and replica with equal contents iff: published, it brings back no evicted key and leaves none that an unpublished command evicted before; unpublished, it changes no contents |
| `NameReadings.HeardRunAgreesIff` | src/mini_cache/server.py:411-426 | for whole runs of requests of any names: equal contents at every request boundary iff no request parts them |
| `NameReadings.LateEvictionsGoOut` | src/mini_cache/server.py:414-424 | the evictions of requests that are not published wait and go out with the next one that is: its own form, then one DEL for each key evicted since, oldest first |
| `Server.ResyncCommands` | src/mini_cache/server.py:569-572 | the forced messages of a resync are FLUSHDB and the snapshot of the live entries in LRU order |
| `Server.SnapshotCommands` | src/mini_cache/replication.py:18-24 | the loop over the snapshot rows yields SET and, for a deadline, EXPIRE with the seconds rounded past the end |
| `Replication.CappedWrite` | src/mini_cache/store.py:215-223 | a write under the cap is the plain write less the victims, and the written key is none of them |
| `Replication.PropagateStep` | src/mini_cache/server.py:412-424 | from equal contents, a command on the primary and its messages on the replica leave equal contents iff the command is not an MSET that brings back a key it evicted |
| `Replication.OnlyMsetClobbers` | src/mini_cache/server.py:416-424 | only MSET can end with a key it evicted |
| `Replication.MsetClobbersIffBringsBack` | src/mini_cache/commands.py:153-159 | an MSET ends with a key it evicted iff, followed from the state before it, some round evicts a key, a later pair writes it, and no round after that evicts it |
| `Replication.SafeMsetBringsNothingBack` | src/mini_cache/commands.py:153-159 | an MSET that writes no key evicted by an earlier pair brings nothing back |
| `Replication.ResyncGivesContents` | src/mini_cache/server.py:569-573 | whatever the replica held, FLUSHDB and the snapshot give it the primary's contents |
| `Replication.ReplicaAgrees` | src/mini_cache/replication.py:97-115 | after a resync and the messages of any run that brings nothing back, replica and capped primary hold equal contents |
| `Replication.ReplicaAgreesIffNothingBroughtBack` | src/mini_cache/server.py:558-596 | they are equal at every command boundary iff no MSET of the run brings back a key it evicted |
| `Replication.ReplicaAgreesWhenMsetsAreSafe` | src/mini_cache/server.py:558-596 | they are equal at every command boundary if no MSET writes a key that one of its earlier pairs evicted |
| `Replication.MsetBringsBackEvictedKey` | src/mini_cache/server.py:416-424 | a concrete MSET that does |
| `TimedReplicas.ReplicatedFormDoesTheSame` | src/mini_cache/replication.py:27-41 | the replicated form of every write that took effect - EXPIRE, PEXPIRE, PEXPIREAT and PERSIST included, SET if it fits - run at the same instant on the same store leaves the same cache and evicts the same keys |
| `TimedReplicas.AgreeStep` | src/mini_cache/server.py:411-424 | from stores that agree on what is alive, deadlines included, a request on a capped primary and its messages on the replica at that instant leave them agreeing iff it is neither an MSET that brings back a key it evicted nor a SET whose form is refused and that changes its key |
| `TimedReplicas.TimedRunAgreesIff` | src/mini_cache/server.py:411-424 | for whole runs with deadlines, the replica running each message when it is sent: agreement after every request iff no request parts them |
| `TimedReplicas.ResyncWithDeadlines` | src/mini_cache/replication.py:18-24 | whatever the replica held, a resync gives it exactly the primary's keys and values, no deadline where there is none, and the others late by at most a second and never early iff their seconds fit 64 bits, else none |
| `TimedReplicas.LongestTimeIsLost` | src/mini_cache/replication.py:22-23 | a key set for the longest time that SET accepts comes back from an immediate resync without a deadline |
| `ReplicaLink.Link.SendPayload` | src/mini_cache/server.py:78-91 | performs the send step: the link is closed after it iff it was before or the payload is not forced and takes the pending bytes over the limit; otherwise the payload is queued |
| `ReplicaLink.Link.Pump` | src/mini_cache/server.py:93-97 | performs the pump step: takes the oldest payload and writes it |
| `ReplicaLink.Link.Drained` | src/mini_cache/server.py:97-98 | the drained payload stops being pending |
| `ReplicaLink.Link.CloseLink` | src/mini_cache/server.py:104-112 | closing is idempotent and loses no written byte |
| `ReplicaLink.NeverSkips` | src/mini_cache/server.py:78-112 | in every interleaving the bytes written are a prefix of what was offered, in order; while open, nothing is missing and the pending count is the queued plus in-flight bytes |
| `ReplicaLink.ClosedIsFinal` | src/mini_cache/server.py:78-112 | a closed link accepts and writes nothing more and stays closed |
| `ReplicaLink.PendingBounded` | src/mini_cache/server.py:78-91 | while the link is open, pending bytes are at most the limit or the size of the forced snapshot |
| `ReplicaLink.OpenIff` | src/mini_cache/server.py:78-112 | after any interleaving a link is open iff no close occurred and each unforced payload, with the bytes offered before it and not yet drained, was within the limit |
| `ReplicaLink.SentIsKept` | src/mini_cache/server.py:78-91 | a payload that leaves the link open is among those written or queued, at its place |
| `ReplicaLink.PumpsDeliver` | src/mini_cache/server.py:93-99 | after as many rounds of the pump as there are payloads waiting, and no close, everything offered has been written |
| `ReplicaStream.CatchesUp` | src/mini_cache/server.py:558-596 | a link that no payload closes, pumped often enough once nothing more is offered, brings the replica to hold what the primary holds, if nothing was brought back |
| `ReplicaStream.PrefixReceived` | src/mini_cache/replication.py:97-115 | whatever prefix of the bytes of a stream arrives, the replica has run a prefix of its records, heartbeats apart |
| `ReplicaStream.PartOfRequest` | src/mini_cache/server.py:416-424 | the first messages of one request leave on a replica the plain effect of the command less the evicted keys that came |
| `ReplicaStream.ReplicaIsPlausible` | src/mini_cache/server.py:78-112 | in every interleaving of the link, any prefix of the written bytes leaves the replica with what it held, with the oldest part of the snapshot, or at a point of the run that brings nothing back: the primary's contents between two requests, or the plain effect of one before all its evictions came |
| `ReplicaStream.CaughtUp` | src/mini_cache/server.py:558-596 | once an open link has written everything, a replica that got it holds what the primary holds, if nothing was brought back |
| `Ring.BisectRight` | src/mini_cache/cluster.py:77-77 | the first position whose element exceeds the hash |
| `Ring.BisectLeft` | src/mini_cache/cluster.py:69-69 | the first position whose element is at least the hash |
| `Ring.HashRing.AddNode` | src/mini_cache/cluster.py:57-63 | the loop of insertions performs the model's addition and keeps the list sorted, collisions or not |
| `Ring.HashRing.RemoveNode` | src/mini_cache/cluster.py:65-71 | the loop of deletions performs the model's removal and keeps the list sorted, collisions or not |
| `Ring.HashRing.GetNode` | src/mini_cache/cluster.py:73-80 | bisection with wrap-around computes the routing, with the empty ring and the missing point as errors |
| `Ring.LabelInjective` | src/mini_cache/cluster.py:61-61 | the labels of two points are equal only if node and index are |
| `Ring.InjectiveHasNoCollision` | src/mini_cache/cluster.py:85-88 | a hash injective on labels has no collision for any nodes and number of points |
| `Ring.Canonical` | src/mini_cache/cluster.py:48-71 | the ring that stands for a set of nodes is unique |
| `Ring.AddRepresents` | src/mini_cache/cluster.py:57-63 | without collisions, adding a node gives the ring of the larger set; a duplicate changes nothing |
| `Ring.RemoveRepresents` | src/mini_cache/cluster.py:65-71 | without collisions, removing a node gives the ring of the smaller set; an absent node changes nothing |
| `Ring.AfterRepresents` | src/mini_cache/cluster.py:48-71 | after any edits the list is strictly sorted, equals the map's keys, and holds exactly the points of the present nodes |
| `Ring.HistoryDoesNotMatter` | src/mini_cache/cluster.py:48-71 | two histories that leave the same nodes leave the same ring |
| `Ring.AddThenRemoveCancels` | src/mini_cache/cluster.py:57-71 | adding an absent node and removing it restores the ring exactly |
| `Ring.RouteFindsSuccessor` | src/mini_cache/cluster.py:73-80 | a key belongs to the node of the next point clockwise, wrapping round, and lookups never fail on a non-empty ring |
| `Ring.RemoveMovesOnlyItsKeys` | src/mini_cache/cluster.py:65-80 | removing a node changes the owner only of keys it owned |
| `Ring.AddMovesOnlyToNewNode` | src/mini_cache/cluster.py:57-80 | adding a node changes owners only to the new node |
| `Ring.AgreementIffNoCollision` | src/mini_cache/cluster.py:57-63 | a ring built from distinct nodes keeps list and map in agreement iff no two points collide |
| `Ring.CollisionBreaksLookup` | src/mini_cache/cluster.py:65-80 | a collision followed by a removal after which every lookup is a key error |
| `RingLookups.LookupsNeverFailIffNoSharedPoint` | src/mini_cache/cluster.py:57-80 | after no edits of some nodes can a lookup be a key error iff no two different nodes share a point |
| `RingLookups.OwnCollisionsAreHarmless` | src/mini_cache/cluster.py:57-80 | a node whose own points collide breaks the agreement and no lookup |
| `Scatter.Group` | src/mini_cache/cluster.py:316-318 | each owner maps to exactly its positions, in submission order |
| `Scatter.ShardView` | src/mini_cache/cluster.py:313-339 | seen from one shard, running everything one at a time is running its own commands in order |
| `Scatter.PipelineIsSequential` | src/mini_cache/cluster.py:313-339 | for every interleaving of the batches, the shards end in the states, and give the replies, of running the commands one at a time |
| `Scatter.Gather` | src/mini_cache/cluster.py:319-339 | filling the results group by group, in any order, puts each reply at the position of its command |
| `Scatter.GatheredIff` | src/mini_cache/cluster.py:319-339 | the gathered results are the reference in submission order, unanswered positions included, iff every group delivered the reference at its positions |
| `Pipelines.ExecuteMany` | src/mini_cache/cluster.py:313-334 | the whole pipeline over byte streams, batches served in any interleaving after any attempts that broke on reused connections: the results are the replies of running the commands one at a time, in submission order, on the shards as those attempts left them, iff every command got a reply that the wire can carry |
| `Pipelines.ExecutedInAll` | src/mini_cache/cluster.py:349-380 | what a shard has executed in the end: prefixes of its batch that broke, and then the batch |
| `Pipelines.Conclude` | src/mini_cache/cluster.py:335-339 | the results, or, when errors are to be raised, the first of them in submission order |
| `Pipelines.PipelineReplyIff` | src/mini_cache/cluster.py:313-339 | on stores with bounded contents, a call gets a good reply iff no earlier QUIT or SYNC of the pipeline ended the dialogue with its shard, it is no served SYNC, and the reply to it, from the server or from the command layer, is one the wire can carry |
| `PipelineRuns.CallServed` | src/mini_cache/server.py:354-427 | what a shard does with one call on an open connection: an ordinary request is run on its store and answered; any other changes no store, and only QUIT or a served SYNC ends the dialogue |
| `PipelineRuns.PipelineRunsRequests` | src/mini_cache/cluster.py:313-339 | a pipeline of ordinary requests leaves each shard's store as its own part of the requests leaves it, run one by one in submission order, and answers each what the command layer answers there |
| `ClusterReads.MgetIsGets` | src/mini_cache/commands.py:162-164 | each answer of MGET is the answer of a GET of that key alone |
| `ClusterReads.ClusterMget` | src/mini_cache/cluster.py:226-241 | the read fails iff some shard owns so many of the keys that its MGET exceeds the limit on arguments; otherwise position i is what a single get of key i returns on its shard |
| `Pool.PoolSafety` | src/mini_cache/cluster.py:341-380 | whatever the shards reply, in every interleaving of requests, errors, timeouts, cancellations and close: idle plus in-use connections never exceed the pool size, and every slot is free or held by one request |
| `Pool.AnswersRightIffHarmless` | src/mini_cache/cluster.py:341-380 | whatever shards do with a batch, streaming included: in every interleaving each successful request reads the shard's replies to it and no idle connection has bytes unread or to come, iff reading one reply for each command always gives those replies and leaves nothing, or fails |
| `PoolProgress.RequestGetsThrough` | src/mini_cache/cluster.py:349-380 | whatever other requests are doing, a waiting one gets its replies as soon as a slot is free: it takes the idle connection used last, or opens one if none is idle, and leaves slot and connection for the next |
| `PoolProgress.LastBackFirstOut` | src/mini_cache/cluster.py:355-377 | the connection that came back last is the first to be used again |
| `PoolProgress.LeftoversAreTheAnswer` | src/mini_cache/cluster.py:355-364 | replies left unread on an idle connection become the answer of the next request that uses it, and its own are left for the one after it |
| `PoolProgress.EndsGiveBack` | src/mini_cache/cluster.py:365-380 | however a request fails, its slot comes back and its connection does not; it starts over iff its connection was a reused one that broke |
| `PoolProgress.ClosedPoolOnlyShrinks` | src/mini_cache/cluster.py:375-380 | a closed pool stays closed and keeps no connection that comes back |
| `PoolProgress.ClosedPoolCanBeEmptied` | src/mini_cache/cluster.py:375-380 | closing its idle connections one by one empties it |
| `FrontDesk.PassedOnIff` | src/mini_cache/server.py:354-409 | a request reaches the command layer iff the client is let in, the name is none of the server's own five, and it is not turned away: a write on a replica, or one that asks for memory while a store that evicts nothing is over its limit |
| `FrontDesk.DeskAnswers` | src/mini_cache/server.py:354-387 | what the server answers itself, word for word: QUIT, AUTH, strangers, SYNC, INFO, BGREWRITEAOF |
| `FrontDesk.TurnedAway` | src/mini_cache/server.py:389-409 | which of the two refusals a request that is turned away is told |
| `FrontDesk.AuthIff` | src/mini_cache/server.py:278-287 | AUTH answers OK iff given the password, alone or after the user name default, and which of the three errors otherwise |
| `FrontDesk.LetInIff` | src/mini_cache/server.py:358-363 | a client is let in iff there is no password or the last AUTH it sent had the right one |
| `FrontDesk.RunsOnlyForClients` | src/mini_cache/server.py:354-413 | a request of a dialogue reaches the command layer only after the right AUTH, iff it is neither the server's own nor turned away |
| `FrontDesk.ServedHarmlessIff` | src/mini_cache/server.py:354-412 | a request's answer is a reply that is read back or refused iff its name forges no line and the server does not serve it as SYNC |
| `FrontDesk.ServedTransportableIff` | src/mini_cache/server.py:354-412 | the answer is a reply that is read back as it was sent iff the server answers itself, other than by streaming, or the request is clean for the command layer |
| `FrontDesk.PoolRightIff` | src/mini_cache/cluster.py:341-380 | whatever requests clients may send: every pooled request reads its own replies, in every interleaving, iff none of them forges a line with its name, as the error reply repeats it, and none is a SYNC that the server serves |
| `FrontDesk.SyncWithAKey` | src/mini_cache/server.py:371-380 | SYNC with a key, as a pipeline sends it, is served as a stream and forges nothing |
| `FrontDesk.FlushReadAsReply` | src/mini_cache/server.py:569-573 | the client reads the first message of the stream as its reply, and the rest stays unread |
| `Replies.ReplyTransportableIff` | src/mini_cache/commands.py:19-35 | for bounded contents the command layer's reply to a request is read back iff an unknown name holds no LF and fits the line, KEYS lists at most 1048576 matching keys, and TTL and DBSIZE fit the line |
| `Replies.ReplyHarmlessIff` | src/mini_cache/commands.py:25-27 | a reply of the command layer is taken for something else iff it answers an unknown command whose name has CR LF in it early enough |
| `Replies.ForgedAnswer` | src/mini_cache/commands.py:25-27 | a name after which the client reads a shortened error and then, whatever the shard says, OK |
| `Pool.SentOncePerAttempt` | src/mini_cache/cluster.py:349-380 | a request is sent once for each attempt, and attempted again only after one broke on a reused connection |
| `Pool.RetryRepeatsRequest` | src/mini_cache/cluster.py:371-373 | such a retry really sends the request twice |

## Left out

- Float arithmetic and separate clocks: times are integer milliseconds on one clock, read once per operation; a replica that runs a message later than it was sent sets later deadlines, and that drift is outside the agreement theorems.
- PlainDurability.NoAcknowledgedWriteLost: for commands without deadlines, with names that both readings take for the same, on a store without a cap, under fsync `always`; the `everysec` and `no` policies, `sync` and `sync_async` are not modelled, nor is a write of the temporary file that goes on after its rewrite was cancelled.
- TimedDurability.NoAcknowledgedTimedWriteLost: for stores without a cap and names that both readings take for the same; that the memory recovered is one that existed is said of the moments since the last crash.
- Server.Restart: takes the bytes it finds and its own truncation to be on disk, the last of the crash axioms above.
- Replication.ReplicaAgreesIffNothingBroughtBack: for commands without deadlines, the replica applying everything at one reading of the clock; TimedReplicas.TimedRunAgreesIff is for all commands, the replica applying each message when it is sent, from stores that agree to begin with. Names that the two readings take differently are the subject of NameReadings.HeardRunAgreesIff.
- TimedReplicas.ResyncWithDeadlines: the replica runs the whole resync at one reading of the clock.
- ReplicaStream.ReplicaIsPlausible: for runs in which no MSET brings back a key it evicted; after one, the replica differs as Replication says.
- TimedReplay.ReplayFaithfulIffNoHazard: for stores without a cap, since reads are not logged and a capped replay evicts in another order.
- Scatter.PipelineIsSequential: of batches that are served; attempts that broke before are in Pipelines.ExecuteMany, and a pipeline whose last attempt fails raises and gives no results.
- Pool.PoolSafety: the pool is a step system on values, not a class; a shard's own replies to a batch arrive as one step, what a stream sends later as further ones.
- ReplicaLink.Link.CloseLink: the removal of the link from the server's set and the cancellation of the pump task are not fields of the link; the model states what they are for, that nothing more is accepted or written.
- FrontDesk.Served: the state of the server (password, role, memory, a running rewrite, the text of INFO) is given with each request; that AUTH changes it is followed by FrontDesk.LetInIff, that BGREWRITEAOF does is not; requests beyond the wire's limits, which the server refuses before it reads a name, are not served.
- Integer texts are an optional minus sign and digits; the spaces, underscores, plus signs and digit-count limit of Python's `int` are not modelled. Text is its bytes.
- Keys and values are byte strings; the fixed size charged for other Python objects does not arise.
- Internals of `heapq` and of MD5: a multiset with a least element, and an arbitrary function.
- Hit, miss, expiry and eviction counters, what INFO says, client limits, and when memory is over the limit for the `noeviction` policy, which observes unswept memory.
- Sockets, heartbeats, timeouts and reconnection: a lost link is a close step, a timeout an abort step.
- The cluster client's `mset`, `keys`, `delete_pattern`, `flush_all` and `dbsize`.
