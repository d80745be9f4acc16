# Verified model of a Redis-like server

This project models the stateful cores of an in-memory key-value server written in Go and proves what
they keep in every reachable state:

- the skip list and the sorted set on top of it (`SkipPath`, `Skiplists`, `Zsets`),
- the quicklist over packed byte buffers, down to the bytes (`ListpackFormat`, `Listpacks`,
  `ListpackLimits`, `Memory`, `Quicklists`),
- the packed set of 16-bit integers (`Intsets`),
- the RESP codec, the incremental query buffer and the pipeline of commands (`Decimal`, `RespFormat`,
  `RespRoundTrip`, `RespStream`, `RespFrames`, `RespWire`, `Resp`, `QueryBuffers`); RESP is the Redis serialization protocol, and
  the sections "Simple strings", "Integers", "Bulk strings" and "Arrays" of its version 2 are meant,
- list values, their dump to the append-only file and the replay (`ListValues`, `AppendOnly`),
- transactions, publish/subscribe and blocking queues over every interleaving of client steps
  (`Sessions`, `SessionHistory`, `SessionInvariant`, `SessionGuarantees`, `SessionSignals`,
  `SessionDelivery`, `SessionWaiting`, `SessionDeadlines`, `SessionStore`, `SessionDispatch`,
  `SessionServer`), with legal runs in `SessionExamples`.

Where the program updates objects in place, so does the model: `Skiplist`, `Zset`, `Listpack`,
`Quicklist`, `Intset`, `QueryBuffer`, `ListStore`, `Client` and `Server` are classes whose methods
follow the code statement by statement and are proved against functions; the theorems are about those
functions. `Server` carries the list of event-loop steps taken so far as ghost state, and its entry
points keep it equal to a legal run, so the theorems about runs are theorems about it.

## How the pieces fit

*Skip list.* The search path is studied on positions and heights alone, for any heights. `Valid()` of a
list says that every forward pointer leads to the next node tall enough for its level; from that follow
the subsequence, termination and all-or-nothing facts. Insert compares scores only while Delete and
Search compare scores and members, so lookups among tied scores are not always complete;
`DeleteExact`, `InsertKeepsKeyOrder` and `AddCoherent` say exactly when they are, and `Zset.Run` does so
for whole runs of the class.

*Byte buffers.* A listpack is valid when its bytes are the packed form of its ghost entries. The
header words are modelled with their widths; the split rule is what keeps them exact.

*RESP.* `Parse` is the grammar the readers implement, with 64-bit wrap-around and the slices that would
panic as outcomes of their own. Negative integers and the null array are written but not read back;
`IntExact` and `ReturnExact` state which values come back, `NullArrayUnread` and `NullStringUnread` what
the nulls are read as, for every continuation.

*Sessions.* One world holds clients, tables, store and a log of events. `ViewOf` reads one client's
history off the log alone; the invariant ties the world to all these histories, and the guarantees are
statements about positions in the log. The effects of ordinary commands on the store are any sequence
of gets, puts, deletions, expiries, in-place changes and ready marks; RPUSH, LPUSH, INCR, EXPIRE and the
pop of one item are exact. The store holds lists by their items, counters by their values, and all other
values by a content that effects may rewrite. Clocks, timeouts, eviction victims and the order in which
maps are visited are parameters. `replies` is everything ever appended to a client's reply buffer, up to
its cleanup.

## Where the code and its promises differ

- A member of a sorted set added at the score of a smaller one hides it from Delete (`TiedMemberIsMissed`);
  `HiddenExact` and `Zset.Add` state the conditions.
- A range outside the list announces more values than it sends (`RangeHeaderExact`).
- Negative integers do not survive encoding and decoding, with one exception (`IntExact`).
- A client whose transaction was discarded can still be marked, so a clean transaction may abort:
  `StaleAbort` is such a run, `ExecAbortsExactly` the condition.
- Changes in place signal no watcher, so a transaction that should abort commits: `UnnoticedPush` and
  `UnnoticedIncr` are such runs, `PushSignalsExact`, `IncrSignalsExact` and `SilentRunExact` the conditions.
- A new value under a key keeps the deadline of the old one (`PutDeadline`), and BLPOP on an expired list that
  has items answers null instead of blocking (`BlpopOutcome`).
- Commands behind a blocking BLPOP in one read are dropped without a reply (`BatchExact`).
- Two BLPOPs in one transaction can put a client into two queues: `TwoBlpopsOneClient` is such a run,
  `BlockWaitsExact` the condition.
- The null array and the null string are written and never read back (`NullArrayUnread`, `NullStringUnread`).

## Model

| member | source | states |
|---|---|---|
| `Skiplists.Skiplist.Insert` | internal/ds/skiplist.go:60-91 | For any height the level draw yields, the node lands in front of the first node whose score is not lower; every level stays threaded, separate, sorted, nil-terminated and bounded by `level` |
| `Skiplists.Skiplist.Delete` | internal/ds/skiplist.go:93-120 | All or nothing: if the node behind the search path is the one asked for, exactly that node disappears, at every level it took part in; otherwise nothing changes |
| `Skiplists.Skiplist.Search` | internal/ds/skiplist.go:122-140 | Returns the node behind the search path when it has the member and score, else nil |
| `Skiplists.Skiplist.Zrange` | internal/ds/skiplist.go:142-160 | Exactly the nodes at positions start..stop of level 0, cut at both ends of the list |
| `Skiplists.Skiplist.Descend` | internal/ds/skiplist.go:63-75 | The multi-level descent records, for every level up to `level`, the stop of the search path on positions and heights |
| `Skiplists.Skiplist.RandomLevel` | internal/ds/skiplist.go:47-58 | Whatever the coin shows, the drawn level is at most 16 |
| `Bytes.LessExact` | internal/ds/skiplist.go:99 | The order of members is that of strings: a is a strict prefix of b, or smaller at the first byte where they differ |
| `Skiplists.LevelIsSubsequence` | internal/ds/skiplist.go:60-120 | Level i threads exactly the nodes of height at least i, in level-0 order, ends in nil, and is empty above `level` |
| `Skiplists.LinksAfterInsert` | internal/ds/skiplist.go:77-88 | Splicing at the recorded stops leaves every forward pointer at the next node tall enough for its level |
| `Skiplists.LinksAfterRemove` | internal/ds/skiplist.go:107-113 | Bypassing at the recorded stops does the same for the list without the target |
| `SkipPath.TargetLinked` | internal/ds/skiplist.go:107-113 | The stop of level i points at the target iff the target takes part in level i, tied scores included |
| `SkipPath.OnlyPredecessor` | internal/ds/skiplist.go:85-88 | At each level exactly one node at or before the final stop has its successor behind it: the recorded stop |
| `SkipPath.PathBracket` | internal/ds/skiplist.go:63-75 | Below level i the descent never leaves the gap between the stop of level i and its successor |
| `SkipPath.SearchExact` | internal/ds/skiplist.go:122-140 | A position is found for every choice of heights iff the loop guard holds exactly of the nodes ahead of it |
| `SkipPath.MissExact` | internal/ds/skiplist.go:122-140 | A position is missed for every choice of heights iff the guard holds of the node there or fails of the one ahead of it |
| `SkipPath.LevelPositions` | internal/ds/skiplist.go:60-91 | The positions of level i are those of height at least i, each once, in increasing order |
| `Skiplists.SearchIsLinearScan` | internal/ds/skiplist.go:122-140 | On a list sorted by score and member the search ends where a linear scan of level 0 would, and a match is unique |
| `Skiplists.DeleteExact` | internal/ds/skiplist.go:93-105 | A stored node is found by its own score and member, whatever the heights, iff exactly the nodes ahead of it precede it in key order |
| `Skiplists.HiddenExact` | internal/ds/skiplist.go:93-105 | A stored node is missed by Search and Delete, whatever the heights, iff the node ahead of it is not smaller by score and member |
| `Skiplists.TiedMemberIsMissed` | internal/ds/skiplist.go:66-105 | An insertion in front of a node with the same score and a smaller member hides that node from Search and Delete, whatever the heights |
| `Skiplists.InsertKeepsKeyOrder` | internal/ds/skiplist.go:66-88 | Insert keeps the order by score and member iff the node it lands in front of has another score or a greater member |
| `Zsets.Zset.Add` | internal/store/zset.go:17-23 | From any state the list is what unlinking the old node leaves, if the search for it ends there, with the new node in front of the first node of no lower score; the dictionary keeps naming every node iff the old node was found. From a coherent set it always is, and the order by score and member survives iff no smaller member is listed at the new score |
| `Zsets.Zset.Delete` | internal/store/zset.go:25-32 | Answers whether the dictionary knew the member. From any state its node is unlinked iff the search for its last score ends in front of it; a coherent set loses exactly that member and stays coherent, tied scores included |
| `Zsets.Zset.Search` | internal/store/zset.go:34-41 | Score and presence by the dictionary; in a coherent set every listed node has the score answered for its member |
| `Zsets.Zset.Range` | internal/store/zset.go:43-52 | The members at positions start..stop of the list |
| `Zsets.RangeDistinct` | internal/store/zset.go:43-52 | A range of a coherent set, tied scores included, never repeats a member |
| `Zsets.DeleteFindsLive` | internal/store/zset.go:25-32 | In a list sorted by score and member, tied scores included, the lookup by the stored score always finds the live node, even with entries of deleted members left behind |
| `Zsets.AddCoherent` | internal/store/zset.go:17-23 | From a coherent set the dictionary keeps naming every node, tied or not, and the order by score and member survives iff no smaller member is listed at the new score |
| `Zsets.NamedExact` | internal/store/zset.go:17-23 | From any set whose nodes are all named, an Add keeps them named iff the old node of its member is gone |
| `Zsets.TieVisible` | internal/store/zset.go:17-23 | That a smaller member is listed at the score can be seen at the single node the insertion lands in front of |
| `Zsets.RunSorted` | internal/store/zset.go:17-53 | Of the operations on items: after any run in which no add finds a smaller member live at its score, the items are exactly the live members with their last scores, in strict order of score and member |
| `Zsets.Zset.Run` | internal/store/zset.go:17-53 | Running any adds and deletes on an empty set: as long as no add finds a smaller member live at its score, list and dictionary are coherent and the list holds exactly the live members with their last scores, sorted by score and member; the first add that finds one leaves every node named and breaks the order |
| `Intsets.Intset.Search` | internal/ds/intset.go:23-41 | The greatest index whose value is at most val, or -1 |
| `Intsets.Intset.Set` | internal/ds/intset.go:43-62 | Adds val to the set and reports exactly whether it was new; the bytes stay strictly sorted, two to a value |
| `Intsets.Intset.Get` | internal/ds/intset.go:64-72 | The value at an index, from its two little-endian bytes |
| `Intsets.PairValue` | internal/ds/intset.go:64-72 | A stored pair of bytes, the low one first, stands for a signed 16-bit number |
| `Intsets.Intset.Del` | internal/ds/intset.go:74-89 | Removes val from the set and reports 1 iff it was there |
| `Intsets.RankDecides` | internal/ds/intset.go:43-48 | In strict order membership is decided by the one value the search returns |
| `Intsets.LengthBound` | internal/ds/intset.go:9-12 | Strictly sorted 16-bit values are at most 65536, so the 32-bit length cannot overflow |
| `Memory.Move` | internal/ds/listpack.go:118-130 | An overlapping move delivers the old bytes, in either direction, and touches nothing else |
| `Bytes.LittleEndianAt` | internal/ds/listpack.go:38-57 | Byte i of a written word is the word divided by 256^i, modulo 256 |
| `Listpacks.Listpack.AddInt` | internal/ds/listpack.go:59-100 | The buffer becomes the packed form of the entries with val at the chosen end, in place when capacity allows and in a fresh buffer otherwise |
| `Listpacks.Listpack.AddString` | internal/ds/listpack.go:161-194 | The same for a string, in the shortest of its three forms |
| `Listpacks.Listpack.Grow` | internal/ds/listpack.go:118-130 | Opens a gap: bytes before pos stay, bytes from pos move up by addLen, whether shifted in place or copied to a new buffer |
| `Listpacks.Listpack.Remove` | internal/ds/listpack.go:102-116 | Cuts length bytes out at pos, stopping at the end; requests out of range change nothing |
| `Listpacks.Listpack.SetMeta` | internal/ds/listpack.go:54-57 | Rewrites the length word and adds n to the count word, modulo their widths, and nothing else |
| `Listpacks.Listpack.DropFront` | internal/ds/quicklist.go:171-178 | Cutting the bytes of the first n entries and fixing the header leaves the packed form of the rest |
| `Listpacks.Listpack.HeaderIsExact` | internal/ds/listpack.go:38-52 | The header words are the true byte length and count whenever these fit 32 and 16 bits |
| `Listpacks.CountTruncates` | internal/ds/listpack.go:50-57 | Counting up in the 16-bit word agrees with truncating the true count |
| `ListpackFormat.IntRoundTrip` | internal/ds/listpack.go:59-100 | decodeAtInt gives back every 64-bit value from any of its five widths, at any offset, with its exact length |
| `ListpackFormat.WideIntRoundTrip` | internal/ds/listpack.go:231-270 | The 16, 32 and 64-bit forms survive sign extension |
| `ListpackFormat.StringRoundTrip` | internal/ds/listpack.go:196-229 | decodeAtString gives back a string iff it is shorter than 2^32 bytes |
| `ListpackFormat.EntryRoundTrip` | internal/ds/listpack.go:196-270 | The type bits send every entry to the right decoder |
| `ListpackFormat.MasksAreDisjoint` | internal/ds/listpack.go:231-270 | The bit masks of the type byte act on disjoint bits, so or-ing a tag in is adding it and masking it out is subtracting it |
| `ListpackFormat.FormatBytes` | internal/ds/listpack.go:59-100 | The bytes of integers at the limits of each of the five forms, of the three string headers, and of the empty list |
| `ListpackFormat.ParsePack` | internal/ds/listpack.go:196-270 | Walking from byte 6 returns exactly the entries added; payload bytes 0xFF never end the walk early |
| `ListpackFormat.PackInjective` | internal/ds/listpack.go:59-194 | Two lists with the same bytes are the same list |
| `ListpackLimits.StepAt` | internal/ds/quicklist.go:128-169 | At the offset of entry i the walk sees the end mark iff i is the number of entries, and otherwise decodes entry i and steps to the next offset |
| `ListpackLimits.HealthyAdd` | internal/ds/quicklist.go:68-106 | The split rule keeps every node at 4085 entries or fewer and under 2^32 bytes |
| `ListpackLimits.HealthyDrop` | internal/ds/quicklist.go:171-190 | Dropping entries from the front keeps that |
| `ListpackLimits.SmallEntriesFit` | internal/ds/quicklist.go:68-106 | If every entry encodes in at most 16 bytes no node exceeds 8192 bytes, its first capacity; that such entries then never replace a buffer is promised by AddToTail and AddToHead |
| `Quicklists.Quicklist.AddToTail` | internal/ds/quicklist.go:68-83 | The list value is the old one with val appended; the chain of nodes stays consistent; a value that encodes in at most 16 bytes joins without any existing buffer being replaced |
| `Quicklists.Quicklist.AddToHead` | internal/ds/quicklist.go:85-106 | The list value is the old one with val in front; a value that encodes in at most 16 bytes joins without any existing buffer being replaced |
| `Quicklists.Quicklist.SplitTail` | internal/ds/quicklist.go:39-47 | A fresh empty node is linked behind the tail and the list value is unchanged |
| `Quicklists.QuicklistNode.Add` | internal/ds/quicklist.go:49-66 | The typed value joins the entries of one node at the chosen end, in the same buffer if it encodes in at most 16 bytes |
| `Quicklists.Quicklist.RemoveElements` | internal/ds/quicklist.go:108-200 | Removes exactly the first min(count, len) values and emits them, integers as integers and strings as bulk strings; an empty list or a count below one answers null |
| `Quicklists.Quicklist.Unlink` | internal/ds/quicklist.go:181-193 | An emptied node leaves the doubly linked chain from either end or the middle without changing the list value |
| `Quicklists.ReadFront` | internal/ds/quicklist.go:128-169 | One node is read up to the limit: how many entries, how many bytes, which replies |
| `Quicklists.Quicklist.GetElements` | internal/ds/quicklist.go:202-256 | Emits exactly the values at positions start..stop that exist, integers as integers and strings as bulk strings, behind the unclamped header stop-start+1 |
| `Quicklists.RangeHeaderExact` | internal/ds/quicklist.go:208 | That header matches what is sent iff the range is empty by one or lies inside the list |
| `Quicklists.Quicklist.DumpQuicklist` | internal/ds/quicklist.go:258-292 | One token per value, in list order |
| `Quicklists.EmptyExact` | internal/ds/listpack.go:34-36 | A node reads as empty iff it holds no entry |
| `Decimal.NatReadBack` | internal/resp/resp.go:32-64 | The digit loop reads the decimal text of every number below 2^63 as that number |
| `Decimal.NegativeExact` | internal/resp/resp.go:32-45 | A written negative number reads back as itself only for -7825341085959061504, where the wrapped arithmetic happens to agree |
| `Decimal.IntExact` | internal/resp/resp.go:32-45 | A 64-bit integer survives EncodeInt and readInt iff it is non-negative or that one number |
| `Decimal.DigitsInjective` | internal/resp/resp.go:153-186 | Different numbers have different decimal texts |
| `Decimal.DigitAt` | internal/resp/resp.go:153-178 | The digit at each position is that of the matching power of ten, as a character |
| `Decimal.SignedText` | internal/resp/resp.go:180-186 | A negative number is a minus sign and the digits of its magnitude |
| `Resp.ReadSimpleString` | internal/resp/resp.go:16-26 | The text up to the first line end, or incomplete |
| `Resp.ReadInt` | internal/resp/resp.go:32-45 | The wrapped 64-bit value of the characters up to the carriage return |
| `Resp.ReadLength` | internal/resp/resp.go:47-64 | The wrapped length of a header line and where the payload starts |
| `Resp.ReadBulkString` | internal/resp/resp.go:66-79 | Exactly the announced number of bytes, whatever they are |
| `Resp.ReadArray` | internal/resp/resp.go:81-106 | The announced number of values, each decoded from where the last one ended |
| `Resp.DecodeOne` | internal/resp/resp.go:108-127 | Agrees with the recursive grammar on every input; the mutual recursion ends on the remaining length |
| `Resp.Decode` | internal/resp/resp.go:129-151 | Every complete value in order, the bytes they take, and how the pass ended |
| `Resp.EncodeString` | internal/resp/resp.go:153-178 | The digit loop fits 20 bytes and writes the bulk string frame |
| `Resp.EncodeStrings` | internal/resp/resp.go:212-268 | A list of strings becomes the array frame of its bulk strings |
| `RespFormat.ParseStable` | internal/resp/resp.go:16-127 | A decided answer (value, error or failure) is final: more bytes change neither it nor the bytes consumed |
| `RespFormat.ElemsStable` | internal/resp/resp.go:81-106 | The same for the elements of an array |
| `RespRoundTrip.FrameReads` | internal/resp/resp.go:47-127 | An encoded value, followed by anything, decodes to what the reader makes of it and takes exactly its own bytes |
| `RespRoundTrip.FrameBytes` | internal/resp/resp.go:153-186 | The frames of strings and integers byte by byte, lengths in decimal |
| `RespRoundTrip.HeaderBytes` | internal/resp/resp.go:188-194 | The frame of an array: a star, the number of elements in decimal, a line end, the frames of the elements |
| `RespWire.SimpleReads` | internal/resp/resp.go:16-30 | A simple string or error is read as the text of its line whatever follows; a return without a line feed leaves it incomplete |
| `RespWire.IntegerReads` | internal/resp/resp.go:32-45 | A number written without sign is read as that number |
| `RespWire.FirstByte` | internal/resp/resp.go:108-127 | Any other first byte is an error |
| `RespRoundTrip.SeqReads` | internal/resp/resp.go:81-106 | Concatenated frames decode to all their values and the full length |
| `RespRoundTrip.PrefixIncomplete` | internal/resp/resp.go:47-127 | Every strict prefix of a frame is incomplete |
| `RespRoundTrip.ReturnExact` | internal/resp/resp.go:32-45 | A value comes back as it was written iff every integer inside it is readable |
| `RespRoundTrip.NullArrayUnread` | internal/resp/resp.go:47-64 | The null array the encoder writes is never read back, whatever follows it: it announces 2531 elements and is read exactly when those are all there |
| `RespRoundTrip.NullStringUnread` | internal/resp/resp.go:66-79 | Nor is the null string: it takes the next 2531 bytes as its text and two more as its end, or is incomplete |
| `RespStream.ParseAllSplit` | internal/resp/resp.go:129-151 | One pass over a + b is a pass over a, a shift, and a pass over the rest with b |
| `RespStream.ReadSplit` | internal/server/redis_parser.go:20-55 | The same for commands, errors included |
| `RespStream.LeftoverIncomplete` | internal/resp/resp.go:129-151 | What a pass leaves in the buffer holds no complete value |
| `RespFrames.FramesRead` | internal/resp/resp.go:129-151 | A stream of encoded values decodes to what the reader makes of each, in order, up to its last byte |
| `RespFrames.CutReads` | internal/resp/resp.go:129-151 | A stream of encoded values cut off after any number of bytes decodes to exactly the values whose frames are complete, without an error |
| `RespFrames.CompleteExact` | internal/resp/resp.go:129-151 | These are the greatest number of frames that take no more bytes than were kept |
| `RespStream.ChunkingIrrelevant` | internal/server/io.go:16-54 | However the stream is cut, the commands and the leftover bytes are those of one pass over the whole stream, and the connection fails iff that pass does |
| `RespStream.CommandsAre` | internal/server/redis_parser.go:37-52 | Every command of a pass comes from a non-empty array of strings: the first one, with its lower-case ASCII letters replaced by capitals, is the name and the others are the arguments |
| `RespWire.OddValues` | internal/server/redis_parser.go:37-48 | A value that is no array and an empty array are read and dropped; an array holding anything but strings is a crash |
| `RespWire.BadByte` | internal/server/redis_parser.go:20-36 | A pass that meets a bad first byte is an error |
| `RespWire.GetRequest` | internal/server/redis_parser.go:49 | The request get k byte by byte: what a client sends, received as GET k |
| `QueryBuffers.ToArrayString` | internal/server/redis_parser.go:12-18 | Succeeds iff every element is a string, and then returns them in order |
| `QueryBuffers.ParseCommands` | internal/server/redis_parser.go:20-55 | The commands of one pass, or the error or crash that ends it; no name holds a lower-case ASCII letter |
| `QueryBuffers.QueryBuffer.Reserve` | internal/server/io.go:18-30 | Room for a read, with the buffered bytes kept, in place or in a doubled buffer |
| `QueryBuffers.QueryBuffer.Process` | internal/server/io.go:84-97 | Consumes exactly what was parsed and shifts the rest to the front |
| `QueryBuffers.QueryBuffer.ReadQuery` | internal/server/io.go:9-55 | The read loop, with any division into reads, delivers the commands of one pass over buffer and pending bytes and keeps the same leftover |
| `QueryBuffers.QueryBuffer.ReadOnce` | internal/server/io.go:32-53 | One read and one pass |
| `QueryBuffers.WireReads` | internal/server/redis_cmd.go:28-40 | An encoded command is received under the name m, with its arguments, whenever m holds no lower-case letter and each byte sent is that of m or its lower-case form |
| `QueryBuffers.PipelineDelivered` | internal/server/io.go:16-54 | Any pipeline of encoded commands, cut anyhow, is received whole, in order and once, with an empty leftover, untouched arguments and names in capitals |
| `ListValues.IsIntScan` | internal/store/type_string.go:16-33 | Accepts exactly an optional minus sign followed by at least one digit |
| `ListValues.AtoiFormat` | internal/store/list_cmd.go:121-123 | Every stored integer prints to a text that is read as an integer with the same value |
| `ListValues.NumberStored` | internal/store/list_cmd.go:120-127 | Any leading zeros and the digits of n, with or without a minus sign, are stored as that integer, or as the nearest 64-bit one when out of range |
| `ListValues.NumbersOnly` | internal/store/type_string.go:16-33 | Those are all the texts stored as integers |
| `ListValues.TextStored` | internal/store/type_string.go:16-33 | The empty text, a lone minus sign, and any text with a byte that is no digit besides one leading minus sign are stored as they are |
| `ListValues.TokenExact` | internal/ds/quicklist.go:258-292 | A dumped token is pushed back as the same typed value iff the value is one a push can store |
| `ListValues.FramesParse` | internal/store/aof.go:121 | A file of records decodes to exactly those records |
| `ListValues.RecordBytes` | internal/store/aof.go:156-169 | The record of a list byte by byte: an array of RPUSH, the key and the text of every value |
| `ListValues.OneRecord` | internal/store/aof.go:129-151 | A file holding the one record RPUSH k a, byte by byte, restores the list k of that one string |
| `ListValues.BrokenRestoresNothing` | internal/store/aof.go:121-125 | A bad byte behind any records makes the file restore nothing |
| `ListValues.ReplayRecords` | internal/store/aof.go:129-151 | Replaying the records of distinct new keys adds exactly the non-empty lists |
| `ListValues.DumpRestores` | internal/store/aof.go:89-154 | Dumping lists in any key order and replaying the bytes restores every non-empty list, value by value and type by type |
| `ListValues.CutDumpRestores` | internal/store/aof.go:103-154 | A dump cut off after any number of bytes restores exactly the non-empty lists of the keys whose records are complete |
| `AppendOnly.ListStore.Rpush` | internal/store/list_cmd.go:90-135 | Appends the typed arguments, creating the list when missing, and answers the new length; no argument is an error that changes nothing |
| `AppendOnly.ListStore.Lpush` | internal/store/list_cmd.go:45-88 | Puts the arguments in front, the last one first |
| `AppendOnly.ListStore.Lpop` | internal/store/list_cmd.go:157-178 | Removes the first values and answers them, integers as integers and strings as bulk strings; an emptied list stays, a missing key answers null |
| `AppendOnly.ListStore.DumpAll` | internal/store/aof.go:89-101 | The file of all lists, keys in the order the loop visits them |
| `AppendOnly.ListStore.DumpKey` | internal/store/aof.go:156-169 | One record per non-empty list and nothing for an empty one |
| `AppendOnly.ListStore.ReplayValue` | internal/store/aof.go:129-151 | One value of the file: an RPUSH record is executed, anything that is no record is skipped |
| `AppendOnly.Restore` | internal/store/aof.go:103-154 | Replays a whole file into a fresh store; a file that does not decode restores nothing |
| `AppendOnly.Restart` | internal/store/aof.go:89-154 | A store dumped and replayed holds the same non-empty lists, byte buffers to byte buffers |
| `SessionInvariant.RunKeeps` | internal/server/client.go:14-38 | In every reachable world the state of every client agrees with its history: transactions, watch lists, subscriptions and waiting queues |
| `SessionGuarantees.OptimisticLocking` | internal/store/tx_cmd.go:44-51 | If any step modifies a key while c watches it, c commits no transaction before one of its EXECs has aborted |
| `SessionGuarantees.DoomedExecRunsNothing` | internal/store/tx_cmd.go:44-51 | In that situation EXEC runs no command and changes no key; in a block it answers null, drops the queue, ends the block and stops watching |
| `SessionGuarantees.ExecAbortsExactly` | internal/store/tx_cmd.go:38-68 | In every reachable world an EXEC that is reached in a block aborts iff a key was modified while its client watched it since that client last aborted, or an unknown command was refused in the block; otherwise it commits the queue |
| `SessionGuarantees.SpoiltExact` | internal/store/tx_cmd.go:44-51 | The mark and the failure of a block, read off the history in both directions |
| `SessionExamples.StaleAbort` | internal/store/tx_cmd.go:80-89 | A legal run whose second transaction watches nothing and aborts all the same, because DISCARD keeps the mark: its events and its replies |
| `SessionSignals.StoreSignals` | internal/store/store.go:87-141 | Effects on the store add nothing but signals to the history, and every key that comes or goes is signalled, by command, eviction or expiry |
| `SessionSignals.PutSignals` | internal/store/store.go:87-109 | Every key put is signalled, whatever follows |
| `SessionSignals.SilentExact` | internal/store/store.go:87-141 | One effect changes the value of a key that stays, without signalling it, iff it is a change in place to another value |
| `SessionSignals.SilentRunExact` | internal/store/store.go:87-141 | Over any sequence of effects a key that was not signalled is still there with its old value or the last one given in place, so it changed unnoticed iff that last value differs |
| `SessionSignals.PushSignalsExact` | internal/store/list_cmd.go:45-135 | RPUSH and LPUSH signal their key iff it is missing or expired; else a list grows by exactly the typed arguments, unnoticed, and a value of another type stays |
| `SessionSignals.IncrSignalsExact` | internal/store/key_cmd.go:45-77 | INCR signals its key iff it is missing or expired; else a counter changes unnoticed, and any other value stays |
| `SessionExamples.UnnoticedPush` | internal/store/list_cmd.go:66-84 | A legal run: c watches a list, d pushes to it, and the EXEC of c commits: its events and the contents of the list |
| `SessionExamples.UnnoticedIncr` | internal/store/key_cmd.go:71-74 | The same for a counter that d increments |
| `SessionGuarantees.CommitTakesBlock` | internal/store/tx_cmd.go:53-68 | A committed EXEC takes exactly the commands answered QUEUED since the MULTI that opened its block, none of them unknown |
| `SessionGuarantees.BlocksRunWhole` | internal/store/tx_cmd.go:61-68 | Over any run the commands run from blocks are exactly those the commits took, in order and once each |
| `SessionInvariant.ExecRunsQueue` | internal/store/tx_cmd.go:38-74 | One EXEC runs its whole queue or, when marked or failed, nothing |
| `SessionGuarantees.SessionState` | internal/server/redis_cmd.go:45-54 | Outside a block the queue is empty and not failed; a failed block is one with an unknown command; a client carries the mark iff a key modified under its watch has not aborted one of its EXECs since; it is on the watch lists of exactly the keys it watches |
| `SessionGuarantees.StaleMark` | internal/store/tx_cmd.go:80-89 | From any marked client in a block: DISCARD ends the watching and keeps the mark, so its next block aborts |
| `SessionDelivery.SubscriptionsTwoWay` | internal/server/client.go:143-176 | c is listed under k exactly once iff it holds the subscription; no empty list is kept; a live client is in subscriber mode iff it holds one |
| `SessionDelivery.PublishDelivers` | internal/server/client.go:178-188 | The message reaches every holder exactly once and nobody else, and the answer is the number of holders |
| `SessionWaiting.NeverTwiceExact` | internal/server/client.go:205-215 | The summary of a history shows an overlap iff the client was blocked twice with no answer in between |
| `SessionWaiting.OneBlpopIsEnough` | internal/server/redis_cmd.go:56-64 | If no committed block held two BLPOPs, the server never blocks a waiting client |
| `SessionWaiting.WaitsInOneQueue` | internal/server/client.go:205-215 | A client never blocked while waiting is in at most one queue, once, and is flagged iff it is in one |
| `SessionWaiting.BlockOnExact` | internal/server/client.go:205-215 | From any world where that holds, inside a block or between steps, blocking keeps the client in one queue iff it was not blocked already |
| `SessionWaiting.BlockWaitsExact` | internal/store/tx_cmd.go:61-68 | EXEC leaves its client in one queue iff at most one BLPOP of the block found its key empty when it was run |
| `SessionWaiting.StopsExact` | internal/server/redis_cmd.go:56-58 | A command leaves its client blocked iff it is a BLPOP on an empty key outside a block, or the EXEC of a block with one |
| `SessionWaiting.BatchExact` | internal/server/redis_cmd.go:42-101 | A batch is processed, command by command, up to and including the first command that leaves its client blocked; what follows it is dropped without an effect or a reply |
| `SessionExamples.TwoBlpopsOneClient` | internal/store/tx_cmd.go:61-68 | A legal run: one block of two BLPOPs on missing keys puts its client into both queues |
| `SessionWaiting.ServedInOrder` | internal/server/client.go:255-280 | A waiter is served only after everybody who blocked on the key earlier was served or timed out |
| `SessionWaiting.AnsweredOnce` | internal/server/client.go:255-312 | Between two answers to a client, by service or timeout, it blocked again on the key of the second |
| `SessionWaiting.ServiceAnswersOldest` | internal/server/client.go:255-280 | Serving a ready key answers its oldest waiter once, with the first item, which leaves the list, and unblocks it; nobody else is answered or unblocked and all other queues stay |
| `SessionWaiting.ScanTellsExpired` | internal/server/client.go:286-309 | The scan of a queue in which nobody stands twice tells exactly the expired waiters, once each, and keeps the others in order |
| `SessionWaiting.TimerExact` | internal/server/client.go:282-312 | Over runs, if no waiter was ever blocked while waiting, one timer pass tells exactly the expired waiters of all queues, once each, in whatever order the queues are visited, and every queue keeps its other waiters in order |
| `SessionDeadlines.DeadlineExact` | internal/server/client.go:282-312 | Over every run, a client that blocked at time t for d milliseconds and was not answered since is told null by a timer pass at time now iff d is positive and now is past t + d; otherwise it is left alone, still blocked |
| `SessionDeadlines.BlpopDeadline` | internal/server/client.go:205-215 | The same from the BLPOP itself: its time and its timeout, any steps, then a timer pass |
| `SessionServer.FlagsAreSeparate` | internal/server/client.go:40-42 | Setting or clearing one flag bit leaves the other three alone |
| `SessionServer.RemoveClient` | internal/server/redis_cmd.go:16-26 | The slice without the target, in order |
| `SessionServer.Server.TouchWatchedKeys` | internal/server/server.go:28-36 | Marks exactly the clients watching the key |
| `SessionServer.Server.MarkReady` | internal/server/server.go:22-26 | Marks the key ready iff somebody waits on it |
| `SessionServer.Server.Put` | internal/store/store.go:87-109 | Evictions first, then the value, its expiry when given, and the signal |
| `SessionServer.Server.Get` | internal/store/store.go:111-127 | An expired key is deleted, with its signal, and reads as missing |
| `SessionServer.Server.Del` | internal/store/store.go:129-141 | Deletes and signals an existing key, and says whether there was one |
| `SessionServer.Server.PushExecute` | internal/store/list_cmd.go:45-135 | Too few arguments and a value of another type are errors; otherwise lookup, creation when missing, growth in place by the typed arguments, the ready mark of a list that was empty, and the new length as the answer |
| `SessionServer.Server.IncrExecute` | internal/store/key_cmd.go:45-77 | Lookup, creation when missing, the change in place with its 64-bit wrap-around, and the new value or an error as the answer |
| `SessionServer.Server.ExpireExecute` | internal/store/key_cmd.go:79-105 | Lookup, which deletes and signals an expired key, then the new deadline as a 64-bit sum, and the answer 1 or 0 |
| `SessionStore.ExpiryExact` | internal/store/expire.go:9-21 | A key with a deadline is found strictly before it; the first lookup from then on deletes and signals it |
| `SessionStore.ExpireAnswers` | internal/store/key_cmd.go:79-105 | After EXPIRE the key is found until exactly so many thousand milliseconds later; a missing or expired key answers 0 |
| `SessionStore.PutDeadline` | internal/store/store.go:87-141 | A new value keeps the deadline of the old one unless it brings its own; a deletion forgets it |
| `SessionStore.PushAnswers` | internal/store/list_cmd.go:45-135 | Every position of the list after a push: old items and typed arguments, the last argument of LPUSH first; the answer is the new length; an empty list somebody waits for becomes ready; another type is an error that changes nothing |
| `SessionStore.IncrAnswers` | internal/store/key_cmd.go:45-77 | INCR adds one, wrapping from the greatest 64-bit integer to the least, and answers what it stored |
| `SessionStore.BlpopOutcome` | internal/store/blocking_cmd.go:14-30 | A missing key or a list without items blocks the client behind the others; the first item of any other list is answered and leaves it; an expired list answers null without blocking |
| `SessionStore.PushServesWaiter` | internal/server/client.go:255-280 | A push to a list somebody waits for makes it ready, and its visit gives the oldest waiter the item that came to stand first |
| `SessionDispatch.InBlock` | internal/server/redis_cmd.go:45-54 | In a block each registered command but EXEC and DISCARD is queued, each other one refused, and nothing else changes |
| `SessionDispatch.WhileBlocked` | internal/server/redis_cmd.go:56-58 | A blocked client outside a block is not heard |
| `SessionDispatch.WhileSubscribed` | internal/server/redis_cmd.go:60-65 | What each command does in subscriber mode: SUBSCRIBE, UNSUBSCRIBE and PING are executed, all others are errors |
| `SessionDispatch.WhileFree` | internal/server/redis_cmd.go:67-94 | Otherwise each registered command is executed, EXEC and DISCARD without a block and unknown commands are errors, REPLICAOF and REPLICA are answered |
| `SessionDispatch.ArgumentErrors` | internal/store/blocking_cmd.go:14-23 | A wrong number of arguments, a number that is none, and WATCH in a block are errors that change nothing |
| `SessionDispatch.SubscriptionTotals` | internal/server/client.go:143-176 | A subscription or its end is confirmed with the number of subscriptions then held; repeating it changes nothing |
| `SessionDispatch.UnsubscribeEndsMode` | internal/store/pubsub_cmd.go:30-47 | UNSUBSCRIBE without keys ends every subscription, one answer each, and leaves subscriber mode |
| `SessionDispatch.ExecAnswers` | internal/store/tx_cmd.go:38-59 | The answer of EXEC: error, null, empty array, or the number of queued commands ahead of their answers; the block is over |
| `SessionServer.Server.Lpop` | internal/store/list_cmd.go:157-178 | Lookup with its expiry, then the first item is answered and leaves the list, or null |
| `SessionServer.Server.WatchKeys` | internal/server/client.go:190-194 | Adds the client to the list of each key |
| `SessionServer.Server.UnwatchAllKeys` | internal/server/client.go:196-203 | In any visiting order, the client leaves every list and emptied lists are dropped |
| `SessionServer.Server.Subscribe` | internal/server/client.go:143-158 | A new subscription is entered on both sides, sets the flag and is confirmed with the total; an old one changes nothing |
| `SessionServer.Server.Unsubscribe` | internal/server/client.go:160-176 | The reverse, clearing the flag with the last one |
| `SessionServer.Server.Publish` | internal/server/client.go:178-188 | Appends the message to each listed client and answers the count |
| `SessionServer.Server.BlockOn` | internal/server/client.go:205-215 | Queues the client, flags it and sets its deadline only for a positive timeout |
| `SessionServer.Server.ProcessKeys` | internal/server/client.go:255-280 | Each ready key, in any order and with the clock read anew, pops for the head of its queue, or is just cleared; the reply is null when the list is missing, expired or empty |
| `SessionServer.Server.HandleBlockedClients` | internal/server/client.go:282-312 | Each queue, in any order, loses exactly the waiters whose deadline has passed; the others keep their order; emptied queues are dropped |
| `SessionServer.Server.CleanupClient` | internal/server/client.go:239-253 | A slow client leaves every list it is on, in any order, and loses its subscriptions |
| `SessionServer.Server.MultiExecute` | internal/store/tx_cmd.go:28-32 | Opens a block with an empty queue |
| `SessionServer.Server.ExecExecute` | internal/store/tx_cmd.go:38-74 | The four outcomes of EXEC: no block, aborted, empty, run |
| `SessionServer.Server.DiscardExecute` | internal/store/tx_cmd.go:80-89 | Drops the block and stops watching |
| `SessionServer.Server.WatchExecute` | internal/store/tx_cmd.go:95-102 | Refused inside a block, else watches every key |
| `SessionServer.Server.SubscribeEach` | internal/store/pubsub_cmd.go:13-24 | Subscribes to each key in turn |
| `SessionServer.Server.UnsubscribeEach` | internal/store/pubsub_cmd.go:30-47 | Unsubscribes from each key in turn |
| `Sessions.AnyVisit` | internal/server/client.go:136-142 | UNSUBSCRIBE without keys visits every subscription once, and every order is covered |
| `SessionServer.Server.BlpopExecute` | internal/store/blocking_cmd.go:14-30 | Argument errors, blocking on an empty key, or the pop of LPOP |
| `SessionServer.Server.Respond` | internal/server/redis_cmd.go:42-101 | The dispatch loop over one batch: queueing, refusal, the stop of a blocked client, subscriber mode, the answers to REPLICAOF and REPLICA, unknown commands, execution |
| `SessionServer.Server.OnReadable` | internal/server/io.go:99-103 | After any batch the server is where a legal run has taken it, so all guarantees of runs hold of it |
| `SessionServer.Server.BeforeSleep` | internal/server/eventloop.go:44 | The same after the ready keys were served |
| `SessionServer.Server.OnTimer` | internal/server/client.go:282-312 | The same after the timeouts |
| `SessionServer.Server.OnSlowClient` | internal/server/eventloop.go:48-51 | The same after a slow client was cut off |

## Left out

- Sockets, epoll, partial writes, the table of pending writes, forks, signals and file handling: reads are arbitrary byte chunks and a file is a byte sequence.
- Resp.ReadArray: an array header announcing a huge count is decoded element by element; that the code allocates for it first, and may fail there, is not modelled.
- QueryBuffers.ParseCommands: command names are put in upper case for ASCII letters only.
- QueryBuffers.WireReads: the same.
- QueryBuffers.PipelineDelivered: the same.
- `Listpack.insert`, `append`, `prepend`, `encodeInt`, `encodeString`, `decodeAt`: not used by the quicklist.
- Listpacks.Listpack.AddString: the packed form is exact for any string, but reading a string of 2^32 bytes or more back fails; `StringRoundTrip` gives the exact condition, and quicklists therefore take entries that keep a node under 2^32 bytes.
- Quicklists.Quicklist.AddToTail: takes values under about 4 GB, the limit of the 32-bit length word; the code does not check it.
- Quicklists.Quicklist.AddToHead: the same.
- Quicklists.QuicklistNode.Add: the same.
- AppendOnly.ListStore.Rpush: the same of each argument.
- AppendOnly.ListStore.Lpush: the same of each argument.
- Quicklists.Quicklist.GetElements: the header is the unclamped one of the code; `RangeHeaderExact` says when it is right.
- AppendOnly.ListStore.DumpAll: dumps lists only. String values, EXPIRE records and the RDB file are left out: the dump reads a field string values do not use, and absolute milliseconds are replayed as seconds.
- AppendOnly.ListStore.ReplayValue: executes RPUSH records only; the code executes any command it finds.
- AppendOnly.Restore: the same.
- Skiplists.Skiplist.Descend: the three identical descent loops of Insert, Delete and Search are modelled once.
- Sessions: least-recently and least-frequently-used bookkeeping of the store, key statistics, and which keys eviction picks; victims and sweeps are arbitrary.
- SessionServer.Server.Respond: of REPLICAOF and REPLICA only the answers; the replication they start, which is socket-driven, and the forwarding of commands to replicas are left out, as is the crash of REPLICAOF without its two arguments. Which commands are registered is part of the command value.
- SessionServer.Server.ExpireExecute: the number the argument stands for is a parameter, as is the time of the call.
- SessionServer.Server.BlpopExecute: the number the timeout text stands for is a parameter, as is the time of the call.
- SessionServer.Server.Lpop: LPOP or BLPOP on a value that is no list crashes the program; the model answers an error. LPOP with a count is one of the commands with arbitrary effects here and exact in `AppendOnly`.
- Sessions: the exact error texts; and the effects of the remaining commands on strings, sets and sorted sets in the store, which are arbitrary sequences of the effects above.
- Sessions: a client whose connection broke keeps its subscriptions and its place in queues, as in the code; only the cleanup of slow clients removes subscriptions.
- That every waiter is eventually served, which the code does not promise.
- The encoders for floats, nested string arrays and simple strings, whose output the server never reads.
- Geo commands, the trie, the unused binary search tree and the Bloom filter.
