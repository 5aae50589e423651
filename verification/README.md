# VeloKV: a model of the store, its snapshot file, its request parser and its replication

VeloKV is a single-threaded key-value server with strings, lists, deadlines, a bounded LRU, snapshot
files and leader/replica replication. This project models its four connected parts and proves what they
keep over whole runs.

**How it is built.** `Keyspace.dfy` holds the database's five coupled structures as one value and says what
each operation does to it. `Database.dfy` is the class itself: its methods update the fields and are proved
against those functions. The same split is used for the parser (`Resp.dfy`), the file (`Persistence.dfy`), the
replica (`Replica.dfy`) and the server (`Server.dfy`). The properties are then proved about the functions,
always against something independent of them: an unbounded map with deadlines (`TimedMap.dfy`), the history of
uses (`ExactLru.dfy`), a stream of bytes (`Wire.dfy`), a log of the leader's data (`Replication.dfy`). Where a
promise of the program fails, `Scenarios.dfy` has a run from an empty database in which it does.

| file | part |
|---|---|
| `Text.dfy`, `Codec.dfy` | searches, decimal numbers, percent encoding |
| `Resp.dfy` | request parser and serialisers (RESP2 arrays and inline commands) |
| `Keyspace.dfy`, `Database.dfy`, `Commands.dfy` | database, command handlers, runs |
| `Lru.dfy`, `ExactLru.dfy`, `Stores.dfy` | pointer safety, eviction, recency, store invariants |
| `TimedMap.dfy` | reference model, expiry transparency, cache soundness, snapshots |
| `Restore.dfy`, `Persistence.dfy` | snapshot file |
| `Wire.dfy`, `Replica.dfy`, `FullSync.dfy`, `Replay.dfy`, `Replication.dfy` | replication |
| `Server.dfy`, `Client.dfy` | the server's handling of a readable client, and a client's reading of its replies |
| `Readings.dfy` | handlers that read the clock twice |
| `Scenarios.dfy` | concrete runs in which a documented promise fails |

**Reading the model.**

- A `char` stands for a byte. Nothing bounds it at 255, so every result covers all byte strings.
- List nodes of `lru_order_` have identities, and `lru_position_` maps keys to identities, so "the iterator is
  live" is a statement that can be false.
- `undefined` in the database state records that a run has left defined C++ behaviour: `back()` of an empty list,
  `erase` of a dead iterator, or a signed overflow in a deadline. It is never reset.
  `Lru.RunKeepsPointers` says exactly which commands set it.
- The clock is a parameter. A handler reads it up to twice; the results about runs take one reading per command, and
  `Readings.RunIsPicked` carries them over to two. Where time matters it must not go back.
- A use of a key, for the LRU results, is a SET, a GET that finds a string, a push that is accepted, a pop that finds
  an element, or an LLEN of a list.
- Sockets are byte counts and chunks; a file is its bytes; a hash map's iteration order is arbitrary.

**Where the code does not do what its documentation says.**

- `README.md:191-192` promises that the least recently used key is evicted. Three things stand in the way: `del` and
  `evict_expired` leave list nodes behind, lists have no nodes of their own, and the loop can run out of nodes.
  Even so the front-most nodes of the strings are in the order of last use over every run (`ExactLru.RunRanked`), and
  this gives the exact condition (`ExactLru.EvictionIsLruIff`). As long as the run has stayed defined, a SET of a new
  string keeps the promise among the strings exactly when the lists that no node names leave room, and the nodes that
  its loop pops name no list and only strings whose front-most nodes lie behind those of all strings that stay. It keeps it among all keys exactly when there is
  room, the same holds of the strings, and wherever a list goes or stays the history agrees, since the list order says
  nothing about lists. After a run in which no string is removed by DEL or by a sweep, this comes down to room, and to
  every list that stays having been used after every string that goes (`ExactLru.VictimsAreLeastRecent`).
  For every capacity from two on, `Scenarios.DelDefeatsLru` evicts the key used last, and `Scenarios.ListsDefeatLru`
  keeps a list that was used before the string it evicts.
- `src/db.hpp:86` says that a key is in at most one store. The command layer keeps this (`Stores.ExecConsistent`).
  A file breaks it exactly by a list record that is loaded over a string (`Persistence.LoadConsistentIff`,
  `Scenarios.FileBreaksStores`), a replication stream exactly by a propagated push whose key is a string on the
  replica (`Replica.ApplyConsistentIff`, `Scenarios.WrongTypeDiverges`). Full-sync records cannot break it: the replica
  deletes a list's key first.
- The eviction loop reads the back of an empty list when lists that no node names fill the capacity.
  `Lru.SetDefinedIff` gives the exact condition, and `Scenarios.ListsDefeatEviction` fills a database with lists.
- `src/replication.cpp:182-186` promises that a replica converges. `propagate` also sends commands that the leader
  rejected, the replica checks neither arity nor type, tokens are split at blanks that the encoding lets through, and
  recency is not replicated. `Replay.ReplayAgreesIff` says exactly, for every write command but EXPIRE and without
  deadlines, whether a replica with the leader's data still has it afterwards: an accepted command with clean tokens
  does unless it is a SET whose eviction loop pops nodes naming different stored keys on the two sides; a rejected one
  does when it finds nothing to change; one with an empty token or a tab in it does only when neither the leader nor
  the words that the replica sees of it (`Wire.SeenOnWire`) change anything. `Scenarios.WrongTypeDiverges`, `Scenarios.EmptyValueDiverges`,
  `Scenarios.TabDiverges` and `Scenarios.RecencyDiverges` are runs for each of the ways to fail.
- EXPIRE travels as a duration (src/replication.cpp:582-584). `Replay.ExpireDrifts` says by exactly how much a replica's
  deadline is late, and `Scenarios.NegativeExpireDiverges` has a negative one, which the leader refuses and a replica obeys.
- RESP2 simple strings and errors are one line. The error for an unknown command echoes the name it was sent, so a
  client can lose its place: exactly when `Client.ReadSerializedIff` and `Scenarios.EchoBreaksFraming` say.
- After a protocol error the parser discards what has arrived, so what follows depends on timing: exactly when the
  chunks after the error hold a command (`Resp.ChunksMatterIff`, `Resp.ChunksMatterAfterError`).

## Model

| member | source | states |
|---|---|---|
| Text.ParseShow | src/persistence.cpp:100-114 | reading back a printed number gives the number, and fails exactly when it does not fit the integer type |
| Text.ShowDecimal | src/persistence.cpp:100-114 | numbers are printed in decimal, a negative one behind a minus sign |
| Text.ParseLenient | src/command.cpp:134-140 | blanks, a sign of either kind and anything after the digits are accepted, as by `stoll` |
| Text.UpperCases | src/command.cpp:14-19 | command names are matched regardless of the case of their letters, and of nothing else |
| Codec.DecodeEncode | src/replication.cpp:56-102 | decoding an encoded text gives the text, for every byte string |
| Codec.EncodeSeparatorFree | src/persistence.cpp:17-36 | encoded text holds no blank, CR or LF |
| Codec.EncodeInjective | src/persistence.cpp:17-36 | different texts have different encodings |
| Codec.EncodeKeeps | src/replication.cpp:62-69 | a byte that is neither escaped nor a hexadecimal digit, such as a tab, is in the encoding exactly when it is in the text |
| Codec.DecodeIff | src/replication.cpp:73-102 | exactly which texts decode, and to what: each byte as itself or in two hexadecimal digits of either case |
| Codec.PercentEncode | src/persistence.cpp:17-36 | the encoding loop computes the encoding |
| Codec.PercentDecode | src/persistence.cpp:38-73 | the file's decoder computes the decoding, and rejects exactly what it rejects |
| Codec.ReplicationDecode | src/replication.cpp:73-102 | the replica's separately written decoder computes and rejects the same |
| Resp.ParseOneStable | src/resp.cpp:14-132 | a parsed command or a protocol error never changes when more bytes arrive |
| Resp.ParseAllSplit | src/resp.cpp:134-166 | parsing a stream in two steps needs nothing of the first part but its leftover bytes |
| Resp.ParseAllRest | src/resp.cpp:160-163 | the leftover of a run holds no complete command |
| Resp.ChunkIndependence | src/resp.cpp:134-166 | however a stream is cut into chunks, the commands before the first protocol error are the same, and with none so is the leftover; beyond them only the chunks after the error are read, from a fresh start |
| Resp.ChunksMatterIff | src/resp.cpp:152-157 | a cut changes the commands that are read exactly when the chunks after the first protocol error hold one |
| Resp.ChunksMatterAfterError | src/resp.cpp:152-157 | after a protocol error the chunks do matter: a stream and a cut of it that read different commands |
| Resp.ParseSerialized | src/resp.cpp:19-90 | a serialised command parses back to its arguments and length, whatever follows it |
| Resp.PipelineRoundTrip | src/resp.cpp:176-194 | a pipeline of serialised commands parses back to exactly those commands and empties the buffer |
| Resp.ChunkedPipelineRoundTrip | src/client.cpp:52-54 | and so it does when the socket delivers it in arbitrary pieces |
| Resp.ArrayFailsAt | src/resp.cpp:45-86 | an array whose elements stop being well-formed is incomplete or wrong as that element is |
| Resp.BulkVerdicts | src/resp.cpp:46-85 | what makes one element incomplete, what makes it wrong, and a negative length |
| Resp.ArrayVerdicts | src/resp.cpp:19-43 | a bad or negative element count |
| Resp.InlineRoundTrip | src/resp.cpp:92-131 | a typed line, ended by CRLF or a bare LF, parses back to its arguments however they are quoted and spaced |
| Resp.UnclosedQuote | src/resp.cpp:104-126 | a quote that is not closed runs to the end of the line |
| Resp.ParseBulkAt | src/resp.cpp:46-85 | the bulk-string code at an offset agrees with the parser on the suffix |
| Resp.ParseBulksAt | src/resp.cpp:45-86 | the element loop reads all announced arguments or reports the first that is incomplete or wrong |
| Resp.ParseArrayAt | src/resp.cpp:19-90 | the array code at an offset agrees with the parser on the suffix |
| Resp.SplitInlineLine | src/resp.cpp:104-123 | the quote-aware loop computes the split of the line |
| Resp.ParseSingleCommand | src/resp.cpp:14-132 | the parser with an offset agrees with the parser on the suffix |
| Resp.Parse | src/resp.cpp:134-166 | the consuming loop returns the commands and leftover of the whole buffer, and whether there were any |
| Db.Database.constructor | src/db.hpp:293-305 | a new database is empty |
| Db.Database.CheckExpired | src/db.cpp:19-45 | reports an elapsed deadline and then leaves the key in no store and no recency entry |
| Db.Database.KeyTypeOf | src/db.cpp:51-58 | the type of a live key, after lazy expiry |
| Db.Database.EvictWhileFull | src/db.cpp:72-83 | the eviction loop reaches the state the recursive description gives |
| Db.Database.SetString | src/db.cpp:64-97 | `set` as one state change |
| Db.Database.GetString | src/db.cpp:100-116 | `get`: value and new state |
| Db.Database.Delete | src/db.cpp:118-123 | `del`: both stores and the deadline go, the recency list stays |
| Db.Database.KeyExists | src/db.cpp:125-129 | `exists` |
| Db.Database.PushItem | src/db.cpp:139-150 | `lpush` and `rpush`: the new list and its length |
| Db.Database.PopItem | src/db.cpp:152-190 | `lpop` and `rpop`: the element taken; an emptied list disappears with its deadline |
| Db.Database.ListLength | src/db.cpp:192-201 | `llen` |
| Db.Database.SetTtl | src/db.cpp:207-217 | `expire`, with its two clock readings |
| Db.Database.SetDeadline | src/db.cpp:219-226 | `expire_at` |
| Db.Database.TimeToLive | src/db.cpp:228-241 | `ttl`, with its two clock readings |
| Db.Database.EvictExpired | src/db.cpp:304-320 | the two loops remove exactly the keys whose deadline has passed, from both stores and the expiry index |
| Db.Database.Snapshot | src/db.cpp:247-298 | whatever order the maps iterate in, each live string is listed once, then each live list, with values and deadlines |
| Lru.StoredIteratorLive | src/db.cpp:90-111 | under the pointer invariant a stored iterator is live and is the key's front-most node, so erasing it is defined |
| Lru.EvictDefinedIff | src/db.cpp:72-83 | the loop reads the back of an empty list exactly when lists that no node names fill the capacity; otherwise it ends below capacity |
| Lru.SetDefinedIff | src/db.cpp:64-97 | `set` keeps the pointer invariant; it is undefined exactly for a new string that finds no evictable room; else at most `max_capacity_` keys remain |
| Lru.PurgeKeeps | src/db.cpp:33-40 | lazy expiry keeps the pointer invariant and erases only live iterators |
| Lru.GetKeeps | src/db.cpp:109-113 | so does `get` |
| Lru.ExecKeepsPointers | src/command.cpp:70-290 | every command keeps the pointer invariant and is undefined exactly for an unsafe SET or an overflowing EXPIRE |
| Lru.RunKeepsPointers | src/db.cpp:33-123 | the same over every run of commands and sweeps, stale and duplicate nodes included |
| Stores.EvictFrame | src/db.cpp:72-83 | the loop removes the same keys from both stores and from the expiry index and changes nothing else there |
| Stores.SetFrame | src/db.cpp:64-97 | after `set` the stores are the old ones without the victims, with the key a string and without deadline |
| Stores.ExecConsistent | src/command.cpp:70-290 | no command puts a key in both stores, leaves an empty list, or leaves a deadline without a key |
| Stores.ExecWithinCapacity | src/db.cpp:70-83 | string keys never exceed `max_capacity_` unless behaviour is undefined |
| Stores.RunKeepsStores | src/db.cpp:64-320 | all store invariants and the pointer invariant over every run without an unsafe SET or EXPIRE |
| ExactLru.RunRanked | src/db.cpp:33-123 | over every run, stale and duplicate nodes included, the front-most nodes of the strings are in the order of last use |
| ExactLru.RankIff | src/db.cpp:90-93 | so of two strings, the one whose front-most node is nearer the front was used last |
| ExactLru.PopsIsLeast | src/db.cpp:72-83 | the loop pops the least number of nodes that makes room |
| ExactLru.PopIsOldestIff | src/db.cpp:74-82 | popping the node of a stored string evicts the least recently used one exactly when no other string's front-most node lies further back |
| ExactLru.EvictIsLruIff | src/db.cpp:72-83 | the loop evicts no list and only the oldest strings exactly when the nodes it pops name no list and only the strings whose front-most nodes lie furthest back |
| ExactLru.SetIsLruIff | src/db.cpp:64-97 | among the strings a SET is least-recently-used exactly when it overwrites one, or finds room and its loop meets that condition; one that runs into undefined behaviour never is |
| ExactLru.SetEvictsOldestIff | src/db.cpp:64-97 | among all keys, lists included: the exact condition under which a SET evicts no key used after one that it keeps |
| ExactLru.SetSize | src/db.cpp:72-83 | a SET that evicts leaves the database exactly full, whatever it evicts |
| ExactLru.EvictionIsLruIff | README.md:191-192 | the LRU promise over every run of commands and sweeps: the exact conditions under which the next SET keeps it, among the strings and among all keys |
| ExactLru.EvictsLeastRecent | src/db.cpp:72-83 | in a clean state every victim was last used before every survivor, no list goes, and eviction stops at the first free place |
| ExactLru.StepCleanIff | src/db.cpp:118-123 | an event keeps the list free of stale nodes exactly when it does not remove a string by DEL or sweep |
| ExactLru.RunIsExactLru | src/db.cpp:33-116 | over every run that keeps it so, lazy expiry included, the list holds exactly the strings, each once, by last SET or successful GET |
| ExactLru.VictimsAreLeastRecent | README.md:191-192 | after such a run a SET is least-recently-used among the strings exactly when the lists leave room, and among all keys exactly when besides every list that stays is newer than what goes; it evicts only as many keys as needed |
| Scenarios.DelDefeatsLru | src/db.cpp:118-123 | for every capacity from two on, a run of commands after which the key used last is the one evicted |
| Scenarios.ListsDefeatLru | src/db.cpp:139-150 | for every capacity from two on, a run after which a SET evicts a string and keeps a list used before it |
| Scenarios.ListsDefeatEviction | src/db.cpp:72-74 | for every capacity, a run of LPUSHes after which a SET reads the back of an empty list |
| Commands.Execute | src/command.cpp:33-290 | dispatch, arity checks and type guards, with the handlers' two clock readings and the outcome of a SAVE, as one state change and one reply |
| TimedMap.DispatchIs | src/command.cpp:33-290 | every command, by its upper-cased name and number of words, reaches the handler and the argument checks it should |
| TimedMap.CommandTransparentIff | src/command.cpp:33-290 | so its reply and the live keys afterwards are those of the unbounded timed map, the latter exactly when no live key is evicted |
| TimedMap.ReadersAnswer | src/command.cpp:84-173 | EXISTS, TTL, LLEN and GET spelled out, and that they change no live key |
| TimedMap.ExpireAnswers | src/command.cpp:128-149 | EXPIRE spelled out: the deadline is that many seconds from now |
| TimedMap.ExecPurges | src/db.cpp:19-45 | lazy expiry does take place, and only SET touches another key |
| TimedMap.PresenceAnswers | src/db.cpp:118-129 | `del` and `exists` tell whether there was such a key |
| Readings.SaveAnswers | src/command.cpp:179-189 | SAVE touches no key and says whether the file was written |
| Commands.SerializeInjective | src/resp.cpp:168-186 | different replies have different bytes |
| Client.ReadSerializedIff | src/resp.cpp:168-186 | a RESP2 client reads a reply back from its bytes, whatever follows, exactly when it fits one line or 64 bits |
| Client.RepliesRoundTrip | src/resp.cpp:168-186 | a stream of such replies reads back to exactly those replies |
| TimedMap.PurgeContents | src/db.cpp:19-45 | lazy expiry is invisible: the live view is unchanged, and the key is then stored only if it is live |
| TimedMap.SweepExact | src/db.cpp:304-320 | a sweep removes every dead key from both stores and the expiry index, and touches nothing else |
| TimedMap.SweepContents | src/db.cpp:304-320 | a sweep is invisible: the live view is unchanged |
| TimedMap.ExecTransparentIff | src/command.cpp:70-290 | every command answers like the unbounded timed map, and leaves the same live view exactly when it evicts no live key |
| TimedMap.RunTransparent | src/server.cpp:179-184 | over every run without loss of a live key, whatever expiries and sweeps are interleaved: same replies, same live view at every later time |
| Readings.BetweenIff | src/command.cpp:84-290 | a handler with two clock readings does what it would do with one of them, exactly unless it is an EXPIRE whose key dies in between or a TTL of one that had a second left |
| Readings.RunIsPicked | src/db.cpp:207-241 | so a run with two readings per command is a run with one each, with the same replies, and a clock that never goes back |
| Readings.TransparentBetween | src/db.cpp:19-45 | and expiry transparency holds of it |
| TimedMap.ExecSound | src/command.cpp:84-99 | whatever is evicted, each live string has the value and deadline of the timed map, and a GET that finds a value finds that one |
| TimedMap.RunSound | src/db.cpp:64-123 | the same over every run: the cache never returns an old or invented value |
| TimedMap.SnapshotIsLive | src/db.cpp:247-298 | a snapshot, in any iteration order, is the live view |
| Restore.RestoreAllContents | src/persistence.cpp:265-338 | snapshot entries put back into an empty database come back exactly, with no eviction on the way |
| Restore.SnapshotRestorable | src/db.cpp:254-295 | because strings come first and are at most `max_capacity_`, every snapshot can be put back |
| Restore.RestoreConsistentIff | src/persistence.cpp:279-338 | restoring an entry without a type check breaks the store invariant exactly when it is a list over a string |
| Persistence.LoadPrinted | src/persistence.cpp:97-121 | loading a printed record restores its entry, or skips it exactly when it has expired |
| Persistence.LoadPrintedV1 | src/persistence.cpp:202-286 | and so it does with a record of the older format |
| Persistence.LoadVerdicts | src/persistence.cpp:159-177 | a missing file, an empty one, one with an unknown header, and one without a footer |
| Persistence.LineOfCrlf | src/persistence.cpp:196-200 | a line of a file with CRLF line ends is the same line |
| Persistence.SaveLoadRoundTrip | src/persistence.cpp:79-358 | saving and loading into an empty database gives the same live keys, values, list orders and deadlines, at the load and ever after; the loaded database meets every invariant that the results about runs start from |
| Persistence.SkippedRecord | src/persistence.cpp:202-343 | whether a record is loaded depends on its text and the clock alone; any other leaves the database as it was, but for an unexpired list record with an element that does not decode, which deletes the key it names |
| Persistence.LoadConsistentIff | src/persistence.cpp:265-338 | any line of a file, however malformed, leaves a key in both stores exactly when its text is that of a list record and the key it names is a string |
| Persistence.LoadDefinedIff | src/persistence.cpp:265-286 | any line of a file is undefined exactly when its text is that of a string record of a new string and lists that no node names fill the capacity |
| Persistence.LoadKeepsPointers | src/persistence.cpp:202-343 | no line of a file disturbs the recency list's pointers |
| Scenarios.FileBreaksStores | src/persistence.cpp:286-329 | a file with a string record and a list record of one key loads without an error and leaves the key in both stores |
| Persistence.LoadFindsFooter | src/persistence.cpp:196-200 | whether the footer is found depends on the text alone, not on the database or the clock |
| Persistence.CutRecord | src/persistence.cpp:97-121 | a record cut anywhere never reads as the footer |
| Persistence.TruncationDetected | src/persistence.cpp:346-353 | a cut file is reported by `load`, into any database at any time, exactly when more than the last line feed is missing |
| Persistence.Save | src/persistence.cpp:79-153 | `save` prints a snapshot of the database |
| Persistence.PushElements | src/persistence.cpp:306-329 | the element loop pushes the decoded elements in order and reports the first that does not decode |
| Persistence.LoadFieldsInto | src/persistence.cpp:219-343 | the field splitting and checks of one record |
| Persistence.LoadInto | src/persistence.cpp:159-358 | the record loop loads line by line up to the footer and reports what it found |
| Wire.EncodeForReplicas | src/replication.cpp:104-123 | the loop computes the encoded line with its CRLF |
| Wire.TokeniseIff | src/replication.cpp:488-495 | a propagated line splits back into its words exactly when every token is non-empty and free of tab, vertical tab and form feed |
| Wire.SeenOnWire | src/replication.cpp:488-495 | whatever a command holds, the replica sees the pieces between its tabs, vertical tabs and form feeds, decoded, and nothing of an empty token |
| Wire.SeenIff | src/replication.cpp:61-68 | what it sees is the command exactly when every token is clean |
| Wire.LineRoundTrip | src/replication.cpp:557-565 | such a line decodes to the command with its name in upper case |
| Wire.EncodingInjective | src/replication.cpp:104-123 | two such commands with the same bytes are the same command |
| Wire.CommandLineCrFree | src/replication.cpp:104-123 | CRLF occurs in an encoded command only at its end |
| Wire.SplitSound | src/replication.cpp:445-461 | splitting cuts a stream into complete lines and a rest without CRLF, and loses nothing |
| Wire.SplitUnique | src/replication.cpp:445-461 | there is only one such cut |
| Wire.SplitAppend | src/replication.cpp:440-461 | splitting a stream in two reads, even inside a CRLF, gives the lines of the whole stream |
| Replica.ChunkedReads | src/replication.cpp:440-461 | for any cut of the stream into reads at any times, exactly its complete lines are applied in order, each at the time of the read that completed it, and the bytes after the last CRLF are kept |
| Replica.ApplyConsistentIff | src/replication.cpp:464-615 | any line, whatever it holds, leaves a key in both stores exactly when it is a propagated LPUSH or RPUSH of three words or more whose key is a string on the replica |
| Replica.ApplyDefinedIff | src/replication.cpp:464-615 | any line is undefined exactly when it is a record or SET of a string that finds no room, or an EXPIRE whose deadline overflows |
| Replica.ApplyKeepsPointers | src/replication.cpp:464-615 | no line disturbs the pointers of the replica's recency list |
| Replica.ReplicaNode.ReadFromLeader | src/replication.cpp:440-461 | one read applies the complete lines of buffer and chunk, and keeps the rest |
| Replica.ReplicaNode.ApplyLeaderLine | src/replication.cpp:464-615 | one line as one state change |
| Replica.ReplicaNode.ApplyListRecord | src/replication.cpp:527-549 | a REPLLIST record, including a bad element in the middle |
| Replica.ReplicaNode.ApplyLiveCommand | src/replication.cpp:570-612 | a propagated command, applied without arity and type checks |
| FullSync.EntryTokensIff | src/replication.cpp:136-162 | a full-sync record splits back into its words exactly when every token is clean |
| FullSync.ApplyEntryLine | src/replication.cpp:506-549 | applying a record restores the entry it was printed from |
| FullSync.ListRecordTakes | src/replication.cpp:527-549 | a list record restores as many of its elements as it announces and holds |
| FullSync.ListRecordStops | src/replication.cpp:527-549 | at an element that does not decode it stops, keeps what it pushed, and sets no deadline |
| FullSync.FullSyncRoundTrip | src/replication.cpp:125-167 | the full sync, in any iteration order, gives an empty replica the leader's live keys, values, list orders and absolute deadlines, with no eviction; the replica meets every invariant that the results about runs start from |
| FullSync.BuildFullSync | src/replication.cpp:125-167 | the loop builds the payload of a snapshot of the database |
| Replay.ApplyAnyLine | src/replication.cpp:556-612 | the line of a write command, whatever its arguments hold, reaches the replica's database as the command that is seen of it |
| Replay.ApplyCommandLine | src/replication.cpp:556-612 | the line of a clean write command reaches it as that command |
| Replay.LeaderFollows | src/command.cpp:70-275 | the leader's stores take the command, or stay as they are when it is rejected |
| Replay.ReplicaFollows | src/replication.cpp:570-612 | the replica's stores take the command whatever its arity and type |
| Replay.MisappliedIff | src/server.cpp:376-388 | exactly which rejected commands a replica with the same data would still be changed by |
| Replay.SetAgreesIff | src/db.cpp:64-97 | databases with the same data hold the same data after the same SET exactly when it pops nodes naming the same stored keys |
| Replay.ReplayAgreesIff | src/server.cpp:376-388 | after any write command but EXPIRE, of any arity, with any tokens and evictions, leader and replica agree exactly when it survives replay |
| Replay.ReplicaExecutesIff | src/replication.cpp:570-612 | deadlines included, a replica does to an accepted write command what the command layer would do, exactly unless it is a push onto a string or a dead key |
| Replay.ExpireOnReplica | src/replication.cpp:578-589 | a propagated EXPIRE gives a live key the deadline that many seconds from when it is applied, and changes no other key |
| Replay.ExpireDrifts | src/replication.cpp:582-584 | a replica's deadline is later than the leader's by exactly the time the line was under way |
| Replay.OtherLinesIgnored | src/replication.cpp:578-612 | any other line, and an EXPIRE whose seconds are not a number, changes nothing |
| Replay.UndecodedKept | src/replication.cpp:557-566 | a word that does not decode is taken as it is |
| Scenarios.NegativeExpireDiverges | src/replication.cpp:578-589 | EXPIRE k -1: an error on the leader, the end of the key on a replica |
| Scenarios.EchoBreaksFraming | src/command.cpp:38-42 | the error for an unknown command can be framed exactly when the name has no CRLF |
| Scenarios.WrongTypeDiverges | src/replication.cpp:591-597 | SET k, then LPUSH k: the leader answers WRONGTYPE and propagates, and the replica differs from it and holds the key twice |
| Scenarios.EmptyValueDiverges | src/replication.cpp:488-495 | SET of an empty value: the replica ignores the line |
| Scenarios.TabDiverges | src/replication.cpp:488-495 | DEL of an absent key that begins with a stored key and a tab: the replica deletes the stored key |
| Scenarios.RecencyDiverges | src/replication.cpp:570-572 | for every capacity from two on, a leader and a replica with the same data that evict different keys at the next SET, because a GET came between |
| Replication.AdvanceOne | src/replication.cpp:464-615 | each line takes a replica exactly one step along the snapshot or the leader's log |
| Replication.ReceiveKeeps | src/replication.cpp:405-462 | a read of any size keeps the accounting of bytes, lines and data |
| Replication.FlushKeeps | src/replication.cpp:256-265 | a send of any size keeps it |
| Replication.PropagateKeeps | src/replication.cpp:196-209 | a propagated command adds exactly one line to what each replica has still to apply |
| Replication.JoinKeeps | src/replication.cpp:173-194 | a join at any time starts a replica whose pending lines are the leader's data at that time |
| Replication.LeaderExec | src/server.cpp:376-388 | a conforming command takes the leader's data to the next log entry |
| Replication.NextKeepsInv | src/server.cpp:328-400 | every step of the protocol keeps the whole invariant |
| Replication.RunKeepsInv | src/replication.cpp:173-265 | over every run: the invariant holds, the log only grows, and no replica goes back |
| Replication.Simulation | src/replication.cpp:182-188 | in every state, replaying all bytes under way to a replica gives exactly the leader's stores and no partial line |
| Replication.PrefixConsistent | src/replication.cpp:481-485 | once its sync is done, a replica holds the leader's stores of some point at or after the join |
| Replication.SyncDoneIff | src/replication.cpp:469-485 | the sync flag tells that state exactly |
| Replication.DrainedIsCurrent | src/replication.hpp:45-47 | a drained stream means equality with the leader now |
| Replication.CatchesUp | src/replication.cpp:231-265 | one full flush and one full read bring any replica up to date |
| Replication.ReplicasConverge | src/replication.cpp:182-188 | all of this from the leader's start over any run of the fragment |
| Replication.JoinThenSet | src/replication.cpp:173-209 | a concrete run of the fragment: a replica joins and a SET is queued behind its full sync |
| Server.ReplicaIsReadOnly | src/server.cpp:368-373 | whatever clients send a replica, its live keys, values and deadlines do not change and nothing is propagated |
| Server.BatchRuns | src/server.cpp:342-389 | for every role: the database after a batch is that of a run of the executed commands, the output is the replies in order with a refusal for each write to a replica, and only a leader queues anything, its writes in order |
| Server.AllAreAnswered | src/server.cpp:368-382 | on a standalone server and a leader the replies are those of the run of all the commands |
| Server.AllAreExecuted | src/server.cpp:342-382 | which are executed in the order they came in, each at its time |
| Server.PromotesIff | src/server.cpp:358-366 | only a leader promotes a connection, and exactly when it is sent REPLICAOF |
| Server.ClientReadsBack | src/server.cpp:375-382 | a client gets the replies of a batch back one by one, in order |
| Server.PromotedStops | src/server.cpp:358-366 | commands after the handshake in the same batch have no effect |
| Server.BatchIsSteps | src/server.cpp:342-389 | a leader serving any batch makes exactly the protocol's client steps for the commands before the first handshake, and promotes exactly when there is one |
| Server.BatchMirrors | src/server.cpp:358-388 | after any batch, a promotion included, the replicas' buffers are those of the protocol after its client and join steps |
| Server.SendTakes | src/replication.cpp:249-277 | a send that takes n bytes removes exactly the first n bytes of the buffer |
| Server.FlushMirrors | src/replication.cpp:231-278 | to a replica it is the protocol's flush of that very n; a socket that would block changes nothing, a broken one fails |
| Server.WrittenTakes | src/client.cpp:68-93 | to a client the same, and a failure disconnects it |
| Server.HandshakePromotes | src/replication.cpp:395-398 | what a replica sends on connecting parses as one command and promotes the connection |
| Server.ServerNode.PropagateToReplicas | src/replication.cpp:196-209 | every replica's buffer grows by the encoded command |
| Server.ServerNode.FlushReplica | src/replication.cpp:231-278 | the first connection with that descriptor loses the bytes the socket took, no other changes; false exactly when there is none or its socket has failed |
| Server.ServerNode.AddReplica | src/replication.cpp:173-194 | a new connection whose buffer is the full sync of a snapshot taken now |
| Server.ServerNode.HandleClientRead | src/server.cpp:328-400 | a failed read disconnects; otherwise parse, then per command: promotion, READONLY guard, execution, propagation, in that order; then one write to the socket; final database, buffers and connections |
| Server.ServerNode.Tick | src/server.cpp:179-184 | every hundredth turn sweeps, the others only count |

## Left out

- Commands.Execute: SAVE's file is not written here; whether that succeeds is an input.
- TimedMap.ExecTransparentIff: one clock reading per command; `Readings.BetweenIff` says when that is what the code does with two.
- TimedMap.RunTransparent: one clock reading per command; `Readings.TransparentBetween` has two.
- Server.ServerNode.HandleClientRead: one clock reading per command, and a SAVE in a batch succeeds.
- Replay.LeaderFollows: no deadlines and no evicting SET; `Replay.ReplayAgreesIff` covers those SETs, and `Replay.ReplicaExecutesIff` deadlines.
- Replay.ReplicaFollows: the same fragment.
- Replication.ReplicasConverge: no deadlines on the leader, because EXPIRE is propagated as a relative time (src/replication.cpp:582-584), and no evicting SET (`Scenarios.RecencyDiverges`); full syncs with deadlines are covered by FullSync.FullSyncRoundTrip.
- Replication.ReplicasConverge: replicas join empty and are not removed. Disconnects and the resync onto stale data that follows a reconnect (src/replication.cpp:385-388, 416-438, 472-477) are not modelled.
- FullSync.FullSyncRoundTrip: list lengths up to the largest int less four, because the replica's loop adds four to an int (src/replication.cpp:539).
- Persistence.SaveLoadRoundTrip: list lengths up to the largest int, because the loader reads the count as an int (src/persistence.cpp:297).
- Memory limits: `reserve` on a huge announced element count, and token counts beyond an int in one line.
- The files behind SAVE: rename, remove, stream failures.
- `select`, accepting connections, writes to a client outside its own batch, reconnect backoff, the `synced` log flag, CLI and signals.
- Log messages and the position in a decoder's error message.
- `toupper` and `isspace` of locales other than C.
