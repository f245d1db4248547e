# Verified model of huststore

This project models the parts of huststore in which state, order or arithmetic carries the
correctness, and proves what they promise.

- **Binlog sync daemon** (`Sync*.dfy`). A reader turns the lines of append-only logs into tasks,
  workers send a task until a backend accepts it, a mapped page keeps position, count and one mark
  per line, and finished logs are deleted. Steps of reader, workers, releaser, log writer and
  crashes interleave freely; header stores and mark stores are separate steps.
- **RESP reader and writer** (`Resp*.dfy`). The incremental parser of goha over a growing buffer,
  array and inline forms with their exact grammar, and the printer (the Redis serialization protocol, sections "Arrays",
  "Bulk strings" and "Inline commands").
- **hustmq queues and typed tables** (`Queue*.dfy`, `SlotIndex.dfy`, `Table*.dfy`). Three rings of
  tags per queue in a mapped slot array over a key-value storage, with tokens, redelivery, purge
  and restart. The deletion of an acknowledged item comes after the lock of its queue is released,
  so it is a step of its own. Table records with count, size and page totals.
- **Storage cache and sorted sets** (`Store.dfy`, `KvEngine.dfy`, `ZSet*.dfy`). The versioned
  storage as a map, the read cache in front of it, and the two indexes of a sorted set, with and
  without the cache.
- **Raft commitment and membership** (`Raft*.dfy`; sections 5.3 and 5.4.2 of the extended Raft
  paper, section 4.1 of Ongaro's dissertation).
- **Codecs and lookup** (`Base64.dfy`, section 4 of RFC 4648; `UrlCodec.dfy`, section 2.1 of
  RFC 3986; `IpAllow.dfy` and `IpAccess.dfy`).

Code that updates state in place is a class or an array method whose contract ties the new state to
a function of the old one; the theorems are about those functions, over every input and every run.
`Bytes.dfy` holds bytes, options and decimal texts. Check all of it with
`dafny verify dfyconfig.toml`.

Some promises do not hold of the code as written. Each has the exact condition under which it does
hold, most also a concrete input:

- A log can be deleted or reread between the two header stores of a line (`SyncSafety.ReleaseSafety`,
  `SyncFile.ReleaseExact`, `SyncSafety.TornReleaseMissesOne`, `SyncSafety.LosingRunLosesARecord`).
  The first two are about marks: the line without one may have been accepted.
- A protocol error discards commands parsed in the same buffer, and so does the panic on a declared
  length close to 2^63 (`RespStream.SplitExact`, `RespStream.SplitMattersWhenMalformed`,
  `RespCodec.DeclaredLengthExact`, `RespStream.SplitMattersWhenOversized`).
- A version that wraps to 1 is taken for a new key and leaves the old value cached
  (`KvCache.AgreementExact`, `KvCache.WrapExample`, `ZSetCache.ZaddCacheExact`,
  `ZSetCache.ZsetWrapExample`).
- A refused binlog write of a sorted set still rewrites the score index (`ZSet.AgreementExact`,
  `ZSet.RefusedRemovalExample`).
- Ranges over negative scores follow the text, not the number (`ZSetScore.RangeExact`,
  `ZSetScore.NegativeRangeExample`).
- The deletion of an acknowledged item can hit a newer item under the same tag
  (`QueueTheorems.RunRefines`, `QueueTraces.PurgeRace`); it does not while deletions come within a
  lap of the tags and before purges (`QueueLaps.PromptRunFollows`).
- Items are lost by gets that fail, by failed deletions, by purges and by restarts
  (`QueueConservation.RunBalances`, `QueueConservation.RestartBalances`).
- A redelivery records a new time in one of two structures only, and the entry an ack then leaves
  behind hides ready items for one get (`QueueRedelivery.RedeliverExact`,
  `QueueRedelivery.StaleAfterRun`, `QueueRedelivery.MissingExact`, `QueueTraces.StaleEntryHidesItem`).
- Table totals drift when a table is erased with size on record (`TableAccounting.EraseExact`,
  `TableAccounting.RunDrift`, `TableAccounting.OverwriteDrifts`), or between the lookup and the
  charge of an insert (`TableAccounting.LateChargeExact`, `TableAccounting.EraseRace`,
  `TableAccounting.ReuseRace`).
- `match` works on a copy of the commitment record (`RaftCommitModel.MatchExact`,
  `RaftCommitModel.LostCommitExample`), and `Next` returns the list before the edit
  (`RaftConfigModel.ReturnsEditedExact`, `RaftConfigModel.ReturnsOldExample`). The comments on
  `AddStaging` and `AddNonvoter` describe other results than the code has
  (`RaftConfigModel.AddMakes`).
- Decoding stops at a question mark, also an escaped one (`UrlCodec.RoundTripExact`).
- The binary search misses addresses of overlapping ranges (`IpSearch.SearchExact`,
  `IpSearch.OverlapExample`), and a list with too many entries is cut (`IpParse.LoadedCovers`,
  `IpParse.LongListLosesLast`). A token of 16 bytes or more overruns its buffer
  (`IpParse.OverrunExact`).

## Model

| member | source | states |
|---|---|---|
| `SyncModel.StepKeeps` | hustdb/sync/module/read_log.cpp:141-167 | every single step (create, append, deliver, store position, store count, pop, answer, expire, mark, save mark, release, restart) keeps the daemon invariant: lines handed over are marked or held, marks are settled lines, the header describes line ends |
| `SyncModel.RunKeeps` | hustdb/sync/module/threadpool.cpp:86-123 | the invariant holds in every state of every interleaving, with any number of crashes and restarts |
| `SyncDaemon.RestartRedelivers` | hustdb/sync/module/sync.cpp:277-289 | after a restart the marks are exactly those on the page, and the next pass hands over every line it reaches that has none, from the first line on |
| `SyncSafety.HoldersCount` | hustdb/sync/module/threadpool.cpp:101-111 | a record has at most one holder, and has one exactly when it is queued or with a worker |
| `SyncSafety.SettledWasDone` | hustdb/sync/module/task.cpp:97-106 | in every run a settled record was, at some step, with a worker that got the answer 200, 400 or 412 for it or found it expired |
| `SyncSafety.DoneIsSettled` | hustdb/sync/module/task.cpp:97-106 | and every such record is settled from then on, restarts included |
| `SyncSafety.AnswerExact` | hustdb/sync/module/threadpool.cpp:101-108 | an answer settles the record if and only if it is 200, 400 or 412; after any other answer, or none, the task is at the back of the queue |
| `SyncSafety.NoRecordLost` | hustdb/sync/module/read_log.cpp:141-167 | in every reachable state each record below the delivered count is either marked, and then was answered 200, 400 or 412 or found expired at some step, or held by exactly one task |
| `SyncSafety.TasksCarryTheirLine` | hustdb/sync/module/read_log.cpp:148-187 | every queued task carries the bytes of its line behind the 32-byte prefix, and that line has no mark |
| `SyncSafety.ReleaseSafety` | hustdb/sync/module/check_backend.cpp:182-202 | a deleted log had all lines marked if and only if position and count of its header agreed when it was deleted; then each line was answered 200, 400 or 412 or found expired |
| `SyncSafety.TornReleaseMissesOne` | hustdb/sync/module/check_backend.cpp:182-202 | a log deleted with a torn header lacks the mark of exactly one line; all its lines were accepted or expired if and only if that line was |
| `SyncSafety.CarefulRunLosesNothing` | hustdb/sync/module/check_backend.cpp:163-204 | in every run in which no deletion or restart falls between the two header stores of a line, every line of every deleted log was answered 200, 400 or 412 or found expired |
| `SyncSafety.LosingRunLosesARecord` | hustdb/sync/module/file.cpp:38-48 | for every one-line log a run exists that deletes the log between the two header stores, with the record neither sent nor expired |
| `SyncFile.ReleaseExact` | hustdb/sync/module/check_backend.cpp:182-185 | when the deletion test passes, the log is whole lines, and all of them are marked if and only if the header is not torn; if it is, exactly one has no mark |
| `SyncFile.ReleaseWhenDone` | hustdb/sync/module/check_backend.cpp:179-185 | once the reader stored the end of the log, the test passes if and only if every line is marked and the size fits the 32-bit header word |
| `SyncStatusPage.StoreWordReadsBack` | hustdb/sync/module/file.cpp:38-48 | a header store is read back modulo 2^32 and touches no other word and no mark |
| `SyncStatusPage.StoreMarkReadsBack` | hustdb/sync/module/file.cpp:60-74 | a mark byte is found again by a restart if and only if its position is below the capacity; the header survives exactly then or when the byte hit already holds that character |
| `SyncDaemon.ParseBitset` | hustdb/sync/module/sync.cpp:280-281 | the bitset read from a page is the set of marked positions; a text with any other character is refused |
| `SyncDaemon.BinlogFile.Create` | hustdb/sync/module/monitor.cpp:131-181 | a new log starts with an empty header, no marks and nothing read |
| `SyncDaemon.BinlogFile.Reopen` | hustdb/sync/module/sync.cpp:277-289 | after a restart the file has exactly the marks on its page and starts reading at the beginning |
| `SyncDaemon.BinlogFile.SetLastReadPos` | hustdb/sync/module/file.cpp:38-42 | the position in memory and in the header word become the given one and nothing else changes |
| `SyncDaemon.BinlogFile.SetLastReadCount` | hustdb/sync/module/file.cpp:44-48 | the count in memory and in the header word become the given one and nothing else changes |
| `SyncDaemon.BinlogFile.SetBitmap` | hustdb/sync/module/file.cpp:60-74 | below the capacity the position joins the marks in memory and on the page and position and count stay; for every position the page is the old one with the count word and the mark byte stored |
| `SyncDaemon.BinlogFile.HasSynced` | hustdb/sync/module/file.cpp:81-84 | answers whether the position is marked |
| `SyncDaemon.BinlogFile.FetchAccomplishCnt` | hustdb/sync/module/file.cpp:76-79 | answers the number of marks |
| `SyncDaemon.BinlogFile.ReadyToDelete` | hustdb/sync/module/check_backend.cpp:179-185 | the comparison of mapped words, log size and mark count is the release test of the model |
| `SyncDaemon.TaskPool.ExecRound` | hustdb/sync/module/threadpool.cpp:86-114 | a task that is answered 200, 400 or 412 or is expired leaves the queue with its mark set in memory and on the page; any other goes to the back and changes no file |
| `SyncDaemon.ReadLine` | hustdb/sync/module/read_log.cpp:148-167 | one round of the reader hands over the line unless it is marked, then stores the end of the line and the count; an unmarked line shorter than its prefix ends the process |
| `SyncDaemon.ReadLog` | hustdb/sync/module/read_log.cpp:141-167 | the loop leaves the file and the task queue as a pass over the rest of the log should; the process dies exactly when a complete line is left that cannot be handed over |
| `SyncDaemon.ReadRestHandsOverUnmarked` | hustdb/sync/module/read_log.cpp:141-187 | a pass hands over exactly the unmarked lines it passes, in order and with their payloads, and stops only where no complete line is left |
| `SyncDaemon.UnmarkedExactly` | hustdb/sync/module/read_log.cpp:148-167 | a record is among those handed over if and only if it lies in the range read and has no mark |
| `SyncDaemon.Releaser.ReleaseFile` | hustdb/sync/module/check_backend.cpp:163-204 | the front file is deleted if and only if its test passes; otherwise it goes to the back of the release queue |
| `RespCodec.ParseIntIsParseUint` | hustdb/goha/server/reader.go:233-248 | the one- and two-digit shortcuts agree with the library parse on every byte string, including its refusals and the wrap to a signed integer |
| `RespCodec.ParseIntOfDigits` | hustdb/goha/server/reader.go:233-248 | the decimal text of every number below 2^63 parses to that number |
| `RespCodec.TakeOneUses` | hustdb/goha/server/reader.go:24-231 | a step that takes something consumes at least one and at most all buffered bytes, and a command has at least one argument |
| `RespCodec.TakeOneStable` | hustdb/goha/server/reader.go:24-231 | once the buffered bytes decide a step, later bytes do not change it |
| `RespCodec.RoundTrip` | hustdb/goha/server/reader.go:123-197 | an encoded command of arbitrary binary arguments is taken back exactly, with Raw equal to the encoding, whatever follows it |
| `RespCodec.GrammarTaken` | hustdb/goha/server/reader.go:123-197 | every array of bulk strings, leading zeros in its numbers included, is taken with its arguments, whatever follows |
| `RespCodec.GrammarExact` | hustdb/goha/server/reader.go:123-197 | and nothing else is taken from an array: the bytes used are such an array and the arguments are its own |
| `RespCodec.BadHead` | hustdb/goha/server/reader.go:126-135 | a first line that is not a positive number below 2^63 and CR LF is an invalid multi-bulk length |
| `RespCodec.BadMark` | hustdb/goha/server/reader.go:141-145 | a byte other than a dollar sign where a bulk string should start is reported |
| `RespCodec.BadLength` | hustdb/goha/server/reader.go:146-154 | a length line that is not a number below 2^63 and CR LF is an invalid bulk length |
| `RespCodec.BadEnd` | hustdb/goha/server/reader.go:159-162 | two bytes other than CR LF behind the announced ones are an invalid bulk length |
| `RespCodec.BadCommand` | hustdb/goha/server/reader.go:136-162 | a bad bulk string fails the command, however many good ones come before it |
| `RespCodec.WrittenExample` | hustdb/goha/server/writer.go:59-71 | the texts of an array header and of a bulk string |
| `RespCodec.DeclaredLengthExact` | hustdb/goha/server/reader.go:151-163 | a command whose bulk string is declared with n bytes is waited for if and only if the index behind those bytes is below 2^63; otherwise the sum wraps and the reader panics |
| `RespCodec.ProperPrefixWaits` | hustdb/goha/server/reader.go:123-197 | a proper prefix of an encoded command is neither taken nor refused |
| `RespInline.InlineRoundTrip` | hustdb/goha/server/reader.go:33-122 | a line of plain words and of words in either kind of quotes with escapes, with any spaces around them, ended by LF or CR LF, is taken as exactly those words with their array encoding as Raw; a line without words gives no command |
| `RespInline.QuoteErrors` | hustdb/goha/server/reader.go:60-98 | behind any good words, a quote inside a word, a closing quote without a space behind it and an open quote are refused |
| `RespStream.DrainInTwo` | hustdb/goha/server/reader.go:24-231 | draining a prefix and then the remainder with later bytes gives what draining everything gives |
| `RespStream.SplitIndependence` | hustdb/goha/server/conn.go:46-78 | for every byte stream and every split: without an error or a panic commands and leftover are those of the whole stream; with one, dispatched and lost commands together are those before the error |
| `RespStream.SplitExact` | hustdb/goha/server/conn.go:46-78 | for every byte stream: all splits give the same session if and only if the stream has no protocol error and no panic, or no complete command before it |
| `RespCodec.TakeOnePrefix` | hustdb/goha/server/reader.go:24-231 | what a step takes depends on the bytes it uses only |
| `RespStream.DrainEncoded` | hustdb/goha/server/writer.go:59-71 | the concatenated encodings of any list of commands drain to those commands and nothing is left |
| `RespStream.PipelineRoundTrip` | hustdb/goha/server/reader.go:24-231 | the commands written, split into any chunks, are dispatched one by one in order, each with its own encoding as Raw |
| `RespStream.SplitMattersWhenMalformed` | hustdb/goha/server/reader.go:126-135 | for every command: followed by a bad header it is lost when both arrive together and dispatched when they do not |
| `RespStream.SplitMattersBefore` | hustdb/goha/server/conn.go:46-78 | for every command and every continuation that fails before its first command: together they lose the command, apart they dispatch it |
| `RespStream.SplitMattersWhenOversized` | hustdb/goha/server/reader.go:151-163 | for every command followed by a header that declares 2^63 - 1 bytes: one read panics before the command is dispatched, two reads dispatch it |
| `RespReader.Connection.Read` | hustdb/goha/server/reader.go:225-229 | a read returns a non-empty prefix of the stream, or nothing at its end |
| `RespReader.Writer.WriteArray` | hustdb/goha/server/writer.go:67-71 | appends the array header |
| `RespReader.Writer.WriteBulk` | hustdb/goha/server/writer.go:59-65 | appends the length line, the bytes and the line end |
| `RespReader.Writer.WriteCommand` | hustdb/goha/server/writer.go:59-71 | header and bulk strings together append the encoding of the command |
| `RespReader.ScanBulk` | hustdb/goha/server/reader.go:138-169 | the index loop over one bulk string is the specification step, for every buffer and position, the wrap of the index sum included |
| `RespReader.ScanBulks` | hustdb/goha/server/reader.go:136-195 | the loop over the bulk strings is the specification, also when the bytes run out in the middle |
| `RespReader.ScanArray` | hustdb/goha/server/reader.go:123-197 | the array branch is the specification |
| `RespReader.ScanWords` | hustdb/goha/server/reader.go:43-103 | the quote-aware word loop is the character-by-character specification |
| `RespReader.ScanInline` | hustdb/goha/server/reader.go:33-122 | the inline branch is the specification |
| `RespReader.ScanOne` | hustdb/goha/server/reader.go:31-197 | one round of the scan is the specification |
| `RespReader.ScanAll` | hustdb/goha/server/reader.go:28-200 | the scan loop returns the commands, leftover or error of draining the buffer |
| `RespReader.Reader.MakeRoom` | hustdb/goha/server/reader.go:213-224 | rewinding or doubling the buffer makes room and keeps every unread byte |
| `RespReader.Reader.Append` | hustdb/goha/server/reader.go:225-230 | received bytes are added behind the unread ones |
| `RespReader.Reader.Refill` | hustdb/goha/server/reader.go:213-230 | one read is added behind the unread bytes, or the stream has ended |
| `RespReader.Reader.TakeBuffered` | hustdb/goha/server/reader.go:24-200 | the buffered bytes are drained and the start index moves to the leftover |
| `RespReader.Reader.ReadCommands` | hustdb/goha/server/reader.go:24-231 | one call is the part of the session made up by the byte strings it reads: the commands dispatched and the bytes kept, the end of the stream, or the error |
| `RespReader.Reader.Run` | hustdb/goha/server/conn.go:46-78 | over a whole connection exactly the commands of the byte stream are dispatched; after an error or a panic exactly those that the reads before it completed |
| `QueueRing.SizeIsModular` | hustdb/db/server/module/hustdb.cpp:1185-1202 | the number of ready tags is (end - start) mod 11000000 |
| `QueueRing.RealItemExact` | hustdb/db/server/module/hustdb.cpp:1185-1202 | the computed item count equals that number if and only if the ring is not wrapped or its start lies above 5000000; so it does whenever the distance is at most 5000000 |
| `QueueRing.PushTag` | hustdb/db/server/module/hustdb.cpp:3605-3629 | advancing the end appends one tag that no ready item has, also across the wrap |
| `QueueRing.PopTag` | hustdb/db/server/module/hustdb.cpp:3694-3720 | advancing the start removes exactly the oldest tag |
| `QueueKeys.ItemKeyInjective` | hustdb/db/server/module/hustdb.cpp:3615-3616 | storage keys of items differ whenever queue, priority or tag differ |
| `QueueKeys.KeyExample` | hustdb/db/server/module/hustdb.cpp:3615-3616 | the key text of an item |
| `QueueKeys.NameExact` | hustdb/db/server/module/hustdb.cpp:1031-1052 | a name is accepted if and only if it has 1 to 64 letters, digits, underscores, colons and points |
| `SlotIndex.RebuildRestores` | hustdb/db/server/module/hustdb.cpp:762-778 | rebuilding the map from the slot array gives back the identical name-to-offset map |
| `SlotIndex.NamesDistinct` | hustdb/db/server/module/hustdb.cpp:1204-1309 | slots in use have pairwise distinct names |
| `SlotIndex.ClaimSlot` | hustdb/db/server/module/hustdb.cpp:1281-1305 | taking a free slot for a new name keeps array and map in one-to-one correspondence |
| `SlotIndex.FreeSlot` | hustdb/db/server/module/hustdb.cpp:4183-4203 | freeing a slot and erasing its name keeps the correspondence |
| `SlotIndex.FullIff` | hustdb/db/server/module/hustdb.cpp:1281-1308 | no slot is free if and only if the map has as many names as there are slots |
| `QueueRefinement.OpenRefines` | hustdb/db/server/module/hustdb.cpp:1204-1309 | opening a queue creates an empty one in a free slot, fails exactly when all slots are used or a publish queue has the name, and leaves other queues alone |
| `QueueRuns.PutRefines` | hustdb/db/server/module/hustdb.cpp:3553-3632 | a put refines appending to its priority, with the same answer code in every error case |
| `QueueRuns.GetRefines` | hustdb/db/server/module/hustdb.cpp:3634-3743 | a get takes the head of the highest non-empty priority; with an overdue item it leaves the ready items alone and hands out the stored item of the oldest token |
| `QueueDelivery.RedeliveryAnswers` | hustdb/db/server/module/hustdb.cpp:3683-3732 | with an overdue item every get, acknowledged by the server or not, answers the front token of the multimap with the item stored under it, or Missing if there is none |
| `QueueDelivery.ReadyAnswers` | hustdb/db/server/module/hustdb.cpp:3694-3732 | otherwise it answers the oldest tag of the highest non-empty ring with its item |
| `QueueDelivery.RunWrites` | hustdb/db/server/module/hustdb.cpp:3615-3629 | after every run each stored item is the one last put under its token |
| `QueueDelivery.DeliveredIsLastPut` | hustdb/db/server/module/hustdb.cpp:3726-3742 | after every run a get that answers Ok, for the first time or again, hands out the item of the last put that took the tag of the token it chose |
| `QueueDelivery.FreshRecorded` | hustdb/db/server/module/hustdb.cpp:687-781 | a new server satisfies the hypothesis on the state |
| `QueueDelivery.AckAnswers` | hustdb/db/server/module/hustdb.cpp:3785-3828 | an acknowledgement succeeds if and only if the queue has the token as unacknowledged, and then takes out that token only |
| `QueueDelivery.DropAnswers` | hustdb/db/server/module/hustdb.cpp:3745-3756 | the late deletion answers Ok if and only if it deletes the item |
| `QueueRuns.UnrecordRefines` | hustdb/db/server/module/hustdb.cpp:3785-3828 | the locked part of an acknowledgement changes no ready item of any queue |
| `QueueRuns.DropExact` | hustdb/db/server/module/hustdb.cpp:3745-3756 | the deletion of an acknowledged item is invisible if and only if it fails or its token is not that of a ready item |
| `QueuePurge.PurgeKeysAreReady` | hustdb/db/server/module/hustdb.cpp:4158-4179 | the purge loop, whose end tag runs past the ring size when wrapped, visits exactly the keys of the ready tags |
| `QueuePurge.PurgeRefines` | hustdb/db/server/module/hustdb.cpp:4112-4212 | a purge deletes exactly those keys, keeps the other two priorities, and frees the slot if and only if they are empty |
| `QueuePurge.RestartRefines` | hustdb/db/server/module/hustdb.cpp:762-778 | a restart rebuilds the identical map and keeps every queue |
| `QueueConservation.StepBalances` | hustdb/db/server/module/hustdb.cpp:3553-4212 | each operation loses exactly these stored items: a get those it neither records nor is to delete, a failed deletion its own, a purge those of the queue it frees and those it cannot delete, a restart those in use |
| `QueueConservation.RunBalances` | hustdb/db/server/module/hustdb.cpp:3553-4212 | after every run without reuse of a tag in use, every item that was put and neither purged nor deleted is ready, in use, or lost in one of these ways, and not two of them |
| `QueueConservation.RestartBalances` | hustdb/db/server/module/hustdb.cpp:762-778 | a restart keeps the ready items and loses exactly the stored items in use |
| `QueueConservation.LostIsNotDelivered` | hustdb/db/server/module/hustdb.cpp:3683-3720 | a get never works on a lost item |
| `QueueConservation.CarefulRunLosesNone` | hustdb/db/server/module/hustdb.cpp:3553-4212 | with a storage that answers, workers that get their reply, no restart and no purge of a queue with items in use, every item stays ready or in use until it is purged or deleted |
| `QueueConservation.FreshKept` | hustdb/db/server/module/hustdb.cpp:687-781 | a new server satisfies the hypotheses on the state |
| `QueueTheorems.StepExact` | hustdb/db/server/module/hustdb.cpp:3553-4212 | each operation on slots, map, storage and pending deletions is the operation on three sequences per queue if and only if it is not the deletion of a ready item |
| `QueueTheorems.RunRefines` | hustdb/db/server/module/hustdb.cpp:3553-4212 | a run of puts, gets, acks, deferred deletions, purges, settings and restarts in any order follows the sequences, state by state and answer by answer, if and only if no deletion hits a ready item |
| `QueueSeparation.FreshRunIsClean` | hustdb/db/server/module/hustdb.cpp:3602-3756 | if no put takes a tag that is outstanding or about to be deleted, no deletion hits a ready item |
| `QueueSeparation.FreshRunIsFifo` | hustdb/db/server/network/hustdb_handler.cpp:479-497 | so every such run with gets acknowledged by the server has exactly the answers of first-in-first-out queues |
| `QueueLaps.SerialRunIsFifo` | hustdb/db/server/network/hustdb_handler.cpp:479-497 | every run in which each get is followed at once by its deletion has exactly the answers of first-in-first-out queues: no condition on tags, puts or purges |
| `QueueLaps.PromptRunIsFresh` | hustdb/db/server/module/hustdb.cpp:3602-3756 | a run in which each item is deleted before its priority has taken 6000000 puts since it was handed out, and no queue is purged while its items are in use, meets that condition on puts |
| `QueueLaps.PromptRunFollows` | hustdb/db/server/module/hustdb.cpp:3602-3756 | so every such run from a settled server follows the sequences in every state and every answer, redeliveries and restarts included |
| `QueueLaps.ShortRunIsPrompt` | hustdb/db/server/module/hustdb.cpp:3602-3756 | a run without purges and with at most 6000000 puts is such a run, whenever its deletions come |
| `QueueTraces.PurgeRace` | hustdb/db/server/network/hustdb_handler.cpp:479-497 | put, get, purge, put, late deletion, get: the second put answered Ok and its item is gone |
| `QueueTheorems.AcknowledgedRunIsFifo` | hustdb/db/server/module/hustdb.cpp:3602-3756 | for every run in which gets are acknowledged by the server and no deletion hits a ready item every answer and item is that of first-in-first-out queues |
| `QueueTheorems.FreshInv` | hustdb/db/server/module/hustdb.cpp:687-781 | an empty slot array satisfies the invariant and stands for no queues |
| `QueueSystem.StepKeepsMapped` | hustdb/db/server/module/hustdb.cpp:1204-1309 | every operation in any state, publish queues in other slots included, keeps names and slots in one-to-one correspondence and the rings of a queue within the item limit |
| `QueueSystem.CountsAreExact` | hustdb/db/server/module/hustdb.cpp:3602-3613 | after every run, with or without reused tags, the computed counts are the true ring distances and add up to at most 5000000 |
| `QueueSystem.RestartAfterRun` | hustdb/db/server/module/hustdb.cpp:762-778 | after every run slots in use have distinct names and a restart rebuilds the identical map |
| `QueueRuns.DeleteExact` | hustdb/db/server/module/hustdb.cpp:3745-3756 | deleting the key of a token leaves all queues unchanged if and only if no ready item has that token |
| `QueueRedelivery.RememberAgrees` | hustdb/db/server/module/hustdb.cpp:3734-3740 | a new unacknowledged item enters map and multimap alike |
| `QueueRedelivery.InsertedLast` | hustdb/db/server/module/hustdb.cpp:3734-3740 | with a clock that does not go back a new entry is the last one |
| `QueueRedelivery.ForgetAgrees` | hustdb/db/server/module/hustdb.cpp:3798-3823 | an acknowledgement removes exactly the one matching pair from both |
| `QueueRedelivery.OverdueIffTimedOut` | hustdb/db/server/module/hustdb.cpp:3683-3693 | something is redelivered if and only if an unacknowledged item has waited for the timeout, and it is the oldest |
| `QueueRedelivery.RedeliverExact` | hustdb/db/server/module/hustdb.cpp:3734-3740 | a redelivery keeps the agreement if and only if the item is recorded again in the second of its first record |
| `QueueRedelivery.RedeliveryExample` | hustdb/db/server/module/hustdb.cpp:3734-3740 | an item recorded at second 0 and redelivered at second 60: map and multimap differ |
| `QueueRedelivery.StaleExact` | hustdb/db/server/module/hustdb.cpp:3806-3823 | an acknowledgement leaves an entry of its token in the multimap if and only if there is one more than the entry at the time the map holds |
| `QueueRedelivery.RunOrdered` | hustdb/db/server/module/hustdb.cpp:3683-3823 | after every run without reuse of a tag in use, redeliveries included, every multimap is sorted by time with at most one entry per token |
| `QueueRedelivery.StaleAfterRun` | hustdb/db/server/module/hustdb.cpp:3806-3823 | after every such run an acknowledgement leaves an entry of its token behind if and only if that entry was made at another time than the map holds |
| `QueueRedelivery.MissingExact` | hustdb/db/server/module/hustdb.cpp:3683-3732 | a get on a queue with ready items answers Missing if and only if the front of the multimap is overdue and its item is no longer stored |
| `QueueTraces.StaleEntryHidesItem` | hustdb/db/server/module/hustdb.cpp:3683-3832 | put, get, redelivery, ack, put, get: the last get answers Missing and the second item stays ready |
| `QueueRedelivery.RunAgrees` | hustdb/db/server/module/hustdb.cpp:3634-3833 | up to the first redelivery both structures hold the same pairs after every run without reuse of a tag in use |
| `QueueEngine.EraseScan` | hustdb/db/server/module/hustdb.cpp:3798-3823 | the scan of the equal range of a time removes the entry with the token and keeps the order of the rest |
| `QueueEngine.HustMq.FindQueue` | hustdb/db/server/module/hustdb.cpp:1216-1267 | lookup in the map |
| `QueueEngine.HustMq.FindOrCreateQueue` | hustdb/db/server/module/hustdb.cpp:1204-1309 | scan for the name, else for a free slot, as in the model |
| `QueueEngine.HustMq.Put` | hustdb/db/server/module/hustdb.cpp:3553-3632 | slot array, map, storage and answer become those of the model operation |
| `QueueEngine.HustMq.Get` | hustdb/db/server/module/hustdb.cpp:3634-3743 | slot array, map and delivery become those of the model operation |
| `QueueEngine.HustMq.ChooseItem` | hustdb/db/server/module/hustdb.cpp:3683-3720 | an overdue token, else the next tag of the highest non-empty ring |
| `QueueEngine.HustMq.Unrecord` | hustdb/db/server/module/hustdb.cpp:3785-3828 | map and multimap become those of the model operation |
| `QueueEngine.HustMq.DropItem` | hustdb/db/server/module/hustdb.cpp:3745-3756 | the storage becomes that of the model operation |
| `QueueEngine.HustMq.Ack` | hustdb/db/server/module/hustdb.cpp:3758-3833 | both parts in a row |
| `QueueEngine.HustMq.DeleteTags` | hustdb/db/server/module/hustdb.cpp:4156-4181 | the deletion loop removes the purge keys that can be deleted and counts the tags |
| `QueueEngine.HustMq.Purge` | hustdb/db/server/module/hustdb.cpp:4112-4212 | slot array, map and storage become those of the model operation |
| `QueueEngine.HustMq.InitIndex` | hustdb/db/server/module/hustdb.cpp:762-778 | the loop over the slots rebuilds the map |
| `QueueServer.Server.Execute` | hustdb/db/server/network/hustdb_handler.cpp:471-506 | one operation of a handler, or a deletion it still owes, moves the object as the model moves |
| `QueueServer.Server.RunAll` | hustdb/db/server/network/hustdb_handler.cpp:471-506 | any sequence of operations and deletions on the object is a run of the model |
| `TableModel.PagesFacts` | hustdb/db/server/module/hustdb.cpp:1142-1183 | a size is charged with the next multiple of 1024, and a removal undoes the charge |
| `TableAccounting.AddKeeps` | hustdb/db/server/module/hustdb.cpp:2328-2332 | an insert into a hash, set or sorted set keeps the counts, and the sizes where they were right |
| `TableAccounting.RemoveKeeps` | hustdb/db/server/module/hustdb.cpp:2587-2591 | a delete keeps the counts whatever size is reported, and the sizes if the reported size is the charged one |
| `TableAccounting.EraseExact` | hustdb/db/server/module/hustdb.cpp:1142-1183 | erasing a hash table with its last item keeps the size totals right if and only if the reported size is all the size on record, and the page totals if and only if its pages are all the pages on record |
| `TableAccounting.RunDrift` | hustdb/db/server/module/hustdb.cpp:1142-1183 | over every run the size and page totals are off by exactly what the erased hash tables had left |
| `TableAccounting.OverwriteDrifts` | hustdb/db/server/module/hustdb.cpp:2328-2332 | insert, overwrite with another length, delete: no table is left and the totals keep the difference |
| `TableAccounting.RestartAfterRun` | hustdb/db/server/module/hustdb.cpp:857-866 | after every run the map rebuilt from the records is the map |
| `TableAccounting.TotalsAreSums` | hustdb/db/server/module/hustdb.cpp:1142-1183 | after every run over hash tables, sets and sorted sets the count of the hash totals is the sum over the live hash tables; sizes and pages too if deletes report what inserts charged |
| `TableAccounting.RunTotals` | hustdb/db/server/module/hustdb.cpp:1142-1183 | after every such run all capacities, the totals included, are multiples of 1024 and at least the sizes |
| `TableAccounting.LateChargeExact` | hustdb/db/server/module/hustdb.cpp:1142-1183 | a charge of any count and size, whatever happened to the record since it was looked up, keeps the count, size and page totals in step if and only if, for each, a record that is no live hash table moves no total, an erased one leaves nothing, and any other moves as much as the total |
| `TableAccounting.EraseRace` | hustdb/db/server/module/hustdb.cpp:1142-1183 | a table is erased between the lookup and the charge of an insert: the charge goes to a record not in use and the totals count it |
| `TableAccounting.ReuseRace` | hustdb/db/server/module/hustdb.cpp:1142-1183 | a hash table takes over the record between the lookup and the charge of a set: its count goes up and the totals do not |
| `TableEngine.TableIndex.FindTableOffset` | hustdb/db/server/module/hustdb.cpp:1076-1140 | lookup, or creation in a free record, as in the model |
| `TableEngine.TableIndex.SetTableMeta` | hustdb/db/server/module/hustdb.cpp:1142-1183 | record, totals and map become those of the model, including erasure at count zero |
| `TableEngine.TableIndex.InitIndex` | hustdb/db/server/module/hustdb.cpp:857-866 | the loop over the records rebuilds the map |
| `Store.PutEffect` | hustdb/db/server/module/kv/md5db/kv_md5db.cpp:2328-2662 | a put takes effect exactly when it answers 0 without a version error; returned version 1 means a new key or a wrapped version |
| `Store.DelEffect` | hustdb/db/server/module/kv/md5db/kv_md5db.cpp:2045-2254 | a delete takes effect exactly when it answers 0 without a version error |
| `Store.PutAnswers` | hustdb/db/server/module/kv/md5db/kv_md5db.cpp:2328-2662 | the answer of a put by the version given and the version stored: invalid, fault, refused or done, each if and only if its condition holds |
| `Store.DelAnswers` | hustdb/db/server/module/kv/md5db/kv_md5db.cpp:2045-2254 | the same for a delete, with a missing key |
| `KvCache.AnswersAre` | hustdb/db/server/module/hustdb.cpp:1549-1698 | put and delete answer for the storage once their parameters and the memory limit pass |
| `KvCache.TtlExact` | hustdb/db/server/module/hustdb.cpp:1549-1645 | a value written with a time to live is answered until that many seconds have passed and not found from then on; a time beyond the limit counts as none |
| `KvCache.ExpiredIsDeleted` | hustdb/db/server/module/hustdb.cpp:1440-1547 | a get that finds an expired entry deletes it |
| `KvCache.GetFills` | hustdb/db/server/module/hustdb.cpp:1440-1547 | a get that answers Ok leaves the entry in the cache if key and value are short enough |
| `KvCache.GetIsLookup` | hustdb/db/server/module/hustdb.cpp:1440-1547 | with an agreeing cache a get answers as the storage alone would, value, version and compression included |
| `KvCache.GetKeeps` | hustdb/db/server/module/hustdb.cpp:1440-1547 | a get, which may fill the cache or delete an expired entry, keeps the agreement |
| `KvCache.PutExact` | hustdb/db/server/module/hustdb.cpp:1549-1645 | a put keeps the agreement if and only if it does not wrap the version of a cached key |
| `KvCache.WrapExample` | hustdb/db/server/module/hustdb.cpp:1549-1645 | from an empty database, a binlog put with version 4194303 and one put: the storage has the new value and a get answers the old one |
| `KvCache.DelKeeps` | hustdb/db/server/module/hustdb.cpp:1647-1699 | a delete keeps the agreement |
| `KvCache.AgreementExact` | hustdb/db/server/module/hustdb.cpp:1440-1699 | cache and storage agree in every state of a run if and only if no accepted put wraps the version of a cached key |
| `KvCache.CacheIsInvisible` | hustdb/db/server/module/hustdb.cpp:1440-1699 | after every run of gets, puts, deletes, evictions, scans and clock ticks without such a wrap, every get answers as if the cache were absent |
| `KvEngine.HustDb.Get` | hustdb/db/server/module/hustdb.cpp:1440-1547 | storage, cache and answer become those of the model operation |
| `KvEngine.HustDb.Put` | hustdb/db/server/module/hustdb.cpp:1549-1645 | storage, cache and answer become those of the model operation |
| `KvEngine.HustDb.Del` | hustdb/db/server/module/hustdb.cpp:1647-1699 | storage, cache and answer become those of the model operation |
| `ZSetScore.ParseScoreText` | hustdb/db/server/module/hustdb.cpp:3093-3094 | the stored text of every 64-bit score parses to that score |
| `ZSetScore.Score21Length` | hustdb/db/server/module/hustdb.cpp:3156-3175 | the index text of every 64-bit score has 21 characters |
| `ZSetScore.Score21Injective` | hustdb/db/server/module/hustdb.cpp:3156-3175 | different scores have different index texts |
| `ZSetScore.Score21Order` | hustdb/db/server/module/kv/kv_array/kv_array.cpp:1101-1120 | index texts are ordered like the scores, except that two negative scores come in the opposite order |
| `ZSetScore.RangeExact` | hustdb/db/server/module/kv/kv_array/kv_array.cpp:1101-1120 | a range read by text returns exactly the scores from min to max if and only if min is not negative or min equals max |
| `ZSetScore.NegativeRangeExample` | hustdb/db/server/module/kv/kv_array/kv_array.cpp:1101-1120 | the range from -2 to 0 misses score -1 |
| `ZSet.IndexKeyInjective` | hustdb/db/server/module/hustdb.cpp:3154-3179 | an index key determines table, score and member |
| `ZSet.OneEntryPerMember` | hustdb/db/server/module/hustdb.cpp:3037-3185 | in an agreeing state a member has exactly one index entry, at its score, and a non-member none |
| `ZSet.ZaddEffect` | hustdb/db/server/module/hustdb.cpp:3062-3185 | a zadd that is not refused and answers 0 gives the member its new score in both indexes and touches no other member; an error changes nothing; the new score is that of ZSet.ZaddScore |
| `ZSet.ZaddScore` | hustdb/db/server/module/hustdb.cpp:3084-3091 | opt 0 sets the score, a positive opt adds to the old one (or to 0), a negative one subtracts from it, modulo 2^64 |
| `ZSet.ScoreIsTally` | hustdb/db/server/module/hustdb.cpp:3084-3185 | over every such run the score of a member is its last set value plus later increments minus later decrements |
| `ZSet.RejectedExact` | hustdb/db/server/module/hustdb.cpp:3004-3030 | what is rejected before the storage is asked |
| `ZSet.KeyExample` | hustdb/db/server/module/hustdb.cpp:3034-3042 | the bytes of a member key and of an index key |
| `ZSet.ZaddExact` | hustdb/db/server/module/hustdb.cpp:3062-3185 | a zadd keeps the indexes in agreement if and only if it is not a refused binlog write with another score |
| `ZSet.ZremEffect` | hustdb/db/server/module/hustdb.cpp:3340-3383 | a zrem that is not refused and answers 0 removes the member from both indexes |
| `ZSet.ZremExact` | hustdb/db/server/module/hustdb.cpp:3340-3383 | a zrem keeps the agreement if and only if it is not a refused binlog write |
| `ZSet.RefusedRemovalExample` | hustdb/db/server/module/hustdb.cpp:3350-3383 | a member written twice and removed by a binlog with version 1: the answer is 0, the member stays and its index entry is gone |
| `ZSet.AgreementExact` | hustdb/db/server/module/hustdb.cpp:3037-3383 | the two indexes agree in every state of a run if and only if it has no refused write other than a zadd that leaves the score as it is |
| `ZSet.IndexIsGraph` | hustdb/db/server/module/hustdb.cpp:3037-3185 | after every such run of set, increment, decrement and remove the index keys are exactly the graph of the member-to-score map |
| `ZSetCache.ZaddRefines` | hustdb/db/server/module/hustdb.cpp:3037-3150 | reading the current score through the cache changes neither the storage nor the answer |
| `ZSetCache.ZscoreIsStored` | hustdb/db/server/module/hustdb.cpp:3236-3292 | zscore answers from the cache what the storage holds |
| `ZSetCache.ZscoreFills` | hustdb/db/server/module/hustdb.cpp:3194-3295 | after a zscore that found the member the next one reads it from the cache |
| `ZSetCache.ZaddCacheExact` | hustdb/db/server/module/hustdb.cpp:3132-3150 | a zadd keeps the cached members in agreement if and only if it does not wrap the version of a cached member |
| `ZSetCache.ZsetWrapExample` | hustdb/db/server/module/hustdb.cpp:3132-3150 | from an empty database, a binlog zadd with version 4194303 and one zadd: the storage has the new score and zscore answers the old one |
| `ZSetCache.ZremCacheKeeps` | hustdb/db/server/module/hustdb.cpp:3371-3377 | a zrem keeps the cached members in agreement |
| `ZSetCache.CachedIndexIsGraph` | hustdb/db/server/module/hustdb.cpp:3037-3295 | after every clean run through the cache, with evictions at any point, both indexes are the graph of the member-to-score map |
| `ZSetCache.ZscoreAnswers` | hustdb/db/server/module/hustdb.cpp:3194-3295 | and zscore answers from that map |
| `KvEngine.HustDb.ReadMember` | hustdb/db/server/module/hustdb.cpp:3037-3060 | text and version come from the cache if it has the member, else from the storage |
| `KvEngine.HustDb.Zadd` | hustdb/db/server/module/hustdb.cpp:2976-3192 | storage, cache and answer become those of the model operation |
| `KvEngine.HustDb.Reindex` | hustdb/db/server/module/hustdb.cpp:3154-3179 | the old index entry goes, the new one comes |
| `KvEngine.HustDb.Zrem` | hustdb/db/server/module/hustdb.cpp:3297-3398 | storage, cache and answer become those of the model operation |
| `KvEngine.HustDb.Zscore` | hustdb/db/server/module/hustdb.cpp:3194-3295 | cache and answer become those of the model operation |
| `RaftQuorum.MiddleIsQuorum` | src/hustmeta/raft/commitment.go:85-90 | the element at (n-1)/2 of a sorted sequence is reached by more than half of it, and nothing larger is |
| `RaftQuorum.CountPermuted` | src/hustmeta/raft/commitment.go:85-90 | sorting does not change how many entries reach an index |
| `RaftCommitModel.StepFacts` | src/hustmeta/raft/commitment.go:45-96 | a call keeps the commit index or moves it to the largest index stored by a strict majority of the current voters, at or above the first index of the term; a set configuration keeps the index of every voter it had, starts new ones at 0 and leaves nothing committable |
| `RaftCommitModel.SameVotersCommit` | src/hustmeta/raft/commitment.go:45-58 | setting the configuration with the same voters keeps the table and commits every index of the term that a majority stores |
| `RaftCommitModel.EntryIsLargestReport` | src/hustmeta/raft/commitment.go:45-77 | over every run, while a server stays a voter, its entry is the largest index reported for it |
| `RaftCommitModel.CommitMonotone` | src/hustmeta/raft/commitment.go:45-96 | over every run of match and setConfiguration the commit index never decreases and is 0 or at least startIndex |
| `RaftCommitModel.CommittedStaysMatched` | src/hustmeta/raft/commitment.go:69-77 | what a majority of the voters stores stays so until the next configuration |
| `RaftCommitModel.UpToDateExact` | src/hustmeta/raft/commitment.go:81-96 | nothing can be committed if and only if no majority stores the next index, the larger of commitIndex + 1 and startIndex |
| `RaftCommitModel.MatchExact` | src/hustmeta/raft/commitment.go:69-77 | match loses a commit if and only if the server did not store the next index, stores it now, and makes those that do more than half of the voters |
| `RaftCommitModel.LostCommitExample` | src/hustmeta/raft/commitment.go:69-77 | one voter, entry 1 written: a majority has it and the commit index stays 0 |
| `RaftEngine.CollectMatched` | src/hustmeta/raft/commitment.go:85-88 | for every index the collected slice has as many entries reaching it as the table has servers |
| `RaftEngine.SortIndexes` | src/hustmeta/raft/util.go:102-106 | a sorted permutation |
| `RaftEngine.CarryOver` | src/hustmeta/raft/commitment.go:49-55 | the new table has exactly the voters, with the index they had or 0 |
| `RaftEngine.Commitment.constructor` | src/hustmeta/raft/commitment.go:28-41 | all voters at 0, commit index 0 |
| `RaftEngine.Commitment.Recalculate` | src/hustmeta/raft/commitment.go:81-96 | the commit index becomes the quorum index when that is larger and in the term; a notification is sent exactly then |
| `RaftEngine.Commitment.SetConfiguration` | src/hustmeta/raft/commitment.go:45-57 | table and commit index become those of the model step |
| `RaftEngine.Commitment.Match` | src/hustmeta/raft/commitment.go:69-77 | the shared table is updated, the commit index is not; a notification is sent exactly when the record is left behind |
| `RaftConfigModel.OneChange` | src/hustmeta/raft/configuration.go:64-100 | one change alters the set of servers and the set of voters by at most one and keeps ids distinct |
| `RaftConfigModel.MajoritiesMeet` | src/hustmeta/raft/configuration.go:64-100 | every majority of the servers, and of the voters, before a change meets every one after it |
| `RaftConfigModel.ChangeExact` | src/hustmeta/raft/configuration.go:26-53 | from a configuration Check accepts, the edited one is accepted if and only if the new address is free and another voter remains, as the command needs |
| `RaftConfigModel.AddMakes` | src/hustmeta/raft/configuration.go:64-79 | AddStaging makes a voter at once, AddNonvoter demotes a staging server, neither changes a voter; the comments on the commands say otherwise |
| `RaftConfigModel.ChangeMakes` | src/hustmeta/raft/configuration.go:93-102 | Promote makes a staging server a voter and leaves any other as it is, DemoteVoter makes a nonvoter, RemoveServer takes the server out |
| `RaftConfigModel.OthersStay` | src/hustmeta/raft/configuration.go:81-105 | no command touches a server with another id |
| `RaftConfigModel.ReturnsEditedExact` | src/hustmeta/raft/configuration.go:81-105 | the list Next returns equals the edited one if and only if the request had no effect |
| `RaftConfigModel.ReturnsOldExample` | src/hustmeta/raft/configuration.go:81-105 | a server joins a list of one voter: the list returned does not have it |
| `RaftConfigModel.RunKeepsIds` | src/hustmeta/raft/configuration.go:81-105 | ids stay distinct over every run of changes |
| `RaftSafety.CommittedSurvives` | src/hustmeta/raft/commitment.go:81-96 | an index stored by a majority of the voters is stored by a member of every majority of the voters after one change |
| `RaftMembership.Configuration.Clone` | src/hustmeta/raft/configuration.go:11-15 | a new object with the same servers |
| `RaftMembership.Configuration.HasVote` | src/hustmeta/raft/configuration.go:17-24 | whether the first server with the id is a voter |
| `RaftMembership.Configuration.FindServer` | src/hustmeta/raft/configuration.go:55-62 | the first server with the id, or -1 |
| `RaftMembership.Configuration.Check` | src/hustmeta/raft/configuration.go:26-53 | accepts exactly the lists with non-empty, distinct ids and addresses and a voter; otherwise names the first fault |
| `RaftMembership.Configuration.AddServer` | src/hustmeta/raft/configuration.go:64-79 | the list becomes that of the model |
| `RaftMembership.Configuration.Next` | src/hustmeta/raft/configuration.go:81-105 | the receiver becomes the edited list; the list returned and checked is the one before the edit; a stale request and an absent server change nothing |
| `Base64.Tables` | hustdb/sync/module/c_base64.cpp:117-142 | the two tables are inverse, and the padding is not in the alphabet |
| `Base64.AlphabetIs` | hustdb/sync/module/c_base64.cpp:59-60 | the characters are those of table 1 of RFC 4648 in that order |
| `Base64.KnownEncodings` | hustdb/sync/module/c_base64.cpp:4-51 | test vectors of RFC 4648 |
| `Base64.GroupValue` | hustdb/sync/module/c_base64.cpp:14-24 | the four characters of a group are the base-64 digits of its 24-bit number |
| `Base64.RoundTrip` | hustdb/sync/module/c_base64.cpp:4-115 | decoding the encoding of any byte string succeeds and returns it; the encoding has 4*ceil(n/3) characters |
| `Base64.RefusalExact` | hustdb/sync/module/c_base64.cpp:71-86 | a text is refused if and only if a character outside the alphabet comes before the first padding or one character is left over |
| `Base64.DecodedReencodes` | hustdb/sync/module/c_base64.cpp:88-112 | whole groups of characters are the encoding of what they decode to |
| `Base64.EncodeInjective` | hustdb/sync/module/c_base64.cpp:4-51 | different byte strings have different encodings |
| `Base64.DecodedLengthIs` | hustdb/sync/module/c_base64.cpp:88-112 | the two phases write three bytes per four characters and one or two for the rest |
| `Base64.EncodeInto` | hustdb/sync/module/c_base64.cpp:4-51 | the buffer holds the padded encoding, and nothing behind it is touched |
| `Base64.ScanChars` | hustdb/sync/module/c_base64.cpp:71-82 | stops at the first padding, refuses any other character outside the alphabet |
| `Base64.DecodeInto` | hustdb/sync/module/c_base64.cpp:65-115 | succeeds exactly on decodable text; then the buffer holds exactly the decoded bytes, otherwise it is untouched |
| `UrlCodec.PutEscape` | hustdb/sync/module/task.cpp:623-626 | an overlapping 4-byte store leaves the escapes so far and stays within 3n+1 bytes |
| `UrlCodec.PlainExact` | hustdb/sync/module/task.cpp:330-588 | exactly these characters are copied, all other bytes are escaped |
| `UrlCodec.EncodeAll` | hustdb/sync/module/task.cpp:589-670 | fails exactly below 3n+1 bytes; otherwise leaves the concatenated escapes and a terminator and nothing behind byte 3n |
| `UrlCodec.RoundTrip` | hustdb/db/server/network/hustdb_utils.cpp:72-202 | decoding an encoding returns the bytes through the first question mark |
| `UrlCodec.HexExact` | hustdb/db/server/network/hustdb_utils.cpp:110-175 | digits above 9 are read in either case, and nothing else is a digit |
| `UrlCodec.EscapeDecodes` | hustdb/db/server/network/hustdb_utils.cpp:100-175 | an escape decodes to the byte of its two digits, and a question mark ends the decoding |
| `UrlCodec.OtherModes` | hustdb/db/server/network/hustdb_utils.cpp:133-195 | for a redirect only printable characters behind the percent sign are decoded; without flags every escape is |
| `UrlCodec.BrokenEscape` | hustdb/db/server/network/hustdb_utils.cpp:110-135 | what becomes of a percent sign without two digits |
| `UrlCodec.RoundTripExact` | hustdb/db/server/network/hustdb_utils.cpp:72-202 | the round trip is the identity if and only if no question mark comes before the last byte |
| `UrlCodec.QuestionExample` | hustdb/db/server/network/hustdb_utils.cpp:156-164 | a?b comes back as a? |
| `UrlCodec.UnescapeShrinks` | hustdb/db/server/network/hustdb_utils.cpp:72-202 | decoding never makes a text longer, in any mode |
| `UrlCodec.UnescapeInto` | hustdb/db/server/network/hustdb_utils.cpp:72-202 | source and destination may be the same buffer: the result is the decoding of the original text, and nothing behind it is touched |
| `UrlCodec.UnescapeInPlace` | hustdb/db/server/network/hustdb_utils.cpp:209-214 | the in-place decode and its terminator |
| `IpTable.InsertSorted` | hustdb/db/server/network/hustdb_network_utils.cpp:35-75 | an insertion keeps the table strictly sorted and adds at most one entry |
| `IpTable.InsertCovers` | hustdb/db/server/network/hustdb_network_utils.cpp:35-75 | an insertion covers exactly what was covered and the new range |
| `IpTable.InsertAllExact` | hustdb/db/server/network/hustdb_network_utils.cpp:35-75 | any sequence of insertions covers exactly the union |
| `IpSearch.SearchSound` | hustdb/db/server/network/hustdb_network_utils.cpp:148-173 | an accepted address is covered, whatever the table |
| `IpSearch.SearchExact` | hustdb/db/server/network/hustdb_network_utils.cpp:148-173 | the search agrees with membership for every address if and only if in no gap between starts the ends on the search path fall short of the largest earlier end |
| `IpSearch.DisjointIsSearchable` | hustdb/db/server/network/hustdb_network_utils.cpp:148-173 | on disjoint ranges it agrees for every address |
| `IpSearch.OverlapExample` | hustdb/db/server/network/hustdb_network_utils.cpp:148-173 | 1-100, 2-3, 5-6: address 50 is covered and refused |
| `IpParse.ParseKeeps` | hustdb/db/server/network/hustdb_network_utils.cpp:99-143 | whatever the text, unless a token overruns its buffer, the table stays sorted, within 1024 entries, and keeps what it covered |
| `IpParse.ReadList` | hustdb/db/server/network/hustdb_network_utils.cpp:99-143 | a written list of any length is inserted entry by entry until one place is left; then the address of the empty text is inserted and the rest dropped |
| `IpParse.ReadsAllExact` | hustdb/db/server/network/hustdb_network_utils.cpp:99-143 | every entry is read if and only if those before the last fill fewer than 1023 places |
| `IpParse.LoadedCovers` | hustdb/db/server/network/hustdb_network_utils.cpp:77-146 | the loaded table covers exactly the entries read and, if the parser stopped early, the address of the empty text |
| `IpParse.AcceptableExact` | hustdb/db/server/network/hustdb_network_utils.cpp:77-97 | a text is read if and only if it has 1 to 8192 digits, points, dashes and commas |
| `IpParse.DottedListLoads` | hustdb/db/server/network/hustdb_network_utils.cpp:77-146 | every list of dotted addresses and ranges of at most 8192 bytes is read without refusal or overrun |
| `IpParse.OverrunExact` | hustdb/db/server/network/hustdb_network_utils.cpp:99-143 | a first token of 16 bytes or more overruns the token buffer, and a lone token does if and only if it has that length |
| `IpParse.LongListLosesLast` | hustdb/db/server/network/hustdb_network_utils.cpp:77-146 | of 1024 or more different addresses the last is refused |
| `IpAccess.IpAllow.AddUniqSort` | hustdb/db/server/network/hustdb_network_utils.cpp:35-75 | the array becomes that of the model insertion |
| `IpAccess.IpAllow.Load` | hustdb/db/server/network/hustdb_network_utils.cpp:77-146 | refuses exactly unacceptable texts, overruns exactly when the model does, and otherwise leaves the parsed table in the array |
| `IpAccess.IpAllow.CanAccess` | hustdb/db/server/network/hustdb_network_utils.cpp:148-173 | accepts only covered addresses, and all of them if the table is searchable |

## Left out

- Storage engine, cache and file formats below their map contracts: md5 collisions, conflict
  buckets, disk files, memory limits of the cache. Storage faults are a parameter of each write.
- Locks and threads: each critical section is one atomic step. Queue operations are split where the
  lock of the queue is released; sync steps are split as far as single stores; sorted-set and cache
  operations are whole steps.
- hustmq publish and subscribe: a publish queue holds its slot and its name, and its operations are
  not part of a run.
- hustmq worker statistics, the timeout setter and the statistics output.
- Hash and set commands other than their table accounting, in which expiry is left out; range, rank
  and export commands other than the order of score texts.
- The sync daemon's totals file, its directory scan for changed logs and its backend health list;
  a log that grows after it was retired is only read again after a restart, as in the source.
- Building a request from a binlog line (header parsing, checksum, base64 body) beyond the two
  codecs: the outcome of sending is a parameter.
- HTTP handlers, JSON, configuration files, authentication, compression, command dispatch of goha.
- Raft log, snapshots, transport and elections.
- SyncModel.StepKeeps: records lie below the capacity of a status page, and a store through a file
  object that was deleted meanwhile has no effect in the model; SyncStatusPage.StoreMarkReadsBack
  says what a mark above the capacity does to the page.
- RespCodec.RoundTrip: the encoding has at most 2^63 bytes, so that its indexes fit Go's int.
- RespReader.ScanBulks: rounds take no time. Once the bytes have run out the source counts the rest of
  the declared bulk strings down one by one, and the model waits, also for counts so close to 2^63
  that the index would wrap after some 2^63 rounds.
- TableAccounting.TotalsAreSums: lookup, storage and charge of one command are one step of a run, and
  counters are mathematical integers, not 64-bit words.
- ZSet.ZaddEffect: scores without a time to live, and index writes that the storage does not fail.
- ZSetScore.ParseScoreText: only texts that zadd writes are parsed; other spellings a number parser
  accepts are refused in the model.
- KvCache.CacheIsInvisible: the item counters that plain puts and deletes charge are not part of it.
- ZSetCache.CachedIndexIsGraph: the cache holds members of sorted sets only.
- RaftMembership.Configuration.Next: server lists are values, so two configurations never share a
  backing array; a panic is a result.
- UrlCodec.EncodeAll: the source is given with its length, and 3n+1 is a mathematical integer.
- IpParse.LoadedCovers: address tokens are resolved by a parameter.
