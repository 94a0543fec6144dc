# GObase in Dafny

GObase keeps strings, lists, sets and sorted sets in memory. Every change is written to a log, snapshots are taken from
time to time, and a restart loads the snapshot and replays the log. This project models those engines, the log, the
transactions and the recovery, and proves what holds the server together.

What the project proves, from the bottom up:

- **The sorted set.** `SkipList.dfy` is the skip list itself: heap nodes, 32 levels, spans, backward pointers, a tail
  and a level that shrinks, with any height for a new node. Insertion and deletion keep the whole invariant, and every
  walk that sums spans finds the rank it should. `SortedSet.dfy` puts the map beside it, and all rank and range queries
  equal one-line definitions on one strictly sorted sequence.
- **The engines.** `ZSetStorage.dfy`, `ListStorage.dfy`, `SetStorage.dfy` and `KvStorage.dfy` each define what a command
  means (`Exec`: new state, log records, reply) and what replaying a record means (`Apply`). The engine's class is proved
  to do exactly that, and the two are proved to match. `Answers.dfy` says what each command does and answers in terms of
  keys, elements, members and scores alone. `ExpirationHeap.dfy` is the binary heap of deadlines whose
  entries cache their slots, with the library's `up` and `down` as Go publishes them.
- **Transactions.** `Undo.dfy` says which undo takes back which operation, both ways; `Transaction.dfy` has the
  transaction, the builder and the logger that buffers records, and proves when a transaction fails and that a failed one
  leaves neither a changed state nor a line in the log.
- **Recovery.** `Recovery.dfy` proves crash atomicity of the two passes on the lines of the log, `BufferedWal.dfy` that
  no line is lost between memory and file, `Persistence.dfy` that over every run recovery equals the live state and that
  a crash brings back the state that goes with the lines that survived it. `Database.dfy` ties the objects to that step
  system. Two files say what recovery comes to where the code gives less: `FirstPass.dfy` when the first pass reads only
  part of the log, `Overlap.dfy` when the log still holds what the snapshot does. `Deadlines.dfy` says what a restart
  shows of keys with deadlines.
- **Text and bytes.** `Text.dfy` and `LogCodec.dfy` prove that the log's text reads back, `Snapshot.dfy` and
  `SnapshotState.dfy` that the snapshot file does, and that no strict prefix of it loads.

Where the code does less than one would expect, a theorem says exactly when it does it, and a lemma gives an example
that it does not:

- LSET logs the index it was given, which replay does not resolve (`LSetReplayExactly`).
- INCRBY, DECRBY, MSET and moves between two keys are not undone (`UndoExactly`; `IncrByIsNotRolledBack`,
  `MsetIsNotRolledBack`, `MoveIsNotRolledBack`, `SMoveIsNotRolledBack`).
- The STORE forms delete the destination before they read the sources (`StoredIsQueried`).
- A transaction that a crash cut short swallows the plain records that come after the restart (`LaterLogIsRecovered`,
  `RequestBehindDangling`).
- Replay skips a SET whose deadline has passed and so shows again what it had replaced (`SetReplayExactly`,
  `RestartShows`).
- A read error in the first recovery pass is ignored. If that pass ends inside a committed transaction with records, they
  are lost; if before an unfinished one with records, they are applied; otherwise recovery is right
  (`FirstPassExactly`; `FirstPassCutShort`, `UnfinishedIsApplied`).
- A snapshot saved without the log being truncated, by a crash or a failing truncation, has the log replayed onto it. For
  kv SET and DELETE, for the set records but the STORE forms, for the sorted-set records but ZINCRBY, and for creations,
  deletions and DELETE of a list, `UntruncatedExactly` says when that does no harm: with the whole log left, just when each
  deletion of an instance finds it. For every other kind of record a lemma says when it is harmless in a log of its own
  (`PushAgain`, `PopAgain`, `MoveAgain`, `InsertAgain`, `RemoveAgain`, `IncrementAgain`, and `ReplaceAgain` and
  `StoreAgain`, which need a second record to do harm).
- A failed truncation loses what was buffered (`TruncateWal`, `FailedSaveExactly`).
- LREM with the most negative count removes nothing (`MostNegativeCountRemovesNothing`).
- The line scanner takes off a carriage return at the end of a line, where an instance's id can stand (`ScannedFile`).

How things are represented: keys and values are sequences of bytes, scores are real numbers, times are integers of
nanoseconds. A sorted set is an object with its skip list; the four engines, the heap, the two logs, the transaction and
the server are classes whose fields change as the source's do. The multiplexer holds the states of its engines as
values, and each engine's class is proved to compute those values (`Did`). The order in which Go walks a map, the height
of a node, the failing of a write and what a crash leaves of the file are left open: the theorems hold for all of them.
`Exec` at time `now` and `Apply` at a later time stand for the clock.

## Model

| member | source | states |
|---|---|---|
| Ordering.Trichotomy | pkg/zset_storage/skiplist.go:66-74 | The order by score and then by member is a strict total order. |
| Ordering.InsertedSorted | pkg/zset_storage/skiplist.go:57-114 | Insertion at the place the order gives keeps the sequence strictly sorted and adds exactly the pair. |
| Ordering.RemovedSorted | pkg/zset_storage/skiplist.go:136-153 | Removal keeps the order and takes out exactly the pair, or nothing when it is absent. |
| Ordering.RemoveUndoesInsert | pkg/zset_storage/skiplist.go:57-153 | `delete` of what was just inserted gives the old sequence back. |
| Ordering.SortedUnique | pkg/zset_storage/skiplist.go:57-114 | A strictly sorted sequence is determined by its elements. |
| SkipLists.BottomLink | pkg/zset_storage/skiplist.go:20-30 | Level 0 visits every position, with span 1. |
| SkipLists.InsertLinks | pkg/zset_storage/skiplist.go:87-98 | Linking a node of any height behind the path, and lengthening the spans that pass over it, keeps every link and span of every level right. |
| SkipLists.DeleteLinks | pkg/zset_storage/skiplist.go:116-124 | Unlinking a node, with each span taking over what the node led to or shrinking by one, keeps every link and span right. |
| SkipLists.RaiseLinks | pkg/zset_storage/skiplist.go:77-85 | Taking new levels into use from the header, spanning the whole list, keeps every link right. |
| SkipLists.LowerLevel | pkg/zset_storage/skiplist.go:130-132 | Giving up an empty top level keeps every link right. |
| SkipLists.SkipList.constructor | pkg/zset_storage/skiplist.go:40-47 | A new list is valid and empty. |
| SkipLists.SkipList.RandomLevel | pkg/zset_storage/skiplist.go:49-55 | Whatever the coin tosses, a height between 1 and 32. |
| SkipLists.SkipList.WalkLevel | pkg/zset_storage/skiplist.go:68-73 | The walk along one level stops at the last node of that level before the bound, its rank summed from the spans. |
| SkipLists.SkipList.Descend | pkg/zset_storage/skiplist.go:61-75 | `update` and `rank` hold the last node before the bound on every level and its position; at level 0 the number of pairs before the bound. |
| SkipLists.SkipList.RaiseIfTaller | pkg/zset_storage/skiplist.go:78-85 | A height above the current level brings the levels between into use. |
| SkipLists.SkipList.LinkLevels | pkg/zset_storage/skiplist.go:88-98 | The two insertion loops leave all levels linked with the node at the next position. |
| SkipLists.SkipList.ChainIn | pkg/zset_storage/skiplist.go:100-112 | Backward pointers, tail and length mirror level 0 again. |
| SkipLists.SkipList.Insert | pkg/zset_storage/skiplist.go:57-114 | Any absent pair, any height: the whole invariant is kept and the pair is at its sorted position, everything else as before. |
| SkipLists.SkipList.Unlink | pkg/zset_storage/skiplist.go:117-124 | The loop of `deleteNode` over the levels leaves all of them linked without the node. |
| SkipLists.SkipList.ChainOut | pkg/zset_storage/skiplist.go:125-133 | Backward pointers and tail mirror level 0 without the node. |
| SkipLists.SkipList.LowerLevels | pkg/zset_storage/skiplist.go:130-132 | The level shrinks until its top is used. |
| SkipLists.SkipList.DeleteNode | pkg/zset_storage/skiplist.go:116-134 | The whole invariant is kept and exactly the node's pair is gone. |
| SkipLists.SkipList.Delete | pkg/zset_storage/skiplist.go:136-153 | True just when the pair was there; exactly it is gone. |
| SkipLists.SkipList.GetRank | pkg/zset_storage/skiplist.go:155-170 | 0, or the rank of a pair of the same member not behind the given one; never 0 for a pair that is there. |
| SkipLists.SkipList.GetElementByRank | pkg/zset_storage/skiplist.go:172-188 | The node at a 1-based rank, nil outside 1..length. |
| SkipLists.RankOfElement | pkg/zset_storage/skiplist.go:155-188 | Where no member is listed twice, `getRank` undoes `getElementByRank`: the pair at a rank has that rank, and a member that is not there has none. |
| SkipLists.SkipList.Walk | pkg/zset_storage/zset_storage.go:846-853 | The rank reached by summing spans counts the pairs before the bound. |
| SkipLists.SkipList.FirstInRangeRank | pkg/zset_storage/zset_storage.go:845-859 | The rank of the first pair with score at least `min`; 0 when there is none. |
| SkipLists.SkipList.LastInRangeRank | pkg/zset_storage/zset_storage.go:861-874 | The rank of the last pair with score at most `max`; 0 when there is none. |
| Ordering.LexLessMeans | pkg/zset_storage/skiplist.go:69-70 | A member is below another just when it is a proper prefix of it, or has the smaller byte where the two first differ. |
| Ordering.LessMeans | pkg/zset_storage/skiplist.go:69-70 | Lower scores come first, equal ones in the order of their members. |
| SkipLists.Node.constructor | pkg/zset_storage/skiplist.go:32-38 | A new node carries its pair, as many levels as it is tall, and no links. |
| SkipLists.SkipList.SpanHeader | pkg/zset_storage/skiplist.go:79-83 | On each new level the path is the header, which spans the whole list. |
| SkipLists.SkipList.Raise | pkg/zset_storage/skiplist.go:78-85 | With the new levels in use the list is still linked and the path still leads to the same place. |
| SkipLists.SkipList.LinkIn | pkg/zset_storage/skiplist.go:88-94 | On each level of the new node, the path's node leads to it and it leads on, the span divided between them. |
| SkipLists.SkipList.LinkOver | pkg/zset_storage/skiplist.go:96-98 | On each level above the new node, the path's span grows by one. |
| SkipLists.SkipList.Attach | pkg/zset_storage/skiplist.go:87-113 | A new node behind the path completes the insertion. |
| SkipLists.SkipList.UnlinkLevels | pkg/zset_storage/skiplist.go:117-124 | On each level, a link to the node is passed on and any other span of the path shrinks by one. |
| SkipLists.SkipList.Detach | pkg/zset_storage/skiplist.go:116-129 | Everything `deleteNode` does before it lowers the level. |
| SortedSets.AgreeSize | pkg/zset_storage/zset_storage.go:438-486 | A map and a sorted sequence of the same pairs have the same size. |
| SortedSets.AgreeDetermines | pkg/zset_storage/zset_storage.go:438-486 | The map determines the sorted sequence. |
| SortedSets.AddedPairs | pkg/multiplexer/tx_builder.go:183-190 | Adding the pairs of a map, in any order, to an empty one gives the map back. |
| SortedSets.SortedSet.Set | pkg/zset_storage/zset_storage.go:455-471 | A member's new score replaces the old pair in the skip list; an equal score changes nothing; dict and list agree. |
| SortedSets.SortedSet.Add | pkg/zset_storage/zset_storage.go:438-486 | ZADD: the members set in order; the count of new ones. |
| SortedSets.SortedSet.Remove | pkg/zset_storage/zset_storage.go:519-539 | ZREM: exactly the named members are gone; the count of those that were there. |
| SortedSets.SortedSet.IncrBy | pkg/zset_storage/zset_storage.go:561-583 | The member's score plus the increment, or the increment alone for a new member. |
| SortedSets.SortedSet.PopMax | pkg/zset_storage/zset_storage.go:606-627 | The last pairs of the order from the tail backwards, and exactly they are gone. |
| SortedSets.SortedSet.PopMin | pkg/zset_storage/zset_storage.go:663-684 | The first pairs of the order, and exactly they are gone. |
| SortedSets.SortedSet.Rank | pkg/zset_storage/zset_storage.go:764-776 | The 0-based position of the member; none just when it is absent. |
| SortedSets.SortedSet.RevRank | pkg/zset_storage/zset_storage.go:797-810 | The 0-based position in the reversed order; none just when it is absent. |
| SortedSets.SortedSet.Count | pkg/zset_storage/zset_storage.go:831-842 | The number of pairs with min <= score <= max, for all min and max. |
| SortedSets.SortedSet.Range | pkg/zset_storage/zset_storage.go:896-926 | The clamped slice, negative indices counted from the end. |
| SortedSets.SortedSet.RevRange | pkg/zset_storage/zset_storage.go:948-979 | The same slice of the reversed order, found by walking backwards. |
| SortedSets.InRangeIsSlice | pkg/zset_storage/zset_storage.go:831-842 | The pairs in a score range are the run between two span counts. |
| SortedSets.ScoreRangeIsRun | pkg/zset_storage/zset_storage.go:999-1030 | Filter by score, drop the offset, take the count: a run of the sequence. |
| SortedSets.ScoreRangeReversed | pkg/zset_storage/zset_storage.go:1050-1080 | The same for the reversed order. |
| SortedSets.SortedSet.RangeByScore | pkg/zset_storage/zset_storage.go:999-1030 | Filter by score, drop offset, take count, a count <= 0 being no limit. |
| SortedSets.SortedSet.RevRangeByScore | pkg/zset_storage/zset_storage.go:1050-1080 | The same on the reversed order. |
| SortedSets.DifferentMembers | pkg/zset_storage/zset_storage.go:440-470 | A member has one pair in the skip list. |
| SortedSets.SortedSet.Saved | pkg/zset_storage/zset_storage.go:260-271 | The walk that writes a sorted set gives all its pairs in order. |
| SortedSets.Rebuilt | pkg/zset_storage/zset_storage.go:320-338 | The loop that reads one back builds map and skip list in agreement. |
| Collections.SliceMeans | pkg/zset_storage/zset_storage.go:896-925 | A range has just the positions from one end to the other, negative indices counted from the end. |
| SortedSets.LimitMeans | pkg/zset_storage/zset_storage.go:981-1030 | A limited range has just the positions from the offset on, `count` of them unless the count is not positive. |
| SortedSets.SortedSet.constructor | pkg/zset_storage/zset_storage.go:440-446 | A new sorted set is empty, dict and list agreeing. |
| SortedSets.SortedSet.Put | pkg/zset_storage/zset_storage.go:464-467 | An absent member enters both structures. |
| SortedSets.SortedSet.Drop | pkg/zset_storage/zset_storage.go:524-528 | A present member leaves both structures. |
| SortedSets.SortedSet.CollectFromTail | pkg/zset_storage/zset_storage.go:609-614 | Walking backwards from the tail collects the last pairs, last first. |
| SortedSets.SortedSet.CollectFromHead | pkg/zset_storage/zset_storage.go:666-671 | Walking forwards collects the first pairs. |
| SortedSets.SortedSet.DropAll | pkg/zset_storage/zset_storage.go:617-620 | The collected pairs leave both structures. |
| SortedSets.SortedSet.Score | pkg/zset_storage/zset_storage.go:717-720 | The member's score, if it is there. |
| SortedSets.SortedSet.Card | pkg/zset_storage/zset_storage.go:741-743 | The length of the list is the size of the map. |
| SortedSets.SortedSet.Resolve | pkg/zset_storage/zset_storage.go:896-911 | The bounds resolved and clamped; nothing to do just when the slice is empty. |
| ZSetStorage.Ranked | pkg/zset_storage/zset_storage.go:246-297 | The pairs of a map as one strictly sorted sequence. |
| ZSetStorage.ReplayMatches | pkg/zset_storage/zset_storage.go:161-243 | For every command, replaying what it logged gives the state it left. |
| ZSetStorage.NoEmptyKept | pkg/zset_storage/zset_storage.go:519-539 | Only a ZADD of no members to an absent key leaves an empty sorted set behind. |
| ZSetStorage.PopConserves | pkg/zset_storage/zset_storage.go:585-697 | ZPOPMAX and ZPOPMIN return the min(count, size) extreme pairs in order; popped and remaining make up the old contents. |
| ZSetStorage.RanksMirror | pkg/zset_storage/zset_storage.go:746-811 | ZRANK + ZREVRANK = ZCARD - 1, and ZRANK counts the pairs below the member. |
| ZSetStorage.CountIsMembers | pkg/zset_storage/zset_storage.go:813-843 | ZCOUNT is the number of members of the map whose score is in the range. |
| ZSetStorage.ZSetStorage.AddNoWal | pkg/zset_storage/zset_storage.go:438-486 | The key's map with the members added; no other key changes. |
| ZSetStorage.ZSetStorage.RemNoWal | pkg/zset_storage/zset_storage.go:519-539 | The key's map without the members, the key dropped when nothing is left. |
| ZSetStorage.ZSetStorage.IncrNoWal | pkg/zset_storage/zset_storage.go:561-583 | The key's map with the member's score increased. |
| ZSetStorage.ZSetStorage.Add | pkg/zset_storage/zset_storage.go:405-436 | State, log record and reply of ZADD. |
| ZSetStorage.ZSetStorage.Rem | pkg/zset_storage/zset_storage.go:488-517 | State, record and reply of ZREM; nothing is logged when nothing was removed. |
| ZSetStorage.ZSetStorage.IncrBy | pkg/zset_storage/zset_storage.go:541-559 | State, record and reply of ZINCRBY. |
| ZSetStorage.ZSetStorage.Pop | pkg/zset_storage/zset_storage.go:585-697 | State, record and reply of ZPOPMAX and ZPOPMIN, a missing key and a count <= 0 included; the popped pairs are logged. |
| ZSetStorage.ZSetStorage.Delete | pkg/zset_storage/zset_storage.go:1082-1100 | State and record of DEL. |
| ZSetStorage.ZSetStorage.ProcessWalEntry | pkg/zset_storage/zset_storage.go:161-243 | Replay of a record does what `Apply` says and logs nothing. |
| ZSetStorage.ZSetStorage.ZScore | pkg/zset_storage/zset_storage.go:699-721 | The member's score, none for a missing key or member. |
| ZSetStorage.ZSetStorage.ZCard | pkg/zset_storage/zset_storage.go:723-744 | The number of members. |
| ZSetStorage.ZSetStorage.ZRank | pkg/zset_storage/zset_storage.go:746-777 | ZRANK on the keyed map. |
| ZSetStorage.ZSetStorage.ZRevRank | pkg/zset_storage/zset_storage.go:779-811 | ZREVRANK on the keyed map. |
| ZSetStorage.ZSetStorage.ZCount | pkg/zset_storage/zset_storage.go:813-843 | ZCOUNT on the keyed map. |
| ZSetStorage.ZSetStorage.ZRange | pkg/zset_storage/zset_storage.go:876-926 | ZRANGE on the keyed map. |
| ZSetStorage.ZSetStorage.ZRevRange | pkg/zset_storage/zset_storage.go:928-979 | ZREVRANGE on the keyed map. |
| ZSetStorage.ZSetStorage.ZRangeByScore | pkg/zset_storage/zset_storage.go:981-1030 | ZRANGEBYSCORE on the keyed map. |
| ZSetStorage.ZSetStorage.ZRevRangeByScore | pkg/zset_storage/zset_storage.go:1032-1080 | ZREVRANGEBYSCORE on the keyed map. |
| Answers.ZAddAnswers | pkg/zset_storage/zset_storage.go:438-486 | ZADD leaves each member with the last score given for it and the others as they were, and counts the new ones. |
| Answers.ZRemAnswers | pkg/zset_storage/zset_storage.go:488-539 | ZREM takes exactly the named members and counts them; an emptied key goes, and nothing is logged when nothing was removed. |
| Answers.ZIncrByAnswers | pkg/zset_storage/zset_storage.go:541-583 | ZINCRBY stores and answers the old score plus the increment, or the increment for a new member; all else stays. |
| Answers.ZPopAnswers | pkg/zset_storage/zset_storage.go:585-697 | ZPOPMAX answers the highest pairs, highest first, ZPOPMIN the lowest, lowest first, as many as asked for and there, and exactly they go; an absent key is an error. |
| Answers.ZDeleteAnswers | pkg/zset_storage/zset_storage.go:1082-1100 | DEL takes the key. |
| ZSetStorage.ZSetStorage.constructor | pkg/zset_storage/zset_storage.go:76-83 | A new engine is empty. |
| ZSetStorage.ZSetStorage.Fetch | pkg/zset_storage/zset_storage.go:438-452 | The key's sorted set, or a new empty one, apart from all others. |
| ZSetStorage.ZSetStorage.StoreOrForget | pkg/zset_storage/zset_storage.go:532-536 | A sorted set is stored under its key, or the key dropped when it is empty. |
| ExpirationHeaps.RootIsFirst | pkg/storage/storage.go:634-643 | Slot 0 of an ordered heap expires first. |
| ExpirationHeaps.ExpirationHeap.Less | pkg/storage/heap.go:38 | Compares the deadlines of two slots. |
| ExpirationHeaps.ExpirationHeap.Swap | pkg/storage/heap.go:39-43 | Exchanges two entries, each knowing its new slot. |
| ExpirationHeaps.ExpirationHeap.Push | pkg/storage/heap.go:44-48 | Appends an entry that knows its slot. |
| ExpirationHeaps.ExpirationHeap.Pop | pkg/storage/heap.go:49-56 | Takes off the last entry. |
| ExpirationHeaps.ExpirationHeap.Up | pkg/storage/heap.go:37-56 | Moving an entry up restores the heap order and keeps the entries. |
| ExpirationHeaps.ExpirationHeap.Down | pkg/storage/heap.go:37-56 | Moving an entry down restores the heap order below it and keeps the entries. |
| ExpirationHeaps.ExpirationHeap.HeapPush | pkg/storage/storage.go:526-533 | `heap.Push`: order and slots kept, exactly the entry added. |
| ExpirationHeaps.ExpirationHeap.HeapRemove | pkg/storage/storage.go:602-608 | `heap.Remove` at a cached index: order and slots kept, exactly that entry gone. |
| Decimal.ParseOfFormat | pkg/storage/storage.go:413-426 | A 64-bit number written in decimal parses back. |
| Decimal.Wrap64 | pkg/storage/storage.go:424-425 | Sums and negations wrap around at 64 bits. |
| KvStorage.ReplayMatches | pkg/storage/storage.go:663-720 | Without deadlines, replaying what a command logged gives the state it left, whenever it is replayed. |
| KvStorage.ReplayMset | pkg/storage/storage.go:498-512 | MSET's records replay to its state, record by record. |
| KvStorage.SetReplayExactly | pkg/storage/storage.go:688-698 | With a deadline, replay of a SET is exact just when the deadline is a whole second not yet past, or the skipped record left that very payload. |
| KvStorage.SkippedSetRevivesOlderValue | pkg/storage/storage.go:694-696 | A SET whose deadline has passed is skipped in replay, and the value it had replaced comes back. |
| KvStorage.Storage.constructor | pkg/storage/storage.go:470-477 | A new engine is empty and its index valid. |
| KvStorage.Storage.SetNoLock | pkg/storage/storage.go:514-543 | The payload is set and logged; heap, map of entries and payloads with deadlines stay in bijection. |
| KvStorage.Storage.DeleteNoLock | pkg/storage/storage.go:602-608 | The key and its heap entry are gone, the bijection kept. |
| KvStorage.Storage.CleanupExpired | pkg/storage/storage.go:627-643 | Terminates and removes exactly the keys whose deadline is at most now, all other payloads staying; no heap entry left is due. |
| KvStorage.Storage.Set | pkg/storage/storage.go:491-496 | State and record of SET. |
| KvStorage.Storage.MSet | pkg/storage/storage.go:498-512 | State and records of MSET, one per pair. |
| KvStorage.Storage.Delete | pkg/storage/storage.go:590-600 | State and record of DEL. |
| KvStorage.Storage.IncrementByNoLock | pkg/storage/storage.go:395-438 | State, record and reply, for a missing key, an expired one, a value that is no number, and 64-bit wrap-around; the deadline is kept. |
| KvStorage.Storage.IncrementOne | pkg/storage/storage.go:389-393 | INCR. |
| KvStorage.Storage.DecrementOne | pkg/storage/storage.go:377-381 | DECR. |
| KvStorage.Storage.IncrementBy | pkg/storage/storage.go:383-387 | INCRBY. |
| KvStorage.Storage.DecrementBy | pkg/storage/storage.go:371-375 | DECRBY, the amount negated with wrap-around. |
| KvStorage.Storage.Get | pkg/storage/storage.go:573-588 | GET; an expired key is deleted and the deletion logged. |
| KvStorage.Storage.ProcessWalEntry | pkg/storage/storage.go:663-720 | Replay of a record does what `Apply` says, keeps the bijection and logs nothing. |
| Deadlines.ReplayShows | pkg/storage/storage.go:663-721 | Replay shows of a key what its last record that is not skipped says, or else the snapshot. |
| Deadlines.RunFollows | pkg/storage/storage.go:395-643 | Over every run of commands and cleanups, what is live under a key is what its last record says, unless its deadline has passed and a cleanup has removed it. |
| Deadlines.RestartShows | pkg/storage/storage.go:514-721 | Over every run of commands and cleanups with any deadlines: a restart shows of a key what the live engine shows just when its last record is not skipped, or what the records before it show happens to be the same. |
| Deadlines.RestartRevives | pkg/storage/storage.go:514-721 | With deadlines a second or more away from the restart: just when its last record is not skipped or nothing older is shown. |
| Decimal.DigitAt | pkg/storage/storage.go:419 | The decimal digits of a number, most significant first and without leading zeros. |
| Decimal.ValueMeans | pkg/storage/storage.go:413 | The number a run of digits stands for, and that only digits stand for one. |
| Decimal.ParseMeans | pkg/storage/storage.go:413-416 | Which values are read as a number, and as which. |
| Answers.GetAnswers | pkg/storage/storage.go:573-588 | GET answers the value, not found just when the key is absent, and expired just when its deadline has passed, which also deletes it. |
| Answers.SetAnswers | pkg/storage/storage.go:514-544 | SET leaves value and deadline, and logs the deadline down to the second. |
| Answers.MsetAnswers | pkg/storage/storage.go:505-512 | MSET leaves under each key the last value given for it, without a deadline. |
| Answers.DeleteAnswers | pkg/storage/storage.go:590-608 | DEL takes the key. |
| Answers.IncrAnswers | pkg/storage/storage.go:371-438 | INCR, DECR, INCRBY and DECRBY add plus one, minus one, the amount and its negation, modulo 2^64, keep the deadline, and fail for an absent key, an expired one and a value that is no number. |
| Answers.KvReplayAnswers | pkg/storage/storage.go:663-721 | Replay of a record writes or takes its key; a SET whose logged deadline has passed is skipped. |
| Deadlines.VisibleIsAnswered | pkg/storage/storage.go:573-588 | What is visible of a key is what GET answers. |
| ExpirationHeaps.ExpirationHeap.EarlierChild | pkg/storage/heap.go:37-38 | Of the children of a slot the one that expires first. |
| ExpirationHeaps.ExpirationHeap.MoveToEnd | pkg/storage/heap.go:37-56 | The entry of a slot goes to the end and the rest is in order again. |
| KvStorage.Storage.DropDeadline | pkg/storage/storage.go:520-524 | The key's entry leaves the heap and the map of entries. |
| KvStorage.Storage.AddDeadline | pkg/storage/storage.go:526-534 | The key gets the entry its payload calls for. |
| ListStorage.RemoveFirstIsExact | pkg/list_storage/list_storage.go:869-916 | LREM takes exactly min(count, occurrences) elements and keeps the order of the others. |
| ListStorage.RemoveFirstIsFirst | pkg/list_storage/list_storage.go:873-883 | They are the first ones: all up to some point and none behind it. |
| ListStorage.RemoveLastMirrors | pkg/list_storage/list_storage.go:884-895 | A negative count is the same on the reversed list. |
| ListStorage.MoveConserves | pkg/list_storage/list_storage.go:592-615 | A move between two lists keeps every element and every other list. |
| ListStorage.MoveRotates | pkg/list_storage/list_storage.go:592-615 | A move within one list rotates it when it goes from one end to the other, and changes nothing otherwise. |
| ListStorage.ReplayMatches | pkg/list_storage/list_storage.go:174-266 | Replay gives the state the command left and meets no nil pointer, for LSET indices counted from the left. |
| ListStorage.LSetReplayExactly | pkg/list_storage/list_storage.go:742-784 | When the replay of an LSET is exact, whatever its index. |
| ListStorage.LSetReplayLosesNegativeIndex | pkg/list_storage/list_storage.go:770-784 | An LSET with a negative index is lost in replay. |
| ListStorage.NoEmptyKept | pkg/list_storage/list_storage.go:533-551 | Only a push of no values to an absent key leaves an empty list behind. |
| ListStorage.ListStorage.PushNoWal | pkg/list_storage/list_storage.go:447-492 | LPUSH puts each value before the one pushed last, RPUSH behind it. |
| ListStorage.ListStorage.PopNoWal | pkg/list_storage/list_storage.go:533-551 | The end element, and the list without it, dropped when empty. |
| ListStorage.ListStorage.MoveNoWal | pkg/list_storage/list_storage.go:592-615 | The element leaves its list before it enters the other, which may be the same. |
| ListStorage.ListStorage.ReplaceNoWal | pkg/list_storage/list_storage.go:773-784 | The element at the index, if the walk reaches it. |
| ListStorage.ListStorage.InsertNoWal | pkg/list_storage/list_storage.go:820-842 | Before or behind the first pivot; -1 when there is none. |
| ListStorage.ListStorage.RemoveNoWal | pkg/list_storage/list_storage.go:869-916 | The three walks of LREM. |
| ListStorage.ListStorage.RemoveFromLeft | pkg/list_storage/list_storage.go:873-883 | The walk from the left removes the first occurrences. |
| ListStorage.ListStorage.RemoveFromRight | pkg/list_storage/list_storage.go:884-895 | The walk from the right removes the last ones. |
| ListStorage.ListStorage.Push | pkg/list_storage/list_storage.go:424-445 | State and record of LPUSH and RPUSH. |
| ListStorage.ListStorage.Pop | pkg/list_storage/list_storage.go:508-531 | State, record and reply of LPOP and RPOP. |
| ListStorage.ListStorage.Move | pkg/list_storage/list_storage.go:553-590 | State, record and reply of RPOPLPUSH and its like. |
| ListStorage.ListStorage.ReplaceAtIndex | pkg/list_storage/list_storage.go:742-771 | State, record and reply of LSET; the index is logged as it was given. |
| ListStorage.ListStorage.Insert | pkg/list_storage/list_storage.go:786-818 | State, record and reply of LINSERT. |
| ListStorage.ListStorage.Remove | pkg/list_storage/list_storage.go:844-867 | State, record and reply of LREM; nothing is logged when nothing was removed. |
| ListStorage.ListStorage.Delete | pkg/list_storage/list_storage.go:948-966 | State and record of DEL. |
| ListStorage.ListStorage.Range | pkg/list_storage/list_storage.go:659-697 | LRANGE: the clamped slice. |
| ListStorage.ListStorage.ProcessWalEntry | pkg/list_storage/list_storage.go:174-266 | Replay of a record does what `Apply` says, where that follows no nil pointer. |
| ListStorage.OthersMean | pkg/list_storage/list_storage.go:869-916 | What is left without an element keeps its order. |
| ListStorage.OccurrencesMean | pkg/list_storage/list_storage.go:869-916 | How often an element occurs. |
| ListStorage.RemainingSplits | pkg/list_storage/list_storage.go:869-916 | LREM divides the list at a point: with a positive count the first occurrences go, all before it, with a negative one the last, all behind it, with 0 all. |
| Answers.PushAnswers | pkg/list_storage/list_storage.go:424-492 | LPUSH puts each value in front of the one before it, RPUSH behind it. |
| Answers.ListPopAnswers | pkg/list_storage/list_storage.go:508-551 | LPOP answers and takes the first element, RPOP the last; an absent key is an error and an emptied one goes. |
| Answers.ListMoveAnswers | pkg/list_storage/list_storage.go:553-615 | A move takes from the named end of one list and adds at the named end of another, or of the same. |
| Answers.LSetAnswers | pkg/list_storage/list_storage.go:742-784 | LSET writes at an index counted from either end, fails outside the list, and logs the index as given. |
| Answers.LInsertAnswers | pkg/list_storage/list_storage.go:786-842 | LINSERT puts the value right before, or right behind, the first pivot, and answers the new length, 0 or -1. |
| Answers.LRemAnswers | pkg/list_storage/list_storage.go:844-916 | What LREM leaves and answers for every count but the most negative. |
| Answers.ListDeleteAnswers | pkg/list_storage/list_storage.go:948-966 | DEL takes the key. |
| ListStorage.MostNegativeCountRemovesNothing | pkg/list_storage/list_storage.go:884-888 | LREM with the most negative count, which 64 bits cannot negate, removes nothing; any other negative count asks for its absolute value. |
| ListStorage.ListStorage.Find | pkg/list_storage/list_storage.go:820-828 | The first element equal to the pivot, if there is one. |
| SetStorage.ReplayMatches | pkg/set_storage/set_storage.go:139-230 | For every command, replaying what it logged gives the state it left; a pop is logged with what it took. |
| SetStorage.NoEmptyKept | pkg/set_storage/set_storage.go:480-498 | Only an SADD of no members to an absent key leaves an empty set behind. |
| SetStorage.PopConserves | pkg/set_storage/set_storage.go:500-548 | A pop returns as many distinct members as asked for and there, and leaves exactly the others. |
| SetStorage.MoveMeans | pkg/set_storage/set_storage.go:550-588 | SMOVE takes the member from one set to the other and changes nothing within one. |
| SetStorage.StoredIsQueried | pkg/set_storage/set_storage.go:840-890 | A STORE form stores what its query form gives just when the destination is no source, or no old member of it matters. |
| SetStorage.StoreIntoSourceLosesIt | pkg/set_storage/set_storage.go:816-841 | SINTERSTORE of a set into itself empties it and still replies with its size. |
| SetStorage.Smallest | pkg/set_storage/set_storage.go:776-782 | The index of a smallest set. |
| SetStorage.Intersection | pkg/set_storage/set_storage.go:776-801 | Trying the smallest set's members against the others gives the true intersection. |
| SetStorage.Joined | pkg/set_storage/set_storage.go:405-437 | Adds the members not yet there and counts them. |
| SetStorage.Parted | pkg/set_storage/set_storage.go:480-490 | Deletes the members that are there and counts them. |
| SetStorage.SetStorage.AddNoWal | pkg/set_storage/set_storage.go:405-447 | The key's set with the members; the count of new ones. |
| SetStorage.SetStorage.RemNoWal | pkg/set_storage/set_storage.go:480-498 | The key's set without the members, the key dropped when nothing is left. |
| SetStorage.SetStorage.Add | pkg/set_storage/set_storage.go:373-403 | State, record and reply of SADD. |
| SetStorage.SetStorage.Rem | pkg/set_storage/set_storage.go:449-478 | State, record and reply of SREM; nothing is logged when nothing was removed. |
| SetStorage.SetStorage.Pop | pkg/set_storage/set_storage.go:500-548 | State, record and reply of SPOP, for any order the map is walked in. |
| SetStorage.SetStorage.Move | pkg/set_storage/set_storage.go:550-588 | State, record and reply of SMOVE. |
| SetStorage.SetStorage.SInter | pkg/set_storage/set_storage.go:747-802 | Each member of the intersection once; a missing key makes it empty. |
| SetStorage.SetStorage.SUnion | pkg/set_storage/set_storage.go:892-923 | Each member of the union once. |
| SetStorage.SetStorage.SDiff | pkg/set_storage/set_storage.go:974-1034 | Each member of the first set that no later one has, once. |
| SetStorage.SetStorage.StoreNoWal | pkg/set_storage/set_storage.go:840-890 | The destination is deleted, then the value of what is left is stored, if it has members. |
| SetStorage.SetStorage.Store | pkg/set_storage/set_storage.go:816-838 | State, record and reply of the STORE forms; the reply is the size before the destination was deleted. |
| SetStorage.SetStorage.Delete | pkg/set_storage/set_storage.go:1104-1122 | State and record of DEL. |
| SetStorage.SetStorage.ProcessWalEntry | pkg/set_storage/set_storage.go:139-230 | Replay of a record does what `Apply` says and logs nothing. |
| SetStorage.EnumeratesMeans | pkg/set_storage/set_storage.go:1151-1157 | An answer lists each member once and nothing else. |
| SetStorage.MayPopMeans | pkg/set_storage/set_storage.go:500-548 | What SPOP may take: members, none twice, as many as asked for and there. |
| Answers.SAddAnswers | pkg/set_storage/set_storage.go:373-447 | SADD adds the members and counts the new ones. |
| Answers.SRemAnswers | pkg/set_storage/set_storage.go:449-498 | SREM takes exactly the named members and counts them; an emptied key goes, and nothing is logged when nothing was removed. |
| Answers.SetPopAnswers | pkg/set_storage/set_storage.go:500-548 | SPOP answers what it takes; an absent key is an error. |
| Answers.SMoveAnswers | pkg/set_storage/set_storage.go:550-588 | SMOVE takes the member from one set and adds it to the other, or answers that it was not there. |
| Answers.QueryAnswers | pkg/set_storage/set_storage.go:747-1034 | Which members SINTER, SUNION and SDIFF answer. |
| Answers.StoreAnswers | pkg/set_storage/set_storage.go:816-1102 | A STORE form stores what its query form gives without the destination and answers the size of what it gives with it. |
| Answers.SetDeleteAnswers | pkg/set_storage/set_storage.go:1104-1122 | DEL takes the key. |
| SetStorage.Listed | pkg/set_storage/set_storage.go:918-922 | Each member of the set once, in some order. |
| SetStorage.Poured | pkg/set_storage/set_storage.go:907-909 | Every item is added. |
| SetStorage.Struck | pkg/set_storage/set_storage.go:1024-1026 | Every item is deleted. |
| SetStorage.InOthers | pkg/set_storage/set_storage.go:786-795 | Whether every other set has the item. |
| SetStorage.SetStorage.Take | pkg/set_storage/set_storage.go:524-531 | As many distinct members as asked for are taken off, and the rest is left. |
| SetStorage.SetStorage.Gather | pkg/set_storage/set_storage.go:896-910 | The union, filled key by key. |
| SetStorage.SetStorage.Prune | pkg/set_storage/set_storage.go:1007-1027 | The difference, pruned key by key. |
| SetStorage.SetStorage.MoveNoWal | pkg/set_storage/set_storage.go:585-588 | A removal and then an addition. |
| Multiplexers.ReplayMatches | pkg/multiplexer/multiplexer.go:298-362 | For every request to an instance, replaying its records into the multiplexer gives the instances it left. |
| Multiplexers.PrefixReplays | pkg/persistence/persistence.go:116-151 | A request cut off between its records has left the state of a shorter one: only MSET logs more than one. |
| Multiplexers.CreateReplays | pkg/multiplexer/multiplexer.go:141-175 | CREATE logs what replays to the same instances, or fails at the limit and changes nothing. |
| Multiplexers.DeleteReplays | pkg/multiplexer/multiplexer.go:177-216 | DELETE_INSTANCE logs what replays to the same instances, or fails for a missing one. |
| Multiplexers.ReplayAppend | pkg/persistence/persistence.go:116-151 | Replaying two logs one after the other is replaying the second from where the first ended, errors included. |
| Multiplexers.FailsExactly | pkg/multiplexer/router.go:80-103 | When a request fails: the instance is missing, a pop or a list move finds no element, LSET no such index, GET no live key, INCR and its like no live number, or a read does not answer. |
| Multiplexers.ExecWithin | pkg/multiplexer/router.go:80-103 | A request changes its own instance only, as its engine's command says, and its records carry the instance's id. |
| Multiplexers.CreateAnswers | pkg/multiplexer/multiplexer.go:141-158 | CREATE makes an empty instance just when there are fewer than allowed, and nothing else changes. |
| Multiplexers.DeleteAnswers | pkg/multiplexer/multiplexer.go:177-214 | DELETE_INSTANCE drops the instance just when it is there, and nothing else changes. |
| Undos.FailureChangesNothing | pkg/transaction/transaction.go:60-71 | An operation that fails has changed and logged nothing, so it needs no undo of its own. |
| Undos.UndoExactly | pkg/multiplexer/tx_builder.go:57-202 | Once an operation has succeeded, its undo restores the state just when: not INCRBY or DECRBY that changed the number, not an MSET that changed a value, not a move to another list, not an SMOVE of a member new to the other set. |
| Undos.MsetAt | pkg/multiplexer/tx_builder.go:88-90 | What MSET writes, and when it changes nothing. |
| Undos.IncrementAt | pkg/multiplexer/tx_builder.go:73-90 | When INCRBY and DECRBY change nothing. |
| Undos.ListChanges | pkg/multiplexer/tx_builder.go:116-124 | A list request changes no key but its first, except a move between lists, which always does. |
| Undos.SetChanges | pkg/multiplexer/tx_builder.go:149-158 | A set request changes no key but its first, except an SMOVE of a member new to the other set. |
| Undos.ZSetChanges | pkg/multiplexer/tx_builder.go:183-192 | A sorted-set request changes no key but its first. |
| Transactions.RollbackRestores | pkg/transaction/transaction.go:60-69 | The undos in reverse restore every instance, when each operation is one that its undo takes back where it ran. |
| Transactions.FailedTransactionRestores | pkg/transaction/transaction.go:60-71 | So does the rollback of any transaction of SET, DEL, INCR, DECR, GET, single-key list, set and sorted-set requests, STORE forms and reads. |
| Transactions.IncrByIsNotRolledBack | pkg/multiplexer/tx_builder.go:73-90 | A failed transaction with an INCRBY leaves the counter moved and nothing logged. |
| Transactions.MoveIsNotRolledBack | pkg/multiplexer/tx_builder.go:116-124 | No undo of RPOPLPUSH between two lists restores them. |
| Transactions.SMoveIsNotRolledBack | pkg/multiplexer/tx_builder.go:148-157 | No undo of SMOVE takes the member back from the second set. |
| Transactions.MsetIsNotRolledBack | pkg/multiplexer/tx_builder.go:73-90 | MSET has no undo. |
| Transactions.TxWalLogger.Log | pkg/multiplexer/tx_wal_logger.go:30-44 | To the buffer during a transaction, to the log otherwise. |
| Transactions.TxWalLogger.CommitTx | pkg/multiplexer/tx_wal_logger.go:53-71 | Exactly one block of lines: begin, the buffered records in order, commit. |
| Transactions.TxWalLogger.BeginTx | pkg/multiplexer/tx_wal_logger.go:46-51 | Starts with an empty buffer. |
| Transactions.TxWalLogger.RollbackTx | pkg/multiplexer/tx_wal_logger.go:73-78 | Drops the buffer. |
| Transactions.Multiplexer.Execute | pkg/multiplexer/router.go:94-103 | A request's effect, its records to the logger, and success just when nothing makes it fail. |
| Transactions.Multiplexer.Capture | pkg/multiplexer/tx_builder.go:60-90 | Finds the instance and captures what is under the first key. |
| Transactions.Multiplexer.PrepareAndDo | pkg/multiplexer/tx_builder.go:59-99 | Captures, then runs. |
| Transactions.Multiplexer.Revert | pkg/multiplexer/tx_builder.go:75-87 | An undo goes through the engine's own commands and logs their records. |
| Transactions.Transaction.Add | pkg/transaction/transaction.go:38-48 | Only while the transaction is pending. |
| Transactions.Transaction.Rollback | pkg/transaction/transaction.go:64-66 | The undos run last first. |
| Transactions.Transaction.Exec | pkg/transaction/transaction.go:50-75 | All operations ran, or one failed and exactly the undos of those before it were run in reverse; the state is terminal. |
| Transactions.Transaction.Discard | pkg/transaction/transaction.go:77-85 | A pending transaction becomes rolled back, a finished one stays. |
| Transactions.TxBuilder.Exec | pkg/multiplexer/tx_builder.go:205-233 | A commit leaves the new state and one block in the log, a failure nothing in the log and the old state for covered requests; it commits just when no request fails where it runs. |
| Transactions.AfterExactly | pkg/transaction/transaction.go:50-75 | A transaction succeeds just when none of its operations fails where it runs; each runs in the state the one before has left, their records in a row. |
| Undos.MoveHalfUndone | pkg/multiplexer/tx_builder.go:116-157 | The undo of a move puts back the key it took from and leaves the other with the element. |
| Transactions.TxWalLogger.constructor | pkg/multiplexer/tx_wal_logger.go:22-28 | A new logger is not active and holds nothing. |
| Transactions.Multiplexer.constructor | pkg/multiplexer/multiplexer.go:38-49 | A new multiplexer has no instances. |
| Transactions.Multiplexer.Create | pkg/multiplexer/multiplexer.go:141-158 | CREATE's effect, and its record to the logger. |
| Transactions.Multiplexer.Delete | pkg/multiplexer/multiplexer.go:177-188 | DELETE_INSTANCE's effect, and its record to the logger. |
| Transactions.Multiplexer.CaptureKey | pkg/multiplexer/tx_builder.go:111-123 | What is under a key, or that there is nothing. |
| Transactions.TxBuilder.Queue | pkg/multiplexer/tx_builder.go:25-27 | The request joins those queued. |
| BufferedWals.PhysicalWal.WriteRaw | pkg/wal/wal.go:53-61 | Appends the line, or fails and closes the file; a closed file takes no line. |
| BufferedWals.BufferedWal.constructor | pkg/wal/buffered_wal.go:62-67 | The log of an earlier run is the history so far. |
| BufferedWals.BufferedWal.WriteToWal | pkg/wal/buffered_wal.go:69-81 | The line joins the buffer and the history. |
| BufferedWals.BufferedWal.ExportToWal | pkg/wal/buffered_wal.go:25-41 | The lines written are a prefix of the buffer, in order, wherever a write fails. |
| BufferedWals.BufferedWal.SyncWal | pkg/wal/buffered_wal.go:115-124 | Physical lines followed by buffered ones stay the history; a success makes it durable. |
| BufferedWals.BufferedWal.RecoverFromWal | pkg/wal/buffered_wal.go:83-97 | Reads the whole history, the buffer flushed first. |
| BufferedWals.BufferedWal.CloseWal | pkg/wal/buffered_wal.go:99-113 | Conserves the history and closes the file even when the flush fails. |
| BufferedWals.BufferedWal.TruncateWal | pkg/wal/buffered_wal.go:126-132 | A failed truncation conserves the history just when nothing was buffered. |
| BufferedWals.BufferedWal.Crash | pkg/wal/buffered_wal.go:56-60 | A crash leaves a prefix of the history, with at least what the last successful flush made durable. |
| BufferedWals.PhysicalWal.SyncWal | pkg/wal/wal.go:96-101 | All lines are on stable storage, or nothing changes. |
| BufferedWals.PhysicalWal.RecoverFromWal | pkg/wal/wal.go:63-87 | All lines in order, or an error after a prefix of them. |
| BufferedWals.PhysicalWal.CloseWal | pkg/wal/wal.go:89-94 | Closes the file once. |
| BufferedWals.PhysicalWal.TruncateWal | pkg/wal/wal.go:103-108 | All lines are gone, or none. |
| BufferedWals.BufferedWal.Flush | pkg/wal/buffered_wal.go:115-124 | Lines leave the buffer only as they reach the physical log. |
| Recovery.CrashAtomic | pkg/persistence/persistence.go:91-151 | Of any line-prefix of what was logged, Restore takes every record of each whole block and none of an unfinished transaction. |
| Recovery.WholeIsMost | pkg/persistence/persistence.go:91-151 | The whole blocks of a prefix fit it, and one more would not. |
| Recovery.AppendSingle | pkg/persistence/persistence.go:134-136 | A plain record is recovered unless the log dangles in an unfinished transaction. |
| Recovery.AppendTx | pkg/persistence/persistence.go:125-136 | A whole transaction is recovered whatever came before it. |
| Recovery.AppendUnfinished | pkg/persistence/persistence.go:134-136 | An unfinished transaction gives nothing and takes nothing away. |
| Recovery.LaterBlocks | pkg/persistence/persistence.go:91-151 | What is recovered of any blocks written behind any log. |
| Recovery.LaterLogIsRecovered | pkg/persistence/persistence.go:91-151 | An old log and a later one recover to what each gives, just when the old one does not dangle or the later does not start with a plain record. |
| Recovery.SingleAfterDanglingIsLost | pkg/persistence/persistence.go:134-136 | A plain record written after a crash cut a transaction short is lost at the next restart. |
| FirstPass.PartlySeen | pkg/persistence/persistence.go:96-151 | What the second pass takes when the first saw only some of the lines: the records of the whole blocks but that of a committed transaction the seen lines end in, and the records of an unfinished one that begins behind them. |
| FirstPass.LostAndLetThrough | pkg/persistence/persistence.go:96-151 | What should be recovered and what is taken differ in exactly the lost records and those let through. |
| FirstPass.FirstPassExactly | pkg/persistence/persistence.go:96-151 | A read error in the first pass, which is ignored, does no harm unless the seen lines end inside a committed transaction with records, which are lost, or before an unfinished one with records, which are taken; with records that are all different, just then, and exactly those. |
| FirstPass.UnfinishedIsApplied | pkg/persistence/persistence.go:96-151 | An example of an unfinished transaction that is applied. |
| FirstPass.FirstPassCutShort | pkg/persistence/persistence.go:96-107 | Every transaction that is the whole log is lost when the first pass saw only its first line. |
| Persistence.RecoveryEqualsLive | pkg/persistence/persistence.go:70-184 | Over every run of requests, transactions, instance creations and deletions, flushes, snapshots and crashes: snapshot plus log restore to the live state, and any line-prefix to the state the server was in when those lines had been logged. |
| Persistence.StepKeeps | pkg/persistence/persistence.go:61-184 | Each step keeps that every line-prefix restores to the state that goes with it. |
| Persistence.RequestKeeps | pkg/persistence/persistence.go:61-68 | So does a request, record by record. |
| Persistence.TransactKeeps | pkg/multiplexer/tx_wal_logger.go:53-78 | So does a transaction, committed or rolled back. |
| Persistence.InstanceKeeps | pkg/multiplexer/multiplexer.go:141-188 | So does creating or deleting an instance. |
| Persistence.CrashKeeps | pkg/persistence/persistence.go:70-157 | A restart after a crash comes up in the state that goes with the lines left. |
| Persistence.RequestBehindDangling | pkg/persistence/persistence.go:134-136 | A request logged behind a dangling transaction is lost, whatever it is: a restart comes up in the state before it. |
| Persistence.UntruncatedLogReplaysTwice | pkg/persistence/persistence.go:175-181 | An example: a crash between saving the snapshot and truncating the log replays a push twice. |
| Overlaps.WriteAll | pkg/persistence/persistence.go:113-151 | Replay, place by place: each key, list, member or score is what the last absolute record that writes it says, or as it was. |
| Overlaps.ReplaysIfDroppable | pkg/multiplexer/multiplexer.go:190-214 | Records that could be replayed once can be replayed onto any other state just when each deletion of an instance finds it there or has a record of that instance before it. |
| Overlaps.ReplayedOnto | pkg/persistence/persistence.go:113-151 | Absolute records replayed onto a later state leave it as it is just when their deletions find their instances and nothing they wrote has changed since. |
| Overlaps.UntruncatedExactly | pkg/persistence/persistence.go:159-184 | The snapshot saved and any number of lines of the log left: with absolute records, the restart comes up in the live state just when each deletion of an instance finds it and no line that is gone changed what they wrote. |
| Overlaps.UntruncatedWhole | pkg/persistence/persistence.go:175-181 | A crash between saving the snapshot and truncating the log, with the whole log left: the restart comes up at all, and then in the live state, just when each deletion of an instance finds it. |
| Overlaps.FailedSaveExactly | pkg/persistence/persistence.go:175-181 | A truncation that fails, by which what was buffered is lost: when the restart comes up in the live state. |
| Overlaps.OlderValueReturns | pkg/storage/storage.go:674-721 | A SET in a log that was left brings its value back whatever the snapshot holds. |
| Overlaps.PushAgain | pkg/list_storage/list_storage.go:176-203 | A push in a log that was left is replayed twice, unless it was of no values. |
| Overlaps.PopAgain | pkg/list_storage/list_storage.go:204-213 | A pop takes a second element, or follows a nil pointer just when it had emptied the list. |
| Overlaps.MoveAgain | pkg/list_storage/list_storage.go:214-223 | A move is repeated; it changes nothing just within one list, at one end or among equal elements. |
| Overlaps.InsertAgain | pkg/list_storage/list_storage.go:239-248 | LINSERT inserts a second time just when the list has the pivot. |
| Overlaps.RemoveAgain | pkg/list_storage/list_storage.go:249-257 | LREM changes nothing just when the list is still there and holds no such element, or the count is the most negative one. |
| Overlaps.ReplaceAgain | pkg/list_storage/list_storage.go:224-238 | LSET alone changes nothing. |
| Overlaps.ReplaceThenDelete | pkg/list_storage/list_storage.go:224-262 | With the deletion of its list behind it, LSET follows a nil pointer. |
| Overlaps.IncrementAgain | pkg/zset_storage/zset_storage.go:221-234 | ZINCRBY adds a second time, unless it adds nothing. |
| Overlaps.StoreAgain | pkg/set_storage/set_storage.go:203-221 | A STORE form alone stores the same again. |
| Overlaps.StoreThenAdd | pkg/set_storage/set_storage.go:141-221 | With an addition to its source behind it, it stores more. |
| Overlaps.DropAgain | pkg/multiplexer/multiplexer.go:190-214 | A deletion of an instance does not find it: the restart fails. |
| Databases.PersistenceManager.FirstPass | pkg/persistence/persistence.go:91-111 | Collects the transactions begun and not committed. |
| Databases.PersistenceManager.SecondPass | pkg/persistence/persistence.go:113-151 | Replays the records outside them until one fails. |
| Databases.PersistenceManager.Restore | pkg/persistence/persistence.go:70-157 | The two passes restore what `Restored` says, when the first has read the whole log. |
| Databases.PersistenceManager.SaveSnapshot | pkg/persistence/persistence.go:159-184 | The snapshot holds the state and the log is empty, or nothing was saved, or the log could not be truncated. |
| Databases.Database.Execute | pkg/multiplexer/router.go:80-103 | A request is the step of the proved system. |
| Databases.Database.Transaction | pkg/multiplexer/tx_builder.go:205-233 | So is a transaction, with its undo and its log block. |
| Databases.Database.Create | pkg/multiplexer/multiplexer.go:141-158 | So is creating an instance. |
| Databases.Database.Delete | pkg/multiplexer/multiplexer.go:177-188 | So is deleting one. |
| Databases.Database.Sync | pkg/wal/buffered_wal.go:115-124 | So is a flush, however far it gets. |
| Databases.Database.Save | pkg/persistence/persistence.go:159-184 | So is saving a snapshot that succeeds; one that fails leaves all as it was, or the snapshot saved and the flushed lines not truncated. |
| Databases.Database.CrashAndRestart | pkg/persistence/persistence.go:70-157 | So is a crash with the restart after it, which loses nothing that was durable. |
| Text.UnescapeEscape | pkg/storage/storage.go:670-673 | Percent-encoding of any bytes reads back and holds no bar, newline or carriage return (section 2.1 of RFC 3986). |
| Text.UnBase64Base64 | pkg/storage/storage.go:681-684 | Base64 of any bytes reads back and holds no bar, newline or carriage return (section 4 of RFC 4648). |
| Text.SplitJoin | pkg/persistence/persistence.go:65-117 | Splitting a joined line gives the fields back. |
| Text.ScannedFile | pkg/wal/wal.go:70-75 | The scanner reads back the lines that were written, each without a carriage return at its end; so all of them just when none has one. |
| LogCodec.KvRoundTrip | pkg/storage/storage.go:535-540 | The fields of a key-value record read back as the record. |
| LogCodec.ListRoundTrip | pkg/list_storage/list_storage.go:174-266 | The fields of a list record read back as the record. |
| LogCodec.SetRoundTrip | pkg/set_storage/set_storage.go:139-230 | The fields of a set record read back as the record. |
| LogCodec.ZSetRoundTrip | pkg/zset_storage/zset_storage.go:161-243 | The fields of a sorted-set record read back as the record, a pop as the removal of what it popped. |
| LogCodec.LineRoundTrip | pkg/persistence/persistence.go:61-68 | A logged line, split at the bars and decoded, gives back engine, instance and record for arbitrary bytes in keys and values; and the scanner leaves it whole. |
| LogCodec.SameEffect | pkg/zset_storage/zset_storage.go:212-224 | What is read of a record has the effect of the record. |
| LogCodec.TextRestoresSame | pkg/persistence/persistence.go:91-157 | Restoring from the text of a log is restoring from the log. |
| Text.EscapeOne | pkg/storage/storage.go:540 | Which bytes stand for themselves in a key, and how any other is written. |
| Text.EscapeConcat | pkg/storage/storage.go:540 | A key is written byte by byte. |
| Text.DigitsInOrder | pkg/storage/storage.go:539 | The alphabet of base64. |
| Text.Base64Means | pkg/storage/storage.go:539 | Which digits three bytes, or the last one or two, are written with. |
| Text.JoinMeans | pkg/persistence/persistence.go:61-68 | Fields are joined by bars. |
| Text.FileMeans | pkg/wal/wal.go:53-61 | Lines end in a newline. |
| LogCodec.KvLine | pkg/storage/storage.go:514-600 | The text of the key-value engine's lines. |
| LogCodec.ListLine | pkg/list_storage/list_storage.go:424-960 | The text of the list engine's lines. |
| LogCodec.SetLine | pkg/set_storage/set_storage.go:373-1116 | The text of the set engine's lines. |
| LogCodec.ZSetLine | pkg/zset_storage/zset_storage.go:405-1094 | The text of the sorted-set engine's lines. |
| LogCodec.ScoredAt | pkg/zset_storage/zset_storage.go:405-697 | ZADD writes each score before its member, a pop each member before its score. |
| LogCodec.OtherLines | pkg/multiplexer/tx_wal_logger.go:53-78 | The text of the lines of transactions and instances. |
| Snapshots.BindTrips | pkg/snapshot/snapshot.go:88-132 | Two parts read one after the other round trip, and every strict prefix is rejected, if that holds of each. |
| Snapshots.LeRoundTrip | pkg/snapshot/snapshot.go:72-112 | Little-endian numbers that fit their width read back. |
| Snapshots.Int64Trips | pkg/snapshot/snapshot.go:76-118 | Signed 64-bit numbers round trip, and no strict prefix reads. |
| Snapshots.BytesTrips | pkg/snapshot/snapshot.go:80-132 | Length-prefixed bytes round trip, and no strict prefix reads. |
| Snapshots.LongBytesDoNotTrip | pkg/snapshot/snapshot.go:81 | Bytes of 4 GiB or more do not. |
| Snapshots.HeaderTrips | pkg/snapshot/snapshot.go:55-106 | The header round trips, with its magic and version validated. |
| Snapshots.CountedTrips | pkg/list_storage/list_storage.go:314-345 | A counted sequence of items round trips. |
| Snapshots.LimitedEndsAtSection | pkg/snapshot/snapshot.go:254-265 | However much of its section a reader has consumed, the loader goes on exactly behind it. |
| Snapshots.LimitedNegative | pkg/snapshot/snapshot.go:254-265 | From 2^63 on a section's size turns negative: a reader sees nothing, fails unless it can do with that, and nothing is skipped. |
| Snapshots.SectionTrips | pkg/snapshot/snapshot.go:208-265 | A section round trips to its engine. |
| Snapshots.SnapshotTrips | pkg/snapshot/snapshot.go:203-269 | A file of sections round trips, and every strict prefix of it is rejected. |
| Snapshots.SaveSnapshot | pkg/snapshot/snapshot.go:203-227 | The writing loop writes header and sections. |
| Snapshots.LoadSnapshot | pkg/snapshot/snapshot.go:229-269 | The reading loop reads header and sections. |
| Snapshots.ReadItems | pkg/snapshot/snapshot.go:242-266 | The counting loop reads items until one fails. |
| SnapshotState.ExpiryTrips | pkg/storage/storage.go:741-756 | The optional deadline round trips in nanoseconds. |
| SnapshotState.EntryTrips | pkg/storage/storage.go:732-811 | A key's entry round trips with body, creation time and deadline. |
| SnapshotState.PairsTrip | pkg/zset_storage/zset_storage.go:262-328 | The pairs of a sorted set round trip, score bits included. |
| SnapshotState.DumpTrips | pkg/multiplexer/multiplexer.go:446-476 | The payload of an engine of any kind round trips. |
| SnapshotState.InstanceTrips | pkg/multiplexer/multiplexer.go:374-391 | An instance round trips within the multiplexer's section. |
| SnapshotState.MuxTrips | pkg/multiplexer/multiplexer.go:365-487 | The multiplexer's section round trips. |
| SnapshotState.FileTrips | pkg/multiplexer/multiplexer.go:365-487 | The file round trips through all nested sections, and every strict prefix of it is rejected. |
| SnapshotState.LoadedIsSaved | pkg/multiplexer/multiplexer.go:418-487 | The instances that were saved, in any order of any map, make the multiplexer they were saved from. |
| SnapshotState.SnapshotRoundTrip | pkg/snapshot/snapshot.go:203-269 | Loading what was saved yields the same instances, contents and deadlines, for every order the maps are walked in. |
| SnapshotState.RebuiltInOrder | pkg/zset_storage/zset_storage.go:315-331 | A sorted set that holds the saved pairs has them in the saved order. |
| SnapshotState.Reloaded | pkg/zset_storage/zset_storage.go:320-338 | Inserting the saved pairs into a new sorted set gives the same members, scores and order. |
| Snapshots.LeBytes | pkg/snapshot/snapshot.go:72-78 | Each byte of a number, lowest first. |
| Snapshots.HeaderBytes | pkg/snapshot/snapshot.go:55-70 | The bytes of the header. |
| SnapshotState.FileExample | pkg/snapshot/snapshot.go:203-227 | The bytes of a small file. |

## Left out

- Deadlines of lists, sets and sorted sets: the router never gives them one, so these engines are modelled without; the snapshot format keeps them.
- Overlaps.UntruncatedExactly: is about records that write what does not depend on what was there; logs that mix them with pushes, pops, moves, LSET, LINSERT, LREM, ZINCRBY and STORE forms are only answered for one such record, by the lemmas beside it. Nor is it about SADD and ZADD without members, which the router does not let through.
- ZSetStorage.ZSetStorage.AddNoWal, ZSetStorage.ZSetStorage.Add, ZSetStorage.ZSetStorage.Fetch, ListStorage.ListStorage.PushNoWal, ListStorage.ListStorage.Push, SetStorage.SetStorage.AddNoWal, SetStorage.SetStorage.Add: do not model the deadline argument and its heap entry.
- ZSetStorage.ZSetStorage.Rem, ZSetStorage.ZSetStorage.IncrBy, ZSetStorage.ZSetStorage.Pop, ZSetStorage.ZSetStorage.ZScore, ZSetStorage.ZSetStorage.ZCard, ZSetStorage.ZSetStorage.ZRank, ZSetStorage.ZSetStorage.ZRevRank, ZSetStorage.ZSetStorage.ZCount, ZSetStorage.ZSetStorage.ZRange, ZSetStorage.ZSetStorage.ZRevRange, ZSetStorage.ZSetStorage.ZRangeByScore, ZSetStorage.ZSetStorage.ZRevRangeByScore: do not model the branch for an expired key.
- ListStorage.ListStorage.Pop, ListStorage.ListStorage.Move, ListStorage.ListStorage.ReplaceAtIndex, ListStorage.ListStorage.Insert, ListStorage.ListStorage.Remove, ListStorage.ListStorage.Range: do not model the branch for an expired key.
- SetStorage.SetStorage.Rem, SetStorage.SetStorage.Pop, SetStorage.SetStorage.Move, SetStorage.SetStorage.SInter, SetStorage.SetStorage.SUnion, SetStorage.SetStorage.SDiff, SetStorage.SetStorage.StoreNoWal, SetStorage.SetStorage.Store, SetStorage.SetStorage.Gather, SetStorage.SetStorage.Prune: do not model the branch for an expired key.
- ZSetStorage.ZSetStorage.Delete, ListStorage.ListStorage.Delete, SetStorage.SetStorage.Delete: do not model the removal of an entry from the expiration heap.
- ZSetStorage.ZSetStorage.ProcessWalEntry, ListStorage.ListStorage.ProcessWalEntry, SetStorage.SetStorage.ProcessWalEntry, LogCodec.ZSetRoundTrip, LogCodec.ListRoundTrip, LogCodec.SetRoundTrip: model the deadline field of a line as PERSISTENT.
- KvStorage.ReplayMatches: is about states and commands without deadlines, where replay is exact; KvStorage.SetReplayExactly and Deadlines.RestartShows are about the others.
- ListStorage.ReplayMatches: is not about LSET with an index counted from the right; ListStorage.LSetReplayExactly is.
- Multiplexers.ReplayMatches, Multiplexers.PrefixReplays, Persistence.StepKeeps, Persistence.RequestKeeps, Persistence.TransactKeeps: share the limits of the two above, and the last the limits of Transactions.FailedTransactionRestores.
- Deadlines.RestartShows: is about the key-value engine by itself, and about what is shown at the moment of the restart; a deadline is logged in whole seconds, so that a key can go up to a second earlier after a restart.
- Undos.FailureChangesNothing, Undos.IncrementAt, Transactions.RollbackRestores: are about states without deadlines, like Undos.UndoExactly.
- Transactions.Multiplexer.Execute, Transactions.Multiplexer.Create, Transactions.Multiplexer.Delete: hold the engines' states as values, and make and call no engine objects; each engine's class is proved to compute those values, by Did and ProcessWalEntry.
- SkipLists.SkipList.GetRank: which of several pairs with the same member it finds depends on the heights of the nodes and is left open; SkipLists.RankOfElement has the case of one pair, which SortedSets.DifferentMembers shows to be the sorted set's.
- Databases.PersistenceManager.SaveSnapshot: keeps the snapshot as a value and writes no bytes; Snapshots and SnapshotState have the bytes.
- Persistence.RecoveryEqualsLive: is about runs in which no key has a deadline and LSET is given indices counted from the left, because replay is not exact otherwise (KvStorage.SetReplayExactly, ListStorage.LSetReplayExactly say when it is); a plain record behind a dangling transaction is shut out by Enabled, and Persistence.RequestBehindDangling says what becomes of it.
- Undos.UndoExactly: is about states without deadlines; the undo of a key with a deadline starts the deadline anew from the time of the undo, which needs creation times that the engine's model does not keep.
- Transactions.FailedTransactionRestores: covers the requests whose undo is right in every state; DEL_PREFIX, DEL_SUFFIX, DEL_REGEX, MSET_TTL and SET_TTL are not modelled as requests of a transaction.
- KvStorage.Storage.MSet: takes the pairs as a sequence, in the order the source happens to walk its map; MSET_TTL, MGET and EXISTS are left out, being loops of what is modelled.
- Databases.PersistenceManager.Restore: restores all engines; the filter that restores only some, Reset and Clear are left out.
- Databases.Database.Save: after a failed truncation the log no longer fits the snapshot, and the steps that follow are not covered by Persistence.RecoveryEqualsLive; Overlaps.FailedSaveExactly says what a restart comes to, for records of the kinds it names.
- Creation times: kept in the snapshot format, not in the engines, where nothing but the undo of a deadline reads them.
- Floating-point behaviour of scores: NaN, signed zero, and the rounding of ZINCRBY. How a score or a time is written as text or bits is a parameter, required to read back what it wrote.
- Snapshot readers are functions from the bytes of the stream to a value and the rest of the stream; the loops of the file are methods proved to compute them, the loops of each engine's SerializeState and DeserializeState are the same counted reader and writer.
- SkipLists.SkipList.Insert: is not about a pair that is already in the list, which only a damaged snapshot could ask for.
- A node's `level` slice and the `update` and `rank` slices are sequences, reassigned where the source assigns an element; a list is the sequence of its elements, not linked cells.
- Overflow of the 64-bit lengths, ranks and spans, which no memory could hold.
- The router's parsing of requests, LLEN, LINDEX, LPOS, SCARD, SISMEMBER, SMISMEMBER, SMEMBERS, SRANDMEMBER, SINTERCARD, and the prefix, suffix and regular-expression searches: reads of what is modelled.
- Mutexes and goroutines: each command is one step, and CREATE, DELETE_INSTANCE and cleanup do not run inside a transaction.
- The file system beyond whole lines: torn lines, the scanner's limit on the length of a line, renaming and syncing of the snapshot file.
- Publish and subscribe, the TCP server, JSON, memory statistics, UUID generation and error texts.
