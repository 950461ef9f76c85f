# Verification of the Redis-like engine, its client and the cluster ring

The project models the storage engine under `src/db`, the pipelined client that talks to it, and the consistent-hash
ring by which the scheduler decides which node runs a job. It proves what each structure and protocol keeps, over all
inputs, runs and interleavings. Where the code departs from its evident intent, the model does what the code does; a
lemma then gives an input that shows the difference, and the exact condition under which the code meets the intent.

| files | what they are about |
|---|---|
| Strconv, Resp, Parser, RoundTrip | the printer and the streaming parser of RESP2 ("Bulk strings" and "Arrays" in the Redis serialization protocol specification) |
| InlineWords | commands written as plain lines |
| Service, Wire, Client | the loop that answers payloads, what bytes are to the parser at the other end, and the pipelined client against the loop, with bytes in both directions, as a state machine |
| SkipSpans, SkipList, Elements, Borders, BorderLaws, SortedSet, SortedSetRuns | the skip list with spans, first on numbers, then on linked nodes, what lies between two borders, the set over list and dictionary, and runs of its operations |
| Locks, LockProtocol, Jobs, Serial | the striped lock table, threads that lock batches, and the commands, expire jobs and transactions that run under them |
| Commands, Slots, Engine, Database | the commands as functions of one slot or of the database, and the object that executes them in place |
| SetOptions, StringLaws, HashLaws, ListLaws, KeyLaws | what the commands do, as their users know it: values found again, counts, order, deadlines |
| Marshal, Undo, Rollback, RollbackCases, RollbackLists, Multi, MultiAnswers, Transactions, Watch, WatchHistory, WatchValues | undo logs, what they restore, MULTI/EXEC and WATCH |
| Footprint | which keys a command reads and changes |
| Names, AofFile, Replay, Restart, History, Rewrite, RewriteRuns, RewriteLosses | the append-only file: append, load at any clock, rewrite |
| TimeWheel, Deadlines | the time wheel and the set of deadlines it implements |
| QuickList, QuickListSweep, QuickListView | the paged list, its removals by value, and what its readers see |
| Sorting, ConsistentHash, MultiNode | the ring and its use in the cluster |

How to read it:

- A specification on values (a function of the old state) comes with the object that updates its fields in place; the
  object's methods are proved equal to that function, and the properties are lemmas about it.
- Bytes are characters below 256. Integers are unbounded; 64-bit and 32-bit wrap-around is written out (`Wrap64`,
  `Nanos`, modulo 2^32). Times are whole milliseconds, and the clock is a parameter. Scores are reals.
- A Go panic is a result (`Panicked`, `Crashed`, `panicked`), not a precondition; only an index out of range, which the
  paged list refuses at once, is a precondition of its `Find`, `Get`, `Set`, `Insert` and `Range`.
- The database is two maps, as in the source, so that a deadline without a value can occur; only RENAME of a living key
  with a deadline to itself makes one (`RollbackCases.ExecSound`).
- One exception to "the model does what the code does": the list commands of the engine work on the flat sequence that
  a list is meant to be. The paged list keeps a surplus element from its first value on (`QuickListView.SurplusForever`),
  so that, for instance, LPUSH after LPOP does not always bring back what readers see; `QuickListView` says exactly when
  each operation is seen as what it is meant to be.
- A field that HSET stores is kept as a Go string (`Text`), a field stored by other commands as bytes (`Raw`), because
  readers and undo treat the two differently.

Main results, one for each core: `SkipList.SkipList.Insert` and `RemoveNode`, `SortedSetRuns.Run`,
`SortedSet.SortedSet.RangeByScore`; `SetOptions.SetDoes` and `ListLaws.StackAndQueue`; `RollbackLists.UndoRestores`,
`RollbackCases.ExecSound` and `Multi.AbortRestores`; `MultiAnswers.SessionAnswers`, `WatchHistory.PassesIffAllBefore`
and `WatchValues.WatchedIsKept`; `LockProtocol.NoDeadlock` and `Serial.Serialises`; `History.ReplayRebuilds`,
`Restart.ReplaysAtClock` and `RewriteRuns.RewriteIsTransparent`; `RoundTrip.StreamRoundTrip`, `Wire.OneBackIff` and
`Client.RepliesMatch`; `Deadlines.ExactFromTheStart`; `QuickListSweep.ReverseRemoveByVal` and
`QuickListView.AddIsAppendIff`; `ConsistentHash.OrderIrrelevantIffUnshared`, `ConsistentHash.MinimalMovement` and
`MultiNode.ExactlyOneExecutor`.

## Model

| member | source | states |
|---|---|---|
| `SkipSpans.RaiseKeeps` | src/db/struct/sortedset/skiplist.go:77-87 | Raising the header to a new top level, with spans that reach the end of the list, keeps every span exact on every level. |
| `SkipSpans.InsertKeeps` | src/db/struct/sortedset/skiplist.go:92-113 | For any tower height and any spans that are exact rank distances, the arithmetic of insert (split below the height, plus one above it) makes them exact distances in the longer list. |
| `SkipSpans.RemoveKeeps` | src/db/struct/sortedset/skiplist.go:129-139 | The same for removal: merged and shortened spans are exact in the shorter list. |
| `SkipSpans.RemoveKeepsPreds` | src/db/struct/sortedset/skiplist.go:205-238 | The noted predecessors of a place are still its predecessors after the node there is gone, on every level: the reason why one `update` array serves many removals. |
| `SkipSpans.LowerKeeps` | src/db/struct/sortedset/skiplist.go:144-146 | When the header leads nowhere on the top level, no node reaches it, and lowering the level loses nothing. |
| `SkipList.RandomLevelFits` | src/db/struct/sortedset/skiplist.go:53-57 | For every draw, the level is one the header has if and only if the draw is not 0. |
| `SkipList.LevelsHalve` | src/db/struct/sortedset/skiplist.go:53-57 | A draw reaches level h if and only if it is below 2^(17 - h), for each of the 16 levels: half of the draws that reach one level reach the next. |
| `SkipList.SkipList.Walk` | src/db/struct/sortedset/skiplist.go:64-71 | Going forward on one level while the condition holds ends at the last node of that level before the cut. |
| `SkipList.SkipList.Insert` | src/db/struct/sortedset/skiplist.go:59-123 | For every height 1 to 16: order, exact spans and forward pointers on all levels, backward mirror, tail, length and level hold again, and the sequence of elements is the old one with the element at its place. |
| `SkipList.SkipList.LinkedTowers` | src/db/struct/sortedset/skiplist.go:92-113 | After the two linking loops every tower of the longer list holds exactly the forward node and rank distance that its place calls for. |
| `SkipList.SkipList.UnlinkedTowers` | src/db/struct/sortedset/skiplist.go:129-139 | The same for the unlinking loop, with the noted predecessors still right. |
| `SkipList.SkipList.RemoveNode` | src/db/struct/sortedset/skiplist.go:129-147 | The whole invariant is kept, exactly the target leaves the sequence, and the noted nodes stay predecessors so that the next node can be removed with them. |
| `SkipList.SkipList.Remove` | src/db/struct/sortedset/skiplist.go:152-175 | It finds the element if and only if it is stored, removes that one and leaves every other. |
| `SkipList.SkipList.GetRank` | src/db/struct/sortedset/skiplist.go:180-198 | The search stops at the last node not above the element, unless the searched name is empty and no node up to there is on the top level, when it stops at the header. |
| `SkipList.SkipList.StoredAt` | src/db/struct/sortedset/skiplist.go:180-198 | The last node not above a stored element is that element: its rank is its place in the sequence, from 1. |
| `SkipList.SkipList.GetByRank` | src/db/struct/sortedset/skiplist.go:272-291 | The node at any integer rank: the header for 0, the n-th element for 1 to length, nil outside. |
| `SkipList.SkipList.RemoveRangeByRank` | src/db/struct/sortedset/skiplist.go:243-271 | For all integers start and stop, exactly the block of ranks from start to before stop goes, in order, and is returned. |
| `SkipList.SkipList.RemoveRangeByScore` | src/db/struct/sortedset/skiplist.go:205-238 | For all borders and limits, exactly the leading block of matches within the limit goes, in order, and is returned. |
| `SkipList.TakenWhileWithin` | src/db/struct/sortedset/skiplist.go:220-236 | A loop that removes as long as the border and the limit allow takes as many elements as match, and no more than the limit. |
| `SkipList.SkipList.HasInRange` | src/db/struct/sortedset/skiplist.go:292-303 | True exactly when the borders do not look empty and the first and last element leave room for a match. |
| `SkipList.SkipList.GetFirstInScoreRange` | src/db/struct/sortedset/skiplist.go:308-323 | The first match of the sequence; nil when there is none or the borders look empty. |
| `SkipList.SkipList.GetLastInScoreRange` | src/db/struct/sortedset/skiplist.go:328-342 | The last match of the sequence; nil when there is none or the borders look empty. |
| `Borders.MatchesAreBlock` | src/db/struct/sortedset/sortedset.go:188-207 | In an ascending sequence the elements between two borders are one block, from the first past the lower border to the last before the upper one. |
| `Borders.LooksEmptyIsEmpty` | src/db/struct/sortedset/skiplist.go:292-296 | Between two finite borders the first test of hasInRange hides no match. |
| `Elements.FirstDifference` | src/db/struct/sortedset/skiplist.go:73-75 | One name comes before another if and only if it is smaller at the first byte in which they differ, or is a proper beginning of it. |
| `BorderLaws.MatchesHold` | src/db/struct/sortedset/border.go:28-52 | The matches are the elements whose score lies between the borders: above or at the lower one, below or at the upper one, strictly where the border is exclusive. |
| `BorderLaws.MatchesNumber` | src/db/struct/sortedset/sortedset.go:131-146 | There are as many matches as there are such places in the sequence. |
| `BorderLaws.BordersPart` | src/db/struct/sortedset/border.go:28-52 | A score parts every sequence: the elements up to it and those above it, and the elements below it and those from it on, are together all of them. |
| `BorderLaws.OneScore` | src/db/struct/sortedset/border.go:28-52 | From a score to the same score, both inclusive, are exactly the elements that have it. |
| `BorderLaws.RangesAddUp` | src/db/struct/sortedset/sortedset.go:131-146 | Two ranges that meet at a score, inclusive on one side and exclusive on the other, have together as many elements as the whole range. |
| `SortedSet.InfiniteBorderHidesMatches` | src/db/struct/sortedset/skiplist.go:292-296 | With an infinite lower border the same test compares the value 0 it carries: every match below a negative upper border is hidden. |
| `SortedSet.SortedSet.Add` | src/db/struct/sortedset/sortedset.go:22-37 | The list holds the elements of before without the old score of the member, and the new pair in its place; dictionary and list hold the same pairs afterwards if and only if insert did not panic, which is when the draw was 0 and a node had to be made. Nodes that come in are new ones, so that calls can follow each other. |
| `SortedSet.SortedSet.Remove` | src/db/struct/sortedset/sortedset.go:53-61 | A known member leaves dictionary and list, the order of the others stays, an unknown one changes nothing. |
| `SortedSet.AgreeAfterTaking` | src/db/struct/sortedset/sortedset.go:201-239 | Taking any block off the list and its members out of the dictionary leaves the two with the same pairs and no member twice. |
| `SortedSet.SortedSet.GetRank` | src/db/struct/sortedset/sortedset.go:68-83 | -1 for an unknown member; otherwise the place in the ascending or descending sequence, but for the empty name missed by the search. |
| `SortedSet.SortedSet.RankOf` | src/db/struct/sortedset/sortedset.go:68-83 | Search result and place agree for every stored member; the empty name is taken for the header exactly when no node up to it is on the top level. |
| `SortedSet.RanksMirror` | src/db/struct/sortedset/sortedset.go:74-83 | Ascending and descending rank add up to length - 1, even for the missed empty name. |
| `SortedSet.SortedSet.StartNode` | src/db/struct/sortedset/sortedset.go:85-105 | For any start inside the set, both directions begin at the node of that rank in the sequence or the reversed one. |
| `SortedSet.SortedSet.Range` | src/db/struct/sortedset/sortedset.go:119-129 | The slice start..stop of the sequence or of its reverse; it panics if and only if the two indices are not within the set. |
| `SortedSet.SortedSet.Count` | src/db/struct/sortedset/sortedset.go:131-146 | The number of places in the sequence whose score lies between the borders, each border inclusive, exclusive or infinite; on an empty set, and on no other, it panics. |
| `SortedSet.SortedSet.ForEachByScore` | src/db/struct/sortedset/sortedset.go:149-186 | The walk skips `offset` nodes, emits the next one without looking at the borders, and goes on within the matches and the limit. |
| `SortedSet.MatchesLead` | src/db/struct/sortedset/sortedset.go:149-157 | A walk from the located node in either direction meets all matches first, in order, and then no more. |
| `SortedSet.SortedSet.RangeByScore` | src/db/struct/sortedset/sortedset.go:188-198 | The result is filter, direction, drop offset, take limit of the sequence if and only if the offset does not run past the matches onto another element, and the values of the borders do not look empty while there is a match left to give; otherwise it is one element outside the borders, or nothing. |
| `SortedSet.HidesIsInfinite` | src/db/struct/sortedset/skiplist.go:292-296 | Only an infinite border can make the emptiness test hide a match. |
| `SortedSet.SortedSet.RemoveByScore` | src/db/struct/sortedset/sortedset.go:201-207 | Exactly the elements whose score lies between the borders leave both the list and the dictionary, their number is returned, and every other element stays. |
| `SortedSet.OthersStay` | src/db/struct/sortedset/sortedset.go:201-207 | What is left of an ascending sequence are exactly the elements whose score does not lie between the borders. |
| `SortedSet.WholeRange` | src/db/struct/sortedset/sortedset.go:188-198 | Unless the borders hide a match, the range without offset or limit holds exactly the elements whose score lies between the borders, ascending or descending. |
| `SortedSet.RankIsPlace` | src/db/struct/sortedset/sortedset.go:68-98 | The element at the rank of a member, in either direction, is that member. |
| `SortedSet.SortedSet.RemoveByRank` | src/db/struct/sortedset/sortedset.go:208-214 | Exactly the ranks from start to before end leave both, for all integers. |
| `SortedSet.SortedSet.PopMin` | src/db/struct/sortedset/sortedset.go:215-229 | The first `count` elements are returned in order and leave both; a count that is not positive takes all. |
| `SortedSet.SortedSet.PopMax` | src/db/struct/sortedset/sortedset.go:231-239 | The last `count` elements are returned in ascending order and leave both; a count that is not positive takes none. |
| `SortedSetRuns.Run` | src/db/struct/sortedset/sortedset.go:22-239 | After any run of Add, Remove, RemoveByScore, RemoveByRank, PopMin and PopMax with any arguments: unless a draw of 0 met a new element, the whole invariant holds, dictionary and list agree, no member stands twice, and the contents are what the operations leave of a sorted sequence. |
| `SortedSetRuns.RunFromEmpty` | src/db/struct/sortedset/sortedset.go:15-239 | The same from a new set on. |
| `Locks.LockTable.Hash` | src/db/struct/lock/locks.go:140-147 | The loop computes 32-bit FNV with the multiplication before the xor, wrap-around included. |
| `Locks.XorBits` | src/db/struct/lock/locks.go:140-147 | The exclusive or of the hash is one, bit by bit, exactly where the two numbers differ. |
| `Locks.HashOfOneByte` | src/db/struct/lock/locks.go:140-147 | The hash of the one byte a is 0x050C5D7E, as multiplying before the xor makes it. |
| `Locks.AndBits` | src/db/struct/lock/locks.go:18-24 | The mask of the hash is one, bit by bit, exactly where both numbers are. |
| `Locks.LockTable.ToLockIndices` | src/db/struct/lock/locks.go:70-87 | The indices of the keys, each once however many keys share it, increasing or decreasing. |
| `Locks.LockTable.RWLocks` | src/db/struct/lock/locks.go:94-113 | The calls lock each index of the union once, in increasing order, for writing exactly where a write key hashes. |
| `Locks.LockTable.RWUnLocks` | src/db/struct/lock/locks.go:115-134 | It undoes, last first, exactly the (index, mode) pairs that RWLocks of the same keys took. |
| `LockProtocol.StepKeepsInv` | src/db/struct/lock/locks.go:40-62 | Whatever thread moves, no mutex is held by a writer and anyone else, and each thread holds a prefix of its plan. |
| `LockProtocol.NoDeadlock` | src/db/struct/lock/locks.go:94-113 | In every reachable state with an unfinished thread some thread can take a step, for any number of threads, keys and collisions, with writers that block later readers. |
| `LockProtocol.EveryRunCompletes` | src/db/struct/lock/locks.go:94-134 | Every run is finite, and one that cannot go on has finished all threads with no lock held. |
| `LockProtocol.HeldTogether` | src/db/struct/lock/locks.go:94-113 | Two threads that hold their whole batches share no index that either of them writes. |
| `Serial.HeldTogetherCompatible` | src/db/database/db.go:101-118 | Two jobs (commands, expire jobs, transactions) that hold all their mutexes at once share no key that either locks for writing, hash collisions or not. |
| `Footprint.ExecIsLocal` | src/db/database/exec_util.go:3-22 | On databases that agree on the declared keys, every command gives the same reply and log, the same result on those keys, and changes no other key. |
| `Footprint.WritesDeclared` | src/db/database/keys.go:82-144 | A command changes a key it did not declare for writing if and only if, on the old database, RENAME finds its source alive and is not to itself, or RENAMENX also finds its destination free, or a key that is only read has expired and is looked at. |
| `Jobs.MultiIsLocal` | src/db/database/transaction.go:31-86 | A transaction, undo commands included, depends on the keys of its queue only and changes no other, aborted or not. |
| `Jobs.JobIsLocal` | src/db/database/ttl.go:18-34 | The same for everything that runs under a batch of locks: commands, expire jobs and transactions. |
| `Jobs.KeepsIff` | src/db/database/keys.go:82-144 | A command keeps to what it has locked for writing if and only if it is quiet in the sense above; an expire job always does. |
| `Jobs.BatchKeeps` | src/db/database/transaction.go:31-86 | A transaction does when it spares each key that it has locked for reading only. |
| `Serial.Serialises` | src/db/database/db.go:101-118 | Any number of threads whose lock calls, reads and writes interleave in any way, each with its own clock and a command, an expire job or a transaction to run: as long as each job, when it starts, would change only what it has locked for writing, database, log and every reply are those of running the jobs one by one in the order of their writes, each at its own time. |
| `Serial.Commute` | src/db/database/db.go:111-117 | Jobs that can be locked together and keep to what they have locked commute at whatever times they run: same database, same replies, same logs. |
| `Serial.ReadersShare` | src/db/database/keys.go:304-319 | Two of GET, HGET and EXISTS can hold all their locks together, on whatever keys. |
| `Serial.RenameDoesNotCommute` | src/db/database/keys.go:82-111 | RENAME next to a GET of its source, which the locks allow, gives different replies in the two orders. |
| `Serial.RenamesDuplicate` | src/db/database/keys.go:82-111 | Two RENAMEs of one key to different keys hold their locks together; when both read before either removes, both answer OK and the value is there twice, which no order of the two gives. |
| `Database.DB.IsExpired` | src/db/database/ttl.go:45-56 | An expired key is removed with its deadline, another key is left alone. |
| `Database.DB.Expire` | src/db/database/ttl.go:15-34 | The deadline of that key only is set, and its job waits in the wheel, but a deadline in the past gets no job and leaves an old one where it is. |
| `Database.DB.Persist` | src/db/database/ttl.go:37-41 | The deadline of that key only is taken away, and its job with it. |
| `Database.DB.FireExpire` | src/db/database/ttl.go:21-33 | The job goes from the wheel and removes the key exactly when its present deadline has passed; a job that is started before the deadline leaves a key that nothing will remove until it is looked at. |
| `Engine.FiredUnseen` | src/db/database/ttl.go:21-33 | No reader can tell whether the expire job has started. |
| `Database.DB.GetEntity` | src/db/database/db.go:142-152 | The unexpired value; an expired key is gone afterwards. |
| `Database.DB.Remove` | src/db/database/db.go:171-176 | Value, deadline and job of the key go, and no other. |
| `Database.DB.ExecSet` | src/db/database/string.go:123-216 | The option loop and its result, log included, for every list of options, valid or not: the function of which the two rows below say what it does. |
| `SetOptions.SetDoes` | src/db/database/string.go:123-216 | For every list of option words, in any case and order: NX with XX, or two durations, are a syntax error; otherwise NX stores if and only if the key holds nothing, XX if and only if it holds something; nothing changes when nothing is stored, and what is stored is the value, until now plus the seconds or milliseconds asked for, or without a deadline; no other key changes. |
| `SetOptions.SetRefuses` | src/db/database/string.go:131-186 | A list of words that does not spell options is refused and changes nothing. |
| `Database.DB.ExecSetNX` | src/db/database/string.go:219-228 | Value, reply and log for a key that is there or not. |
| `Database.DB.ExecSetEX` | src/db/database/string.go:231-280 | SETEX and PSETEX: value, reply, the two lines that are logged for either, and the deadline, whose duration wraps at int64 nanoseconds. |
| `StringLaws.SetEXLaw` | src/db/database/string.go:231-284 | For positive durations that int64 nanoseconds hold: the value until now plus that many seconds (SETEX) or milliseconds (PSETEX). |
| `StringLaws.SetEXLives` | src/db/database/string.go:231-284 | GET finds that value up to and with the millisecond of its deadline, and nothing after it. |
| `Database.DB.ExecGetEX` | src/db/database/string.go:50-120 | The options in order, errors after an effect included. |
| `StringLaws.GetEXLaw` | src/db/database/string.go:50-121 | It answers what GET does; with EX or PX the value stays until now plus that duration, with PERSIST for good, and without an option as long as before. |
| `Database.DB.ExecGetSet` | src/db/database/string.go:385-401 | The old value is returned; the deadline goes. |
| `Database.DB.ExecGetDel` | src/db/database/string.go:404-419 | The value is returned and the key deleted. |
| `Database.DB.ExecAddBy` | src/db/database/string.go:448-477 | INCRBY and DECRBY for any argument bytes, with the 64-bit wrap-around. |
| `StringLaws.CounterLaw` | src/db/database/string.go:422-477 | INCR, INCRBY, DECR and DECRBY: from any number stored, or from zero, the answer is the int64 that old value plus (or minus) the argument overflows to, its text is stored, and the deadline stays; a value that is no number stays and gives an error. |
| `StringLaws.DownUndoesUp` | src/db/database/string.go:512-568 | DECR after INCR and DECRBY n after INCRBY n give the number and the deadline of before, also across an overflow. |
| `Database.DB.ExecAppend` | src/db/database/string.go:584-596 | The bytes go at the end; the deadline stays. |
| `StringLaws.AppendLaw` | src/db/database/string.go:584-598 | GET then finds the old bytes followed by the new ones; the answer is their number. |
| `Database.DB.ExecMSet` | src/db/database/string.go:301-320 | All pairs in order, later ones over earlier ones. |
| `StringLaws.MSetLaw` | src/db/database/string.go:301-320 | Each named key has the value of the last pair that names it and its old deadline; every other key is as before. |
| `Database.DB.ExecMSetNX` | src/db/database/string.go:356-382 | All pairs or none. |
| `StringLaws.MSetNXLaw` | src/db/database/string.go:356-382 | On living keys: if any named key holds a value nothing changes and the answer is 0; otherwise all happens as by MSET. |
| `Database.DB.ExecHSet` | src/db/database/hash.go:42-54 | The field becomes a Go string, not bytes. |
| `HashLaws.HSetLaw` | src/db/database/hash.go:42-54 | The answer is 1 if and only if the field is new; that field alone changes; and HGET does not find what HSET stored. |
| `HashLaws.HSetNXLaw` | src/db/database/hash.go:63-81 | A new field is stored, answered by 1 and found by HGET; one that is there stays. |
| `Database.DB.ExecHDel` | src/db/database/hash.go:128-159 | The fields that are there are counted once each and removed, and an emptied hash goes. |
| `HashLaws.HDelLaw` | src/db/database/hash.go:128-159 | The answer is the number of different named fields that were there; exactly those go, and a hash without fields goes with its deadline. |
| `Database.DB.ExecHMSet` | src/db/database/hash.go:209-236 | All pairs, or an error and no change. |
| `HashLaws.HMSetLaw` | src/db/database/hash.go:209-235 | HGET finds for each named field the value of the last pair that names it; every other field and the deadline stay. |
| `Database.DB.ExecHIncrBy` | src/db/database/hash.go:349-378 | The sum, an error, or the panic on a field that HSET stored. |
| `HashLaws.HIncrByLaw` | src/db/database/hash.go:349-378 | From any number in the field, or from zero: the answer is the text of the int64 that the sum overflows to, stored in that field alone and found by HGET; a field that is no number stays. |
| `Database.DB.ExecPush` | src/db/database/list.go:133-182 | The four pushes: all values one after the other, at the head or the tail. |
| `ListLaws.PushOrder` | src/db/database/list.go:133-182 | After a push at the head the i-th element is the i-th value from the last, and the old list follows; at the tail the values follow the old list in their order; the answer is the length and the deadline stays. |
| `ListLaws.StackAndQueue` | src/db/database/list.go:90-150 | On any living key, n values pushed at one end and popped from there come out last first; pushed on a new key and popped from the other end they come out first to last, for all values and both ends. |
| `Database.DB.ExecPop` | src/db/database/list.go:90-109 | The element at that end comes out, and an emptied list goes. |
| `ListLaws.PopOrder` | src/db/database/list.go:90-109 | The answers of n pops at the head are the first n elements in order; at the tail the last n, backwards. |
| `ListLaws.LastPop` | src/db/database/list.go:90-109 | Popping the last element takes the key and its deadline away, and the next pop answers nothing. |
| `Database.DB.ExecRPopLPush` | src/db/database/list.go:403-432 | The last element of one list becomes the first of the other, the same list included. |
| `ListLaws.MoveOrder` | src/db/database/list.go:403-432 | The answer is what RPOP of the source would give, and what an LPOP of the destination gives afterwards; the other elements keep their order, also when both are one list. |
| `Database.DB.ExecLSet` | src/db/database/list.go:286-317 | The element at that index, counted from either end, or an error. |
| `ListLaws.SetElement` | src/db/database/list.go:286-317 | An index from 0 counts from the front and a negative one from the back; that element alone is replaced; outside of the list it is an error and nothing changes. |
| `Database.DB.ExecDel` | src/db/database/keys.go:18-29 | The keys that are there are counted once each and removed. |
| `KeyLaws.DelLaw` | src/db/database/keys.go:18-29 | The answer is the number of different named keys that held a value; exactly those are gone, with their deadlines. |
| `KeyLaws.ExistsLaw` | src/db/database/keys.go:40-52 | EXISTS answers how many places of its list name a living value, a key as often as it is named, and changes nothing. |
| `KeyLaws.WrongKind` | src/db/database/string.go:24-35 | On a living value of another kind, every string, hash and list command that reads the value gives the wrong-type error and changes nothing. |
| `Database.DB.ExecRename` | src/db/database/keys.go:89-111 | Value and deadline move to the new key. |
| `KeyLaws.RenameLaw` | src/db/database/keys.go:89-111 | On two living keys: value and deadline stand at the new key, the old one is gone, no other changes; a value without a deadline takes over the one that the new key had. |
| `Database.DB.ExecRenameNX` | src/db/database/keys.go:120-144 | They move only when the new key is free. |
| `KeyLaws.RenameNXLaw` | src/db/database/keys.go:120-144 | It moves if and only if the new key holds nothing and the old one something, and says 1 then. |
| `Database.DB.ExecExpire` | src/db/database/keys.go:147-227 | The four commands: the time that is set on a key that is there, with durations and PEXPIREAT wrapping at int64 nanoseconds and EXPIREAT at int64 seconds, or an error; the logged time is the one that is printed. |
| `KeyLaws.ExpireLaw` | src/db/database/keys.go:147-228 | For times that Go can hold: EXPIRE n sets now plus n seconds, PEXPIRE n now plus n milliseconds, EXPIREAT and PEXPIREAT the Unix time n; the answer is 1 if and only if there is a value. |
| `Database.DB.ExecPersist` | src/db/database/keys.go:264-279 | The deadline goes if there is one. |
| `Database.DB.ExecWithLock` | src/db/database/db.go:128-139 | Every modelled command line, with wrong arity or not, leaves maps, log and reply as its specification on values says; and if every deadline that has not passed has its job waiting in the wheel, and no other key has one, it is so afterwards. |
| `Marshal.HashToCmd` | src/db/aof/marshal.go:73-86 | The array it fills is the command that writes the hash down. |
| `Marshal.AnyOrderRebuilds` | src/db/aof/marshal.go:73-86 | The pairs of a listing in any order put together the same hash, so the order of a Go map does not matter. |
| `Marshal.DumpedIsSame` | src/db/aof/marshal.go:12-40 | A value comes back from its command unchanged if and only if it is a string or a hash that holds bytes only. |
| `Transactions.RollbackGivenKeys` | src/db/database/undo.go:44-61 | The lines it gathers, or the panic on a list. |
| `Transactions.RollbackHashFields` | src/db/database/undo.go:16-42 | One line for each named field, or one deletion when there is no hash. |
| `Transactions.GetUndoLogs` | src/db/database/transaction.go:120-131 | The undo lines of every modelled command, taken from the state before it. |
| `Multi.UndoLogExists` | src/db/aof/marshal.go:12-30 | GetUndoLogs panics if and only if one of the keys to be written down holds a list; otherwise it changes nothing. |
| `Rollback.FirstKeyRestores` | src/db/database/undo.go:11-14 | After a string command, value and deadline come back exactly if and only if the key held nothing, or a string or a hash of bytes with no deadline after the year 2262. |
| `RollbackCases.HashRestores` | src/db/database/hash.go:56-245 | After a hash write, everything comes back if and only if each touched field was absent or an empty Go string, and HDEL did not empty a hash with a deadline. |
| `RollbackLists.AllListsRestore` | src/db/database/list.go:113-485 | After any push, pop or LSET, everything comes back if and only if no pop emptied a list with a deadline. |
| `RollbackLists.TimeRestores` | src/db/database/keys.go:297-302 | After an EXPIRE-like command on a key that is there, the old deadline comes back if and only if it can be printed and the new one had not already passed. |
| `RollbackLists.MoveRestores` | src/db/database/list.go:434-455 | RPOPLPUSH is undone if and only if it stayed in one list or did not empty a list with a deadline. |
| `RollbackLists.UndoRestores` | src/db/database/transaction.go:120-131 | For every modelled command that succeeds and whose own keys have not expired, RENAME of a key to itself included: running its undo lines restores all values and deadlines if and only if a condition on the state before the command holds. |
| `RollbackCases.ExecSound` | src/db/database/keys.go:89-144 | A command keeps containers non-empty and deadlines on keys that have a value if and only if it does not rename a living key with a deadline to itself. |
| `RollbackCases.RenameToItself` | src/db/database/keys.go:89-111 | Such a RENAME answers OK and leaves the deadline without the value; when the deadline has passed, the key is merely removed. |
| `Multi.FailsClean` | src/db/database/string.go:50-120 | A command that fails changes nothing, unless it is a GETEX that took the deadline away before it met its mistake. |
| `Multi.AbortRestores` | src/db/database/transaction.go:55-86 | For queues of any length and content, on a database in which other keys may have expired: if each command up to the failing one could be undone, the aborted EXEC leaves every value and every deadline as before. |
| `Multi.BadUndosCancel` | src/db/database/transaction.go:55-86 | The converse fails: EXPIRE and then LPOP on a list of one element without a deadline, aborted by a RENAME, is restored although the LPOP could not be undone alone. |
| `Multi.CrashKeepsEffects` | src/db/database/transaction.go:58-63 | A list that an undo log would have to write down breaks EXEC in the middle, and what the queue has done so far stays. |
| `Multi.PanicsIff` | src/db/database/hash.go:349-378 | On a database as commands leave it, the one command that panics in its executor is HINCRBY of a field that HSET stored. |
| `Multi.UndoNeverPanics` | src/db/database/transaction.go:77-85 | No undo command panics, whenever its log was taken and whenever it runs. |
| `Transactions.RunQueue` | src/db/database/transaction.go:58-71 | The first loop: effects, log, replies, undo logs and how it ended. |
| `Transactions.RunUndos` | src/db/database/transaction.go:77-85 | The second loop: all undo logs, the last one first. |
| `Transactions.AddVersion` | src/db/database/db.go:207-212 | Each named key counts once for each time it is named, modulo 2^32. |
| `Transactions.IsWatchingChanged` | src/db/database/transaction.go:89-97 | True exactly when some watched key has another version. |
| `Transactions.ExecMulti` | src/db/database/transaction.go:31-86 | A failed watch check changes nothing; a commit counts all keys the queue writes; an abort or a panic counts none; no deadline loses its job; the reply is that of the verdict. |
| `MultiAnswers.CommittedAnswers` | src/db/database/transaction.go:55-72 | On living keys a queue commits if and only if each command goes through, and then there is one reply for each, the i-th being that of the i-th command on the database that the ones before it leave. |
| `MultiAnswers.SessionAnswers` | src/db/database/transaction.go:10-72 | MULTI, any lines and EXEC on a clean connection: nothing takes effect before EXEC, whose notice is the array of the replies in order; the connection is then as new. |
| `MultiAnswers.ExecAnswers` | src/db/database/transaction.go:18-86 | For every queue on living keys: the replies when all go through, a refusal if and only if a command fails after others have gone through, an unknown error in the rest; the transaction is over in each case. |
| `MultiAnswers.DiscardForgets` | src/db/database/transaction.go:110-117 | MULTI, any lines and DISCARD leave the database and the versions as they were and the connection with nothing queued or watched. |
| `MultiAnswers.BadLineRefuses` | src/db/database/transaction.go:18-28 | A line of a wrong length or with an unknown name makes EXEC refuse, whatever is queued after it. |
| `MultiAnswers.ReadersSpareWatches` | src/db/database/db.go:101-118 | They change no version, so that no EXEC is refused for them. |
| `Transactions.PrepareQueue` | src/db/database/transaction.go:31-42 | The keys to lock for writing and for reading, gathered over the queue. |
| `Transactions.BatchCovers` | src/db/database/transaction.go:31-49 | Those keys cover all that any command of the queue depends on or declares to write. |
| `Watch.EnqueueCmd` | src/db/database/transaction.go:134-154 | A line of valid arity is queued; another one counts as an error and is not queued. |
| `Watch.WatchKeys` | src/db/database/transaction.go:100-107 | The present versions are noted for all keys named. |
| `Watch.Connection.SetMultiState` | src/db/redis/connection/connection.go:111-117 | Leaving the state drops queue and watched keys, and not the errors. |
| `Watch.ExecRequest` | src/db/database/db.go:70-99 | For every request in every state of the connection: database, versions, connection and reply. |
| `Watch.RunKeepsInv` | src/db/database/transaction.go:134-154 | Over every run of any number of connections, with the counting and the execution of a command as two steps: each queued line has valid arity (so the table lookups of ExecMulti succeed), and each noted version is the count of namings at the time of the watch. |
| `Watch.TwoHalves` | src/db/database/db.go:101-118 | Counting and executing with nothing between them do what the command does as a whole. |
| `Watch.WatchGuards` | src/db/database/transaction.go:31-54 | Whenever EXEC may be sent, it passes the watch check if and only if every watched key has since been counted a multiple of 2^32 times. |
| `Watch.WatchIsExact` | src/db/database/transaction.go:89-107 | From a fresh server, over every run with any interleaving of countings and executions: short of a full circle of the counters, EXEC passes the watch check if and only if no watched key has been counted since it was watched. |
| `Watch.EscapesIffCountedBefore` | src/db/database/db.go:101-118 | A write that was executed since the watch escapes a passing EXEC only when it had been counted before the watch, and, when it is the only write and its key the only one watched, exactly then. |
| `WatchHistory.PassesIffAllBefore` | src/db/database/db.go:101-118 | From a fresh server, over every run, with any number of watched keys and writes: short of a full circle, EXEC passes if and only if for each watched key all writes executed since the watch had been counted before it and none has been counted since and waits. |
| `WatchValues.SparedByRun` | src/db/database/transaction.go:31-107 | A key keeps its value and its deadline over every run in which no command declares to write it, moves it by RENAME or finds it expired, where a transaction is judged by the commands it comes to execute, or, when it is aborted, can be taken back. |
| `WatchValues.WatchedIsKept` | src/db/database/transaction.go:31-107 | If EXEC passes the watch check, a watched key holds what it held when it was watched, provided that no command naming it was counted and waiting then, that nobody moved it by RENAME or found it expired, and that no transaction on it crashed or could not be taken back. |
| `Watch.ErrorsStickForever` | src/db/redis/connection/connection.go:130-142 | A connection that once queued a bad line has that error after every run: it can commit no transaction again. |
| `Watch.VersionRunsAhead` | src/db/database/db.go:101-118 | A watch between the counting and the execution of a normal command sees the new version and the old value, and EXEC does not notice. |
| `Replay.LogReplays` | src/db/database/string.go:196-280 | For every command whose own keys are alive when it runs and at the replay: replaying what it logged does what it did if and only if it was not that GETEX, it set no deadline that cannot be printed, and a SETEX or PSETEX outlives the moment of the replay. |
| `Replay.FarDeadlineIsLost` | src/db/database/keys.go:147-165 | An EXPIRE beyond the year 2262 keeps the key in the live database and makes it expired at once when the log is replayed, because the printed nanoseconds have wrapped around. |
| `Restart.ReplaysAtClock` | src/db/aof/aof.go:96-150 | For a command on one key that is alive when it runs, and a replay at any clock: the log does what the command did if and only if it was recorded and, should the deadline of the key have passed by then, the command does not need the old value, takes the last of it away, or logged nothing. |
| `Restart.CountStartsOver` | src/db/database/string.go:448-477 | INCR of a key with a deadline, replayed after it: the count starts at 1 again, without a deadline. |
| `Restart.SetNXIsLost` | src/db/database/string.go:219-228 | SETNX after the live database has removed an expired key: the replay still has the expired value, SETNX leaves it, and the new value is lost. |
| `History.ReplayRebuilds` | src/db/aof/aof.go:96-150 | For every run whose commands find their own keys alive, and find them alive again at the replay unless they do not need them then: replaying the whole log gives exactly the values and deadlines of the live database, whatever other deadlines have passed. |
| `History.MultiIsTrace` | src/db/database/transaction.go:55-86 | EXEC does and logs what its commands, and after a failure their undo commands, do and log one by one. |
| `History.MultiReplays` | src/db/database/transaction.go:55-86 | The log of a transaction, aborted or not, replays to its result, under the same condition on its commands. |
| `Names.LookupFinds` | src/db/database/router.go:23-41 | Every modelled command is found by its own name only. |
| `Names.LookupAnyCase` | src/db/database/db.go:128-136 | A word in capital and small letters is a command if and only if it spells its name. |
| `AofFile.DecodeAnyCase` | src/db/database/db.go:128-139 | A message is the same command line in whatever case its name is written. |
| `AofFile.LoadAof` | src/db/aof/aof.go:96-150 | At most maxBytes of the file, or all of it for 0, parsed and executed. |
| `AofFile.FileLoads` | src/db/aof/aof.go:60-150 | When no argument starts with a dollar sign, loading the bytes of any appended commands executes exactly those commands. |
| `AofFile.FileReadsBack` | src/db/aof/aof.go:60-150 | The parser gives back the messages of a file as they were written if and only if no argument starts with a dollar sign. |
| `AofFile.FileAppend` | src/db/aof/aof.go:60-83 | Appending commands appends their bytes: the file size stays on a command boundary. |
| `Rewrite.Handler.HandleAof` | src/db/aof/aof.go:60-83 | One SELECT when the database changes, then the command. |
| `Rewrite.WriteDatabases` | src/db/aof/rewrite.go:54-76 | The bytes that both loops write are those of the dump records. |
| `Rewrite.DumpRebuilds` | src/db/aof/rewrite.go:46-77 | Executed on nothing, the dump gives the database back if and only if every value and every deadline is one that can be written down. |
| `Rewrite.DumpGives` | src/db/aof/rewrite.go:54-76 | In any case it gives each key the value that can be written down and its printed deadline with it, and nothing for a list. |
| `Rewrite.Handler.StartRewrite` | src/db/aof/rewrite.go:80-105 | The size and the database of that moment are noted. |
| `Rewrite.Handler.DoRewrite` | src/db/aof/rewrite.go:46-77 | The part of the file up to the noted size is loaded and dumped; all of the file when that size is 0. |
| `Rewrite.Handler.FinishRewrite` | src/db/aof/rewrite.go:108-159 | What the file got since the start follows the dump, between SELECT commands for the two databases. |
| `RewriteRuns.RewriteOnce` | src/db/aof/rewrite.go:30-42 | With appends between all steps, the methods leave byte for byte the file that the steps say, whatever its records are. |
| `RewriteRuns.RewriteIsTransparent` | src/db/aof/rewrite.go:46-159 | Commands are executed and logged at their own times while rewrites start, load, dump and finish among them, in any order and number: when the steps can be replayed, no record of the file or of a part that is loaded has an argument that starts with a dollar sign, and each rewrite has a database to load into, no command appended to an empty file under it, and a state that can be written down, loading the bytes of the file gives exactly the live database. |
| `RewriteLosses.QuietRewrite` | src/db/aof/rewrite.go:46-77 | On bytes, for any file whose dump can be read back: a rewrite with no append meanwhile keeps what the file loads to if and only if that can be written down; without databases it loses all of it. |
| `RewriteLosses.NoDatabasesLosesAll` | src/db/aof/rewrite.go:54-56 | On bytes: with the default of no databases only what was appended during the rewrite survives. |
| `RewriteLosses.EmptyFileCountsTwice` | src/db/aof/rewrite.go:46-52 | On bytes, for every key without a leading dollar sign: a command appended during the rewrite of an empty file is executed twice by a replay. |
| `RewriteLosses.LengthComesBack` | src/db/aof/rewrite.go:46-77 | SET of the value "$5" and then DEL: the loaded part is read as one SET of other bytes, so that after a rewrite the file loads to a key that the live database does not have. |
| `Strconv.ParseFormatInt` | src/db/protocol/reply.go:130-132 | Printing then parsing an integer gives it back if and only if it fits in 64 bits. |
| `Strconv.DecimalPlaces` | src/db/redis/parser/parser.go:197-202 | The value of digits is decimal: written side by side, the first ones weigh ten to the number of the others. |
| `Strconv.SignedNumber` | src/db/redis/parser/parser.go:197-202 | A plus sign before digits changes nothing, and a minus sign turns the number round. |
| `Resp.MultiBulkToBytes` | src/db/protocol/reply.go:52-64 | The buffer that the loop fills is the printed form, nil arguments included. |
| `Parser.Parse0` | src/db/redis/parser/parser.go:39-138 | The loop over the reader yields the payloads of the pure parser, errors and resets included. |
| `InlineWords.SplitThenJoin` | src/db/redis/parser/parser.go:203-210 | No word of a line holds a space, and the words joined by single spaces are the line. |
| `InlineWords.JoinThenSplit` | src/db/redis/parser/parser.go:203-210 | Words without spaces come back from their line, all of them and in order. |
| `InlineWords.WordsParse` | src/db/redis/parser/parser.go:189-213 | A line of words joined by single spaces is read as the message of exactly those words, whatever follows it, when it has no line feed and does not start like a reply. |
| `InlineWords.LineIsWords` | src/db/redis/parser/parser.go:189-213 | A line without a line feed is read as its words if and only if it starts with none of + - : * $. |
| `RoundTrip.StreamRoundTrip` | src/db/redis/parser/parser.go:39-138 | A stream of printed messages of any bytes arrives as it was sent if and only if each has 1 to 2^32 - 1 arguments and none starts with a dollar sign. |
| `RoundTrip.ReplyRoundTrip` | src/db/protocol/reply.go:30-162 | Each kind of reply is read back unharmed, whatever follows it, if and only if it has no line feed where a line is expected, an integer in range, no leading dollar sign in a body. |
| `RoundTrip.IntRoundTrip` | src/db/redis/parser/parser.go:189-213 | An integer reply is read back, or reported as a protocol error when it is not an int64. |
| `RoundTrip.UnreadableMessage` | src/db/redis/parser/parser.go:237-254 | A message with an argument that starts with a dollar sign never comes back as itself. |
| `Client.RepliesMatch` | src/db/client/client.go:51-133 | Both directions are bytes with a parser at the end. In every interleaving, with requests that time out at any moment: when the messages are of the kind that the server answers once and its answers of the kind that come back as one payload, what a caller gets is what came back of the answer to the message it sent, and it is that answer if and only if the answer is fit for the wire. |
| `Client.RunKeepsInv` | src/db/client/client.go:51-133 | Over every run the waiting queue, the bytes to the server and the bytes back hold the same requests in the order of writing. |
| `Client.ExtraReplyShifts` | src/db/startup/startup.go:62-98 | The message ["$3", "abc"]: the error reply to it is read as an error and the command line "a", and that is what the caller of the next message gets, whatever the executor says. |
| `Client.TwoBackShifts` | src/db/client/client.go:124-133 | Whenever an answer comes back as two payloads, the caller of the next message is given the second one. |
| `Client.LineFeedShifts` | src/db/database/db.go:101-109 | It happens without any dollar sign: the error about an unknown command quotes its name, and with a line feed in the name the next caller gets what stands behind the line feed. |
| `Wire.OneBackIff` | src/db/protocol/reply.go:30-162 | A reply comes back as exactly one payload, whatever follows it, if and only if a status or error has no line feed and a bulk body, or the last argument of an array, does not read as a length; this for all replies but arrays with such an argument before the last. |
| `Wire.BackIsSame` | src/db/protocol/reply.go:30-162 | That payload is the reply itself if and only if the reply is fit for the wire. |
| `Wire.OnlyNoBytes` | src/db/redis/parser/parser.go:39-138 | No bytes but the empty ones are read as nothing whatever follows them: an unfinished message takes from what comes behind it. |
| `Wire.TakesLonger` | src/db/redis/parser/parser.go:39-138 | The next payload does not depend on the bytes behind it. |
| `Client.WireKeepsCount` | src/db/startup/startup.go:62-98 | On the wire, n requests and n replies are exactly n payloads each way, each the one that was sent. |
| `Service.HandleServer` | src/db/startup/startup.go:62-98 | The loop over the payloads writes one reply to each array and each protocol error, and none to the rest. |
| `Service.OneReply` | src/db/startup/startup.go:62-98 | A message whose arguments do not read as lengths is given to the executor once, whatever bytes follow it. |
| `Service.AnsweredOnce` | src/db/startup/startup.go:62-98 | When only the last argument may start with a dollar sign, the message is answered exactly once if and only if that argument announces no length. |
| `Service.TwoReplies` | src/db/redis/parser/parser.go:237-254 | The message ["$3", "abc"] gets two replies: an error, and one to the command line "bc". |
| `Service.ErrorArrivesTwice` | src/db/startup/startup.go:69-79 | A protocol error quotes a line with its line feed, so that the client reads two replies where one was written. |
| `TimeWheel.TimeWheel.GetPositionAndCircle` | src/db/timewheel/timewheel.go:145-152 | Whole turns and slots ahead add up to the whole intervals of the delay; it panics if and only if the interval is shorter than a second. |
| `TimeWheel.TimeWheel.AddTask` | src/db/timewheel/timewheel.go:124-140 | The slots and the location map after an add, with a key in use replaced; it panics if and only if the interval is shorter than a second. |
| `TimeWheel.TimeWheel.RemoveTask` | src/db/timewheel/timewheel.go:154-161 | The element that the map points to goes; an unknown key changes nothing. |
| `TimeWheel.TimeWheel.TickHandler` | src/db/timewheel/timewheel.go:83-122 | What one tick leaves in every slot and in the map, and the jobs it starts, in order. |
| `Deadlines.WheelRefinesBoard` | src/db/timewheel/timewheel.go:83-161 | Every event does to slots and circles what it does to a set of deadlines counted in ticks, and starts the same jobs once each. |
| `Deadlines.OneTickLess` | src/db/timewheel/timewheel.go:83-122 | circle * slotNum + distance falls by exactly one for every task that stays. |
| `Deadlines.TickKeepsInv` | src/db/timewheel/timewheel.go:83-122 | Each key that is not empty keeps one element, and the map points to it. |
| `Deadlines.ExactDeadline` | src/db/timewheel/timewheel.go:83-161 | Over any run of adds, removes and ticks that does not touch its key, a job with d whole intervals of delay starts on tick d + 1 and at no other time. |
| `Deadlines.ExactFromTheStart` | src/db/timewheel/timewheel.go:33-58 | The same for every wheel that any run of events has made of a new one. |
| `Deadlines.CancelledInTime` | src/db/timewheel/timewheel.go:124-161 | A job whose key is removed or replaced before its tick never starts. |
| `QuickList.QuickList.Add` | src/db/struct/list/quicklist.go:25-43 | The value goes to the end once; into an empty list it goes twice. |
| `QuickList.QuickList.Find` | src/db/struct/list/quicklist.go:45-84 | From the front or from the back, page and offset are those of the element of that index; a surplus shifts the back half. |
| `QuickList.QuickList.Get` | src/db/struct/list/quicklist.go:152-155 | The element at that place of the flat sequence. |
| `QuickList.QuickList.Set` | src/db/struct/list/quicklist.go:163-166 | That element only is replaced. |
| `QuickList.QuickList.Insert` | src/db/struct/list/quicklist.go:168-199 | The value goes before that place of the flat sequence, with or without the split of a full page, and pages stay non-empty. |
| `QuickList.QuickList.RemoveLast` | src/db/struct/list/quicklist.go:246-261 | The last element comes out, with its page when it was alone there. |
| `QuickList.Iterator.Next` | src/db/struct/list/quicklist.go:95-110 | It moves to the next place of the flat sequence, across pages, and says whether there is one. |
| `QuickList.Iterator.Prev` | src/db/struct/list/quicklist.go:113-128 | The same backward. |
| `QuickList.Iterator.Remove` | src/db/struct/list/quicklist.go:201-232 | The element leaves the flat sequence and the iterator stands on the next one, unless it was alone on the last page: then it has no page. |
| `QuickListSweep.RemoveByVal` | src/db/struct/list/quicklist.go:280-298 | For every list and count, the empty one and counts that are not positive included: of the elements from the start of the walk on, exactly the first matches within the count go; it panics if and only if every element of the last page matched and was removed while other pages are left. |
| `QuickListSweep.RemoveAllByVal` | src/db/struct/list/quicklist.go:264-276 | All matches from the start of the walk on go, with the exact condition of the same panic. |
| `QuickListSweep.ReverseRemoveByVal` | src/db/struct/list/quicklist.go:300-317 | For every list and count: exactly the last matches within the count go; it panics if and only if the last page, not the only one, held fewer elements than asked for and all matched. |
| `QuickListSweep.KeptHasNoMatch` | src/db/struct/list/quicklist.go:264-276 | What is kept starts with the elements before the walk and holds no match after them. |
| `QuickListSweep.KeptHasOthers` | src/db/struct/list/quicklist.go:264-276 | Every element that is no match is kept, as often as before. |
| `QuickListView.Range` | src/db/struct/list/quicklist.go:355-372 | A block of the flat sequence from the place of the first index on. |
| `QuickListView.SurplusForever` | src/db/struct/list/quicklist.go:25-261 | After a first value, any run of adds, inserts, sets and removals leaves the list with one element more than its size says, and with a page, so that it never counts as empty again. |
| `QuickListView.AddIsAppendIff` | src/db/struct/list/quicklist.go:25-84 | For any surplus, an added value is seen at the end of the old view if and only if the size is even or the element passed over equals the one it hides. |
| `QuickListView.InsertSeenIff` | src/db/struct/list/quicklist.go:168-199 | A value inserted at any index is seen there, and nothing else moves, if and only if a condition on the surplus and the elements around the middle holds. |
| `QuickListView.SetSeen` | src/db/struct/list/quicklist.go:163-166 | A value replaced at an index is always seen there and nowhere else. |
| `QuickListView.RemovalSeenIff` | src/db/struct/list/quicklist.go:234-244 | The exact condition for a removal at any index to be seen as one. |
| `QuickListView.RemoveLastSeenIff` | src/db/struct/list/quicklist.go:246-261 | The same for the removal of the last element. |
| `QuickListView.RangeSeenIff` | src/db/struct/list/quicklist.go:355-372 | A range is what single reads would give if and only if it does not run over the middle, or the elements there are alike. |
| `QuickListView.FourPushes` | src/db/struct/list/quicklist.go:25-84 | Four values pushed into a new list: the second one cannot be read, the first one is read twice. |
| `QuickListView.HeadPushIsLost` | src/db/struct/list/quicklist.go:168-199 | A value pushed at the head of a list of one cannot be read. |
| `Sorting.SortDistinct` | src/consistenthash/consistenthash.go:46 | Sorting keys without repetition gives a strictly increasing sequence. |
| `ConsistentHash.Map.Add` | src/consistenthash/consistenthash.go:36-47 | Keys and owners after adding any names, repeated or empty ones included. |
| `ConsistentHash.Map.Search` | src/consistenthash/consistenthash.go:58-60 | The first key that is at least the hash, or the end. |
| `ConsistentHash.Map.Get` | src/consistenthash/consistenthash.go:50-66 | The owner of the clockwise successor, with wrap-around; nothing on an empty ring. Whatever was added, unnamed nodes included. |
| `ConsistentHash.AddKeepsValid` | src/consistenthash/consistenthash.go:36-47 | Adding named nodes keeps the keys strictly sorted and equal to the domain of the owners, collisions or not. |
| `ConsistentHash.AddKeepsUsable` | src/consistenthash/consistenthash.go:36-47 | Adding any names, unnamed ones included, keeps the keys sorted and equal to the domain of the owners, which is what Get needs. |
| `ConsistentHash.UnnamedNodeBreaksTheRing` | src/consistenthash/consistenthash.go:39-43 | An empty name lists its point again every time it is added. |
| `ConsistentHash.OwnerIsFirstClaimer` | src/consistenthash/consistenthash.go:36-47 | Every point belongs to the first name in the list that claims it. |
| `ConsistentHash.SameRingIffSameClaimers` | src/consistenthash/consistenthash.go:36-47 | Two lists build the same ring if and only if each point has the same first claimer in both. |
| `ConsistentHash.SharedPointDependsOnOrder` | src/consistenthash/consistenthash.go:39-43 | For any number of replicas and any further nodes: of two nodes that share a point, the one that is listed first gets it. |
| `ConsistentHash.OrderIrrelevantIffUnshared` | src/consistenthash/consistenthash.go:36-47 | All listings of a set of nodes, in any order and with repetitions, build one ring if and only if no two nodes share a point. |
| `ConsistentHash.MinimalMovement` | src/consistenthash/consistenthash.go:36-66 | One more node, collisions included, leaves each key with its old owner or moves it to the new node. |
| `MultiNode.MultiNodeSchedule.SyncNodeList` | src/schedule/multi_node.go:87-116 | The ring of the scanned names, or an empty ring and the lost state after a failed scan; the jobs are reloaded when a lost state ends. |
| `MultiNode.PagesAreJoined` | src/schedule/multi_node.go:89-106 | The node list holds the keys of all pages up to the one without a cursor, in their order; an error empties it. |
| `MultiNode.MultiNodeSchedule.Executable` | src/schedule/multi_node.go:209-213 | True exactly on the owner of the key. |
| `MultiNode.ExactlyOneExecutor` | src/schedule/multi_node.go:87-116 | Nodes that scan the same set in any order and with any repetition agree: each key is executable on exactly one of them. |
| `MultiNode.TwoExecutors` | src/schedule/multi_node.go:87-116 | With a shared point, two nodes that list themselves first both execute a key that falls on it. |
| `MultiNode.NothingRunsOnAnEmptyRing` | src/schedule/multi_node.go:87-116 | After a failed scan the node runs nothing. |

## Left out

Contracts that say less than one might ask for:

- Watch.WatchIsExact: the counters are stepped atomically, two goroutines that lose one of two increments are not modelled; and EXEC is one step, so that a WATCH between its execution and its counting is outside of the runs.
- Watch.EscapesIffCountedBefore: the equivalence is for one watched key and one write; `WatchHistory.PassesIffAllBefore` is the one for all.
- Transactions.ExecMulti: runs as one step; its batch of locks is in `Serial.Serialises`, where a transaction is one job, and the counting of versions is not.
- Serial.Serialises: a job that would change a key it has not locked for writing may not start, which shuts out RENAME and RENAMENX that move a key and looks at expired keys that are only read (`Jobs.KeepsIff` says exactly when); a job is one read and one write-back, and the watch check of a transaction lies before it.
- SetOptions.SetDoes: durations are positive and such that int64 nanoseconds hold them; the others are in `Database.DB.ExecSet`.
- MultiAnswers.CommittedAnswers: each command finds its own keys alive, and no list has to be written down in an undo log, which panics.
- StringLaws.SetEXLaw: durations that int64 nanoseconds hold, as in GetEXLaw and ExpireLaw.
- StringLaws.MSetNXLaw: keys that have expired are looked at one after the other until one is found; here none has.
- ListLaws.StackAndQueue: about flat lists, as all list commands of the engine here.
- RollbackLists.UndoRestores: a command whose own keys have expired when EXEC starts is left out, and the clock stands still.
- RollbackLists.AllListsRestore: about flat lists, as all list commands of the engine here.
- RollbackLists.MoveRestores: about flat lists too.
- Database.DB.ExecPush: works on the flat sequence; what the surplus of the paged list does to it is `QuickListView`.
- Database.DB.ExecPop: works on the flat sequence, in the same way.
- Database.DB.ExecRPopLPush: works on flat sequences, in the same way.
- Database.DB.ExecLSet: works on the flat sequence, in the same way.
- Database.DB.ExecExpire: a duration or time below one millisecond, which is what a nanosecond overflow can leave, is cut off.
- Database.DB.ExecAppend: a missing key with an empty value gives an empty string, where Go has a nil slice.
- Multi.AbortRestores: one direction only; each single command has the equivalence, and `Multi.BadUndosCancel` shows why the queue has not.
- History.ReplayRebuilds: a command on a key that has already expired when it runs, and a RENAME of a living key with a deadline to itself, are left out; `Restart` shows what the first can come to.
- Restart.ReplaysAtClock: commands on one key; those on several keys need them alive at the replay.
- Replay.LogReplays: exact for keys that are alive when the command runs and at the replay; `Restart.ReplaysAtClock` is about the other clocks.
- History.MultiReplays: the keys of the transaction have not expired when it runs.
- RewriteRuns.RewriteIsTransparent: one direction only; `QuietRewrite` is the equivalence for a rewrite without appends, and a value lost by the dump may be overwritten by a later append.
- Client.RepliesMatch: the messages sent are answerable ones, and the answers come back as one payload; `ExtraReplyShifts` and `LineFeedShifts` show what others do. A closed connection is left out.
- Service.AnsweredOnce: exact when the arguments before the last are harmless; with several that announce lengths it depends on where their bytes end.
- Wire.OneBackIff: leaves out arrays with such arguments before the last, for the same reason.
- RoundTrip.StreamRoundTrip: bodies longer than 2^63 - 3 bytes are excluded.
- QuickList.QuickList.Find: an index out of range, which panics and changes nothing, is excluded, as it is for Get, Set, Insert and `QuickListView.Range`.
- RewriteLosses.QuietRewrite: the dump must be one that the parser reads back, which it is when no value starts with a dollar sign.
- AofFile.FileLoads: one direction; `FileReadsBack` is the equivalence for the messages.
- Database.DB.ExecWithLock: one database has the wheel to itself here. The temporary server of a rewrite uses the same wheel and the same job names, so that loading it replaces or cancels the expire jobs of the live database.
- WatchValues.WatchedIsKept: one direction, since a key may be written and hold the same again.
- MultiNode.MultiNodeSchedule.SyncNodeList: the cursor declared inside the loop hides the outer one, so that every scan starts at 0; a reply that ends the loop is assumed to come.
- TimeWheel.TimeWheel.TickHandler: a tick and its scan are one step; the source scans in a goroutine of its own.

What the repository does beyond the model:

- NaN scores, which no order relation places.
- Hashes and the keys of the database are listed in ascending order; `Marshal.AnyOrderRebuilds` shows that the order of a hash does not matter.
- Command names and option words are folded in ASCII only.
- Sorted-set and set commands at the level of the engine, and the commands that only read other aspects of the same values (MGET, STRLEN, GETRANGE, HMGET, HGETALL, LRANGE, LINDEX, TTL, TYPE, KEYS and the like), which would add easy members.
- LREM, SETRANGE and SETBIT: the last two edit in place bytes that an undo log shares.
- INCRBYFLOAT and HINCRBYFLOAT, random commands, bitmaps, wildcard patterns: library behaviour or randomness.
- Aliasing of dictionaries and lists between the database and replies; values are replaced in the fields of the database.
- More than one database in use; FLUSHDB.
- Times are whole milliseconds: the part of a deadline below one, which printing drops, does not exist here.
- The wheel of a database is the map of its waiting jobs here; `Deadlines` is about the wheel itself.
- Channels, files and sockets are sequences; their capacities, partial reads and errors do not appear.
- MultiRawReply, whose nesting the parser does not read back.
- The span of a header after a panic in insert.
- `src/schedule/timeWheel.go`, a near copy of the modelled wheel; cron parsing, storage, HTTP, plugins, user interface.
