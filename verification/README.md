# A model of the database engine, and what is proved of it

The project models the storage and transaction layers of the engine in Dafny and proves what the layers
above rely on: snapshot isolation of the transaction manager, recovery from a crash at any point, uniqueness
and completeness of an index under concurrent writers, a B+ tree that is a map, a page cache that never shows
stale bytes, table pages that keep their rows, and encodings that keep the order of the values.

Concurrent code is a step machine: a step is one section the code executes under a latch, every other
transaction's step may come in between, and a theorem holds of every run of the machine. Code that
works by updating an object is a class whose methods are proved against a specification function or against
the step machine; a loop in the code is a loop here.

| files | what they model |
|---|---|
| `Base` | bytes, record ids, row versions |
| `Mvcc`, `Snapshot`, `Manager` | transactions: the steps, snapshot isolation, the manager's methods |
| `WalLog`, `WalMachine`, `WalCodec`, `WalFile` | the write-ahead log: its records, the file and the checkpoint as a machine that may crash, the bytes, the log object |
| `Recovery`, `RecoveryProgress` | the whole system: transactions, dirty pages, log, crash, roll-back, reopening; and that it can always get there |
| `UniqueIndex`, `UniqueKeys`, `UniqueCheck`, `FailedCommit` | a secondary index under concurrent transactions, when its keys are unique, and what a check refuses |
| `BPlusLayout` to `BPlusStore`, `LeafView` | the B+ tree: byte thresholds, leaves with tombstones, trees, pages, how full they stay, latched paths, scans, and the in-place leaf view |
| `ByteOrder`, `KeyEncoding`, `TableIndex` | order-preserving keys, and an index of a table over them |
| `ArcLists`, `ArcReplacer`, `BufferPool` | the ARC replacer as intrusive lists in an arena, and the page cache |
| `TablePage` | slotted table pages |
| `Calendar`, `Timestamp`, `TimestampText` | dates, timestamps as text, and which texts are timestamps |

## Model

| member | source | states |
|---|---|---|
| `Snapshot.SnapshotIsolation` | src/concurrency/mvcc.rs:53-81 | In every run, a transaction reads at a record it has not written exactly the row of the snapshot it began with, whatever commits, aborts, failures and garbage collection came in between, and at a record it has written its own last image. The snapshot is that of a history of commits that knows nothing of slots, stamps or undo chains. |
| `Snapshot.RepeatableReads` | src/concurrency/mvcc.rs:63-81 | Two reads of a record by one transaction, any steps apart, give the same row unless the transaction writes it. |
| `Snapshot.NoLostUpdates` | src/concurrency/mvcc.rs:124-131 | If two commits wrote the same record, the later one began at or after the earlier one's timestamp: first committer wins. |
| `Snapshot.AbortRestores` | src/concurrency/transaction_manager.rs:366-423 | Whatever happens between a transaction's first write of a record and the abort that restores it, the slot gets back exactly the version it had, over a chain that garbage collection alone has shortened. |
| `Snapshot.OutcomesNeverStuck` | src/concurrency/transaction_manager.rs:338-352 | In no run does a commit, its undoing or an abort meet a stamp it does not expect or an undo chain that is missing. |
| `Snapshot.RunKeepsInv` | src/concurrency/transaction_manager.rs:126-505 | Every step keeps the invariant that ties slots, undo chains, write sets, registered snapshots and watermarks to the history of commits. |
| `Manager.TransactionManager.Begin` | src/concurrency/transaction_manager.rs:165-171 | A new running transaction whose snapshot is the last published commit; one step of the machine. |
| `Manager.TransactionManager.VisibleVersion` | src/concurrency/mvcc.rs:63-81 | The walk down the undo chain returns what the step machine says the transaction sees. |
| `Manager.TransactionManager.WriteVersion` | src/concurrency/mvcc.rs:139-178 | A write is refused as missing exactly when there is no slot, as a conflict exactly when another transaction has written the newest version or committed it after the snapshot, and as deleted exactly for a deleted row otherwise; else it stores the image and pushes the replaced version once per transaction. |
| `Manager.TransactionManager.Commit` | src/concurrency/transaction_manager.rs:211-251 | A commit succeeds exactly for a running transaction none of whose pages fail. Then every slot of the write set carries the new timestamp and it is published; otherwise every slot is as it was, the error says why and a running transaction can only abort. The steps taken are a run of the machine. |
| `Manager.TransactionManager.Abort` | src/concurrency/transaction_manager.rs:366-423 | The records restored before a page write fails have the version and chain from before the transaction, the rest is kept for another try, and nothing else moves; it succeeds exactly when the transaction is active and no page of its write set fails. |
| `Manager.TransactionManager.GarbageCollect` | src/concurrency/transaction_manager.rs:474-505 | Chains are cut down to the oldest version any snapshot can still see, and nothing else changes. |
| `WalMachine.CrashRecovers` | src/wal.rs:134-244 | In every run of the log, whatever unsynced bytes a crash keeps, the files recover exactly the pages and unfinished transactions logged up to one durable point, no older than the last acknowledged one; crashes inside a checkpoint or inside a recovery included. |
| `WalMachine.CheckpointInvisible` | src/wal.rs:306-340 | At every step of a checkpoint, the log it replaces and the log it writes both recover everything logged so far. |
| `WalMachine.ReadsNewest` | src/wal.rs:248-267 | Between crashes a page reads back as its newest logged image, else as the data file had it. |
| `WalCodec.RecordRoundTrip` | src/wal.rs:419-504 | A record's bytes read back as the record and its length, whatever follows them. |
| `WalCodec.ReadsOnlyWritten` | src/wal.rs:454-504 | A record is read only from the bytes it is written as, sealed with their checksum; the one byte that may differ is the flag of an undo record, read as whether it is zero. |
| `WalCodec.CutFile` | src/wal.rs:199-244 | A log file cut at any byte replays exactly the whole records before the last whole durable point; an empty file is an empty log and a torn header is refused. |
| `WalCodec.WholeRecordsExact` | src/wal.rs:454-504 | The records counted as whole take no more than the bytes kept, and one more would. |
| `WalCodec.Replay` | src/wal.rs:199-244 | The replay loop refuses what is not a log, and else returns the transaction records up to the last durable point and, for each page logged by then, the offset of its newest image. |
| `WalCodec.CollectUnfinished` | src/wal.rs:134-164 | One pass over the records gives the transactions still open and the first undo image of each record they wrote. |
| `WalFile.MakeDurable` | src/wal.rs:286-300 | A durable point succeeds exactly when the log is not broken and its sync works, and then a crash recovers everything logged so far; a checkpoint asked for with it leaves every page in the data file and none in the log unless a part of it fails, and one that fails does not undo the durable point. |
| `WalFile.Checkpoint` | src/wal.rs:306-340 | A checkpoint succeeds exactly when no fault hits one of its parts, and then every page logged is in the data file and the log holds no page. Whatever part fails, the log goes on from a state the machine can reach, with the same records logged, and takes no more records exactly when the first fault is a failed sync. |
| `WalFile.Reopen` | src/wal.rs:134-195 | Opening what a crash left succeeds exactly when no fault hits it. It gives back a prefix of what was logged that ends with a durable point and includes every acknowledged one, with its pages in the data file and the log empty. |
| `WalFile.Log.LogImage` | src/wal.rs:248-260 | A page image is logged unless the log is broken, and reads of the page return it. |
| `WalFile.Log.OpenAgain` | src/wal.rs:134-195 | The same of the log object after a crash. |
| `Recovery.CrashRestores` | src/database.rs:332-363 | In every run of the whole system, after a crash at any point every record recovers to exactly the rows committed at one durable point, no older than the last acknowledged one. |
| `Recovery.RollbackSurvivesCrash` | src/database.rs:365-386 | A crash in the middle of rolling back finds the same unfinished transactions and the same promised rows again. |
| `Recovery.OpensAsPromised` | src/database.rs:332-386 | The manager that starts after recovery is over exactly the promised rows, with no transaction id left in a slot and ids above every unfinished one. |
| `RecoveryProgress.RollbackFinishes` | src/database.rs:332-386 | In every run, a database that is rolling back over a log that works can finish its checkpoint and its rollback without a crash, and open. |
| `RecoveryProgress.CanAlwaysReopen` | src/database.rs:332-386 | From every reachable state, a broken log included, some continuation opens the database. |
| `Recovery.DurableHoldsEnded` | src/database.rs:463-486 | A durable point holds every transaction that ended before it, wholly, and nothing of one that has not. |
| `RecoveryProgress.CanMakeDurable` | src/database.rs:463-486 | From every running state with no commit or abort under way and a log that works, a durable point of exactly the commits so far can be made. |
| `Recovery.RollBackRecovered` | src/concurrency/transaction_manager.rs:289-335 | The roll-back loop gives every slot an unfinished transaction left behind its undo image, or makes it a deletion at 0, leaves the others alone and counts them. |
| `UniqueIndex.LookupIsFilteredScan` | src/concurrency/mvcc.rs:97-110 | In every run, failed commits included, a lookup through the index finds exactly the visible rows that hold the key, although entries are never removed and rows move. |
| `UniqueIndex.RunInv` | src/concurrency/mvcc.rs:229-362 | Every step keeps each row a snapshot can show, and each row a transaction may still commit, filed under its key. |
| `UniqueKeys.KeysAreUnique` | src/concurrency/mvcc.rs:194-226 | In every run whose failed commits are harmless, no two rows hold one key at any commit timestamp, although a check reads the rows behind a key one by one while others write, commit and abort. |
| `UniqueKeys.NoFailureIsHarmless` | src/concurrency/transaction_manager.rs:211-251 | A run in which no commit fails while stamping is harmless. |
| `UniqueCheck.CheckRefusesIff` | src/concurrency/mvcc.rs:204-224 | In every run, a check that reads one more row refuses exactly when another transaction wrote or later committed its newest version and it has the key or is pending, or it is live for the transaction and has the key; and then the transaction is tainted. Else the row is ticked off and nothing changes. |
| `UniqueCheck.CheckReads` | src/concurrency/mvcc.rs:201-207 | A check is for the key of the row to be filed and reads every row filed under it but that row. |
| `UniqueCheck.CheckPasses` | src/concurrency/mvcc.rs:194-226 | In every run, a check at the current snapshot goes through when the transaction sees no other row with the key and no other active transaction has written a row filed under it. |
| `UniqueCheck.CheckStops` | src/concurrency/mvcc.rs:194-226 | With a row in the way, no order of reading ends the check. |
| `UniqueCheck.WriteFilesIff` | src/concurrency/mvcc.rs:286-295 | An update files its row again exactly when it goes through and the row gets another key. |
| `FailedCommit.FailureHarmlessIff` | src/concurrency/transaction_manager.rs:228-246 | While no statement is under way, a commit that fails while stamping can lead to a key held twice if and only if another transaction claims a key that a row stamped so far still has as committed. |
| `FailedCommit.FailureBreaks` | src/concurrency/transaction_manager.rs:228-246 | Where the condition does not hold, the run goes on, by the undoing and the other commit alone, to two rows with the key. |
| `FailedCommit.FinishBreaks` | src/concurrency/mvcc.rs:194-226 | The same for a check that has passed over a row which still has the key as committed, once its statement is through. |
| `FailedCommit.FailedCommitBreaksUniqueness` | src/concurrency/mvcc.rs:194-226 | A run from a table with one row to two committed rows with one key. |
| `BPlusStore.Index.Insert` | src/index/b_plus_tree.rs:836-851 | Inserting is adding to a map: a key too long or already there is refused, and else the map has exactly the new entry. With keys of one length every page but the root stays at least minimally full. |
| `BPlusStore.Index.Remove` | src/index/b_plus_tree.rs:853-870 | Removing is removing from the map; with keys of one length every page but the root stays at least minimally full. |
| `BPlusStore.Index.Search` | src/index/b_plus_tree.rs:872-886 | Searching is looking up in the map. |
| `BPlusStore.Index.Scan` | src/index/b_plus_tree.rs:888-921 | A scan returns exactly the entries between its bounds, in key order. |
| `BPlusStore.InsertEntry` | src/index/b_plus_tree.rs:374-387 | Inserting into the leaf alone, or with the path latched when that has no room, keeps every page well-formed and adds one entry. |
| `BPlusIndex.LatchPathToLeaf` | src/index/b_plus_tree.rs:269-286 | The descent reaches the leaf for the key, and the latches it keeps are those of the pages from the last safe one down, and of no other: every page above the leaf that may have to change. |
| `BPlusIndex.InsertPessimistic` | src/index/b_plus_tree.rs:288-370 | An insert that splits pages up to the root gives a well-formed tree with exactly the new row, stored under distinct page ids; no error about the tree's structure can come up. |
| `BPlusRemove.RemovePessimistic` | src/index/b_plus_tree.rs:389-434 | The same for a removal that borrows, merges and collapses the root. |
| `BPlusRemove.RebalanceChild` | src/index/b_plus_tree.rs:478-591 | Rebalancing an underfull child keeps the rows and the order, needs no page but the child's sibling and parent, and leaves the child as it is exactly when it has no sibling or the parent has no room for the separator that borrowing needs. |
| `BPlusFull.PagesFull` | src/index/b_plus_tree.rs:1841-1846 | In a tree of keys of one length, as inserting and removing keep it, every page but the root has at least the fewest bytes a page may hold. |
| `BPlusFull.PairsEven` | src/index/b_plus_tree.rs:478-591 | A page at most one entry short of the minimum, paired with a full sibling, gives one full page or two, for any number of tombstones. |
| `BPlusFull.MergedHalf` | src/index/b_plus_page.rs:844-860 | Merging two leaves keeps at least half of their entries, however many tombstones it purges. |
| `BPlusFull.BorrowKeepsTombstones` | src/index/b_plus_tree.rs:478-511 | While one leaf has room for the tombstones of both, borrowing keeps every entry and every tombstone, in order. |
| `BPlusFull.MergeKeepsTombstones` | src/index/b_plus_page.rs:844-860 | The same of a merge. |
| `BPlusMap.ChainIsInOrder` | src/index/b_plus_tree.rs:1868-1962 | Following the leaf chain from the first leaf visits the leaves of the tree in order. |
| `BPlusScan.Advance` | src/index/b_plus_tree.rs:958-1017 | The iterator returns the next live row up to its bound, and never meets a cycle in the chain. |
| `BPlusLayout.BalancedSplit` | src/index/b_plus_page.rs:206-221 | The loop finds the first split with the least difference in bytes. |
| `BPlusLayout.SplitFits` | src/index/b_plus_page.rs:170-221 | Both halves of an overfull page fit in a page and are at least minimally full, for keys of any lengths. |
| `BPlusLayout.MergeFits` | src/index/b_plus_page.rs:176-190 | An underfull page and a sibling that cannot lend fit in one page. |
| `BPlusLeaf.InsertRows` | src/index/b_plus_page.rs:781-802 | A leaf takes a key exactly when no live entry has it, reviving a tombstone in place, and its live rows gain exactly the entry. |
| `BPlusLeaf.RemoveOk` | src/index/b_plus_page.rs:888-929 | Removing a key loses exactly its row, by a tombstone while there is room for one and else after purging the oldest. |
| `BPlusLeaf.AbsorbedOk` | src/index/b_plus_page.rs:844-860 | Merging two leaves keeps all live rows in order and purges the oldest tombstones that do not fit. |
| `BPlusLeaf.BorrowOk` | src/index/b_plus_tree.rs:478-539 | Borrowing entry by entry keeps the rows in order, and ends with a leaf that is full enough or a sibling that can lend no more. |
| `LeafView.LeafPageView.RewriteTombstones` | src/index/page_view.rs:406-421 | The loop over the tombstone array leaves the slots that are kept, renumbered, in order. |
| `LeafView.LeafPageView.Insert` | src/index/page_view.rs:423-450 | Inserting in place does to the entries and tombstones what the decoded leaf does. |
| `LeafView.LeafPageView.RemoveKey` | src/index/page_view.rs:466-501 | The same for removing in place. |
| `KeyEncoding.KeyOrder` | src/catalog/index_schema.rs:176-187 | Encoded keys of several columns compare as their values do, column by column, and no key is a proper prefix of another. |
| `KeyEncoding.EncodeOrder` | src/catalog/mod.rs:904-919 | The same of one value of each type, signed integers, floats and text included. |
| `KeyEncoding.FloatOrder` | src/catalog/mod.rs:937-955 | The encoded bits of two doubles are in the order of the doubles, all NaNs equal and greatest, the two zeros equal. |
| `KeyEncoding.Utf8Order` | src/catalog/mod.rs:916-935 | The bytes of two texts compare as their characters do, and different texts have different bytes. |
| `KeyEncoding.KeysFit` | src/catalog/mod.rs:995-1003 | No key is longer than the widths of its columns add up to. |
| `KeyEncoding.WidthsReached` | src/catalog/mod.rs:995-1003 | And for any columns there is a key of that length, so no shorter bound would do. |
| `KeyEncoding.BracketIsKey` | src/catalog/index_schema.rs:248-265 | The entries between a key's smallest and largest are exactly the entries of the key. |
| `KeyEncoding.EncodeKey` | src/catalog/index_schema.rs:176-187 | The loop over the columns builds that encoding. |
| `TableIndex.Insert` | src/catalog/index_schema.rs:199-215 | A record id is filed under its key, twice as once, and a key is refused only when it is too long. |
| `TableIndex.EntriesForKey` | src/catalog/index_schema.rs:234-240 | The record ids filed under exactly the key, in record id order. |
| `ArcReplacer.RecordAccess` | src/replacer.rs:161-295 | An access puts the page at the front of the list ARC gives it and changes what no other frame holds. The target moves by ARC's rule: up on a page remembered from the recent list, down on one from the frequent list, by the ratio of the two lists rounded down but at least one, within 0 and the capacity. |
| `ArcReplacer.BeginEviction` | src/replacer.rs:307-364 | The victim is the least recent evictable page of the recent list when that has reached its target and has one, and of the frequent list when the recent list is below its target; if there is none there, of the other. There is none exactly when nothing is evictable. |
| `ArcReplacer.UndoRestores` | src/replacer.rs:366-384 | An eviction that is begun and dropped leaves the replacer exactly as it was, links and list ends included. |
| `ArcReplacer.FramesAreResidents` | src/replacer.rs:386-400 | Frames and resident pages lead to each other, one to one. |
| `ArcReplacer.RemovePage` | src/replacer.rs:137-154 | A removed page is in no list, and the frame it held is returned. |
| `ArcReplacer.MarkedInv` | src/replacer.rs:115-134 | Marking a frame evictable or not changes that frame alone, and the count of evictable frames with it. |
| `BufferPool.Fetch` | src/buffer_pool.rs:368-489 | What a guard shows is the page's last contents, wherever they were. A fetch takes exactly one pin, of the frame it returns, and a fetch that fails takes none; it fails only for an I/O error or when every frame is pinned. |
| `BufferPool.Visit` | src/buffer_pool.rs:148-154 | A guard that is taken and dropped leaves every pin and every latch as it was. |
| `BufferPool.GetFreeFrame` | src/buffer_pool.rs:524-590 | A frame is reserved with its page safe on disk, or nothing changes; the frame is a free one or the replacer's victim, there is none exactly when every frame is pinned, and the error of a pinned victim cannot come up. |
| `BufferPool.RestoreFrame` | src/buffer_pool.rs:592-617 | A reservation given back leaves the page in its frame again, or the frame free. |
| `BufferPool.HitNeverRetries` | src/buffer_pool.rs:378-389 | Between the two sections of a cache hit the frame keeps its page, so the retry is never taken. |
| `BufferPool.LatchCached` | src/buffer_pool.rs:383-395 | The second section gives a guard exactly when the frame still has the page, and else gives the pin back. |
| `BufferPool.NewPage` | src/buffer_pool.rs:297-325 | A new page gets the lowest deleted id, else a fresh one, and no id of a live page; its frame has one pin, and no other pin changes. |
| `BufferPool.DeletePage` | src/buffer_pool.rs:329-356 | A page that nobody pins is gone from cache and disk and its id is free; a pinned or unknown page changes nothing. |
| `BufferPool.ReleasePin` | src/buffer_pool.rs:619-630 | One pin less, and the last makes the frame evictable. |
| `BufferPool.FlushFrame` | src/buffer_pool.rs:717-724 | Whatever frame the lookup gave, the page's contents are on disk afterwards, or nothing changed and the error says why. |
| `BufferPool.FlushPage` | src/buffer_pool.rs:710-725 | Fails only for a page that is not cached or a write that fails: the frame the page table names always has the page. |
| `BufferPool.FlushAll` | src/buffer_pool.rs:687-708 | The dirty frames are written in order up to the first write that fails, and counted; when none fails and the sync works the disk holds the contents of every page. |
| `BufferPool.Manager.Open` | src/buffer_pool.rs:368-450 | The same of the pool object, pins included. |
| `TablePage.InsertedOk` | src/table_page.rs:315-345 | An insert adds a slot with the tuple and as much room as it takes, changes no other slot's tuple, metadata or capacity, and writes nothing over the directory. |
| `TablePage.UpdatedOk` | src/table_page.rs:400-453 | An update fails exactly for a missing slot or a tuple there is no room for even after compaction, says which, and else changes its slot alone, whose room grows to the tuple and never shrinks. |
| `TablePage.RoomIsExact` | src/table_page.rs:428-451 | The room an update may use is all there is: no page with the same room for every other slot gives this one more. |
| `TablePage.CompactedOk` | src/table_page.rs:469-503 | Packing keeps every other tuple and leaves all the room there is. |
| `TablePage.CapacityNeverShrinks` | src/table_page.rs:400-426 | Over any run of operations the page stays well-formed and no slot's capacity shrinks. |
| `TablePage.EarlierImageFits` | src/table_page.rs:400-426 | So an earlier image of a tuple can always be written back, as an abort does. |
| `TablePage.SlottedPage.InsertTuple` | src/table_page.rs:315-345 | An insert into the byte buffer succeeds exactly when the directory with one more entry and the tuple fit below the used space, and then does that. |
| `TablePage.SlottedPage.UpdateInPlace` | src/table_page.rs:400-490 | The update in the byte buffer does what `UpdatedOk` says, its errors included. |
| `TablePage.SlottedPage.CompactWithout` | src/table_page.rs:469-503 | The copying loop packs the regions as the specification says. |
| `Calendar.DateRoundTrip` | src/catalog/timestamp.rs:113-144 | Every valid date comes back from its day count. |
| `Calendar.DaysRoundTrip` | src/catalog/timestamp.rs:113-144 | Every day count is that of a valid date. |
| `Calendar.DateOrder` | src/catalog/timestamp.rs:113-122 | Dates are in the order of their day counts. |
| `Timestamp.ParseUndoesFormat` | src/catalog/timestamp.rs:35-168 | Parsing what was printed gives the same microseconds exactly in years 0000 to 9999, and is refused in any other year. |
| `TimestampText.ParseExact` | src/catalog/timestamp.rs:34-49 | Every text: it is read exactly when, spaces around it apart, it is a day of the calendar alone or followed by a space or `T` and a time of day, and as the microseconds that says. |
| `TimestampText.DateExact` | src/catalog/timestamp.rs:51-63 | A date is exactly `YYYY-MM-DD` in digits that names a day of the calendar. |
| `TimestampText.TimeExact` | src/catalog/timestamp.rs:65-92 | A time of day is exactly `HH:MM:SS` in range with no fraction or one to six digits of it. |
| `TimestampText.FormatCanonical` | src/catalog/timestamp.rs:145-163 | Every timestamp of the years 0000 to 9999 is printed in canonical form: one space, and a fraction only where there is one, without trailing zeros. |
| `TimestampText.FormatUndoesParse` | src/catalog/timestamp.rs:35-163 | Every canonical text is printed again for the timestamp it is read as, so each has one canonical text. |

## Findings

- Uniqueness of an index does not hold of every run. `check_unique` (src/concurrency/mvcc.rs:194-226) passes
  over a row that a commit in progress has stamped without the key. If that commit then fails on a later slot, it
  puts the old stamps back (src/concurrency/transaction_manager.rs:228-246), the row has its old key again, and the
  transaction that took the key in between commits a second row with it. `FailedCommit.FailedCommitBreaksUniqueness`
  is such a run.
- When it does hold: `UniqueKeys.Harmless` is the condition on each step. A commit may fail only where no other
  transaction claims, and no check in progress has passed over, a key that a row stamped so far still has as
  committed; and until such a row has its old stamp back, no check for that key may read it.
  `UniqueKeys.KeysAreUnique` shows that this is enough, for every run. `FailedCommit.FailureHarmlessIff` shows that
  for a failing commit it is also needed, whenever no statement is under way. With a statement under way
  `FailedCommit.FailureBreaks` and `FailedCommit.FinishBreaks` show it needed once the statement goes through. It
  may not go through: the rest of its check can refuse it, and then the failure has done no harm.
- With keys of varied lengths a page can stay below the minimum. `BPlusRemove.RebalanceChild` says exactly when: it has
  no sibling, or its parent has no room for the separator that borrowing would need. With keys of one length that never
  comes up (`BPlusFull.PagesFull`).
- A timestamp outside the years 0000 to 9999 is printed in a form that is refused when read
  (`Timestamp.ParseUndoesFormat`).

## Left out

- SQL: parsing, planning and executing statements, and sessions.
- The catalog's own pages and the allocation of pages to tables: the metadata a checkpoint writes is one page here.
- Heaps of several pages: a record id names a slot, and which page an insert goes to is the caller's choice.
- The bytes of B+ tree pages: a page is a decoded node or leaf. The slotted area of a node and its codec are not modelled.
- Concurrency inside the B+ tree: the latches an operation keeps are tracked, but operations do not overlap, and a scan meets no writer.
- TablePage.SlottedPage.UpdateInPlace: the fields of the slot directory are values beside the buffer, not bytes in it. The contract says that no byte the header and the directory take is written by a tuple.
- The error paths for damaged pages, except where a loop in the code depends on them: they cannot be reached from pages the code wrote.
- The checksum is any function of the bytes: that it differs for a record whose bytes were changed is not stated. What is read is always sealed with its checksum (`WalCodec.ReadsOnlyWritten`).
- An append that fails writes nothing, and taking back the stamps of a failed commit succeeds.
- A log whose checkpoint failed in a sync takes no more records here. The code still keeps them in memory, from where they never reach the file.
- The commit clock stays below 2 to the power 62, where transaction ids begin.
- Undo chains are sequences, and the map of snapshots in use is a multiset. The garbage collector's drop order is not modelled.
- Deadlock detection, logging, statistics and the disk scheduler's threads.
