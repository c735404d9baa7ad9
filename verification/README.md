# Node core, verified

A Dafny model of the data structures and codecs at the core of the BLOCX node: the peer address manager, the UTXO cache,
the script-check queue, the cuckoo signature cache, the rolling bloom filter, 256-bit arithmetic and compact targets, the
block index and chain, the key-value transaction overlay, compact-block reconstruction, and the Bech32 and Base58 codecs.
Objects that the program updates in place are classes with the program's fields; loops are loops; what they compute is
stated against plain mathematical definitions (finite maps, sets, integers, sequences), and the lemmas are about those.

`dafny verify dfyconfig.toml` checks everything. No file needs another project.

## Components

- **Address manager** (`addrman_model`, `addrman_steps`, `addrman`, `addrman_runs`, `addrman_clear`, `addrman_laws`,
  `addrman_serial`).
  `AddrMan.Sound` says that random order and entries are inverse bijections, counters are exact, a new entry's reference
  count (1 to 8) is the number of slots that hold it, a tried entry sits in exactly its own hashed slot, and the index by
  address is exact; `AddrMan.Valid` adds that every live collision competes for a filled slot. Every operation keeps both,
  except that Clear keeps the collisions. These are the structural clauses of Check_, its address lookup by key instead of
  with the port (see below); its clauses about times are the separate `TimesOk`, and that the key is not null is not
  modelled. Serialize and Unserialize are modelled over records, for any stream.
- **UTXO cache** (`coins_model`, `coins`). A stack of caches of any depth over a database. Each layer has a view, the plain
  map a reader sees, and a best block, its own or the first one below; every operation is proved to change the views and
  best blocks of all layers as an operation on plain maps and numbers would, and any run of operations that keeps its
  callers' promises refines a run over those.
- **Check queue** (`checkqueue`). A state machine over the atomic steps of one master and any number of workers, with
  pending notifications and wake-ups nobody asked for. Safety for every interleaving, no lost wake-up, and a bound on every
  schedule by a descending potential.
- **Cuckoo cache** (`cuckoo_model`, `cuckoo`) and **rolling bloom filter** (`bloom`), with their packed flag and
  generation bits.
- **Arithmetic** (`numbers`, `arith_model`, `arith_shift`, `arith`, `compact`). Limb-wise arithmetic of any width against
  integers, compact targets, block work.
- **Block index and chain** (`chain_skips`, `chain`), **database transactions** (`dbtransaction`, `evodb`), **compact
  blocks** (`compactblock_model`, `compactblock`).
- **Bech32** (`bech32_model`, `bech32_field`, `bech32_bch`, `bech32_search`, `bech32_logs`, `bech32_four`,
  `bech32_charset`, `bech32`, `bech32_code`). Three errors are detected because the generator has three consecutive roots.
  A fourth within 89 places is detected because four terms that cancel at these roots tie their places together modulo 33,
  and a search through all places finds no four that are tied. **Base58** (`radix`, `base58_sizes`, `base58_model`,
  `base58`).

## What the code does that its comments or a caller might not expect

- Unserialize files every address with its port (src/addrman.h:454, 472), but Find, Create and Delete use port zero when
  ports do not tell entries apart, which is the main network's setting. `AddrSerial.IndexExact` says exactly when the index
  comes out right; `AddrSerial.RoundTrip` shows that nothing else is lost, and that the manager read back can find its
  entries if and only if every address is its own key; `AddrSerial.LostKey` is the smallest failing manager.
- Check_ looks addresses up with their port as well (src/addrman.cpp:450), so on that setting it fails on every entry with a
  port that Create filed, other than entry zero. `AddrRuns.CheckedIndex` has the exact condition.
- Clear restarts ids at zero but leaves the set of pending collisions (src/addrman.h:561-583). Picking one of them can then
  read an empty tried slot and enter a blank entry under the id -1 (src/addrman.cpp:659-662). `AddrClear.SafeClear` and
  `AddrClear.Provoke` show that this can follow exactly if the set was not empty, and `AddrClear.FromNew` is such a run from a
  new manager.
- When AddCoin throws, cachedCoinsUsage has already been reduced (src/coins.cpp:75-81). `CoinsCache.AddCoin` states it.
- Flush with no best block set can move the base's best block back; `CoinCaches.FlushShows` has the exact condition.
- The first element the cuckoo insertion displaces is at location one; the comment at src/cuckoocache.h:421-423 says zero.
  The code is followed. A table never written to reports the default element (`CuckooModel.BlankReports`).
- `45 * size` and `size + 7` are computed in 32 bits (src/cuckoocache.h:348, 60). `CuckooModel.EpochShare` and
  `CuckooCache.WordsCover` give the exact sizes up to which they mean what they should.
- FillBlock that runs out of transactions leaves the slots it passed empty (src/blockencodings.cpp:178-199).
- Division by zero throws after the quotient was zeroed (src/arith_uint256.cpp:83-91).
- DecodeBase58 does not apply its length limit to an empty text (src/base58.cpp:38-85).

## Model

| member | source | states |
|---|---|---|
| AddrManager.AddrMan.constructor | src/addrman.h:585-590 | A new manager is empty, counts from zero and satisfies the whole invariant. |
| AddrManager.AddrMan.Clear | src/addrman.h:561-583 | Everything but the collisions is as in a new manager with the given key, from any state; the collisions fit it exactly if there are none. |
| AddrManager.AddrMan.Find | src/addrman.cpp:76-92 | Finds an id if and only if some entry has the same normalised address, and then that entry. |
| AddrManager.AddrMan.Create | src/addrman.cpp:94-109 | The new entry gets a fresh id, is on neither table yet, and everything else about the state is kept. |
| AddrManager.AddrMan.SwapRandom | src/addrman.cpp:111-129 | Exactly two places of the random order change, entries differ at most in their place, and order and entries stay inverse to each other. |
| AddrManager.AddrMan.Delete | src/addrman.cpp:131-148 | Exactly the given entry and its address key disappear, the counter drops by one, and the invariant survives without the entry. |
| AddrManager.AddrMan.ClearNew | src/addrman.cpp:150-163 | The slot is emptied; its holder loses one reference and is deleted exactly if that was its last; counters stay as exact as they were. |
| AddrManager.AddrMan.DetachFromNew | src/addrman.cpp:167-177 | All new slots of the entry, and no others, are emptied and its reference count is zero, as the assertion says. |
| AddrManager.AddrMan.EvictTried | src/addrman.cpp:183-205 | The holder of a tried slot moves to its own new slot with one reference, whose former holder loses one. |
| AddrManager.AddrMan.MakeTried | src/addrman.cpp:165-211 | The entry leaves all new slots for its tried slot, a former holder goes to its new slot, nothing else moves, and both counters stay exact. |
| AddrManager.AddrMan.FindBucket | src/addrman.cpp:242-258 | The search for a new bucket that holds the entry always succeeds: the bail-out cannot be reached. |
| AddrManager.AddrMan.GoodEntry | src/addrman.cpp:225-281 | What a good report does to the entry found: times reset; promotion; or, when told to test first and the slot is taken, only a remembered collision while fewer than ten are. |
| AddrManager.AddrMan.Good | src/addrman.cpp:213-281 | An address that no entry has exactly changes only the time of the last success; otherwise the good step. Filled tried slots stay filled; both parts of the invariant are kept. |
| AddrSteps.GoodKeepsTried | src/addrman.cpp:213-281 | A good report empties no tried slot, and with test-before-evict it replaces no holder of a tried slot. |
| AddrManager.AddrMan.AddToBucket | src/addrman.cpp:332-352 | The entry takes the slot of its source if that is free or its holder is terrible, or is in several buckets while the entry is in none; otherwise it is deleted exactly if it has no slot. |
| AddrManager.AddrMan.PassesTests | src/addrman.cpp:307-324 | A known address may get another slot exactly if the time reported is newer than its own, it is not tried, its references are not eight, and the draw is zero modulo two to their number. |
| AddrManager.AddrMan.AddKnown | src/addrman.cpp:292-352 | What adding a known address does to its entry and the new table; the invariant and valid times are kept. |
| AddrManager.AddrMan.AddFresh | src/addrman.cpp:325-352 | An unknown address becomes an entry with penalised time and takes or fails to take its slot. |
| AddrManager.AddrMan.Add | src/addrman.cpp:283-354 | Unroutable addresses change nothing; an unknown one is added and reported as new; a known one is refreshed and not reported. |
| AddrManager.AddrMan.Attempt | src/addrman.cpp:356-376 | Only the entry with exactly this address changes, as a counted attempt. |
| AddrManager.AddrMan.Connected | src/addrman.cpp:524-542 | Only that entry changes: its time, if more than twenty minutes old. |
| AddrManager.AddrMan.SetServices | src/addrman.cpp:544-560 | Only that entry changes, in its services. |
| AddrManager.AddrMan.GetAddr | src/addrman.cpp:503-522 | At most 2500 and at most 23 percent of the entries, each at most once, none terrible; all that are not terrible if neither limit is reached; only the random order changes. |
| AddrManager.AddrMan.ResolveOne | src/addrman.cpp:581-636 | One turn. The collision is kept exactly if it is live, its slot is held by an entry without a success in the last four hours, and that entry was tried within the last minute, or not for four hours while the collision's own last success is at most forty minutes old. It takes its slot exactly if that is free, or the holder had no such success and was tried between one minute and four hours ago, or is not due another try and the collision is older than forty minutes; otherwise nothing changes. |
| AddrManager.AddrMan.ResolveCollisions | src/addrman.cpp:579-636 | Every collision has one turn, in ascending order, each on the state the last one left, with that fate in seconds; exactly those postponed at their turn remain; no tried slot is emptied and no address changes. |
| AddrSteps.TurnFate | src/addrman.cpp:596-629 | The verdict on a holder, as computed, decides by these times alone who has the slot after the turn. |
| AddrManager.AddrMan.SelectTriedCollision | src/addrman.cpp:638-663 | Of the collision drawn, drops it if dead, else returns the holder of its slot; if that is empty, enters a blank entry and the invariant is lost. That never happens while live collisions compete for filled slots. |
| AddrRuns.Step | src/addrman.cpp:94-663 | Every operation has its effect on entries, tables, collisions and times, keeps the invariant and every filled tried slot; after a Clear it holds exactly if no collision was remembered; the only step that can go wrong is the drawing of a collision that a Clear left behind. |
| AddrRuns.Run | src/addrman.cpp:426-500 | In any sequence of operations from a new manager each has its effect on the state the last one left. Without Clear the invariant holds after all of them, with Check_'s clauses about times, and no tried slot was ever emptied; with Clear, all but the clause about collisions holds until a step goes wrong. |
| AddrRuns.Continue | src/addrman.cpp:426-500 | The same from any state. |
| AddrRuns.CheckedIndex | src/addrman.cpp:450-453 | Check_ finds every address with its port in the index if and only if every address is its own key; its test passes if and only if every address but that of entry zero is. |
| AddrRuns.SizeIsSum | src/addrman.cpp:426-500 | The random order has as many entries as the two counters say together. |
| AddrRuns.GroupBound | src/addrman.cpp:14-22 | The tried entries of one network group occupy at most eight buckets. |
| AddrLaws.SourceBound | src/addrman.cpp:24-33 | Whatever the sources of one network group announce goes to at most 64 of the 1024 new buckets. |
| AddrLaws.SameKey | src/addrman.cpp:76-92 | Two addresses share a key exactly if they are the same machine and, where ports count, the same port. |
| AddrLaws.SlotsMean | src/addrman.cpp:14-39 | The announcer chooses the new bucket and the address its position, one of 64; in the tried table the address chooses both. |
| AddrLaws.TerribleMeans | src/addrman.cpp:41-59 | When an entry is terrible, in seconds and counts. |
| AddrLaws.BlankMeans | src/addrman.h:30-74 | An entry about nothing has a date, and no connection, attempt, reference or place. |
| AddrLaws.RefreshedMeans | src/addrman.cpp:294-306 | A further announcement adds services and moves the time exactly if it is newer by more than an hour, or a day for an address that seems offline, to the announced time less the penalty. |
| AddrLaws.TimeMovesOn | src/addrman.cpp:294-306 | No announcement turns an entry's time back or makes it newer than announced. |
| AddrLaws.MultiplyMeans | src/addrman.cpp:307-324 | Another reference is drawn one time in 2^n, n being the references there are, and never beyond eight or on the tried table. |
| AddrLaws.BucketedMeans | src/addrman.cpp:332-352 | Who takes a new slot and who loses it, with the references both end up with. |
| AddrLaws.FreshMeans | src/addrman.cpp:325-352 | Every field of a new entry, and that it holds the slot its source chooses or is gone again. |
| AddrLaws.KnownMeans | src/addrman.cpp:292-352 | A known entry gains at most the slot that the announcing source chooses. |
| AddrLaws.AttemptMeans | src/addrman.cpp:356-376 | An attempt counts as a failure at most once between two good connections. |
| AddrLaws.GoodMeans | src/addrman.cpp:213-281 | Every field after a good connection; who is tried after it; a collision is remembered exactly if the entry is not and fewer than ten are. |
| AddrLaws.PromotedMeans | src/addrman.cpp:165-211 | The promoted entry has no new slot left, and the one it displaces is on the slot its own source chooses, with one reference. |
| AddrClear.SafeClear | src/addrman.h:561-583 | If no collision was remembered, whatever follows a Clear is a run from a new manager with the given key, and the invariant holds. |
| AddrClear.Alternate | src/addrman.cpp:283-354 | Two addresses that share a new slot, announced in turn without a time, make any wanted id live in an empty manager. |
| AddrClear.Provoke | src/addrman.h:561-583 | With more routable addresses than new slots, a Clear, announcements and one drawing go wrong if and only if a collision was remembered. |
| AddrClear.FromNew | src/addrman.cpp:638-663 | For all hash functions and keys, and more routable addresses than new slots, a run from a new manager reaches a collision, clears, and enters the blank entry. |
| AddrSerial.Serialize | src/addrman.h:337-395 | The stream lists new and tried entries by ascending id, each record with the six stored fields of its entry, and every filled new slot by bucket, under the numbering of the new entries; format 3, a key of 32 bytes, 1024 buckets marked by bit 30; the count assertions hold. |
| AddrSerial.Unserialize | src/addrman.h:397-559 | In place and for any stream: rejected exactly for a future format, wrong key size, counters out of range or a short stream; otherwise everything but the index comes out right, which entries are kept and where is a function of the stream, and the index is right exactly if the entries are consistent. |
| AddrSerial.Capacity | src/addrman.h:433-448 | No manager has more entries than the reader's limits allow, so what it writes is never rejected. |
| AddrSerial.RejectedMeans | src/addrman.h:397-448 | A stream is accepted exactly if its format is at most 3, its key has 32 bytes, it announces no more than 65536 new and 16384 tried entries, and no more entries or buckets than it has. |
| AddrSerial.BucketsMeans | src/addrman.h:430-434 | The marking of the bucket number by bit 30 undoes itself and is missing in the first format only. |
| AddrSerial.RestoringMeans | src/addrman.h:505-510 | Old slots are given back exactly if there are 1024 buckets and the AS map is the same, no checksum standing for no map. |
| AddrSerial.RefilledHome | src/addrman.h:512-541 | Without the old slots an entry lies nowhere but in the slot its own source chooses, with at most one reference. |
| AddrSerial.RefilledListed | src/addrman.h:512-541 | And that slot is filled for every entry a bucket lists. |
| AddrSerial.RefilledOld | src/addrman.h:512-541 | With the old slots, the slot of every bucket entry is filled unless the entry has its eight references. |
| AddrSerial.RoundTrip | src/addrman.h:337-559 | Reading back what any manager wrote under the same AS map loses nothing: field by field the same address, services, time, source, last success and attempts, the same slots, reference counts and counters, up to an order-preserving renumbering; the times of the last try and counted attempt are forgotten. It is a valid manager if and only if every address is its own key. |
| AddrSerial.IndexExact | src/addrman.h:450-559 | The index left after filing by address and port and dropping entries without a slot is right if and only if every address read is its own key and no kept entry shares its address with another one read. |
| AddrSerial.LostKey | src/addrman.h:450-475 | When ports are ignored, an entry read back with a port is not found under its own address. |
| CoinModel.FetchKeeps | src/coins.cpp:42-57 | Caching a coin of the parent changes no view and keeps every entry rule. |
| CoinModel.UncacheKeeps | src/coins.cpp:223-230 | Dropping an entry that is neither dirty nor fresh changes no view. |
| CoinModel.AddKeeps | src/coins.cpp:68-98 | The entry AddCoin writes is a legal one and adds exactly that coin to the view. |
| CoinModel.AddMisused | src/coins.cpp:74-93 | If a coin of the parent is overwritten without saying so, the entry is marked fresh wrongly, and spending it brings the old coin back. |
| CoinModel.UnspendableMeans | src/script/script.h:531-534 | A script is never spendable exactly if it starts with 0x6a or is longer than 10000 bytes. |
| CoinModel.AddSpend | src/coins.cpp:68-127 | Spending the coin just added leaves no entry exactly if it was FRESH already, or there was nothing to overwrite and no change pending; otherwise a spent change stays. |
| CoinModel.SpendKeeps | src/coins.cpp:113-127 | Spending removes exactly that coin from the view, whether the entry is erased or kept as spent and dirty. |
| CoinModel.MergeKeeps | src/coins.cpp:160-214 | Merging one child entry makes the view the child's there, keeps the entry rules, and the throw about misapplied FRESH is unreachable. |
| CoinModel.MergeSpend | src/coins.cpp:160-210 | A coin FRESH in the child and unknown to the parent is forgotten when spent after the flush; a spent one takes a FRESH entry away; unchanged entries change nothing; no other entry becomes FRESH. |
| CoinCaches.CoinsDB.BatchWrite | src/txdb.cpp:83-132 | Writing or erasing the dirty entries one by one makes the database the overlay of the batch on what it was. |
| CoinCaches.CoinsCache.FetchCoin | src/coins.cpp:42-57 | No view of any layer changes; found exactly if cached or unspent in the parent. |
| CoinCaches.CoinsCache.GetCoin | src/coins.cpp:59-66 | Returns exactly the view's coin, never a spent one, and changes no layer's view. |
| CoinCaches.CoinsCache.AddCoin | src/coins.cpp:68-98 | Throws exactly when an unspent cached coin would be overwritten without permission; otherwise the view gains the coin, or is unchanged for an unspendable script. |
| CoinCaches.CoinsCache.SpendCoin | src/coins.cpp:113-129 | The view loses exactly this coin, which is handed out; other layers keep their views. |
| CoinCaches.CoinsCache.Uncache | src/coins.cpp:223-230 | Removes an entry only if it is neither dirty nor fresh; no view changes. |
| CoinCaches.CoinsCache.MergeOne | src/coins.cpp:160-210 | One entry of a child, any combination of flags: the view becomes the child's at that outpoint. |
| CoinCaches.CoinsCache.BatchWrite | src/coins.cpp:160-214 | The view becomes the child's view and the best block the given one; lower layers are untouched. |
| CoinCaches.CoinsCache.Flush | src/coins.cpp:216-221 | The base's view is what the child's was and its best block what the child's was told, even if nothing; the child is empty and its view unchanged. |
| CoinCaches.FlushShows | src/coins.cpp:160-221 | So the base shows the best block the child showed if and only if the child had one of its own, or the base had none, or the same as its own base. |
| CoinCaches.FlushAllowed | src/txdb.cpp:83-91 | A cache over a cache may always be flushed, one over the database exactly if it has a best block. |
| CoinCaches.CoinsCache.GetBestBlock | src/coins.cpp:150-154 | Returns the first best block set on the way down and copies it into the layers above it, and into no others. |
| CoinCaches.FilledShows | src/coins.cpp:150-154 | That changes the best block of no layer. |
| CoinCaches.BestMeans | src/coins.cpp:150-154 | The best block is that of the highest layer that has one, else the database's, and only the layers above that one take it over. |
| CoinCaches.CoinsCache.HaveCoin | src/coins.cpp:140-143 | True exactly for the coins of the view; no layer's view changes. |
| CoinCaches.AddCoins | src/coins.cpp:102-111 | If no output is there already, or overwriting is checked for or allowed, AddCoin never throws and the view gains exactly the outputs that can be spent. |
| CoinCaches.OutputsMean | src/coins.cpp:102-111 | An outpoint of the transaction shows its output's amount and script, the height and the coinbase flag, unless that can never be spent; every other outpoint shows what it showed. |
| CoinCaches.Step | src/coins.cpp:42-230 | Every operation that is allowed on the top of a stack, AddCoin under its caller's own promise and a flush without a best block among them, changes the layers' views and best blocks as its plain counterpart does. |
| CoinCaches.Run | src/coins.cpp:42-230 | Any run of such operations, over any stack, gives the views and best blocks that the same run over plain maps and numbers gives. |
| CoinCaches.EveryEntryOk | src/coins.h:115-154 | In every layer every entry is in a documented state; fresh means absent below, not dirty means equal below; spent and fresh never occurs; cachedCoinsUsage is the exact sum. |
| CheckQueue.BatchSize | src/checkqueue.h:107-112 | A batch has at least one check and no more than are queued. |
| CheckQueue.BatchMeans | src/checkqueue.h:107-112 | The batch is the largest within the limit of which the queue holds one for every thread, one more for every idle one and one besides, but at least one check. |
| CheckQueue.TakesFromBack | src/checkqueue.h:107-122 | A thread that finds checks takes its batch from the back of the queue, the last check first, and the verdict so far with it. |
| CheckQueue.AddMeans | src/checkqueue.h:166-186 | Add appends its checks in order, counts them, and goes on to notify exactly if there are any. |
| CheckQueue.NotifyReaches | src/checkqueue.h:181-185 | After two or more checks were added no worker sleeps without a notification; after one, exactly one fewer does, if any did; nothing else changes. |
| CheckQueue.NotifyChoices | src/checkqueue.h:181-185 | Add can always notify: any one of the workers asleep for one check, otherwise all of them. |
| CheckQueue.StepKeeps | src/checkqueue.h:68-186 | Every step of every thread keeps the invariant: nTodo counts queued and in-flight checks, nIdle and nTotal are exact, no check is lost or duplicated, and the verdict so far is right. |
| CheckQueue.Reachable | src/checkqueue.h:68-186 | The invariant holds in every state that any interleaving reaches. |
| CheckQueue.WaitAnswers | src/checkqueue.h:90-98 | Wait returns true if and only if every check added passes, and only when each was accounted for, none is queued and no worker holds one. |
| CheckQueue.NoLostWakeup | src/checkqueue.h:82-101 | A master asleep without a notification pending implies a worker that holds a batch. |
| CheckQueue.NotifiedCanWork | src/checkqueue.h:68-129 | A worker notified stays so through any steps of the others, and its wake-up is a step that does work. |
| CheckQueue.AddWakes | src/checkqueue.h:68-186 | So in any run after Add, every worker that slept can take a working step if more than one check was added, and one of them if it was one. |
| CheckQueue.StepDescends | src/checkqueue.h:68-129 | Every step that does work lowers a natural number that no wake-up raises. |
| CheckQueue.NeverStuck | src/checkqueue.h:68-186 | While the master waits, some thread can take a step that does work. |
| CheckQueue.Bounded | src/checkqueue.h:68-129 | In any run of the loops, wake-ups nobody asked for included, no more steps do work than the potential at its start. |
| CheckQueue.WaitReturns | src/checkqueue.h:159-163 | In every such run, once no thread has a working step left, Wait has returned. |
| CheckQueue.RunToTheEnd | src/checkqueue.h:159-163 | From every reachable state there is a run that makes Wait return. |
| CuckooCache.WordsCover | src/cuckoocache.h:60-70 | The flag words cover all slots if and only if size + 7 does not wrap in 32 bits. |
| CuckooCache.Flags.constructor | src/cuckoocache.h:60-70 | All slots start collectable. |
| CuckooCache.Flags.BitSet | src/cuckoocache.h:90-93 | Sets exactly that bit of the packed words. |
| CuckooCache.Flags.BitUnset | src/cuckoocache.h:101-104 | Clears exactly that bit. |
| CuckooCache.Flags.BitIsSet | src/cuckoocache.h:111-114 | Reads exactly that bit. |
| CuckooCache.MaskMeans | src/cuckoocache.h:90-114 | The k-th flag of a word is its bit of value two to the k. |
| CuckooModel.LocsMean | src/cuckoocache.h:242-252 | The k-th of the eight locations lies as far into the table as the k-th hash lies into the 32-bit numbers. |
| CuckooModel.EpochShare | src/cuckoocache.h:347-348 | The epoch size is 45 percent of the size if and only if 45 times the size does not wrap in 32 bits. |
| CuckooModel.AgedCounts | src/cuckoocache.h:304-311 | Ageing leaves no current entry; the former current ones become the old ones. |
| CuckooModel.CheckedBudget | src/cuckoocache.h:288-320 | After the epoch check the current entries, one more, and the counter fit in the epoch size plus its sixteenth, and the old entries fit as well. |
| CuckooModel.Victim | src/cuckoocache.h:415-430 | The element to displace is at one of the locations, at location one if none was displaced before, and not the slot just filled unless locations coincide. |
| CuckooModel.VictimNext | src/cuckoocache.h:415-430 | After a displacement at one location the next one is at the location after it, the first after the last. |
| CuckooModel.SwapInHand | src/cuckoocache.h:430-435 | Exchanging the element in hand with a live one conserves elements and epoch counts. |
| CuckooModel.BlankReports | src/cuckoocache.h:469-479 | A table never written to reports exactly the default element. |
| CuckooCache.Cache.Setup | src/cuckoocache.h:339-353 | The new cache holds at least two slots, all of them collectable, keeps nothing, starts a whole epoch and satisfies the invariant. |
| CuckooCache.Cache.Age | src/cuckoocache.h:304-311 | Old entries become collectable, current ones old. |
| CuckooCache.Cache.EpochCheck | src/cuckoocache.h:288-320 | While the counter runs, only it changes. Otherwise, as long as the current epoch has fewer than epochSize live entries no flag changes and the next check is at least a sixteenth of an epoch off and not before the epoch can be full; else the old epoch becomes collectable, the current one old, and the counter epochSize. |
| CuckooCache.Cache.Climb | src/cuckoocache.h:405-439 | Placing an absent element conserves elements but for at most one, loses none if a location was open, and ends in exactly the slots that the recursive definition gives. |
| CuckooCache.Cache.Insert | src/cuckoocache.h:392-440 | After the epoch check, the kept set gains the element and loses at most one, none if it was present or had an open location; the invariant is kept. |
| CuckooCache.Cache.Contains | src/cuckoocache.h:469-479 | Reports a non-default element if and only if it is in the table, never one that was not inserted; erasing makes exactly it collectable. Its flag is the only one that changes. |
| CuckooCache.Run | src/cuckoocache.h:288-479 | Slots, flags, epochs and counter are those that the same run on plain sequences gives. After any run: current entries plus counter and all entries keep their bounds, the table holds no element twice, every kept element is at one of its own locations. |
| RollingBloom.PutBit | src/bloom.cpp:322-323 | Writing one bit of a word changes that bit only. |
| RollingBloom.WipeBits | src/bloom.cpp:304-312 | The mask clears both bits of exactly the positions of the wiped generation. |
| RollingBloom.CellWiped | src/bloom.cpp:304-312 | A position of the wiped generation becomes empty, every other keeps its generation. |
| RollingBloom.CellSetAt | src/bloom.cpp:322-323 | Marking a position sets its generation and no other's. |
| RollingBloom.AtMeans | src/bloom.cpp:284-323 | The n-th hash, with a seed n times 0xFBA4C795 from the tweak, leads to the bit its low six bits name, in the pair of words as far into the filter as the hash lies into the 32-bit numbers. |
| RollingBloom.WipeOk | src/bloom.cpp:298-313 | Moving to the next generation forgets exactly the keys of the oldest one. |
| RollingBloom.InsertOk | src/bloom.cpp:316-324 | Marking the positions of a key remembers it in the current generation, although it overwrites older marks. |
| RollingBloom.CellMeans | src/bloom.cpp:333-345 | A position is set if and only if some remembered key hashes to it. |
| RollingBloom.Filter.constructor | src/bloom.cpp:256-281 | A new filter is empty, and two generations cover the requested number of elements. |
| RollingBloom.Filter.Wipe | src/bloom.cpp:304-312 | Every position is wiped as said, in place, pair by pair. |
| RollingBloom.Filter.Insert | src/bloom.cpp:296-325 | The history gains the key; generations advance exactly when one is full; every index is in range. |
| RollingBloom.Filter.Contains | src/bloom.cpp:333-345 | Answers exactly as a plain bloom filter over the remembered keys would. |
| RollingBloom.Filter.Reset | src/bloom.cpp:353-359 | Nothing is remembered and the tweak is the new one. |
| RollingBloom.NoFalseNegative | src/bloom.cpp:333-345 | A plain bloom filter reports every key it holds. |
| RollingBloom.Reach | src/bloom.cpp:298-314 | The remembered keys include the last one inserted and the 2 * nEntriesPerGeneration before it. |
| RollingBloom.Window | src/bloom.cpp:296-345 | After a key is inserted it is reported through any 2 * nEntriesPerGeneration further insertions of any keys. |
| ArithUint.Uint.AddAssign | src/arith_uint256.h:132-142 | Exact sum modulo two to the width. |
| ArithUint.Uint.SubAssign | src/arith_uint256.h:144-148 | Exact difference modulo two to the width, also for the operand itself. |
| ArithUint.Uint.Negate | src/arith_uint256.h:74-81 | Exact negation modulo two to the width. |
| ArithUint.Uint.Complement | src/arith_uint256.h:66-72 | The bitwise complement is the modulus minus one minus the value. |
| ArithUint.Uint.Increment | src/arith_uint256.h:170-177 | Adds one modulo two to the width, by carrying through full limbs. |
| ArithUint.Uint.Decrement | src/arith_uint256.h:187-194 | Subtracts one modulo two to the width, by borrowing through zero limbs. |
| ArithUint.Uint.Assign64 | src/arith_uint256.h:85-92 | The value becomes the 64-bit number. |
| ArithUint.Uint.GetLow64 | src/arith_uint256.h:242-246 | The value modulo two to the 64th. |
| ArithUint.Uint.ShiftLeft | src/arith_uint256.cpp:21-35 | Multiplies by the power of two modulo two to the width, for every shift. |
| ArithUint.Uint.ShiftRight | src/arith_uint256.cpp:38-52 | Floor of the division by the power of two, for every shift. |
| ArithUint.Uint.MulSmall | src/arith_uint256.cpp:55-64 | Exact product modulo two to the width. |
| ArithUint.Uint.MulAssign | src/arith_uint256.cpp:67-80 | Exact product modulo two to the width, also with itself. |
| ArithUint.MulAdd | src/arith_uint256.cpp:72-75 | The 64-bit intermediate of a product step cannot overflow. |
| ArithUint.Uint.DivAssign | src/arith_uint256.cpp:83-106 | Throws exactly for a zero divisor, leaving zero; otherwise the exact floor quotient, also for the operand itself. |
| ArithUint.Uint.CompareTo | src/arith_uint256.cpp:109-118 | The sign of the comparison of the values. |
| ArithUint.Uint.EqualTo | src/arith_uint256.cpp:121-132 | Equal if and only if the values are. |
| ArithUint.Uint.Bits | src/arith_uint256.cpp:171-183 | The number of bits of the value: zero for zero, else one more than the place of the top bit. |
| Compact.SetCompact | src/arith_uint256.cpp:203-221 | The value is mantissa times 256 to the exponent minus three, modulo two to the 256th; sign as encoded; overflow as defined by the true value. |
| Compact.CompactMeans | src/arith_uint256.cpp:203-221 | For eight bits of exponent e, a sign bit and 23 bits of mantissa m: the value is m * 256^(e - 3), cut off below one and beyond 256 bits; it overflows exactly if the product does not fit; it is negative exactly if the sign bit is set and it is not zero. |
| Compact.SignBit | src/arith_uint256.cpp:214-215 | Bit 23 changes the sign of whatever is not zero, and neither value nor overflow. |
| Compact.OverflowTest | src/arith_uint256.cpp:216-219 | The three comparisons of the code hold if and only if the true value does not fit in 256 bits. |
| Compact.GetCompact | src/arith_uint256.cpp:223-244 | The canonical encoding: it reads back as the value without its dropped low bytes, does not overflow, and is negative exactly if asked for and not zero; both assertions hold. |
| Compact.DecodedEncoded | src/arith_uint256.cpp:203-244 | Decoding an encoding gives the value with its dropped low bytes zero, without sign or overflow. |
| Compact.SignRoundTrip | src/arith_uint256.cpp:203-244 | An encoding with its sign reads back with that sign, unless it is zero. |
| Compact.RoundTrip | src/arith_uint256.cpp:203-244 | For every positive x the decoded encoding y has y <= x and (x - y) * 2^15 < x, and encodes the same again. |
| Compact.ProperTarget | src/chain.cpp:122-135 | A target that did not overflow leaves room for the plus one. |
| Compact.Inverse | src/chain.cpp:130-134 | (~target / (target + 1)) + 1 is the floor of 2^256 / (target + 1), though 2^256 does not fit. |
| Compact.GetBlockProof | src/chain.cpp:122-135 | Zero for a negative, overflowing or zero target, otherwise the floor of 2^256 / (target + 1). |
| BlockSkips.LowestOneCleared | src/chain.cpp:71-71 | Clears exactly the lowest set bit of any number that has one. |
| BlockSkips.GetSkipHeight | src/chain.cpp:74-82 | The skip height is below the height. |
| BlockSkips.SkipLighter | src/chain.cpp:74-82 | A skip makes four times the ones in a quarter of the height, plus the rest, smaller. |
| BlockSkips.ParentLighter | src/chain.cpp:94-107 | So does a step to the parent that passes by a skip pointer which does not lead too far. |
| BlockSkips.Closer | src/chain.cpp:94-107 | A step that passes by one which does lead too far confines the rest of the walk to a smaller power of two of heights. |
| BlockSkips.StepNearer | src/chain.cpp:94-107 | So every round of GetAncestor lowers a measure that starts below four times the square of the height's bits plus one. |
| BlockChain.AncestorOfAncestor | src/chain.cpp:84-109 | Walking down in two stages is walking down at once. |
| BlockChain.GetAncestor | src/chain.cpp:84-109 | Returns the block that walking pprev reaches, or null for a height out of range, in as many rounds, with all skip pointers set, as the walk by heights, fewer than 4 (b + 1)^2, b being the bits of the height. |
| BlockSkips.RoundsBound | src/chain.cpp:84-109 | That walk takes no more rounds from any height to any other. |
| BlockSkips.TakesSkipMeans | src/chain.cpp:91-100 | It follows the skip pointer unless that leads too far down, or the parent's does not and saves more than two steps over it. |
| BlockChain.BuildSkip | src/chain.cpp:116-120 | The skip pointer is the ancestor at the skip height, so GetAncestor's condition extends to the block. |
| BlockChain.Grow | src/chain.cpp:116-120 | Every tree built block by block with BuildSkip, in any shape, meets GetAncestor's condition and has all skip pointers set. |
| BlockChain.Chain.Contains | src/chain.h:424-427 | A block is contained if and only if it is the tip or an ancestor of the tip. |
| BlockChain.Chain.NextIsChild | src/chain.h:429-435 | The successor is the child on the chain, and is missing exactly for the tip and for blocks elsewhere. |
| BlockChain.Chain.SetTip | src/chain.cpp:11-21 | Stopping early at the first unchanged entry still leaves exactly the ancestors of the new tip, by height. |
| BlockChain.Reorganise | src/chain.cpp:11-21 | The same after any sequence of reorganisations, including to nothing. |
| BlockChain.Chain.FindFork | src/chain.cpp:51-60 | The highest block common to the chain and the branch of the given block, or null if there is none. |
| BlockChain.LastCommonAncestor | src/chain.cpp:157-172 | The highest block that is an ancestor of both. |
| BlockChain.CommonRoot | src/chain.cpp:157-172 | There is none exactly if the two branches have different first blocks. |
| BlockChain.Chain.GetLocator | src/chain.cpp:23-49 | The hashes of the start's ancestors at the locator heights, whichever of the two ways each is found. |
| BlockChain.LocatorShape | src/chain.cpp:23-49 | Locator heights fall strictly, end at zero, and are consecutive for the first twelve. |
| BlockChain.LocatorSteps | src/chain.cpp:23-49 | The first eleven steps go down by one, the next by two, and every later one by twice the one before, but not below zero. |
| DbTransaction.LessTotal | src/dbwrapper.h:556-562 | The byte order of keys is total. |
| DbTransaction.LessTransitive | src/dbwrapper.h:556-562 | The byte order is transitive. |
| DbTransaction.LessStrict | src/dbwrapper.h:556-562 | The byte order is strict. |
| DbTransaction.LessMeans | src/dbwrapper.h:556-562 | A key comes before another exactly if at the first place where they differ it has the smaller byte, or ends there. |
| DbTransaction.Transaction.Write | src/dbwrapper.h:609-623 | The view maps the key to the value; writes and deletes stay disjoint; memoryUsage stays exact. |
| DbTransaction.Transaction.Erase | src/dbwrapper.h:670-680 | The view loses exactly the key; the invariant is kept. |
| DbTransaction.Transaction.Read | src/dbwrapper.h:630-648 | Reads the view: nothing for a missing key, the value as its own type, a throw for a write of another type pending in this transaction or the one below, and otherwise what the database gives. |
| DbTransaction.Transaction.Exists | src/dbwrapper.h:654-664 | True exactly for the keys of the view. |
| DbTransaction.Store.WriteBatch | src/dbwrapper.cpp:183-198 | The database gets all changes of the batch, in order. |
| DbTransaction.Transaction.Commit | src/dbwrapper.h:688-696 | What is committed to becomes the overlay: the view of the transaction below, and the view is unchanged; or the database once the batch is written. The transaction is clean. |
| DbTransaction.Transaction.GetMemoryUsage | src/dbwrapper.h:702-713 | The exact sum over pending keys and values, so the branch for a negative sum is dead. |
| DbTransaction.TransactionIterator.constructor | src/dbwrapper.h:414-420 | The keys there are to visit are those of the view, over the database's iterator or over the iterator of the transaction below. |
| DbTransaction.TransactionIterator.Skip | src/dbwrapper.h:522-530 | Skips parent keys exactly while they are deleted or overwritten. |
| DbTransaction.TransactionIterator.SeekToFirst | src/dbwrapper.h:422-427 | Every key of the view lies ahead. |
| DbTransaction.TransactionIterator.Seek | src/dbwrapper.h:434-439 | Exactly the keys of the view that do not come before the bound, in that sense, lie ahead. |
| DbTransaction.TransactionIterator.GetKey | src/dbwrapper.h:487-496 | At the end exactly if no key lies ahead, and otherwise at the least of those that do. |
| DbTransaction.TransactionIterator.Next | src/dbwrapper.h:445-458 | Moves past the least key ahead and no other; its assertions hold. |
| DbTransaction.TransactionIterator.GetValue | src/dbwrapper.h:510-518 | The transaction's value at the current key, including when it throws. |
| DbTransaction.Walk | src/dbwrapper.h:397-545 | SeekToFirst and Next until invalid visit exactly the keys of the view, each once; of two keys visited the later one has the larger byte at the first place where they differ, or goes on where the other ends. |
| EvoDb.EvoDB.Read | src/evo/evodb.h:63-68 | Reads what the current transaction shows, through both transactions. |
| EvoDb.EvoDB.CommitCurTransaction | src/evo/evodb.cpp:40-44 | The root's view becomes the current one's; the database is untouched. |
| EvoDb.EvoDB.RollbackCurTransaction | src/evo/evodb.cpp:46-50 | The current view becomes the root's. |
| EvoDb.EvoDB.CommitRootTransaction | src/evo/evodb.cpp:52-60 | If the current transaction is clean, as asserted, the database becomes the root's view, no view changes, and the batch is empty again. |
| EvoDb.ScopedCommitter.Destroy | src/evo/evodb.cpp:12-16 | Rolls back exactly if neither a commit nor a roll-back has happened. |
| EvoDb.Run | src/evo/evodb.h:34-110 | Any run of writes, erases, commits and roll-backs that commits the root only when the current transaction is clean gives the database and both views that the same run over three plain maps gives. |
| EvoDb.ScopeIsAtomic | src/evo/evodb.cpp:7-60 | Whatever a scope writes and erases, rolling it back restores all three, committing it hands all of it to the root at once, and only a commit of the root reaches the database. |
| CompactModel.EncodeDescribes | src/blockencodings.cpp:21-31 | The message built from a block describes it: the first transaction prefilled, short ids of the rest in order. |
| CompactModel.SentDescribes | src/blockencodings.cpp:58-79 | Whatever ascending places a sender fills in, sent as differences: the message has exactly those transactions in exactly those slots, its short ids belong to the others in order, and it describes the block. |
| CompactModel.LaidOpen | src/blockencodings.cpp:62-79 | After any number of accepted prefilled transactions exactly the rest of the slots are open: none is overwritten. |
| CompactModel.SixteenBits | src/blockencodings.cpp:66-69 | A place beyond 65535 is rejected, and no message has more transactions. |
| CompactModel.ScanStep | src/blockencodings.cpp:86-88 | Scanning for the next open slot stays in range and finds the i-th one. |
| CompactModel.IndexedSize | src/blockencodings.cpp:105-108 | The id map has as many entries as there are short ids if and only if they are distinct. |
| CompactBlocks.PartialBlock.Prefill | src/blockencodings.cpp:62-79 | Accepts exactly the messages whose prefilled indices fit, and then places each at its slot. |
| CompactBlocks.PartialBlock.MapIds | src/blockencodings.cpp:83-104 | Short id i is mapped to the i-th open slot, unless a hash bucket is overfull. |
| CompactBlocks.PartialBlock.Scan | src/blockencodings.cpp:112-166 | After all candidates of a source, or after stopping early, each slot is filled, open or in conflict as the candidates seen determine. |
| CompactBlocks.PartialBlock.InitData | src/blockencodings.cpp:51-170 | The exact status; on success every prefilled slot holds its transaction, a short-id slot holds a matching candidate or none, none only without a candidate or on a clash, and mempool_count is the number of filled ones. |
| CompactBlocks.FilledRight | src/blockencodings.cpp:112-166 | If short ids separate the candidates, every filled slot holds the block's own transaction. |
| CompactBlocks.PartialBlock.FillBlock | src/blockencodings.cpp:178-217 | Weaves the missing transactions into the open slots and returns the block check's status; too few or too many are invalid, and what is left of the state in each case. |
| CompactBlocks.Reconstructs | src/blockencodings.cpp:51-217 | With the missing transactions in order, the weave is the original block. |
| CompactBlocks.Relay | src/blockencodings.cpp:21-217 | Encode, InitData, request and FillBlock together: invalid if the block is too large, failed if its short ids coincide or crowd a bucket, and otherwise the original block with its own check's status. |
| Bech32Checksum.TurnLinear | src/bech32.cpp:33-90 | A round of PolyMod is linear over GF(2). |
| Bech32Checksum.FromLinear | src/bech32.cpp:33-90 | The remainder of a difference is the difference of the remainders. |
| Bech32Checksum.TurnInjective | src/bech32.cpp:33-90 | Multiplication by x modulo the generator loses nothing. |
| Bech32Checksum.ChecksumExact | src/bech32.cpp:114-135 | Six symbols make a list verify if and only if they are its checksum. |
| Bech32Checksum.BurstDetected | src/bech32.cpp:33-90 | Two lists of the same length that differ only within six consecutive symbols do not both verify. |
| Field1024.Powers | src/bech32.cpp:40-46 | In the field with 1024 elements, which powers of e are the roots of the generator; the 1024th power is the first. |
| Field1024.Free | src/bech32.cpp:40-46 | e has order 1023: no smaller positive power fixes a non-zero element. |
| Field1024.Vandermonde | src/bech32.cpp:40-46 | Three terms at different places that cancel at three consecutive powers of e are zero. |
| Bech32Bch.AgreesAlways | src/bech32.cpp:40-90 | Three consecutive powers of e are roots of the generator: evaluating there, a round multiplies by the root. |
| Bech32Bch.TripleDetected | src/bech32.cpp:40-46 | Two lists of the same length that differ, and only in up to three symbols less than 1023 places apart, do not both verify. |
| Bech32Search.NoClash | src/bech32.cpp:45-46 | No four places within 89 meet three congruences modulo 33 in the logarithms of the sums of their powers of e. |
| Bech32Logs.SumIsPower | src/bech32.cpp:40-46 | The logarithms searched through are those of the sums. |
| Bech32Four.Compared | src/bech32.cpp:40-46 | Of four terms that cancel at the three roots, two can be eliminated, which leaves the other two in a fixed proportion. |
| Bech32Four.NotAll | src/bech32.cpp:40-46 | Four symbols within 89 places that cancel at the three roots are not all different from zero. |
| Bech32Four.FourDetected | src/bech32.cpp:40-46 | Two lists of the same length that differ, and only in up to four symbols within 89 places, do not both verify. |
| Bech32Charset.CharsetInverts | src/bech32.cpp:15-28 | Each symbol's character reads back as the symbol. |
| Bech32Charset.CharsetRevInverts | src/bech32.cpp:15-28 | Each readable character is, up to case, the one of its symbol. |
| Bech32Charset.CharsetText | src/bech32.cpp:15-16 | The thirty-two characters in the order of their symbols. |
| Bech32.ExpandInjective | src/bech32.cpp:99-111 | Different human-readable parts expand differently. |
| Bech32.RoundTrip | src/bech32.cpp:143-190 | Decoding an encoding gives the parts back if and only if they are legal: a non-empty printable part and at most 90 characters in all. |
| Bech32.Canonical | src/bech32.cpp:143-190 | Whatever decodes is, in lower case, the encoding of what it decodes to. |
| Bech32.KnownText | src/test/bech32_tests.cpp:14-32 | The texts A12UEL5L and a12uel5l decode, to the part a and no symbols. |
| Bech32.Readable | src/bech32.cpp:159-177 | What decodes is printable and in one case, has 8 to 90 characters, and its last separator is neither the first character nor among the last six. |
| Bech32.SubstitutionDetected | src/bech32.cpp:40-46 | Two strings with the same separator that differ, beyond case, in up to four characters after it do not both decode. |
| Bech32.PrefixSubstitutionDetected | src/bech32.cpp:40-111 | Nor do two that differ in up to one character before it and up to one after it. |
| Bech32.CharacterDetected | src/bech32.cpp:40-190 | No two strings with the same separator that differ, beyond case, in one character both decode. |
| Bech32Code.ComputePolyMod | src/bech32.cpp:33-90 | The loop computes the remainder. |
| Bech32Code.Expand | src/bech32.cpp:99-111 | The loop computes the expansion. |
| Bech32Code.CreateChecksum | src/bech32.cpp:124-135 | The loop computes the only six symbols that verify. |
| Bech32Code.EncodeString | src/bech32.cpp:143-156 | The loop computes the encoding. |
| Bech32Code.DecodeString | src/bech32.cpp:159-190 | The loops decode exactly the strings the definition accepts. |
| Base58Sizes.BytesFit | src/base58.cpp:97-97 | 138/100 of the bytes plus one are enough digits, for every length. |
| Base58Sizes.DigitsFit | src/base58.cpp:52-52 | 733/1000 of the digits plus one are enough bytes, for every length. |
| Base58Model.ConvertInverse | src/base58.cpp:38-125 | Changing the base back, leading zeros kept apart, gives the same digits. |
| Base58Model.CharInverse | src/base58.cpp:15-36 | Each digit's character reads back as the digit. |
| Base58Model.MapInverse | src/base58.cpp:15-36 | Each readable character is the one of its digit. |
| Base58Model.Alphabet | src/base58.cpp:15-36 | Digits follow the order of character codes; the alphabet is the alphanumeric characters without 0, I, O and l; the spaces are codes 9 to 13 and 32. |
| Base58Model.DecodeEncode | src/base58.cpp:38-125 | Decoding an encoding gives the bytes back if and only if they are empty or within the limit. |
| Base58Model.EncodeDecode | src/base58.cpp:38-125 | Encoding what a text decodes to gives the text without its surrounding spaces. |
| Base58.MulAdd | src/base58.cpp:62-71 | A carry loop multiplies and adds in place, with no carry left at the end: the assertions hold. |
| Base58.EncodeBase58 | src/base58.cpp:87-125 | The in-place loops compute the encoding. |
| Base58.DecodeBase58 | src/base58.cpp:38-85 | The in-place loops accept and decode exactly as defined, with the limit checked on the way. |

## Left out

- Address manager: ids and counters are unbounded integers; one reading of the clock per operation; services are sets of flags; log output.
- Address manager: Select_ and GetChance (floating-point probabilities), GetAddressInfo_, DecodeAsmap, and how entries and keys become bytes.
- AddrSerial.Unserialize: after a rejected stream nothing is promised about the manager but its collisions, as the code may have read part of the stream.
- Hash functions, Murmur, SipHash, group and AS mapping, address validity, script memory sizes and CheckBlock are uninterpreted functions.
- UTXO cache: coin serialization, partial batches and crash recovery of the database, GetValueIn, HaveInputs, ReallocateCache and error-catching views.
- Check queue: StopWorkerThreads and the stop flag; spurious wake-ups of a condition variable are allowed, not bounded.
- Cuckoo cache: relaxed memory ordering between readers, setup_bytes, and how the depth limit is computed.
- CuckooCache.Cache.Setup: requires size + 7 to fit in 32 bits; `CuckooCache.WordsCover` shows that beyond it the flags are too short.
- RollingBloom.Filter.constructor: the number of hash functions and bits come out of floating-point formulas and are parameters of at least one; zero elements are left out, as the formula then gives no bits and the code would index an empty table.
- arith_uint256: hexadecimal and double conversions, bitwise operators.
- Block index: block time searches, GetBlockProofEquivalentTime, serialization of the index.
- Database transaction: LevelDB itself and a write of a batch that fails; typed values are a kind and a size, and reading a stored value as another type is an uninterpreted function.
- DbTransaction.TransactionIterator.Next: for a transaction that is not modified while it is iterated, over the parent's keys at the start.
- Compact blocks: a message as it comes out of deserialization, which rejects more than 65535 transactions; extra_count is not counted.
- CompactBlocks.PartialBlock.MapIds: whether a hash bucket is overfull is an input, as it depends on the library's hash table.
- Base58Check, which adds a hash.
- File, network, wallet, consensus and RPC code.
