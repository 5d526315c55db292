# Verified models of the stateful cores of btcd

The repository vendors btcd. This project models the parts of btcd whose correctness rests on
several data structures agreeing with each other, and proves what they promise, for every input and
every sequence of operations.

* **Block tree and chain view** (`Bits`, `SkipWalk`, `BlockTree`, `Locator`, `ChainView`,
  `BlockIndex`). Block nodes with skip pointers, the flat view of one branch, fork finding, side-chain
  tips and the block locator. The fast forms are proved equal to following parents one at a time, and
  the skip walk is bounded: at most k*k iterations from a height of k bits, and exactly 330 in the worst
  case from height 2^29, the figure the source gives.
* **Filter checkpoints** (`CfCheckpt`). The cache behind getcfcheckpt (section "New Messages" of
  BIP 157) against direct lookups, over any sequence of requests on any forks. Once lookups may fail,
  replies can go wrong: `RightExactlyWhileUnmixed` proves that throughout a run every answerable request
  is answered rightly if and only if no request stopped in the middle of the cache, and
  `FailedLookupSpoilsLaterReply` gives four requests after which a reply is wrong.
* **Address manager** (`AddrBook`, `AddrSteps`, `AddrEffects`, `AddrHistory`, `AddrManager`,
  `AddrPersist`, `AddrLoad`, `AddrFiles`, `AddrSelect`). New buckets, tried lists, index, reference
  counts and the two counters; saving and loading; selection. `AddrBook` and `AddrSteps` hold the tables
  as values, the invariant and the operations; `AddrEffects` says what each operation does to one address
  and leaves alone of the others, `AddrHistory` what an entry tells of the calls so far, over every run;
  `AddrManager` holds the objects that the source mutates, each method proved to act as its counterpart
  on values. The source says a load that fails starts over with a clean slate; the counters are not
  cleared, `FailedLoadCounters` says exactly when that shows, and `FailedLoadNeverSelects` that GetAddress
  then never returns. Nor does a load that succeeds always give sound tables:
  `LoadedSoundExactlyIfWellFiled` says exactly for which files it does.
* **Peer tables** (`PeerTables`, `PeerRuns`). The messages of the peer handler, the derived group counts,
  and over every run who is banned, admitted and dismissed, told from the messages alone.
* **Websocket notifications and rescan** (`Subscriptions`, `Notifications`, `NotificationRuns`, `Rescan`,
  `RescanChains`, `RescanRun`, `RescanCases`, `RescanLive`, `Queues`). The two-way subscription tables, who
  is notified of what and how often, which subscriptions stand after any run of messages, the rescan of a
  block as a fold, the chunked rescan while the chain is reorganised, what a rescan tells and registers
  against what connecting the same blocks does, and the two queue goroutines as step functions.
* **Long polling and paging** (`LongPoll`, `Paging`, `AddrLevels`). The long-poll registry (section
  "Long Polling" of BIP 22), paging over the memory pool and the address index, and the levels of the
  address index themselves. Paging converts skip and count to 32 bits and adds them there. For a skip
  below 2^32 `SearchIsRight` says exactly when the reply is the requested page: unless the buffer for the
  count cannot be made, the end of a slice wraps below its start, too few levels are read, or the count
  is cut. The largest count for which the buffer can be made depends on the machine and is a parameter.
  For a larger skip that should find nothing `LargeSkipIsRight` says exactly when the reply says so, and
  one within the lists gives a page from elsewhere (`LargeSkipInsideIsWrong`). `SkipOneAskForAll`,
  `AskForTooMany` and `SkipTooMany` give an input for each kind of failure.

`Options` and `Iteration` hold shared vocabulary: a value that may be missing, and "some element of
a map", since Go ranges over maps in no particular order.

State that the source changes in place is in classes, whose methods are proved against functions on
values (`Abs`, `View`, `Pairs`, `All`); the theorems over runs are about those functions. Where the
code and its comments differ, the model follows the code:

* a new bucket holds up to 65 addresses, because the test is `>` (btcd/addrmgr/addrmanager.go:229), and
  `SixtyFiveAreReached`;
* `expireNew` drops the oldest good entry even when it has already dropped bad ones;
* `reset` does not clear `nNew` and `nTried`, and loading does not restore timestamps;
* an address is bad after ten failed attempts if it had no success for a week, however long these
  attempts took (btcd/addrmgr/knownaddress.go:106-110, `BadExactly`);
* refreshing a known address can set its last-seen time back, namely when older news come with services
  that were not known (btcd/addrmgr/addrmanager.go:182-192, `TimestampGoesBack`);
* a rescan does not recover from an ordinary reorganisation: a block that left the main chain is
  reported by an error that is not a database error (btcd/blockchain/chainio.go:1459-1476), so the
  rescan stops; recovery happens only if the block store lacks a block of the main chain
  (`ScanBlockChunks`, with `OrdinaryReorganisation` for the simplest case);
* a recovery that finds no more blocks ends the rescan successfully, but the client is not registered
  (btcd/rpcwebsocket.go:2738, `ScanBlockChunks`);
* a rescan that has scanned nothing registers the client whatever the tip is
  (btcd/rpcwebsocket.go:2671), so blocks that arrived since the list was fetched are missed:
  `ScanBlockChunks` says exactly when, and `RegisteredTooEarly` gives a run;
* a rescan matches addresses as printed (btcd/rpcwebsocket.go:2390) and live notification as encoded
  (btcd/rpcwebsocket.go:1008). For a public key these differ (btcd/btcutil/address.go:477-498), so an
  output that pays a key is watched by one and missed by the other: `TransactionAgrees` says exactly
  when they agree, and `PayToPubKeyIsMissed` gives both failures.

`dafny verify dfyconfig.toml` checks the whole project.

## Model

| member | source | states |
|---|---|---|
| Bits.AndMask | btcd/blockchain/chainview.go:21-32 | a number below 2^(2e) masked by the upper e of its digits is non-zero exactly when it reaches 2^e |
| SkipWalk.AncestorHeightLess | btcd/blockchain/blockindex.go:177-182 | the skip of every non-genesis height goes strictly down and is never negative |
| SkipWalk.InvertLocal | btcd/blockchain/blockindex.go:172-174 | clearing the lowest one of an aligned number plus a smaller rest only touches the rest |
| SkipWalk.ClearPairs | btcd/blockchain/blockindex.go:172-182 | skips clear the digits above an aligned height two at a time and end at that height or one digit above it |
| SkipWalk.DescendToMiddle | btcd/blockchain/blockindex.go:197-221 | how many iterations the walk needs from anywhere in the upper half of an aligned block to its middle |
| SkipWalk.WithinBlock | btcd/blockchain/blockindex.go:197-221 | a bound on the walk between any two heights of one aligned block |
| SkipWalk.WalkIsQuadraticInBits | btcd/blockchain/blockindex.go:172-221 | from height h to any lower height at most k*k iterations, k the bit length of h |
| SkipWalk.FromOnes | btcd/blockchain/blockindex.go:197-221 | the exact bound on walks that start at a height whose digits are all ones |
| SkipWalk.OnesBoundReached | btcd/blockchain/blockindex.go:197-221 | that bound is met by the walk to height 1 |
| SkipWalk.FromPowerOfTwo | btcd/blockchain/blockindex.go:197-221 | from height 2^m every target is within the bound and target 1 meets it |
| SkipWalk.DocumentedWorstCase | btcd/blockchain/blockindex.go:176-182 | from height 2^29 every ancestor is within 330 steps, and 330 is reached |
| BlockTree.BlockNode.constructor | btcd/blockchain/blockindex.go:111-127 | a new node has height one above its parent, the summed work and a skip pointer that is its true ancestor |
| BlockTree.BlockNode.Ancestor | btcd/blockchain/blockindex.go:197-221 | the skip walk returns what following parents returns, null exactly out of range, within k*k iterations |
| BlockTree.BlockNode.RelativeAncestor | btcd/blockchain/blockindex.go:304-306 | the plain walk for every 32-bit distance; overflow of the difference cannot change the answer |
| BlockTree.WalkThrough | btcd/blockchain/blockindex.go:197-221 | walking down may stop at any height on the way without changing where it ends |
| BlockTree.WalkOnce | btcd/blockchain/blockindex.go:204-218 | one iteration stays on the plain walk and costs one step of the height walk |
| BlockTree.ChainAt | btcd/blockchain/blockindex.go:197-221 | the chain of a node lists its ancestors height by height, and prefixes are chains of ancestors |
| BlockTree.WorkSumIsTotal | btcd/blockchain/blockindex.go:111-127 | workSum is the total work from genesis to the node |
| Locator.FastLog2Floor | btcd/blockchain/chainview.go:21-32 | the five masked shifts find the floor of the base-two logarithm of every 32-bit number, zero for zero |
| Locator.FloorLog2Unique | btcd/blockchain/chainview.go:21-32 | the exponent is determined by the two powers of two around the number |
| Locator.OffsetStep | btcd/blockchain/chainview.go:380-411 | how the distance from the start grows from entry to entry of a locator |
| Locator.LocatorEnds | btcd/blockchain/chainview.go:366-377 | with the closed-form length, all entries before the last are above genesis and the last one is genesis |
| ChainViews.ChainView.constructor | btcd/blockchain/chainview.go:54-59 | the view of a tip is its branch from genesis, empty for a tip too high to allocate |
| ChainViews.ChainView.SetTip | btcd/blockchain/chainview.go:116-148 | whatever was viewed before, the view is exactly the branch of the new tip, and only places that differ were written; a panic exactly when a 32-bit size overflows |
| ChainViews.ChainView.Resize | btcd/blockchain/chainview.go:131-142 | the slice has the new length, keeps the places that it had and clears the others |
| ChainViews.ChainView.Fill | btcd/blockchain/chainview.go:144-147 | stopping at the first match is enough: all lower places already hold the branch |
| ChainViews.ChainView.NodeByHeightIsWalk | btcd/blockchain/chainview.go:190-196 | the entry at a height is the plain walk from the tip, null out of range |
| ChainViews.ChainView.ContainsIsMembership | btcd/blockchain/chainview.go:227-229 | one comparison decides membership in the whole view |
| ChainViews.ChainView.NextIsChild | btcd/blockchain/chainview.go:250-256 | the next node is the viewed child, null for the tip and for nodes outside the view |
| ChainViews.ChainView.Equals | btcd/blockchain/chainview.go:213-220 | equal length and tip mean equal views, and the other way round |
| ChainViews.SameNodeSamePrefix | btcd/blockchain/chainview.go:116-148 | two branches agree up to a place exactly when they hold the same node there |
| ChainViews.ChainView.FindFork | btcd/blockchain/chainview.go:292-322 | the highest node that the branch of the argument shares with the view, null if there is none |
| ChainViews.ChainView.AncestorInView | btcd/blockchain/chainview.go:396-404 | the constant-time lookup and the skip walk give the same ancestor |
| ChainViews.ChainView.BlockLocator | btcd/blockchain/chainview.go:357-414 | exactly h+1 entries up to height 12 and 12 + floor(log2(h-10)) above, each the ancestor at its closed-form height, on or off the view |
| ChainViews.ChainView.CollectLocator | btcd/blockchain/chainview.go:380-412 | the loop adds the ancestors of those heights in order and never more than were reserved |
| ChainViews.LocatorMove | btcd/blockchain/chainview.go:389-410 | one iteration follows the closed form; a step that overflows 32 bits is never used |
| ChainViews.LocatorHeightsDecrease | btcd/blockchain/chainview.go:357-414 | the heights strictly decrease and end at genesis |
| BlockIndexes.BlockIndex.constructor | btcd/blockchain/blockindex.go:371-378 | a new index is empty and satisfies the invariant |
| BlockIndexes.BlockIndex.AddNode | btcd/blockchain/blockindex.go:405-418 | the index stays parent-closed with every node built and under its own hash; the node is dirty |
| BlockIndexes.BlockIndex.SetStatusFlags | btcd/blockchain/blockindex.go:435-440 | the flags are set, the node is dirty and the tree is unchanged |
| BlockIndexes.BlockIndex.MaybeAcceptBlock | btcd/blockchain/accept.go:24-94 | errors for a missing or invalid parent change nothing; otherwise the node enters a parent-closed tree, also when the flush fails |
| BlockIndexes.BlockIndex.AncestorsIndexed | btcd/blockchain/blockindex.go:405-418 | every ancestor of an indexed node is the indexed node of its hash |
| BlockIndexes.BlockIndex.IsAncestor | btcd/blockchain/blockindex.go:278-297 | comparing fields decides true proper ancestry among indexed nodes |
| BlockIndexes.BlockIndex.ViewHoldsParents | btcd/blockchain/blockindex.go:456-489 | the view is closed under parents |
| BlockIndexes.BlockIndex.OrphanIsTip | btcd/blockchain/blockindex.go:465-486 | a node outside the view is a tip exactly when no other such node points to it |
| BlockIndexes.BlockIndex.InactiveTips | btcd/blockchain/blockindex.go:456-489 | exactly the indexed nodes outside the view without a child in the index, each once |
| CfCheckpt.MatchReachesDown | btcd/server.go:1087-1103 | up to the fork index found from above, the cache already holds the interval blocks of the request |
| CfCheckpt.ServeIsRight | btcd/server.go:1027-1153 | with lookups succeeding, the reply is the true header of every interval block and the cache is again the intervals of one branch |
| CfCheckpt.RunStaysOnOneBranch | btcd/server.go:1027-1153 | over every sequence of requests the cache is the interval list of one branch with true headers |
| CfCheckpt.EveryReplyIsDirect | btcd/server.go:1027-1153 | every reply of every sequence equals looking each header up directly |
| CfCheckpt.OneBranchUnlessMixed | btcd/server.go:1111-1145 | one request leaves the cache on one branch if and only if it did not stop, on a failed lookup, inside cached entries of another branch |
| CfCheckpt.RunKeepsPlaced | btcd/server.go:1027-1153 | whatever fails in a run, every cached entry is the true entry of some branch at its place |
| CfCheckpt.ReplyIsRight | btcd/server.go:1087-1103 | a reply equals the direct lookups if and only if the cache below the fork is that of the requested branch |
| CfCheckpt.EveryGivenReplyIsRight | btcd/server.go:1027-1153 | while no request has stopped in the middle of the cache, every reply that is given is right, whatever lookups fail |
| CfCheckpt.SpoiledExactlyIfMixed | btcd/server.go:1111-1145 | some answerable request would get a wrong reply if and only if the cache is not of one branch |
| CfCheckpt.RightExactlyWhileUnmixed | btcd/server.go:1027-1153 | at every point of a run every answerable request gets the right reply if and only if no request of the run stopped in the middle of the cache |
| CfCheckpt.FailedLookupSpoilsLaterReply | btcd/server.go:1111-1145 | a concrete run of four requests, with capacities as append grows them, whose last reply is wrong although its lookups succeed |
| CfCheckpt.IntervalsCoherent | btcd/blockchain/chain.go:1627-1660 | two interval lists that agree at one place agree below it |
| CfCheckpt.BranchesAreFamily | btcd/blockchain/chain.go:1627-1660 | the interval lists of all nodes of one block index are branches of one tree |
| CfCheckpt.IntervalBlockHashes | btcd/blockchain/chain.go:1627-1660 | the hashes at every interval by the plain walk, whatever the best chain holds |
| CfCheckpt.CheckpointCache.constructor | btcd/server.go:1027-1153 | a new cache is empty |
| CfCheckpt.CheckpointCache.Extend | btcd/server.go:1057-1077 | the shared slice is padded to the requested length whether it grows in place or is copied |
| CfCheckpt.CheckpointCache.OnGetCFCheckpt | btcd/server.go:1027-1153 | reply, cache and capacity are those of the run that the theorems are about, also when a lookup fails halfway |
| AddrBook.EmptyInv | btcd/addrmgr/addrmanager.go:1207-1218 | a fresh manager satisfies the invariant |
| AddrBook.DropRefsKeeps | btcd/addrmgr/addrmanager.go:244-280 | dropping addresses from a bucket keeps index, reference counts and counters in agreement |
| AddrBook.DropRefsTwice | btcd/addrmgr/addrmanager.go:244-280 | dropping two disjoint sets in turn is dropping their union |
| AddrBook.ExpirableShrinks | btcd/addrmgr/addrmanager.go:244-280 | expiry of a bucket with entries frees at least one place |
| AddrBook.AddRefKeeps | btcd/addrmgr/addrmanager.go:224-240 | adding a reference, after expiry where the bucket is over its size, keeps the invariant with at most 65 entries |
| AddrSteps.UpdateAddressKeeps | btcd/addrmgr/addrmanager.go:166-240 | every outcome of updateAddress keeps the invariant |
| AddrSteps.PickTried | btcd/addrmgr/addrmanager.go:285-297 | the place of an entry than which none in the list is older |
| AddrSteps.FirstBelowIsFirst | btcd/addrmgr/addrmanager.go:941-951 | the remembered bucket is the lowest that holds the address |
| AddrSteps.InSomeBucket | btcd/addrmgr/addrmanager.go:954-957 | an address that is not tried is in some new bucket, so that branch of Good is never taken |
| AddrSteps.MoveToTriedKeeps | btcd/addrmgr/addrmanager.go:936-999 | moving an address to the tried lists, with or without eviction, keeps the invariant |
| AddrSteps.GoodKeeps | btcd/addrmgr/addrmanager.go:913-999 | every call of Good keeps the invariant |
| AddrEffects.GoodPromotes | btcd/addrmgr/addrmanager.go:913-971 | a new address called good, with room in its tried list: out of every bucket, last in that list, tried, with times now and no failed attempts; one more tried and one less new; no other entry changes |
| AddrEffects.GoodEvicts | btcd/addrmgr/addrmanager.go:973-998 | with its list full: it takes the place of an entry that none of the list is older than; that one is new again with one reference, in its own bucket or, if that is full, in the lowest that held the address; nothing else changes |
| AddrEffects.GoodOfOthers | btcd/addrmgr/addrmanager.go:913-935 | a tried address is refreshed where it is, an unknown one changes nothing |
| AddrEffects.AddEffect | btcd/addrmgr/addrmanager.go:166-241 | which bucket gains a routable address and when; a full one loses all its bad entries and, of the others, one that none is older than; every other entry, bucket and list stays |
| AddrEffects.AddedEntry | btcd/addrmgr/addrmanager.go:176-216 | the entry as given the first time, refreshed in time and services otherwise, with a reference more exactly if a bucket gained it |
| AddrEffects.TimestampGoesBack | btcd/addrmgr/addrmanager.go:182-192 | the last-seen time of a known address goes back if and only if the news is older and brings a new service |
| AddrEffects.BadExactly | btcd/addrmgr/knownaddress.go:86-113 | when an entry is bad, by its times and failed attempts |
| AddrEffects.BadStaysBad | btcd/addrmgr/knownaddress.go:86-113 | more attempts and later times never make a bad entry good, unless its timestamp lay in the future |
| AddrHistory.EntryStep | btcd/addrmgr/addrmanager.go:166-1020 | what every call does to the failed attempts, times, source and services of an address that stays |
| AddrHistory.EntersFresh | btcd/addrmgr/addrmanager.go:206-217 | an address comes into the index only by AddAddress, with nothing against it |
| AddrHistory.AttemptsAreCounted | btcd/addrmgr/addrmanager.go:867-940 | over every run the attempts of an address are the calls of Attempt since the last Good, or since it was added |
| AddrHistory.SomethingBegan | btcd/addrmgr/addrmanager.go:867-940 | every entry of every run has such a call to count from |
| AddrHistory.LastAttemptIs | btcd/addrmgr/addrmanager.go:867-940 | the last attempt on record is the last call of Attempt or Good |
| AddrHistory.LastSuccessIs | btcd/addrmgr/addrmanager.go:913-940 | the last success on record is the last call of Good |
| AddrHistory.ServicesGrow | btcd/addrmgr/addrmanager.go:182-192 | over every run an address loses no service while SetServices is not called for it |
| AddrSteps.StepKeeps | btcd/addrmgr/addrmanager.go:867-1020 | every public operation keeps the invariant |
| AddrSteps.RunKeepsInv | btcd/addrmgr/addrmanager.go:166-297 | over every run from New: each address is tried and in exactly one list, or new with refs its number of buckets, 1 to 8; counters and sizes agree |
| AddrSteps.SixtyFiveAreReached | btcd/addrmgr/addrmanager.go:228-236 | a run from New after which a new bucket holds 65 addresses |
| AddrManagers.AddrManager.constructor | btcd/addrmgr/addrmanager.go:1207-1218 | a new manager has the empty tables |
| AddrManagers.AddrManager.Attempt | btcd/addrmgr/addrmanager.go:867-883 | only the attempt count and time of that address change |
| AddrManagers.AddrManager.Connected | btcd/addrmgr/addrmanager.go:888-908 | only the timestamp of that address changes, and only if it is old |
| AddrManagers.AddrManager.SetServices | btcd/addrmgr/addrmanager.go:1002-1020 | only the services of that address change |
| AddrManagers.AddrManager.AddAddress | btcd/addrmgr/addrmanager.go:614-619 | acts as a possible add step on the tables and keeps the invariant |
| AddrManagers.AddrManager.UpdateAddress | btcd/addrmgr/addrmanager.go:166-240 | the whole new state, for whatever was drawn and expired |
| AddrManagers.AddrManager.Admit | btcd/addrmgr/addrmanager.go:166-222 | when an address is refreshed, filed or passed over |
| AddrManagers.AddrManager.ExpireNew | btcd/addrmgr/addrmanager.go:244-280 | exactly all bad entries and one oldest other entry leave the bucket, and the index with their last reference |
| AddrManagers.AddrManager.DropOne | btcd/addrmgr/addrmanager.go:254-259 | one reference less, and the address forgotten with the last one |
| AddrManagers.AddrManager.PickTriedIn | btcd/addrmgr/addrmanager.go:285-297 | the list scan finds the place that the specification names |
| AddrManagers.OldestPlace | btcd/addrmgr/addrmanager.go:286-296 | the loop returns the first place whose entry is oldest |
| AddrManagers.AddrManager.LeaveNew | btcd/addrmgr/addrmanager.go:941-952 | the loop takes the address out of every bucket, counts each and returns the first |
| AddrManagers.AddrManager.Evict | btcd/addrmgr/addrmanager.go:969-999 | the oldest tried entry goes back to a new bucket and the address takes its place |
| AddrManagers.AddrManager.MoveToTried | btcd/addrmgr/addrmanager.go:936-999 | the objects end as the tables of the specification |
| AddrManagers.AddrManager.Good | btcd/addrmgr/addrmanager.go:913-999 | acts as the specification and keeps the invariant; no object is lost or made |
| AddrManagers.HasReference | btcd/addrmgr/addrmanager.go:206-209 | the bound of the random draw is positive |
| AddrPersist.AddressesIndexed | btcd/addrmgr/addrmanager.go:471-504 | every saved address is filed under its key |
| AddrPersist.NewBucketsLoad | btcd/addrmgr/addrmanager.go:506-520 | the loaded buckets, reference counts and counter are the saved ones |
| AddrPersist.TriedListsLoad | btcd/addrmgr/addrmanager.go:521-533 | the loaded lists, in order, the flags and the counter are the saved ones |
| AddrPersist.SaveLoadRestores | btcd/addrmgr/addrmanager.go:369-546 | saving a reachable manager and loading it into a fresh one passes the sanity checks and restores everything but timestamps |
| AddrPersist.RestoredInv | btcd/addrmgr/addrmanager.go:471-546 | the restored tables satisfy the invariant |
| AddrPersist.FailedLoadCounters | btcd/addrmgr/addrmanager.go:425-442 | after a failed load the invariant holds if and only if no bucket entry was counted before the failure, which can be told from the file |
| AddrPersist.FailedLoadLeavesCount | btcd/addrmgr/addrmanager.go:708-720 | a concrete file that leaves a count of one over empty tables |
| AddrLoad.LoadedSoundExactlyIfWellFiled | btcd/addrmgr/addrmanager.go:471-546 | a load without an error gives tables that satisfy the invariant if and only if no list of the file repeats an address, no address is in too many buckets or in two tried places, and no list is too long |
| AddrLoad.RepeatedListingLoads | btcd/addrmgr/addrmanager.go:506-520 | a concrete file, one bucket listing its address twice, that loads without an error and leaves two references in one bucket |
| AddrFiles.SavePeers | btcd/addrmgr/addrmanager.go:363-421 | the file holds the index once per address, each bucket in some order and each list in its order |
| AddrFiles.LoadPeers | btcd/addrmgr/addrmanager.go:425-442 | what a fresh manager holds after loading any file, absent, unreadable or decoded, with the reset on an error |
| AddrFiles.DeserializePeers | btcd/addrmgr/addrmanager.go:444-549 | tables and error of reading any file: missing, unreadable, of a later version, with addresses that do not parse, or inconsistent |
| AddrFiles.ResetTables | btcd/addrmgr/addrmanager.go:708-720 | the tables are emptied and the counters are kept |
| AddrSelect.Chance | btcd/addrmgr/knownaddress.go:55-76 | the chance is positive and at most one |
| AddrSelect.UnspoiltIsCertain | btcd/addrmgr/knownaddress.go:55-76 | without failed attempts and without an attempt in the last ten minutes the chance is one |
| AddrSelect.RecentIsHundredth | btcd/addrmgr/knownaddress.go:65-68 | an attempt less than ten minutes ago, or in the future, leaves exactly a hundredth of the chance |
| AddrSelect.FailureIsTwoThirds | btcd/addrmgr/knownaddress.go:70-73 | one more failed attempt leaves exactly two thirds of the chance |
| AddrSelect.ComputeChance | btcd/addrmgr/knownaddress.go:55-76 | the loop divides by 1.5 exactly once per failed attempt, after the factor for a recent attempt |
| AddrSelect.SelectedIsIndexed | btcd/addrmgr/addrmanager.go:794-859 | whatever is returned is an indexed entry of the table in use |
| AddrSelect.ChosenTableNotEmpty | btcd/addrmgr/addrmanager.go:794-859 | with addresses present, the chosen table has a bucket with entries |
| AddrSelect.EnoughRefusals | btcd/addrmgr/addrmanager.go:794-859 | for every positive chance some power of 1.2 makes up for it |
| AddrSelect.SelectWithin | btcd/addrmgr/addrmanager.go:808-857 | the loop returns after at most n + 1 non-empty picks, whatever the draws |
| AddrSelect.GetAddressReturns | btcd/addrmgr/addrmanager.go:794-859 | with 1.2^n times the least chance at least one, n + 1 non-empty picks return an indexed address of the chosen table |
| AddrSelect.FirstTakenIsSelected | btcd/addrmgr/addrmanager.go:808-857 | the result is that of the first draw whose number is below 1.2 to the number of earlier non-empty picks, times the chance |
| AddrSelect.NoneTakenNoneSelected | btcd/addrmgr/addrmanager.go:808-857 | while no draw is that low nothing is returned |
| AddrSelect.UnspoiltIsReturned | btcd/addrmgr/addrmanager.go:808-857 | an address with nothing against it is returned by the first non-empty pick that hits it, whatever number is drawn |
| AddrSelect.RecentIsSeldomReturned | btcd/addrmgr/addrmanager.go:808-857 | one attempted in the last ten minutes is taken by that pick if and only if the number is below a hundredth |
| AddrSelect.FailedLoadNeverSelects | btcd/addrmgr/addrmanager.go:794-859 | after a load that failed once entries were counted, addresses are claimed and no sequence of draws ever selects one |
| AddrSelect.GetAddress | btcd/addrmgr/addrmanager.go:794-859 | nothing exactly when there is nothing to choose or the draws run out; else the object the specification selects; with both tables in use the coin decides the table, else it is the one in use |
| PeerTables.NextKeeps | btcd/server.go:1715-1866 | every message keeps the group counts, the limit and the record of finished peers |
| PeerTables.RunKeepsInv | btcd/server.go:1715-1866 | the invariant holds in every state of every run |
| PeerTables.GroupCountsAgree | btcd/server.go:156-168 | in every state of every run a group's count is its outbound plus persistent peers, and peers never exceed the limit |
| PeerTables.DoneForGood | btcd/server.go:1822-1852 | once a peer's done message is handled it is in no table ever after, even if its add message comes later |
| PeerTables.PeerState.HandleAddPeer | btcd/server.go:1715-1818 | adds the peer, to the table it belongs in and with its group count, exactly if it is connected and wanted, no ban of its host lies in the future and there is room |
| PeerTables.PeerState.HandleDonePeer | btcd/server.go:1822-1852 | removes the peer from its table and adjusts the group count only if it was counted |
| PeerTables.PeerState.HandleBanPeer | btcd/server.go:1856-1866 | bans the host and changes no table of peers |
| PeerTables.PeerState.HandleRemove | btcd/server.go:2038-2049 | removes one matching persistent peer with its group count, or nothing |
| PeerTables.PeerState.HandleDisconnect | btcd/server.go:2065-2095 | removes one matching inbound peer, or else every matching outbound peer, with the group counts |
| PeerTables.FindPeer | btcd/server.go:2104-2119 | some matching peer, none exactly when no peer matches |
| PeerRuns.BansOnRecord | btcd/server.go:1733-1866 | in every state of every run a host is on record as banned until a time exactly if its last ban said so and no peer of it that could be added has come since that time |
| PeerRuns.BannedIsRefused | btcd/server.go:1740-1746 | over every run, a peer that comes before the end of the ban of its host that stands changes nothing |
| PeerRuns.AdmittedExactly | btcd/server.go:1715-1775 | over every run an add message puts its peer into its own table, and no other, exactly if it is connected and wanted, no ban of its host stands and fewer than the limit are listed; no other peer is affected |
| PeerRuns.StaysUnlessDismissed | btcd/server.go:1822-2095 | a listed peer stays listed until it is done or among those asked to leave |
| PeerRuns.RemoveTakesOne | btcd/server.go:2038-2049 | exactly one matching persistent peer leaves if there is one, and no other peer |
| PeerRuns.DisconnectTakes | btcd/server.go:2065-2095 | exactly one matching inbound peer leaves, or else exactly the matching outbound peers |
| Subscriptions.AddPairKeeps | btcd/rpcwebsocket.go:888-901 | subscribing keeps both directions in agreement and adds just that pair |
| Subscriptions.RemovePairKeeps | btcd/rpcwebsocket.go:934-954 | unsubscribing keeps both directions in agreement, removes just that pair and leaves no empty inner map |
| Subscriptions.PairsDecide | btcd/rpcwebsocket.go:554-579 | consistent tables are determined by the pairs they hold |
| Subscriptions.AddAll | btcd/rpcwebsocket.go:1126-1144 | the loop adds exactly the pairs of that client |
| Subscriptions.Forget | btcd/rpcwebsocket.go:554-567 | the loop removes every pair of the client and no other |
| Subscriptions.WatchedAfterBlock | btcd/rpcwebsocket.go:506-516 | an outpoint is watched after a block if and only if it was watched before or paid to a listener in the block, and not spent since |
| Subscriptions.SpentInBlockIsForgotten | btcd/rpcwebsocket.go:506-516 | with transactions in dependency order, nothing spent inside the block is still watched |
| Notifications.NextKeepsAbsent | btcd/rpcwebsocket.go:505-591 | a client in no table enters none unless it asks for something itself |
| Notifications.UnregisteredStaysOut | btcd/rpcwebsocket.go:554-567 | after unregistering, a client is in no table over every run until it registers for something |
| Notifications.SpendsOf | btcd/rpcwebsocket.go:905-913 | exactly the mempool transactions that spend one of the outpoints |
| Notifications.Manager.constructor | btcd/rpcwebsocket.go:481-496 | all tables start empty |
| Notifications.Manager.NotifyWatchers | btcd/rpcwebsocket.go:1100-1109 | for one spent outpoint: its watchers are released if confirmed, and each not yet told is told once |
| Notifications.Manager.NotifyForTxIns | btcd/rpcwebsocket.go:1079-1112 | exactly the clients watching some input are told, once each; a block releases exactly the outpoints it spends |
| Notifications.Manager.AddSpentRequests | btcd/rpcwebsocket.go:885-918 | the outpoints are watched, and each mempool spend of them is announced once to each client watching one of its inputs |
| Notifications.Manager.NotifyForTxOuts | btcd/rpcwebsocket.go:990-1036 | exactly the clients listening to a paid address are told, once each, and watch exactly the outputs that pay them |
| Notifications.Manager.NotifyForTx | btcd/rpcwebsocket.go:1064-1073 | both of the above, inputs first; empty tables make no difference |
| Notifications.Manager.ConnectTxs | btcd/rpcwebsocket.go:506-516 | the watched outpoints and the notifications of a block are those of its transactions in turn |
| Notifications.Manager.Unregister | btcd/rpcwebsocket.go:554-567 | the client is in no map and has no requests left |
| Notifications.Manager.Handle | btcd/rpcwebsocket.go:498-591 | every message keeps the tables consistent both ways without empty entries, and has the stated effect on tables and notifications |
| Notifications.Manager.Serve | btcd/rpcwebsocket.go:498-591 | over any list of messages the tables are those of the run |
| NotificationRuns.SubscribedExactly | btcd/rpcwebsocket.go:542-589 | after every run a client is subscribed to blocks, to mempool transactions or to an address if and only if it asked and has not ended that since |
| NotificationRuns.WatchesExactly | btcd/rpcwebsocket.go:506-589 | after every run an outpoint is watched for a client if and only if some message gave it, by request or by paying an address it listens to, and none since took it, by request, by leaving or by a block that spends it |
| NotificationRuns.BlocksAreTold | btcd/rpcwebsocket.go:506-533 | a block is announced once to exactly the clients whose subscription stands |
| NotificationRuns.AcceptedIsTold | btcd/rpcwebsocket.go:535-540 | so a new mempool transaction |
| NotificationRuns.AcceptedSpendsAreTold | btcd/rpcwebsocket.go:535-540 | of a mempool transaction a client hears once, exactly if it watches an input, and once, exactly if it listens to what an output pays |
| NotificationRuns.BlockSpendsAreTold | btcd/rpcwebsocket.go:506-517 | so of every transaction of a connected block, by what is watched after those before it |
| NotificationRuns.RegisteredSpendsAreTold | btcd/rpcwebsocket.go:885-919 | registering outpoints announces exactly the spends of them that the mempool holds, once to each who watches an input |
| Rescan.TransactionNotes | btcd/rpcwebsocket.go:2287-2426 | at most one redeemingtx and then at most one recvtx per transaction |
| Rescan.NotesPrefix | btcd/rpcwebsocket.go:2287-2426 | the notifications of the first transactions are a prefix of those of the block |
| Rescan.TransactionAgrees | btcd/rpcwebsocket.go:2385-2425 | rescanning a transaction and connecting it leave the same outpoints watched if and only if every output that is not watched anyway pays a watched address as printed exactly when it does so as encoded |
| Rescan.RescanAgreesWithLive | btcd/rpcwebsocket.go:2287-2426 | after each transaction of a block the unspent set is what connecting the same transactions leaves that client watching, if and only if the two names agree at every transaction |
| Rescan.PayToPubKeyIsMissed | btcd/rpcwebsocket.go:2385-2395 | an output that pays a public key: watched live and missed by a rescan for the hash address of the key, the other way round for the key itself |
| Rescan.WsClient.Queue | btcd/rpcwebsocket.go:1935-1943 | queueing fails exactly when the client is gone |
| Rescan.ScanInputs | btcd/rpcwebsocket.go:2319-2383 | all spent outpoints are removed and one notification is sent if any input matches; it stops early only when the client is gone |
| Rescan.ScanOutputs | btcd/rpcwebsocket.go:2385-2425 | all outputs paying a watched address are added, with one notification |
| Rescan.RescanBlock | btcd/rpcwebsocket.go:2287-2426 | unless the client leaves, the unspent set is the simple fold and the notifications are those of the fold in order; else a prefix of them |
| RescanChains.HeightRange | btcd/blockchain/chain.go:1538-1579 | the hashes of a range of the main chain, cut at the tip; an error exactly on senseless bounds |
| RescanChains.BlockByHash | btcd/blockchain/chainio.go:1459-1476 | a block off the main chain is never reported as missing from the store |
| RescanRun.RecoverFromReorg | btcd/rpcwebsocket.go:2563-2603 | the new list is on the fork of the last scanned block, at consecutive heights; it stops only for senseless bounds, a first block that cannot be looked up, or another fork |
| RescanRun.ScanBlock | btcd/rpcwebsocket.go:2742-2787 | stops for another fork or a client that left and only then; otherwise the client hears the notes of the block and the progress exactly on a tick, or as many as it waits for |
| RescanRun.HeardMore | btcd/rpcwebsocket.go:2751-2787 | block after block the client hears the notes of the fold over all scanned blocks in order, also once it has left |
| RescanRun.SmoothFinds | btcd/rpcwebsocket.go:2694-2748 | while the chain only grows and the store works, every listed block is found and follows the last one |
| RescanRun.NextFits | btcd/rpcwebsocket.go:2742-2762 | the next block extends the scanned run, by the check for the first of a list and by the snapshot for the others |
| RescanRun.ScanList | btcd/rpcwebsocket.go:2693-2792 | one list keeps the scanned blocks one linked run; it jumps back exactly when a looked-up block is on the main chain and the store lacks it, and a block off the main chain ends it with a database error |
| RescanChains.RunUpToTip | btcd/rpcwebsocket.go:2667-2677 | a linked run that ends in the tip of a chain is that chain, block for block |
| RescanRun.ScanBlockChunks | btcd/rpcwebsocket.go:2610-2796 | whatever reorganisations happen: one linked run without gap or repeat, each block seen on the main chain with the client connected; the client hears exactly their notes in order and one progress per tick, or as many as it waits for; the unspent set of the fold; no end without its cause; while the chain only grows and the client waits, done within four moments per block and two more; registration misses no block from the start on if and only if a block was scanned or the chain still ends below the start, and then registers the fold over all of the chain from the start on; a finished rescan through the tip leaves the client unregistered exactly if recovery found no more blocks; recovery exactly for a main-chain block that the store lacks; a database error on the first listed block off the main chain |
| RescanCases.RescanAtRest | btcd/rpcwebsocket.go:2610-2796 | on a chain at rest: every block from the start to the end or the tip is scanned, all notes are told, and what the fold leaves is registered if the rescan goes through the tip |
| RescanCases.OrdinaryReorganisation | btcd/rpcwebsocket.go:2695-2710 | one block replaced by another between two queries ends the rescan with a database error |
| RescanLive.RescanMatchesConnecting | btcd/rpcwebsocket.go:2671-2676 | where the names of what is paid agree, the outpoints that a rescan registers are those that connecting the same blocks leaves watched |
| RescanLive.LiveWatchesMore | btcd/rpcwebsocket.go:990-1036 | a client registered all along, with mempool transactions accepted between the blocks, watches all of that, and besides only outputs of accepted transactions that pay it |
| RescanLive.RedeemingAgrees | btcd/rpcwebsocket.go:2319-2383 | a rescan tells of a spend exactly if live notification does with the same outpoints, or if an input redeems a watched address |
| RescanLive.BlockRedeemingAgrees | btcd/rpcwebsocket.go:2287-2383 | so at every transaction of a block, where the names agree |
| RescanLive.ReceivedAgrees | btcd/rpcwebsocket.go:2385-2425 | of a payment it tells exactly if live notification does, where the names of every output agree |
| RescanCases.RegisteredTooEarly | btcd/rpcwebsocket.go:2667-2677 | a concrete run in which the chain grows past the start between list and tip: the client is registered with nothing although the new block pays it |
| Queues.QueueStepKeepsFifo | btcd/rpcwebsocket.go:151-193 | every arm of the select keeps received = sent ++ queued and the channels set by emptiness |
| Queues.QueueIsFifo | btcd/rpcwebsocket.go:151-193 | so in every state of every run |
| Queues.OldestIsReady | btcd/rpcwebsocket.go:151-193 | a value can be taken exactly when one is unsent, and it is the oldest |
| Queues.StepKeepsInv | btcd/rpcwebsocket.go:1795-1900 | every step of handler, sender and writer keeps at most one notification under way |
| Queues.RunKeepsInv | btcd/rpcwebsocket.go:1795-1900 | so in every interleaving |
| Queues.DoneNeverBlocks | btcd/rpcwebsocket.go:1795-1920 | whoever signals done finds room in the channel of capacity one |
| Queues.WrittenInOrder | btcd/rpcwebsocket.go:1795-1900 | what is written is a prefix of what was received, and while connected nothing is lost |
| Queues.NeverStuck | btcd/rpcwebsocket.go:1795-1920 | while connected and a notification is unwritten, handler, sender or writer can take a step, and it reduces the work left |
| Queues.EverythingGetsWritten | btcd/rpcwebsocket.go:1795-1920 | from every state of every run while connected, at most as many further steps as there is work left write all that was received |
| Queues.PendingIsOwed | btcd/rpcwebsocket.go:1795-1842 | while connected, a waiting notification always has a done signal under way |
| LongPolls.NextKeepsInv | btcd/rpcserver.go:1441-1546 | registered channels are open and each is registered once |
| LongPolls.ClosedExactlyWhenStale | btcd/rpcserver.go:1441-1546 | a channel handed out is closed exactly when a later notification makes its template stale, and shared until then |
| LongPolls.WorkState.constructor | btcd/rpcserver.go:1441-1483 | the registry starts empty |
| LongPolls.WorkState.CloseAll | btcd/rpcserver.go:1447-1449 | every channel of a group is closed, none a second time |
| LongPolls.WorkState.DropOthers | btcd/rpcserver.go:1445-1452 | exactly the other hashes are dropped and their channels closed |
| LongPolls.WorkState.DropOlder | btcd/rpcserver.go:1467-1482 | exactly the older channels are closed, and the hash is dropped if none is left |
| LongPolls.WorkState.NotifyLongPollers | btcd/rpcserver.go:1441-1483 | exactly the entries with the hash and a time not before the given one remain, no inner map is empty, no channel is closed twice |
| LongPolls.WorkState.TemplateUpdateChan | btcd/rpcserver.go:1527-1546 | the open channel registered for the template, made if there was none |
| Paging.PageOfTwo | btcd/rpcserver.go:3205-3305 | a page of two lists in a row is a page of the first and then one of the second |
| Paging.AllEndsWith | btcd/blockchain/indexers/addrindex.go:274-290 | the levels read first hold the newest entries |
| Paging.DbFetch | btcd/blockchain/indexers/addrindex.go:265-342 | a page of what was loaded in the order asked for, and how many entries were skipped |
| Paging.LoadedIsEnough | btcd/blockchain/indexers/addrindex.go:271-300 | reading only some levels gives the right page unless the 32-bit sum wraps and entries are missed; then it is too short |
| Paging.FetchMempool | btcd/rpcserver.go:3127-3143 | the page of the mempool; a panic exactly when the end of the range wraps |
| Paging.ForwardIsPage | btcd/rpcserver.go:3205-3305 | database then mempool: the requested page, or a shorter one exactly when the count is cut |
| Paging.ReverseIsPage | btcd/rpcserver.go:3205-3305 | mempool then database from the newest: the requested page, or a shorter one exactly when levels are missed or the count is cut |
| Paging.SearchIsRight | btcd/rpcserver.go:3202-3305 | for every skip below 2^32 and every count, in either order: the reply is the requested page of both sources in a row if and only if the buffer for the count can be made, no slice panics, no level is missed and the count is not cut |
| Paging.LargeSkipIsRight | btcd/rpcserver.go:3217-3262 | a skip of 2^32 or more past the end of the lists should find nothing, and the reply says so if and only if the buffer can be made, nothing panics and the low 32 bits of the skip find nothing |
| Paging.LargeSkipInsideIsWrong | btcd/rpcserver.go:3217-3262 | a skip of 2^32 or more that is within the lists never gives the requested page, if the entries at the skip and at its low 32 bits differ |
| Paging.SearchRawTransactions | btcd/rpcserver.go:3202-3305 | defaults, the buffer for the count, conversions and accumulation give the reply that the theorems above are about |
| Paging.NoWrapNoHarm | btcd/rpcserver.go:3205-3305 | with skip plus count below 2^32 a request fails if and only if the buffer cannot be made |
| Paging.DefaultPage | btcd/rpcserver.go:3202-3225 | without a skip or with a negative one the reply begins at the first transaction; it gives up to a hundred without a count and one for a negative count |
| Paging.SkipOneAskForAll | btcd/rpcserver.go:3127-3143 | a concrete request that panics although a page exists |
| Paging.AskForTooMany | btcd/rpcserver.go:3254-3259 | a concrete request whose count loses its upper bits and finds nothing, where there is memory for that count |
| Paging.SkipTooMany | btcd/rpcserver.go:3254-3259 | a concrete request whose skip loses its upper bits and finds what it should skip |
| AddrLevels.MoveKeepsAll | btcd/blockchain/indexers/addrindex.go:192-259 | moving entries between neighbouring levels in order leaves the list unchanged |
| AddrLevels.ShiftUp | btcd/blockchain/indexers/addrindex.go:230-254 | the merge and the moves leave the list unchanged and level 0 free |
| AddrLevels.PutEntry | btcd/blockchain/indexers/addrindex.go:192-259 | the list grows by one entry at the end and every level stays within the rule |
| AddrLevels.MinEntriesToReachLevel | btcd/blockchain/indexers/addrindex.go:348-356 | the least number of entries with which a level is in use |
| AddrLevels.CutNewest | btcd/blockchain/indexers/addrindex.go:402-431 | the newest entries are cut off; an error exactly when there are not that many |
| AddrLevels.Squash | btcd/blockchain/indexers/addrindex.go:454-490 | what is left of the level fills the lowest levels within the rule, in order |
| AddrLevels.Backfill | btcd/blockchain/indexers/addrindex.go:492-536 | data of higher levels closes the gap, and all levels are within the rule again |
| AddrLevels.RemoveEntries | btcd/blockchain/indexers/addrindex.go:371-540 | the list loses exactly its newest entries, the levels keep the rule, and an error changes nothing |
| AddrLevels.LevelsAreLogarithmic | btcd/blockchain/indexers/addrindex.go:97-119 | with n entries the highest level in use holds at most n + 7, so levels are logarithmic in n |
| AddrLevels.NothingIsHidden | btcd/blockchain/indexers/addrindex.go:276-290 | levels that keep the rule are all read, although a fetch stops at the first missing one |
| AddrLevels.Bucket.Put | btcd/blockchain/indexers/addrindex.go:192-259 | the bucket of an address behaves as an append to a list |
| AddrLevels.Bucket.Remove | btcd/blockchain/indexers/addrindex.go:371-540 | and as a truncation of it |

## Left out

- The OrcaNet layers (fileshare, proxy, server, frontend) and btcwallet: network, process and user-interface plumbing without state of this kind.
- Hashing, proof of work, scripts, address encoding, JSON and gob: hashes are names of what they hash, work is a natural number, the addresses an output pays are given with it under both of their names, and encoding succeeds.
- connectBestChain, checkBlockContext and the block store: their outcomes are inputs of the accept step.
- Bucket choice, group keys and routability: arbitrary functions of the address; the prefix tables would only add easy members.
- Locks: each exported call is one atomic step, as its mutex makes it.
- Clocks and random numbers: parameters. One reading of the clock serves a whole call, where isBad reads it for each address.
- AddAddresses, AddressCache, local addresses and the periodic dump of the address manager: repetition of the operations that are modelled, or easy.
- The remaining peer messages (relay, broadcast, and the queries that only read): they change no table.
- rescanblocks, the per-client transaction filter, and the filtered block notifications that depend on it.
- Replies and progress of a rescan beyond the scanned blocks, the unspent set and the registration.
- numClients and shutdown of the notification handler: they only read the client table.
- AddrSelect.GetAddress: chances and factors are real numbers; the rounding of floating point is not modelled.
- AddrFiles.LoadPeers: loading into a fresh manager, which is when the source loads; the strings of addresses that parse are their own keys.
- Notifications.Manager.NotifyForTxOuts: how often a client is told of a mempool spend of a new output is not stated, since it depends on the order in which the map of listeners is walked.
- PeerTables.GroupCountsAgree: relies on what the rest of the server provides, namely unique peer ids, a known version when a peer is added, and one add per peer.
- CfCheckpt.EveryReplyIsDirect: assumes that lookups succeed, without which it is false; CfCheckpt.RightExactlyWhileUnmixed covers runs with failures, for filter headers that differ from block to block.
- RescanRun.ScanBlockChunks: that a rescan ends is claimed only while the chain grows without reorganisations, since otherwise the source polls for as long as the tip differs from the last scanned block.
- NotificationRuns.AcceptedSpendsAreTold: for a transaction that the mempool does not hold as spending its own outputs.
- NotificationRuns.BlockSpendsAreTold: for a transaction that occurs once in its block.
- Queues.WrittenInOrder: says nothing of replies, which share the send channel, except that they do not disturb the notifications.
- Paging.SearchRawTransactions: the index of an address is below 2^32 bytes and the mempool list below 2^32 entries, which is what their 32-bit lengths can hold; the order of the mempool list is given.
- Paging.LargeSkipInsideIsWrong: lists that hold one transaction both there and 2^32 places before are not covered.
- AddrLevels.RemoveEntries: lengths are counted in entries of 12 bytes, and the pending updates are applied as they are made.
