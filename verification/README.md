# Verified model of the iftopcolor core

This project models the traffic accounting, name resolution and display logic of iftopcolor in Dafny and
proves that the fast structures of the program compute what much simpler descriptions say.

- **Flow accounting** (`Packets`, `Ledger`, `Refinement`, `Facing`,
  `Conservation`). `handle_ip_packet` and `history_rotate` as a state machine
  over a 40-slot ring. The reference semantics is a plain packet log that only counts how many rotations
  ago each packet was seen; ring, lazy deletion and running totals refine it over whole runs. `Ring` holds
  the cyclic arithmetic, for rings of any size.
- **The real structures** (`PoolTable`, `AddrHash`, `HistPool`, `RecordTable`, `Rotation`, `Monitor`). Any
  number of chained hash tables over one shared node pool, the record pool whose free list overlays the
  records, and the packet, rotation and grouping code on top of them, including the loop that deletes while
  it iterates. Memory is an arena and a pointer is an index into it, so aliasing through shared `next`
  cells is modelled.
- **Display** (`Analysis`, `Display`, `ScreenOrder`, `SortedList`, `DisplayOrder`). Projection of flows to
  lines, the three window sums, scaling to rates, the comparators and the sorted list.
- **The program** (`Program`). Packets, rotations and analyses in any order, with flow and line table in
  the same pool.
- **Resolver** (`NameCache`, `Resolver`, `ResolverMutex`, `ResolverProtocol`, `ResolverBound`). Every
  interleaving of callers, two workers, signals, spurious wake-ups and cache flushes.
- **Service names** (`ServTable`). The two port arrays and the fallback hash as one map.
- **Configuration** (`CString`, `StringMap`, `Config`, `NetMask`). The search tree, the line reader, the
  precedence of sources, and the net-filter masks.

`Prelude` holds what all modules share, `Sums` finite sums over maps, and `Chains` the bucket chain of the
generic hash. `dafny verify dfyconfig.toml` checks everything.

Some predicates are sealed, in the form `forall g | Opened(x, g) :: P`. They mean `P`; the form only keeps
the verifier from looking inside where it need not.

## Where the code does less than one might expect

Seven expected properties hold only under a condition, which is proved exact. Each has a concrete failing
input or run:

- The totals' `sent` and `recv` columns match the flows' columns for a packet exactly when
  `ColumnsDisagree` is false; a third-party IPv4 packet with a larger source address is sent in its flow
  and received in the totals (`Packets.ColumnsCanDiffer`). Per slot the gap is exactly the stray bytes.
- A packet and its reply fill opposite columns of one flow exactly when `HasTwoWayFlow` holds. A packet
  that a machine sends to itself and a third-party IPv6 packet fail it (`Packets.ReplyCanMiss`).
- A wake-up can be lost at start-up: a worker waits before it looks at the queue, so a caller that is
  faster than both workers strands its job (`ResolverProtocol.LostWakeup`). From start-up this happens
  exactly when neither worker has reached its first wait.
- With the order frozen, the rates of the listed lines add up to the totals exactly when every flow whose
  line is left off the list is idle in that division. A flow that starts after the order is frozen breaks
  it (`Display.FrozenRatesCanMiss`).
- An IPv6 prefix length starting from the default mask `ffff::` means that prefix exactly from 9 upwards,
  because the mask is not cleared first (`NetMask.StaleBitRefuses`).
- An IPv4 prefix length means that prefix exactly up to 32. A larger one is reported, and still switches
  the filter on with the previous mask, 24 bits by default (`NetMask.DefaultMeansPrefix4`).
- The counter of the service table equals the number of named services exactly when no insertion ever hit
  a service that had a name; otherwise it is too large by one for each such insertion
  (`ServTable.CountCanBeAhead`).

## Model

| member | source | states |
|---|---|---|
| Packets.FilteredVerdict | src/entry/iftop.c:369-427 | with a net filter on, a packet is accepted iff one end and not the other is inside; its flow runs from inside to outside, and it is sent and outgoing iff it comes from inside |
| Packets.UnfilteredVerdict | src/entry/iftop.c:314-367 | without one, acceptance, direction, column and key in terms of hardware, own address and address order |
| Packets.VerdictFields | src/entry/iftop.c:429-454 | bytes with the 40 of an IPv6 header, protocol and family of every verdict; anything that is not IP goes under one empty key |
| Packets.LinkLocalRange | src/entry/iftop.c:423-427 | the refused addresses are fe80:: up to febf:: |
| Packets.ColumnsAgreeExactly | src/entry/iftop.c:314-419 | flow column and totals column of an accepted packet agree iff a check on the packet alone says so |
| Packets.FiltersMakeColumnsAgree | src/entry/iftop.c:369-419 | with both net filters on, the columns always agree |
| Packets.ColumnsCanDiffer | src/entry/iftop.c:359-365 | a concrete packet for which they differ |
| Packets.ReplyLaw | src/entry/iftop.c:241-427 | packet and reply are accepted together, and share a flow with opposite columns iff `HasTwoWayFlow` |
| Packets.ReplyCanMiss | src/entry/iftop.c:314-367 | two concrete packets whose replies land in the same column |
| Packets.FlippedReplyHasSameKey | src/entry/iftop.c:241-297 | flipping a packet gives the key of its unflipped reply, ports included |
| Ring.BackShifts | src/entry/iftop.c:150 | in a ring of any size, advancing the clock moves every slot but the recycled one back by one age |
| Ring.BackExpires | src/entry/iftop.c:157 | in a ring of any size, only the oldest slot is the one about to be recycled, so the test `last_write == history_pos` holds iff the last packet is that old |
| Ring.ClockStep | src/entry/iftop.c:150 | a clock that advances in a ring of any size is its number of steps modulo the size |
| Refinement.RingRefinesLog | src/entry/iftop.c:148-173 | in every run each flow has a record iff seen in the last 40 slots, and each slot of both columns is the log of that age |
| Refinement.ClockCountsRotations | src/entry/iftop.c:150-172 | clock and `history_len` are functions of the number of rotations |
| Refinement.TotalsRefineLog | src/entry/iftop.c:494-504 | every slot of the grand totals is the log of all traffic of that age |
| Refinement.LifetimeTotals | src/entry/iftop.c:499-503 | cumulative totals are all bytes ever counted |
| Refinement.ExpiresAtLastRotation | src/entry/iftop.c:148-165 | after its last packet a flow survives exactly 39 rotations and is gone at the 40th |
| Refinement.ReturnsAfresh | src/entry/iftop.c:456-492 | a flow back after a full silent window gets a record holding its new packet and nothing else |
| Conservation.ExpiredFlowIsEmpty | src/entry/iftop.c:157-168 | every slot of a deleted flow but the one being recycled is zero |
| Facing.FlowsFaceOut | src/entry/iftop.c:369-419 | while both filters stay on, every flow on record runs from inside its network to outside |
| Conservation.FlowsHoldEveryByte | src/entry/iftop.c:148-173 | for every slot the live flows hold all bytes logged for it, per column |
| Conservation.SlotConservation | src/entry/iftop.c:484-504 | flows and totals agree per slot together, and per column up to exactly the stray bytes |
| Conservation.FilteredRunsHaveNoStrays | src/entry/iftop.c:369-419 | no stray bytes while both filters are on |
| PoolTable.ListUnlink | src/data/map/addr_hash.c:164-168 | redirecting the predecessor removes exactly one node from a chain and frees its cell |
| PoolTable.ShapeAfterGrow | src/data/map/addr_hash.c:36-48 | a new block threads 255 free nodes and hands out one, leaving every chain intact |
| PoolTable.ItemsOfTable | src/data/map/hash.c:81-102 | iteration order of a table has no repeats and exactly the nodes the table owns |
| AddrHash.ExactlyOneList | src/data/map/addr_hash.c:25-54 | every node is on the free list or in exactly one table, and free plus live is 256 per block |
| AddrHash.Heap.Alloc | src/data/map/addr_hash.c:28-49 | hands out a node that is on no chain; all chains stay |
| AddrHash.Heap.Release | src/data/map/addr_hash.c:51-54 | puts a loose node in front of the free list; all chains stay |
| AddrHash.Heap.Find | src/data/map/addr_hash.c:121-133 | first node with the key in its bucket, or no node of the table has it |
| AddrHash.Heap.Insert | src/data/map/addr_hash.c:136-150 | new node at the front of its bucket; iteration gains just that node |
| AddrHash.Heap.DeleteNode | src/data/map/addr_hash.c:152-173 | iteration loses just the target, other tables stay; a target not on its chain changes nothing |
| AddrHash.Heap.DeleteAllFree | src/data/map/addr_hash.c:175-188 | table empty, each record freed once in order, nodes back in the pool, other tables intact |
| AddrHash.Heap.NextItem | src/data/map/hash.c:81-102 | the successor in iteration order; null starts and ends it |
| HistPool.Pool.Create | src/entry/iftop.c:117-141 | a record not in use before, zeroed whatever it held; records in use unchanged |
| HistPool.Pool.Free | src/entry/iftop.c:143-146 | only the freed record leaves use, though its first word is overwritten |
| Monitor.Monitor.HandlePacket | src/entry/iftop.c:299-505 | on hash, pools and totals does what one ledger step does |
| Monitor.Monitor.RotateFlows | src/entry/iftop.c:151-165 | prefetch-then-delete visits each original node exactly once and removes exactly the expired flows |
| Monitor.Monitor.HistoryRotate | src/entry/iftop.c:148-173 | is one ledger rotation |
| Monitor.Monitor.ClearLines | src/ui/ui.c:1039-1047 | zeroes every line in place and removes none |
| Monitor.Monitor.DeleteLines | src/ui/ui.c:1069-1070 | frees all lines; the flows in the same node pool stay as they are |
| Monitor.Monitor.GroupFlows | src/ui/ui.c:1078-1181 | iterates the flow table while inserting into the line table; each flow is met once and the lines are their grouping |
| Monitor.Monitor.ReadLines | src/ui/ui.c:993-1012 | iterating the line table meets every line once |
| RecordTable.IterationVisitsAll | src/data/map/hash.c:81-102 | iterating a table meets every key exactly once |
| RecordTable.MatchedAfterAdd | src/entry/iftop.c:456-458 | a new node with a record not in use adds one key to the map that the table stands for |
| RecordTable.MatchedAfterDrop | src/entry/iftop.c:157-163 | deleting a node and giving its record back removes one key and changes no other |
| Analysis.ProjectFields | src/ui/ui.c:1087-1106 | hidden parts of a line's key are zero, the others those of the flow |
| Analysis.SameLineExactly | src/ui/ui.c:1087-1106 | two flows share a line iff they agree on everything not hidden |
| Analysis.AddWindows | src/ui/ui.c:1153-1180 | for a ring of any size and any inner divisions, the three loops add the newest slots of each length |
| Analysis.Accumulate | src/ui/ui.c:1147-1180 | adds the 2, 10 and 40 slot windows and the lifetime totals of a flow to its line |
| Analysis.LinesAreSums | src/ui/ui.c:1078-1181 | each figure of each line is the sum over the flows projecting to it, in any visiting order |
| Analysis.LinesAreProjections | src/ui/ui.c:1109-1113 | the lines are the old ones and the projections of the flows |
| Analysis.GroupingConserves | src/ui/ui.c:1078-1181 | lines and flows add up to the same for every figure |
| Analysis.FrozenAgreesWithRebuilt | src/ui/ui.c:1066-1071 | zero-and-reaccumulate and rebuild give every line the same figures |
| Analysis.ProjectionsCompose | src/ui/ui.c:1089-1106 | two-step projection is one-step projection iff the first is no coarser |
| Analysis.CoarserIsRegrouped | src/ui/ui.c:1089-1181 | a coarser display is the finer one regrouped |
| Analysis.WindowMeansLog | src/ui/ui.c:1058-1061 | a window of a flow is its logged bytes of the last slots |
| Analysis.TotalWindowMeansLog | src/ui/ui.c:942-964 | a window of the totals is all logged bytes of the last slots |
| Analysis.WindowConservation | src/ui/ui.c:942-964 | for windows of any length all flows hold what the totals hold |
| Analysis.OneWayConservation | src/ui/ui.c:942-964 | in each direction flows and totals hold the same up to exactly the stray bytes |
| Display.HistoryLengthPositive | src/ui/ui.c:735-748 | no division ever has length zero |
| Display.HistoryLengthIsWatched | src/ui/ui.c:735-748 | a division's length is the time its slots have been open, read off the event log: one second for each finished slot and the elapsed part of the newest |
| Display.Screen.MakeScreenList | src/ui/ui.c:976-1034 | every line is scaled and, unless frozen, listed exactly once and sorted as the mode asks, ties in any order |
| Display.Screen.CalculateTotals | src/ui/ui.c:923-973 | totals are the scaled windows of the grand totals, and the peaks the largest slots seen |
| Program.Program.AnalyseData | src/ui/ui.c:1049-1187 | the whole new screen state, frozen, unfrozen and paused; flows and totals stay |
| Program.Program.Replay | src/entry/iftop.c:148-173 | any run of packets, rotations and analyses leaves the flow table in the ledger's state, though analyses empty and refill the line table from the same pool |
| Program.Program.Watch | src/ui/ui.c:1049-1187 | after any such run the screen has exactly the right lines, every figure and total is what the log holds, the list is in order unless frozen, and the rates add up to the totals iff the unlisted flows are idle |
| Program.AnalysedRates | src/ui/ui.c:966-1033 | the same for one analysis of any reachable state |
| Program.AnalysedIsTruthful | src/ui/ui.c:1049-1187 | one analysis of any reachable state shows what the log holds |
| Program.AnalysedIsInOrder | src/ui/ui.c:1014-1032 | an unfrozen list holds every line once, and of any two the upper ranks above the lower under the names of sources or destinations |
| Program.AnalysedOneWay | src/ui/ui.c:966-1033 | with both filters on the rates add up in each direction on its own |
| Display.LineMeansLog | src/ui/ui.c:1078-1181 | each window of each line is the traffic the packet log holds for its flows |
| Display.LinesShowLog | src/ui/ui.c:987-1012 | each rate on a line is the logged bytes of its flows over the last 2, 10 or 40 slots, sent and received each, divided by the seconds watched; its totals are their lifetime bytes |
| Display.TotalsDoShowLog | src/ui/ui.c:942-973 | the same for the displayed totals and all traffic, in each direction |
| Display.LineIdleExactly | src/ui/ui.c:1078-1181 | a figure of a line is zero iff every flow shown on it is idle |
| Display.ListedRatesAddUp | src/ui/ui.c:966-1012 | listed rates add up to the displayed totals iff every flow whose line is not listed is idle |
| Display.FrozenRatesCanMiss | src/ui/ui.c:1066-1067 | a run after which a frozen screen does not add up |
| Display.UnfrozenRatesAddUp | src/ui/ui.c:966-1033 | after an unfrozen analysis they always add up |
| Display.FilteredRatesAddUpOneWay | src/ui/ui.c:966-1033 | with both filters on, sent and received rates each add up to their own total iff the unlisted flows are idle in that direction |
| Display.ListedRatesAddUpOneWay | src/ui/ui.c:966-1033 | with every line listed they do so iff no stray byte is in the window |
| ScreenOrder.BandwidthCompare | src/ui/ui.c:529-557 | is the lexicographic order of a key, in every display mode |
| ScreenOrder.BandwidthMeans | src/ui/ui.c:529-557 | that order is: no less sent, received or both, as displayed, at the first division that differs, and both together on a tie |
| ScreenOrder.Compare | src/ui/ui.c:564-588 | is the order of the mode's key |
| ScreenOrder.AfterMeansRanked | src/ui/ui.c:564-588 | in each mode the upper line has no less in that mode's own division and column, or the earlier host name |
| CString.StrcmpIsDictionaryOrder | src/ui/ui.c:564-567 | `strcmp` is negative iff at the first difference the first string has the smaller character or ends |
| ScreenOrder.AfterIsTotalPreorder | src/ui/ui.c:529-588 | in every mode a total preorder whose ties are equal keys |
| SortedList.InsertAllSortsStably | src/data/sorted_list.c:20-34 | any insertions give a sorted permutation with ties in insertion order |
| SortedList.SortsAgreeUpToTies | src/data/sorted_list.c:40-50 | two sorted permutations carry the same key at every position |
| SortedList.List.Insert | src/data/sorted_list.c:20-34 | the linked list holds the inserted sequence |
| SortedList.List.Chain | src/data/sorted_list.c:52-61 | the batch chain holds the sorted items and replaces earlier contents |
| SortedList.List.InsertBatch | src/data/sorted_list.c:40-62 | a non-empty batch leaves a sorted permutation of it, ties in any order |
| DisplayOrder.ScreenListIsSorted | src/data/sorted_list.c:20-50 | in every mode repeated insertion sorts stably, and any other sort agrees with it up to ties |
| DisplayOrder.ListIsRanked | src/ui/ui.c:529-588 | of any two lines of a sorted list the upper one ranks above the lower |
| Chains.FindWalk | src/data/map/hash.c:64-79 | the walk finds the first entry with the key |
| Chains.DeleteWalk | src/data/map/hash.c:30-62 | the walk unlinks the first entry with the key |
| Chains.DeleteMeansRemove | src/data/map/hash.c:30-62 | deleting from a chain with unique keys removes exactly that key |
| NameCache.InsertNew | src/data/map/hash.c:9-28 | inserting an absent address adds one entry and changes no other |
| NameCache.Replace | src/util/resolver.c:447-453 | delete-then-insert keeps the number of entries and changes one name |
| Resolver.PendingAfterEnqueue | src/util/resolver.c:511-512 | writing at the head appends to the ring |
| Resolver.JobsAfterResolve | src/util/resolver.c:494-514 | a job is queued iff uncached, not link- or site-local, and fewer than 19 pending |
| Resolver.StaysNumericRange | src/util/resolver.c:507-509 | the addresses never looked up are fe80::/10 and fec0::/10 |
| Resolver.ResolveAnswers | src/util/resolver.c:494-519 | a cached address gets its cached name and changes nothing; any other gets its numeric form |
| Resolver.CacheAfterResolve | src/util/resolver.c:494-520 | `resolve` keeps keys unique, the counter right and names proper, and returns a proper name |
| Resolver.ResolveIsUpdate | src/util/resolver.c:494-503 | one name set, others kept, or all dropped iff the cache was full |
| Resolver.StoreIsUpdate | src/util/resolver.c:441-454 | an answer replaces one name; a failed lookup changes nothing |
| ResolverMutex.Resolver.Resolve | src/util/resolver.c:492-522 | the critical section on the mutable globals is the protocol step |
| ResolverMutex.Resolver.TakeJob | src/util/resolver.c:424-430 | takes the oldest job |
| ResolverMutex.Resolver.StoreAnswer | src/util/resolver.c:439-454 | the critical section after the lookup is the protocol step |
| ResolverMutex.Resolver.EvictIfFull | src/data/map/ns_hash.c:59-66 | clears cache and counter iff full |
| ResolverProtocol.AlwaysSound | src/util/resolver.c:414-528 | in every interleaving: unique keys, right counter, names of the right address, FIFO exactly-once queue, every job taken is with one worker or finished, no repeats between flushes, the bound |
| ResolverProtocol.NameStays | src/util/resolver.c:441-518 | a cached name stays through any steps that neither flush the cache nor answer for its address |
| ResolverProtocol.AnswerIsReturned | src/util/resolver.c:432-518 | in every interleaving, once a worker stores an answer every call for that address returns it, until a flush or another answer |
| ResolverProtocol.CacheNeverOverflows | src/util/resolver.c:439-514 | never more than NS_HASH_MAX_ENTRIES + 21 names and 19 queued jobs |
| ResolverBound.BoundIsReached | src/util/resolver.c:439-514 | some interleaving reaches exactly NS_HASH_MAX_ENTRIES + 21 names |
| ResolverProtocol.AttendedRun | src/util/resolver.c:418-456 | from any world with a started worker and attended jobs, queued jobs stay attended |
| ResolverProtocol.LostWakeup | src/util/resolver.c:416-421 | from start-up a run strands a job with both workers asleep |
| ResolverProtocol.NoLostWakeupExactly | src/util/resolver.c:414-526 | no wake-up is ever lost iff some worker had reached its first wait |
| StringMap.AttachAdds | src/data/map/stringmap.c:74-103 | attaching where the walk ends keeps every stored key findable and adds one |
| StringMap.SetDataSets | src/config/cfgfile.c:256-259 | overriding a node's data changes the map at its key only |
| StringMap.Tree.Find | src/data/map/stringmap.c:109-133 | finds a key iff the map has it |
| StringMap.Tree.Insert | src/data/map/stringmap.c:65-104 | adds an absent key; an existing item wins and its node is returned |
| Config.LineRoundTrip | src/config/cfgfile.c:90-118 | a directive line parses to its key and value whatever the spacing and comment |
| Config.NoEntryExactly | src/config/cfgfile.c:90-104 | a line sets nothing iff it has no colon before its comment or no key before the colon |
| Config.FileRoundTrip | src/config/cfgfile.c:75-142 | reading back a written file gives exactly its entries in order |
| Config.NextLineUnfolds | src/config/cfgfile.c:75-89 | a line folded over continuation lines in any way that fits the buffer is read as the line itself |
| Config.PieceIsFgets | src/config/cfgfile.c:75 | `fgets` stops behind a newline, at the end of the text or when the buffer is full, and not before |
| Config.BackslashAtTheEnd | src/config/cfgfile.c:82-85 | a backslash at the end of the file stays; one that fills the buffer is dropped and ends the line |
| Config.EntriesOfLine | src/config/cfgfile.c:75-142 | a line adds itself if it parses and its directive is known, else nothing |
| Config.FoldedRoundTrip | src/config/cfgfile.c:75-142 | a file reads back to its entries however its lines are folded |
| Config.Settings.SetString | src/config/cfgfile.c:253-263 | overrides one directive |
| Config.Settings.ReadFile | src/config/cfgfile.c:59-148 | each directive keeps its earlier value, else gets its first entry in the file |
| Config.Settings.Configure | src/entry/iftop.c:840-845 | last command-line setting, else first valid entry of the file, else absent |
| NetMask.SetPrefix4 | src/config/options.c:517-544 | switches the filter on for every length; the mask is the prefix up to 32 and the previous one beyond |
| NetMask.PrefixMask4 | src/config/options.c:524-534 | for 0 to 32 the filter accepts exactly the addresses sharing the prefix, beyond that those agreeing on the previous mask |
| NetMask.DefaultMeansPrefix4 | src/config/options.c:126 | from the default mask a length that is too large means 24 |
| NetMask.SetPrefix6 | src/config/options.c:579-598 | the byte loops set the prefix and leave later bytes; other lengths leave the filter off |
| NetMask.InNetBits6 | src/entry/iftop.c:396-404 | the masked comparison looks at exactly the bits set in the mask |
| NetMask.PrefixMeaningExactly | src/config/options.c:583-598 | the filter means the prefix iff the mask had no bit set past it |
| NetMask.DefaultMeansPrefixExactly | src/config/options.c:129 | from the default mask this is exactly 9 and upwards |
| NetMask.Prefix4Verdict | src/entry/iftop.c:369-384 | with an IPv4 filter of a given length, a packet is counted iff exactly one end shares that prefix, and outgoing iff it is the source |
| NetMask.Prefix6Verdict | src/entry/iftop.c:386-419 | the same for IPv6 |
| ServTable.LookupIsLastBinding | src/data/map/serv_hash.c:53-126 | after any run of insertions and deletions a lookup answers with the last binding not taken back since |
| ServTable.CountLaw | src/data/map/serv_hash.c:74-126 | the counter is the number of bound services plus the insertions that hit a bound one |
| ServTable.CountIsExactly | src/data/map/serv_hash.c:74-130 | it is never below the number of bound services, and equal iff no insertion hit a bound one |
| ServTable.CountCanBeAhead | src/data/map/serv_hash.c:74-89 | two insertions for one service count twice |
| ServTable.Table.Find | src/data/map/serv_hash.c:53-103 | arrays and fallback hash together answer as one map, ports out of range included |
| ServTable.Table.Insert | src/data/map/serv_hash.c:53-89 | binds one service, whichever structure holds it |
| ServTable.Table.Delete | src/data/map/serv_hash.c:105-126 | unbinds one service and says whether it was bound |
| ServTable.Table.Replay | src/data/map/serv_hash.c:53-126 | any run of insertions and deletions leaves the map and counter of the reference run |

## Left out

- Data races: the packet path does not take `tick_mutex`; packet, rotation and analysis are atomic steps here.
- Capture and link-layer handlers: the model starts from a parsed IP header; the two `resolve` calls of `handle_ip_packet` are modelled in the resolver only.
- The hash function of the address table: it is a parameter, any function into the bucket range, as in `hash_type`.
- Pointers: memory blocks are one growing arena, so addresses of blocks and `free` to the system are not visible; aliasing, reuse and order are.
- Screen lines: bytes are kept in the line table and rates in `Display.Screen`, where the program overwrites the one with the other; the memory of lines is given back all at once.
- SortedList.List.Qsort: any sort that sorts; that `qsort` does so with a comparator that never answers zero is not part of this model.
- Program.Program.AnalyseData: what the resolver or `inet_ntop` answers while sorting is given.
- Config.NextLineUnfolds: lines longer than the buffer are modelled by `NextLine` and not part of the theorem.
- Display.HistoryLengthIsWatched: every finished slot counts as one second; a rotation that comes late is not modelled, nor is it in the program.
- Analysis.AddWindows: `long double` rounding and counter overflow are not modelled; sums are exact.
- Config.Settings.ReadFile: warnings for unknown directives are not modelled, and a NUL character in a file counts as an ordinary one.
- NetMask.SetPrefix4: masks written as addresses are any word, and a length too large for an `int` is not modelled.
- Option parsing with `getopt` and the other typed getters of the configuration: a setting is a pair of strings.
- The lookup itself: an arbitrary, possibly failing answer for each job; a thread killed during a lookup is not modelled.
- Vectors, process attribution, export, drawing and key handling: they would add easy members or belong to the terminal and the operating system.
