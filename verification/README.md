# A verified model of the LNet core

This project models, in Dafny 4.11, the parts of LNet (the Lustre network layer) that are hardest to
get right by reading, and proves what they promise over every input or every run.

| area | modules | source |
|---|---|---|
| per-partition spinlocks with an exclusive mode | `PercptLock` | `lnet/lnet/lock.c` |
| wildcard portals: matching, stealing, delaying, attaching | `Matching`, `MatchTables`, `PortalMaps`, `QueueScan`, `PortalProtocol`, `PortalSafety`, `PortalIdentity`, `PortalSteps`, `PortalOutcomes`, `PortalTheorems`, `PortalProgress`, `PortalRace` | `lnet/lnet/lib-ptl.c`, `lnet/lnet/lib-me.c` |
| memory descriptors and messages | `MdBuild`, `MdLifecycle`, `MsgCommit`, `ResendBreaker` | `lnet/lnet/lib-md.c`, `lnet/lnet/lib-msg.c` |
| CPU partition tables | `CptTable`, `CptCreate` | `lnet/lnet/lib-cpt.c` |
| which partition serves a NID | `NidHash`, `NidCpt` | `lnet/lnet/api-ni.c`, `lnet/lnet/config.c` |
| range expressions, address ranges, NID lists | `Numerals`, `RangeExpr`, `ExprSyntax`, `AddrRange`, `Contiguity`, `NidList`, `NidSyntax` | `lib/libcfs/string.c`, `lib/libcfs/nidstrings.c` |
| debug trace pages | `TracePages` | `lnet/libcfs/tracefile.c` |

`Machine` holds the machine's constants and `Collections` the types all of them share.

## How concurrency is modelled

A protocol is a state machine: a `State`, a `Step` for each critical section or unlocked read, a guard
`Enabled` and an effect `Apply`. `Feasible` and `Exec` run a sequence of steps from a state. An invariant
`Inv` is kept by every step (`InvPreserved`), hence by every run (`ExecInv`), and the main results speak
about `Exec(s0, steps)` for any initial `s0` and any feasible `steps`: any number of threads, messages,
partitions and any interleaving. Objects that the source updates in place are classes (`MatchTable`,
`LibMd`, `Container`, `Table`, `Lnet`, `Cursor`, `TraceList`), or methods on arrays, whose `ensures` tie
the new state to a specification function of the old one.

## Where the code and what is said about it part

* **A wakeup can be missed.** `lnet_ptl_match_delay` takes a message off the stealing list and only then
  puts it on the delayed queue (`lnet/lnet/lib-ptl.c:530-534`), under the portal lock. An attaching thread
  on another table looks at both lists without that lock (`lnet/lnet/lib-ptl.c:680-682`). It can see both
  empty, find its bucket's exhausted bit clear, and leave without scanning; the message is then delayed
  although the new descriptor wants it. `PortalRace.WakeupCanBeMissed` is a run on two partitions that does
  this. `PortalTheorems.NoMissedWakeup` proves that no wakeup is missed in every run without such an
  overlooked message. `PortalTheorems.RaceMissesWakeup` proves, for every waiting message and every thread
  about to leave, that leaving misses the wakeup if and only if the thread overlooked that message.
* **`lnet_net_remove_cpts` does not always leave a net bound to the partitions of its NIs.** `net_ncpts` is
  not reset and `lnet_net_append_cpts` returns at once while it equals the number of partitions, so a net
  can stay without a list (`NidCpt.LeftUnbound`). `in_array` answers false when the value is present, so only
  repetitions are appended: the list names the partitions of the first NI, and those of the others can be
  lost (`NidCpt.PartitionLost`); the repetitions fill the count, and an NI on all partitions can be ignored
  (`NidCpt.LeftBound`). `NidCpt.RebuiltExact` says exactly when a list is made again, when memory runs out
  too, and which partitions it names. `NidCpt.RemovalNames` says exactly when those are the partitions of the
  remaining NIs, and `NidCpt.ExpectedExact` exactly when each of them is there once.
* **A contiguous range can be refused** by `cfs_ip_ar_min_max`: one value written with a stride
  (`Contiguity.StrideRefused`), or neighbouring values written as a list (`Contiguity.ListRefused`).
  `Contiguity.IntervalExact` gives the condition under which a range of any octet lists is an interval, and
  `Contiguity.SinglesExact` the one for one expression in each octet. An octet with an empty list would pass
  although nothing matches it (`Contiguity.ContiguityExact` has the exact condition).
* **A rejected stride is kept.** `cfs_str2num_check` stores the number even when it refuses it, and
  `cfs_range_expr_parse` falls through to success after the stride: any number behind the slash is kept
  (`ExprSyntax.AnyStrideKept`, `ExprSyntax.ZeroStride` at `1-5/0`). It also falls through when nothing or
  only a slash is behind the dash, with stride zero and an unchecked upper bound
  (`ExprSyntax.NothingBehindDash`, `ExprSyntax.OpenRange` at `0-`). `ExprSyntax.ParserExact` proves that an
  accepted text has the documented syntax, with a stride of at least one, if and only if there is no dash or
  what follows it is one number, or a slash with one number of at least one in the interval behind it.
* **The message counter leaks** one count for each resend that takes a message off the active list
  (`MsgCommit.ResendLeavesCount`), so it equals the list length only up to those.
* **Lengths of a descriptor are cut to 32 bits.** The sum of a fragment's offset and length is compared with
  the page size after it has wrapped (`MdBuild.SumWraps`; `MdBuild.FragmentsExact` has the exact condition).
  The length of a contiguous buffer becomes an `int`, and from 2^31 up one fragment of the whole length comes
  out; an empty buffer that does not begin at a page leaves a slot unused (`MdBuild.SplitPages` has both
  exact conditions).

## Model

| member | source | states |
|---|---|---|
| `PercptLock.InvPreserved` | lnet/lnet/lock.c:87-144 | every step of lock and unlock keeps: each spinlock has the owner its holders claim, and the flag is up exactly while a thread between setting and clearing it holds lock 0 |
| `PercptLock.Safety` | lnet/lnet/lock.c:87-144 | in every run an exclusive owner excludes every private and every other exclusive owner, a private lock has one owner, pcl_locked is set only while an exclusive locker holds lock 0, and both assertions on it hold, with one partition too; what an owner asked for is `PercptLock.GrantedAsAsked` |
| `PercptLock.GrantedAsAsked` | lnet/lnet/lock.c:87-144 | in every run a thread that has returned from lock holds what it last asked for: every spinlock for CFS_PERCPT_LOCK_EX, the private lock it named otherwise, and the only one when there is one partition |
| `PercptLock.DeadlockFree` | lnet/lnet/lock.c:96-118 | while any thread is inside lock or unlock, some such thread can move, so no reachable state is deadlocked |
| `PercptLock.ExclusiveGrantBound` | lnet/lnet/lock.c:96-118 | once the flag is up, no schedule can delay the exclusive grant by more than three steps per thread plus one per partition |
| `PercptLock.OvertakingBound` | lnet/lnet/lock.c:96-118 | while the flag is up, private locks go only to threads that were past the spin loop when it was raised |
| `Matching.MatchFits` | lnet/lnet/lib-ptl.c:178-199 | for a descriptor as lnet_md_build leaves it (`MdBuild.BuiltWell`), the max_size assertion never fires, the matched slice begins at its offset and lies inside the buffer, and one operation is paid for; how long it is says `Matching.TryExact` |
| `Matching.TryExact` | lnet/lnet/lib-ptl.c:118-222 | for every locally managed descriptor and request: exhausted exactly when no operation is left or max_size does not fit; refused exactly when the request is accepted, longer than the room there is and must not be truncated; else matched, with the smaller of length asked for and room |
| `Matching.RemoteExact` | lnet/lnet/lib-ptl.c:181-222 | with a remotely managed offset the same holds of the room behind the sender's offset, counted in 32 bits |
| `Matching.AcceptedFits` | lnet/lnet/lib-ptl.c:128-177 | an accepted request asks for an operation the descriptor allows, agrees with the match bits wherever they are not ignored, and passes the PID and NID filters |
| `Matching.FittingAccepted` | lnet/lnet/lib-ptl.c:128-177 | every such request is accepted |
| `Matching.SlicesConsecutive` | lnet/lnet/lib-ptl.c:178-222 | successive matches of a locally managed descriptor receive slices that follow each other without gap and stay in [0, md_length), and each is paid for by the threshold; what each request is owed says `Matching.FeedServes` |
| `Matching.FeedServes` | lnet/lnet/lib-ptl.c:178-222 | whatever requests a descriptor is fed, each slice belongs to an accepted request, in the order of the requests, and is as long as the request or as the room allows |
| `Matching.SlicesDisjoint` | lnet/lnet/lib-ptl.c:178-222 | whatever requests a descriptor is fed, any two of the slices it hands out are disjoint, the earlier one in front, and both lie inside the buffer |
| `Matching.MatchKeepsCriteria` | lnet/lnet/lib-ptl.c:124-177 | a match changes what is left of a descriptor but not which requests it accepts |
| `MdBuild.BuiltWell` | lnet/lnet/lib-md.c:108-228 | every description that passes the checks of lnet_md_build, managed locally and with a legal threshold, gives a descriptor as matching relies on, 32-bit wrap-around included: offset zero and, if used, a max_size between zero and md_length |
| `MdBuild.FragmentsExact` | lnet/lnet/lib-md.c:160-178 | in a descriptor built from fragments each one lies inside a page if and only if no offset and length add up to 2^32 or more; then md_length is what they hold together |
| `MdBuild.SumWraps` | lnet/lnet/lib-md.c:164-173 | a fragment with offset 1 and length 2^32 - 1 passes the check although it does not lie inside a page |
| `MdBuild.BuiltSlices` | lnet/lnet/lib-md.c:108-228 | hence every descriptor that is built hands out disjoint slices inside its buffer |
| `MdBuild.SplitPages` | lnet/lnet/lib-md.c:188-211 | for every 32-bit length: the loop cuts the buffer into non-empty pieces of one page each that follow each other exactly when the length is below 2^31, and they then add up to it; else one fragment of the whole length comes out. The slots filled are as many as niov exactly when the length is below 2^31 and it is not zero or the buffer begins at a page |
| `MatchTables.SearchAgreesWithScan` | lnet/lnet/lib-ptl.c:382-438 | the search over two hash buckets with the exhausted bitmap misses exactly when no usable descriptor anywhere in the table takes the request, names one that does, keeps the table sound, and reports exhaustion only with all bits set |
| `MatchTables.SearchHandles` | lnet/lnet/lib-ptl.c:382-438 | if some descriptor takes the request, the first one in line does, wildcard entries before hashed ones: the search reports its slice or its refusal as the test of that descriptor gives them, writes it back or unlinks it with its entry exactly as exhaustion and auto-unlink say, and changes no other entry |
| `MatchTables.MissMarks` | lnet/lnet/lib-ptl.c:399-438 | if none does, the bits of the buckets looked at are set exactly if these are exhausted, nothing else changes, and exhaustion of the whole table is reported exactly if all bits are then set |
| `MatchTables.PassSpec` | lnet/lnet/lib-ptl.c:399-433 | one pass over a bucket keeps the table sound, sets the bit only for a bucket without a usable descriptor, and misses only if the bucket has no taker |
| `MatchTables.SearchMonotone` | lnet/lnet/lib-ptl.c:382-438 | a search never makes a descriptor take a request it did not take before |
| `MatchTables.HomeOfTaker` | lnet/lnet/lib-ptl.c:365-380 | an entry that takes a request is in the bucket of the request's bits or in the wildcard bucket, so two buckets are enough |
| `MatchTables.SameBucket` | lnet/lnet/lib-ptl.c:365-380 | match bits share a bucket exactly if their low eight bits agree |
| `MatchTables.MatchTable.constructor` | lnet/lnet/lib-ptl.c:793-837 | a new table has no entries, all exhausted bits set and is out of use |
| `MatchTables.MatchTable.TestExhausted` | lnet/lnet/lib-ptl.c:322-345 | one bit, or whether all bucket bits are set |
| `MatchTables.MatchTable.SetExhausted` | lnet/lnet/lib-ptl.c:347-363 | changes that bit and no other |
| `MatchTables.MatchTable.ScanBucket` | lnet/lnet/lib-ptl.c:399-433 | the in-place loop over one bucket does what the pass specified for it does, on lists and bitmap |
| `MatchTables.MatchTable.MatchMd` | lnet/lnet/lib-ptl.c:382-438 | the in-place search is the search that agrees with a scan |
| `PortalMaps.EnableMt` | lnet/lnet/lib-ptl.c:64-87 | the shifting loop leaves in the array the sorted insertion of the table into the active ones, and every slot still names a partition |
| `PortalMaps.DisableMt` | lnet/lnet/lib-ptl.c:89-112 | the shifting loop leaves in the array the active tables without this one, and every slot still names a partition; a single table is never removed |
| `PortalMaps.InsertSorted` | lnet/lnet/lib-ptl.c:64-87 | insertion into a sorted map gives a sorted map with one more member |
| `PortalMaps.RemoveSorted` | lnet/lnet/lib-ptl.c:89-112 | removal from a sorted map gives a sorted map with one member less |
| `QueueScan.ScanSpec` | lnet/lnet/lib-ptl.c:687-743 | offering a queue to a new descriptor puts every message into exactly one of taken, refused and left; the descriptor as it is afterwards wants none of those left |
| `QueueScan.ScanQueue` | lnet/lnet/lib-ptl.c:687-743 | the loop over one list does exactly that split |
| `QueueScan.ScanExact` | lnet/lnet/lib-ptl.c:687-743 | each message of the list is taken with its slice, refused or left as the test of the descriptor says, the descriptor being what the messages before it have left of it |
| `QueueScan.ScanLeaves` | lnet/lnet/lib-ptl.c:725-743 | the descriptor afterwards is the one all messages have left, the scan says spent exactly if it is exhausted, and unlinked exactly if a match used it up and it unlinks itself |
| `QueueScan.ScanKeepsOrder` | lnet/lnet/lib-ptl.c:687-743 | the messages left keep their order |
| `QueueScan.TwoDecide` | lnet/lnet/lib-ptl.c:685-743 | over both lists, stealing first and then delayed, every message is decided by the descriptor as all before it have left it |
| `QueueScan.TwoLeave` | lnet/lnet/lib-ptl.c:685-743 | so is the descriptor that both scans leave behind |
| `PortalSafety.InvPreserved` | lnet/lnet/lib-ptl.c:472-752 | every step of delivering, stealing, delaying, attaching, unlinking and clearing keeps the protocol invariant; what each step does to messages and descriptors is in `PortalSteps` |
| `PortalSafety.ExecInv` | lnet/lnet/lib-ptl.c:472-752 | hence every run keeps it |
| `PortalSafety.RoundsReachAll` | lnet/lnet/lib-ptl.c:489-497 | the stealing loop's rounds come by every table |
| `PortalSafety.GivingUpIsSafe` | lnet/lnet/lib-ptl.c:510-534 | when the loop gives up and delays the message, no table takes it, visited or not |
| `PortalSteps.ArriveExact` | lnet/lnet/lib-ptl.c:572-648 | the first search: the message goes to the first descriptor in line with the slice that one gives it or is refused by it, and if nobody takes it, it is dropped exactly on a portal that is not lazy, goes on to stealing if it may be delayed, and else tries again later; no other message, table or descriptor changes |
| `PortalSteps.VisitExact` | lnet/lnet/lib-ptl.c:489-555 | a round of the stealing loop does the same at its table; in vain, the message is dropped exactly on a portal that is not lazy, taken into transit exactly after the last round or if no other table is in use, and else goes on to the next round |
| `PortalSteps.StrayExact` | lnet/lnet/lib-ptl.c:544-552 | a round whose message was taken off the list returns what the attaching thread decided |
| `PortalSteps.RoundsInTurn` | lnet/lnet/lib-ptl.c:489-497 | in every run the round a stealing delivery is at is as many tables behind the one it began at as it has visited or skipped |
| `PortalSteps.ScanResumes` | lnet/lnet/lib-ptl.c:685-743 | a new descriptor is offered the messages being stolen for and then those delayed, in order: each gets the slice, is refused or is left as the test of the descriptor, as it then is, says; its owner, its list and its delivery follow |
| `PortalSteps.ScanSpares` | lnet/lnet/lib-ptl.c:685-743 | no other message is touched |
| `PortalSteps.ScanOrder` | lnet/lnet/lib-ptl.c:685-743 | what stays on either list keeps its order |
| `PortalSteps.ScanJoins` | lnet/lnet/lib-ptl.c:725-751 | the descriptor joins its entry as the messages have left it; used up and set to unlink itself it goes, with its entry if that is set so; unless used up, its bucket's bit is clear and its table in use afterwards |
| `PortalSteps.LeavingJoins` | lnet/lnet/lib-ptl.c:678-683 | a thread that leaves without scanning puts its descriptor into its entry as it was given and touches nothing else |
| `PortalSteps.AttachLooks` | lnet/lnet/lib-ptl.c:680-682 | it goes on to scan exactly if a list it read was not empty |
| `PortalSteps.AttachesAsAsked` | lnet/lnet/lib-ptl.c:660-752 | in every run an attaching thread works on the entry and with the descriptor it was called with |
| `PortalSteps.EntryAdded` | lnet/lnet/lib-me.c:50-101 | a new entry is last or first, as asked for, of the bucket in which requests for it are looked for, without a descriptor |
| `PortalSteps.DescriptorUnlinked` | lnet/lnet/lib-md.c:19-52 | unlinking takes the descriptor out of its entry, or the entry out of its list, and nothing else |
| `PortalSteps.ParkedLast` | lnet/lnet/lib-ptl.c:522-555 | a message in transit is delayed behind all others, and its thread lets go of both locks |
| `PortalSteps.LazyChanges` | lnet/lnet/lib-ptl.c:911-999 | only setting and clearing change whether a portal is lazy, and clearing leaves no message delayed |
| `PortalOutcomes.DroppedOnlyIf` | lnet/lnet/lib-ptl.c:472-752 | in every run, a step that drops a message finds the portal not lazy, or is told to drop that delayed message, or the message was refused: a descriptor accepted it and had no room for it without truncating, in a search or in an attaching thread's scan |
| `PortalOutcomes.NoneLost` | lnet/lnet/lib-ptl.c:472-752 | hence in every run in which the portal stays lazy and nobody is told to drop it, a message that was not refused is never dropped, and has a descriptor or is delayed once its delivery has returned |
| `PortalOutcomes.TakenWhenWanted` | lnet/lnet/lib-ptl.c:382-648 | in every run, a search for a message in a table with a usable descriptor that accepts it ends its delivery: with a descriptor, or refused by one without room |
| `PortalTheorems.NoMissedWakeup` | lnet/lnet/lib-ptl.c:472-752 | in every run in which no attaching thread leaves after overlooking a message in transit, no delayed message is wanted by a usable descriptor of a table whose lock is free |
| `PortalTheorems.MissedOnlyByRace` | lnet/lnet/lib-ptl.c:660-683 | in every run, a delayed message and a free table's descriptor that wants it are a pair that raced in that way |
| `PortalTheorems.RaceMissesWakeup` | lnet/lnet/lib-ptl.c:660-683 | in any reachable state, for any message in transit or delayed and any attaching thread that saw both lists empty with its bit clear, the thread's leaving ends in a missed wakeup of that message by its descriptor if and only if it overlooked that message |
| `PortalTheorems.OverlookedIsWanted` | lnet/lnet/lib-ptl.c:660-683 | such a thread's descriptor wants a waiting message exactly when the thread overlooked it |
| `PortalRace.RaceReachable` | lnet/lnet/lib-ptl.c:530-534 | a reachable state in which a thread that overlooked a message in transit is about to leave |
| `PortalRace.WakeupCanBeMissed` | lnet/lnet/lib-ptl.c:680-683 | a run of the initial state with two partitions that ends with a missed wakeup |
| `PortalTheorems.OneOutcome` | lnet/lnet/lib-ptl.c:472-648 | at any time a message is on at most one list and once; a returned delivery leaves it with one descriptor, dropped with none, or delayed; when it may be dropped says `PortalOutcomes.DroppedOnlyIf` |
| `PortalTheorems.MatchedOnce` | lnet/lnet/lib-ptl.c:685-743 | once a message has a descriptor it keeps that one, and a finished delivery stays as it is, whatever attaching threads do |
| `PortalTheorems.AlwaysReturns` | lnet/lnet/lib-ptl.c:472-570 | a delivering thread whose message may be delayed takes at most three steps more than there are tables |
| `PortalProgress.NoDeadlock` | lnet/lnet/lib-ptl.c:472-752 | in every reachable state with a delivery that has not returned, some delivering or attaching thread can take a step |
| `PortalProgress.DeliveriesEnd` | lnet/lnet/lib-ptl.c:472-752 | from any reachable state and under any schedule, the deliveries and attaches under way are over after at most (tables + 3) steps for each message and four for each table, unless new attaches begin |
| `PortalRace.RaceGoesOn` | lnet/lnet/lib-ptl.c:472-752 | the reachable state of the race is one to which both apply |
| `PortalTheorems.TablesInOrder` | lnet/lnet/lib-ptl.c:472-752 | in every state set bits cover exhausted buckets, tables out of use have all bits set, the map is the sorted list of tables in use, and no visited table takes a message that is being stolen for |
| `MdLifecycle.InvPreserved` | lnet/lnet/lib-msg.c:1030-1084 | attach, detach, handler call and LNetMDUnlink keep the count of references, the handling flag and the count of last events right, and pass their assertions |
| `MdLifecycle.FreedOnce` | lnet/lnet/lib-md.c:19-52 | over every run the descriptor is freed at most once, never while a message refers to it or a handler call that still uses it is under way; an unlinked descriptor without references has been freed; no assertion on the way fires |
| `MdLifecycle.FreedWhenIdle` | lnet/lnet/lib-md.c:43-52 | the step that frees it finds no handler call pending or running |
| `MdLifecycle.UnlinkedIsLast` | lnet/lnet/lib-msg.c:1049-1072 | an event marked unlinked is the last one delivered, and the descriptor is freed |
| `MdLifecycle.UnlinkedDelivered` | lnet/lnet/lib-md.c:487-503 | with a handler, once the descriptor is unlinked and all calls are over, exactly one event marked unlinked has been delivered; when it is unlinked says `MdLifecycle.UnlinkedExactly` |
| `MdLifecycle.UnlinkedExactly` | include/linux/lnet/lib-lnet.h:94-116 | in every run: a descriptor that unlinks itself, with no operation or no room left, used by some message and held by none, is unlinked and freed; and an unlinked one was found by LNetMDUnlink, or unlinks itself and has no operation or no room left |
| `MdLifecycle.UnlinkFinds` | lnet/lnet/lib-md.c:458-503 | LNetMDUnlink finds the descriptor exactly if it is not unlinked yet, aborts it, and calls the handler itself exactly if no message holds the descriptor; else it changes nothing |
| `MdLifecycle.OneEventEach` | lnet/lnet/lib-msg.c:1049-1083 | with a handler the events delivered are one for each message that is done or in its call, and one for each such LNetMDUnlink; without one there are none |
| `MdLifecycle.StatusReported` | lnet/lnet/lib-msg.c:1049-1072 | a message that detaches is followed by a call that reports its own status, with success turned into a timeout exactly if LNetMDUnlink found the descriptor before, and that is marked unlinked exactly if the descriptor is freed |
| `MdLifecycle.NothingAfterUnlinked` | lnet/lnet/lib-msg.c:1049-1083 | no run delivers another event after it |
| `MdLifecycle.HandlerCallsDisjoint` | lnet/lnet/lib-msg.c:1038-1060 | handler calls for one descriptor never overlap |
| `MdLifecycle.ThresholdSpent` | lnet/lnet/lib-msg.c:428-432 | operations attached plus the threshold left equal the initial finite threshold; an unlimited one stays unlimited |
| `MdLifecycle.AbortedNeverSucceeds` | lnet/lnet/lib-msg.c:1050-1056 | a message attached when LNetMDUnlink aborts the descriptor never reports success |
| `MdLifecycle.WaitsForHandler` | lnet/lnet/lib-md.c:470-483 | whenever the handling flag blocks a thread, the handler call that set it can go on |
| `MdLifecycle.HandlerReleases` | lnet/lnet/lib-msg.c:1076-1083 | the end of that call clears the flag |
| `MdLifecycle.LibMd.UnlinkMd` | lnet/lnet/lib-md.c:19-52 | the descriptor changes in place as specified, and the memory is returned exactly when there is no reference |
| `MdLifecycle.LibMd.AttachMsg` | lnet/lnet/lib-msg.c:411-437 | reference and threshold move as specified, with the unlink that follows an exhausting match |
| `MdLifecycle.LibMd.DetachMsg` | lnet/lnet/lib-msg.c:1046-1072 | the reference is dropped, the event gets its status and mark, and the flag or the unlink follows as specified; over runs the specification gives `MdLifecycle.UnlinkedExactly` and `MdLifecycle.StatusReported` |
| `ResendBreaker.NeverStranded` | lnet/lnet/lib-msg.c:781-825 | in every run, when the partition lock is free and messages wait to be resent, some slot is occupied by a thread that is still in the drain loop and can take the lock; what is resent says `ResendBreaker.AllResentInOrder` |
| `ResendBreaker.AllResentInOrder` | lnet/lnet/lib-msg.c:763-811 | in every run the queue holds the messages accepted, in order, without those resent; these are the first ones accepted, in that order, one for each turn of a drain loop, and all of them when the queue is empty |
| `ResendBreaker.OneSlotEach` | lnet/lnet/lib-msg.c:703-728 | no thread occupies two slots |
| `ResendBreaker.NoRecursion` | lnet/lnet/lib-msg.c:797-809 | a thread that comes back while it drains only queues its message |
| `ResendBreaker.ResentAtMost` | lnet/lnet/lib-msg.c:763-773 | with a fixed lnet_retry_count each message is resent at most that many times |
| `ResendBreaker.DrainBounded` | lnet/lnet/lib-msg.c:795-811 | all drain loops together turn at most that many times per message, however threads interleave |
| `ResendBreaker.Container.constructor` | lnet/lnet/lib-msg.c:1323-1355 | at least one worker slot, all free, nothing queued |
| `ResendBreaker.Container.CheckRecursion` | lnet/lnet/lib-msg.c:703-728 | the message is queued, and the caller gets the first free slot unless it has one or none is free |
| `MsgCommit.InvPreserved` | lnet/lnet/lib-msg.c:142-186 | every critical section keeps flags, active lists and counters consistent |
| `MsgCommit.OnHomeListOnly` | lnet/lnet/lib-msg.c:142-186 | in every run msg_onactivelist holds exactly when the message is on an active list, and that is the receive partition's if it is committed for receiving and else the send partition's |
| `MsgCommit.CommittedAsAsked` | lnet/lnet/lib-msg.c:142-186 | in every run a message is committed for sending and for receiving to exactly the partitions it was last committed to and not decommitted from since |
| `MsgCommit.ListsInOrder` | lnet/lnet/lib-msg.c:142-186 | a step changes an active list only by putting its message last or taking it out, the others keep their order |
| `MsgCommit.ListedUnderLock` | lnet/lnet/lib-msg.c:377-409 | whoever takes a message off a list or puts it on one holds that list's partition lock, although list_del does not name the list |
| `MsgCommit.TxBeforeRx` | lnet/lnet/lib-msg.c:385-398 | in every run, the step that gives up the receive commitment finds the send commitment given up by an earlier step |
| `MsgCommit.AllocConserved` | lnet/lnet/lib-msg.c:675-688 | lcc_msgs_alloc equals the list length plus the resend unlinks that leave the counter alone |
| `MsgCommit.CounterExcess` | lnet/lnet/lib-msg.c:675-688 | in every run the counter exceeds the list length by the number of resends, at that partition, of messages that are neither routed nor replies |
| `MsgCommit.ResendLeavesCount` | lnet/lnet/lib-msg.c:675-688 | after one resend the list is empty and the counter is one |
| `MsgCommit.AssertsNeverFire` | lnet/lnet/lib-msg.c:377-409 | in every run the assertions on msg_onactivelist, on the lock held for sending, and on the send commitment when the receive commitment goes, hold |
| `CptTable.DistanceCalculate` | lnet/lnet/lib-cpt.c:323-340 | the largest distance from a node of one mask to a node of the other, zero if there is none |
| `CptTable.FindCpuOnNode` | lnet/lnet/lib-cpt.c:400-404 | whether some CPU of the mask belongs to the node |
| `CptTable.Table.constructor` | lnet/lnet/lib-cpt.c:62-115 | an empty table agrees with recomputation, pair distances unset |
| `CptTable.Table.RefreshPairs` | lnet/lnet/lib-cpt.c:379-391 | row and column of a partition become the recomputed maxima, the other pairs stay |
| `CptTable.Table.DelNode` | lnet/lnet/lib-cpt.c:395-442 | the node leaves the partition and the table exactly when no CPU keeps it there; node2cpt again names a partition that has it, or none |
| `CptTable.Table.SetCpu` | lnet/lnet/lib-cpt.c:444-475 | accepts exactly an online CPU in no partition, and then every cached mask, map and distance agrees with recomputation from the new assignment, a node new to the table is given to this partition and no other entry of node2cpt changes; else nothing changes |
| `CptTable.Table.UnsetCpu` | lnet/lnet/lib-cpt.c:478-508 | removes exactly a CPU of the named partition, or of any for CFS_CPT_ANY, and every cached field agrees with recomputation; the node keeps its partition in node2cpt while the CPU's partition has it, then goes to the last partition that has it, or to none; else nothing changes |
| `CptTable.CacheDetermined` | lnet/lnet/lib-cpt.c:323-508 | after any calls, all cached fields but the choice in node2cpt are fixed by the assignment and by which partitions ever held a CPU |
| `CptCreate.ChooseNcpus` | lnet/lnet/lib-cpt.c:838-909 | moves exactly the wanted number of online CPUs from the mask to the partition, or all of them if the mask runs out; where cores and sockets are proper groups of CPUs, those taken come before those left in the order of the lowest CPU of their socket, the lowest of their core and their number, and at most one core and one socket are split; all loops end |
| `CptCreate.NumEstimate` | lnet/lnet/lib-cpt.c:913-937 | the largest divisor of the number of online CPUs not above the suggested count |
| `CptCreate.FullIffAll` | lnet/lnet/lib-cpt.c:975-1000 | partitions filled in turn are all full exactly when every online CPU is assigned |
| `CptCreate.TableCreate` | lnet/lnet/lib-cpt.c:939-1016 | refuses more partitions than online CPUs; otherwise there are as many partitions as wanted, or the largest divisor of the CPU count not above the suggestion, every online CPU is in exactly one of them, the first (online mod ncpt) partitions have one CPU more, lower nodes go to lower partitions, and the table is valid |
| `AddrRange.ExprListMatch` | lib/libcfs/nidstrings.c:482-494 | whether some expression of the list hits the value |
| `AddrRange.IpAddrMatch` | lib/libcfs/nidstrings.c:502-516 | whether there are four octets and each hits its list, read backwards |
| `AddrRange.MatchesUp` | lib/libcfs/nidstrings.c:502-516 | the backward reading is the octet-by-octet one |
| `AddrRange.GenRecurse` | lib/libcfs/nidstrings.c:402-458 | the recursion stores all combinations from the end of the array downwards, as many as there is room for, touches nothing else, and fails exactly when room runs out |
| `AddrRange.RangeGen` | lib/libcfs/nidstrings.c:460-474 | the index it returns is the room left, -1 when the array is full |
| `AddrRange.EnumeratorAgrees` | lib/libcfs/nidstrings.c:402-516 | with four octet lists and positive strides an address is enumerated exactly when the matcher accepts it |
| `AddrRange.RangeExpand` | lib/libcfs/nidstrings.c:373-385 | the number of combinations when it is below max_addrs, and then the stored addresses are the matched ones; -1 otherwise |
| `AddrRange.ExprsCount` | lib/libcfs/nidstrings.c:402-458 | the number of addresses enumerated is the product of the octet list sizes |
| `Contiguity.IpArMinMax` | lib/libcfs/nidstrings.c:1890-1941 | succeeds exactly when every octet has at most one expression, of stride one, and every octet after a ranged one is full; then min and max are spelled by the lower and upper bounds |
| `Contiguity.ContiguityExact` | lib/libcfs/nidstrings.c:1890-1941 | on success the matched addresses are the integers from min to max if and only if no octet list is empty |
| `Contiguity.RefusedHasGap` | lib/libcfs/nidstrings.c:1908-1921 | a refused range of single stride-one expressions has an unmatched address between two matched ones |
| `Contiguity.PlainExact` | lib/libcfs/nidstrings.c:1890-1941 | for one stride-one expression in each octet the check passes exactly the intervals |
| `Contiguity.IntervalExact` | lib/libcfs/nidstrings.c:1890-1941 | whatever its four lists, a range is an interval if and only if an octet hits nothing, or no octet has a gap and the octets written as one stride-one expression each pass the check |
| `Contiguity.SinglesExact` | lib/libcfs/nidstrings.c:1908-1921 | with one expression of any stride in each octet, a range is an interval if and only if every stride is one or only one value is hit, and the octets with those strides removed pass the check |
| `Contiguity.StrideRefused` | lib/libcfs/nidstrings.c:1914-1915 | 5 with stride 2 and 1-5 with stride 9 in the last octet are intervals and are refused |
| `Contiguity.ListRefused` | lib/libcfs/nidstrings.c:1902-1906 | the list 5,6 in the last octet is an interval and is refused |
| `Numerals.ReadsBack` | lib/libcfs/string.c:93-109 | strtoul with base 0 reads back every 32-bit number printed with %u, if no letter or digit follows |
| `Numerals.SixSpaces` | lib/libcfs/string.c:93-109 | white space is the six characters of the C locale |
| `Numerals.PartsExact` | lib/libcfs/string.c:93-109 | on any text strtoul skips white space and one sign, and then reads digits |
| `Numerals.DigitsExact` | lib/libcfs/string.c:93-109 | it uses up the prefix and all digits of the base that stands for, 16, 8 or 10, and returns their value, in 64 bits |
| `Numerals.HexDigits` | lib/libcfs/string.c:93-109 | the digits are 0 to 9 and, in either case, a to f |
| `Numerals.ValueByPlace` | lib/libcfs/string.c:93-109 | each digit counts for its place |
| `Numerals.ClampExact` | lib/libcfs/string.c:93-109 | the value always fits 64 bits: kept if it does, taken from 2^64 behind a minus sign, the largest one if it does not |
| `Numerals.NoDigitsNoNumber` | lib/libcfs/string.c:93-109 | without a digit there is no number |
| `Numerals.Str2NumExact` | lib/libcfs/string.c:93-109 | a token is a number in the interval exactly if strtoul reads one, only white space follows it in the token, and its low 32 bits are in the interval; they are stored in any case |
| `Numerals.NumberToken` | lib/libcfs/string.c:93-109 | a token that is one printed number passes exactly when it is in the interval |
| `Numerals.LongerToken` | lib/libcfs/string.c:93-109 | a token with more behind its number is refused, and the number is stored all the same |
| `RangeExpr.Cursor.Next` | lib/libcfs/string.c:38-82 | the cursor advances past the token as specified: blanks around it dropped, null after the last one |
| `ExprSyntax.GettokSkips` | lib/libcfs/string.c:38-58 | on any text exactly the white space in front is skipped |
| `ExprSyntax.TokenAtExact` | lib/libcfs/string.c:58-82 | then there is no token exactly if nothing or a delimiter is left; else it ends at the first delimiter or at the end, without the white space before that, and the rest begins behind the delimiter |
| `RangeExpr.TokenBefore` | lib/libcfs/string.c:38-82 | text without blanks up to a delimiter is the token, and the cursor stands behind the delimiter |
| `RangeExpr.ExprTrip` | lib/libcfs/string.c:124-189 | parsing a printed expression gives it back, whatever follows it that is no letter or digit |
| `ExprSyntax.ParserExact` | lib/libcfs/string.c:124-189 | a text in brackets is parsed to an expression and its stride part is in order if and only if the text denotes that expression in the documented syntax |
| `ExprSyntax.UnbracketedExact` | lib/libcfs/string.c:135-153 | without brackets exactly the star and one number in the interval are accepted |
| `ExprSyntax.NumberNotCut` | lib/libcfs/string.c:84-109 | a token that is one number has no dash or slash at which it could be cut |
| `ExprSyntax.AnyStrideKept` | lib/libcfs/string.c:167-181 | any 32-bit number other than one behind the slash becomes the stride, inside the interval or not |
| `ExprSyntax.ZeroStride` | lib/libcfs/string.c:167-181 | "1-5/0" is parsed to 1-5 with stride 0 |
| `ExprSyntax.NothingBehindDash` | lib/libcfs/string.c:158-181 | with nothing or only a slash behind the dash the stored upper bound is kept unchecked, with stride 0, unless it is below the lower one |
| `ExprSyntax.OpenRange` | lib/libcfs/string.c:158-181 | "0-" is parsed to 0-0 with stride 0 |
| `RangeExpr.WriteList` | lib/libcfs/string.c:228-255 | the printing loop writes the expressions with commas, in brackets when there are several |
| `RangeExpr.ReadItems` | lib/libcfs/string.c:343-366 | the token loop parses every token and fails as a whole if one does |
| `ExprSyntax.OneRefused` | lib/libcfs/string.c:343-366 | a list with an item that the parser refuses is refused, wherever the item is |
| `ExprSyntax.NoTokenNoList` | lib/libcfs/string.c:343-366 | so is a list without a token |
| `ExprSyntax.WithoutBrackets` | lib/libcfs/string.c:327-380 | a text without brackets is one expression, without the range syntax |
| `RangeExpr.ListTrip` | lib/libcfs/string.c:327-380 | parsing a printed well-formed list gives the list back, inside any larger text |
| `NidList.AddrTrip` | lib/libcfs/nidstrings.c:238-274 | parsing a printed dotted or numeric address range gives it back |
| `NidList.NetTrip` | lib/libcfs/nidstrings.c:1347-1391 | a printed network name and number are read back as the same network |
| `NidList.TokenTrip` | lib/libcfs/nidstrings.c:1399-1439 | a printed range is read back, and never taken for a netmask |
| `NidList.NidlistTrip` | lib/libcfs/nidstrings.c:1643-1668 | printing a list of NID ranges and parsing the text gives the same list, grouped by network as before |
| `NidSyntax.NetExact` | lib/libcfs/nidstrings.c:1347-1391 | a text is read as a network and number exactly if it is the network's name alone, for number zero, or with the number behind it |
| `NidSyntax.AddrParts` | lib/libcfs/nidstrings.c:238-274 | a dotted address has exactly four parts |
| `NidSyntax.AddrRefused` | lib/libcfs/nidstrings.c:238-274 | and is refused if one of them is |
| `NidSyntax.NetmaskExact` | lib/libcfs/nidstrings.c:1399-1439 | an address is a netmask exactly if it has a colon, or no closing bracket behind its first slash |
| `NidSyntax.TokenExact` | lib/libcfs/nidstrings.c:1399-1439 | a token is accepted exactly if it is an address or star, one at-sign and a network, with white space around the network only, and stands for these |
| `NidSyntax.NidlistExact` | lib/libcfs/nidstrings.c:1643-1668 | a text is accepted exactly if it has a token and all its tokens are accepted, and the list is then what they stand for, put together in order |
| `NidSyntax.JoinSplit` | lib/libcfs/nidstrings.c:1643-1668 | cutting at the blanks loses nothing |
| `NidSyntax.GroupedByNet` | lib/libcfs/nidstrings.c:1347-1391 | the list has one entry for each network named, with its address ranges in order, and its star exactly if one was given |
| `NidSyntax.MatchNid` | lib/libcfs/nidstrings.c:1703-1728 | whether some entry is of the NID's network and has the star or a range that hits its address |
| `NidSyntax.MeaningKept` | lib/libcfs/nidstrings.c:1643-1728 | a NID matches the list made from tokens exactly if it matches one of the tokens |
| `NidHash.HashIsByteSum` | lnet/lnet/api-ni.c:1591-1621 | for every 64-bit NID not on a KFI network the mask, multiply and shift of the hash give the sum of its eight bytes modulo the number of partitions |
| `NidHash.MaskKeepsEven` | lnet/lnet/api-ni.c:1606-1614 | the bitwise and with the repeated mask keeps every other byte and clears the rest |
| `NidHash.TopLane` | lnet/lnet/api-ni.c:1606-1614 | no lane of the product carries into the next |
| `NidCpt.Lnet.AppendCpts` | lnet/lnet/config.c:119-191 | the net changes as specified and the restricted counter still equals the number of nets with a CPT list, when memory runs out too |
| `NidCpt.Lnet.RemoveCpts` | lnet/lnet/config.c:193-268 | the list is dropped and rebuilt from the remaining NIs as specified, and the counter is right afterwards, when memory runs out too |
| `NidCpt.Lnet.NetFree` | lnet/lnet/config.c:321-330 | freeing a net takes its place out of the counter |
| `NidCpt.Lnet.NetAlloc` | lnet/lnet/config.c:332-373 | a new net is bound to no partition and leaves the counter right; one that is there already stays as it is |
| `NidCpt.Lnet.NiStarted` | lnet/lnet/api-ni.c:2932-2970 | an NI joins its net, the counter and the lists stay right |
| `NidCpt.Lnet.NiFree` | lnet/lnet/config.c:270-294 | an NI leaves its net and the net's list is rebuilt as specified without it |
| `NidCpt.LookupExact` | lnet/lnet/api-ni.c:1646-1680 | where every list in use names partitions there are and at least one, which every operation keeps, a NID is served by the partition that its hash selects from the NI's list, or without an NI from that of the first net with its identifier, or from all partitions; that partition exists |
| `NidCpt.FastLookupAgrees` | lnet/lnet/api-ni.c:1707-1742 | while the counter is right, the lookup without the lock returns what the locked one would, for every NID, net and NI |
| `NidCpt.LookupInWindow` | lnet/lnet/api-ni.c:1707-1742 | while an update has written a net but not yet the counter, the lookup without the lock returns what a locked one returns before the update or after it |
| `NidCpt.CounterNeeded` | lnet/lnet/api-ni.c:1727-1732 | with a wrong counter the two lookups can differ |
| `NidCpt.FullStays` | lnet/lnet/config.c:119-125 | a net that counts all partitions is left alone by the rebuilding loop |
| `NidCpt.RebuiltExact` | lnet/lnet/config.c:240-265 | a net without a list gets one if and only if an NI is left, the count is not that of all partitions, and every NI up to the one that fills the count has a list and memory for it; the list is the one gathered from those and names exactly the partitions of the first |
| `NidCpt.GatheredNames` | lnet/lnet/config.c:106-117 | whatever the other NIs have, only repetitions of the first one's partitions are appended |
| `NidCpt.RemovalExact` | lnet/lnet/config.c:193-268 | with memory at hand, after a removal that rebuilds, the net has a list exactly when all its remaining NIs do, if and only if: with all of them bound the count was not that of all partitions, and else it was or an unbound one is among those looked at |
| `NidCpt.RemovalNames` | lnet/lnet/config.c:193-268 | the net is then bound to exactly the partitions of its remaining NIs, or to all if one of them is on all, if and only if: with all of them bound the count was not that of all partitions and no NI is on a partition the first is not on, and else as in `NidCpt.RemovalExact` |
| `NidCpt.ExpectedExact` | lnet/lnet/config.c:200-212 | with proper lists, every partition of the remaining NIs is in the list, once, if and only if the count was not that of all partitions and either one NI is left or the first has as many partitions as there are and no other one is on another |
| `NidCpt.LeftUnbound` | lnet/lnet/config.c:193-268 | on two partitions, a net that counted both gets no list although its remaining NI is bound to one |
| `NidCpt.PartitionLost` | lnet/lnet/config.c:193-268 | on three partitions, with NIs on partitions 0 and 1 left, the list names partition 0 only |
| `NidCpt.LeftBound` | lnet/lnet/config.c:193-268 | on two partitions, two NIs on the same one fill the count and the third, on all, is ignored |
| `TracePages.LogOk` | lnet/libcfs/tracefile.c:568-646 | logging a message of any length keeps the page count, the tags and the bound on used, cuts included |
| `TracePages.NothingCut` | lnet/libcfs/tracefile.c:582-618 | when pages can be had, a message that fits a page is added whole, behind what the last page held or alone on a new page, and no other page changes |
| `TracePages.WholeOrNothing` | lnet/libcfs/tracefile.c:582-646 | whatever its length and whether memory can be had, a message is added whole to the page that the first or the second look finds, with no other page changed, or not at all: it is never cut, and it is stored exactly if it and the first guess fit a page and the list has a page or may get one |
| `TracePages.GetTageOk` | lnet/libcfs/tracefile.c:182-284 | a page that is returned is the last of its list and has the room asked for |
| `TracePages.PageExact` | lnet/libcfs/tracefile.c:182-284 | the page used is the last one if it has the room, else a new one if there may be one, else the oldest one, emptied and behind the others, after the oldest tenth has gone if a daemon runs; there is none exactly for more than a page or for a list that is empty and gets none |
| `TracePages.PagesConserved` | lnet/libcfs/tracefile.c:182-284 | in every run of loggers and dumps tcd_cur_pages is the list length, pages carry their list's CPU and type, used stays within PAGE_SIZE, and the pages held are those on the lists and in the collection |
| `TracePages.RestoredInOrder` | lnet/libcfs/tracefile.c:780-805 | after a failed dump a list is its collected pages without the first n, in their original order, followed by what was logged since; the pages put back are all of that list that are still in the collection, so the n missing ones are those written |
| `TracePages.CollectionEmpty` | lnet/libcfs/tracefile.c:908-924 | when a dump starts and when it is over, after a failure too, the collection is empty |
| `TracePages.TraceList.TryPage` | lnet/libcfs/tracefile.c:182-226 | the list changes in place as specified |
| `TracePages.TraceList.ShrinkPages` | lnet/libcfs/tracefile.c:228-254 | exactly the oldest tenth of the pages is freed |
| `TracePages.TraceList.TakePage` | lnet/libcfs/tracefile.c:257-284 | a page with room, a new one, or the oldest emptied and made the newest |
| `TracePages.TraceList.PutBack` | lnet/libcfs/tracefile.c:780-805 | the pages of this list move before its first page in order, the others stay in the collection |

## Left out

- Unique portals, portals on one partition, early matching and GET requests: the wildcard PUT path holds the stealing and delaying protocol.
- The packing of the exhausted bitmap into 64-bit words: it is an array of 320 flags.
- Weak memory: reads made without a lock see the latest write, as on a sequentially consistent machine.
- PortalProgress.DeliveriesEnd: counts neither new attaches nor first tries with a message that may not be delayed yet; callers decide how many of those there are.
- PortalTheorems.NoMissedWakeup: assumes that no attaching thread overlooks a message in transit, because the plain statement is false of the code.
- The first table a stealing loop looks at is any table, not the one the rotor names: every choice is covered.
- Same-peer NID aliases in matching, and slices of remotely managed descriptors, which the sender may let overlap.
- MD handle cookies and their hash chains, the pages behind a descriptor's fragments, response trackers, credits, peers and health values.
- The finalizing queue of lnet_finalize: only the resending queue has a drain guarantee.
- Messages and active lists of `MsgCommit` are values that steps replace, one step for each stretch under one partition lock; lists linked through messages are not modelled.
- MsgCommit.AssertsNeverFire: that a message is not committed twice for the same direction, and that a message decommitted is committed, is up to the callers and assumed of them.
- The hash for KFI networks and for large NIDs comes from the kernel and stays a parameter of the lookups.
- cfs_cpt_set_node, cfs_cpt_set_cpumask and the partition pattern parser.
- CptCreate.TableCreate: memory is always available, and the suggestion is computed without 32-bit overflow.
- Netmasks in NID lists, and printing into a buffer that is too small.
- RangeExpr.ListTrip: needs strides of at least one and single values with stride one, because the parser accepts a stride of zero and the printer leaves the stride of a single value out.
- NidSyntax.MatchNid: needs strides of at least one, because the matcher divides by the stride.
- NidCpt.LookupExact: that the hash stays below the number it is given follows from `NidHash.HashIsByteSum` for its NIDs and is assumed of the others.
- AddrRange.EnumeratorAgrees: octet values are at most 255, as the parser delivers them; larger ones would overlap in the 32-bit word.
- The minimum over several address ranges.
- Console output, the daemon's page list, stock pages and the panic path of the tracer.
- Netlink, ioctl, sockets, routing and LNet drivers.
