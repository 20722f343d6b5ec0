# SLASH2: leases, caches and replay

A Dafny model of the parts of the SLASH2 distributed file system where several threads or
several layers have to agree, with proofs of what they agree on.

Every file is a module. `dafny verify dfyconfig.toml` checks all of them.

**Leases on the metadata server** (`BmapLease`, `LeaseCounts`, `LeaseProtocol`, `LeaseSafety`,
`LeaseLifetime`, `LeaseBinding`, `LeaseWitness`, `LeaseDowngrade`, `LeaseServer`, `LeaseRing`,
`LeaseTable`, `LeaseBmap`, `LeaseRun`, `TimeoTable`, `TimeoSteps`). A client holds leases on a
bmap, a 128 MiB piece of a file. All leases of one client on one bmap form a ring. `BmapLease` says what each section of `slashd/mds.c` that runs
under the bmap lock does to the lease state, as a value. `LeaseProtocol` is the machine of all
threads: an event is one locked section, and where the source drops the lock in the middle of
an operation behind the BMAPF_IOSASSIGNED barrier the operation is two events. The next six
modules prove what every run keeps; `LeaseDowngrade` is about the way into DIO mode,
`LeaseServer` about the I/O server a bmap is bound to. `LeaseRing`, `LeaseTable` and `LeaseBmap` are the same
sections on the heap, with the real `bml_chain` pointers, the BML_CHAIN marks and the list of
ring heads; each method is proved to do what the function of `BmapLease` says. `LeaseRun` puts
the two together: every run of the protocol, played on the heap event by event, leaves the heap
where the protocol says. `TimeoTable` is the timeout table with its two water marks, and
`TimeoSteps` the same table under grants that interleave.

**The client's write-back cache** (`Coalesce`, `BiorqPages`, `CoalesceMap`, `FlatPages`,
`ValidRegion`, `PagedIo`, `CacheRun`, `FlushedFile`, `PageCache`, `FsRequest`, `DirtyQueue`,
`FlushRun`, `ReadBatch`).
Reads and writes are split over bmaps and 32 KiB pages; dirty requests are coalesced into RPCs
of at most 1 MiB. The data paths are methods on arrays and maps proved against a flat array of
bytes. `ValidRegion` is about the region of a page that is marked as holding data, and
`CacheRun` about the cache over any sequence of writes, reads and evictions. `FlushRun` is a
visit of the flush thread: from the tree of dirty requests through the coalescer. The reference
counts of pages and requests are state machines whose events are the locked sections
of the source, so that the gaps between a check and the action it guards are part of the model.

**Smaller parts.** `FidCache`: handles of files. `ReplayLog`, `ReplayConverge`,
`ReplayTheorem`, `ReplayFinal`: journal replay. `ReplStates`: 3-bit states packed into bytes. `Adler32`: the
blocked checksum. `Common`: page geometry.

Where a property one would expect is false of the code, the model keeps the code, a lemma gives
a case where it fails, and another gives the exact condition:

- An upgrade to write that fails leaves BML_ASSFAIL on the lease; if it is repeated and
  succeeds, the release of the lease leaves the server bound with no writer
  (`LeaseWitness.FailedUpgradeLeaksServer`, `LeaseBinding.ReleaseInStepIff`). One that fails after
  it bound a server does so at once (`LeaseWitness.FailedUpgradeBindsServer`,
  `LeaseBinding.UpgradeInStepIff`).
- A write grant that finds the table of assignments full has bound its server already, and its
  release hits an assertion (`LeaseWitness.FullTableAsserts`, `LeaseBinding.GrantInStepIff`).
- A lease has number 0 until its server is found, and can be looked up with that number while
  its grant is in flight. If then no server is found the lease outlives its grant, the bmap has
  a writer and no server, and the next write grant of the client hits an assertion
  (`LeaseWitness.SharedGrantLeavesWriter`, `LeaseBinding.GrantInStepIff`).
- `mds_lease_reassign` asserts that the bmap is not in DIO mode, which its check of the counts
  does not ensure (`LeaseWitness.ReassignHitsDio`, `LeaseBinding.AssertsIff`). All other
  assertions on the binding hold in runs without the two failures above and without a full table
  of assignments.
- A request that has to wait for another client to acknowledge DIO is meant to hold back all that
  come after it. When a lease goes and nobody writes, or one client is left, the downgrade is
  forgotten, but a remaining lease keeps the mark of having been asked; a writer that then waits
  for it alone is overtaken by readers (`LeaseDowngrade.ForgottenDowngrade`,
  `LeaseDowngrade.DowngradeHoldsIff`).
- The coalescer does not send all requests before the one that makes a stretch of writes too long
  for an RPC, if the stretch does not begin behind a hole (`Coalesce.MiddleStays`); it does if it
  begins there (`Coalesce.FullSent`), and always sends the first one (`Coalesce.LongIsSent`).
- `mds_lease_reassign` stores the new server in the lease and in the assignment, but not in
  `bmi_wr_ion`, which is what clients are told when they renew the lease
  (`LeaseServer.ReassignLeavesPointer`, `LeaseServer.StepAgreesIff`).
- `bmpce_release` drops the lock of a page with good data before it takes the list, and a page that
  fails in between gets on the list (`PageCache.FailedPageIsListed`, `PageCache.ListsFailedIff`).
- A write grant that fails after its lease was put in the timeout table leaves it there with an
  old number, and the low water mark can go down (`TimeoTable.FailedGrantLowersMark`,
  `TimeoTable.FailedGrantIff`).
- The lock of the timeout table is dropped between taking a number, linking the lease and storing
  the number. The list gets out of order iff a grant is overtaken (`TimeoSteps.OvertakenRun`,
  `TimeoSteps.InOrderIff`), and the low water mark goes down iff a removal makes a lease the
  oldest whose number is still to be stored and behind the mark (`TimeoSteps.ExposedRun`,
  `TimeoSteps.MarkRisesIff`).
- Replaying the journal on metadata that already reflects a prefix of it does not always give
  the same replica states and CRCs, because both depend on the replica table of the moment
  (`ReplayTheorem.StatesDiverge`, `ReplayTheorem.CrcsDiverge`, `ReplayTheorem.ReplayConvergesIff`).
  For the same reason a replica in flight beyond the table stays in flight
  (`ReplayConverge.InFlightIff`). Such journals exist because a new file takes over the table of
  its directory without an entry (slashd/rmc.c:696, slashd/fidc_mds.c:302). A journal in which
  tables only grow, CRCs come from servers in the table and nothing is in flight beyond it
  always converges and settles (`ReplayTheorem.RegularConverges`, `ReplayTheorem.RegularSettles`).
- A write into a page that is only partly valid is joined to the recorded region even if there
  is a hole between the two, and a read of the hole is then served from the page
  (`ValidRegion.HoleIsRead`, `ValidRegion.WriteSoundIff`). Without such writes every read gives
  the bytes of the file (`ValidRegion.ReadsAreFile`).

`LNET_MTU` comes from the LNet headers, which are not part of this model; it is taken as 1 MiB.
The comment above `bmpc_freeall` asks for pages with zero counts; the code finds them with one
reference, that of the LRU list, and the model follows the code.

## Model

| member | source | states |
|---|---|---|
| `LeaseLifetime.Coherence` | slashd/mds.c:157-228 | in every state of every run, also while a grant is in flight, outside DIO mode a write lease means that all leases of the bmap are of its client |
| `LeaseLifetime.DioOnlyAcked` | slashd/mds.c:189-227 | the step that puts a bmap into DIO mode finds every lease of every other client already acknowledged |
| `LeaseSafety.DirectioSafe` | slashd/mds.c:157-228 | a request that need not wait leaves the bmap in DIO mode, or the requester alone, or nobody writing against whom it could conflict |
| `LeaseSafety.DirectioAcks` | slashd/mds.c:157-228 | a request that has to look at the leases waits iff one of another client has not acknowledged DIO; exactly those are asked and no other record changes; DIO is set only when there is none; the bmap is marked once a lease is asked for the first time and loses the mark only to DIO mode |
| `LeaseDowngrade.DioEnteredIff` | slashd/mds.c:169-226 | a request leaves the bmap in DIO mode iff it was, or it need not wait and DIO is asked for, a downgrade is in progress, or other clients have leases and somebody writes or is about to while somebody reads |
| `LeaseDowngrade.DowngradeBegunIff` | slashd/mds.c:208-226 | BMAPF_DIOCB is set afterwards iff DIO mode is not entered and it was set, or the request waits for a client not asked before |
| `LeaseDowngrade.DowngradeHoldsIff` | slashd/mds.c:178-186 | a request that waits makes every later one of a client wait, whatever it asks for, iff another client has not acknowledged and somebody writes, a downgrade was in progress, or somebody was asked for the first time |
| `LeaseDowngrade.DowngradeGrants` | slashd/mds.c:178-186 | while a downgrade is in progress and a lease has not acknowledged, no event of any thread grants a lease to another client or starts an upgrade for one |
| `LeaseDowngrade.DowngradeEndsIff` | slashd/mds.c:1172-1178 | a downgrade in progress ends iff DIO mode is entered, or a lease goes and leaves nobody writing or a single client |
| `LeaseDowngrade.NeverBoth` | slashd/mds.c:222-226 | in every reachable state BMAPF_DIO and BMAPF_DIOCB are not both set |
| `LeaseDowngrade.ForgottenDowngrade` | slashd/mds.c:1172-1178 | a run in which a writer waits for a reader and a later reader is not held back |
| `LeaseSafety.GrantOk` | slashd/mds.c:908-1004 | a grant after the DIO check keeps rings, counts and coherence |
| `LeaseSafety.ReleaseOk` | slashd/mds.c:1132-1217 | so does any release, also the one that ends DIO mode |
| `LeaseSafety.DioLastsIff` | slashd/mds.c:1172-1178 | when a lease goes, DIO mode lasts iff somebody still writes and somebody else still has a lease |
| `LeaseSafety.UpgradeOk` | slashd/mds.c:771-840 | so does an upgrade to write that went through the DIO check |
| `LeaseSafety.StepBmap` | slashd/mds.c:892-1290 | every event of every thread keeps rings, counts and coherence |
| `LeaseLifetime.CountsAreClients` | slashd/mds.c:814-828 | in every reachable state bmi_writers is the number of clients with a write lease, bmi_readers of those with read leases only |
| `LeaseCounts.AddWriteOk` | slashd/mds.c:923-975 | a write grant makes its client a writer once, and no longer a reader |
| `LeaseCounts.AddReadOk` | slashd/mds.c:998-1004 | a read grant counts its client only if it held nothing |
| `LeaseCounts.UnlinkOk` | slashd/mds.c:1022-1096 | a removal counts the client as what its remaining leases make it |
| `LeaseCounts.ConvertOk` | slashd/mds.c:814-828 | an upgrade turns a reader into a writer unless it was one |
| `LeaseLifetime.StepRefs` | slashd/mds.c:1132-1168 | every event keeps: the count of a lease is the number of references threads hold, and a lease without one is linked and, if marked for freeing, in the hands of the timeout thread |
| `LeaseLifetime.FreedUnreferenced` | slashd/mds.c:1132-1168 | a lease is freed only when no thread has a reference, and was not freed before |
| `LeaseLifetime.FreedIff` | slashd/mds.c:1132-1168 | an event frees a lease iff it gives back the last reference and the lease is marked for freeing, by then or because its grant failed or has to wait: until then it outlives its references |
| `LeaseLifetime.FreedOnce` | slashd/mds.c:2000-2010 | no lease is freed twice in any interleaving of lookup, release, renewal and timeout |
| `LeaseLifetime.StepLease` | slashd/mds_bmap_timeo.c:215-248 | once a lease is marked for freeing it gains no reference and stays marked until it is freed |
| `LeaseBinding.BindingFollowsWriters` | slashd/mds.c:979-993 | with no failed upgrade, no lack of slots and no missing server for a lease that a second thread refers to during its grant: outside the barrier a server is bound and an assignment stored iff there is a writer, and the stored number is the one of the bmap |
| `LeaseBinding.BindingAsserts` | slashd/mds.c:965-993 | a schedule under these three conditions, in which nothing is reassigned in DIO mode, hits no assertion on the binding at any step, whatever the interleaving |
| `LeaseBinding.AssertsIff` | slashd/mds.c:1877-1889 | under the three conditions the only assertion that can fail is the one on BMAPF_DIO, and it fails iff a lease on a bmap in DIO mode is reassigned |
| `LeaseBinding.StepBound` | slashd/mds.c:586-715 | with no failed upgrade, no lack of slots and no missing server for a lease that a second thread refers to during its grant: every event keeps server, stored assignment and writers in step |
| `LeaseBinding.ReleaseInStepIff` | slashd/mds.c:1184-1217 | the release of a last reference keeps server and writers in step iff the lease is not the last write lease with BML_ASSFAIL or BMAPF_NOION set |
| `LeaseBinding.UpgradeInStepIff` | slashd/mds.c:798-811 | the end of an upgrade leaves them in step iff it did not bind a server and then fail, for lack of a slot or of room in the replica table |
| `LeaseBinding.GrantInStepIff` | slashd/mds.c:979-993 | the end of a write grant leaves server, stored assignment and writers in step iff the table was not full and it is not a missing server for a lease with a second reference |
| `LeaseServer.SameServer` | slashd/mds.c:586-715 | in every run in which no reassignment picks another server, the stored assignment and every granted write lease name the server the bmap is bound to |
| `LeaseServer.StepAgreesIff` | slashd/mds.c:1889-1913 | an event of any thread keeps this iff it is not a reassignment to another server |
| `LeaseServer.ReassignLeavesPointer` | slashd/mds.c:1893-1913 | a run after which lease and stored assignment name the new server and bmi_wr_ion the old one |
| `LeaseServer.BindStores` | slashd/mds.c:613-715 | lease, bmap and stored item get the same number; the item names the client of the lease, the server selected or already bound, and the mode; after a failure of the replica table the lease that was to get the first server keeps its number |
| `LeaseServer.ReassignStores` | slashd/mds.c:1898-1913 | a reassignment gives lease, bmap and item the new server and number; the item keeps its DIO mark |
| `LeaseServer.ReassignAloneIff` | slashd/mds.c:1874-1883 | a reassignment goes on iff all leases of the bmap are of one client |
| `LeaseServer.UpgradeMarks` | slashd/mds.c:798-831 | an upgrade ends with a write lease iff a server was bound, else with a read lease marked BML_ASSFAIL |
| `LeaseServer.DrainsIff` | slashd/mds.c:1184-1260 | a release with work to queue leaves the barrier up iff it unbound the server |
| `LeaseWitness.FailedUpgradeLeaksServer` | slashd/mds.c:808-811 | a run in which a repeated upgrade leaves a server bound with no writer |
| `LeaseWitness.FailedUpgradeBindsServer` | slashd/mds.c:808-811 | a run in which a single upgrade does |
| `LeaseWitness.FullTableAsserts` | slashd/mds.c:1184-1189 | a run after which a grant that finds no slot fails the assertion on the server in its release |
| `LeaseWitness.SharedGrantLeavesWriter` | slashd/mds.c:845-881 | a run in which a lookup during a grant leaves a writer without a server, and the next write grant fails its assertion |
| `LeaseWitness.ReassignHitsDio` | slashd/mds.c:1877-1889 | a run after which a reassignment fails the assertion on BMAPF_DIO |
| `LeaseRing.WalkRing` | slashd/mds.c:724-762 | one walk along the chain pointers meets each lease of the ring once and counts its write and read leases |
| `LeaseRing.Predecessor` | slashd/mds.c:1040-1062 | the walk finds the lease before a given one |
| `LeaseRing.Attach` | slashd/mds.c:923-940 | the pointers form the ring with the lease at its end |
| `LeaseRing.Detach` | slashd/mds.c:1022-1096 | the pointers form the ring without the lease, and the mark moves if the head goes |
| `LeaseRing.AskRing` | slashd/mds.c:189-221 | every lease of another client that has not acknowledged is asked once |
| `LeaseTable.Table.DuplsFind` | slashd/mds.c:724-762 | finds the head of the client's ring and the numbers of its write and read leases |
| `LeaseTable.Table.LinkLease` | slashd/mds.c:923-960 | the lease joins the ring of its client or starts one; list, marks and pointers stay right |
| `LeaseTable.Table.UnlinkLease` | slashd/mds.c:1022-1096 | the lease leaves its ring; the successor of a head takes its place in the list |
| `LeaseTable.Table.GetBml` | slashd/mds.c:845-881 | the first lease of the client with the number gets one reference; null iff there is none or the first is being freed |
| `LeaseTable.Table.Ask` | slashd/mds.c:189-221 | over all rings: what is found and which leases are asked |
| `LeaseBmap.BmapInfo.BmapDirectio` | slashd/mds.c:157-228 | on the heap: leases, flags and the verdict are those of the specification |
| `LeaseBmap.BmapInfo.BmlNew` | slashd/mds.c:1343-1368 | on the heap: a new lease, unlinked, with one reference; the others stay the table's |
| `LeaseBmap.BmapInfo.BmlBind` | slashd/mds.c:586-715 | on the heap: what an assignment or an update of the server leaves, for every outcome |
| `LeaseBmap.BmapInfo.BmlAddRead` | slashd/mds.c:892-1015 | on the heap: a read grant, with rings, counts and the table's leases kept |
| `LeaseBmap.BmapInfo.BmlAddWrite` | slashd/mds.c:892-985 | on the heap: a write grant up to the barrier; the table owns the same leases |
| `LeaseBmap.BmapInfo.BmlDel` | slashd/mds.c:1022-1096 | on the heap: a removal; the table owns the same leases |
| `LeaseBmap.BmapInfo.BmlConvert` | slashd/mds.c:814-828 | on the heap: the end of an upgrade; the table owns the same leases |
| `LeaseBmap.BmapInfo.BmlRelease` | slashd/mds.c:1107-1217 | on the heap: a release, with DIO mode and binding cleared when they have to be; the table loses the lease iff the reference was the last one |
| `LeaseRun.Grant` | slashd/mds.c:892-1015 | on the heap: a grant with its DIO check, which gives the lease back if it has to wait, is the event of the protocol |
| `LeaseRun.GrantEnd` | slashd/mds.c:979-993 | so is the end of a write grant, with the release if no server was found |
| `LeaseRun.UpgradeEnd` | slashd/mds.c:798-840 | and the end of an upgrade |
| `LeaseRun.ReassignEnd` | slashd/mds.c:1889-1935 | and the end of a reassignment |
| `LeaseRun.Perform` | slashd/mds.c:892-1290 | every event of every thread, on any reachable heap, ends in the heap that represents the next protocol state |
| `LeaseRun.Play` | slashd/mds.c:892-1290 | every run of the protocol, played from a new bmap, ends with the pointers, marks, counts, flags and binding of its last state, and coherent |
| `TimeoTable.Marks` | slashd/mds_bmap_timeo.c:107-205 | over every run of successful grants, re-grants and removals the live numbers are strictly sorted between the marks and neither mark goes down |
| `TimeoSteps.InOrderIff` | slashd/mds_bmap_timeo.c:107-205 | over every interleaving of grants and removals, each split at the locks: all states are in order and within the marks iff no grant is linked after one that took a later number or after the low mark passed it |
| `TimeoSteps.MarkRisesIff` | slashd/mds_bmap_timeo.c:135-155 | in such a run the low mark never goes down iff no removal exposes a lease with an older stored number |
| `TimeoSteps.StepOkIff` | slashd/mds_bmap_timeo.c:191-205 | one such event |
| `TimeoSteps.GrantIsSteps` | slashd/mds.c:647-661 | a write grant that is not interrupted is the single step of TimeoTable, with and without success |
| `TimeoSteps.ReadIsSteps` | slashd/mds.c:998-1004 | so is a read grant |
| `TimeoSteps.OvertakenRun` | slashd/mds_bmap_timeo.c:191-205 | two grants that interleave and leave the list out of order |
| `TimeoSteps.ExposedRun` | slashd/mds_bmap_timeo.c:135-155 | a run in which a removal during a write grant lowers the mark |
| `TimeoTable.StepOk` | slashd/mds.c:998-1004 | one such step |
| `TimeoTable.LowMarkIsLeast` | slashd/mds_bmap_timeo.c:135-155 | when the oldest lease goes the low mark becomes the least live number, or the high mark if none is left |
| `TimeoTable.LowMarkMoves` | slashd/mds_bmap_timeo.c:135-155 | the low mark moves only when the oldest lease leaves its place: to the number of the next one, or to the high mark |
| `TimeoTable.GrantNumbers` | slashd/mds.c:998-1004 | a granted lease is the youngest and has the next number; a write grant makes it the high mark, a read grant takes one number more; the others keep their order |
| `TimeoTable.NextSeqIs` | slashd/mds_bmap_timeo.c:107-133 | a number handed out is neither 0 nor BMAPSEQ_ANY, and the next one unless the counter wraps to 1 |
| `TimeoTable.WriteWrapIff` | slashd/mds_bmap_timeo.c:107-133 | when the counter wraps in a write grant the table stays in order iff no other lease is linked but one with number 0 and the low mark is not above the new number |
| `TimeoTable.ReadWrapIff` | slashd/mds_bmap_timeo.c:107-133 | in a read grant, which takes two numbers, also iff the wrap does not come between them |
| `TimeoTable.OvertakenIff` | slashd/mds_bmap_timeo.c:191-205 | a lease linked after other grants overtook it keeps the table in order iff their leases are gone again and the low mark has not passed its number |
| `TimeoTable.FailedGrantIff` | slashd/mds.c:647-661 | a failed write grant keeps the table in order iff the number left in the lease is above the others and within the marks |
| `TimeoTable.FailedGrantLowersMark` | slashd/mds.c:647-661 | a run in which it does not, and the low mark goes down |
| `TimeoTable.TimeoTable.GetNextSeq` | slashd/mds_bmap_timeo.c:107-133 | the next number, with the wrap-around that skips BMAPSEQ_ANY and 0 |
| `TimeoTable.TimeoTable.Remove` | slashd/mds_bmap_timeo.c:135-155 | the lease leaves the list; the low mark moves when it was the head |
| `TimeoTable.TimeoTable.Add` | slashd/mds_bmap_timeo.c:191-205 | the lease is linked once, at the tail, with the number it had; the other leases keep their order |
| `TimeoTable.TimeoTable.GrantWrite` | slashd/mds.c:693-704 | a write grant is the event of the table, with and without success; its lease is at the tail, behind the others |
| `TimeoTable.TimeoTable.GrantRead` | slashd/mds.c:998-1004 | a read grant uses up two numbers, stores the first and appends its lease |
| `TimeoTable.TimeoTable.Delete` | slashd/mds_bmap_timeo.c:166-170 | removal of the one lease |
| `TimeoTable.Play` | slashd/mds_bmap_timeo.c:107-205 | any sequence of grants, re-grants and removals on the heap: each is the event it should be, on the place of its lease; list, marks and the numbers in all leases are those of the specification |
| `Coalesce.TryCoalesce` | mount_slash/bflush.c:698-796 | the index advances; a group is a slice of the requests without a hole, at most LNET_MTU long unless its first request is longer; it ends only where the next request, which touches it, is too much or where something has expired; what is skipped, or all if there is no group, has not expired, is cut off from the group by a hole and, if no request is longer than an RPC, has no stretch that would fill one |
| `Coalesce.FlushPass` | mount_slash/bflush.c:959-967 | one pass ends; its groups are disjoint slices in order, none is longer than LNET_MTU if no request is, each is full or has something expired; every expired request is in exactly one of them, and a request left behind touches no later group and no stretch that would fill an RPC |
| `Coalesce.LeftIsTail` | mount_slash/bflush.c:747-796 | if a request stays behind after a pass, so does all that follows it without a hole; none of it has expired, and together it fits into one RPC |
| `Coalesce.FullSent` | mount_slash/bflush.c:747-770 | of a stretch behind a hole that is too long for one RPC, exactly the requests before the one that exceeds it are a group |
| `Coalesce.LongIsSent` | mount_slash/bflush.c:747-770 | of any stretch that is too long for one RPC at least the first request is sent |
| `Coalesce.MiddleStays` | mount_slash/bflush.c:747-770 | four requests of which the last three are too long for one RPC and do not begin behind a hole: the third stays, although the fourth exceeds the RPC |
| `FlushRun.SendGroups` | mount_slash/bflush.c:959-967 | the loop over the groups, on the dirty requests of a bmap: exactly the requests of the groups of a pass leave tree and list |
| `FlushRun.Flush` | mount_slash/bflush.c:926-977 | a visit of the flush thread: nothing if another thread has the bmap, all requests go if it failed; else all queued requests are offered in the order of the tree, one stays queued iff it is in no group, and no expired one does |
| `Coalesce.GroupCovers` | mount_slash/bflush.c:739-766 | a byte is in the range of a group iff some request of the group has it |
| `BiorqPages.Build` | mount_slash/io.c:174-233 | the pages of a request |
| `BiorqPages.PagedExact` | mount_slash/io.c:202-215 | they are exactly the pages that overlap it |
| `CoalesceMap.AddPages` | mount_slash/bflush.c:542-577 | the pages of one more request extend the list without a gap, and the array is long enough |
| `CoalesceMap.Prep` | mount_slash/bflush.c:520-584 | no assertion fires, and the list is exactly the pages that overlap the range of the group |
| `CoalesceMap.IovOf` | mount_slash/bflush.c:611-620 | a vector is not empty, stays in its page and follows on the bytes already mapped |
| `CoalesceMap.Map` | mount_slash/bflush.c:590-628 | at most BMPC_MAXBUFSRPC + 1 non-empty vectors, one a page; together they are exactly the cached bytes of the range |
| `FlushedFile.SentIsFile` | mount_slash/bflush.c:590-628 | the bytes of an RPC are those of the flat file in its range |
| `FlushedFile.WriteArrives` | mount_slash/bflush.c:590-628 | where the range of an RPC meets that of a write, the RPC carries the data of the write |
| `PagedIo.Split` | mount_slash/io.c:1817-1935 | EINVAL iff more than two bmaps are touched, else consecutive pieces of the range, one a bmap |
| `PagedIo.SpannedIff` | mount_slash/io.c:1824-1826 | the bmaps counted are exactly those that hold a byte of the range |
| `PagedIo.ClippedIff` | mount_slash/io.c:1812-1816 | what is read of a request is exactly its bytes before the end of the file |
| `PagedIo.TilesTotal` | mount_slash/io.c:1838-1935 | the pieces have as many bytes as the request |
| `PagedIo.FileCache.BiorqBuild` | mount_slash/io.c:174-233 | all pages of the request are there, and no cached byte changed |
| `PagedIo.FileCache.CopyIn` | mount_slash/io.c:1389-1473 | exactly the bytes of the request change, to the user's data, and its pages note them |
| `PagedIo.FileCache.CopyOut` | mount_slash/io.c:1478-1550 | exactly the cached bytes of the request before the end of the file, all of them if the file ends before the bmap and the difference wraps; every page passes the validity assertion |
| `PagedIo.FileCache.PagesFetch` | mount_slash/io.c:1311-1377 | page by page, those that do not claim to hold their part of the request are filled by the server and become ready |
| `PagedIo.Regions.PageValid` | mount_slash/io.c:109-153 | whether the recorded region takes in the part of the request in a page |
| `PagedIo.Regions.Note` | mount_slash/io.c:1442-1458 | the region after a write, which never outgrows the page |
| `PagedIo.NotedPartsAre` | mount_slash/io.c:1389-1473 | noting a write part by part and page by page is noting its range at once |
| `PagedIo.FetchedPartsAre` | mount_slash/io.c:1311-1377 | so is fetching |
| `PagedIo.FileCache.Write` | mount_slash/io.c:1824-1935 | a write through bmaps and pages is a write to the flat file: exactly its range changes, and its pages note it; new buffers are its own |
| `PagedIo.FileCache.Read` | mount_slash/io.c:1812-1935 | EINVAL iff more than two bmaps are touched, else the bytes of the flat file clipped at its end, after exactly the pages were fetched that did not claim to hold their part |
| `PagedIo.FileCache.Evict` | mount_slash/pgcache.c:221-249 | a page leaves the cache with its region, and no other |
| `CacheRun.Play` | mount_slash/io.c:1812-1935 | over any sequence of writes, reads and evictions on the heap: a request is refused iff it touches more than two bmaps, the states are a run of ValidRegion, and a read before which no write left a hole returns the file with all writes before it, clipped at its end |
| `CacheRun.Serve` | mount_slash/io.c:1812-1935 | one request, on any valid cache |
| `CacheRun.WriteRead` | mount_slash/io.c:1389-1550 | a read of the range of a write that left no hole returns the data written |
| `ValidRegion.JoinsIff` | mount_slash/io.c:1442-1458 | the new region holds the old one and the write, and nothing else iff the write leaves no hole |
| `ValidRegion.WriteSoundIff` | mount_slash/io.c:1442-1458 | whatever pages and file hold, a write keeps every claim of a page true iff it leaves no hole in a page |
| `ValidRegion.RefilledSound` | mount_slash/io.c:1235-1269 | a read keeps the claims true and finds the bytes of the file |
| `ValidRegion.ReadsAreFile` | mount_slash/io.c:133-148 | in every run of writes, reads and evictions, a read before which no write left a hole gives the file with all writes before it |
| `ValidRegion.HoleIsRead` | mount_slash/io.c:1447-1458 | two writes after which a read of the byte between them gives what was in the page, not the file |
| `FlatPages.WriteThenRead` | mount_slash/io.c:1389-1550 | a read after a write sees the written bytes in the range and the old ones elsewhere |
| `FlatPages.SplicedWrote` | mount_slash/io.c:1436-1440 | a copy into one page changes the bytes of the file at that place and no others |
| `PageCache.CountIsHolders` | mount_slash/pgcache.c:109-303 | in every reachable state the count of a page is its users plus one if an LRU list or a pending reap owns it, never both; offsets in the tree are unique |
| `PageCache.StepInv` | mount_slash/pgcache.c:109-303 | every section of every thread keeps this and fires no assertion |
| `PageCache.ImpossibleIsUnreachable` | mount_slash/pgcache.c:355-404 | with no users left every page of the tree is on an LRU list or reaped |
| `PageCache.NoAssertFires` | mount_slash/pgcache.c:221-303 | counts are positive before a release and zero at the end; a page is linked to a list at most once |
| `PageCache.FreedOnce` | mount_slash/pgcache.c:221-249 | a page is freed at most once and has no users then |
| `PageCache.FreedUnused` | mount_slash/pgcache.c:355-404 | a page returned to the pool by any event has no user, and no reaper still has it |
| `PageCache.LastReleaseIff` | mount_slash/pgcache.c:252-303 | at its last release a page goes to the list of its kind, with its data, iff they are ready, have not failed and are not discarded; else it leaves the tree |
| `PageCache.ClearedIsKept` | mount_slash/pgcache.c:120-135 | once the error of a page with data is cleared its last release keeps it |
| `PageCache.UsersAreOutstanding` | mount_slash/pgcache.c:109-303 | the users of a page are the references taken and not given back in the run |
| `PageCache.ListsFailedIff` | mount_slash/pgcache.c:258-284 | a page gets on a list with an error iff it failed after its release looked at it |
| `PageCache.FailedPageIsListed` | mount_slash/pgcache.c:258-284 | a run in which one does |
| `PageCache.ReapReleaseOk` | mount_slash/pgcache.c:499-565 | the release of a reaped page never puts it back on a list |
| `PageCache.NoPageIsLost` | mount_slash/pgcache.c:499-565 | a page without users can be reaped, released by the reaper or removed |
| `FsRequest.CountIsPending` | mount_slash/io.c:565-594 | in every reachable state the count of a request is its issuer's reference plus its biorqs that have not completed it; no assertion fires |
| `FsRequest.RepliedOnce` | mount_slash/io.c:565-594 | at most one reply in any run, sent iff the issuer and all biorqs are through; the length reported is the one counted, at most the size |
| `FsRequest.LengthIsCopied` | mount_slash/io.c:574-583 | the length of a request is the sum of what its biorqs copied, without those that completed it while it had an error; one that writes or bypasses the cache copied all its bytes, or none if there was an error then |
| `FsRequest.WholeWriteIff` | mount_slash/io.c:636-656 | a write built in full is reported in full iff no biorq with data was copied or completed while the request had an error, also if the error was cleared since |
| `FsRequest.AmountIsCopied` | mount_slash/io.c:661-708 | what a biorq counts for is what its one copy moved |
| `FsRequest.ErrorIsLast` | mount_slash/io.c:522-548 | the error of a request is what was set or cleared last |
| `FsRequest.CompletesOnce` | mount_slash/io.c:332-361 | no biorq completes its request twice, also not one kept for flushing |
| `FsRequest.DestroyedAfterDone` | mount_slash/io.c:297-361 | a biorq is destroyed once, after it completed the request, with no reference left |
| `FsRequest.StepInv` | mount_slash/io.c:661-708 | every section keeps this; copying the data and completing the request are two sections, between which the error can change |
| `FsRequest.FlushedWasCopied` | mount_slash/io.c:661-708 | what is flushed was copied while the request had not failed; if it fails in between the bytes do not count and are written all the same |
| `DirtyQueue.Bmpc.Schedflush` | mount_slash/io.c:1070-1102 | the request is queued, one more write is pending and the bmap is on the flush queue |
| `DirtyQueue.Bmpc.SendRpcs` | mount_slash/bflush.c:481-496 | exactly the requests of the group leave tree and list; that they are still queued follows from BMAPF_SCHED |
| `DirtyQueue.Bmpc.BeginFlush` | mount_slash/bflush.c:911-924 | one flush thread at a time has the bmap |
| `DirtyQueue.Bmpc.Snapshot` | mount_slash/bflush.c:953-957 | it takes all queued requests, in the order of the tree; unless deleted they stay queued while it has the bmap |
| `DirtyQueue.Bmpc.EndFlush` | mount_slash/bflush.c:969-972 | what was not sent stays queued |
| `DirtyQueue.Bmpc.Resched` | mount_slash/bflush.c:377-422 | a request is queued again at most once |
| `DirtyQueue.Bmpc.DestroyAll` | mount_slash/pgcache.c:455-497 | all leave, in the order of the tree, and stay pending until they are deleted |
| `DirtyQueue.Bmpc.Del` | mount_slash/io.c:235-269 | the count drops iff the request was ready, the bmap leaves the flush queue iff it drops to zero, and the request leaves the batch of a flush thread |
| `DirtyQueue.QueueOk` | mount_slash/pgcache.h:225-240 | insertion keeps the tree ordered, and tree and list hold exactly the ONTREE requests |
| `DirtyQueue.TreeSorted` | mount_slash/bflush.c:953-957 | what the coalescer gets from the tree is sorted by offset |
| `DirtyQueue.TreeOrder` | mount_slash/pgcache.h:225-240 | the tree goes by offset, then by length, then by identity |
| `DirtyQueue.BeforeIsOrder` | mount_slash/pgcache.h:225-240 | a strict order in which any two requests can be compared |
| `ReadBatch.Launch` | mount_slash/io.c:1235-1299 | the launched RPCs are consecutive pieces of the list, each contiguous, as long as possible and at most BMPC_MAXBUFSRPC pages; all pages if no launch fails, else all others are marked failed |
| `ReadBatch.InOne` | mount_slash/io.c:1271-1298 | each of those pages is in exactly one RPC |
| `ReadBatch.ContiguousAt` | mount_slash/io.c:1128-1154 | the pages of an RPC are a range of the bmap without a hole |
| `FidCache.CacheSound` | share/fidc_common.c:174-352 | in every reachable state one handle at most of a FID can be found, a handle is on the idle list iff nobody uses it or is about to destroy it, counts are the users, no assertion fires |
| `FidCache.DestroyedOnce` | share/fidc_common.c:100-149 | a handle is destroyed once, with no reference |
| `FidCache.NoHandleIsLost` | share/fidc_common.c:396-474 | a handle without users is on the idle list or about to be destroyed, also after a failed constructor or load |
| `FidCache.LiveIff` | share/fidc_common.c:174-352 | a lookup can find a handle from its creation until it is reaped, and no more once its constructor or its load failed |
| `FidCache.HitIsLoaded` | share/fidc_common.c:196-235 | a lookup is given only handles that have been set up |
| `FidCache.FailedCtorNotIdle` | share/fidc_common.c:431-474 | a handle whose constructor failed is never put on the idle list |
| `FidCache.CountIsOutstanding` | share/fidc_common.c:396-474 | the count of a handle is the number of references taken and not given back in the run |
| `FidCache.StepInv` | share/fidc_common.c:396-474 | every section keeps this |
| `ReplayTheorem.ReplayConvergesIff` | slashd/jreplay.c:92-366 | replaying all on a state that reflects a prefix equals replaying all from the start iff every bmap is safe |
| `ReplayTheorem.JournalConvergesIff` | slashd/jreplay.c:340-366 | the same for journal entries, of which an assignment entry makes up to three changes |
| `ReplayTheorem.RestConverges` | slashd/jreplay.c:215-228 | replica tables, policies, water marks and assignment slots always converge |
| `ReplayTheorem.TableFirstConverges` | slashd/jreplay.c:259-301 | a journal that has no bmap of a file before the first change of its table, if it changes it, always converges |
| `ReplayTheorem.RegularConverges` | slashd/repl_mds.c:186-217 | a journal in which tables only grow, CRCs come from servers in the table of the moment and nothing is in flight beyond it converges from every prefix |
| `ReplayTheorem.RegularSettles` | slashd/jreplay.c:110-113 | and every bmap it changes has the states of the last entry, with 1 (being made) turned into 2 (queued) and 7 (being reclaimed) into 6 (garbage): no replica is in flight |
| `ReplayTheorem.StatesDiverge` | slashd/jreplay.c:93-113 | a journal whose replica states do not converge and end in flight |
| `ReplayTheorem.CrcsDiverge` | slashd/jreplay.c:133-176 | a journal whose CRCs do not |
| `ReplayFinal.FinalTable` | slashd/jreplay.c:281-297 | after the replay the table of a file is that of the last entry for it, in all its servers, whether they are in the inode or in the extras |
| `ReplayFinal.FinalStates` | slashd/jreplay.c:92-113 | the state of each replica and the policy of a bmap are those of the last entry; within the table of that moment 1 is turned into 2 and 7 into 6 |
| `ReplayFinal.NoStates` | slashd/jreplay.c:92-113 | a bmap without an entry keeps them |
| `ReplayFinal.FinalCrc` | slashd/jreplay.c:133-176 | a sliver has the last CRC of the last entry that has one and comes from a server in the table of that moment; it is marked as having data and a CRC, its other marks stay |
| `ReplayFinal.NoCrc` | slashd/jreplay.c:133-176 | without one it stays as it is |
| `ReplayFinal.FinalMarks` | slashd/jreplay.c:215-228 | each water mark is the largest of its values in the journal and the one before |
| `ReplayFinal.FinalSlot` | slashd/jreplay.c:335-368 | an assignment slot is in use iff the last entry for it does not free it; it holds the item of that entry, or if it brings none the one it held |
| `ReplayFinal.NoSlot` | slashd/jreplay.c:335-368 | a slot without an entry stays as it is |
| `ReplayFinal.AssignGoesByNewTable` | slashd/jreplay.c:345-350 | if an assignment entry changes table and states, the states go by the new table |
| `ReplayConverge.InoConverges` | slashd/jreplay.c:259-301 | a replica table comes out the same although the extras are written only at times |
| `ReplayConverge.StatesConvergeIff` | slashd/jreplay.c:92-118 | replica states converge iff the last change comes after one of the table or has nothing in flight between the two table lengths |
| `ReplayConverge.SliverConvergesIff` | slashd/jreplay.c:133-176 | CRC and state of a sliver converge iff the prefix ends before the first change of the table, a later update sets the CRC anyway, or the last updates let through with the new and with the old table carry the same CRC |
| `ReplayConverge.LastUpdateWins` | slashd/jreplay.c:171-176 | the last CRC update that is let through wins and marks the sliver, without one nothing changes |
| `ReplayConverge.InFlightIff` | slashd/jreplay.c:110-113 | a state is that of the last change, with 1 turned into 2 and 7 into 6 within the table of that moment; so a replica ends in flight iff the change has it in flight beyond that table |
| `ReplayTheorem.SlotConverges` | slashd/jreplay.c:348-366 | an assignment slot converges, its use and its contents |
| `ReplayTheorem.MarksConverge` | slashd/jreplay.c:171-176 | so do the water marks |
| `ReplStates.PutStat` | include/bmap.h:277-298 | SET gives the slot its value and leaves every other slot, also where they share a byte |
| `ReplStates.StatBit` | include/bmap.h:277-284 | the state of replica k is in bits 3k to 3k + 2 of the array, from the lowest bit of the first byte |
| `ReplStates.GetsLast` | include/bmap.h:277-298 | after any sequence of SETs GET returns the last value set at the slot |
| `ReplStates.SetStat` | include/bmap.h:285-298 | SET in place |
| `ReplStates.WalkAll` | slashd/repl_mds.c:396-440 | the walk translates the first n states in place and no others |
| `Adler32.Adler` | share/adler32.c:47-72 | for every seed and every length, the checksum of section 8.2 of RFC 1950; no sum leaves 32 bits |
| `Adler32.RawFits` | share/adler32.c:11-13 | within a block no sum exceeds 2^32 - 1 |
| `Adler32.RawIsReference` | share/adler32.c:52-70 | reducing once a block is reducing after every byte |
| `Adler32.NmaxIsLargest` | share/adler32.c:11-13 | the bound holds for n iff n is at most NMAX |
| `Adler32.NoDivideIsMod` | share/adler32.c:21-44 | the divide-free MOD is the remainder on every 32-bit value |
| `Adler32.SumBlock` | share/adler32.c:55-66 | a block, by sixteen and then one by one, is the plain sum |

## Left out

- RPC transport, bulk transfer, connections, credentials, control tools, statistics: plumbing around the modelled parts.
- Recovery of leases at start-up (`mds_bia_odtable_startup_cb`, BTE_REATTACH): leases are linked in table order there, and the sequence properties are not promised for it.
- The choice of an I/O server, liveness and clocks: the server a grant gets and whether something has expired are inputs.
- Stored tables, the journal format and namespace replay: tables are maps, the journal a sequence, and namespace entries belong to another store.
- Journal replay of file size and block counts, of `bmi_orepls` and of the work queued for the update scheduler: the convergence is stated for the metadata named above.
- Page states during I/O (FAULTING, PINNED, EIO, AIOWAIT) in `PagedIo` and `ValidRegion`: a fetch succeeds, and as pending writes are flushed before it the server has the file.
- Retries, asynchronous I/O and direct I/O data paths of `msl_io`; a retry does not rewind the user buffer.
- TimeoTable.Marks: a grant is one step; TimeoSteps.InOrderIff and TimeoSteps.MarkRisesIff are about grants that interleave. In all of them the counter has not wrapped; TimeoTable.WriteWrapIff and TimeoTable.ReadWrapIff say what a wrap does.
- PagedIo.FileCache.Write: says nothing about the other bytes of a page that comes into the cache with the write.
- PagedIo.FileCache.Read: a read that starts at or past the end of the file gives no data, without the 64-bit wrap-around of the length in between; read-ahead is not part of it.
- PagedIo.FileCache.CopyIn: the regions are noted after all pages were copied, not page by page under the lock of each, and there is no waiting for pinned pages.
- PagedIo.FileCache.PagesFetch: pages that another thread is fetching, failed fetches and asynchronous ones are not part of it.
- CoalesceMap.Prep: the group is at most LNET_MTU long, which Coalesce.FlushPass gives if no request is longer; the array has no room for more.
- CoalesceMap.Map: the same.
- Coalesce.FlushPass: whether a request has expired does not change during the pass.
- FlushRun.Flush: no other thread comes between its sections; what the sections keep when others do is said of DirtyQueue.Bmpc. That the lease is being reassigned or that nothing is due is checked before.
- LeaseRun.Perform: the event of a lookup names its lease; the search by number is LeaseTable.Table.GetBml.
- ReplStates.WalkAll: the walk over all replicas, without return values, callbacks and the early exit.
- ReplStates.PutStat: values are below NBREPLST; a larger one would spill into the next slot.
