# HAMMER and HAMMER2 userspace tools: a verified model

This project models the parts of the HAMMER1/HAMMER2 userspace tools that carry
logic independent of the machine, and proves what those parts promise. Every
statement is for all inputs, all interleavings or all sequences of operations,
unless a lemma is named below as a concrete counterexample.

| file | what it models |
|---|---|
| `Common.dfy` | an option type, powers of two, 32-bit words in bytes, pieces on a wire |
| `Blockrefs.dfy` | HAMMER2 media as blocks of blockrefs with uninterpreted check codes; acyclic block graphs with sharing |
| `FsckVerify.dfy` | `fsck_hammer2`: the check of a blockref tree and its cache of verified subtrees |
| `FsckRepair.dfy` | `fsck_hammer2`: the post-order repair of check codes, and repair followed by check |
| `FsckStrays.dfy`, `FsckTwoKinds.dfy` | `fsck_hammer2`: media laid out as on a volume on which the cache shows, or a repair does not hold |
| `Transactions.dfy` | libdmsg: CREATE/DELETE/REPLY transactions between two ends of a FIFO link |
| `Stream.dfy` | libdmsg: the writer that resumes after partial writes and the parser over a compacting FIFO |
| `Sealing.dfy` | libdmsg: filling in queued messages, and a whole session from queue to delivered messages |
| `Relay.dfy` | libdmsg: selection of relayed LNK_SPANs on one connection |
| `SpanNetwork.dfy` | libdmsg: hosts that relay spans to each other over FIFO connections |
| `Freemap.dfy` | HAMMER1: the two-layer freemap and the append allocator, on values |
| `Format.dfy` | HAMMER1: formatting volumes and allocating in place |
| `Checkmap.dfy` | HAMMER1: the `checkmap` auditor for any references, and against the allocator |
| `BufferCache.dfy` | HAMMER1: the write-back buffer cache as a refinement of a plain disk |
| `CrcRange.dfy`, `DedupSimulate.dfy` | `hammer dedup-simulate`: memory-limited passes over CRC ranges |
| `DedupIndex.dfy` | `hammer dedup`: the CRC and SHA-256 index for every outcome of compare, checksum and ioctl, on values |
| `DedupPasses.dfy`, `DedupRun.dfy` | `hammer dedup`: the CRC range that shrinks when memory runs out, and the whole run of passes with a ledger of every record |
| `DedupLimits.dfy` | `hammer dedup`: memory that is enough for every run to end |
| `DedupFits.dfy`, `DedupTight.dfy` | `hammer dedup`: exactly how much memory makes one pass enough |
| `DedupClash.dfy`, `DedupHang.dfy`, `DedupTwice.dfy` | `hammer dedup`: runs that repeat a pass for ever, hang in an eviction or count records twice |
| `DedupTruth.dfy` | `hammer dedup`: SHA entries, allocated bytes and the ratio under an honest outside |
| `DedupTool.dfy` | `hammer dedup`: the program in place, from one record to the command |
| `Histogram.dfy` | `hammer mirror-read`: splitting a transaction id range into byte-balanced slices |
| `MirrorFraming.dfy` | `hammer mirror-read`/`mirror-write`: writing records, and reading them with a header read too early |
| `Softprune.dfy` | `hammer prune`: finalising the list of prune ranges |
| `BtreeShow.dfy` | `hammer show`: bounds of B-tree elements and the pruned prefix search |
| `RecoverPath.dfy` | `hammer recover`: the two-pass path builder over a possibly cyclic parent graph |

State that the C code updates in place is a class or an array here, and its
methods are proved against functions on values; the theorems are then about those
functions. External answers (check codes, CRCs, ioctl results, the sizes of reads
and writes, the order in which two ends act, what `qsort` makes of equal keys, the
time) are parameters or arbitrary sequences. A failed `assert` or `errx` in the
source is a result value.

Results that contradict the obvious expectation are stated with the exact
condition:

- A repair that meets a block protected by SHA192 stops on an assert, and one that
  cannot read a volume header returns at once: later headers are not repaired
  (`FsckRepair.ReconstructRepairs`, `FsckRepair.LaterUntouched`).
- A repair can report success and leave a wrong code when one block is reached under
  two kinds with different blockrefs (`FsckTwoKinds.TwoKindsBreak`); it cannot when all
  kinds a guarded block is reached under give it the same ones
  (`FsckRepair.RepairThenVerify`).
- A subtree's printed statistics depend on what is cached unless the subtree has no
  block of the other tree kind (`FsckVerify.StatsCacheFree`), because the counters
  share a C union; `FsckStrays.PrintedDependsOnCache` gives the media. Without a cache
  every good tree prints its own (`FsckStrays.UncachedPrints`).
- A cache threshold of 1 without the force option remembers blocks that were never
  fully verified (`FsckStrays.ThresholdOneCachesUnverified`).
- A message whose `aux_crc` was set wrongly before it was queued, and only such a
  message, ends the session at the receiver (`Sealing.SealExact`, `Sealing.Session`).
- The `checkmap` audit judges a big-block by the first reference to it, so a reference
  with a failed lookup can go unreported (`Checkmap.AuditExact`,
  `Checkmap.OrderDecides`).
- `hammer dedup` works off its CRC range unless an eviction closes the range, which
  happens exactly if the CRCs of the last halving alone exceed the limit
  (`DedupPasses.ClosesIff`). Then the filter of the scan is off, and the run repeats
  the same pass for ever or ends early with wrong totals, depending on the CRC
  (`DedupClash.OneCrc`, `DedupClash.ZeroCrc`).
- The eviction loop of `hammer dedup` has no end exactly if the entries below the least
  end it comes to exceed the limit (`DedupPasses.EvictNoneIff`); that end is the start
  of the range, or below it for a start in the upper half of the CRCs.
  `DedupHang.HangsForever` gives runs that get there.
- One pass of `hammer dedup` is enough for every answer of the outside exactly if the
  records fit without the last one and without any one that can be put off
  (`DedupTight.OnePassIff`). With less, a record that is counted above the end of its
  pass is counted again by a later one (`DedupRun.RunTotals`, and
  `DedupTwice.CountedTwice` for every limit that is too small for all CRCs).
- `dedup-simulate` counts a record twice when it is the one that overflows the index
  and lies above the halved range: the totals exceed an unlimited scan by exactly
  those records (`DedupSimulate.SimulateExact`, `DedupSimulate.LeakShows`), under every
  limit that is too small for all CRCs (`DedupSimulate.LeakIsCountedTwice`).
- The histogram arithmetic is right exactly for spans below 2^44
  (`Histogram.WrapIff`).
- An allocation that would cross a buffer other than the last of its big-block stops
  on an assert (`Freemap.AllocExact`, `Freemap.StraddleExact`); a zone that only hands
  out B-tree nodes never does (`Freemap.NodesFit`).
- A snapshot at transaction id 1 makes the last prune range empty
  (`Softprune.TileExact`).
- A mirror record header of type 0 that was read ahead is not seen by the reader of
  single records (`MirrorFraming.Reader.ReadOne`).
- On a read-only volume a cache flush forgets changes: callers see a difference
  exactly if a buffer that goes is not as on the disk (`BufferCache.FlushShows`), and
  the buffer in front always goes unless it is held (`BufferCache.FirstGoes`).
  `BufferCache.LosesChange` runs into it from a new cache.

## Model

| member | source | states |
|---|---|---|
| FsckVerify.WalkAgrees | src/sbin/fsck_hammer2/test.c:781-1022 | for every acyclic, possibly shared graph, every sound cache and every safe threshold the cached walk returns the plain verdict, leaves only entries that describe fully verified subtrees, and on success returns and adds exactly the subtree's statistics |
| FsckVerify.CachedVerdictIsPlain | src/sbin/fsck_hammer2/test.c:805-824 | any sound cache and safe threshold give the verdict and, on success, the delta of a walk with caching off, and the verdict is that every blockref below is valid, readable and matches its code |
| FsckVerify.StatsCacheFree | src/sbin/fsck_hammer2/test.c:737-761 | the printed statistics of a good subtree are the same for every sound cache if and only if the subtree has no block of the other tree kind |
| FsckStrays.PrintedDependsOnCache | src/sbin/fsck_hammer2/test.c:737-761 | for every threshold of at least 2 there are media, laid out without overlap, with four good headers on which the statistics printed for all but the first are not those of a run without a cache |
| FsckStrays.UncachedPrints | src/sbin/fsck_hammer2/test.c:781-1022 | without a cache a good tree prints exactly its own statistics, whatever kinds of block it holds |
| FsckStrays.Remembered | src/sbin/fsck_hammer2/test.c:1011-1021 | a good block with enough blocks below it is in the cache afterwards |
| FsckStrays.WalkExtends | src/sbin/fsck_hammer2/test.c:805-824 | a walk removes nothing from the cache and adds only what lies at or below its blockref |
| FsckStrays.ThresholdOneCachesUnverified | src/sbin/fsck_hammer2/test.c:994-1021 | for threshold 1 without force there are media, laid out without overlap, on which a blockref visited later passes although its tree is not good |
| FsckVerify.BranchAgrees | src/sbin/fsck_hammer2/test.c:880-1021 | a readable block agrees with the specification once its children do, whether or not it failed itself |
| FsckVerify.AddEntrySound | src/sbin/fsck_hammer2/test.c:494-513 | remembering a verified subtree keeps the cache sound |
| FsckVerify.TestIsExact | src/sbin/fsck_hammer2/test.c:286-334 | testing all volume headers over one shared cache passes if and only if every header can be read and its tree is good, prints for each good one without blocks of the other tree kind the statistics of its own tree, and leaves a sound cache |
| FsckVerify.Verifier.VerifyBlockref | src/sbin/fsck_hammer2/test.c:781-1022 | the recursion that updates statistics and cache in place computes the specified walk |
| FsckVerify.Verifier.VerifyChildren | src/sbin/fsck_hammer2/test.c:994-1012 | the loop over the child blockrefs computes the specified loop; a failed parent adds nothing to its delta |
| FsckVerify.Verifier.TestBlockref | src/sbin/fsck_hammer2/test.c:286-334 | verdict, printed statistics of every header and the final cache are those of the specified run, which stops at a header it cannot read |
| FsckRepair.ModifyRepairs | src/sbin/fsck_hammer2/reconstruct.c:338-513 | the "contents mismatch" exit is never taken, and a walk that ends well leaves every check code below the blockref correct, on any shared acyclic graph |
| FsckRepair.ModifyVerdict | src/sbin/fsck_hammer2/reconstruct.c:338-513 | how a repair ends is foretold by the blocks alone: done, failed on I/O or stopped on SHA192, whatever the codes are |
| FsckRepair.ModifyDone | src/sbin/fsck_hammer2/reconstruct.c:400-513 | the walk returns 0 if and only if everything below is readable and nothing below is protected by SHA192 |
| FsckRepair.ModifyKeeps | src/sbin/fsck_hammer2/reconstruct.c:338-513 | repairing any tree, however it ends, keeps every other consistent tree consistent |
| FsckRepair.ModifyIsLocal | src/sbin/fsck_hammer2/reconstruct.c:338-398 | blocks that do not lie below the blockref are not written |
| FsckRepair.WriteKeeps | src/sbin/fsck_hammer2/reconstruct.c:400-513 | a write of a slot that was bad leaves every consistent subtree consistent |
| FsckRepair.CheckFixes | src/sbin/fsck_hammer2/reconstruct.c:400-513 | the slot just checked matches its block afterwards |
| FsckRepair.SlotStays | src/sbin/fsck_hammer2/reconstruct.c:368-398 | a finished slot survives the repair of a later one, even with shared blocks |
| FsckRepair.GoodMeans | src/sbin/fsck_hammer2/test.c:781-1022 | the verifier's verdict is valid kinds everywhere plus matching codes everywhere |
| FsckRepair.ReconstructRepairs | src/sbin/fsck_hammer2/reconstruct.c:105-145 | up to the first header that ends the run, every header free of SHA192 and unreadable blocks is consistent at the end, so none is undone; the run succeeds, fails or aborts exactly as the headers say |
| FsckRepair.LaterUntouched | src/sbin/fsck_hammer2/reconstruct.c:112-142 | headers after one that cannot be read or meets SHA192 are as if they were not there |
| FsckRepair.AllRepaired | src/sbin/fsck_hammer2/reconstruct.c:105-145 | after success every header is consistent and was free of SHA192 and unreadable blocks |
| FsckRepair.ReconstructKeeps | src/sbin/fsck_hammer2/reconstruct.c:105-145 | repairing headers keeps every consistent tree consistent |
| FsckRepair.RepairThenVerify | src/sbin/fsck_hammer2/reconstruct.c:338-513 | on media where every guarded block has the same blockrefs under all kinds it is reached by: after a repair that reported success the verifier passes every header, with any safe cache threshold, if and only if the trees held valid blockref types to start with |
| FsckTwoKinds.TwoKindsBreak | src/sbin/fsck_hammer2/reconstruct.c:368-398 | media laid out without overlap with a block reached first under a kind without blockrefs and then under one with: the repair reports success, and the tree is good if and only if the second visit did not change the block's check code |
| FsckRepair.SecondRunIdle | src/sbin/fsck_hammer2/reconstruct.c:400-513 | on consistent media a repair writes nothing |
| FsckRepair.ReconstructIdempotent | src/sbin/fsck_hammer2/reconstruct.c:105-145 | repairing again after success changes nothing and succeeds |
| FsckRepair.Repairer.ModifyBlockref | src/sbin/fsck_hammer2/reconstruct.c:338-398 | the in-place recursion computes the specified media and outcome |
| FsckRepair.Repairer.ModifyCheck | src/sbin/fsck_hammer2/reconstruct.c:400-513 | the re-read, compare and rewrite of one slot computes the specified media and outcome |
| FsckRepair.Repairer.ReconstructBlockref | src/sbin/fsck_hammer2/reconstruct.c:105-145 | the headers are repaired in turn, up to one that cannot be read or aborts |
| Transactions.NoRunFails | src/lib/libdmsg/msg.c:2082-2481 | no interleaving of the two ends, with msgids reused as soon as their initiator drops them, reaches a duplicate, missing or reused state, a reply mismatch or a double DELETE |
| Transactions.ProtocolIsSafe | src/lib/libdmsg/msg.c:2082-2481 | from an idle link no sequence of actions ends in an error |
| Transactions.QuietEndsAgree | src/lib/libdmsg/msg.c:2591-2701 | with both channels empty the two ends hold the same open transactions, with mirrored directions |
| Transactions.EveryMessageIsExpected | src/lib/libdmsg/msg.c:2082-2481 | the next message always finds its transaction open in that direction, or absent if it creates one |
| Transactions.LeavesOnSecondDelete | src/lib/libdmsg/msg.c:2591-2701 | a state leaves its tree if and only if the step sends or takes its second DELETE |
| Transactions.WriteLeaves | src/lib/libdmsg/msg.c:2631-2701 | a write removes exactly the state whose other DELETE was already received |
| Transactions.TakeLeaves | src/lib/libdmsg/msg.c:2591-2630 | a reception removes exactly the state whose own DELETE was already sent |
| Transactions.StepKeeps | src/lib/libdmsg/msg.c:1554-1675 | every step of either end keeps the pairwise invariant of all transaction ids |
| Transactions.WriteKeeps | src/lib/libdmsg/msg.c:1554-1675 | so does every write |
| Transactions.TakeKeeps | src/lib/libdmsg/msg.c:2082-2481 | so does every reception, which is never an error |
| Transactions.InitiatorReads | src/lib/libdmsg/msg.c:2200-2481 | the next reply in flight is one the initiator accepts |
| Transactions.ResponderReads | src/lib/libdmsg/msg.c:2200-2481 | the next command in flight is one the responder accepts |
| Transactions.Iocom.MsgWrite | src/lib/libdmsg/msg.c:1554-1675 | flags, tree and queue after a write are the specified ones |
| Transactions.Iocom.MsgRx | src/lib/libdmsg/msg.c:2082-2481 | flags and trees after a reception are the specified ones; a refused message changes nothing |
| Stream.Writer.Gather | src/lib/libdmsg/msg.c:1283-1324 | the iovec has at most 16 pieces, is a prefix of what is pending and is not empty if anything is |
| Stream.Writer.Consume | src/lib/libdmsg/msg.c:1419-1488 | exactly the written bytes leave the queue and the byte count ends at 0 |
| Stream.Writer.Flush2 | src/lib/libdmsg/msg.c:1256-1488 | what was sent followed by what is pending is what was pending before |
| Stream.Reader.MakeRoom | src/lib/libdmsg/msg.c:574-601 | compaction keeps the decoded and the raw bytes and either has the room or starts the buffer at 0 |
| Stream.Reader.ReadHeader1 | src/lib/libdmsg/msg.c:662-783 | no byte of the stream is lost, and a core header is judged as the whole stream is |
| Stream.Reader.ReadHeader2 | src/lib/libdmsg/msg.c:784-879 | the extended header never straddles the buffer and is judged as the whole stream is; the result HeadCrc stands for the assert the source stops on |
| Stream.Reader.ReadAux | src/lib/libdmsg/msg.c:880-1001 | auxiliary data is collected across reads without loss, up to its announced length |
| Stream.Reader.IoqRead | src/lib/libdmsg/msg.c:615-1138 | on any byte stream, a message or defect returned is the one at the front of the stream, waiting loses nothing, and with an empty socket waiting means the message is incomplete |
| Stream.Next | src/lib/libdmsg/msg.c:718-1029 | the meaning of the front of a byte stream; a message is the stream's own bytes |
| Stream.Judged | src/lib/libdmsg/msg.c:820-1029 | a complete header and auxiliary data are judged the same whatever follows |
| Stream.ReadsBack | src/lib/libdmsg/msg.c:615-1138 | a stream that begins with sealed messages means exactly those in order and then what the rest means |
| Stream.SendAll | src/lib/libdmsg/msg.c:1256-1488 | any sequence of partial writes puts exactly the queue on the wire |
| Stream.ReceiveAll | src/lib/libdmsg/msg.c:615-1138 | any byte stream, read in any pieces, yields exactly the messages it means and ends the way it ends |
| Sealing.SealExact | src/lib/libdmsg/msg.c:1201-1247 | a filled-in message of right size has everything the parser asks for if and only if its aux_crc was 0 or right beforehand |
| Sealing.SealedFields | src/lib/libdmsg/msg.c:1208-1239 | magic, salt, command, sizes and both CRCs of a filled-in header, the header CRC over the header with that field 0 |
| Sealing.WrongPreset | src/lib/libdmsg/msg.c:1221-1229 | a wrong preset aux_crc is refused by the parser for that and nothing else |
| Sealing.QueueReads | src/lib/libdmsg/msg.c:1201-1247 | the bytes of a filled-in queue mean its messages up to the first wrong preset aux_crc |
| Sealing.Flush1 | src/lib/libdmsg/msg.c:1177-1248 | the loop over the queue fills in every header field by field and numbers the messages |
| Sealing.Session | src/lib/libdmsg/msg.c:615-1488 | any queue of messages of right size, filled in, written and read under any splitting, arrives in order and without an ioq error exactly up to the first wrong preset aux_crc |
| Relay.SameOrder | src/lib/libdmsg/msg_lnk.c:245-307 | under one node relays sort as their links do |
| Relay.FirstIsBest | src/lib/libdmsg/msg_lnk.c:855-904 | a node's first relay is its best link or one behind it |
| Relay.Relays.ScanSpecific | src/lib/libdmsg/msg_lnk.c:823-995 | the node's block of the relay tree becomes its best link if that passes the filters and nothing otherwise; the rest of the tree is untouched |
| Relay.Relays.Place | src/lib/libdmsg/msg_lnk.c:869-982 | a matching relay is kept, a missing one is made in first place, and the assert on distances holds |
| Relay.Relays.DeleteExtras | src/lib/libdmsg/msg_lnk.c:984-994 | exactly the remaining relays of the node are deleted |
| Relay.Scan | src/lib/libdmsg/msg_lnk.c:823-995 | the relays of the node are the wanted ones, those of all other nodes are as before, the tree stays sorted, and a scan that finds the wanted relays changes nothing |
| Relay.ReplacedSorted | src/lib/libdmsg/msg_lnk.c:277-307 | the relay tree is sorted again after a scan |
| Relay.ScanFits | src/lib/libdmsg/msg_lnk.c:823-995 | after a scan the relays of every node still come from present links that pass |
| Relay.LinksChangeFits | src/lib/libdmsg/msg_lnk.c:620-680 | a new span keeps the relays right, and a closed one does when its relays went first |
| SpanNetwork.StepKeeps | src/lib/libdmsg/msg_lnk.c:523-720 | a span that arrives or is closed, a scan of a node on a connection, and a message delivered on a FIFO wire keep both ends in step: what a host received and what is on the wire is what the other end relays |
| SpanNetwork.RunKeeps | src/lib/libdmsg/msg_lnk.c:523-995 | so does every run from hosts without spans, over any wiring |
| SpanNetwork.Provenance | src/lib/libdmsg/msg_lnk.c:1038-1078 | in every run each live received span is a relay of the sender, for a live link one hop closer that came over another connection and passed the filters, unless its end is on the way |
| SpanNetwork.DistBounded | src/lib/libdmsg/msg_lnk.c:908-913 | no span is more than one beyond the distance limit, and a client's own span is at 0 |
| SpanNetwork.TrailLeads | src/lib/libdmsg/msg_lnk.c:1038-1160 | relay chains are acyclic: they lead hop by hop to a client's own span, or to a span whose end is on the way |
| SpanNetwork.QuietTrail | src/lib/libdmsg/msg_lnk.c:1038-1160 | with nothing on the wires every chain has one hop per unit of distance and ends at a client's own span |
| Freemap.AllocKeeps | src/sbin/hammer/blockmap.c:113-207 | every allocation that returns keeps all counts, owners and free bytes right, and the extent is in one buffer and apart from all earlier ones |
| Freemap.AllocExact | src/sbin/hammer/blockmap.c:143-196 | where an allocation goes, exactly: the zone's next offset while it fits its buffer, an assert on a straddle inside the big-block, otherwise the first free big-block |
| Freemap.StartExact | src/sbin/hammer/blockmap.c:143-188 | from a block start the retry loop takes the first free big-block, or ends as the tables say |
| Freemap.StraddleExact | src/sbin/hammer/blockmap.c:145-191 | a straddle inside an owned big-block always fails the append-offset assert |
| Freemap.CountsKept | src/sbin/hammer/blockmap.c:175-183 | each layer-1 count and the total stay the numbers of zone-0 entries |
| Freemap.FrontierKept | src/sbin/hammer/blockmap.c:185-196 | each zone's next offset stays past all it owns and at the append offset of its current big-block |
| Freemap.ExtentsKept | src/sbin/hammer/blockmap.c:190-196 | all extents stay pairwise disjoint, one buffer each, in big-blocks of their zone |
| Freemap.AccountedKept | src/sbin/hammer/blockmap.c:190-196 | free bytes stay the block size minus what was handed out |
| Freemap.TotalIsSum | src/sbin/hammer/blockmap.c:175-183 | the free big-block total is the sum of all layer-1 counts |
| Freemap.NodesFit | src/sbin/hammer/ondisk.c:504-513 | a zone that only hands out nodes never straddles and stays node-aligned |
| Freemap.LookupFinds | src/sbin/hammer/blockmap.c:215-331 | every byte of every extent is looked up without error in a big-block of its zone |
| Freemap.UndoKeeps | src/sbin/hammer/blockmap.c:59-107 | taking an undo big-block keeps the freemap right |
| Format.RunKeeps | src/sbin/hammer/blockmap.c:43-207 | every sequence of allocations and undo big-blocks that returns keeps the freemap right, its layer-2 tables distinct, and takes nothing back |
| Format.LoadedKeeps | src/sbin/hammer/ondisk.c:598-694 | loading a fresh volume keeps the freemap right |
| Format.LoadedDistinct | src/sbin/hammer/ondisk.c:629-641 | loading a fresh volume keeps the layer-2 tables distinct and in big-blocks of loaded volumes |
| Format.Volume.BootstrapBigblock | src/sbin/hammer/blockmap.c:43-54 | hands out the next big-block, or fails at the end of the volume |
| Format.Volume.CountFreemap | src/sbin/hammer/ondisk.c:700-732 | the dry count is the volume's blocks minus those its tables will take |
| Format.Root.FillRow | src/sbin/hammer/ondisk.c:655-684 | a layer-2 row is loaded and its free entries counted |
| Format.Root.AddVolume | src/sbin/hammer/ondisk.c:598-694 | loading fails if and only if the tables do not fit; otherwise it returns the free blocks and keeps the freemap right with distinct tables |
| Format.Root.FormatVolume | src/sbin/newfs_hammer/newfs_hammer.c:573-636 | the dry count before formatting equals the count of the load, on root and other volumes |
| Format.Root.AllocUndoBigblock | src/sbin/hammer/blockmap.c:59-107 | takes the next bootstrap block for the undo zone or stops, in place |
| Format.Root.AllocBlockmap | src/sbin/hammer/blockmap.c:113-207 | the in-place retry loop computes the specified allocation, keeps the freemap right and adds the extent |
| Checkmap.SlotInjective | src/sbin/hammer/cmd_blockmap.c:506-524 | a tracking slot belongs to one big-block |
| Checkmap.CollectExact | src/sbin/hammer/cmd_blockmap.c:454-524 | after any references the tracks are exactly those of the slots they lead to, each with the entry and zone of its first reference and its size minus all lengths charged to it |
| Checkmap.AuditExact | src/sbin/hammer/cmd_blockmap.c:559-608 | for every list of references, found or not: the errors are exactly the slots where the first reference's zone is not the saved one or the saved free bytes are not the size minus the lengths charged |
| Checkmap.FailureReported | src/sbin/hammer/cmd_blockmap.c:468-472 | a reference with a failed lookup is reported if it is the first to its slot |
| Checkmap.OrderDecides | src/sbin/hammer/cmd_blockmap.c:506-524 | two references to one big-block, one with a failed lookup: clean in one order and not in the other |
| Checkmap.OrderDecidesSomewhere | src/sbin/hammer/cmd_blockmap.c:506-524 | such a freemap with two 16-byte references |
| Checkmap.FoundAudit | src/sbin/hammer/cmd_blockmap.c:559-608 | if every reference is found, the audit is clean if and only if every touched big-block's free bytes are its size minus the references to it |
| Checkmap.UsedPermutes | src/sbin/hammer/cmd_blockmap.c:454-472 | what a big-block is charged does not depend on the order of references |
| Checkmap.AuditorAgrees | src/sbin/hammer/cmd_blockmap.c:454-608 | fed every extent the allocator handed out, once each in any order, the auditor reports no error |
| Checkmap.RunAuditsClean | src/sbin/hammer/blockmap.c:190-196 | after any sequence of allocations that returns, from a freemap as formatting leaves it, the audit of the extents is clean |
| Checkmap.Auditor.CollectBlockmap | src/sbin/hammer/cmd_blockmap.c:454-524 | one reference, with the lazily made track, in place |
| Checkmap.Auditor.DumpCollectTable | src/sbin/hammer/cmd_blockmap.c:526-608 | the error count is the number of mismatching tracks |
| Checkmap.Audit | src/sbin/hammer/cmd_blockmap.c:454-608 | for every list of references the check reports as many errors as slots that do not agree |
| BufferCache.DropKeeps | src/sbin/hammer/ondisk.c:437-459 | dropping a buffer nobody holds changes nothing callers see, except that on a read-only volume they see the disk there |
| BufferCache.FlushShows | src/sbin/hammer/cache.c:105-137 | a flush changes what callers see if and only if the volume is read-only and a buffer that goes is not as on the disk |
| BufferCache.FirstGoes | src/sbin/hammer/cache.c:113-136 | the buffer in front goes in every triggered flush unless it is held |
| BufferCache.LosesChange | src/sbin/hammer/cache.c:105-137 | for every maximum of more than one buffer: a new cache on a read-only volume, filled up, a change stored and given back, and the next buffer read; callers then see the disk where the change was |
| BufferCache.Cache.Add | src/sbin/hammer/ondisk.c:328-357 | a buffer that is made is put in front, held once, and the rest stays in order |
| BufferCache.FlushedFits | src/sbin/hammer/cache.c:112-137 | what a flush leaves is below half the maximum or held, and has every held buffer |
| BufferCache.ForgetsNothing | src/sbin/hammer/ondisk.c:975-987 | on a volume that can be written, or where all that is not held is as on the disk, no cache operation loses anything |
| BufferCache.Cache.Flush | src/sbin/hammer/cache.c:105-137 | a triggered flush leaves exactly the specified buffers, never raises the maximum, and shows only as stated for read-only volumes |
| BufferCache.Cache.Load | src/sbin/hammer/ondisk.c:328-401 | a buffer is found or made, at most one per offset, and held once more; a new one reads as zeros; the asserts are a read-ahead of a cached buffer and a zeroing of a modified one |
| BufferCache.Cache.Get | src/sbin/hammer/ondisk.c:365-401 | after flush and read-ahead the buffer is still cached and held; apart from a zeroed buffer callers see a change on read-only volumes only, where a buffer nobody holds went back to the disk |
| BufferCache.Cache.ReadAround | src/sbin/hammer/ondisk.c:402-434 | read-ahead and read-behind change no references, and contents only as a flush does |
| BufferCache.Cache.Rel | src/sbin/hammer/ondisk.c:436-459 | one reference less and nothing else |
| BufferCache.Cache.GetData | src/sbin/hammer/ondisk.c:466-499 | the buffer in hand is kept or traded for the wanted one |
| BufferCache.Cache.Store | src/sbin/hammer/blockmap.c:84-99 | a holder's marked change is what callers see from then on |
| BufferCache.Cache.FlushAll | src/sbin/hammer/ondisk.c:915-942 | no mark is left and callers see no change; afterwards the disk is what they see, or untouched if read-only |
| CrcRange.HalvedInside | src/sbin/hammer/cmd_dedup.c:417-418 | the 32-bit halving is the middle of the range |
| DedupSimulate.PassExact | src/sbin/hammer/cmd_dedup.c:406-453 | after a pass the index is the unlimited scan's for every CRC of its final range and has at most the leaked record besides |
| DedupSimulate.EvictKeeps | src/sbin/hammer/cmd_dedup.c:411-434 | over the limit the range is wide enough to halve, and its new end is above the start |
| DedupSimulate.PassTotals | src/sbin/hammer/cmd_dedup.c:230-241 | a pass adds up to the unlimited totals of its range plus the leak |
| DedupSimulate.SimulateExact | src/sbin/hammer/cmd_dedup.c:218-246 | the pass loop ends, leaves no gap in CRC space, and its totals are the unlimited scan's plus exactly the leaked records |
| DedupSimulate.RefIsBytes | src/sbin/hammer/cmd_dedup.c:448-451 | over all CRCs the referenced bytes are the bytes of all records |
| DedupSimulate.OnePassIff | src/sbin/hammer/cmd_dedup.c:218-246 | one pass is enough if and only if the CRCs of all records but the last fit |
| DedupSimulate.FitsExact | src/sbin/hammer/cmd_dedup.c:416-416 | when entries for the CRCs of all records but the last fit the limit the totals are exactly the unlimited scan's |
| DedupSimulate.LeakShows | src/sbin/hammer/cmd_dedup.c:416-446 | over the whole run, the referenced bytes are those of the records if and only if the leaked records of all passes have none |
| DedupSimulate.LeakIsCountedTwice | src/sbin/hammer/cmd_dedup.c:416-446 | for every limit that is too small for all CRCs: one record more than fits and one with the highest CRC, whose referenced bytes come out too large |
| DedupSimulate.Simulator.CollectElm | src/sbin/hammer/cmd_dedup.c:406-453 | halving, trimming from the top and counting in place compute the specified step |
| DedupSimulate.Simulator.ScanPfs | src/sbin/hammer/cmd_dedup.c:956-965 | the filtered scan computes the specified pass |
| DedupSimulate.Simulator.Drain | src/sbin/hammer/cmd_dedup.c:233-241 | the index is added up from any root order and emptied |
| DedupSimulate.Simulator.Run | src/sbin/hammer/cmd_dedup.c:218-246 | the program's totals are the specified ones |
| DedupIndex.OfferKeeps | src/sbin/hammer/cmd_dedup.c:552-808 | for every verdict of compare, checksum and ioctl a record ends up in the index, in the queue or in both totals, in one of them only, and every entry counts as many references and bytes as records are held under its CRC |
| DedupIndex.OfferFrame | src/sbin/hammer/cmd_dedup.c:552-808 | no entry of another CRC is touched |
| DedupIndex.MemBound | src/sbin/hammer/cmd_dedup.c:552-776 | an entry takes at most one CRC entry and one SHA entry per record it holds |
| DedupPasses.EvictAbove | src/sbin/hammer/cmd_dedup.c:523-549 | from a range open at its start the eviction ends under the limit within 32 turns, and exactly the entries at or above the new end are gone, all others as before |
| DedupPasses.ClosesIff | src/sbin/hammer/cmd_dedup.c:523-549 | an eviction closes the range if and only if what the last halving leaves still exceeds the limit |
| DedupPasses.EvictForever | src/sbin/hammer/cmd_dedup.c:523-549 | a loop that has not ended after 64 turns does not end |
| DedupPasses.EvictNoneIff | src/sbin/hammer/cmd_dedup.c:523-549 | from any range of a run the eviction loop has no end if and only if the entries below the least end it comes to exceed the limit |
| DedupPasses.LeastOfCycle | src/sbin/hammer/cmd_dedup.c:524-525 | that end is one the loop comes to, none of the cycle is below it, and it is the start or an end that went around 2^32 |
| DedupRun.PassRight | src/sbin/hammer/cmd_dedup.c:309-331 | a pass that never closes its range ends, and accounts for every record it read: held, counted, or left to the next pass |
| DedupRun.RunKeeps | src/sbin/hammer/cmd_dedup.c:309-360 | so does every prefix of the run, pass after pass |
| DedupRun.RunTotals | src/sbin/hammer/cmd_dedup.c:309-360 | a run that never closes its range ends, the bytes it reports as referenced are those of all records and of those counted above the end of their pass, and no more are reported as allocated |
| DedupLimits.NotClosed | src/sbin/hammer/cmd_dedup.c:523-549 | with memory for the records of any two neighbouring CRCs, for what is kept for pass 2 and for one more, no eviction closes the range |
| DedupLimits.LightTotals | src/sbin/hammer/cmd_dedup.c:309-360 | with that memory every run ends with those totals, pass 2 included |
| DedupFits.RoomyPass | src/sbin/hammer/cmd_dedup.c:309-360 | if the records fit without the last one and without any one that can be put off, the first pass is the last and reports the bytes of all records, whatever the outside answers |
| DedupTight.CrampedPass | src/sbin/hammer/cmd_dedup.c:523-549 | with less memory there are answers under which the first pass loses records or hangs |
| DedupTight.OnePassIff | src/sbin/hammer/cmd_dedup.c:309-360 | for records that share no block, one pass is enough whatever the outside answers if and only if that memory is there |
| DedupTwice.CountedTwice | src/sbin/hammer/cmd_dedup.c:523-562 | for every limit of three records or more that is too small for all CRCs: a run that ends and reports more bytes than there are |
| DedupTruth.OfferTold | src/sbin/hammer/cmd_dedup.c:552-808 | under honest checksums and verdicts every SHA entry counts exactly the records of its CRC with its hash, a CRC entry has one content, and the lengths stored are those of the contents |
| DedupTruth.PassStores | src/sbin/hammer/cmd_dedup.c:333-357 | an honest pass adds to the allocated bytes each content of the records it indexed once, and what it gave up |
| DedupTruth.RunStores | src/sbin/hammer/cmd_dedup.c:309-360 | the allocated bytes of an honest run that never closes its range are those of its passes |
| DedupTruth.RatioIsRight | src/sbin/hammer/cmd_dedup.c:365-377 | with enough memory and a perfect outside the reported ratio is the bytes of all records to the bytes of their contents |
| DedupHang.HangsForever | src/sbin/hammer/cmd_dedup.c:523-549 | colliding records of CRC 1, of CRC 0 and of CRC 1 again, more of each than fit: the second pass hangs in an eviction |
| DedupClash.ZeroCrc | src/sbin/hammer/cmd_dedup.c:957-965 | colliding records of CRC 0: the run ends, and reports all bytes if and only if all records but the last fit |
| DedupClash.OneCrc | src/sbin/hammer/cmd_dedup.c:309-360 | colliding records of CRC 1: the run ends if and only if all records but the last fit; otherwise it starts over from the same CRC for ever |
| DedupTool.Dedup.Process | src/sbin/hammer/cmd_dedup.c:509-809 | one record in place: eviction, then index, queue or totals, as specified |
| DedupTool.Dedup.ProcessFict | src/sbin/hammer/cmd_dedup.c:569-675 | a CRC known to collide |
| DedupTool.Dedup.ProcessSha | src/sbin/hammer/cmd_dedup.c:620-675 | a record whose SHA is indexed, for every verdict of the ioctl; an underflow rewrite keeps the key |
| DedupTool.Dedup.ProcessPlain | src/sbin/hammer/cmd_dedup.c:676-709 | a CRC with one entry |
| DedupTool.Dedup.Collide | src/sbin/hammer/cmd_dedup.c:711-776 | a collision moves the entry with its counts under its SHA and then places the record, however the checksums come out |
| DedupTool.Dedup.Defer | src/sbin/hammer/cmd_dedup.c:789-808 | a record that cannot be indexed is queued once or added to both totals |
| DedupTool.Dedup.Evict | src/sbin/hammer/cmd_dedup.c:523-549 | the loop in place reaches the specified range and index, or is found to have no end |
| DedupTool.Dedup.Trim | src/sbin/hammer/cmd_dedup.c:532-548 | exactly the entries at or above the end are dropped and their memory with them |
| DedupTool.Dedup.ScanPfs | src/sbin/hammer/cmd_dedup.c:934-972 | the filtered scan over all data records |
| DedupTool.Dedup.Pass2 | src/sbin/hammer/cmd_dedup.c:321-328 | every queued record gets its second try in order, and the queue is empty |
| DedupTool.Dedup.Drain | src/sbin/hammer/cmd_dedup.c:333-357 | every entry counts all its references and is stored once; the division is exact |
| DedupTool.Dedup.DoPass | src/sbin/hammer/cmd_dedup.c:309-357 | one pass from scan to added-up totals |
| DedupTool.Dedup.Command | src/sbin/hammer/cmd_dedup.c:308-360 | the pass loop of the command computes the specified run |
| Histogram.IndexExact | src/sbin/hammer/cmd_mirror.c:604-610 | below a span of 2^44 every bucket index is in bounds and its half-open range has the transaction id |
| Histogram.OnlyBucket | src/sbin/hammer/cmd_mirror.c:604-610 | no other bucket's range has it |
| Histogram.WrapIff | src/sbin/hammer/cmd_mirror.c:624-629 | the last transaction id falls into the last bucket if and only if the span is below 2^44 |
| Histogram.Prescan | src/sbin/hammer/cmd_mirror.c:569-647 | every bucket and the total hold exactly the bytes of the events that belong there |
| Histogram.Reduce | src/sbin/hammer/cmd_mirror.c:658-675 | the slices begin at rising buckets, all but the last have the split amount, and there are at most as many as buckets |
| Histogram.SliceExact | src/sbin/hammer/cmd_mirror.c:658-675 | a slice has exactly the bytes of the transaction ids above its start up to the next slice's |
| Histogram.SlicesCover | src/sbin/hammer/cmd_mirror.c:172-231 | every transaction id of the range is in exactly one slice |
| Histogram.Generate | src/sbin/hammer/cmd_mirror.c:502-698 | the slices partition the range, their bytes are those of their ids and sum to the total |
| MirrorFraming.PackedFields | src/sbin/hammer/cmd_mirror.c:1471-1497 | signature, type, size, CRC and padding of a record that was packed |
| MirrorFraming.PackedIsWritten | src/sbin/hammer/cmd_mirror.c:1471-1497 | every record the writer packs, of a type and size the format has and with its data inside, is one the readers accept |
| MirrorFraming.WriteMrecord | src/sbin/hammer/cmd_mirror.c:1471-1497 | the header made in place and the padded output are the packed record |
| MirrorFraming.ReadsOne | src/sbin/hammer/cmd_mirror.c:1406-1497 | the reader of one record reads back the next record that was packed |
| MirrorFraming.ReadsMany | src/sbin/hammer/cmd_mirror.c:1279-1401 | the reader of many reads back exactly the leading records that fit and are for the ioctl |
| MirrorFraming.Reader.ReadMany | src/sbin/hammer/cmd_mirror.c:1279-1401 | on any stream it takes what stream and room allow, reports the first defect, an illegal data length among them, and keeps the header it stops at |
| MirrorFraming.Reader.ReadOne | src/sbin/hammer/cmd_mirror.c:1406-1467 | on any stream it returns the next record or defect, beginning at a kept header if and only if that is not of type 0 |
| MirrorFraming.EnoughSingles | src/sbin/hammer/cmd_mirror.c:1407-1467 | with more calls for one record than records the end is met, and at the end every record was taken |
| MirrorFraming.TakesNext | src/sbin/hammer/cmd_mirror.c:1280-1401 | a call for many takes the next record if it is for the ioctl and fits |
| MirrorFraming.Session | src/sbin/hammer/cmd_mirror.c:1279-1497 | records written by the writer and read by any mix of the two readers, with any short reads, come back in order, none lost and none twice, exactly as many as the calls ask for |
| Softprune.SquashStrict | src/sbin/hammer/cmd_softprune.c:546-573 | after removal of duplicates transaction ids strictly fall |
| Softprune.SquashSame | src/sbin/hammer/cmd_softprune.c:546-573 | no transaction id is lost or added by it |
| Softprune.RetainedExact | src/sbin/hammer/cmd_softprune.c:575-600 | retention leaves no timestamped snapshot inside the minimum time and takes off no more than it must |
| Softprune.TileExact | src/sbin/hammer/cmd_softprune.c:602-632 | each range ends where the one before begins, at a snapshot, the last begins at 1, and only the last can be empty: when there is a snapshot at 1 |
| Softprune.TilesCover | src/sbin/hammer/cmd_softprune.c:602-632 | every transaction from 1 up to a snapshot is in exactly one range below it |
| Softprune.TilesBelow | src/sbin/hammer/cmd_softprune.c:602-611 | nothing at or above the newest kept snapshot is pruned |
| Softprune.KeptSnapshots | src/sbin/hammer/cmd_softprune.c:546-600 | the list that is kept is of distinct falling transaction ids |
| Softprune.Softprune.AddElm | src/sbin/hammer/cmd_softprune.c:478-504 | the element is appended and one entry is always left free |
| Softprune.Softprune.Squeeze | src/sbin/hammer/cmd_softprune.c:546-573 | the in-place shifting leaves the first of every run and chains the ends |
| Softprune.Softprune.Retain | src/sbin/hammer/cmd_softprune.c:575-600 | the in-place scan and shift leave exactly the kept snapshots |
| Softprune.Softprune.Ranges | src/sbin/hammer/cmd_softprune.c:602-633 | dropping the newest and adding the terminator gives exactly the ranges; the capacity assert holds |
| Softprune.Softprune.Finalize | src/sbin/hammer/cmd_softprune.c:527-634 | for whatever `qsort` returns, the final array is the ranges of the kept distinct snapshots |
| BtreeShow.CmpOrder | src/sbin/hammer/cmd_show.c:518-554 | the comparator is a total order with a create tid of 0 last |
| BtreeShow.TestRises | src/sbin/hammer/cmd_show.c:956-1003 | the prefix test is monotone in that order, and on five fields it is the order |
| BtreeShow.InRange | src/sbin/hammer/cmd_show.c:1015-1030 | a match between an element and its right neighbour keeps the element in range |
| BtreeShow.KeysBetween | src/sbin/hammer/cmd_show.c:556-582 | in a tree without bounds flags every key below an element, at any depth, lies between it and its right neighbour |
| BtreeShow.SearchComplete | src/sbin/hammer/cmd_show.c:239-256 | in such a tree the pruned search shows every matching key, in order, for any prefix length and filter |
| BtreeShow.ShowsAll | src/sbin/hammer/cmd_show.c:239-256 | without a filter everything is shown |
| BtreeShow.SeeksThenShows | src/sbin/hammer/cmd_show.c:246-253 | with the default filter what is shown is a suffix of all keys |
| BtreeShow.Shower.PrintElms | src/sbin/hammer/cmd_show.c:215-236 | a node's elements count as bad if and only if one of them, or its boundary, has a bounds flag |
| BtreeShow.Shower.PrintNode | src/sbin/hammer/cmd_show.c:165-258 | the recursion shows the specified keys; a tree without flags counts no bad element, and an unfiltered show that counts none means a tree without flags |
| RecoverPath.ChainDistinct | src/sbin/hammer/cmd_recover.c:692-741 | no node is visited twice, however parents are linked |
| RecoverPath.PathIsText | src/sbin/hammer/cmd_recover.c:718-739 | the path is the target directory and the elements of the visited nodes, topmost first |
| RecoverPath.Figure | src/sbin/hammer/cmd_recover.c:692-717 | the sizing pass ends, restores all flags and returns the length of the path and its NUL |
| RecoverPath.Load | src/sbin/hammer/cmd_recover.c:718-741 | the loading pass visits the same nodes, writes exactly the path within the buffer and restores all flags |
| RecoverPath.Recover | src/sbin/hammer/cmd_recover.c:667-686 | for every parent graph the buffer is filled to its last byte by the path and its NUL |

## Left out

- FsckVerify.WalkAgrees: needs an acyclic block graph, and reads each block whole; the device reads and the size arithmetic of `read_media` are not modelled.
- FsckVerify.TestIsExact: volume headers that fail their own check, and the per-PFS variant of the test, are not modelled.
- FsckRepair.RepairThenVerify: check codes are uninterpreted functions of the block; blocks do not overlap, and a block guarded by a check code has the same blockrefs under all kinds it is reached by; I/O either finds a block or fails.
- FsckRepair.ModifyDone: the same condition on kinds; how a repair ends without it is not characterised beyond `FsckTwoKinds.TwoKindsBreak`, which shows that it depends on the values of the check codes.
- FsckRepair.ModifyRepairs: the order in which volume header CRCs are repaired is not modelled.
- Transactions.NoRunFails: two ends, circuit 0, atomic steps and no wire ABORT; stacked circuits, relayed transactions, dying and aborting states, mutexes and reference counts are not modelled.
- Sealing.Session: encryption, byte swapping of a message from the other byte order, end of file and socket errors are not modelled; messages have the sizes `dmsg_msg_alloc` gives them.
- Stream.Reader.ReadHeader2: a bad header CRC is the error HeadCrc here, where the source stops on an assert.
- Relay.Scan: only the best link is relayed, as in the source without REQUIRE_SYMMETRICAL; the random part of the sub-sort and the LNK_SPAN transactions behind a relay are not modelled.
- SpanNetwork.RunKeeps: the wiring is fixed; connections that come up or fail during a run, and the LNK_CONN that sets the filters of one, are not steps.
- Freemap.AllocKeeps: offsets are big-block number and offset in the block, layer-2 entries are found by big-block number, and CRCs of table entries and buffer I/O are not modelled; zone 15, which also marks unavailable space, is not an allocation zone here.
- Format.Root.AddVolume: needs a volume whose tables are not loaded yet; the size of the undo area and the content of undo blocks are not modelled.
- Checkmap.AuditExact: free bytes are unbounded integers, so that a sum of lengths beyond 32 bits does not wrap; the walks that find the references and the debug asserts are not modelled.
- BufferCache.Cache.Get: buffers are numbered; hash lists, translation of zone offsets and read errors are not modelled, and a new buffer is marked modified before the flush, which does not touch it either way.
- BufferCache.Cache.Store: callers that change a buffer without marking it are not modelled.
- DedupSimulate.SimulateExact: the order of records is the same in every pass.
- DedupRun.RunTotals: for runs that never close their range; what is reported after a range closes is stated for colliding records (`DedupClash.OneCrc`, `DedupClash.ZeroCrc`, `DedupHang.HangsForever`), not for all records. Success counters, skipped bytes and the cycle file are not modelled, and the order of records is the same in every pass.
- DedupTight.OnePassIff: records that share a block need less memory than it says; for them only `DedupFits.RoomyPass` is stated.
- DedupTruth.RatioIsRight: equal data is taken to have equal lengths in one zone, and different data of a CRC different hashes.
- DedupTool.Dedup.Command: given up after a number of passes, because some runs have no end.
- Histogram.Generate: the ioctl scan is a list of transaction ids with lengths; the empty range is not modelled.
- MirrorFraming.Session: records have a type and size the format has and their data inside; read errors and the warning about data CRCs are not modelled.
- Softprune.Softprune.Finalize: the scan for snapshots and the prune ioctl are not modelled.
- BtreeShow.Shower.PrintNode: node CRCs, counts, mirror tids, child-parent links and the printed text are not modelled.
- RecoverPath.Recover: the dictionary hash table, the names found in directory entries and the renames are not modelled.
- Other commands (PFS, snapshot, reblock, rebalance, version, volume, growfs, cleanup, service daemon), `mkfs`, printing, option parsing and UUID helpers are kernel calls, process plumbing or easy members.
