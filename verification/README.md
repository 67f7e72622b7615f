# EpochIO, verified

A Dafny model of the parts of EpochIO, an erasure-coded object store, where a mistake loses data:
what a PUT promises, what garbage collection may take, how partitions are routed and split, how a
shard is compacted under crashes, and how listings, repairs, deletes and write streams behave over
whole runs. `dafny verify dfyconfig.toml` checks everything.

| module | part of the system |
|---|---|
| `Bytes` | byte strings, their order, `Option` and `Result` |
| `Layout`, `Frame`, `Erasure` | striping arithmetic, bitrot frames, the erasure coder |
| `Pipeline`, `RoundTrip` | encoding and decoding a blob, and their round trip under damage |
| `Objects`, `Ranges` | quorum PUT, GET with healing, durability, ranged GET |
| `Writer`, `Collector`, `Watermarks`, `Exports` | writer sessions and tokens; GC against any number of live gateways; what a watermark means over a history; the keep-set partition by partition |
| `Scans` | paged scans and the GC reference export |
| `Routes`, `RouteCache` | the partition table of the placement driver; the client's cache of it |
| `Compaction`, `StoreEngine` | one shard's extents: writes, deletes, compaction, reclamation, crashes; the engine's methods on them |
| `Listing`, `ListPages`, `Utf8`, `ListText` | S3 LIST folding; its pages; text; listings whose tokens pass through text |
| `ShardRepair` | repair tickets and the two rebind paths |
| `DeleteEvents`, `DeleteHistory`, `DeleteQueue` | one deletion event; every history of the delete queue; the sweep as a run of it |
| `Streams` | write-stream reassembly |

## What is assumed

- The Reed-Solomon backend is a pair of functions of the coder. `Erasure.Mds` says that any `data`
  shards of a codeword determine the rest; replica mode is proved to be such a code.
- `RoundTrip.AlterationsFail` is the bitrot hypothesis, on the hash alone: where stored bytes are the
  digest of some data followed by that data, they are the bytes written there. Frames carry no
  position, so a valid frame moved to another place verifies as well; the hypothesis is what rules
  that out, not the code.
- The hash, CRC32C, JSON codecs, clocks, the network and the raft log are parameters: outcomes of
  calls, timestamps and decoders are arguments, and every lemma holds for all of them.
- Time never runs backwards in `DeleteHistory`.
- Counters are unbounded except where the width matters and is written out: blob sequence numbers,
  writer tokens, partition ids and inode tags, slot epochs, heal indices, frame counts.

## Where the code falls short

Where the code and its documentation disagree the model follows the code. Each item has a
counterexample and the exact condition under which the promised property does hold.

- Heal reports narrow the shard index to a byte: right if and only if the code has at most 256
  shards (`Objects.HealReportsNameShards`).
- GC takes a token missing from the live table for a dead one past its grace. A token registered
  after the table was read is missing as well, and so is one retired after a lapsed heartbeat whose
  PUT is still under way: there is no further grace. A token may be ignored if and only if nothing
  can come from it any more when the table is read (`Collector.SafeToIgnoreIffOver`,
  `Collector.FreshTokenLosesLiveData`, `Collector.RetiredTokenLosesLiveData`).
- The watermark is documented as the last number handed out when nothing is in flight. The cursor
  cannot pass the last number of a token, so once that is handed out the watermark stays one short;
  it is exact if and only if it is not handed out or something is in flight
  (`Watermarks.WatermarkIsExact`, `Watermarks.LastNumberLags`).
- A comment has a split parent stop exporting the moved half. The export scans the range its node
  registered, which no split narrows, and that is what covers keys that move during a round. A node
  that registers between the announcement of a split and its execution has a range too small
  (`Exports.KeptIffSeen`, `Exports.EarlyNodeIsRanged`, `Exports.LateNodesCanLoseLiveData`).
- The route index compares no namespace after the range search, so a hierarchical lookup can return
  a flat partition (`Routes.RouteIsOwner`, `Routes.LookupCanStray`).
- Overlap is tested before a creation is ordered, never when it applies, and empty intervals are
  admitted (`Routes.CreateKeepsValid`, `Routes.RacingCreates`). A split at the least coordinate of a
  partition with an unbounded start is admitted too (`Routes.SplitKeepsValid`), and migrating a
  voter to itself drops it (`Routes.MigrateSwaps`). The namespace-bit test lets partitions of both
  namespaces cross the bit (`Routes.FlatReachesHierIff`, `Routes.HierReachesFlatIff`,
  `Routes.NamespacesCanCross`).
- Inode tags separate split children from everything, but every created partition mints under tag 0
  (`Routes.InosCollideIffBothCreated`, `Routes.TwoRootsCollide`).
- The route cache documents that it evicts overlapping entries; it evicts only the same partition
  id. One task whose lookups do not stray never notices (`RouteCache.CacheStaysUnambiguous`); two
  tasks can (`RouteCache.RacingResolutions`), and so can a stray lookup
  (`RouteCache.FetchIsUnambiguousIffSafe`, `RouteCache.StrayCanShadow`). A reported leader that no
  longer hosts the partition is asked again on every attempt (`RouteCache.MetaClient.RouteOp`).
- Compaction documents that no crash loses a committed blob. The destination's metadata is written
  without a sync, and a restart binds the shard to an unindexed file
  (`Compaction.CrashIsSafeIff`, `Compaction.CrashInWindowLosesEverything`). The orphan sweep is
  documented as safe to run periodically; on the last leg of a copy it is not
  (`Compaction.SweepIsSafeIff`, `Compaction.LastLegLosesShard`). This is about the engine's public
  methods called concurrently: the one shipped caller sweeps and then compacts in a single task
  (crates/epoch-node/src/roles/maintenance.rs:115-165). Compaction candidates are not filtered by
  binding, and compacting an orphan makes the shard serve the orphan
  (`StoreEngine.CompactionKeepsReadsIff`, `StoreEngine.CompactingOrphanCanLoseBlob`). In that caller
  an orphan is a candidate only when the sweep just before failed to reclaim it.
- A LIST page cut inside a group repeats the group, a skipped bound that is itself a key is lost, and
  without a delimiter nothing filters by prefix (`Listing.CutRepeatsIff`,
  `Listing.SkipIsExactIffBoundIsFree`, `ListPages.ListIsExactIffClean`,
  `Listing.PlainListingUnderPrefixIff`). Tokens leave through a lossy conversion to text: under a
  delimiter that ends in 0x7F or 0xBF they come back elsewhere (`ListText.ResumesIffSafe`,
  `ListText.DelDelimiterLosesKey`). `fold` alone repeats an all-0xFF group where a plain walk is
  documented (`Listing.AllOnesGroupRepeats`, `Listing.AllOnesGroupCanRepeat`); the S3 front end
  cannot reach that, since prefix and delimiter come from text and no text holds the byte 0xFF
  (`Listing.TextGroupHasBound`).
- A repair ticket overtaken by a job is never cleared and blocks ticket repair of its slot for good
  (`ShardRepair.BlockedIffOvertaken`, `ShardRepair.StaleTicketBlocksForever`).
- A split restarts the child's delete-event counter at zero, so an entry queued before the split can
  be overwritten (`DeleteHistory.SplitCanReuseIff`, `DeleteHistory.RunLeaksNothingIff`,
  `DeleteHistory.SplitCanLeak`). The documented backoff starts at one second; the code starts at two
  (`DeleteEvents.BackoffDoublesToCap`).

## Model

| member | source | states |
|---|---|---|
| Layout.DivCeilIsLeastCover | crates/epoch-ec/src/layout.rs:35-38 | Stripe counts round up: `DivCeil` is the least number of pieces that covers the length. |
| Layout.UnitIsLeastAlignedCover | crates/epoch-ec/src/layout.rs:26-31 | A unit is the least 64-aligned length whose `dataShards` copies cover the stripe. |
| Layout.StripesTileBlob | crates/epoch-ec/src/layout.rs:35-52 | Full stripes and the last one tile every blob with nothing left over; an empty blob, and only that, has none and a last one of zero bytes. |
| Layout.StripeWindow | crates/epoch-ec/src/layout.rs:43-52 | Stripe `s` of a non-empty blob lies at `s * stripeSize`, inside the blob, and is never empty. |
| Layout.PhysicalLenFromOffset | crates/epoch-ec/src/layout.rs:72-96 | The physical shard length is the offset of the last frame plus its hash and unit. |
| Layout.FramesTileBody | crates/epoch-gateway/src/pipeline.rs:25-41 | The frame lengths sent for a shard sum, prefix by prefix, to the derived frame offsets and in all to the physical length. |
| Frame.VerifyInvertsFrame | crates/epoch-ec/src/frame.rs:35-53 | A frame verifies to `data` if and only if it is the frame of `data`. |
| Frame.UnframedInvertsFramed | crates/epoch-ec/src/frame.rs:35-83 | Parsing the framing of any body gives the body back. |
| Frame.FramedInvertsUnframed | crates/epoch-ec/src/frame.rs:59-83 | Whatever parses to a body is exactly that body's framing. |
| Frame.VerifyShardBody | crates/epoch-ec/src/frame.rs:59-83 | Succeeds with `n` if and only if the shard body is the framing of some `n` bytes at that unit; an empty body at any unit is zero bytes. Otherwise the error names the first frame that is not one, or the offset, after whole frames only, where none is left. |
| Erasure.CheckUniformLen | crates/epoch-ec/src/erasure.rs:150-170 | Succeeds with `n` if and only if there are shards and all have the non-zero, even length `n`; each refusal has its exact condition. |
| Erasure.EncodeSucceedsIff | crates/epoch-ec/src/erasure.rs:95-105 | Encoding goes through if and only if there are `data` shards of one non-zero, even length that the backend takes; a wrong number is told apart. |
| Erasure.Reconstruct | crates/epoch-ec/src/erasure.rs:111-147 | In place: on success the slots are the reconstruction of the old ones; on failure they are untouched. |
| Erasure.WholeDataNeedsNothing | crates/epoch-ec/src/erasure.rs:111-147 | With every data shard there the slots stay as they are and the backend is not asked. |
| Erasure.ReconstructRecovers | crates/epoch-ec/src/erasure.rs:111-147 | For surviving slots of a codeword: `TooFewShards` with the exact count below `data` survivors, otherwise every data shard is the original. |
| Erasure.ReplicationIsMds | crates/epoch-ec/src/erasure.rs:62-73 | The any-`data`-shards hypothesis is met by replica mode at every parity count. |
| Pipeline.SliceStripe | crates/epoch-gateway/src/pipeline.rs:53-90 | The slice taken for stripe `s` is that stripe of the blob. |
| Pipeline.CutStripe | crates/epoch-gateway/src/pipeline.rs:53-90 | A stripe is cut into `n` zero-padded units. |
| Pipeline.WriteFrames | crates/epoch-gateway/src/pipeline.rs:53-90 | Each shard body grows by the frame of its own unit and no body is touched otherwise. |
| Pipeline.EncodeBlob | crates/epoch-gateway/src/pipeline.rs:53-90 | The loop computes `Encoded`: per stripe, unit cut, parity, frames, or the first backend error. |
| Pipeline.CleanUnitIsFrame | crates/epoch-gateway/src/pipeline.rs:169-176 | For every hash, frame and data: a frame yields `data` if and only if it is there and is the digest of `data` followed by `data`. |
| Pipeline.SurvivesIffIntact | crates/epoch-gateway/src/pipeline.rs:164-177 | A shard contributes its unit of a stripe if and only if its bytes there begin with the digest of the rest. |
| Pipeline.ReadStripe | crates/epoch-gateway/src/pipeline.rs:122-202 | Keeps exactly the units whose digest matches and flags every other shard. |
| Pipeline.BadIsDamaged | crates/epoch-gateway/src/pipeline.rs:122-202 | A shard is flagged if and only if one of its stripes is missing or its bytes there are the frame of no data at all. |
| Pipeline.ListHealed | crates/epoch-gateway/src/pipeline.rs:122-202 | Lists exactly the flagged shards in ascending order. |
| Pipeline.DecodeBlob | crates/epoch-gateway/src/pipeline.rs:122-202 | Returns the decoded bytes or the first error; `healed` is exactly the shards with a stripe that is missing or the frame of no data. The wrong number of shards is an error, and bytes returned have the length asked for. |
| RoundTrip.UnitsHoldStripe | crates/epoch-gateway/src/pipeline.rs:53-90 | Concatenating the units of a stripe gives the stripe followed only by padding. |
| RoundTrip.FrameInPlace | crates/epoch-gateway/src/pipeline.rs:122-202 | Every frame that encoding wrote lies at the offset and length where decoding looks for it. |
| RoundTrip.EncodedBodiesAreUniform | crates/epoch-gateway/src/pipeline.rs:53-90 | Encoding never fails for a valid coder, and all `total` bodies have the physical length. |
| RoundTrip.StripeDecodes | crates/epoch-gateway/src/pipeline.rs:122-202 | A stripe with `data` clean frames decodes to itself. |
| RoundTrip.RecoverableDecodes | crates/epoch-gateway/src/pipeline.rs:122-202 | If every stripe keeps `data` clean frames the blob decodes to itself. |
| RoundTrip.LossIsReported | crates/epoch-gateway/src/pipeline.rs:122-202 | If some stripe does not, decoding fails with `TooFewShards`. |
| RoundTrip.DecodeInvertsEncode | crates/epoch-gateway/src/pipeline.rs:53-202 | Round trip under faults, both directions, with one hypothesis on the hash alone: stored bytes that begin with the digest of the rest are the bytes written. Then the original comes back exactly when every stripe keeps `data` such frames, otherwise `TooFewShards` and never wrong bytes. |
| Objects.NewCodeMode | crates/epoch-gateway/src/code.rs:39-59 | Succeeds exactly for valid shard counts and sizes. |
| Objects.AwaitQuorum | crates/epoch-gateway/src/put.rs:135-193 | Stopping at quorum never changes the verdict, and every counted shard really committed. |
| Objects.CommittedIffJoined | crates/epoch-gateway/src/put.rs:135-193 | A shard counts as committed if and only if its task finished well. |
| Objects.QuorumLeavesSlack | crates/epoch-gateway/src/code.rs:82-85 | In numbers: a write goes through with `failed` shards if and only if `failed <= 1` or `2 * failed <= parity`, and `lost` of the counted shards leave `data` if and only if `lost < parity` and `2 * lost <= parity + 1`. |
| Objects.CutsConcatenate | crates/epoch-gateway/src/put.rs:74-119 | The blobs an object is cut into concatenate to the object. |
| Objects.BlobIsWrittenIff | crates/epoch-gateway/src/put.rs:135-193 | A blob is written if and only if at most one shard failed or at most half the parity did; otherwise the error names the quorum and the exact number of commits. |
| Objects.PutObject | crates/epoch-gateway/src/put.rs:74-119 | Fails on a wrong placement, or with the error of the first blob whose encoding failed or whose commits, exactly counted, miss the quorum; otherwise the layout describes the cuts, their ids and lengths. |
| Objects.GetObject | crates/epoch-gateway/src/get.rs:51-96 | Returns the concatenated decodings or the first error, and reports a heal for exactly the damaged shards. |
| Objects.HealReportsNameShards | crates/epoch-gateway/src/get.rs:51-96 | Heal reports name the damaged shards if and only if the code has at most 256 shards: the index is narrowed to a byte. |
| Objects.FetchedIsHonest | crates/epoch-gateway/src/get.rs:51-96 | However much is lost: reading gives the blobs themselves if every one can be recovered, and `TooFewShards` if one cannot, never other bytes. |
| Objects.ErasuresAreTolerated | crates/epoch-gateway/src/pipeline.rs:122-202 | With shards missing but none altered, and no hypothesis on the hash: the blob comes back exactly when `data` shards are there (or it is empty), otherwise `TooFewShards`. |
| Objects.AckedBlobIsDurable | crates/epoch-gateway/src/code.rs:82-85 | An acknowledged blob survives every loss of fewer than `parity` and at most half of `parity + 1` shards. |
| Objects.OneLossTooMany | crates/epoch-gateway/src/code.rs:82-85 | The bound is exact: of a blob that a bare quorum holds, any greater loss leaves `TooFewShards`. |
| Objects.AckedPutIsDurable | crates/epoch-gateway/src/put.rs:74-119 | End to end: after an acknowledged PUT, and on every blob the loss of fewer than `parity` and at most half of `parity + 1` shards, a GET returns the exact object. |
| Objects.PutThenGet | crates/epoch-gateway/src/put.rs:74-119 | A PUT that reports success, then such a loss on every blob, then a GET: the very bytes written. |
| Ranges.Resolve | crates/epoch-gateway/src/range.rs:64-95 | The window is exactly the bytes that section 14.1.2 of RFC 9110 asks for; refused if and only if it asks for none. |
| Ranges.Plan | crates/epoch-gateway/src/range.rs:114-143 | A plan exists if and only if the layout reaches the window's end; it picks exactly the covering blobs, skip and length. |
| Ranges.PlannedWindowIsSlice | crates/epoch-gateway/src/range.rs:114-143 | Trimming the planned blobs gives exactly the window of the whole object. |
| Ranges.RangedGetIsSlice | crates/epoch-gateway/src/object.rs:270-363 | However much is lost: a ranged read is exactly that slice if the covering blobs can be recovered, and `TooFewShards` if one cannot. |
| Ranges.Fetch | crates/epoch-gateway/src/object.rs:270-363 | A GET, whole or ranged, of an object inline or in blobs, with no bound on the losses: success is exactly what is owed; it is owed and given if every blob holding a byte asked for keeps `data` frames of each stripe, and `TooFewShards` if one does not. Losses within the slack of an acknowledged object never matter. |
| Ranges.OwedIsWhatWasAsked | crates/epoch-gateway/src/range.rs:64-95 | What is owed is the bytes asked for in order; it is refused only when a range asks for none. |
| Ranges.ReadWhole | crates/epoch-gateway/src/object.rs:320-363 | The whole object if every blob can be recovered, otherwise `TooFewShards`. |
| Ranges.ReadWindow | crates/epoch-gateway/src/object.rs:320-363 | Exactly the window if every blob that holds a byte of it can be recovered, otherwise `TooFewShards`. |
| Ranges.WindowNeedsCovering | crates/epoch-gateway/src/range.rs:114-143 | The planned blobs are exactly those that hold a byte asked for. |
| Ranges.ReadPlanned | crates/epoch-gateway/src/object.rs:323-354 | Reads the planned blobs under the length check on the bytes they span, then trims. |
| Writer.RawRoundTrips | crates/epoch-proto/src/id.rs:171-190 | Packing token and sequence number into a blob id loses neither. |
| Writer.LeastExists | crates/epoch-client/src/writer_token.rs:149-159 | The in-flight minimum exists for every non-empty set. |
| Writer.WriterSession.constructor | crates/epoch-client/src/writer_token.rs:96-115 | A session starts fresh on its registered token. |
| Writer.WriterSession.ResolveBlob | crates/epoch-client/src/writer_token.rs:135-140 | Resolving removes exactly that id, whichever is oldest, and only under the current token. |
| Writer.WriterSession.CommitWatermark | crates/epoch-client/src/writer_token.rs:149-159 | The loop returns one below the least id in flight, or the last minted. |
| Writer.WriterSession.TryMint | crates/epoch-client/src/writer_token.rs:168-204 | Mints the next sequence number under the current token, or nothing once it is spent. |
| Writer.WriterSession.InstallIfSpent | crates/epoch-client/src/writer_token.rs:168-204 | A new token is installed only over a spent one. |
| Writer.WriterSession.NextBlobId | crates/epoch-client/src/writer_token.rs:168-204 | Refuses when the heartbeat is stale, mints, or rotates exactly once on exhaustion. |
| Writer.WriterSession.ForceRotate | crates/epoch-client/src/writer_token.rs:216-231 | The token is fenced before registration, and a failed registration leaves it fenced. |
| Collector.StepKeepsInvariant | crates/epoch-client/src/writer_token.rs:135-231 | Every step of any gateway keeps the token, session and settled-watermark invariants. |
| Collector.MintedIdsAreUnique | crates/epoch-client/src/writer_token.rs:168-204 | In any run of any number of gateways no blob id is minted twice and none from a fenced token. |
| Collector.WatermarkIsStable | crates/epoch-client/src/writer_token.rs:149-159 | A reported watermark stays true for ever: everything at or below it was minted and its PUT is over. |
| Collector.WatermarkIsMonotone | crates/epoch-client/src/writer_token.rs:149-159 | Between any two moments of a run at which a gateway holds one token, its watermark has not fallen. |
| Watermarks.InFlightIsUnresolved | crates/epoch-client/src/writer_token.rs:135-140 | Over every run: a session's in-flight set is exactly the numbers its gateway handed out under its token with no resolve step since, in whatever order the PUTs finished. |
| Watermarks.MintedByHolder | crates/epoch-client/src/writer_token.rs:168-204 | Whatever was handed out under a token was handed out by the gateway that holds it. |
| Watermarks.WatermarkIsExact | crates/epoch-client/src/writer_token.rs:149-159 | Over every run: everything at or below `W` was handed out and then resolved, and `W + 1` is unresolved or not handed out if and only if the token's last number is not out with nothing in flight. |
| Watermarks.LastNumberLags | crates/epoch-client/src/writer_token.rs:149-159 | A run in which all 2^32 numbers of a token are handed out and resolved and `W` stops one short. |
| Watermarks.SettledGarbageIsTaken | crates/epoch-worker/src/gc/mod.rs:47-59 | Once a gateway has resolved every number up to `n`, a round that sees its watermark reclaims blob `n` as soon as nothing refers to it. |
| Watermarks.DereferencedIsTaken | crates/epoch-worker/src/gc/mod.rs:47-59 | Such a blob, once dereferenced, can be taken at every later time: nothing refers to it again. |
| Watermarks.SpentIff | crates/epoch-client/src/writer_token.rs:168-231 | Over every run a session is spent if and only if its token was fenced or its last number handed out. |
| Watermarks.StepsAreSessionCalls | crates/epoch-client/src/writer_token.rs:135-231 | What each step of the machine does to a session is what the session's own method does. |
| Watermarks.TokenIsKeptUntilSpent | crates/epoch-client/src/writer_token.rs:196-203 | A gateway leaves its token only by a forced rotation, or once it is fenced or its last number is out. |
| Collector.GcSparesLiveWriters | crates/epoch-worker/src/gc/mod.rs:38-59 | With the live table read before the keep-set, no orphan of a listed token is ever referenced afterwards. |
| Collector.SafeToIgnoreIffOver | crates/epoch-worker/src/gc/mod.rs:47-59 | For any state in which the table is read and any token: no later round can lose live data by ignoring that token if and only if, in that state, the counter is past it, no task holds it uninstalled, no session mints from it and none of its PUTs is under way. |
| Collector.FencedAndDrainedIsOver | crates/epoch-pd/src/journal/client.rs:989-1002 | A fenced token with no PUT under way when the table is read is safe at every later time. |
| Watermarks.DrainedIsOver | crates/epoch-pd/src/journal/client.rs:989-1002 | A fenced token is over once the PUTs it has open are given up. |
| Collector.RoundTakesNothingLive | crates/epoch-node/src/roles/gc.rs:73-142 | A round with its keep-set read at one moment, table first: no orphan of a token that is listed or over is referenced at any later time. `Exports` has the round partition by partition. |
| Collector.NextTokenIsNeverSafe | crates/epoch-pd/src/writer/manager.rs:94-114 | The token the counter hands out next is in no table and never safe to ignore, so no table is enough by itself. |
| Collector.FreshTokenLosesLiveData | crates/epoch-node/src/roles/gc.rs:73-142 | A run in which a token registered after the table was read loses a blob that the next step references. |
| Collector.RetiredTokenLosesLiveData | crates/epoch-pd/src/writer/liveness.rs:31-44 | A run in which a token retired after a lapsed heartbeat, with a PUT still under way, loses a blob that the next step references. |
| Exports.HistoryKeepsInv | crates/epoch-meta/src/raft/state_machine.rs:415-467 | Over every interleaving of writer steps, metadata commits, partition creations, announced splits, registrations and executed splits: references have keys, keys have listed owners, and what a partition holds stays in its past. |
| Exports.EventsPlaceKeys | crates/epoch-pd/src/meta_sched/driver.rs:248-292 | A commit lands under its key, a creation and a split hand exactly their keys to their partition, an announcement moves keys in the placement driver alone, and a registration copies the range of the moment. |
| Exports.KeptIffSeen | crates/epoch-node/src/roles/gc.rs:86-113 | A reference that stands throughout the round is sure to be in the union of the exports if and only if some export's registered range has its key and its partition has held it. |
| Exports.RangedIsSeen | crates/epoch-node/src/roles/gc.rs:86-113 | Exported from a node whose range still has the key, the partition that held it at the listing takes it in, whatever was split off meanwhile. |
| Exports.RangeIsOfRegistration | crates/epoch-meta/src/service.rs:265-301 | A node's range is the placement driver's at its latest registration; no split changes it. |
| Exports.LeavesByAnnouncement | crates/epoch-pd/src/meta_sched/driver.rs:248-292 | A key leaves the placement driver's range of a partition only by an announced split. |
| Exports.EarlyNodeIsRanged | crates/epoch-node/src/roles/gc.rs:86-113 | Registered before a split of the key was announced, the owner's node covers the key at every later export. |
| Exports.RoundLosesOnlyUnseen | crates/epoch-node/src/roles/gc.rs:86-113 | Table, list, then each export from its own node at its own moment: an orphan of a listed or finished token can be live only if no export took its key in. |
| Exports.RangedRoundIsSafe | crates/epoch-node/src/roles/gc.rs:86-113 | When every key is exported from a node whose range has it, every orphan of a listed or finished token is dead for good. |
| Exports.LateNodesCanLoseLiveData | crates/epoch-node/src/roles/gc.rs:86-113 | Nodes that register between the announcement of a split and its execution: a blob live all along is sure to be in neither export. |
| Scans.InRangeHolds | crates/epoch-meta/src/store/mod.rs:134-147 | A scan returns exactly the rows of its half-open range. |
| Scans.NextPageResumes | crates/epoch-meta/src/gc_export.rs:43-92 | Stepping the cursor to the last key and a zero byte resumes with exactly the rows not yet seen. |
| Scans.ExportRange | crates/epoch-meta/src/gc_export.rs:43-92 | Page by page every row of the range is visited exactly once, and the loop ends. |
| Scans.ExportReferences | crates/epoch-meta/src/gc_export.rs:43-92 | The exported keep-set is exactly the ids named by rows of the ranges outside the delete queue and expiry families. |
| Routes.OverlapIsSharing | crates/epoch-pd/src/service.rs:1168-1189 | On non-empty intervals the endpoint test holds if and only if some coordinate lies in both. |
| Routes.FindOverlap | crates/epoch-pd/src/service.rs:1168-1189 | Finds a conflicting partition if and only if there is one. |
| Routes.Floor | crates/epoch-pd/src/meta_mgr.rs:463-473 | The greatest start key at or below the query, or none. |
| Routes.RouteIsOwner | crates/epoch-pd/src/meta_mgr.rs:463-473 | On a valid table the index lookup equals the linear search if and only if it does not stray into the other namespace. |
| Routes.LookupCanStray | crates/epoch-pd/src/meta_mgr.rs:463-473 | A lookup in a hierarchical bucket answered with an admitted flat partition. |
| Routes.CreateKeepsValid | crates/epoch-pd/src/meta_mgr.rs:302-341 | Creation keeps the table a partition of the key space if and only if the interval is non-empty and the overlap test is clear when the command applies. |
| Routes.CreateOnce | crates/epoch-pd/src/meta_mgr.rs:302-341 | A retried creation changes nothing. |
| Routes.CreateHandsOutRange | crates/epoch-pd/src/meta_mgr.rs:302-341 | A creation gives the next id exactly the interval asked for, under the voters asked for at epoch 1, and moves no other coordinate. |
| Routes.RacingCreates | crates/epoch-pd/src/service.rs:672-722 | Two creations that each passed the pre-check leave a coordinate with two owners. |
| Routes.SplitHappensIff | crates/epoch-pd/src/meta_mgr.rs:352-417 | A split happens if and only if the boundary is a coordinate of the parent other than its start and neither counter is spent; running out of tags still costs an id. |
| Routes.SplitMovesUpperHalf | crates/epoch-pd/src/meta_mgr.rs:352-417 | A split gives the child exactly the parent's coordinates from the boundary up and moves nothing else. |
| Routes.SplitInherits | crates/epoch-pd/src/meta_mgr.rs:352-417 | The child starts at the boundary with the parent's voters at epoch 1, the parent moves one epoch on, and both counters move. |
| Routes.SplitKeepsValid | crates/epoch-pd/src/meta_mgr.rs:352-417 | A split keeps the table valid if and only if the boundary is above the parent's lowest coordinate. |
| Routes.SplitCanEmptyParent | crates/epoch-pd/src/meta_mgr.rs:352-417 | A split at the least coordinate leaves a parent with an unbounded start empty. |
| Routes.MigrateSwaps | crates/epoch-pd/src/meta_mgr.rs:428-458 | The voters become the old ones with `from` replaced by `to`, except exactly when a present voter is swapped for itself. |
| Routes.MigrateHappensIff | crates/epoch-pd/src/meta_mgr.rs:428-458 | A migration is refused if and only if the partition is unknown, the swap is done already, or no voter would be left; otherwise every other voter stays, `from` goes and a new `to` joins once. |
| Routes.MigrateCanDropVoter | crates/epoch-pd/src/meta_mgr.rs:428-458 | Migrating voter 4 to itself drops it. |
| Routes.MigrateOnce | crates/epoch-pd/src/meta_mgr.rs:428-458 | Replaying a migration changes nothing. |
| Routes.MigrateKeepsOwners | crates/epoch-pd/src/meta_mgr.rs:428-458 | A migration moves no coordinate and keeps the table valid. |
| Routes.IndexIsUnique | crates/epoch-pd/src/meta_mgr.rs:186-197 | A table has at most one exact start index. |
| Routes.Rebuild | crates/epoch-pd/src/meta_mgr.rs:252-291 | From the records alone, in any order, the id map and start index of a valid table are rebuilt exactly. |
| Routes.MetaPartitionManager.constructor | crates/epoch-pd/src/meta_mgr.rs:186-197 | An empty table, ids and tags counting from one. |
| Routes.MetaPartitionManager.FindSameRange | crates/epoch-pd/src/meta_mgr.rs:302-341 | Finds an existing partition of exactly this range if and only if there is one. |
| Routes.MetaPartitionManager.ApplyCreate | crates/epoch-pd/src/meta_mgr.rs:302-341 | An exact retry returns the partition that exists; otherwise the table, index, counter and record advance together. |
| Routes.MetaPartitionManager.ApplySplit | crates/epoch-pd/src/meta_mgr.rs:352-417 | Outcome and new table as specified, durable state in step; a refusal writes nothing. |
| Routes.MetaPartitionManager.ApplyMigrate | crates/epoch-pd/src/meta_mgr.rs:428-458 | New voters or a refusal, table and record in step. |
| Routes.MetaPartitionManager.Route | crates/epoch-pd/src/meta_mgr.rs:463-473 | On a valid table, the owner of the coordinate if and only if the lookup does not stray; any answer contains the coordinate. |
| Routes.MetaPartitionManager.Restore | crates/epoch-pd/src/meta_mgr.rs:252-291 | Whatever is in memory, a restart rebuilds exactly the valid table whose records and counters the disk holds. |
| Routes.MetaPartitionManager.SnapshotView | crates/epoch-pd/src/meta_mgr.rs:528-535 | The snapshot is every partition and both counters. |
| Routes.MetaPartitionManager.InstallSnapshot | crates/epoch-pd/src/meta_mgr.rs:544-579 | Installing a valid table's snapshot yields that very table, index included. |
| Routes.RunAdvances | crates/epoch-pd/src/meta_mgr.rs:302-458 | Over any run partitions never vanish, ids are never reused, epochs never fall, and an unchanged epoch means an unchanged record. |
| Routes.CoverageIsForever | crates/epoch-pd/src/meta_mgr.rs:302-458 | A coordinate that has an owner keeps one over any run. |
| Routes.GuardedRunRoutesToOwner | crates/epoch-pd/src/meta_mgr.rs:302-473 | Over every run of guarded creations, splits and migrations no coordinate has two owners, the index is exact, and a lookup answers with the owner except exactly where it strays. |
| Routes.BoundsAllowedIff | crates/epoch-pd/src/service.rs:1145-1163 | Admitted are exactly a flat end no later than some key of the first hierarchical bucket, a hierarchical start no earlier than that bucket, and unbounded ones. |
| Routes.FlatReachesHierIff | crates/epoch-pd/src/service.rs:1145-1163 | An admitted flat partition, wherever it starts, reaches a hierarchical bucket if and only if its end is unbounded or lies beyond both its start and the least hierarchical coordinate. |
| Routes.HierReachesFlatIff | crates/epoch-pd/src/service.rs:1145-1163 | An admitted hierarchical partition reaches a flat bucket if and only if its start is unbounded and it is not empty. |
| Routes.NamespacesCanCross | crates/epoch-pd/src/service.rs:1145-1163 | Three admitted partitions: a flat one ending inside, and one lying wholly in, the hierarchical half, and a hierarchical one holding bucket 3. |
| Routes.ComposeInoInverts | crates/epoch-proto/src/consts.rs:53-66 | Tag and counter can be read back from an inode number. |
| Routes.RunKeepsTags | crates/epoch-pd/src/meta_mgr.rs:352-417 | Over any run split tags stay unique, non-zero and within sixteen bits. |
| Routes.InosCollideIffBothCreated | crates/epoch-meta/src/raft/state_machine.rs:381-385 | Two partitions can mint one inode if and only if both were created rather than split off. |
| Routes.TwoRootsCollide | crates/epoch-meta/src/raft/state_machine.rs:381-385 | Two admitted partitions created without overlap that meet inside one bucket mint one inode for it. |
| RouteCache.CachingKeepsOneRoute | crates/epoch-client/src/meta.rs:104-108 | Caching keeps one route per coordinate if and only if no entry of another partition overlaps the new view. |
| RouteCache.StepKeepsAncestral | crates/epoch-client/src/meta.rs:65-74 | Under every table change an old view stays fully owned and contains whatever partition reaches into it. |
| RouteCache.FetchedIsApart | crates/epoch-client/src/meta.rs:130-150 | A lookup that finds the owner of a missed coordinate overlaps no cached old view. |
| RouteCache.FetchIsUnambiguousIffSafe | crates/epoch-client/src/meta.rs:130-150 | Caching whatever the lookup answers keeps one route per coordinate if and only if no entry of another partition covers the coordinate in the answer's own namespace. |
| RouteCache.OwnerIsSafe | crates/epoch-client/src/meta.rs:130-150 | A lookup that does not stray always meets that condition. |
| RouteCache.CacheStaysUnambiguous | crates/epoch-client/src/meta.rs:94-150 | Over any interleaving of table changes, fetches, stores, evictions and redirects of one task whose fetches meet that condition: no coordinate is covered twice, and an entry with the current epoch owns what it covers. |
| RouteCache.EventsAreClientCalls | crates/epoch-client/src/meta.rs:94-150 | Each event of the machine is a call of the client: storing replaces the partition's entries, evicting drops them, a new leader is written into them, and nothing else changes. |
| RouteCache.RacingResolutions | crates/epoch-client/src/meta.rs:130-150 | Two tasks and one split leave two entries covering one coordinate. |
| RouteCache.StrayCanShadow | crates/epoch-client/src/meta.rs:104-108 | A stray lookup caches a flat child beside its stale parent. |
| RouteCache.MetaClient.Cached | crates/epoch-client/src/meta.rs:94-99 | A covering entry, or none if and only if there is none. |
| RouteCache.MetaClient.CacheRoute | crates/epoch-client/src/meta.rs:104-108 | Drops the entries of the same partition and appends the view. |
| RouteCache.MetaClient.EvictRoute | crates/epoch-client/src/meta.rs:111-114 | Drops exactly the entries of that partition. |
| RouteCache.MetaClient.RedirectTo | crates/epoch-client/src/meta.rs:117-126 | Changes the leader of exactly that partition's entries; an empty address changes nothing. |
| RouteCache.MetaClient.Resolve | crates/epoch-client/src/meta.rs:130-150 | A covering cached route, else whatever the lookup answers, cached with the reported leader; entries stay old views of the table, and one route per coordinate survives if and only if the answer is safe. |
| RouteCache.MetaClient.RouteOp | crates/epoch-client/src/meta.rs:198-249 | While the table holds still: whatever serves contains the coordinate, and owns it where the namespaces are separate; there, when no follower's hint leads to another follower, four attempts reach the owner if and only if the reported leader or the cached route's address serves it or knows who does. |
| Compaction.WriteKeeps | crates/epoch-store/src/write.rs:64-96 | A write adds exactly its blob to what reads return, and a known id changes nothing. |
| Compaction.DeleteKeeps | crates/epoch-store/src/index.rs:399-420 | A delete at any point of a compaction removes exactly its blob. |
| Compaction.SwapKeeps | crates/epoch-store/src/index.rs:452-487 | At the rebind the copy minus the carried tombstones is exactly what reads returned before. |
| Compaction.RetireKeeps | crates/epoch-store/src/compact.rs:169-183 | Trashing and removing an unbound extent changes no read, in either order of a crash. |
| Compaction.RebuiltReads | crates/epoch-store/src/service.rs:880-929 | Entries rebuilt from a record stream read back exactly what the stream says. |
| Compaction.CrashIsSafeIff | crates/epoch-store/src/service.rs:880-929 | A crash and restart lose and resurrect nothing if and only if no destination file lacks durable metadata, or its records are exactly the live blobs. |
| Compaction.RunServesLive | crates/epoch-store/src/compact.rs:85-163 | Over every interleaving of writes, deletes, compaction steps, sweeps at any phase and crashes that are safe where they happen, reads return exactly what the writes and deletes left. |
| Compaction.CrashInWindowLosesEverything | crates/epoch-store/src/compact.rs:111-126 | Dying right after the destination file is created leaves every blob of the shard unreadable. |
| Compaction.LastLegLosesShard | crates/epoch-store/src/scrub.rs:127-145 | The orphan rule matches a destination still being filled; taken with nothing left to append, every blob of the shard is gone. |
| Compaction.SweepKeeps | crates/epoch-store/src/scrub.rs:96-145 | A sweep at any phase keeps everything as long as it does not take that destination on its last leg. |
| Compaction.SweepIsSafeIff | crates/epoch-store/src/scrub.rs:96-145 | At any phase, a sweep leaves every read as it was if and only if it does not take the destination of a compaction with nothing left to append, or the shard is empty. |
| Compaction.SweptCopyGoesOn | crates/epoch-store/src/compact.rs:128-163 | When the destination is swept, a compaction with a blob left to append gives up and the shard stays on the source; with none left it swaps to an extent that is gone. |
| Compaction.DroppedStaysDropped | crates/epoch-store/src/compact.rs:142-163 | A swapped-away extent is dropped and stays so until it is removed: no write, compaction or restart takes it up again. |
| Compaction.ReclaimInSteps | crates/epoch-store/src/scrub.rs:96-145 | Reclaiming the file first and the index entries next ends exactly where one stroke would. |
| Compaction.ReclaimIsIdempotent | crates/epoch-store/src/compact.rs:169-183 | Reclaiming twice is reclaiming once, and reads of other extents never change. |
| Compaction.RunKeepsAllSound | crates/epoch-store/src/compact.rs:85-183 | Over the same runs every extent that has a file, bound or not, keeps only entries that point at records of their own blob. |
| StoreEngine.Engine.constructor | crates/epoch-store/src/index.rs:376-389 | A new shard is one bound, empty, durable extent. |
| StoreEngine.Engine.WriteBlob | crates/epoch-store/src/write.rs:38-96 | For any extent: refused without file or metadata or unless Writable or Rebuilding, idempotent on a known id, otherwise the extent gains exactly that blob, and the shard's reads do so exactly when it is bound there. |
| StoreEngine.WriteServes | crates/epoch-store/src/write.rs:38-96 | Writing to an extent adds the blob to what the extent holds, and to what the shard serves only when bound to it. |
| StoreEngine.Engine.DeleteBlob | crates/epoch-store/src/service.rs:779-792 | Reads lose exactly that blob. |
| StoreEngine.Engine.CopyOne | crates/epoch-store/src/compact.rs:129-139 | One append and commit; the destination gains one record. |
| StoreEngine.Engine.CopyLive | crates/epoch-store/src/compact.rs:128-140 | The loop leaves one record per snapshot blob in the destination. |
| StoreEngine.Engine.Prepare | crates/epoch-store/src/compact.rs:96-127 | Pauses the source, takes its live blobs and sets up an empty destination, with every read kept. |
| StoreEngine.Engine.CompactExtent | crates/epoch-store/src/compact.rs:85-163 | For any extent, bound or not: the shard is bound to the destination and serves what that extent held, one record per live blob, and the source is gone; each error leaves everything as it was. |
| StoreEngine.CompactionKeepsReadsIff | crates/epoch-store/src/service.rs:501-518 | Compacting an extent keeps every read if and only if it held what the bound extent held: always for the bound one. |
| StoreEngine.CompactingOrphanCanLoseBlob | crates/epoch-store/src/service.rs:501-518 | A sound shard with an orphan whose compaction would lose a blob. |
| StoreEngine.Engine.Retire | crates/epoch-store/src/compact.rs:142-163 | Swap, trash and removal serve exactly what was copied and leave the destination file alone. |
| StoreEngine.Engine.ReclaimUnbound | crates/epoch-store/src/scrub.rs:96-145 | With no compaction under way, the bound extent is all that is left, on disk and in the index, and every read stays. |
| StoreEngine.Engine.Reopen | crates/epoch-store/src/service.rs:138-173 | Reconciling every file with the index gives the specified restart state. |
| Compaction.ReopenCutsBack | crates/epoch-store/src/service.rs:880-929 | A restart drops what was appended and never committed, and nothing else. |
| Listing.FindIsFirst | crates/epoch-gateway/src/list.rs:162-169 | The first occurrence, or none if and only if there is none. |
| Listing.RowIsUpToFirstDelimiter | crates/epoch-gateway/src/list.rs:79-139 | A key shows as everything up to and including the first delimiter after the prefix, or as itself if and only if none follows. |
| Listing.GroupIsShared | crates/epoch-gateway/src/list.rs:79-139 | Every key under a group folds into that group. |
| Listing.RowsFollowKeys | crates/epoch-gateway/src/list.rs:79-139 | Keys in order give rows in order: the same row, or a strictly greater name. |
| Listing.RowsAreDistinctAndOrdered | crates/epoch-gateway/src/list.rs:79-139 | The rows of any key sequence are exactly the distinct rows of its listed keys, strictly ascending. |
| Listing.ResumeContinues | crates/epoch-gateway/src/list.rs:79-139 | Resuming after a cut continues with the next row if and only if the cut is not inside a row, and otherwise repeats that row. |
| Listing.UpperBound | crates/epoch-gateway/src/list.rs:150-159 | The popping loop computes the carried bound, or the group itself. |
| Listing.BoundIsTight | crates/epoch-meta/src/store/keys.rs:163-174 | Below the bound lie exactly the keys inside or before the prefix; an all-0xFF prefix has none above it. |
| Listing.Fold | crates/epoch-gateway/src/list.rs:79-139 | The first `limit` rows in order; a cut fold resumes after the key that opened its last row, a complete one past its last group, and a limit of zero gives no resume point. |
| Listing.FoldGroups | crates/epoch-gateway/src/list.rs:90-139 | The same for a non-empty delimiter, where the remembered last group stands in for the last row. |
| Listing.PositionSplits | crates/epoch-meta/src/ns_flat/mod.rs:480-501 | A scan after a key starts at the first key strictly above it. |
| Listing.CutRepeatsIff | crates/epoch-gateway/src/list.rs:79-139 | A page cut short repeats its last row if and only if that row is a group with a second key. |
| Listing.CutCanRepeatGroup | crates/epoch-gateway/src/list.rs:79-139 | A page cut after the first key of `a/` shows `a/` again. |
| Listing.SkipIsExactIff | crates/epoch-gateway/src/list.rs:150-159 | Skipping a finished group resumes with the next row if and only if its bound is not a key, or is one whose row a later key shows again. |
| Listing.BoundIsPlainKey | crates/epoch-gateway/src/list.rs:150-159 | Under a delimiter whose last byte can be raised, the bound of every group is the group with that byte raised and, as a key, a plain row. |
| Listing.SkipIsExactIffBoundIsFree | crates/epoch-gateway/src/list.rs:150-159 | Then skipping a finished group resumes with the next row if and only if its bound is not a key. |
| Listing.SkipCanLoseKey | crates/epoch-gateway/src/list.rs:150-159 | Skipping `a/` loses the object `a0`. |
| Listing.AllOnesGroupRepeats | crates/epoch-gateway/src/list.rs:150-159 | At the level of `fold`: a group without a bound that has a key beyond its own name is folded again by the next scan. |
| Listing.AllOnesGroupCanRepeat | crates/epoch-gateway/src/list.rs:150-159 | Two keys under the delimiter 0xFF fold to the same row again. |
| Listing.TextGroupHasBound | crates/epoch-gateway/src/http.rs:574-602 | Under a delimiter without the byte 0xFF, as any S3 request carries, every group has a bound. |
| Listing.PlainListingUnderPrefixIff | crates/epoch-gateway/src/list.rs:80-89 | Without a delimiter the rows stay under the prefix if and only if no reachable key lies between the start and the prefix. |
| Listing.PlainListingCanLeavePrefix | crates/epoch-gateway/src/list.rs:80-89 | Listing prefix `b` after `0` shows the object `a`. |
| ListPages.BatchAdvances | crates/epoch-gateway/src/http.rs:127-187 | Continuing after a fully folded batch loses and repeats nothing when groups are clean. |
| ListPages.ListBatch | crates/epoch-gateway/src/http.rs:127-187 | One scan and fold is the specified batch: the rows it adds, where it goes on, and whether it was the last. |
| ListPages.BatchConserves | crates/epoch-gateway/src/http.rs:127-187 | Over clean groups a batch keeps the page so far and the rows to come equal to the whole, or fills the page, and moves on. |
| ListPages.PartOfListing | crates/epoch-gateway/src/http.rs:127-187 | Whatever part of the keys a batch folds, its rows are rows of the whole. |
| ListPages.ListFlat | crates/epoch-gateway/src/http.rs:127-187 | The batch loop answers exactly `Answer`, within the limit and with rows of the listing only; over clean groups the first rows in order, complete when no token is returned, and a token always further on. |
| ListPages.CleanIsExact | crates/epoch-gateway/src/http.rs:127-187 | Over clean groups every LIST, from anywhere at any limit, is the first rows in order with a token that leaves off there. |
| ListPages.PageIsSound | crates/epoch-gateway/src/http.rs:127-187 | Whatever the groups, within the limit and only rows of the listing. |
| ListPages.PageIsFull | crates/epoch-gateway/src/http.rs:127-187 | A page with a token is full, or sixteen batches of `limit` keys went into it. |
| ListPages.TakenBoundIsLost | crates/epoch-gateway/src/list.rs:150-159 | A key that is the bound of a group is in the listing, but at some limit neither the page nor anything after its token shows it. |
| ListPages.ListIsExactIffClean | crates/epoch-gateway/src/http.rs:127-187 | Under a delimiter that can be raised, every LIST from anywhere at any limit is as promised if and only if no group's bound is itself a key. |
| ListPages.PagesMakeUpListing | crates/epoch-gateway/src/http.rs:127-187 | Dropping a repeated first row, a page and the rows still to come are the whole. |
| ListPages.WalkIsListing | crates/epoch-gateway/src/http.rs:127-187 | Every walk over successive pages, whatever their limits, gathers the whole listing, each row once and in order, in at most one page per key and one more. |
| Utf8.EncodingIsChar | crates/epoch-gateway/src/http.rs:640-650 | The bytes of every Unicode scalar value are one character, whatever follows. |
| Utf8.CharIsEncoding | crates/epoch-gateway/src/http.rs:640-650 | Every character is the bytes of a scalar value. |
| Utf8.TextIffEncoding | crates/epoch-gateway/src/http.rs:640-650 | Bytes are text if and only if they encode some sequence of scalar values. |
| Utf8.BadIsLongestStart | crates/epoch-gateway/src/http.rs:640-650 | What one replacement character stands for is the longest run that starts a character, or one byte when none does. |
| Utf8.LossyIsText | crates/epoch-gateway/src/http.rs:640-650 | The lossy conversion always gives text. |
| Utf8.SurvivesIffText | crates/epoch-gateway/src/http.rs:640-650 | Bytes survive it if and only if they are text. |
| Utf8.RaisedIsTextIff | crates/epoch-gateway/src/list.rs:150-159 | Raising the last byte of a text gives text if and only if that byte was neither 0x7F nor 0xBF. |
| Utf8.CutIsText | crates/epoch-gateway/src/list.rs:79-139 | A text found inside a text ends between characters, so a group of text is text. |
| ListText.TokenResumesIffText | crates/epoch-gateway/src/http.rs:574-602 | A token under a text prefix resumes every listing of text keys where it should if and only if it is itself text. |
| ListText.BoundIsTextIff | crates/epoch-gateway/src/list.rs:150-159 | Over text keys and delimiter, the bound of a group is text if and only if the delimiter ends in neither 0x7F nor 0xBF. |
| ListText.TokenIsText | crates/epoch-gateway/src/http.rs:127-187 | Under such a delimiter every token of every LIST of text keys is text. |
| ListText.TextWalkIsListing | crates/epoch-gateway/src/http.rs:567-651 | Then a walk whose tokens go through the conversion, with any limits, gathers the whole clean listing in a bounded number of pages. |
| ListText.ResumesIffSafe | crates/epoch-gateway/src/http.rs:640-650 | A text delimiter brings every token of every listing of text keys back to where it should if and only if its last byte is neither 0x7F nor 0xBF. |
| ListText.DelDelimiterLosesKey | crates/epoch-gateway/src/http.rs:640-650 | Two objects and the delimiter 0x7F: the token comes back past the second one. |
| ShardRepair.PrefixInverts | crates/epoch-pd/src/shard_repair.rs:118-120 | Chunk and index can be read back from a slot key, so no two slots share one. |
| ShardRepair.RebindKeepsApart | crates/epoch-pd/src/chunk/placement.rs:115-127 | The affinity gate refuses exactly the rebinds that would put two slots of a chunk on one node. |
| ShardRepair.RebindKeepsDiskIndex | crates/epoch-pd/src/chunk/manager.rs:381-438 | A rebind keeps the per-disk index listing every slot under its disk and nothing else. |
| ShardRepair.HistoryKeepsInv | crates/epoch-pd/src/state.rs:310-404 | In every history no ticket is ahead of its slot, a current ticket names the hosting node, slots stay on distinct nodes and the disk index is exact. |
| ShardRepair.InPlaceIsNeverBlocked | crates/epoch-pd/src/chunk/placement.rs:115-127 | A rebuild on the slot's own disk is never refused for affinity. |
| ShardRepair.EachEpochReboundOnce | crates/epoch-pd/src/chunk/manager.rs:381-438 | Over any run, by ticket or by job, each slot epoch is rebound at most once. |
| ShardRepair.RepairCommitsIff | crates/epoch-pd/src/state.rs:363-404 | A repair commit applies if and only if the ticket, its target, both epochs, the disk and affinity allow it; it consumes its ticket and the committer hosts the slot. |
| ShardRepair.MappingCommitsIff | crates/epoch-pd/src/state.rs:310-340 | A job's rebind applies if and only if it is authorized and epoch, disk and affinity allow it; each refusal has its exact condition and changes nothing, and tickets are never touched. |
| ShardRepair.ReportOpensRepair | crates/epoch-pd/src/state.rs:341-362 | A report opens a ticket if and only if the slot exists and has none; the hosting node's repair in place then goes through. |
| ShardRepair.GoesStaleIff | crates/epoch-pd/src/state.rs:310-340 | A ticket goes stale if and only if, in the state before, it is pending and an authorized job names the slot's epoch, below the maximum, and a known disk on a node of its own. |
| ShardRepair.TicketCanGoStale | crates/epoch-pd/src/state.rs:310-340 | A report followed by a job on the same slot leaves a stale ticket. |
| ShardRepair.StaleTicketBlocksForever | crates/epoch-pd/src/shard_repair.rs:225-253 | From then on, over any run, no repair of that slot commits and no report of it opens another ticket. |
| ShardRepair.BlockedIffOvertaken | crates/epoch-pd/src/state.rs:310-404 | Over any history a slot ends up blocked if and only if a job overtook its ticket at some point. |
| ShardRepair.PdState.constructor | crates/epoch-pd/src/shard_repair.rs:182-187 | No chunks, disks or tickets. |
| ShardRepair.PdState.ApplyReport | crates/epoch-pd/src/state.rs:341-362 | A ticket for the committed slot, its node and epoch, unless one is pending; record and index in step. |
| ShardRepair.PdState.ApplyRebind | crates/epoch-pd/src/chunk/manager.rs:381-438 | The epoch fence, then slot and disk index move together. |
| ShardRepair.PdState.FindCollision | crates/epoch-pd/src/chunk/placement.rs:115-127 | True if and only if another slot of the chunk is on that node. |
| ShardRepair.PdState.ApplyReassign | crates/epoch-pd/src/state.rs:421-460 | Affinity gate before rebind, each refusal leaving the state alone. |
| ShardRepair.PdState.ApplyCommitRepair | crates/epoch-pd/src/state.rs:363-404 | Ticket-authorized rebind; an applied one clears ticket and record. |
| ShardRepair.PdState.ApplyCommitMapping | crates/epoch-pd/src/state.rs:310-340 | Job-authorized rebind; the tickets are left alone. |
| ShardRepair.PdState.Restore | crates/epoch-pd/src/shard_repair.rs:207-217 | The ticket index is rebuilt exactly from its records. |
| DeleteEvents.GrownFlattens | crates/epoch-meta/src/deleter.rs:163-203 | Grouping by neighbouring prefix neither drops nor reorders entries. |
| DeleteEvents.TakeRow | crates/epoch-meta/src/deleter.rs:178-199 | A row is decoded, skipped when young or backing off, and otherwise appended to its event; malformed rows and short keys are errors. |
| DeleteEvents.TakePage | crates/epoch-meta/src/deleter.rs:178-199 | The events after a page hold exactly the chosen rows so far, in order; it fails if and only if some row does not decode or is due under a key too short. |
| DeleteEvents.Collect | crates/epoch-meta/src/deleter.rs:163-203 | The events hold exactly the chosen rows of a prefix of the range, which is all of it unless a page's worth of events was found; neighbours of one event are never apart. |
| DeleteEvents.TombstoneSlice | crates/epoch-meta/src/deleter.rs:240-268 | Acknowledges exactly the blobs of the slice before its first refusal. |
| DeleteEvents.TombstoneEvent | crates/epoch-meta/src/deleter.rs:240-268 | Goes on past a refused slice and acknowledges exactly what each slice let through; nothing failed if and only if nothing was refused. |
| DeleteEvents.AckedIff | crates/epoch-meta/src/deleter.rs:240-268 | Exactly the blobs with no refusal at or before their place in their own slice are acknowledged, whatever happened to other slices. |
| DeleteEvents.EventAcksAreIds | crates/epoch-meta/src/deleter.rs:240-268 | Only blobs of the event are tombstoned, and all of them when none is refused. |
| DeleteEvents.BackoffDoublesToCap | crates/epoch-meta/src/deleter.rs:282-288 | The wait after `n` failures is 2^n seconds up to eight and five minutes from then on. |
| DeleteQueue.Deleter.constructor | crates/epoch-meta/src/deleter.rs:118-126 | Starts with no backoff. |
| DeleteQueue.Deleter.RegisterBackoff | crates/epoch-meta/src/deleter.rs:282-288 | Only that event's backoff changes. |
| DeleteQueue.Deleter.ClearBackoff | crates/epoch-meta/src/deleter.rs:290-292 | Only that event's backoff is dropped. |
| DeleteQueue.ChosenIff | crates/epoch-meta/src/deleter.rs:178-199 | A sweep takes an entry if and only if it decodes, is past the delay, and its event is not backing off. |
| DeleteQueue.Deleter.SweepEvent | crates/epoch-meta/src/deleter.rs:205-234 | Entries are removed if and only if every reference succeeded and the proposal went through; a lost proposal ends the sweep, a refusal backs the event off by its own history. |
| DeleteQueue.Deleter.Sweep | crates/epoch-meta/src/deleter.rs:140-236 | Whatever is refused or lost, only fully acknowledged due entries are removed and only due blobs tombstoned; removed are exactly the events tombstoned in full up to the first lost proposal, out of every due event not backing off, in key order; and the sweep is a run of the history machine that ends in exactly these books. |
| DeleteQueue.EventIsRun | crates/epoch-meta/src/deleter.rs:205-234 | One turn of the sweep loop is these steps of the machine, between which other nodes may step. |
| DeleteQueue.CollectIsRun | crates/epoch-meta/src/deleter.rs:163-203 | Collecting is these steps of the machine. |
| DeleteHistory.QueueNeverLeaksOrActsEarly | crates/epoch-meta/src/deleter.rs:140-268 | Over every history of operations, splits and sweeps by any number of nodes, with blobs refused and deletions lost, late or repeated: nothing is tombstoned before its delay, and when splits move no numbered key everything enqueued is always queued or acknowledged. |
| DeleteHistory.BeginLooksAtClock | crates/epoch-meta/src/deleter.rs:140-162 | A sweep asks for what is older than the delay by the clock at its beginning. |
| DeleteHistory.DroppedNodeIsOut | crates/epoch-meta/src/deleter.rs:205-234 | A node whose proposal was refused, or that dropped out, does nothing more until it begins again. |
| DeleteHistory.OverwriteLeaksIff | crates/epoch-meta/src/raft/state_machine.rs:491-506 | Storing entries over queued ones forgets nothing if and only if every blob of the old ones is acknowledged, carried by the new ones, or held under another key. |
| DeleteHistory.DeleteLeaksIff | crates/epoch-meta/src/deleter.rs:205-234 | Applying a deletion forgets nothing if and only if every blob of the entries then under its keys is acknowledged or held under another key. |
| DeleteHistory.StepLeaksIff | crates/epoch-meta/src/deleter.rs:140-268 | In any reachable state a step forgets nothing if and only if it is no such overwriting or deletion. |
| DeleteHistory.RunLeaksNothingIff | crates/epoch-meta/src/deleter.rs:140-268 | A run forgets nothing at any time if and only if each of its operations and deletions is harmless in the state before it. |
| DeleteHistory.OpsKeepAhead | crates/epoch-meta/src/raft/state_machine.rs:491-506 | Within a partition the counter never repeats a number for a routing key. |
| DeleteHistory.DelqKeyReadsBack | crates/epoch-meta/src/store/keys.rs:86-111 | Routing key, event number and segment can be read back from a queue key. |
| DeleteHistory.EventPrefixNamesEvent | crates/epoch-meta/src/deleter.rs:297-305 | Two queue keys have one event prefix if and only if they share routing key and event number. |
| DeleteHistory.SplitCanReuseIff | crates/epoch-meta/src/raft/state_machine.rs:415-467 | After a split some run of operations reuses a number if and only if one was ever handed out in the moved range. |
| DeleteHistory.SplitCanLeak | crates/epoch-meta/src/raft/state_machine.rs:448-456 | An operation, a split and an operation on one key: whatever the second entry does not carry is forgotten. |
| Streams.StreamHoldsItsFrames | crates/epoch-rpc/src/server.rs:185-232 | Between an open and its end, whatever other streams do and whenever idle streams are reaped: the stream exists if and only if every reap found it recent and its bodies fit the cap, and then it holds exactly its own data frames. |
| Streams.Connection.constructor | crates/epoch-rpc/src/server.rs:107-133 | No streams. |
| Streams.Connection.HandleOpen | crates/epoch-rpc/src/server.rs:185-211 | Busy at 128 open streams, refused by the handler, or a fresh accumulator in place of any old one. |
| Streams.Connection.HandleData | crates/epoch-rpc/src/server.rs:212-232 | Appends and counts, drops an unknown stream's frame, and kills a stream that would pass 48 MiB. |
| Streams.Connection.HandleAbort | crates/epoch-rpc/src/server.rs:233-240 | Forgets exactly that stream. |
| Streams.Connection.HandleEnd | crates/epoch-rpc/src/server.rs:241-331 | The handler is called with exactly the concatenation and count of the frames accepted since the stream's latest open and the end's own declaration, or not at all. Committed if and only if count and checksum of those frames are as declared and the engine takes them; internal if and only if one of them is not. |
| Streams.Connection.ReapIdle | crates/epoch-rpc/src/server.rs:139-152 | Drops exactly the streams idle for the timeout. |
| Streams.CutsJoin | crates/epoch-gateway/src/put.rs:197-230 | The frames a body is cut into concatenate to the body. |
| Streams.LocalWriteStream.constructor | crates/epoch-rpc/src/transport.rs:148-161 | An empty in-process stream. |
| Streams.LocalWriteStream.SendFrame | crates/epoch-rpc/src/transport.rs:201-205 | Appends the frame and counts it. |
| Streams.LocalWriteStream.Finish | crates/epoch-rpc/src/transport.rs:207-211 | The handler call with everything sent. Committed if and only if count and checksum of the frames sent are as declared and the engine takes them; internal if and only if one of them is not. |
| Streams.WriteShardLocally | crates/epoch-gateway/src/put.rs:197-230 | Frame by frame the whole body reaches the handler with a declaration that passes the gate, so only the engine can refuse. |
| Streams.RemoteWriteIsLocalWrite | crates/epoch-gateway/src/put.rs:197-230 | Over the wire, between any frames of other streams and reaps that find the stream recent, the handler gets the very call the in-process stream makes, past the gate. |
| Streams.ChecksumDecides | crates/epoch-store/src/handler.rs:62-70 | What arrived in as many frames as were sent is committed if and only if it has the checksum of what was sent and the engine takes it, and is an internal error if and only if the checksums differ. |
| Streams.LostFrameIsRefused | crates/epoch-store/src/handler.rs:51-74 | A write one of whose frames never arrived is refused, whatever the checksum. |

## Left out

- RouteCache.CacheStaysUnambiguous: covers one task at a time; `RouteCache.RacingResolutions` shows two.
- RouteCache.MetaClient.RouteOp: a transport failure ends the call with an error and is not one of the replies; nodes have applied the table that holds still.
- Compaction.RunServesLive: torn records are cut with the tail they belong to, and extents are per shard. A commit into metadata that a sweep has just removed stores a record the source can no longer decode; the model has it absent.
- Writer.WriterSession.NextBlobId: one task at a time; interleaved mints, fences and rotations of all tasks are the steps of `Collector`.
- Writer.WriterSession.ForceRotate: one task at a time, as above.
- Exports.KeptIffSeen: of keys in a node's range that its partition has never held, the node may lag behind; such references are not counted as exported. The scan of one export is taken at one moment.
- ListPages.ListFlat: over groups whose bound is a key the page is still exactly `Answer`, but what `Answer` promises is only the limit and that every row is a row of the listing; `ListPages.TakenBoundIsLost` says what is lost. Keys are non-empty, as in S3.
- Listing.Fold: a limit of zero with no delimiter and some keys is left out, since the source's subtraction underflows.
- ShardRepair.PdState.ApplyCommitMapping: whether the job may commit is a parameter.
- DeleteHistory.QueueNeverLeaksOrActsEarly: the part about forgetting asks splits to move no numbered key; `DeleteHistory.RunLeaksNothingIff` has the exact condition for every other run.
- Thresholds and pacing: when to compact, rate limits, preallocation, deleted-byte accounting.
- Placement planning, disk and node state machines, heartbeats, jobs and their leases.
- The hierarchical namespace (directories, rename), multipart uploads beyond their references, expiry.
- Raft itself: the replicated state machines are modelled as the sequence of commands they apply.
- HTTP, S3 XML, authentication, configuration, the web console and metrics.
- Single-threaded helpers whose contracts would only restate them.
