# TronDB verification model

TronDB is a vector and graph store. This project models the parts of it whose correctness is
decided by their own code, and proves for all inputs, runs or reachable states what they promise:

- **Quantisation** (`Hadamard`, `BitPacking`, `PolarQuant`, `PolarConfig`, `Int8`): the in-place
  Walsh-Hadamard rotation, scalar quantisation, code packing, and the int8 and sign-bit codes.
- **Tier migration** (`Location`, `Demotion`, `Migrator`, `Recovery`, `Startup`): demotion as
  concurrent step sequences over the copies of an entity, its location entry and the log, and
  restarts from any crash state: re-applied entity records, then migrations.
- **Indexes** (`ByteOrder`, `KeyEncoding`, `FieldIndex`, `Hnsw`, `CatchUp`, `SparseIndex`,
  `Adjacency`): each against a plain specification of what it should contain and answer.
- **Rank merging** (`Ranking`, `Rrf`, `Scatter`): top-k over shards and reciprocal rank fusion.
- **Affinity and decay** (`Affinity`, `GroupRaces`, `Cooccurrence`, `Decay`, `DeleteStatement`):
  group replay, racing group calls, co-occurrence mass, edge confidence and the prune sweep with
  the statements it writes.

`Basics` holds shared vocabulary. `dafny verify dfyconfig.toml` checks everything.

## How the model reads the code

Floats are reals, except in `KeyEncoding`, where a float is its 64 bits. Square roots enter as
symbols with the equation they satisfy: `scale` with scale * scale * n = 1, `root` with
root * root = d. The exponential is any function that is 1 at zero, positive, strictly increasing
and has exp(-x) * (1 + x) at most 1 for x at least 0. Time, commit outcomes, map iteration order,
the graph walk's answer and the serialisation codecs are parameters. The log is the sequence of
committed records. Objects whose methods update fields are classes; the functions their
contracts name carry the theorems.

Places where the code departs from its comments or from what one might expect; the model follows
the code:

- A value equal to a boundary gets the code of the bucket on its left, though the comment says
  right (`crates/trondb-core/src/quantise.rs:334`).
- Only the first `dimensions` rotated coordinates are kept. The comment that the energy
  concentrates there (`crates/trondb-core/src/quantise.rs:357-360`) does not hold when padding
  occurs: `PolarQuant.ReconstructionError` shows the energy lost.
- Negative zero passes the test for non-negative floats and sorts below every negative float:
  `KeyEncoding.FloatOrderExact`.
- The separator named for compound keys (`crates/trondb-core/src/field_index.rs:40`) exists only
  after text values; the other kinds have fixed width.
- An id that is deleted and inserted again stays tombstoned in the vector index:
  `CatchUp.RunMeaning`.
- The periodic index snapshot reads its LSN before saving, so it may hold later records, which is
  harmless, or miss logged records not yet applied, which is not: `CatchUp.CatchUpIff` is the exact
  condition, `CatchUp.CatchUpComplete` and `CatchUp.EarlyStampLosesRecords` its two sides.
- Demotion and promotion look a search index up by the bare collection name
  (`crates/trondb-core/src/lib.rs:616-628`), but every index is stored under
  `collection:representation`, so neither changes any: `Migrator.MigrationsMissIndexes`. Under the
  right key promotion would still not undo a demotion: `Migrator.PromotedAfterDemotionLiveIff`.
- Each start re-applies the entity writes of the log to the hot partition before it replays the
  migrations (`crates/trondb-core/src/executor.rs:196-208`), so a hot copy comes back on every
  attempt: `Demotion.RestartIff`, `Demotion.ReappliedWriteSplits`.
- Records up to the stamp of the location snapshot are dropped before any is replayed
  (`crates/trondb-core/src/lib.rs:94-102`), and the snapshot is stamped with the log's head at
  startup (`crates/trondb-core/src/lib.rs:329-337`). For migrations that is harmless
  (`Demotion.StampedAtStart`), but groups live nowhere but in the log, so those of one life are
  gone two starts later: `Startup.GroupsComeBack`.
- A checkpoint drops all records before it at any moment, also inside a demotion:
  `Demotion.CheckpointInsideSplits`.
- The sweep pastes ids between quotes without escaping
  (`crates/trondb-routing/src/sweeper.rs:47-52`): `DeleteStatement.NamesOwnIff` says which ids
  survive, `Decay.SweepTakesOther` what happens to others.
- What the log holds of earlier lives past that stamp is replayed again at every start. A
  warm-to-cold demotion that logged and then found no source leaves a record that parts the copies
  of a later hot-to-warm demotion:
  `Demotion.RestartIff`, `Demotion.UnconfirmedMoveSpoilsRestart`.
- The two hot tiers share one partition (`crates/trondb-core/src/store.rs:530-536`), so a record
  from one to the other would delete the only copy: `Recovery.RecordKeepsEntity`.
- A demotion that fails after taking `Migrating` leaves the entry there, and no later demotion of
  that entity can start: `Migrator.Engine.DemoteSingle`.
- Rows without id are documented as unique (`crates/trondb-server/src/scatter.rs:79-80`); an id
  equal to a synthetic key breaks that, and nothing else does: `Scatter.AnonymousApartIff`.
- Startup replays groups under a fixed cap of 1000 (`crates/trondb-routing/src/startup.rs:27`),
  not the configured one: `Affinity.ReplayRebuildsIff` says when that matters.
- Learned groups overwrite a group of the same name, and different pairs can share a name:
  `Affinity.PromotedKeepsMappedIff`, `Affinity.LearnedNameIff`.

## Model

| member | source | states |
|---|---|---|
| Hadamard.FastWalshHadamard | crates/trondb-core/src/quantise.rs:293-314 | the three nested in-place loops and the closing scale leave in the buffer, for every power-of-two length, each coordinate times the Hadamard row: `scale` times the signed sum with sign (-1) to the number of common one bits of row and column |
| Hadamard.ButterflyPass | crates/trondb-core/src/quantise.rs:298-306 | one outer iteration applies the butterfly to every aligned block of the buffer and to nothing else |
| Hadamard.Butterfly | crates/trondb-core/src/quantise.rs:299-304 | the inner loop leaves sums in the low half and differences in the high half of its block; the rest of the buffer is untouched |
| Hadamard.ScaleInPlace | crates/trondb-core/src/quantise.rs:310-313 | the closing loop scales every coordinate |
| Hadamard.StageMergesBlocks | crates/trondb-core/src/quantise.rs:297-308 | a pass of block length 2h over blocks transformed at length h gives blocks transformed at length 2h: the loop invariant of the iterative form |
| Hadamard.StageBlock | crates/trondb-core/src/quantise.rs:298-306 | block q of a pass depends only on block q of its input |
| Hadamard.TransformIsMatrixProduct | crates/trondb-core/src/quantise.rs:293-308 | the transform by halves is the matrix product, coordinate by coordinate |
| Hadamard.NormalisedIsMatrixProduct | crates/trondb-core/src/quantise.rs:293-314 | the scaled transform is the scaled matrix product |
| Hadamard.SignTopBit | crates/trondb-core/src/quantise.rs:299-304 | how the matrix sign changes when the top bit is added to row, column or both |
| Hadamard.TransformLinear | crates/trondb-core/src/quantise.rs:293-308 | the transform distributes over sums and differences |
| Hadamard.TransformTwice | crates/trondb-core/src/quantise.rs:293-308 | two unscaled transforms multiply the vector by its length |
| Hadamard.TransformEnergy | crates/trondb-core/src/quantise.rs:293-308 | the unscaled transform multiplies the sum of squares by the length |
| Hadamard.SumSqBounds | crates/trondb-core/src/quantise.rs:346 | the sum of squares is at least each coordinate's square, and that of a single coordinate is its square |
| Hadamard.NormalisedInvolution | crates/trondb-core/src/quantise.rs:415-417 | the normalised transform is its own inverse |
| Hadamard.NormalisedEnergy | crates/trondb-core/src/quantise.rs:309-313 | the normalised transform preserves the sum of squares |
| BitPacking.SetBit | crates/trondb-core/src/quantise.rs:256-258 | setting a bit most significant first sets exactly that bit of the byte string |
| BitPacking.BitOrder | crates/trondb-core/src/quantise.rs:256-258 | bit 0 of a byte is its most significant one |
| BitPacking.PackSigns | crates/trondb-core/src/quantise.rs:254-260 | the packed string has exactly the sign bits, most significant first, zero padded to a whole byte |
| BitPacking.SignRoundTrip | crates/trondb-core/src/quantise.rs:247-288 | unpacking packed signs gives the signs back |
| BitPacking.PackedBitsUnique | crates/trondb-core/src/quantise.rs:254-260 | the packed bytes are determined by the bits: no other byte string packs them |
| BitPacking.PackCodes | crates/trondb-core/src/quantise.rs:376-391 | every bit of every 2-, 3- or 4-bit code lands at its stream position, also across bytes, and no other bit is set |
| BitPacking.UnpackCodes | crates/trondb-core/src/quantise.rs:434-447 | the codes read back are exactly the bits of the stream at their positions |
| BitPacking.CodeRoundTrip | crates/trondb-core/src/quantise.rs:376-447 | packing then unpacking returns the codes, for every count |
| PolarQuant.Tables | crates/trondb-core/src/quantise.rs:167-197 | in all three tables centroids and boundaries ascend and each boundary is within the stated slack, below 1e-4, of twice the midpoint of its centroids |
| PolarQuant.TableValues | crates/trondb-core/src/quantise.rs:163-197 | the values of the six tables |
| PolarQuant.BinarySearch | crates/trondb-core/src/quantise.rs:329-337 | the search splits the boundaries into those below the value and those not below it |
| PolarQuant.ScalarCode | crates/trondb-core/src/quantise.rs:329-337 | the code is the one bucket that contains the value, and is monotone in it |
| PolarQuant.NearestCentroid | crates/trondb-core/src/quantise.rs:329-337 | with boundaries near midpoints, no centroid is nearer than the chosen one by more than the slack |
| PolarQuant.ScalarQuantiser | crates/trondb-core/src/quantise.rs:228-245 | for 2, 3 and 4 bits the code is below 2 to the bits, so the clamp never acts, and its centroid is nearest within the slack |
| PolarQuant.RotateVector | crates/trondb-core/src/quantise.rs:317-326 | the padded buffer holds the normalised transform of the signed, zero-padded vector |
| PolarQuant.RotationRoundTrip | crates/trondb-core/src/quantise.rs:317-326 | rotating and rotating back is the identity on the original coordinates |
| PolarQuant.QuantisePolar | crates/trondb-core/src/quantise.rs:340-399 | the record packs, for each kept rotated coordinate, the code of its value scaled by sqrt(d), with norm, dimensions and bits |
| PolarQuant.NormalisedBack | crates/trondb-core/src/quantise.rs:345-352 | a norm above 2 to the -23 is divided out and multiplied back exactly; a smaller one gives the zero vector |
| PolarQuant.QuantiseCoordinate | crates/trondb-core/src/quantise.rs:364-374 | one coordinate becomes a code of the right width holding the bucket of the value |
| PolarQuant.QuantiseCoordinates | crates/trondb-core/src/quantise.rs:364-374 | the codes of the first d rotated coordinates, in order |
| PolarQuant.DequantisePolar | crates/trondb-core/src/quantise.rs:402-431 | the result is the norm times the inverse rotation of the centroids of the codes the record unpacks to |
| PolarQuant.FillCentroids | crates/trondb-core/src/quantise.rs:410-413 | each kept slot holds its centroid over sqrt(d), the padding holds zero |
| PolarQuant.UndoSigns | crates/trondb-core/src/quantise.rs:419-430 | sign flips undone and rescaled by the norm |
| PolarQuant.InverseIsometry | crates/trondb-core/src/quantise.rs:415-417 | rotating back preserves squared distances |
| PolarQuant.RotatedError | crates/trondb-core/src/quantise.rs:358-374 | the rotated error is the sum of the kept scalar errors over d plus the energy of the dropped coordinates |
| PolarQuant.ReconstructionError | crates/trondb-core/src/quantise.rs:340-431 | for every d and every norm above 2 to the -23: squared error = norm squared times (scalar errors / d + dropped energy - energy leaked into the padding) |
| PolarQuant.ReconstructionErrorPow2 | crates/trondb-core/src/quantise.rs:340-431 | for power-of-two d: squared error = norm squared / d times the sum of squared scalar errors |
| PolarQuant.StoredVector | crates/trondb-core/src/quantise.rs:340-447 | storing and loading end to end, for every norm above 2 to the -23: the squared error of the restored vector is norm squared / d times the scalar errors of codes of which none could be nearer by more than the slack |
| PolarConfig.ToBytes | crates/trondb-core/src/quantise.rs:247-262 | the buffer serialises the configuration: bits, two 32-bit little-endian lengths, packed signs |
| PolarConfig.Le32Truncates | crates/trondb-core/src/quantise.rs:251-252 | the 32-bit cast keeps a length modulo 2 to the 32 |
| PolarConfig.ConfigRoundTrip | crates/trondb-core/src/quantise.rs:247-288 | deserialising returns the configuration exactly when both lengths fit 32 bits |
| PolarConfig.ReadsIff | crates/trondb-core/src/quantise.rs:263-288 | reading fails exactly when header or sign bytes are not all there, with the error of the part that is missing |
| Int8.Min | crates/trondb-core/src/quantise.rs:23 | the fold finds a least element |
| Int8.Max | crates/trondb-core/src/quantise.rs:24 | the fold finds a greatest element |
| Int8.CodeError | crates/trondb-core/src/quantise.rs:35-39 | one coordinate: the code is in 0..255 and its level is within (max - min)/510 of the value |
| Int8.CodeOfLevel | crates/trondb-core/src/quantise.rs:35-57 | quantising a restored level gives its code back |
| Int8.ReconstructionError | crates/trondb-core/src/quantise.rs:14-58 | every coordinate of a vector with spread at least 2 to the -23 is restored within the spread over 510; of a flatter one as the least value, within the spread |
| Int8.RangeEnds | crates/trondb-core/src/quantise.rs:14-43 | the least value has code 0 and, in a vector wide enough, the greatest has code 255 |
| Int8.RoundClamp | crates/trondb-core/src/quantise.rs:36-40 | the nearest integer with halves away from zero, kept within a byte |
| Int8.RestoredRange | crates/trondb-core/src/quantise.rs:14-58 | a restored vector has the same minimum and, unless its spread is under 2 to the -23, the same maximum |
| Int8.RequantiseStable | crates/trondb-core/src/quantise.rs:14-58 | quantising a restored vector gives the same codes and minimum and restores to the same vector; it is the identical record exactly when the vector was empty, constant or not flattened |
| Int8.QuantiseBinary | crates/trondb-core/src/quantise.rs:91-105 | the archive bytes hold exactly the sign bits |
| Int8.ArchiveSignFaithful | crates/trondb-routing/src/migrator.rs:222-229 | the archive sign of a coordinate that went through int8 is the sign of the original wherever its magnitude exceeds the spread over 510, or the spread itself if that is under 2 to the -23 |
| ByteOrder.BigEndianRoundTrip | crates/trondb-core/src/location.rs:275-293 | a fixed-width big-endian number reads back |
| ByteOrder.BigEndianOrder | crates/trondb-core/src/field_index.rs:18-30 | big-endian bytes compare as the numbers do |
| ByteOrder.LessIffDiverges | crates/trondb-core/src/field_index.rs:70-82 | bytewise order is: a differing byte at the first difference, or a proper prefix |
| Location.LocationTable.Register | crates/trondb-core/src/location.rs:128-140 | the entry is written and the per-entity index stays the sorted, duplicate-free list of indices that have a descriptor |
| Location.LocationTable.Transition | crates/trondb-core/src/location.rs:168-186 | succeeds exactly for a known key and an allowed transition; a failure changes nothing and says why |
| Location.LegalTransitions | crates/trondb-core/src/location.rs:43-52 | the legal transitions: clean to dirty or migrating, dirty to recomputing, recomputing or migrating to clean |
| Location.LocationTable.UpdateTier | crates/trondb-core/src/location.rs:189-205 | changes tier and encoding of a known key in any state; fails exactly for an unknown one |
| Location.LocationTable.Touch | crates/trondb-core/src/location.rs:208-213 | sets the access time of a known key without counting a mutation |
| Location.LocationTable.RemoveEntity | crates/trondb-core/src/location.rs:223-234 | removes every descriptor of the entity, whatever their indices, and no other |
| Location.LocationTable.Snapshot | crates/trondb-core/src/location.rs:261-281 | magic, LSN, count and body of the entries in whatever order they are visited |
| Location.LocationTable.constructor | crates/trondb-core/src/location.rs:119-125 | an empty table is valid |
| Location.Restore | crates/trondb-core/src/location.rs:284-311 | accepts exactly the well-formed snapshots and then holds the last entry per key; otherwise the error of the first failing check |
| Location.ParseIff | crates/trondb-core/src/location.rs:284-305 | a snapshot is taken exactly if the header has the magic, the body decodes and the count is that of the entries |
| Location.InsertSortedAscending | crates/trondb-core/src/location.rs:133-138 | inserting an absent index keeps the list strictly ascending |
| Location.IndexDetermined | crates/trondb-core/src/location.rs:128-140 | descriptors determine the per-entity index |
| Location.MapOfEntries | crates/trondb-core/src/location.rs:306-308 | registering the listed entries rebuilds the descriptors listed |
| Location.SnapshotRoundTrip | crates/trondb-core/src/location.rs:261-311 | a snapshot taken in any iteration order restores the same descriptors and LSN |
| Recovery.RecordRenames | crates/trondb-routing/src/startup.rs:53-92 | all four recovery cases amount to renaming the from-tier to the to-tier in the set of tiers holding the entity |
| Recovery.RecordFrame | crates/trondb-routing/src/startup.rs:40-92 | a record leaves every other entity and collection alone, bytes included |
| Recovery.RecordKeepsEntity | crates/trondb-routing/src/startup.rs:63-69 | a record loses the last copy of an entity exactly when both tiers share a partition and that one holds the only copy |
| Recovery.PartitionsApart | crates/trondb-core/src/store.rs:530-536 | two tiers share a partition exactly if they are the same or the two hot ones |
| Recovery.ReopenedHolding | crates/trondb-core/src/executor.rs:196-233 | re-applied entity records leave an entity where it was, with one more hot copy, in the hot tier alone, or nowhere: after its last write if nothing deleted it, after a delete and a write, after a delete |
| Recovery.OpenTwice | crates/trondb-core/src/executor.rs:196-233 | an opening cut short after any record and repeated is one opening |
| Recovery.RecoveryImage | crates/trondb-routing/src/startup.rs:29-97 | after a whole log the tiers holding an entity are the images of those that held it under the renamings in order |
| Recovery.OneCopyIff | crates/trondb-core/src/lib.rs:94-102 | opening the engine and then replaying the migrations ends with exactly one copy exactly when opening leaves a copy and all copies are renamed to one tier |
| Recovery.PartialStaysIn | crates/trondb-routing/src/startup.rs:70-83 | a recovery cut short, even between write and delete, keeps a copy and stays inside the named tiers |
| Recovery.CrashTolerant | crates/trondb-routing/src/startup.rs:22-97 | any number of restarts cut short, while the engine re-applies entity records or anywhere in the migrations, then one full restart, end with exactly one copy in the final tier, if the tiers an opening leaves are renamed there |
| Recovery.AttemptStaysIn | crates/trondb-core/src/lib.rs:94-102 | after one attempt cut short anywhere, the next opening finds the entity, and only in the named tiers |
| Recovery.AttemptMeaning | crates/trondb-routing/src/startup.rs:22-97 | what a crashed attempt leaves: the entity records or migrations before the crash, and between write and delete both copies with the same bytes |
| Recovery.CrashesCompose | crates/trondb-routing/src/startup.rs:22-97 | each attempt starts from what the one before left |
| Recovery.RewrittenRestart | crates/trondb-core/src/executor.rs:196-233 | an entity deleted and written again restarts from the hot copy alone, whatever crashed and wherever else it was |
| Recovery.ErasedRestart | crates/trondb-core/src/executor.rs:210-233 | a deleted entity stays deleted through every restart |
| Recovery.ChainDest | crates/trondb-routing/src/migrator.rs:43-53 | in a chain of migrations every named tier is renamed to the last to-tier, every other stays |
| Recovery.ChainRecovery | crates/trondb-routing/src/startup.rs:29-97 | for a chain, if opening leaves the entity in tiers the chain names, every restart, however often cut short first, leaves exactly one copy in the last to-tier |
| Recovery.ChainRecoveryIff | crates/trondb-core/src/executor.rs:196-233 | an entity in tiers its chain names always comes to the last to-tier exactly when no write of it is re-applied, or it is not deleted and the chain names the hot tier |
| Recovery.RecoveryKeepsBytes | crates/trondb-routing/src/startup.rs:70-83 | every copy after recovery carries the bytes of some copy of the same entity before it: recovery does not transcode |
| Recovery.RestartKeepsBytes | crates/trondb-core/src/executor.rs:196-208 | after any crashed restarts and a full one, every slot holds bytes of one of the entity's first copies or of a logged write of it |
| Demotion.InitialInv | crates/trondb-routing/src/migrator.rs:158-175 | the invariant holds before any run has started |
| Demotion.AnyoneMoves | crates/trondb-routing/src/migrator.rs:158-259 | every run may step or give up at any moment, and the entry may take its other legal transitions |
| Demotion.StepInv | crates/trondb-routing/src/migrator.rs:158-259 | every step and failure of a demotion, and every legal transition of others outside Migrating, keeps: a copy exists, and the entry is Migrating exactly while one run is critical |
| Demotion.StateWriteKeepsIff | crates/trondb-core/src/executor.rs:945-965 | a writer that overwrites the state keeps that exactly when it neither ends nor begins Migrating |
| Demotion.StepKeepsColdest | crates/trondb-routing/src/migrator.rs:158-259 | no step makes the coldest copy hotter |
| Demotion.StepExclusion | crates/trondb-core/src/location.rs:168-186 | the state check makes runs exclusive: at most one is between Migrating and Clean |
| Demotion.DemotionSafety | crates/trondb-routing/src/migrator.rs:158-259 | over every interleaving of any number of demotions, hot to warm and warm to archive mixed: the entity always has a copy, the coldest copy never gets hotter, and at most one run is critical |
| Demotion.StepLogInv | crates/trondb-routing/src/migrator.rs:178-259 | every step keeps all copies at one destination under the log, and so those the run inside, or else the next run, will make |
| Demotion.StepHotInv | crates/trondb-core/src/executor.rs:196-208 | and the hot copy that a re-applied write brings back |
| Demotion.DestOfMigrations | crates/trondb-routing/src/migrator.rs:262-303 | where a log of demotions and promotions sends each tier |
| Demotion.StopAnywhere | crates/trondb-routing/src/startup.rs:29-97 | wherever a recovery stops, what it has moved so far ends where it would have ended |
| Demotion.ReachableFunnel | crates/trondb-routing/src/migrator.rs:158-259 | in every such state the logged moves send every copy, a hot one that comes back, and every place a stopped recovery can leave one, to one tier |
| Demotion.CrashRecoveryOneCopy | crates/trondb-routing/src/startup.rs:22-97 | a crash in any state of concurrent demotions after a restart with a restartable log, then any interrupted restarts and one full one, leaves exactly one copy, always in the same tier; if no run had logged without seeing its source, the log is restartable again from there |
| Demotion.RestartIff | crates/trondb-core/src/lib.rs:94-102 | restartable is exact, for every log of migrations and whatever entity records are re-applied: the log keeps the copy and its next target together and, if a write of the entity is re-applied on each start, sends the hot tier where it sends the copy; otherwise some moment of some interleaving recovers to two copies or none |
| Demotion.RestartAfterDemotions | crates/trondb-core/src/lib.rs:94-102 | for logs of demotions: without a re-applied write the condition fails exactly for a hot copy whose log has a warm-to-cold move and does not take hot to cold; with one it also needs the hot tier to end where the copy does |
| Demotion.ChainRestarts | crates/trondb-core/src/lib.rs:94-102 | a history of migrations each starting where the last ended is restartable, with a re-applied write exactly when it names the hot tier |
| Demotion.UnconfirmedMoveSpoilsRestart | crates/trondb-routing/src/migrator.rs:178-195 | a warm-to-cold run that logged and found no source recovers, but a hot-to-warm demotion after the restart need not |
| Demotion.ReappliedWriteSplits | crates/trondb-core/src/executor.rs:196-208 | an instance of the second condition: one warm copy after warm-to-cold and hot-to-warm records recovers, but not if a write of it is re-applied |
| Demotion.NextLife | crates/trondb-routing/src/migrator.rs:178-195 | from any such state where no run has logged without seeing its source, the log is restartable from the recovered copy |
| Demotion.LivesRecover | crates/trondb-core/src/lib.rs:94-102 | over any number of lives, each starting where the restart after the last settled, every moment of each recovers to one copy as long as no life ended with such a run |
| Demotion.StampedAtStart | crates/trondb-core/src/lib.rs:329-337 | once a location snapshot of the current life is written, a restart replays this life only, and every moment recovers whatever the log held before |
| Demotion.CheckpointInsideSplits | crates/trondb-wal/src/recovery.rs:75-91 | a checkpoint that drops the record of a demotion between its log record and its delete leaves two copies that a restart over the remaining records does not join |
| Demotion.FullRun | crates/trondb-routing/src/migrator.rs:158-259 | a run nobody disturbs takes eight steps to the target held in place of the source |
| Migrator.Engine.DemoteSingle | crates/trondb-routing/src/migrator.rs:158-259 | succeeds exactly when the entry is clean, the commit succeeds, the source holds the entity and the bytes transcode; then tiers, log and entry change as stated, and of the search indexes at most one stored under the bare collection name; every failure leaves tiers and indexes alone and, once marked, the entry stuck in Migrating |
| Migrator.EncodingsAgree | crates/trondb-routing/src/migrator.rs:198-259 | a demotion leaves the encoding a recovery of its record would give |
| Migrator.Engine.PromoteToHot | crates/trondb-routing/src/migrator.rs:262-314 | writes hot, and an index stored under the bare collection name, before logging; on failure the hot copy stays beside the warm one |
| Migrator.MigrationsMissIndexes | crates/trondb-core/src/lib.rs:616-628 | as every index is stored under collection:representation, demotion and promotion leave every index as it was |
| Migrator.PromotedAfterDemotionLiveIff | crates/trondb-core/src/index.rs:98-124 | under the right key too, an entity demoted and promoted again would be live exactly if the index had never seen it; other ids are unaffected |
| Migrator.DemotionThenRecovery | crates/trondb-routing/src/migrator.rs:200-259 | replaying a completed demotion changes nothing; a crash after the write recovers to the same store; a crash before it to the same tier |
| Migrator.DemotionIsRun | crates/trondb-routing/src/migrator.rs:158-259 | a successful call is such a run: same copies, log and entry at the end |
| Migrator.FailedDemotionIsRun | crates/trondb-routing/src/migrator.rs:168-195 | a failed call is a run refused at the start or stuck after taking Migrating, with its record logged if the commit succeeded |
| Migrator.PromotionThenRecovery | crates/trondb-routing/src/migrator.rs:262-316 | a promotion that logged its record recovers to the hot copy alone; one that crashed before logging leaves both copies |
| Startup.RecoverMigration | crates/trondb-routing/src/startup.rs:40-92 | one record: store and location entry become what the classified action says |
| Recovery.RecoveredEntry | crates/trondb-routing/src/startup.rs:40-92 | the location entry gets the record's target tier and its encoding exactly when one of the two copies was there, and is untouched otherwise |
| Startup.ReplayEntities | crates/trondb-core/src/executor.rs:196-233 | the loop leaves the tiers as the entity records in order say, and drops the location entries of deleted entities |
| Startup.ErasedHaveNoEntry | crates/trondb-core/src/executor.rs:210-233 | an entity some record deletes has no location entry left; every other keeps its own |
| Startup.ProcessPending | crates/trondb-routing/src/startup.rs:22-97 | the loop carries out all records before the first garbled migration payload and fails there, and completes exactly when there is none |
| Startup.AfterSplits | crates/trondb-routing/src/startup.rs:29-97 | interleaved group and migration records act independently: tiers as from the migrations alone, groups as from the group records alone |
| Startup.GroupsComeBack | crates/trondb-core/src/lib.rs:94-102 | groups built by logged calls with caps up to 1000 are rebuilt at startup, whatever else is logged in between, exactly when the location snapshot is stamped before all their records |
| Startup.CapExact | crates/trondb-routing/src/startup.rs:27 | startup takes a logged addition exactly while the group has fewer than 1000 members |
| Startup.PendingGroups | crates/trondb-core/src/lib.rs:94-100 | the pending group records are the last ones, and all of them exactly when all lie past the stamp |
| KeyEncoding.Utf8Order | crates/trondb-core/src/field_index.rs:12 | UTF-8 (section 3 of RFC 3629) diverges in code point order |
| KeyEncoding.TextOrder | crates/trondb-core/src/field_index.rs:12 | text without NUL compares bytewise as by code points |
| KeyEncoding.TextPrefixIff | crates/trondb-core/src/field_index.rs:12 | one terminated text encoding is a prefix of another exactly when the texts are equal or the longer continues with NUL |
| KeyEncoding.UnitsOrder | crates/trondb-core/src/field_index.rs:22-30 | binary64 magnitudes (section 3.4 of IEEE 754-2019) order as their bit patterns |
| KeyEncoding.FloatOrder | crates/trondb-core/src/field_index.rs:22-30 | smaller floats encode smaller unless the larger one is negative zero |
| KeyEncoding.FloatOrderExact | crates/trondb-core/src/field_index.rs:25 | two non-NaN floats order correctly exactly when they are the same bits or neither is a negative zero compared with a float of at most zero |
| KeyEncoding.NaNIs | crates/trondb-core/src/field_index.rs:22-30 | NaN has all exponent bits and some fraction bit set |
| KeyEncoding.UnitsDouble | crates/trondb-core/src/field_index.rs:22-30 | magnitudes count themselves up to exponent field one and double with each further exponent (section 3.4 of IEEE 754-2019) |
| KeyEncoding.PlainIff | crates/trondb-core/src/field_index.rs:10-38 | plain values: text without NUL, floats but NaN and negative zero, all integers and booleans, no null |
| KeyEncoding.ValueOrder | crates/trondb-core/src/field_index.rs:9-38 | every kind of plain value encodes in its own order |
| KeyEncoding.EncodeCompoundKey | crates/trondb-core/src/field_index.rs:41-51 | the loop over the shorter of values and types, stopping at the first mistyped value |
| KeyEncoding.TypeAccepts | crates/trondb-core/src/field_index.rs:10-38 | which kind of value each field type takes, null being taken by none |
| KeyEncoding.CompoundKeyTyped | crates/trondb-core/src/field_index.rs:41-51 | a tuple no longer than the types encodes exactly when every value has its declared type; a null has none and is refused |
| KeyEncoding.TupleOrder | crates/trondb-core/src/field_index.rs:41-51 | a smaller plain tuple has a bytewise smaller key |
| KeyEncoding.TupleTotal | crates/trondb-core/src/field_index.rs:41-51 | plain tuples of one shape are totally ordered |
| KeyEncoding.CompoundKeyOrder | crates/trondb-core/src/field_index.rs:41-51 | keys compare exactly as tuples, equal keys mean equal tuples, and no key is a proper prefix of another |
| FieldIndex.FullKeyOrder | crates/trondb-core/src/field_index.rs:70-82 | keys with separator and id compare as rows by tuple then id; distinct rows get distinct keys |
| FieldIndex.PutEntries | crates/trondb-core/src/field_index.rs:70-82 | writing a key into the sorted partition is inserting a row into the sorted rows |
| FieldIndex.DeleteEntries | crates/trondb-core/src/field_index.rs:84-95 | deleting a key is deleting that row |
| FieldIndex.InsertRowSorted | crates/trondb-core/src/field_index.rs:70-82 | insertion keeps the rows strictly sorted and adds just that row |
| FieldIndex.DeleteRowSorted | crates/trondb-core/src/field_index.rs:84-95 | deletion keeps the rows strictly sorted and removes just that row |
| FieldIndex.PrefixSelects | crates/trondb-core/src/field_index.rs:144-153 | a stored key starts with a prefix key exactly when the row starts with those values |
| FieldIndex.RangeSelects | crates/trondb-core/src/field_index.rs:121-142 | a stored key lies between the range keys, padding included, exactly when the tuple lies in the inclusive range |
| FieldIndex.ScanMatches | crates/trondb-core/src/field_index.rs:144-153 | a prefix scan returns the entries of the matching rows |
| FieldIndex.RangeMatches | crates/trondb-core/src/field_index.rs:121-142 | a range scan returns the entries of the rows in range |
| FieldIndex.ScanIsFilter | crates/trondb-core/src/field_index.rs:110-119 | over plain rows the ids of a prefix lookup are those of a linear filter |
| FieldIndex.RangeIsFilter | crates/trondb-core/src/field_index.rs:121-142 | over plain rows the ids of a range lookup are those of a linear filter |
| FieldIndex.FiltersMean | crates/trondb-core/src/field_index.rs:110-142 | the linear filters keep exactly the rows with those leading values, or in the inclusive range, in order |
| FieldIndex.FieldIndex.Insert | crates/trondb-core/src/field_index.rs:70-82 | an encodable tuple is written under its key, any other is refused; the rows held are the old ones and this one while all updates are plain |
| FieldIndex.FieldIndex.Remove | crates/trondb-core/src/field_index.rs:84-95 | removes just that row |
| FieldIndex.FieldIndex.LookupEq | crates/trondb-core/src/field_index.rs:97-108 | refuses a wrong arity; on plain values returns exactly the ids of rows with those values |
| FieldIndex.FieldIndex.LookupPrefix | crates/trondb-core/src/field_index.rs:110-119 | on plain values returns exactly the ids of rows that start with those values |
| FieldIndex.FieldIndex.LookupRange | crates/trondb-core/src/field_index.rs:121-142 | on full plain tuples returns exactly the ids of rows in the inclusive range, in value order |
| Hnsw.UpdatesConsistent | crates/trondb-core/src/index.rs:99-124 | insert and remove keep the id maps inverse, tombstones mapped and counted, slots dense |
| Hnsw.RebuiltMaps | crates/trondb-core/src/index.rs:148-171 | after a rebuild slot i is the i-th live entry and no tombstone is left |
| Hnsw.RebuildConsistentIff | crates/trondb-core/src/index.rs:148-171 | a rebuild leaves inverse maps exactly when its input lists no id twice |
| Hnsw.LiveCounts | crates/trondb-core/src/index.rs:262-266 | the reported length is the number of ids a search may return |
| Hnsw.WalkFiltered | crates/trondb-core/src/index.rs:192-206 | filtering keeps exactly the neighbours of the walk whose slot maps to a live id, each id once, with one minus its distance |
| Hnsw.FilterMeaning | crates/trondb-core/src/index.rs:192-206 | a pair is kept exactly if some neighbour of the walk gives it |
| Hnsw.PointsScanned | crates/trondb-core/src/index.rs:231-257 | the scan lists every live id once with its exact score |
| Hnsw.ExactScan | crates/trondb-core/src/index.rs:231-260 | the scan result is a true top-k of all live points, min(k, live) of them, sorted |
| Hnsw.ScanAnswer | crates/trondb-core/src/index.rs:230-266 | the scan answers min(k, live) live ids with their similarity, and no id left out is more similar than any of them |
| Hnsw.SortedLive | crates/trondb-core/src/index.rs:224-227 | sorting keeps the ids distinct and live |
| Hnsw.HnswIndex.Insert | crates/trondb-core/src/index.rs:99-112 | maps a new id to the next slot; an id already mapped, tombstoned or not, is skipped |
| Hnsw.HnswIndex.Remove | crates/trondb-core/src/index.rs:116-124 | tombstones a mapped id once; otherwise changes nothing |
| Hnsw.HnswIndex.Rebuild | crates/trondb-core/src/index.rs:148-171 | the state is that of inserting the given entries into an empty index |
| Hnsw.HnswIndex.SearchWithEf | crates/trondb-core/src/index.rs:184-228 | distinct live ids in falling order: exactly the live neighbours of the walk with one minus their distance, or, when those are fewer than k and the live ids and at most 1024 are live, min(k, live) ids with their similarity, none left out being more similar |
| Hnsw.HnswIndex.constructor | crates/trondb-core/src/index.rs:45-62 | an empty index is consistent |
| CatchUp.RunMeaning | crates/trondb-core/src/index.rs:99-124 | from empty, an id is mapped exactly when the run inserts it and tombstoned exactly when it is deleted after that, a later insert notwithstanding |
| CatchUp.RunConsistent | crates/trondb-core/src/index.rs:99-124 | every run of inserts and removes keeps the index consistent |
| CatchUp.ReplayOverMapped | crates/trondb-core/src/lib.rs:243-302 | replaying records whose inserts are already mapped only adds tombstones, those of the deleted ids |
| CatchUp.TombstonesCarry | crates/trondb-core/src/lib.rs:243-302 | extra tombstones stay the only difference through any further records |
| CatchUp.FuzzySnapshotIff | crates/trondb-core/src/lib.rs:366-375 | a snapshot stamped before the last records it holds catches up to the whole-log index exactly when every id deleted in the overlap and inserted up to the snapshot is deleted after an insert |
| CatchUp.FuzzySnapshotHarmless | crates/trondb-core/src/lib.rs:366-375 | for logs whose deletes follow inserts a fuzzy snapshot catches up |
| CatchUp.ReplayedSuffix | crates/trondb-core/src/lib.rs:94-100 | the records replayed are exactly those past the stamp, if the location snapshot is not ahead |
| CatchUp.RunDetermined | crates/trondb-core/src/index.rs:99-124 | two runs from empty end in the same index exactly when they have the same first inserts in the same order and delete the same ids after an insert |
| CatchUp.CatchUpIff | crates/trondb-core/src/lib.rs:94-302 | for every log, both stamps and every extent of the snapshot: the recovered index equals, in ids, slots, next slot, tombstones and points, the one built from the whole log exactly when what it has seen has the same first inserts in order and the same ids deleted after an insert |
| CatchUp.SkippedRecordsLost | crates/trondb-core/src/lib.rs:94-302 | whenever some id is inserted, or deleted after an insert, by the log and not by what was seen, or the reverse, the recovered index differs |
| CatchUp.FirstRepeat | crates/trondb-core/src/lib.rs:243-302 | seeing inserts of known ids again changes no first insert |
| CatchUp.OverlapFollows | crates/trondb-core/src/lib.rs:366-375 | seeing a stretch twice keeps deletes behind inserts and deletes the same ids |
| CatchUp.CatchUpComplete | crates/trondb-core/src/lib.rs:243-302 | the condition holds for every log ordered by LSN whose deletes follow inserts, every snapshot that holds at least the records up to its stamp, and every location stamp not ahead of it |
| CatchUp.LocationAheadLosesRecords | crates/trondb-core/src/lib.rs:94-100 | an instance: a write under a location stamp ahead of the index stamp never reaches the index |
| CatchUp.EarlyStampLosesRecords | crates/trondb-core/src/lib.rs:366-375 | an instance: so does a write under a stamp read before the index applied it |
| CatchUp.ReplayRecord | crates/trondb-core/src/lib.rs:270-299 | one record applies its operations to the index, whose meaning CatchUp.RecordMeaning states |
| CatchUp.RecordMeaning | crates/trondb-core/src/lib.rs:270-299 | one record: a write maps its entity from the first representation of the index that has a vector, with that vector; a delete tombstones a mapped entity; other collections and mapped entities are untouched |
| CatchUp.LogMeaning | crates/trondb-core/src/lib.rs:245-302 | what a log leaves in any index: an entity is mapped iff it was or some write carries a vector for the index; tombstoned iff it was, or a delete stands behind such a write or found it known; its vector stays, or is that of the first such write |
| CatchUp.ReplayedMembers | crates/trondb-core/src/lib.rs:94-100 | the replayed records are exactly those of the log past both stamps |
| CatchUp.ReplayedOrdered | crates/trondb-core/src/lib.rs:94-100 | in the order of the log |
| CatchUp.RecoveredRecords | crates/trondb-core/src/lib.rs:245-302 | the recovered index is what the snapshot's records and then the replayed ones leave in an empty index |
| CatchUp.ReplayInto | crates/trondb-core/src/lib.rs:94-100 | the loop leaves what the records past both stamps leave, in order; CatchUp.LogMeaning says what that is |
| Ranking.SortDescSorted | crates/trondb-server/src/scatter.rs:48-52 | the stable sort is a descending permutation |
| Ranking.SortTruncateTopK | crates/trondb-server/src/scatter.rs:47-54 | sorting and truncating selects a top-k |
| Ranking.TopKScoresUnique | crates/trondb-server/src/scatter.rs:47-54 | any two top-k selections of the same rows show the same scores |
| Ranking.TopPairs | crates/trondb-server/src/scatter.rs:47-54 | a top-k of scored pairs by the scores themselves: falling, and none left out scores more |
| Ranking.ReplacePart | crates/trondb-server/src/scatter.rs:25-67 | a part of the input may be replaced by its own top-k |
| Ranking.MergeTopK | crates/trondb-server/src/scatter.rs:25-67 | a top-k of the parts' own top-k lists is a top-k of all rows |
| Ranking.Drain | crates/trondb-core/src/hybrid.rs:26 | turning the score map into a list yields each id once, in some order |
| Scatter.MergeDenseResults | crates/trondb-server/src/scatter.rs:25-71 | up to limit of all rows with the rest left over: no returned row stands behind one with a lower score or without one, no row left over has a higher score than a returned one, and the statistics of the source loop |
| Scatter.BestRowsIff | crates/trondb-server/src/scatter.rs:47-54 | selecting by the sort key is selecting the best rows by their own scores, unscored ones last |
| Scatter.ScannedAddsUp | crates/trondb-server/src/scatter.rs:35-36 | scanned rows add up |
| Scatter.SlowestNode | crates/trondb-server/src/scatter.rs:40-42 | the time is the largest of all |
| Scatter.ColumnsOfFirst | crates/trondb-server/src/scatter.rs:37-39 | the columns are those of the first result that has any |
| Scatter.ShardsToGlobalTopK | crates/trondb-server/src/scatter.rs:47-54 | when every node answers with its best rows, the merge gives the best rows of all shards, by the score fields |
| Scatter.StagedMergeSameScores | crates/trondb-server/src/scatter.rs:47-54 | merging in stages returns row by row the same scores as merging at once |
| Scatter.RankRows | crates/trondb-server/src/scatter.rs:98-129 | one node's rows add their rank contributions under their keys, and under every key, synthetic ones included, the first row seen stays the representative |
| Scatter.Present | crates/trondb-server/src/scatter.rs:131-143 | the first `limit` fused entries, each shown by its representative with the fused score |
| Scatter.MergeHybridResults | crates/trondb-server/src/scatter.rs:81-155 | the rows are the leading entries of the fusion of all nodes' key lists with constant 60, each shown by the first input row that has its key |
| Scatter.AnonymousInjective | crates/trondb-server/src/scatter.rs:107-110 | different numbers give different synthetic keys |
| Scatter.KeysFlatten | crates/trondb-server/src/scatter.rs:98-110 | the keys and the counter run on over all nodes' rows in order |
| Scatter.AnonymousApartIff | crates/trondb-server/src/scatter.rs:79-110 | over all results, every row without id keeps a key of its own exactly when no row's id is spelled like one of the synthetic keys given out |
| Scatter.AnonymousCollision | crates/trondb-server/src/scatter.rs:107-110 | an instance of the collision |
| Rrf.AccumulateList | crates/trondb-core/src/hybrid.rs:16-24 | the loop adds each occurrence's contribution 1/(k + rank) to the scores so far |
| Rrf.MergeRrf | crates/trondb-core/src/hybrid.rs:9-29 | each id of either list once, with the sum of its contributions, best first |
| Rrf.FusionScores | crates/trondb-core/src/hybrid.rs:9-29 | for lists without repeats: each listed id once, scores falling, each score the sum of 1/(k + rank) over the lists that have the id |
| Rrf.SortedFusion | crates/trondb-core/src/hybrid.rs:26-28 | sorting the accumulated scores gives a fusion |
| Rrf.MassConserved | crates/trondb-core/src/hybrid.rs:16-24 | the scores sum to the contributions of all ranks of all lists |
| Rrf.FusionSymmetric | crates/trondb-core/src/hybrid.rs:9-29 | swapping the lists gives the same fusions up to tie order |
| Rrf.BothBeatOne | crates/trondb-core/src/hybrid.rs:16-24 | an id at rank at most k+1 in both lists scores strictly above every id in only one |
| Rrf.ThresholdTight | crates/trondb-core/src/hybrid.rs:16-24 | at rank k+2 in both lists it only ties with the first of one list |
| SparseIndex.InsertHolds | crates/trondb-core/src/sparse_index.rs:22-32 | inserting an absent entity adds exactly its weights of magnitude at least 0.001 |
| SparseIndex.RemoveHolds | crates/trondb-core/src/sparse_index.rs:34-42 | removing with the inserted vector leaves exactly the other entities' weights |
| SparseIndex.InsertRemoveRestores | crates/trondb-core/src/sparse_index.rs:22-42 | insert then remove restores the postings, order included |
| SparseIndex.RunHolds | crates/trondb-core/src/sparse_index.rs:22-42 | after every legal run the postings hold exactly the entities present and no empty list |
| SparseIndex.SparseIndex.Insert | crates/trondb-core/src/sparse_index.rs:22-32 | one entry appended per kept weight |
| SparseIndex.SparseIndex.Remove | crates/trondb-core/src/sparse_index.rs:34-42 | every entry of the entity leaves the lists of the vector's dimensions, and empty lists go |
| SparseIndex.SparseIndex.Search | crates/trondb-core/src/sparse_index.rs:45-60 | a top-k of the accumulated products over all hit entities |
| SparseIndex.SearchIsBruteForce | crates/trondb-core/src/sparse_index.rs:45-60 | an entity is hit exactly when it shares an indexed dimension, and its score is the dot product over the kept weights |
| SparseIndex.DotBilinear | crates/trondb-core/src/sparse_index.rs:45-60 | the score is additive in query and vector |
| SparseIndex.DotSingle | crates/trondb-core/src/sparse_index.rs:45-60 | and for single entries the product of the weights, if the dimensions agree and the stored weight has magnitude at least 0.001 |
| SparseIndex.SharesIff | crates/trondb-core/src/sparse_index.rs:22-32 | query and vector meet exactly in a dimension where the vector's weight has that magnitude |
| SparseIndex.SearchAfterRun | crates/trondb-core/src/sparse_index.rs:22-60 | after any legal run a search answer shows distinct documents present that share an indexed dimension with the query, with their dot products in falling order: k of them or all, and none left out scores more |
| Affinity.AffinityIndex.CreateGroup | crates/trondb-routing/src/affinity.rs:65-84 | fails exactly for an existing group |
| Affinity.AffinityIndex.AddToGroup | crates/trondb-routing/src/affinity.rs:86-106 | fails exactly for a missing or full group; otherwise the entity joins and is mapped |
| Affinity.AffinityIndex.RemoveFromGroup | crates/trondb-routing/src/affinity.rs:108-114 | unmaps the entity and drops it from the mapped group |
| Affinity.AffinityIndex.CreateGroupLogged | crates/trondb-routing/src/affinity.rs:227-252 | check, log, apply: state and log move together or not at all |
| Affinity.AffinityIndex.AddToGroupLogged | crates/trondb-routing/src/affinity.rs:254-289 | check, log, apply: a record is written exactly for an addition that takes effect |
| Affinity.AffinityIndex.RemoveFromGroupLogged | crates/trondb-routing/src/affinity.rs:291-313 | logs and applies only for a mapped entity |
| Affinity.StepMeaning | crates/trondb-routing/src/affinity.rs:227-314 | what a logged call needs and does: one more record exactly if it commits and its group is new, or there with room, or the entity has one; then the group is created empty, joined, or left |
| Affinity.AffinityIndex.ReplayRecord | crates/trondb-routing/src/affinity.rs:320-347 | a record that does not decode or apply is skipped |
| Affinity.AffinityIndex.RecordCooccurrence | crates/trondb-routing/src/affinity.rs:132-146 | the nested loops add the increment to each canonical pair |
| Affinity.AffinityIndex.CreateImplicitGroup | crates/trondb-routing/src/affinity.rs:169-213 | joins the pair to an existing group with room or makes a learned one |
| Affinity.LearnedGroup | crates/trondb-routing/src/affinity.rs:190-211 | two entities without a group get one of just them, marked as learned |
| Affinity.AffinityIndex.PromoteAndDecay | crates/trondb-routing/src/affinity.rs:153-167 | promotes by the scores before decay in visiting order, then decays and drops dust |
| Affinity.ReplayRebuildsIff | crates/trondb-routing/src/affinity.rs:254-347 | replay under a cap follows the live groups after every step exactly when every logged addition found room under it or changed nothing |
| Affinity.ReplayRebuilds | crates/trondb-routing/src/affinity.rs:227-347 | a replay cap no smaller than any live one rebuilds memberships and map |
| Affinity.ReplaySuffixIff | crates/trondb-routing/src/affinity.rs:227-347 | replaying a run's log without its first j records gives the live groups exactly when j is 0 |
| Affinity.RacingAddsIff | crates/trondb-routing/src/affinity.rs:264-288 | two additions that both passed the check for the last place are both logged; replay agrees exactly under the live cap |
| GroupRaces.RacesAgreeIff | crates/trondb-routing/src/affinity.rs:227-314 | over every interleaving of check, commit and apply of two logged calls, replay gives the live groups exactly unless both were accepted at the start and one leaves the other's group full or moves its entity |
| GroupRaces.RacesKeep | crates/trondb-routing/src/affinity.rs:227-314 | without such a conflict, at every moment the log replays to the groups with the committed changes applied |
| GroupRaces.Commute | crates/trondb-routing/src/affinity.rs:86-114 | two accepted calls without conflict give the same groups in either order, live and in replay |
| GroupRaces.OvertakenDiffers | crates/trondb-routing/src/affinity.rs:86-114 | with a conflict, applying in the other order than logging gives different groups |
| Affinity.AppliedKeeps | crates/trondb-routing/src/affinity.rs:86-114 | each operation keeps mapped entities members and groups within the cap |
| Affinity.RunInvariant | crates/trondb-routing/src/affinity.rs:86-114 | so does every run |
| Affinity.RunTellsHistory | crates/trondb-routing/src/affinity.rs:86-114 | after every run an entity is mapped to the group it joined last unless removed since, and is a member of exactly the groups it joined and was not removed from while mapped there |
| Affinity.OldMembershipStays | crates/trondb-routing/src/affinity.rs:86-114 | moving to another group leaves the entity a member of the old one, even after removal |
| Affinity.PromotedKeepsMappedIff | crates/trondb-routing/src/affinity.rs:190-211 | learning keeps mapped entities members exactly when the pair had a group or nobody is mapped to the learned name |
| Affinity.PromotedKeepsBoundIff | crates/trondb-routing/src/affinity.rs:190-211 | learning keeps groups within the cap exactly when the pair had a group or the pair itself fits |
| Affinity.LearnedNameIff | crates/trondb-routing/src/affinity.rs:191-192 | two pairs share a learned name exactly when they are equal or split one text at two different underscores |
| Affinity.PlainNamesDistinct | crates/trondb-routing/src/affinity.rs:191-192 | first ids without an underscore give every pair its own name |
| Affinity.LearnedNameCollision | crates/trondb-routing/src/affinity.rs:191-192 | an instance of two pairs with one name |
| Affinity.LearningExtends | crates/trondb-routing/src/affinity.rs:153-163 | a promotion pass never moves an entity that has a group |
| Affinity.LearnedFromPair | crates/trondb-routing/src/affinity.rs:153-163 | an entity is newly mapped only for a pair of it at or above the threshold |
| Affinity.PromotedJoins | crates/trondb-routing/src/affinity.rs:169-213 | a promoted pair ends together exactly when it was together or could join |
| Affinity.LearningCoLocates | crates/trondb-routing/src/affinity.rs:153-163 | and stays together through the rest of the pass |
| Cooccurrence.CanonicalKey | crates/trondb-routing/src/affinity.rs:356-362 | one key for both orders, shared by no other pair |
| Cooccurrence.RecordedMass | crates/trondb-routing/src/affinity.rs:132-146 | recording n results adds n/2 to the total, duplicates or not |
| Cooccurrence.RecordedMassOf | crates/trondb-routing/src/affinity.rs:132-146 | recording distinct results adds exactly 1 to each and nothing to others |
| Cooccurrence.RecordedScore | crates/trondb-routing/src/affinity.rs:132-146 | each pair of distinct results gains 1/(n-1) once; no other pair changes |
| Cooccurrence.ScoresBounded | crates/trondb-routing/src/affinity.rs:132-167 | with at most m recordings per pass and factor d below 1, no score exceeds m/(1-d), and after a pass none stored is under 0.01 |
| Cooccurrence.PassesMeaning | crates/trondb-routing/src/affinity.rs:158-166 | after n decay passes a pair is kept exactly if its score times the n-th power of the factor is at least 0.01, with that score |
| Cooccurrence.KeysCanonical | crates/trondb-routing/src/affinity.rs:138-143 | only canonical keys are ever stored |
| Decay.ConfidenceRange | crates/trondb-core/src/edge.rs:105-131 | confidence stays between floor and one |
| Decay.ConfidenceForms | crates/trondb-core/src/edge.rs:105-131 | what each form leaves after t seconds: base times exp(-rate t), base times (1 - rate t), or the base until the delay, never under the floor; missing rate and floor are zero |
| Decay.NeverRisesIff | crates/trondb-core/src/edge.rs:105-131 | for every decay form and non-negative rate, confidence never rises with age exactly when the capped floor is at most the base and no proportional loss is taken from a negative base |
| Decay.PrunedSometimeIff | crates/trondb-core/src/edge.rs:105-131 | with a positive rate an edge is pruned at some age exactly when its floor is under the threshold |
| Decay.StepPrunedIff | crates/trondb-core/src/edge.rs:120-126 | the step form is under the threshold exactly after its delay has passed |
| Decay.EdgeStore.PruneEdge | crates/trondb-routing/src/sweeper.rs:38-56 | a statement is run exactly when the edge has a creation time, its confidence at its age (its base if it was created in the future) is under the threshold, and the statement parses; it deletes the edge that it names |
| Decay.EdgeStore.SweepType | crates/trondb-routing/src/sweeper.rs:28-57 | one edge type: exactly the edges named by the statements of expired edges go, and the number of statements is reported |
| Decay.EdgeStore.SweepOnce | crates/trondb-routing/src/sweeper.rs:19-62 | all types: the edges left and the number of statements run |
| Decay.SweepExact | crates/trondb-routing/src/sweeper.rs:28-57 | with ids that are safe between quotes, an edge of a listed type goes exactly when it has a creation time and its confidence at its age, its base if created in the future, is under the threshold |
| Decay.PruneExactIff | crates/trondb-routing/src/sweeper.rs:47-56 | the statement for an edge takes that edge alone, from every edge set, exactly when both its ids are safe between quotes |
| Decay.SweepTakesOther | crates/trondb-routing/src/sweeper.rs:47-56 | an instance of the other side, for any two safe ids: an expired edge to an id that closes its quote and opens a comment stays, and the edge it names goes, expired or not |
| Decay.SweepTwice | crates/trondb-routing/src/sweeper.rs:28-59 | where no statement names another edge, sweeping at two times leaves what sweeping once at the later time leaves |
| Decay.FloorProtects | crates/trondb-routing/src/sweeper.rs:28-59 | where no statement names another edge, one whose floor is at least its threshold is never pruned |
| Decay.HitsApart | crates/trondb-routing/src/sweeper.rs:28-57 | the pass over one type is unaffected by the passes before it |
| DeleteStatement.NamesOwnIff | crates/trondb-tql/src/parser.rs:1071-1084 | a delete statement names the edge it was written for exactly when neither id has a quote, a trailing backslash, or a backslash before a backslash or line end |
| DeleteStatement.ReadsBackIff | crates/trondb-tql/src/token.rs:338-340 | a text pasted between quotes is read back as itself exactly under that condition |
| DeleteStatement.SaysNothing | crates/trondb-tql/src/token.rs:8-12 | blanks and the rest of a comment line are skipped, and a longer word is not the keyword |
| DeleteStatement.UnescapeLength | crates/trondb-tql/src/token.rs:3-7 | unescaping changes a literal exactly when it holds an escaped quote or backslash |
| DeleteStatement.CommentNamesOther | crates/trondb-tql/src/token.rs:8-12 | a second id that closes its quote and opens a line comment names the edge to what stands before |
| Adjacency.MirrorsDetermine | crates/trondb-core/src/edge.rs:147-150 | the two maps determine the set of edges |
| Adjacency.RemoveMirrors | crates/trondb-core/src/edge.rs:203-222 | removal keeps the maps mirror images without empty lists |
| Adjacency.AdjacencyIndex.Insert | crates/trondb-core/src/edge.rs:164-201 | both maps then describe the old edges with this one added or overwritten |
| Adjacency.AdjacencyIndex.Remove | crates/trondb-core/src/edge.rs:203-222 | both maps then describe the old edges without this one |
| Adjacency.AdjacencyIndex.RemoveEdgeType | crates/trondb-core/src/edge.rs:273-276 | both maps then describe exactly the edges of the other types |
| Adjacency.AdjacencyIndex.EdgesInvolving | crates/trondb-core/src/edge.rs:246-270 | lists exactly the edges out of and into the entity |
| Adjacency.AdjacencyIndex.RemoveEntity | crates/trondb-core/src/executor.rs:2097-2108 | deleting an entity leaves exactly the edges that do not touch it |

## Left out

- Concurrent promotion: `promote_to_hot` never takes `Migrating`, so the concurrency theorems cover demotions only; one promotion alone is modelled.
- Demotion.StepInv: does not cover writers that set the state without asking. An insert registers its entry as clean whatever it was (`crates/trondb-core/src/executor.rs:945-965`), and a recompute that was refused goes on and later returns the entry to clean (`crates/trondb-core/src/executor.rs:4193`, `crates/trondb-core/src/executor.rs:4257`); either can end a demotion's `Migrating`. Demotion.StateWriteKeepsIff says which such writes break the exclusion.
- Demotion.RestartIff: for logs of the three moves the migrator logs, past the location stamp, and for traces of demotions: writes and deletes of the entity during the trace are not steps, those logged before it are the re-applied records.
- Startup.ReplayEntities: tiers and the location entries of deleted entities. A write whose collection is unknown is skipped by the code and is no record here; dropped collections, logged location updates and dirty marks are not modelled.
- Startup.GroupsComeBack: for groups never lost before, and a stamp of the location snapshot; a checkpoint record drops what precedes it in the same way.
- Agreement of bytes and location entry with the tier after recovery: the code does not keep it. Recovery copies without transcoding, and `CleanupSource` leaves the entry alone.
- I/O errors of the tier partitions: reads, writes and deletes succeed; a failed one stops the code where a crash would.
- KeyEncoding.CompoundKeyOrder: for plain values only (text without NUL, no NaN, no negative zero), because the order fails beyond them; the two exact conditions are KeyEncoding.TextPrefixIff and KeyEncoding.FloatOrderExact. Nulls have no key at all.
- FieldIndex.FieldIndex.LookupRange: states what the range means for full tuples of plain values only; for other bounds it states the bytes scanned, not which values they select.
- FieldIndex identifiers are byte strings standing for the UTF-8 bytes of entity ids, and stored ids always decode.
- CatchUp.ReplayInto: one loaded index at a time; the code interleaves several, which share nothing. Collection names are taken to contain no colon, so its prefix tests are equality tests.
- CatchUp.CatchUpIff: no rebuild occurs between the snapshot and the crash. The snapshot is taken at one moment; the code dumps the graph and reads the id maps at two (`crates/trondb-core/src/hnsw_snapshot.rs:52-71`). Recovery also drops all records up to the last checkpoint (`crates/trondb-wal/src/recovery.rs:75-91`), which acts as a third stamp.
- Hnsw.HnswIndex.Insert: calls are taken one at a time. The code checks and then maps without a lock, so two concurrent inserts of one id can map two slots.
- Hnsw.HnswIndex.SearchWithEf: when the walk returns enough results, or more than 1024 entries are live, nothing is said about their quality, which is up to the graph library.
- Affinity.ReplayRebuilds: for logged create, add and remove calls; learned groups are not logged, so replay does not restore them, and calls are taken one at a time; Affinity.RacingAddsIff and GroupRaces.RacesAgreeIff take two at once.
- GroupRaces.RacesAgreeIff: two calls at a time, and a replay cap no smaller than theirs.
- Cooccurrence.ScoresBounded: for distinct result lists; a list with repeats can add more than one to a pair, as Cooccurrence.RecordedMass shows.
- Decay.SweepTwice: a fixed edge set, and the same deletes failing at both times.
- DeleteStatement.NamesOwnIff: the text behind FROM, where the ids stand; the words of the lexer other than blanks, line comments, strings, semicolons and the keyword in capitals are arbitrary. Whether a type name can stand in a statement is a parameter of the sweep.
- Timestamps and target node of groups, result modes and warnings, edge metadata: carried along unread.
- Sign generation from the seed: every sign vector is covered. `approx_inner_product_raw` and the byte forms of the int8 and PolarQuant records: direct field copies.
- Float rounding, infinities and NaN outside key encoding; 64-bit overflow of counters and LSNs.
- The executor, the write-ahead log's segments, the query language, planner, optimiser and cost model: they would need their own project.
- The graph library, the storage engine, concurrent map internals and serialisation formats: external.
- Router scores, health, eviction, replication, metrics, audit buffers, protocol conversions: small sums or field copies that would add only easy members.
