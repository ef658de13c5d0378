# Reflink Forest: a verified model

Reflink Forest is a content-addressed Git object store. Objects live as checksummed records in
append-only chunks of numbered *generations*; a catalog maps content IDs to locations, repository
snapshots make objects reachable, and a garbage collector copies what is reachable into a new
generation and retires the old one while readers hold leases. Around it are a durable job queue, a
migration journal, snapshot publication, a derived cache, backups and checkout planning.

This project models those parts in Dafny and proves what the design promises of them, over every
input, every interleaving and every run with failed writes, crashes and restarts.

Modules, from the bottom up:

- `Bytes`, `Core`, `Host`: byte strings and their order, identities, and what a host may do to one
  synchronized write (done, failed without effect, failed with effect).
- `Crc32c`, `CrcStraddle`, `CrcPowers`, `CrcSlips`, `CrcResidue`: CRC-32C with its check value, residue
  and burst guarantee, and exactly which bursts over covered bytes and their stored checksum it misses.
- `RecordFormat`, `RecordBursts`, `ChunkScan`: the record codec, its corruption, the chunk scan.
- `Git`: hex IDs, tree, commit and tag parsing, exact reachability.
- `SnapshotManifest`, `ManifestReader`, `Publication`: the manifest codec, its running decoder, and
  the three-stage visibility protocol.
- `Catalog`, `Mark`, `MarkWitness`, `Compaction`, `Generations`, `GcProtocol`, `GcCycle`: the garbage
  collector, from the batch commit and the mark walk to whole runs of leases, pins, publications,
  retirements and crashes.
- `ImportCycle`, `ImportWitness`, `ReadCycle`, `ReadWitness`: imports between collections, and readers
  between both.
- `JobCodec`, `JobStore`, `Migration`, `ScrubCodec`: the daemon's durable state machines and records.
- `Singleflight`, `CachePressure`: the cache under concurrency and under pressure.
- `PathOrder`, `BackupManifest`, `ColdDescriptor`, `DirectoryDigest`, `Checkout`: paths, checkpoints
  and checkout plans.

How the outside world enters the model:

- SHA-1, SHA-256 and Zstd are function-valued parameters; nothing is assumed of them unless a lemma
  says so (`UniqueContents` and `UniqueOids` assume no collision among stored IDs only).
- A `&mut` reader may answer its n-th call in any way. A compaction writer may fail, may put any other
  record at the location it returns, and is trusted only not to return a location it already used
  and, when the stored record still carries the requested ID, to have stored the record it was given.
- The catalog applies a batch whole or not at all. A file replaced through a temporary file holds the
  old or the new content after a failure; a crash is a failure of the step it interrupts.

Where the code does less than its comments say, the model follows the code:

- The mark walk skips an object already marked through another repository, so coverage needs
  the reachable references to agree on object IDs (`Mark.MarkCoversReachable`,
  `MarkWitness.DisagreeingRepositoryIsSkipped`).
- An import that finds a location writes only an alias, even when a collection left that location
  behind, and publication looks at no alias and no location; a snapshot can so become Ready without
  its object, and the next mark fails (`ImportWitness.DeduplicatedImportLosesObject`,
  `ImportWitness.LatePublicationLosesObject`, `ImportWitness.UnimportedPublicationStopsMark`;
  `ImportCycle.RunServesExactlyWhen` gives the exact condition).
- Two four-byte changes across the end of a payload and its checksum, and seven across a SHA-256 object
  ID and the header checksum, are accepted (`RecordBursts.RecordBurst`, `RecordBursts.HeaderBurst`,
  `RecordBursts.SomeBurstAccepted`).
- A migration checkpoint changes memory before the write (`Migration.LegalIffInSync` says exactly when
  the durable history stays legal), so a file can come to open only at a format it never published
  (`Migration.OpensAtUnpublished`; `Migration.OpensOnlyAtLastPublished` gives the exact condition).
- A checkpoint sorts paths name by name but its encoder wants raw byte order, and a checkout plan's
  entries are documented in raw order but sorted by name (`PathOrder.OrdersAgree` gives the exact condition).
- A zero reserve admits an allocation larger than what is available (`CachePressure.AdmittedExactlyWhen`).
- The reclaim that a refused admission reports is too small when the allocation itself does not fit
  (`CachePressure.RequiredReclaimSuffices`, `CachePressure.RequiredReclaimFallsShort`).
- A manifest may be valid and still be too long for the format, and then never becomes Ready
  (`SnapshotManifest.UnencodableExactly`, `Publication.TooLongStaysIncomplete`,
  `Publication.LongestVersionStaysIncomplete`).
- The scrub decoder does not check four bytes that its encoder leaves zero (`ScrubCodec.ReencodesIffNoStray`).
- A sealed chunk with its footer is not accepted by the backup scan (`ChunkScan.SealedFooterRejected`).

## Model

| member | source | states |
|---|---|---|
| `Crc32c.Calculator.Update` | crates/reflink-forest-format/src/lib.rs:696-703 | The register after the loop is the register fed with the whole input. |
| `Crc32c.Compute` | crates/reflink-forest-format/src/lib.rs:674-708 | The streaming calculator computes the CRC of the bytes. |
| `Crc32c.FeedConcat` | crates/reflink-forest-format/src/lib.rs:696-703 | Feeding a concatenation is feeding its parts in turn, so chunked updates agree. |
| `Crc32c.FeedIsShiftedPack` | crates/reflink-forest-format/src/lib.rs:696-703 | Up to four bytes act on the register as one word, which makes the step linear and invertible. |
| `Crc32c.BurstChangesCrc` | crates/reflink-forest-format/src/lib.rs:674-708 | For inputs of any length, a same-length change confined to four consecutive bytes changes the CRC. |
| `CrcResidue.Residue` | crates/reflink-forest-format/src/lib.rs:674-708 | Any bytes followed by the little-endian bytes of their own CRC have the CRC 0x48674bc7. |
| `CrcResidue.CheckValue` | crates/reflink-forest-format/src/lib.rs:674-708 | The text 123456789 has the published check value 0xe3069283. |
| `CrcResidue.EmptyHasNoChecksum` | crates/reflink-forest-format/src/lib.rs:674-708 | The empty input has the CRC zero. |
| `CrcStraddle.ChecksumDifference` | crates/reflink-forest-format/src/lib.rs:674-708 | Replacing up to four bytes moves the CRC by an amount that depends only on their difference and on how many bytes follow. |
| `CrcStraddle.StraddleMatches` | crates/reflink-forest-format/src/lib.rs:674-708 | An altered stored CRC is the CRC of the altered bytes exactly when the two differences agree. |
| `CrcSlips.WindowMatches` | crates/reflink-forest-format/src/lib.rs:674-708 | The same for one four-byte window over the last covered bytes and the first bytes of the stored field. |
| `CrcSlips.OneBefore` | crates/reflink-forest-format/src/lib.rs:296-297 | Over one covered byte and three of the CRC exactly one non-zero difference goes unnoticed. |
| `CrcSlips.TwoBefore` | crates/reflink-forest-format/src/lib.rs:296-297 | Over two and two, exactly one. |
| `CrcSlips.ThreeBefore` | crates/reflink-forest-format/src/lib.rs:296-297 | Over three and one, none. |
| `CrcSlips.OneBeforeZeros` | crates/reflink-forest-format/src/lib.rs:292-293 | Where the CRC field and thirty reserved bytes are read as zero after the window: exactly one over one covered byte. |
| `CrcSlips.TwoBeforeZeros` | crates/reflink-forest-format/src/lib.rs:292-293 | Exactly three over two. |
| `CrcSlips.ThreeBeforeZeros` | crates/reflink-forest-format/src/lib.rs:292-293 | Exactly three over three. |
| `RecordFormat.Align` | crates/reflink-forest-format/src/lib.rs:631-642 | Rounds up to the next multiple of eight, or reports overflow exactly when adding seven overflows. |
| `RecordFormat.HeaderRoundTrip` | crates/reflink-forest-format/src/lib.rs:354-383 | Decoding an encoded header gives its metadata back. |
| `RecordFormat.HeaderCanonical` | crates/reflink-forest-format/src/lib.rs:354-383 | Every accepted header is the encoding of what was read from it. |
| `RecordFormat.DecodeUndoesEncode` | crates/reflink-forest-format/src/lib.rs:272-353 | Decoding an encoded record with anything appended gives the record and its padded length. |
| `RecordFormat.EncodeUndoesDecode` | crates/reflink-forest-format/src/lib.rs:304-353 | Encoding an accepted record gives back exactly the bytes consumed. |
| `RecordFormat.LengthsAgree` | crates/reflink-forest-format/src/lib.rs:385-405 | The decoder, the header-only and the metadata-only length computations agree. |
| `RecordFormat.FooterCheckAgrees` | crates/reflink-forest-format/src/lib.rs:410-429 | The streaming footer check passes on what the decoder accepts. |
| `RecordFormat.FooterAcceptsExactly` | crates/reflink-forest-format/src/lib.rs:410-429 | It passes on exactly the twenty bytes that an encoder would have written for that checksum and length. |
| `RecordFormat.HeaderErrorMeans` | crates/reflink-forest-format/src/lib.rs:354-383 | Each refusal of a header names a defect that its bytes have. |
| `RecordFormat.RecordErrorMeans` | crates/reflink-forest-format/src/lib.rs:304-353 | Each refusal of a record with a good header names a defect of its length, footer, payload or padding. |
| `RecordBursts.HeaderBurst` | crates/reflink-forest-format/src/lib.rs:354-383 | A header changed anywhere within four consecutive bytes is accepted exactly for seven listed differences across the end of a SHA-256 object ID and the checksum, and then names another object. |
| `RecordBursts.RecordBurst` | crates/reflink-forest-format/src/lib.rs:304-353 | A record changed anywhere within four consecutive bytes, with anything appended, is accepted exactly for those seven and for two listed differences across the end of the payload and its checksum. |
| `RecordBursts.SomeBurstAccepted` | crates/reflink-forest-format/src/lib.rs:304-353 | Every record with a payload has such an accepted change, and it decodes to another payload. |
| `RecordFormat.StreamUniquelyDecodable` | crates/reflink-forest-format/src/lib.rs:272-353 | A concatenation of records can be cut in only one way. |
| `RecordFormat.EncodeRecord` | crates/reflink-forest-format/src/lib.rs:272-303 | The in-place encoder fills its buffer with exactly the encoding, or reports overflow. |
| `RecordFormat.PutHeader` | crates/reflink-forest-format/src/lib.rs:272-303 | Writing the fields, the CRC over a zeroed field, then the patch, leaves the encoded header. |
| `ChunkScan.ChunkHeaderRoundTrip` | crates/reflink-forest-format/src/lib.rs:230-269 | Chunk headers decode to what was encoded. |
| `ChunkScan.ChunkHeaderCanonical` | crates/reflink-forest-format/src/lib.rs:245-269 | Every accepted chunk header is the encoding of what was read. |
| `ChunkScan.ChunkErrorMeans` | crates/reflink-forest-format/src/lib.rs:245-269 | Each refusal of a chunk header names a defect that its bytes have. |
| `ChunkScan.ScannedIffChunk` | crates/reflink-forest-backup/src/lib.rs:1373-1431 | The scan accepts a file exactly when it is a matching header followed by whole records within the size limit. |
| `ChunkScan.VerifyColdChunk` | crates/reflink-forest-backup/src/lib.rs:1373-1431 | The running scan returns true exactly for such files. |
| `ChunkScan.SealedFooterRejected` | crates/reflink-forest-backup/src/lib.rs:1395-1401 | A chunk followed by the 64-byte sealed footer is refused. |
| `Git.HexRoundTrip` | crates/reflink-forest-git/src/lib.rs:676-705 | Parsing printed hex gives the bytes back. |
| `Git.HexOidRoundTrip` | crates/reflink-forest-git/src/lib.rs:676-705 | Parsing a printed object ID gives the ID back. |
| `Git.HexParsesExactly` | crates/reflink-forest-git/src/lib.rs:676-705 | Hex text parses exactly to the bytes that print as it, up to the case of its letters. |
| `Git.HeaderExactly` | crates/reflink-forest-git/src/lib.rs:822-827 | The header is everything before the first blank line, or the whole data. |
| `Git.TreeModes` | crates/reflink-forest-git/src/lib.rs:808-820 | Directories with and without a leading zero, plain and executable files, links and gitlinks are accepted. |
| `Git.NoOtherMode` | crates/reflink-forest-git/src/lib.rs:808-820 | No other mode is, and none longer than six octal digits. |
| `Git.ParseTreeEntries` | crates/reflink-forest-git/src/lib.rs:121-160 | The parsing loop computes the recursive reading of the payload, with the same error. |
| `Git.WrittenTreeParses` | crates/reflink-forest-git/src/lib.rs:121-160 | Every concatenation of well-formed entries parses to those entries in order. |
| `Git.ParsedTreeIsWritten` | crates/reflink-forest-git/src/lib.rs:121-160 | Every payload that parses is such a concatenation. |
| `Git.ParseCommitReferences` | crates/reflink-forest-git/src/lib.rs:770-783 | The header loops compute the recursive reading of the commit header, with the same error. |
| `Git.ParseTagReferences` | crates/reflink-forest-git/src/lib.rs:785-799 | The same for a tag's single target. |
| `Git.WrittenCommitParses` | crates/reflink-forest-git/src/lib.rs:103-117 | A written commit refers to exactly its tree and its parents, in order, whatever its other headers and its message. |
| `Git.WrittenTagParses` | crates/reflink-forest-git/src/lib.rs:785-799 | A written tag refers to exactly its target. |
| `Git.CommitParsesExactly` | crates/reflink-forest-git/src/lib.rs:770-783 | A commit is accepted exactly when its header has one tree line and every tree and parent line spells an ID of its algorithm. |
| `Git.TagParsesExactly` | crates/reflink-forest-git/src/lib.rs:785-799 | A tag refers to a target exactly when its header has one object line and that spells it. |
| `Git.TagTargetIsReached` | crates/reflink-forest-git/src/lib.rs:761-768 | The only edge out of a stored tag, from the bytes as written, leads to its target, which is reachable with it. |
| `Git.CommitIsReachedWhole` | crates/reflink-forest-git/src/lib.rs:761-768 | The edges out of a stored commit lead to exactly its tree and its parents, which are reachable with it. |
| `Git.TreeIsReachedWhole` | crates/reflink-forest-git/src/lib.rs:761-768 | The edges out of a stored tree lead to exactly its entries, gitlinks included, which are reachable with it. |
| `Git.BlobHasNoEdge` | crates/reflink-forest-git/src/lib.rs:761-768 | No edge leads out of a blob. |
| `Git.ReachableObjects` | crates/reflink-forest-git/src/lib.rs:643-663 | Succeeds exactly when every reachable object is readable, and returns each reachable object once and nothing else: with every written tag its target, with every commit its tree and parents, and with every tree its entries. |
| `SnapshotManifest.Validate` | crates/reflink-forest-import/src/lib.rs:163-236 | The checking loops report the first problem in order, and none exactly for valid manifests. |
| `SnapshotManifest.ProblemMeansInvalid` | crates/reflink-forest-import/src/lib.rs:163-236 | There is a problem exactly when the manifest is not valid: sorted distinct names in their namespace, one hash algorithm, balanced counters, distinct non-zero tags. |
| `SnapshotManifest.ProblemIsThere` | crates/reflink-forest-import/src/lib.rs:163-236 | The problem that is reported is one the manifest has, and a manifest without a report has none of the ten. |
| `SnapshotManifest.UnencodableExactly` | crates/reflink-forest-import/src/lib.rs:535-591 | A valid manifest cannot be encoded exactly when its tool version or a name has 65536 bytes or the total exceeds the maximum. |
| `SnapshotManifest.EncodeManifest` | crates/reflink-forest-import/src/lib.rs:535-591 | The pushing encoder produces the specified bytes or the specified error. |
| `SnapshotManifest.DecodeUndoesEncode` | crates/reflink-forest-import/src/lib.rs:535-714 | Decoding an encoded manifest gives it back, so the count pre-checks never reject a valid encoding. |
| `SnapshotManifest.EncodeUndoesDecode` | crates/reflink-forest-import/src/lib.rs:599-714 | Every accepted byte string is the encoding of what was read. |
| `ManifestReader.Reader.Take` | crates/reflink-forest-import/src/lib.rs:793-806 | Takes exactly the requested bytes and advances, or fails as truncated and stays. |
| `ManifestReader.ReadRefs` | crates/reflink-forest-import/src/lib.rs:646-675 | The ref loop reads what the recursive decoder reads, leaves the reader after it, and fails with the same error. |
| `ManifestReader.ReadFields` | crates/reflink-forest-import/src/lib.rs:676-695 | The same for the optional fields. |
| `ManifestReader.DecodeManifestBytes` | crates/reflink-forest-import/src/lib.rs:599-714 | The running decoder equals the canonical decoding, error for error. |
| `Publication.BeginPublication` | crates/reflink-forest-import/src/lib.rs:339-360 | Marks Incomplete once, refuses an invalid manifest and a Ready snapshot. |
| `Publication.ManifestDirectory.WriteManifest` | crates/reflink-forest-import/src/lib.rs:488-510 | The file holds the encoding, or is as before. |
| `Publication.FinishPublication` | crates/reflink-forest-import/src/lib.rs:389-399 | Promotes only if the durable manifest is the expected one. |
| `Publication.ReconcilePublication` | crates/reflink-forest-import/src/lib.rs:406-434 | Promotes whatever valid manifest is durable, if it is marked Incomplete. |
| `Publication.PublishSnapshotManifest` | crates/reflink-forest-import/src/lib.rs:373-381 | The three stages in order, each stopping at its own failure. |
| `Publication.PublicationOutcome` | crates/reflink-forest-import/src/lib.rs:373-434 | Whatever fails, a Ready snapshot and its file are left alone, and success leaves exactly this manifest behind a Ready marker. |
| `Publication.BeginExactlyWhen` | crates/reflink-forest-import/src/lib.rs:339-360 | Beginning succeeds exactly on a valid manifest that is not Ready and can be marked, and leaves it Incomplete. |
| `Publication.PromotionExactlyWhen` | crates/reflink-forest-import/src/lib.rs:415-434 | Only Incomplete is promoted; Ready is reported as such and an absent marker is refused. |
| `Publication.FinishExactlyWhen` | crates/reflink-forest-import/src/lib.rs:389-413 | Finishing refuses every durable manifest but the expected one and otherwise does what reconciling does. |
| `Publication.ReadIffWritten` | crates/reflink-forest-import/src/lib.rs:488-534 | A file is read exactly as the manifest whose encoding it is. |
| `Publication.PromotionIsBacked` | crates/reflink-forest-import/src/lib.rs:406-434 | A promotion turns one Incomplete marker Ready behind a valid durable manifest of that identity; an absent marker is never promoted. |
| `Publication.TooLongStaysIncomplete` | crates/reflink-forest-import/src/lib.rs:373-381 | A valid manifest that is too long leaves its marker Incomplete and no file; without faults every other one is published. |
| `Publication.LongestVersionStaysIncomplete` | crates/reflink-forest-import/src/lib.rs:373-381 | The longest tool version that validation accepts is such a manifest. |
| `Publication.ReadyHasManifest` | crates/reflink-forest-import/src/lib.rs:339-434 | In every run, every Ready snapshot has its own readable manifest of the right identity. |
| `Publication.ReadyManifestIsFixed` | crates/reflink-forest-import/src/lib.rs:339-434 | While a snapshot stays Ready its manifest is never replaced. |
| `Publication.StepKeepsReadyManifest` | crates/reflink-forest-import/src/lib.rs:339-434 | Nothing but a deletion demotes a Ready snapshot. |
| `Publication.NoResurrection` | crates/reflink-forest-import/src/lib.rs:400-434 | An absent snapshot becomes visible only through a new publication of it. |
| `Publication.DeletedIsInvisible` | crates/reflink-forest-index/src/lib.rs:912-983 | Deleting hides exactly one snapshot and leaves every file, alias and location. |
| `Publication.InterruptedIsFinished` | crates/reflink-forest-import/src/lib.rs:362-413 | A publication interrupted after its manifest became durable is finished by reconciliation. |
| `Publication.MarkFindsManifests` | crates/reflink-forest-maintenance/src/lib.rs:495-560 | So the mark phase finds a valid manifest of the right identity behind every Ready root. |
| `Catalog.InMemoryCatalog.Apply` | crates/reflink-forest-index/src/lib.rs:912-983 | The staged copy becomes the catalog exactly when no operation conflicts; otherwise the first conflict is reported and nothing changes. |
| `Catalog.CatalogStore.Commit` | crates/reflink-forest-index/src/lib.rs:1431-1553 | The persistent catalog, which checks pending aliases first and then writes once, decides and changes exactly as the staged copy does, or fails whole. |
| `Catalog.RefusedExactlyWhen` | crates/reflink-forest-index/src/lib.rs:912-983 | A batch is refused exactly when one of its aliases disagrees with the catalog or with an earlier alias of the batch; otherwise it is applied whole, in order. |
| `Catalog.ConflictIsFirst` | crates/reflink-forest-index/src/lib.rs:912-983 | The conflict reported is the first, with the content that is there and the one that was asked for. |
| `Catalog.LastOperationWins` | crates/reflink-forest-index/src/lib.rs:912-983 | After a batch every location, alias, snapshot, pin and the current generation holds what the last operation on it left there. |
| `Catalog.UntouchedStays` | crates/reflink-forest-index/src/lib.rs:912-983 | Whatever no operation of the batch names stays as it was. |
| `Catalog.AliasesNeverChange` | crates/reflink-forest-index/src/lib.rs:966-978 | No accepted batch changes an existing alias. |
| `Mark.MarkWalk.Queue` | crates/reflink-forest-maintenance/src/lib.rs:438-453 | Counts the reference and queues it, or fails past the limit without queueing it. |
| `Mark.MarkWalk.InsertLocation` | crates/reflink-forest-maintenance/src/lib.rs:454-470 | Records a location within the object limit and says whether it is new. |
| `Mark.MarkWalk.IntoSortedLocations` | crates/reflink-forest-maintenance/src/lib.rs:471-480 | Lists every marked ID once, ascending. |
| `Mark.SortedIsUnique` | crates/reflink-forest-maintenance/src/lib.rs:566-571 | Sorted retained references are determined by which they are, not by the order they came in. |
| `Mark.RetainedOrderIsIrrelevant` | crates/reflink-forest-maintenance/src/lib.rs:555-574 | So the whole mark phase does not depend on that order. |
| `Mark.SortedBy` | crates/reflink-forest-maintenance/src/lib.rs:566-571 | Retained references are walked by repository, then hash algorithm, then object ID. |
| `Mark.SeedErrorMeans` | crates/reflink-forest-maintenance/src/lib.rs:516-554 | Each way the manifests can stop a mark names a count that is exceeded or a manifest that is unusable. |
| `Mark.SeedWalk` | crates/reflink-forest-maintenance/src/lib.rs:516-574 | The walk starts with every Ready snapshot's targets in order and the sorted retained references, or fails as specified. |
| `Mark.StartedFacts` | crates/reflink-forest-maintenance/src/lib.rs:516-574 | Those are exactly the root references behind usable manifests; usable manifests within the limits never fail. |
| `Mark.VisitReference` | crates/reflink-forest-maintenance/src/lib.rs:573-632 | One visit changes the walk, or fails, exactly as the step function says. |
| `Mark.VisitKeepsWalking` | crates/reflink-forest-maintenance/src/lib.rs:573-632 | One visit keeps the walk's invariant and its frontier. |
| `Mark.VisitSucceeds` | crates/reflink-forest-maintenance/src/lib.rs:573-632 | On sound objects with room in the limits it never fails, and leaves room. |
| `Mark.PayloadDecodesExactly` | crates/reflink-forest-format/src/lib.rs:458-506 | A payload, plain or compressed, decodes exactly to bytes of the declared length and content ID, and each way to fail is reported as itself. |
| `Mark.StoredObjectIsRead` | crates/reflink-forest-maintenance/src/lib.rs:580-615 | An object stored in the generation, plain or compressed, under its content and native IDs is read back as itself. |
| `Mark.ReadErrorMeans` | crates/reflink-forest-maintenance/src/lib.rs:407-417 | Each failed read names what is wrong with the alias, the location or the record. |
| `Mark.Drain` | crates/reflink-forest-maintenance/src/lib.rs:573-632 | Popping until nothing is pending computes the whole walk, and leaves a complete mark in the current generation. |
| `Mark.CompletedMarkSet` | crates/reflink-forest-maintenance/src/lib.rs:495-635 | The result is the deterministic run's, error for error, listed in order; it lies in the current generation, contains every root, and is closed under references in the repository that first visited each object; a healthy store within the limits is always marked. |
| `MarkWitness.CoverageApplies` | crates/reflink-forest-maintenance/src/lib.rs:495-635 | The hypotheses of coverage are met by an actual store. |
| `Mark.TruthfulAliasesAgree` | crates/reflink-forest-maintenance/src/lib.rs:560-635 | Reachable aliases that name what they hash to, without collisions, agree across repositories. |
| `Mark.MarkCoversReachable` | crates/reflink-forest-maintenance/src/lib.rs:495-635 | With no collision among stored IDs, and if reachable references of one object ID agree and no reachable object with references is shared between hash algorithms, everything reachable from every root is marked. |
| `Mark.TagTargetMarked` | crates/reflink-forest-maintenance/src/lib.rs:619-632 | So the target of a marked tag is marked, from the bytes as the tag was written. |
| `Mark.CommitMarkedWhole` | crates/reflink-forest-maintenance/src/lib.rs:619-632 | With a marked commit its tree and every parent are marked. |
| `Mark.TreeMarkedWhole` | crates/reflink-forest-maintenance/src/lib.rs:619-632 | With a marked tree every entry is marked. |
| `Mark.MarkedWithinLimits` | crates/reflink-forest-maintenance/src/lib.rs:438-470 | A mark that succeeds had usable manifests and kept every limit. |
| `Mark.MarkIsReachable` | crates/reflink-forest-maintenance/src/lib.rs:495-635 | Nothing unreachable is marked. |
| `MarkWitness.DisagreeingRepositoryIsSkipped` | crates/reflink-forest-maintenance/src/lib.rs:566-618 | On an actual store where two repositories share a tree but not its child, the mark succeeds with exactly the first repository's objects and misses a stored object reachable through the second. |
| `Compaction.CheckPlan` | crates/reflink-forest-maintenance/src/lib.rs:679-697 | Accepts exactly the ascending plans inside the source generation. |
| `Compaction.MarkOutputMeetsPlan` | crates/reflink-forest-maintenance/src/lib.rs:471-480 | A completed mark set always passes the plan checks. |
| `Compaction.CopyLive` | crates/reflink-forest-maintenance/src/lib.rs:699-732 | On success every live record has a durable, readable copy in the target generation; nothing stored is lost; only the reader or the writer can make it fail. |
| `Compaction.PublishGeneration` | crates/reflink-forest-maintenance/src/lib.rs:145-160 | One batch switches the catalog; the pointer follows and may lag. |
| `Compaction.PublicationSwitches` | crates/reflink-forest-maintenance/src/lib.rs:145-160 | The batch moves exactly the live IDs and the current generation; unmarked IDs keep their locations. |
| `Compaction.CompactCompletedMarkSet` | crates/reflink-forest-maintenance/src/lib.rs:651-741 | Plan errors exactly for bad plans; every other error leaves the catalog untouched or fully switched, even if the pointer write fails; a good plan over a good reader, writer and host succeeds. |
| `Compaction.SameIdSameObject` | crates/reflink-forest-maintenance/src/lib.rs:699-732 | Two readable copies of one ID are the same object, whatever their codec. |
| `Generations.GenerationManager.constructor` | crates/reflink-forest-maintenance/src/lib.rs:852-862 | Opening removes every abandoned lease and nothing else. |
| `Generations.GenerationManager.Lease` | crates/reflink-forest-maintenance/src/lib.rs:928-945 | A retiring generation is refused; otherwise the lease file names the generation. |
| `Generations.GenerationManager.MayReclaim` | crates/reflink-forest-maintenance/src/lib.rs:947-968 | True exactly when no lease file names the generation. |
| `Generations.GenerationManager.RetireGeneration` | crates/reflink-forest-maintenance/src/lib.rs:1012-1058 | Refuse the active generation, close admission, then move an unleased directory; every failure is old or new. |
| `Generations.RetireExactlyWhen` | crates/reflink-forest-maintenance/src/lib.rs:1012-1058 | Exactly when the directory is moved, which refusal each obstacle meets, and what marker is left behind. |
| `Generations.ReconcileActiveGeneration` | crates/reflink-forest-maintenance/src/lib.rs:165-174 | The pointer follows the catalog and is never believed. |
| `Generations.HasPin` | crates/reflink-forest-maintenance/src/lib.rs:806-818 | Finds a pin exactly when the catalog has one on the generation. |
| `Generations.RetireCompacted` | crates/reflink-forest-maintenance/src/lib.rs:791-826 | Files and result are exactly those of retirement decided by the catalog. |
| `Generations.RetirementIsSafe` | crates/reflink-forest-maintenance/src/lib.rs:791-826 | Whatever moved was published over, unpinned and unleased, with its marker in place; nothing else moves. |
| `Generations.RetirementOutcome` | crates/reflink-forest-maintenance/src/lib.rs:791-826 | Deferred by a pin, deferred by readers, or done: exactly when each. |
| `GcProtocol.StepKeepsInv` | crates/reflink-forest-maintenance/src/lib.rs:791-1058 | Every step of leases, pins, publication, retirement, crash and reopening keeps the invariant. |
| `GcProtocol.MoveIsSafe` | crates/reflink-forest-maintenance/src/lib.rs:1012-1058 | A generation is moved only when it has no lease, no pin and is not current. |
| `GcProtocol.TrashedStaysUnreadable` | crates/reflink-forest-maintenance/src/lib.rs:928-1058 | In every later state of every run no lease names a moved generation, its marker stays, and it is never current. |
| `GcProtocol.LeaseKeepsDirectoryOverRun` | crates/reflink-forest-maintenance/src/lib.rs:829-1058 | While a lease is held its generation's directory stays in place. |
| `GcProtocol.CurrentNeverDecreases` | crates/reflink-forest-maintenance/src/lib.rs:145-174 | The catalog's generation never goes back over a run. |
| `GcProtocol.RetirementIsTwoSteps` | crates/reflink-forest-maintenance/src/lib.rs:791-826 | The retirement method is the protocol's two retirement steps. |
| `GcProtocol.DeferredRetirementCompletes` | crates/reflink-forest-daemon/src/lib.rs:1677-1684 | A deferred retirement completes once readers and pins are gone. |
| `GcProtocol.RestartFreesLeases` | crates/reflink-forest-maintenance/src/lib.rs:852-862 | After a crash and a restart no lease is left, the pointer is back, and a retirement those leases held up completes. |
| `GcProtocol.LeaseGrantedExactlyWhen` | crates/reflink-forest-maintenance/src/lib.rs:928-945 | A lease is granted exactly when no retirement has closed its generation and its file was synchronized. |
| `GcProtocol.CancelledRetirementReadmits` | crates/reflink-forest-maintenance/src/lib.rs:994-1008 | Cancelling a retirement that has not moved its generation lets readers in again. |
| `GcProtocol.EmptiedIsGone` | crates/reflink-forest-maintenance/src/lib.rs:1012-1058 | In every run a generation whose trash was emptied is never a directory again. |
| `GcProtocol.CancellingMovedReadmits` | crates/reflink-forest-maintenance/src/lib.rs:994-1008 | Cancelling after a move would admit a reader to a moved generation, so the documented guard is needed. |
| `GcCycle.RunGcOnce` | crates/reflink-forest-daemon/src/lib.rs:1691-1756 | One cycle leaves the old catalog or one whose every live object moved; files change only by retirement behind the publication; deferral by pin exactly when pinned; a healthy store with a good reader, writer and host is published. |
| `GcCycle.ReachableSurvives` | crates/reflink-forest-daemon/src/lib.rs:1691-1729 | After a cycle every reachable object is found under the same alias in the new generation and is the same object. |
| `GcCycle.LeftBehindIsUnmarked` | crates/reflink-forest-maintenance/src/lib.rs:145-160 | What keeps a location in the source generation is exactly the unmarked. |
| `GcCycle.CycleLeavesMarkSet` | crates/reflink-forest-daemon/src/lib.rs:1691-1729 | The new copies are a completed mark set of the new catalog, so the next cycle can run. |
| `ImportCycle.ImportObjects` | crates/reflink-forest-import/src/lib.rs:896-946 | Indexes a prefix of the objects, all of them without fault or conflict; each is counted as written or deduplicated, and locations grow by exactly those written. |
| `ImportCycle.ImportGrows` | crates/reflink-forest-store/src/lib.rs:406-463 | An import adds the listed aliases and missing locations and changes no existing one. |
| `ImportCycle.ImportKeepsStaleness` | crates/reflink-forest-store/src/lib.rs:422-456 | An import makes no ID stale and refreshes none. |
| `ImportCycle.ImportLocatesExactlyWhen` | crates/reflink-forest-store/src/lib.rs:422-456 | An imported and published snapshot keeps every reachable object in the current generation exactly when none of its IDs has a location that a collection left behind. |
| `ImportCycle.PublicationServesExactlyWhen` | crates/reflink-forest-import/src/lib.rs:373-434 | A publication, of imported objects or not, keeps every Ready snapshot complete and in the current generation exactly when each of its objects has its alias and a current location. |
| `ImportCycle.RunServesExactlyWhen` | crates/reflink-forest-import/src/lib.rs:373-434 | With no collision among stored IDs, and if the roots of each collection agree on their objects: over whole runs of imports, publications, forgotten snapshots, collections and retirements in any order, that condition on each publication is exact for every state. |
| `ImportCycle.ReachableHasDirectory` | crates/reflink-forest-store/src/lib.rs:422-456 | In such runs everything reachable is aliased and lies in a generation whose directory exists. |
| `ImportCycle.MarkProvesLocated` | crates/reflink-forest-maintenance/src/lib.rs:495-635 | A successful mark proves that everything reachable is in the current generation, so a stale import stops every collection. |
| `ImportCycle.CollectionLocates` | crates/reflink-forest-maintenance/src/lib.rs:651-741 | A published collection leaves everything reachable in the new generation. |
| `ImportWitness.DeduplicatedImportLosesObject` | crates/reflink-forest-store/src/lib.rs:422-456 | Import, publish, forget, collect, retire, import and publish again: the Ready snapshot points into a directory that is gone, and the next mark fails. |
| `ImportWitness.LatePublicationLosesObject` | crates/reflink-forest-import/src/lib.rs:339-399 | A collection between an import and its publication does the same. |
| `ImportWitness.UnimportedPublicationStopsMark` | crates/reflink-forest-import/src/lib.rs:373-434 | A snapshot published without its import is Ready, and the next mark fails on its missing alias. |
| `ReadCycle.StepKeepsInv` | crates/reflink-forest-maintenance/src/lib.rs:840-1060 | Imports, publications, collections, leases, retirements, crashes and restarts keep everything a Ready snapshot reaches known, current and readable in a directory that exists. |
| `ReadCycle.LookupSucceeds` | crates/reflink-forest-workspace/src/lib.rs:1137-1150 | In every run whatever a Ready snapshot reaches is found by a lookup, can be read where it says, and lies in a generation that admits leases. |
| `ReadCycle.LeasedReadSucceeds` | crates/reflink-forest-workspace/src/lib.rs:1143-1165 | A reader that looks up, is granted a lease on the generation found and reads under it finds the record that was there at the lookup, whatever happens before the lease and while it is held. |
| `ReadCycle.RefusalMeansCollected` | crates/reflink-forest-maintenance/src/lib.rs:928-960 | A lease is refused only after a collection published another generation since the lookup; an object that is still reachable is then located in the new one. |
| `ReadWitness.LeaseOutlastsCollection` | crates/reflink-forest-maintenance/src/lib.rs:928-1060 | A concrete run: a leased generation is collected and asked to retire, its directory stays while the lease is held and goes once it is dropped. |
| `JobCodec.DecodeUndoesEncode` | crates/reflink-forest-daemon/src/lib.rs:4070-4164 | Decoding an encoded job record gives it back. |
| `JobCodec.EncodeUndoesDecode` | crates/reflink-forest-daemon/src/lib.rs:4109-4164 | Every accepted file is the encoding of what was read. |
| `JobCodec.EncodeJobRecord` | crates/reflink-forest-daemon/src/lib.rs:4070-4107 | The in-place encoder fills its buffer with exactly the encoding, or refuses an invalid or oversized record. |
| `JobCodec.EncodableExactly` | crates/reflink-forest-daemon/src/lib.rs:4070-4107 | Exactly which records can be stored: work to do, an attempt behind every job that left the queue, a diagnostic on failure and none on success, 64 MiB in all. |
| `JobStore.StoredReads` | crates/reflink-forest-daemon/src/lib.rs:2447-2510 | What is written is read back and no other job changes, old or new. |
| `JobStore.ReadIffStored` | crates/reflink-forest-daemon/src/lib.rs:2447-2510 | A file is read exactly as the record whose encoding it is, under its own name. |
| `JobStore.JobStore.EnqueueWithId` | crates/reflink-forest-daemon/src/lib.rs:2202-2216 | Succeeds exactly for a new name, some work and room for a failure, with a queued record that counts from zero; never overwrites. |
| `JobStore.JobStore.Update` | crates/reflink-forest-daemon/src/lib.rs:2349-2418 | A start, success, failure or retry is taken exactly in its own state and if it can be written; every field afterwards; a refused change writes nothing. |
| `JobStore.RetriedIsClaimedAgain` | crates/reflink-forest-daemon/src/lib.rs:2383-2392 | A failed job that is retried can be claimed again, with one attempt more and its old diagnostic. |
| `JobStore.JobStore.FailWith` | crates/reflink-forest-daemon/src/lib.rs:2370-2382 | An empty diagnostic is refused; otherwise the failure is recorded. |
| `JobStore.JobStore.ListRecords` | crates/reflink-forest-daemon/src/lib.rs:2420-2445 | All jobs in identifier order, or an error exactly when some file is unreadable. |
| `JobStore.JobStore.ClaimNextMatching` | crates/reflink-forest-daemon/src/lib.rs:2249-2270 | Claims the first queued match in identifier order, one attempt more, or nothing. |
| `JobStore.JobStore.RecoverStartup` | crates/reflink-forest-daemon/src/lib.rs:2395-2407 | Requeues exactly the running jobs and counts them; a failed write leaves each job old or requeued. |
| `JobStore.RecoveryIsIdempotent` | crates/reflink-forest-daemon/src/lib.rs:2393-2407 | A second recovery finds nothing to do. |
| `JobStore.JobStore.ExecuteNextMatching` | crates/reflink-forest-daemon/src/lib.rs:2295-2334 | Whatever other workers do while the handler runs: with both writes durable a job that is still running is finished as the handler said, no handler result makes the final record unwritable, and a job that is no longer running is left alone. |
| `JobStore.FailureIsRecordable` | crates/reflink-forest-daemon/src/lib.rs:2787-2815 | A running job with room can always record a non-empty bounded diagnostic. |
| `JobStore.BoundedErrorKeeps` | crates/reflink-forest-daemon/src/lib.rs:2787-2815 | A diagnostic that fits is kept as it is, a longer one is cut to exactly what fits. |
| `JobStore.ConcludedMeans` | crates/reflink-forest-daemon/src/lib.rs:2314-2333 | Success clears the diagnostic, an error or a panic leaves its own, and neither touches the work or the count. |
| `JobStore.AttemptsCountClaims` | crates/reflink-forest-daemon/src/lib.rs:2148-2546 | Over a run identity, kind and payload never change and the attempt count is the number of durable claims. |
| `JobStore.EnqueuedCountsFromZero` | crates/reflink-forest-daemon/src/lib.rs:2032-2042 | A job enqueued in the run counts its claims from zero. |
| `JobStore.FailureStaysRecordable` | crates/reflink-forest-daemon/src/lib.rs:2787-2815 | Whatever the handler of a job enqueued during the run reports, on any later attempt, can be recorded durably. |
| `JobStore.SucceededIsFinal` | crates/reflink-forest-daemon/src/lib.rs:2361-2392 | A succeeded job is never touched again. |
| `JobStore.ClaimsAreSeparated` | crates/reflink-forest-daemon/src/lib.rs:2231-2270 | Between two claims of a job it went back to the queue, by retry or recovery. |
| `Migration.DecodeUndoesEncode` | crates/reflink-forest-daemon/src/lib.rs:3983-4052 | Decoding an encoded migration record gives it back. |
| `Migration.EncodeUndoesDecode` | crates/reflink-forest-daemon/src/lib.rs:4013-4052 | Every accepted record is the encoding of what was read. |
| `Migration.MigrationStore.Reopen` | crates/reflink-forest-daemon/src/lib.rs:3665-3697 | Opens exactly when the file is readable and names the configured active format. |
| `Migration.RestartForgets` | crates/reflink-forest-daemon/src/lib.rs:3665-3697 | A restart knows exactly what the file holds, whatever was remembered. |
| `Migration.ReadIffStored` | crates/reflink-forest-daemon/src/lib.rs:4000-4012 | A state file is read exactly as the record whose encoding it is. |
| `Migration.MigrationStore.BeginWithId` | crates/reflink-forest-daemon/src/lib.rs:3741-3770 | Starts exactly when no migration is partial, the target is above the active format and the record was written; memory follows the write. |
| `Migration.MigrationStore.Transition` | crates/reflink-forest-daemon/src/lib.rs:3868-3888 | Moves exactly from the expected phase with room in the counter; memory changes before the write and keeps the change when the write fails. |
| `Migration.MigrationStore.ExecuteOnce` | crates/reflink-forest-daemon/src/lib.rs:3804-3851 | One handler and one checkpoint per turn, and what each turn reports: idle, already published, the failed handler with its record unchanged, or the record one phase on. |
| `Migration.ActiveIsLastPublished` | crates/reflink-forest-daemon/src/lib.rs:3499-3507 | Up to any state of any run, the active format has always been the last one the file published exactly when no begin reached the file while memory held an unrecorded Published phase. |
| `Migration.OpensOnlyAtLastPublished` | crates/reflink-forest-daemon/src/lib.rs:3665-3697 | On exactly the same condition a file with a record has always opened with one configured format, the last one it published. |
| `Migration.FailStopOpensAtLastPublished` | crates/reflink-forest-daemon/src/lib.rs:3652-3697 | Runs whose divergences are all answered by a restart meet that condition. |
| `Migration.OpensAtUnpublished` | crates/reflink-forest-daemon/src/lib.rs:3868-3888 | A begin after a failed checkpoint, without the restart: the file opens only at a format it never published. |
| `Migration.StepKeepsCoherent` | crates/reflink-forest-daemon/src/lib.rs:3740-3888 | Any failures keep memory and file equal, ahead or behind by one migration. |
| `Migration.LegalIffInSync` | crates/reflink-forest-daemon/src/lib.rs:3868-3888 | A durable change is a legal step exactly when memory agreed with the file. |
| `Migration.PartsExactlyWhen` | crates/reflink-forest-daemon/src/lib.rs:3868-3888 | Which outcomes of which operations make memory and file part. |
| `Migration.FailedWriteSkipsPhase` | crates/reflink-forest-daemon/src/lib.rs:3881-3886 | Going on after a failed checkpoint can publish without a durable validation phase. |
| `Migration.PublishedWasVerified` | crates/reflink-forest-daemon/src/lib.rs:3791-3851 | In every run a Published record, in memory or on disk, is of a migration whose external switch was made. |
| `Migration.RestartsKeepHistoryLegal` | crates/reflink-forest-daemon/src/lib.rs:3652-3697 | If every divergence is answered by a restart the whole durable history is legal. |
| `Migration.CountIsTag` | crates/reflink-forest-daemon/src/lib.rs:3470-3479 | In every run the transition count, in memory and on disk, is the phase's tag. |
| `Migration.ActiveNeverFalls` | crates/reflink-forest-daemon/src/lib.rs:3499-3507 | In every run the durable active format never falls. |
| `Migration.FailStopStep` | crates/reflink-forest-daemon/src/lib.rs:3499-3507 | In runs whose divergences are answered by a restart the active format rises exactly where a migration is published. |
| `ScrubCodec.StrayBytesAccepted` | crates/reflink-forest-daemon/src/lib.rs:3309-3400 | A sealed record reads back whatever the four bytes no field owns hold. |
| `ScrubCodec.ReencodesIffNoStray` | crates/reflink-forest-daemon/src/lib.rs:3352-3400 | An accepted record is its own encoding exactly when those bytes, which the decoder does not check, are zero. |
| `Singleflight.StepKeepsInv` | crates/reflink-forest-cache/src/lib.rs:1300-1370 | Every step of any number of callers keeps the flight table consistent. |
| `Singleflight.OneLeader` | crates/reflink-forest-cache/src/lib.rs:1315-1331 | At most one caller leads a content ID at a time. |
| `Singleflight.LeadsOnce` | crates/reflink-forest-cache/src/lib.rs:1333-1337 | No caller leads twice, so its one closure suffices. |
| `Singleflight.SuccessIsVerified` | crates/reflink-forest-cache/src/lib.rs:1306-1314 | A flight succeeds, and a follower returns success, only on a verified entry. |
| `Singleflight.ReadStartsUnverified` | crates/reflink-forest-cache/src/lib.rs:1668-1683 | Only a leader that has just found no verified entry turns to the cold record. |
| `Singleflight.ReadsAreSeparated` | crates/reflink-forest-cache/src/lib.rs:1668-1708 | The cold record is read again only if the earlier read failed or its verified entry was lost since. |
| `Singleflight.WaiterIsNotForgotten` | crates/reflink-forest-cache/src/lib.rs:1338-1369 | A waiter's flight is over, or its leader can move on, or the leader unwound. |
| `Singleflight.ReturnsFailureExactlyWhen` | crates/reflink-forest-cache/src/lib.rs:1300-1370 | In every run a caller returns a failure exactly when a check or read of its own failed, never because a flight it waited for did. |
| `Singleflight.WokenChecksAgain` | crates/reflink-forest-cache/src/lib.rs:1305-1314 | A woken waiter checks again: it succeeds on a verified entry and joins again without one. |
| `Singleflight.EntriesChangeOnly` | crates/reflink-forest-cache/src/lib.rs:1668-1708 | No caller touches a verified entry or another ID, or stores bytes that do not verify. |
| `Singleflight.UnwoundBlocks` | crates/reflink-forest-cache/src/lib.rs:1333-1358 | A leader that unwinds leaves its flight open for ever, and that ID is not read again. |
| `CachePressure.AdmittedExactlyWhen` | crates/reflink-forest-cache/src/lib.rs:133-195 | Exactly when admission succeeds, including the zero-reserve family. |
| `CachePressure.AdmittedKeepsReserves` | crates/reflink-forest-cache/src/lib.rs:133-195 | With non-zero reserves admission is exactly projected plus reserve within what is available. |
| `CachePressure.RefusalNamesReserves` | crates/reflink-forest-cache/src/lib.rs:133-195 | A refusal names exactly the reserves that would be broken, and by how much each. |
| `CachePressure.FreeingAdmitsExactlyWhen` | crates/reflink-forest-cache/src/lib.rs:133-195 | Freeing an amount in both domains admits exactly when it covers what each refusing domain lacks. |
| `CachePressure.LessThanRequiredIsRefused` | crates/reflink-forest-cache/src/lib.rs:229-244 | No amount below the reported shortfall is ever enough. |
| `CachePressure.RequiredReclaimSuffices` | crates/reflink-forest-cache/src/lib.rs:229-244 | The reported shortfall is enough exactly when the allocation fits in each refusing domain or the other domain's shortfall covers it. |
| `CachePressure.RequiredReclaimFallsShort` | crates/reflink-forest-cache/src/lib.rs:229-244 | An allocation that does not fit is reported a shortfall that is not enough. |
| `CachePressure.Cache.ScanFanout` | crates/reflink-forest-cache/src/lib.rs:1010-1047 | Every leaf in ContentId order and what they add up to, or overflow. |
| `CachePressure.Cache.EvictTo` | crates/reflink-forest-cache/src/lib.rs:954-993 | Evicts exactly the shortest ContentId-ordered prefix that reaches the target; evicted and left add up to what was there. |
| `CachePressure.ShortestIsUnique` | crates/reflink-forest-cache/src/lib.rs:954-993 | That prefix is unique, so eviction is deterministic. |
| `CachePressure.AdmitLocked` | crates/reflink-forest-cache/src/lib.rs:499-550 | Nothing is evicted unless the first reading refuses; then exactly the leaves that free the required bytes. Success means that the last reading taken keeps every non-zero reserve; after an eviction the second reading alone admits, is missing or is reported as still unmet with both readings. |
| `PathOrder.JoinSplit` | crates/reflink-forest-backup/src/lib.rs:1184-1199 | Joining the names between the slashes gives the path back. |
| `PathOrder.SplitJoin` | crates/reflink-forest-checkout/src/lib.rs:215-244 | Splitting joined names gives the names back. |
| `PathOrder.OrdersAgree` | crates/reflink-forest-backup/src/lib.rs:590-593 | Byte order agrees with path order on exactly the pairs that do not clash. |
| `BackupManifest.EncodeManifest` | crates/reflink-forest-backup/src/lib.rs:1048-1085 | The encoder accepts exactly valid, strictly increasing paths within the limits. |
| `BackupManifest.DecodeManifest` | crates/reflink-forest-backup/src/lib.rs:1093-1151 | The offset-advancing decoder computes the recursive reading. |
| `BackupManifest.DecodeUndoesEncode` | crates/reflink-forest-backup/src/lib.rs:1048-1151 | Decoding an encoded manifest gives its files back, count pre-check included. |
| `BackupManifest.EncodeUndoesDecode` | crates/reflink-forest-backup/src/lib.rs:1093-1151 | Every accepted manifest is the encoding of what was read. |
| `BackupManifest.AcceptedIffNoClash` | crates/reflink-forest-backup/src/lib.rs:590-593 | A list sorted as paths passes the encoder's order check exactly when no two of its paths clash. |
| `BackupManifest.CheckpointManifest` | crates/reflink-forest-backup/src/lib.rs:587-595 | A checkpoint of a tree writes its manifest exactly when every path is valid, it fits and no two files clash; it reads back as the sorted inventory. |
| `BackupManifest.DirectoryBesideDottedFile` | crates/reflink-forest-backup/src/lib.rs:590-593 | A directory `foo` holding a file, beside `foo.txt`, clashes. |
| `ColdDescriptor.WriteDescriptor` | crates/reflink-forest-backup/src/lib.rs:1433-1474 | The encoder produces the specified bytes exactly for valid descriptors. |
| `ColdDescriptor.ReadDescriptor` | crates/reflink-forest-backup/src/lib.rs:1480-1551 | The decoding loop computes the recursive reading. |
| `ColdDescriptor.DecodeUndoesEncode` | crates/reflink-forest-backup/src/lib.rs:1433-1551 | Decoding an encoded descriptor gives it back. |
| `ColdDescriptor.EncodeUndoesDecode` | crates/reflink-forest-backup/src/lib.rs:1480-1551 | Every accepted descriptor is the encoding of what was read. |
| `ColdDescriptor.ChunksAreOrdered` | crates/reflink-forest-backup/src/lib.rs:1480-1551 | A valid descriptor lists every chunk once, in order of generation and number. |
| `DirectoryDigest.ListStreamSplits` | crates/reflink-forest-backup/src/lib.rs:912-958 | No directory stream is a prefix of another, for trees of any depth and width. |
| `DirectoryDigest.StreamIsMeaning` | crates/reflink-forest-backup/src/lib.rs:905-958 | Two listings feed the digest the same bytes exactly when they are the same tree, in whatever order they were listed. |
| `DirectoryDigest.HashEntries` | crates/reflink-forest-backup/src/lib.rs:912-958 | The recursive walk feeds exactly the canonical stream, and fails exactly on a special node or an overlong name. |
| `DirectoryDigest.HashDirectory` | crates/reflink-forest-backup/src/lib.rs:905-911 | The digest's input is the magic followed by that stream. |
| `DirectoryDigest.ExampleStream` | crates/reflink-forest-backup/src/lib.rs:905-958 | The stream of a file beside an empty directory, byte for byte. |
| `Checkout.ParseIsExact` | crates/reflink-forest-checkout/src/lib.rs:215-244 | A parsed path is well shaped and written back as it was. |
| `Checkout.WrittenParses` | crates/reflink-forest-checkout/src/lib.rs:215-275 | Every well-shaped path parses from its written form. |
| `Checkout.PlanBuilder.Add` | crates/reflink-forest-checkout/src/lib.rs:779-814 | Admits a path exactly when it is apart from every planned one and within the limits, and which refusal every other one meets. |
| `Checkout.AddAll` | crates/reflink-forest-checkout/src/lib.rs:779-814 | Adding a list succeeds exactly when the list is acceptable. |
| `Checkout.AcceptableIsOrderless` | crates/reflink-forest-checkout/src/lib.rs:779-814 | Acceptability does not depend on the order of the list. |
| `Checkout.Finish` | crates/reflink-forest-checkout/src/lib.rs:816-831 | Directories are exactly the strict parents of the entries; both lists are ascending. |
| `Checkout.ParentComesFirst` | crates/reflink-forest-checkout/src/lib.rs:816-831 | Each directory's parent is listed before it, and no directory twice. |
| `Checkout.RawOrderIffNoClash` | crates/reflink-forest-checkout/src/lib.rs:369-377 | Entries are in raw byte order exactly when no two of them clash. |
| `Checkout.Materialize` | crates/reflink-forest-checkout/src/lib.rs:431-480 | No parent is missing and no name is taken: the finished tree is the plan with its blobs, executable bits, link targets and gitlink directories, unless an entry cannot be written or the host refuses, and the error says which. |
| `Checkout.CheckOut` | crates/reflink-forest-checkout/src/lib.rs:431-831 | From a list of paths to the tree: exactly the acceptable lists are planned, and on a willing host exactly those with writable entries become exactly their tree. |

## Left out

- Filesystem calls, locks, permissions, reflinks and descriptor walks: only atomic replacement, exclusive sections and old-or-new failures are kept.
- SHA-1, SHA-256 and Zstd internals, and streaming payload decoding in bounded buffers: the payload decoder is modelled on whole values.
- `reflink-forest-store` beyond indexing an appended record, and the keys, encodings and location rebuild of `reflink-forest-index`: the catalog is maps changed by a batch, chunk readers and writers are the behaviours described above.
- Workspace manifests and workspace publication: I/O orchestration around the codecs and protocols modelled here.
- Scrub scheduling beyond its record: a two-state timer that would only add easy members.
- The socket protocol, peer credentials, status rendering, telemetry and metrics.
- The mirror of jobs in the catalog, and enqueueing under a random identifier: the store is modelled with caller-chosen identifiers.
- Temporary files of the job and migration stores: a write is atomic, so none is ever listed.
- `GcProtocol.StepKeepsInv`: cancelling the retirement of a generation that was already moved is excluded as the documentation of cancellation demands; `GcProtocol.CancellingMovedReadmits` shows it must be.
- `GcProtocol.DeferredRetirementCompletes`: a retirement retried after a crash that followed the rename is not claimed to succeed, because the code reports an error there.
- `CachePressure.Cache.EvictTo`: leaves published, changed or removed by others during an eviction are not modelled.
- `Singleflight.ReadsAreSeparated`: a leader's one retry after a racing publisher is part of its single publish step.
- `DirectoryDigest.HashEntries`: a tree that changes while it is being listed is not modelled.
