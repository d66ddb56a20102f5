# StarConverter: crash-safe conversion core, modelled and verified

StarConverter turns an exFAT image into an NTFS one, or the reverse, in place or into a copy. This
project models the parts that must survive a crash or move bytes, and proves that they do.

- **Capsule log** (`CapsuleHeader`, `CapsuleLog`, `CapsuleScanner`, `CapsuleRecovery`, `CapsuleFraming`,
  `CapsuleLayout`, `CapsuleHistory`): the append-only log whose scanner looks for headers at every byte.
- **Capsule store** (`StoreModel`, `CapsuleStore`, `StoreSafety`): the file behind the log, with every
  fault boundary of an append, reconciliation, and reopening after a crash.
- **Conversion transaction** (`RollbackPlan`, `Conversion`, `ConversionProtocol`, `NarrowedLimits`,
  `Executor`, `CoupledRuns`, `SampleRun`): nine phases, the evidence each needs, the write groups, their before-images, and runs
  of image and store together.
- **Exporter** (`Payloads`, `ExportPlan`, `CandidateExport`, `PayloadView`, `ExportExamples`, `BoundEscrow`): the copy made
  beside the source, the virtual view it is checked against, and the escrow envelope bound to it.
- **Shared ground** (`Results`, `Bytes`, `Sorting`, `Images`, `Overlays`, `Preimage`, `Extents`).

Code that changes state step by step is modelled by classes and loops, each proved equal to a
specification function; the properties are then lemmas about those functions. CRC-32 and SHA-256 are
function values (`Hashes`), so every result holds for any checksum and any digest, and none depends on
collisions not happening. The scanner is stated over an arbitrary window decoder (`Codec`). Faults are
data: `StoreModel.Faults` says how far each positional call gets and which boundary fails, and a torn
write group is any image that differs only inside the group.

## What the code does that its documentation does not say

- `find_candidates` slices eight bytes at position 0 of a nonempty buffer shorter than eight bytes, which
  panics. A first append torn within its first seven bytes therefore panics instead of being refused
  (`CapsuleRecovery.TornAppendExactness`; error `Panicked`).
- An append can succeed and leave a capsule that no scan accepts (`CapsuleHistory.AppendedButUnscannable`);
  `CapsuleLayout.RoundTripExactly` gives the exact condition, and the coordinator's own payload lengths
  always meet it (`CapsuleLayout.ProductionNeverCollides`).
- The rollback executor says it accepts the plan's conservative rollback overlays, but its list omits the
  relocation overlay. A rollback from `Reserved` with relocations planned is always refused
  (`Executor.RollbackAuthorizedExactly`), until `Relocating` is recorded.
- `record_phase` and `record_rollback` truncate the torn tail before appending, and leave it truncated when
  the append is then refused. No tear of the coordinator's own appends reaches that state while the limits
  stay the same (`ConversionProtocol.RunsNeverTruncateInVain`); a capsule torn under wider limits does
  (`NarrowedLimits.TruncationStays`).
- The exporter's view answers a read that runs past the end of a relocation destination from the raw
  source (`ExportExamples.StraddlingReadDiffers`). `PayloadView.ViewAgreesExactly` says exactly which reads
  are the candidate's.
- A stream to be materialized is read one whole extent at a time, so an extent longer than the reader's cap
  fails instead of being read in chunks (`Payloads.ReconstructSucceeds`, `ExportExamples.LongExtentFails`).

## Reading the main results

`SealedFrom(r, source)` says that the rollback plan `r` was accepted and its before-images are the
source's own bytes, which the locked preparation checks byte by byte
(`crates/starconverter-core/src/conversion/regular_image.rs:351-420`). `Started` is the state right
after the first checkpoint is durable (`CoupledRuns.BeginStarts`). `SampleRun.SampleRunStarts` meets both,
and every other hypothesis of the run theorems, with one concrete plan and capsule. `RoundTrips` holds of
the real codec for any hashes (`CapsuleFraming.CapsuleCodecRoundTrips`). `Exportable` says that every check
of an export passed and every stream could be reconstructed; `ExportExamples.SampleExportable` meets it.

## Model

| member | source | states |
|---|---|---|
| `CapsuleHeader.DecodeOfEncode` | crates/starconverter-core/src/capsule.rs:663-722 | Decoding an encoded header returns it, if and only if its previous offset is not the all-ones sentinel that stands for "none". |
| `CapsuleHeader.EncodeOfDecode` | crates/starconverter-core/src/capsule.rs:680-722 | Whatever 136 bytes decode re-encode to exactly themselves, so no header has two encodings. |
| `CapsuleHeader.EncodeHeaderBytes` | crates/starconverter-core/src/capsule.rs:663-678 | Filling the zeroed buffer field by field, checksum last, yields the header encoding. |
| `CapsuleLog.IndexSpec` | crates/starconverter-core/src/capsule.rs:526-604 | The candidate index exists exactly when no start is claimed by two headers, no claimed length overflows and the buffer is at least eight bytes; it then lists exactly the claims, and an ambiguity error names a start that two different headers claim. |
| `CapsuleScanner.FindCandidatesLoop` | crates/starconverter-core/src/capsule.rs:526-559 | The byte-by-byte search over the buffer finds the candidates of the specification, in its order and with its errors. |
| `CapsuleScanner.MergeCandidates` | crates/starconverter-core/src/capsule.rs:400-421 | Merging candidates into the map by start gives the specified index or the specified ambiguity. |
| `CapsuleScanner.ScanCapsuleImpl` | crates/starconverter-core/src/capsule.rs:382-479 | The scanning loop returns exactly the specified view or error, strict and recovering alike. |
| `CapsuleScanner.CapsuleBuffer.AppendGeneration` | crates/starconverter-core/src/capsule.rs:278-354 | Appending either extends the caller's buffer by one framed generation or leaves it untouched. |
| `CapsuleRecovery.TruncationIndexes` | crates/starconverter-core/src/capsule.rs:526-604 | Every candidate of a truncation is a candidate of the whole, and those that fit the truncation remain: truncating never creates an ambiguity. |
| `CapsuleRecovery.ScanPrefixMonotone` | crates/starconverter-core/src/capsule.rs:400-471 | Of two strictly accepted buffers, one a prefix of the other, the shorter one's generations are a prefix of the longer one's; equal counts mean equal buffers. |
| `CapsuleRecovery.RecoveryIsStrictOnPrefix` | crates/starconverter-core/src/capsule.rs:375-479 | Whenever recovery succeeds, a strict scan of the first `validated_bytes` bytes succeeds with the same view, header flags included. |
| `CapsuleRecovery.StrictImpliesRecovered` | crates/starconverter-core/src/capsule.rs:364-479 | Whenever the strict scan succeeds, recovery returns the same view. |
| `CapsuleRecovery.TornAppendExactness` | crates/starconverter-core/src/capsule.rs:382-524 | For every cut strictly inside the newest generation the strict scan fails; recovery panics below eight bytes, otherwise succeeds exactly when the cut is inside the leading header or that header is intact, and then returns exactly the old generations and the old length. |
| `CapsuleFraming.AppendThenScan` | crates/starconverter-core/src/capsule.rs:278-354 | After a successful append either scan succeeds exactly when the framing is unambiguous, and then shows what was there plus the appended generation. |
| `CapsuleFraming.AppendThenTear` | crates/starconverter-core/src/capsule.rs:481-524 | Tearing an append anywhere: recovery succeeds exactly when the remainder can be indexed, and returns exactly what was there before, even if the whole would not scan. |
| `CapsuleFraming.AppendAllThenScan` | crates/starconverter-core/src/capsule.rs:278-479 | Scanning after any sequence of successful appends succeeds exactly under unambiguous framing and yields exactly the appended identities, phases and payloads, numbered and linked. |
| `CapsuleLayout.RoundTripExactly` | crates/starconverter-core/src/capsule.rs:561-604 | For headers that decode only where one was written: the capsule scans if and only if no two trailing-copy readings of leading headers claim the same start, a condition on the payload lengths alone. |
| `CapsuleLayout.ProductionNeverCollides` | crates/starconverter-core/src/conversion.rs:1181-1186 | A first payload of any length followed by forty-byte checkpoints never meets that collision. |
| `CapsuleLayout.ProductionRoundTrip` | crates/starconverter-core/src/conversion.rs:768-790 | So, when no header decodes off the written frames, a capsule of that shape scans back to exactly what was appended. |
| `CapsuleLayout.HeaderRedundancy` | crates/starconverter-core/src/capsule.rs:561-604 | When no header decodes off the written frames: damaging at most one header copy of each generation, creating no new decodable window, leaves the scanned generations and payloads unchanged, with the flags telling which copies survived. |
| `CapsuleHistory.PhaseHistoryShape` | crates/starconverter-core/src/capsule.rs:606-648 | Every accepted capsule is numbered from zero, its phases are a prefix of the eight-step chain optionally ended by `RolledBack`, and it has at most eight generations. |
| `CapsuleHistory.AppendedButUnscannable` | crates/starconverter-core/src/capsule.rs:586-604 | Three appends with payload lengths 1, 1 and 274 can all succeed (shown for one checksum and digest) and leave a capsule no scan accepts. |
| `CapsuleHistory.CollidingNeverScans` | crates/starconverter-core/src/capsule.rs:586-604 | Whatever the checksum, digest, identity and limits, if those three appends succeed the capsule they write never scans. |
| `CapsuleStore.DiskFile.WriteAllAt` | crates/starconverter-core/src/capsule_store.rs:1057-1074 | The positional write loop, at any offset, lands a prefix of the buffer, all of it exactly when it reports completion, and changes nothing else. |
| `CapsuleStore.DiskFile.ReadExact` | crates/starconverter-core/src/capsule_store.rs:1014-1031 | The positional read loop, at any offset, returns the requested bytes or fails; it never returns a short read. |
| `CapsuleStore.Store.PersistSuffixWithFaults` | crates/starconverter-core/src/capsule_store.rs:497-570 | Writing, flushing, rereading and adopting a suffix: the whole new state and answer for every combination of faults. |
| `CapsuleStore.Store.AppendWithFaults` | crates/starconverter-core/src/capsule_store.rs:338-366 | One append: the whole new state and answer for every combination of faults, nothing written unless the update is the old capsule plus one generation. |
| `CapsuleStore.Store.RestoreVerifiedPrefix` | crates/starconverter-core/src/capsule_store.rs:414-495 | One reconciliation: the whole new state and answer for every combination of faults. |
| `CapsuleStore.RepairTornFile` | crates/starconverter-core/src/capsule_store.rs:622-656 | Truncating to the recovered prefix, flushing, rereading and rescanning, as a function of file and faults. |
| `CapsuleStore.ResumeStore` | crates/starconverter-core/src/capsule_store.rs:223-320 | Reopening a capsule file, as a function of file and faults. |
| `StoreSafety.AppendOutcome` | crates/starconverter-core/src/capsule_store.rs:338-366 | After an append, whatever failed, the file is the old capsule plus a prefix of the suffix, the memory is the old or the whole new capsule, and success means both are new and the store unpoisoned. |
| `StoreSafety.RestoreOutcome` | crates/starconverter-core/src/capsule_store.rs:414-495 | Reconciliation ends unpoisoned with file and memory both old (partial suffix) or both new (complete suffix), or still poisoned with nothing but a torn suffix lost; it cannot fail unless the system does. |
| `StoreSafety.AdoptionIsSound` | crates/starconverter-core/src/capsule_store.rs:435-448 | Whatever extends the remembered bytes, adoption only ever takes the same capsule or the next one. |
| `StoreSafety.ResumeOutcome` | crates/starconverter-core/src/capsule_store.rs:223-320 | Reopening after any cut of an append yields exactly the old or exactly the new capsule, and a partial append always the old. |
| `StoreSafety.RunSafety` | crates/starconverter-core/src/capsule_store.rs:338-570 | Over every run of appends, restores, poisonings and crashes, each failing anyhow: an unpoisoned store's file is its memory and scans strictly, and nothing once believed durable is lost. |
| `Sorting.NeighboursIffAll` | crates/starconverter-core/src/extent.rs:281-320 | For nonempty ranges sorted by start, adjacent pairs are disjoint exactly when all pairs are. |
| `Overlays.OverlaySpec` | crates/starconverter-core/src/overlay.rs:64-141 | An accepted overlay is a sorted permutation of its writes, each nonempty and inside the image, and every two of them disjoint. |
| `Images.ApplyAllAnyOrder` | crates/starconverter-core/src/executor.rs:794-855 | Disjoint writes give the same image in any order and with repetitions. |
| `Preimage.CaptureBeforeImages` | crates/starconverter-core/src/preimage.rs:121-227 | The sort, the prior/total loop and the chunked reads compute the specified capture or error; the read cap does not appear in the result. |
| `Preimage.CaptureSpec` | crates/starconverter-core/src/preimage.rs:121-227 | Captured writes are sorted, pairwise disjoint, carry the image's own bytes and are range for range a permutation of the replacements. |
| `Preimage.CaptureInverse` | crates/starconverter-core/src/preimage.rs:121-227 | Applying the replacements and then the captured writes, each in any order, gives back the original image. |
| `Preimage.CaptureComplete` | crates/starconverter-core/src/preimage.rs:121-227 | Capture succeeds exactly for the collections within the count limit and the byte limit whose writes are nonempty, in the image and pairwise disjoint. |
| `Extents.BuildGraph` | crates/starconverter-core/src/extent.rs:57-106 | The validating, sorting and accounting loops compute the specified graph or error. |
| `Extents.LogicalCheckExact` | crates/starconverter-core/src/extent.rs:281-298 | Comparing sorted neighbours accepts exactly the collections in which no two extents of one stream share a logical byte. |
| `Extents.PhysicalCheckExact` | crates/starconverter-core/src/extent.rs:300-320 | Comparing sorted neighbours accepts exactly the collections in which no two placed extents share a physical byte. |
| `Extents.PhysicalTotalFits` | crates/starconverter-core/src/extent.rs:57-106 | The physical total of accepted extents never exceeds the volume, so physical accounting cannot overflow. |
| `Extents.BuildExact` | crates/starconverter-core/src/extent.rs:57-106 | The graph is built exactly for acceptable collections whose sparse total is countable, with the same extents and exact totals. |
| `Extents.BuildOrderIndependent` | crates/starconverter-core/src/extent.rs:57-106 | Two orders of the same extents build the same graph, or both fail. |
| `RollbackPlan.PrepareRollbacks` | crates/starconverter-core/src/conversion.rs:386-461 | Sorting the write sets in place, pairing them and sealing the overlays computes the specified plan or error. |
| `RollbackPlan.PairingExact` | crates/starconverter-core/src/conversion.rs:2011-2041 | Pairing succeeds exactly when forward and rollback ranges are equal as multisets. |
| `RollbackPlan.MaskExact` | crates/starconverter-core/src/conversion.rs:2142-2171 | The before-images restored from a phase cover exactly the bytes of the groups up to and including the one run from it. |
| `RollbackPlan.MaskGrows` | crates/starconverter-core/src/conversion.rs:682-698 | Every byte masked at an open phase is masked at every later open phase. |
| `RollbackPlan.GroupsApart` | crates/starconverter-core/src/conversion.rs:432-461 | In a sealed plan no byte of the image belongs to two write groups. |
| `RollbackPlan.RollbackRestores` | crates/starconverter-core/src/conversion.rs:1045-1076 | From any open phase, whatever the groups so far and a torn next one left behind, the phase's before-images give back exactly the source. |
| `RollbackPlan.RollbackRestartable` | crates/starconverter-core/src/conversion.rs:1036-1076 | A rollback torn anywhere leaves an image the same rollback still restores to exactly the source. |
| `Conversion.BeginInPlace` | crates/starconverter-core/src/conversion.rs:768-786 | Starting a capsule in the caller's buffer: the new contents and the answer in every case. |
| `Conversion.RecordPhaseInPlace` | crates/starconverter-core/src/conversion.rs:860-903 | Recording a phase in the caller's buffer: the new contents and the answer in every case, including the truncation a refused append leaves. |
| `Conversion.RecordRollbackInPlace` | crates/starconverter-core/src/conversion.rs:1083-1117 | Recording a rollback in the caller's buffer: the new contents and the answer in every case. |
| `Conversion.NextPhaseRefinesMayFollow` | crates/starconverter-core/src/conversion.rs:2183-2194 | The capsule lets exactly the coordinator's next phase follow, or a rollback from an open phase. |
| `Conversion.MaskIsRollback` | crates/starconverter-core/src/conversion.rs:682-698 | The observation mask, the rollback intent and the phase's before-images are one set of writes; rollback is refused exactly past the acceptance boundary. |
| `ConversionProtocol.TornTailInvisible` | crates/starconverter-core/src/conversion.rs:869-902 | Recording on a capsule with a torn newest append gives the same answer, and on success byte for byte the same capsule, as recording on the clean prefix. |
| `ConversionProtocol.TornTailInvisibleToRollback` | crates/starconverter-core/src/conversion.rs:1083-1117 | The same for the rollback checkpoint. |
| `ConversionProtocol.RefusalTruncatesExactly` | crates/starconverter-core/src/conversion.rs:869-902 | A refused recording leaves the capsule unchanged exactly when some check failed or there was no torn tail; otherwise the tail stays dropped. |
| `ConversionProtocol.RollbackRefusalTruncatesExactly` | crates/starconverter-core/src/conversion.rs:1083-1117 | The same for a refused rollback checkpoint. |
| `ConversionProtocol.RetryNeverTruncatesInVain` | crates/starconverter-core/src/conversion.rs:869-902 | After any tear of the coordinator's own append, under unchanged limits, the next checkpoint is recorded or leaves the torn capsule alone. |
| `ConversionProtocol.RunsNeverTruncateInVain` | crates/starconverter-core/src/conversion.rs:869-902 | So along every run a refused recording leaves the capsule exactly as it was. |
| `NarrowedLimits.TruncationStays` | crates/starconverter-core/src/conversion.rs:895-902 | Under narrower limits it does not: a capsule torn under wider ones loses its tail to a forward and to a rollback checkpoint that are both refused. |
| `ConversionProtocol.CheckPhaseExact` | crates/starconverter-core/src/conversion.rs:860-895 | A phase passes the checks exactly when it is the next one and the observation, completion, staging and verification evidence are each exactly what that phase demands. |
| `ConversionProtocol.CheckRollbackExact` | crates/starconverter-core/src/conversion.rs:1083-1107 | A rollback passes the checks exactly from an open phase, over the source's own digest, with exactly the digest of the phase's before-images. |
| `ConversionProtocol.BackupBootAuthorizedExactly` | crates/starconverter-core/src/conversion.rs:1020-1034 | Backup-boot writes are authorized exactly at `TargetStaged`, over the source, on staging evidence equal to the plan in every digest, and then for exactly the planned writes. |
| `ConversionProtocol.TerminalRefusesEverything` | crates/starconverter-core/src/conversion.rs:2183-2194 | After `Finalized` or `RolledBack` every recording is refused and the capsule left as it was, whatever the evidence. |
| `ConversionProtocol.ProtocolSafety` | crates/starconverter-core/src/conversion.rs:860-903 | Over every run of recordings and torn newest appends, the checkpoints recovery finds are exactly the durable ones, each recorded on the evidence its phase demands. |
| `ConversionProtocol.RunsNeverAmbiguous` | crates/starconverter-core/src/conversion.rs:860-903 | Along every run, when no header decodes off the written frames, every recorded capsule scans to exactly the run's checkpoints, and recovery of whatever a tear left fails only below eight bytes. |
| `ConversionProtocol.EarnedMeans` | crates/starconverter-core/src/conversion.rs:876-895 | In those terms: phases advance one at a time, backup boot only with matching staging evidence, `Verified` only with matching verification, `RolledBack` only over the source digest, nothing after a terminal phase. |
| `Executor.ImageFile.ApplyWrites` | crates/starconverter-core/src/executor.rs:794-855 | A write group that fails anywhere changes the image only inside the group; one that succeeds has applied all of it. |
| `Executor.CopyRelocations` | crates/starconverter-core/src/executor.rs:676-772 | A relocation copy that fails anywhere changes only destinations; one that succeeds into free space leaves every destination equal to its source's original bytes. |
| `Executor.LeasedIntentExact` | crates/starconverter-core/src/executor.rs:491-585 | Under a lease for this plan and this file, and no other, the executor accepts from each phase exactly one forward intent, the coordinator's own; executing it completes exactly the next phase and touches exactly that phase's group. |
| `Executor.RollbackAuthorizedExactly` | crates/starconverter-core/src/executor.rs:641-674 | The executor accepts the coordinator's rollback intent from every open phase except `Reserved` with relocations planned, and then writes the phase's before-images. |
| `CoupledRuns.BeginStarts` | crates/starconverter-core/src/conversion.rs:768-786 | Beginning a capsule on the source image yields a start of the runs below exactly when what was written can be indexed. |
| `SampleRun.SampleRunStarts` | crates/starconverter-core/src/conversion/regular_image.rs:250-284 | One sealed plan with relocations, one codec and one begun capsule meet every hypothesis of the run theorems at once. |
| `CoupledRuns.RunCoupled` | crates/starconverter-core/src/conversion/regular_image.rs:843-878 | Every step of every run keeps the image restorable from the remembered capsule and from whatever complete capsule the file holds. |
| `CoupledRuns.CrashConvergence` | crates/starconverter-core/src/conversion/regular_image.rs:843-878 | At every point of every run (group torn anywhere, append torn or complete but unacknowledged), restoring the live store and reopening its file agree, and the before-images of the durable phase then restore exactly the source; the executor carries that out except from `Reserved` with relocations. |
| `CoupledRuns.ObservationSeesSource` | crates/starconverter-core/src/conversion/regular_image.rs:1161-1214 | In every reachable state the image seen through the observation mask is exactly the source. |
| `CoupledRuns.RefusalEndsAtRelocating` | crates/starconverter-core/src/conversion.rs:1045-1076 | The refusal ends once `Relocating` is recorded, which is the coordinator's own next step. |
| `Payloads.ReconstructStreamDestination` | crates/starconverter-core/src/candidate_export.rs:1950-2025 | Copying extents into one zeroed buffer computes the specified reconstruction or error. |
| `Payloads.ReconstructsContent` | crates/starconverter-core/src/candidate_export.rs:1950-2025 | For resident and uncompressed streams the buffer is the logical content: initialized bytes from their extents, zeros in holes and past the initialized length, at exactly the destination length. |
| `Payloads.ReconstructSucceeds` | crates/starconverter-core/src/candidate_export.rs:1996-2021 | Reconstruction of an uncompressed stream succeeds exactly when every contributing placed extent lies in the image and fits the read cap in one piece. |
| `ExportExamples.LongExtentFails` | crates/starconverter-core/src/candidate_export.rs:1996-2021 | An extent of four bytes fails behind a two-byte read cap and is reconstructed behind a four-byte one. |
| `ExportPlan.ValidatePreviewWrites` | crates/starconverter-core/src/candidate_export.rs:1467-1515 | The group and before-image loops compute the specified tally or error. |
| `ExportPlan.PreviewSound` | crates/starconverter-core/src/candidate_export.rs:1467-1515 | An accepted preview has three nonempty groups, every write in the image, and before-images that name the writes' ranges and hold the source's bytes there. |
| `ExportPlan.ValidateRelocationPlan` | crates/starconverter-core/src/candidate_export.rs:1613-1750 | The checking loops and in-place sorts compute the specified acceptance or error. |
| `ExportPlan.ValidateMaterializationPlan` | crates/starconverter-core/src/candidate_export.rs:1754-1909 | The checking loops, span collection and in-place sort compute the specified acceptance or error. |
| `ExportPlan.RelocationsSound` | crates/starconverter-core/src/candidate_export.rs:1613-1750 | Accepted relocations are in the image, off their own sources and all metadata, with all sources pairwise disjoint and all destinations pairwise disjoint. |
| `ExportPlan.MaterializationsSound` | crates/starconverter-core/src/candidate_export.rs:1754-1909 | Accepted spans are in the image, pairwise disjoint, and off every relocation destination and all metadata. |
| `CandidateExport.CopySource` | crates/starconverter-core/src/candidate_export.rs:2249-2287 | The chunked copy produces exactly the source, and fails exactly when a chunk exceeds the read cap. |
| `CandidateExport.ApplyRelocations` | crates/starconverter-core/src/candidate_export.rs:2289-2352 | The chunked relocation equals whole writes of source bytes at the destinations, for any chunk size. |
| `CandidateExport.ApplyMaterializations` | crates/starconverter-core/src/candidate_export.rs:2028-2114 | The chunked scattering equals whole writes of the streams' parts, for any chunk size, and fails exactly when a stream cannot be reconstructed. |
| `CandidateExport.ApplyForwardWrites` | crates/starconverter-core/src/candidate_export.rs:2375-2417 | The chunked metadata writes equal the write sets applied in order, for any chunk size. |
| `CandidateExport.BuildCandidate` | crates/starconverter-core/src/candidate_export.rs:1226-1262 | Copy, relocate, materialize and overlay produce the specified candidate, for any chunk size. |
| `PayloadView.SearchFinds` | crates/starconverter-core/src/candidate_export.rs:1587-1602 | Among sorted disjoint ranges the binary search lands just past the one range that holds the offset. |
| `PayloadView.ViewRefinesCandidate` | crates/starconverter-core/src/candidate_export.rs:1526-1582 | For a job that passed every check, a read inside one relocation or materialization span, or away from all destinations and metadata, returns exactly the finished candidate's bytes; any read inside no single destination returns the raw source. |
| `PayloadView.ViewAgreesExactly` | crates/starconverter-core/src/candidate_export.rs:1526-1582 | A read returns the finished candidate's bytes if and only if it lies inside one destination, or everything written at each of its positions (last metadata write, relocated byte, materialized byte) is the byte the source already has there. |
| `PayloadView.ExportCandidate` | crates/starconverter-core/src/candidate_export.rs:1158-1262 | The checks in order, then the bytes: a successful export leaves exactly the finished candidate, whatever the chunk size; an exportable job succeeds when a chunk fits the read cap; a failed check writes nothing. |
| `PayloadView.EveryByteLands` | crates/starconverter-core/src/candidate_export.rs:2051-2111 | Byte k of every materialized stream is in the finished candidate at the position of the span that owns logical offset k. |
| `ExportExamples.StraddlingReadDiffers` | crates/starconverter-core/src/candidate_export.rs:1557-1582 | A job that passes every check, with three write groups, a relocation and a materialization: a read past the end of the relocation destination differs, reads inside agree. |
| `BoundEscrow.EncodeBoundEscrow` | crates/starconverter-core/src/candidate_export.rs:921-949 | Pushing the fields onto a growing buffer yields the envelope. |
| `BoundEscrow.EscrowDecodeOfEncode` | crates/starconverter-core/src/candidate_export.rs:651-722 | Decoding an encoded envelope returns it exactly for distinct filesystems and a payload within a nonzero limit. |
| `BoundEscrow.EscrowEncodeOfDecode` | crates/starconverter-core/src/candidate_export.rs:921-969 | Any envelope that decodes re-encodes to the same bytes. |

## Left out

- Creating the capsule file, hard-link publication, directory flushing, path checks, locks and file identity: operating-system calls. A file is a byte sequence; `ensure_unchanged` keeps its length comparison, and an identity failure is one of the injected faults.
- Reordering of unflushed capsule blocks: a failing capsule write lands a prefix. Image groups have no such restriction: a torn group may leave any bytes inside it.
- `sort_unstable_by_key`: modelled by one sorting function. Nothing proved depends on the order of equal keys, and the keys of everything accepted are distinct.
- SHA-256 and CRC-32 internals, `digest_graph`, `digest_plan` and the field-by-field digests: arbitrary functions or opaque values.
- Payloads.ReconstructStreamDestination: does not model LZNT1 decompression; a compressed stream is an arbitrary function from stream and position to byte, and its content is not specified.
- RollbackPlan.PrepareRollbacks: does not model the steps between sorting and sealing that need other modules, namely reservation containment, write count and byte caps, the layout solver and the target-graph comparison; the relocations the solver returns are a parameter.
- `PreparedConversion::build` beyond its write-set half: object graphs, feature rules and reservations.
- The prepared envelope and recovery bundle: the first payload is an opaque value compared for equality. Restarting from the capsule alone, with a capsule policy wider than the plan's limits, is not part of this model.
- Candidate audits and classification of backup-boot and activation bytes: they can only refuse a forward step, and runs may take any step they might have refused.
- The lease of a rollback and the evidence wrappers `record_execution` and `record_executed_rollback`: equality checks on digests and flags before the modelled rollback and recording.
- The exporter's policy checks, manifests, hashing, progress, cancellation and allocation failure: single-branch facts.
- exFAT and NTFS parsers and serializers, `escrow_carrier.rs`, command line, GUI and packaging: not part of this model.
- CapsuleLayout.HeaderRedundancy: assumes that no decodable header window lies off the written frames; a payload may contain a whole valid header, and then the scan depends on it.
- CapsuleLayout.ProductionRoundTrip: assumes the same.
- CoupledRuns.CrashConvergence: says nothing of the image once `Finalized` is recorded, because the conversion is then accepted and rollback refused.
