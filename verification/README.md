# srcmv in Dafny

srcmv moves and copies byte ranges between files of a workspace. A batch of operations is planned
against one immutable snapshot, the plan is identified by a digest, and the changed files are
replaced by a crash-recoverable transaction. This project models the parts of it where correctness
is not obvious from one function and proves what they promise, for all inputs and all runs.

| file | what it models |
|---|---|
| `Common.dfy`, `Order.dfy`, `Utf8.dfy` | shared values, an ideal hash, sorting and sums, UTF-8 |
| `Journal.dfy`, `RecoveryClassifier.dfy` | transaction records, the validators, the fold over the state chain, the recovery tables |
| `Protocol.dfy`, `ProtocolInvariant.dfy`, `Recovery.dfy` | commit and recovery as a state machine over what survives a crash, its invariant, and the safety and recovery theorems |
| `Executor.dfy` | the code that commits, completes, rolls back and cleans up, step by step, as a class |
| `Lines.dfy`, `Plan.dfy`, `Sweep.dfy`, `Planner.dfy` | the line index, the planning vocabulary, the sweep that builds an output, the planner |
| `Conservation.dfy`, `OrderIndependence.dfy` | what every plan conserves, and on what order it does not depend |
| `Budget.dfy` | resource accounting in 64-bit words, and planning as a whole: plan, usage, budget, digest |
| `Manifests.dfy` | from a plan to a transaction, staging, and what its runs leave at the planned paths |
| `Cbor.dfy`, `PlanRecord.dfy`, `PlanEncoder.dfy`, `PlanIdentity.dfy` | the plan record as deterministic CBOR, its encoder, and what equal plan digests mean |
| `Review.dfy` | the review of one output |
| `Headers.dfy`, `HeaderGrammar.dfy`, `Framing.dfy`, `FrameStreams.dfy`, `Correlator.dfy` | LSP framing, incremental and blocking, its encoder, and response matching |
| `Scalars.dfy`, `Positions.dfy`, `Symbols.dfy` | positions in UTF-8 text in three encodings, and flattening of symbol hierarchies |

How the main parts are modelled:

- **Crashes.** A `World` holds durable state only: the target, candidate and backup location of every
  target, the published records, a pending temporary and the place of the transaction directory. A run
  is a sequence of worlds one atomic action apart. A crash loses nothing that a world holds, so a run cut
  short anywhere is a run, and whatever process comes next continues it. The executor's methods record
  every durable state they pass through, so that all their crash points are points of a run.
- **Hashes.** SHA-256 is an ideal hash: a digest is identified with the bytes it was taken of. Record
  checksums are identified with their record in the same way. A plan record therefore holds, where the
  program writes 32 digest bytes, the bytes the digest stands for.
- **Integers** are unbounded where the program's checked arithmetic cannot overflow within its own
  limits; 64-bit and 32-bit limits are written out where they decide a result (content lengths, CBOR
  arguments, LSP positions, request identifiers).
- **The edited file** is defined offset by offset (`Sweep.Edited`): the payloads inserted at an offset in
  operation order, then the original byte unless a move deletes it. The sweep, the recipes, the manifest,
  the candidates and the committed targets are all related to this one definition.
- **Definitions that code and specification share** (the order of paths, lines and columns, trimming and
  splitting, what an observation means) are characterised by theorems that do not mention their bodies:
  byte order, terminator counts, grammars, the files and identities themselves.

Three things the code does differently from what one might expect, each stated exactly:

- Two crash states admit no recovery. In one, a crash comes between recording that rollback began and
  removing a candidate whose record is still missing. In the other, a first state temporary is left, and a
  second crash comes after the rollback of control records has unlinked `manifest.rec` and before it unlinks
  that temporary; the scan then refuses the directory (crates/srcmv-fs/src/control.rs, lines 749 to 752 and
  1098 to 1107). `Recovery.StrandingIsReachable` and `Recovery.ManifestLossIsReachable` show that every
  transaction can get into each, and `Recovery.StuckExactly` that at every point of every run some recovery
  succeeds if and only if neither has happened, and that every target is original in both.
- The incremental decoder drops the bodies completed in the chunk that fails, so the bodies delivered before
  an error depend on chunking, while errors, successes and states do not. `Framing.ChunkingDoesNotMatter`
  shows that delivered and dropped bodies together are those of the stream, so that a split delivers
  everything if and only if its failing chunk completes no body; `FrameStreams.ErrorsDropTheirChunk` gives
  streams where it does, and `Framing.SingleBytesDropNothing` splits where it never does.
- Manifest segments name inputs by file identifier, so the recipe is right when identifiers are snapshot
  positions, which is how snapshots are numbered (crates/srcmv-fs/src/lib.rs, line 369) and a precondition of
  `Manifests.PlanMakesAJob`. Under any other numbering staging yields the planned bytes or refuses
  (`Manifests.StagedIsPlanned`); `Manifests.SwappedNumbering` says when two swapped files are refused.

## Model

| member | source | states |
|---|---|---|
| `Recovery.AllOrNothing` | crates/srcmv-fs/src/transaction.rs:632-834 | in every run, over all interleavings of commit, crashes and repeated recoveries, a transaction directory renamed below completed as committed has every target holding the planned bytes with the intended mode, and one renamed as rolled back has every target in its original state |
| `Recovery.OriginalNeverLost` | crates/srcmv-fs/src/transaction.rs:538-603 | at every point of every run before terminal cleanup, each original object is at exactly one of the target path and the backup name, unchanged |
| `Recovery.StuckExactly` | crates/srcmv-fs/src/control.rs:737-814 | at every point of every run that has not ended, some recovery succeeds if and only if the directory is not a state temporary without its manifest and no candidate without a ready record outlived the switch to rolling back; in both excluded cases every target is original |
| `Recovery.ManifestLossIsReachable` | crates/srcmv-fs/src/control.rs:318-345 | every valid transaction has a run (crash beside the first record, crash right after the rollback unlinked the manifest) to a directory that the scan refuses, with every target still original |
| `Recovery.CrashStatesAdmitRecovery` | crates/srcmv-fs/src/recovery_classifier.rs:78-278 | whatever a crash leaves under the last record admits rollback if and only if no candidate file without a ready record outlived the switch to rolling back, and admits completion if and only if the last record is prepared, committing, committed or rolled back; in the excluded case all originals are in place |
| `Recovery.StrandingIsReachable` | crates/srcmv-fs/src/transaction.rs:795-803 | every valid transaction has a run (crash after creating a candidate, crash after recording that rollback began) into the excluded case, which neither recovery accepts, with every target still original |
| `Recovery.UnrecordedCandidate` | crates/srcmv-fs/src/transaction.rs:435-449 | every valid transaction has a run to a candidate file that no record mentions |
| `Recovery.ReportsAreTrue` | crates/srcmv-fs/src/control.rs:1006-1021 | a reported all_original or all_planned is true of the disk at every point of every run |
| `Recovery.ReportsAreExact` | crates/srcmv-fs/src/control.rs:1006-1021 | for an active transaction all_original is reported iff no record decides yet or rollback is recorded as finished, all_planned iff the commit is recorded, and mixed_possible only in between |
| `Recovery.JournalIsAcceptedAndBounded` | crates/srcmv-fs/src/journal.rs:916-926 | at every point of every run the journal, and the journal with the pending temporary, is a chain that the scan accepts, of at most 4n+4 records, below the limit of 512 for up to 100 targets |
| `Recovery.PublicationIncreasesRank` | crates/srcmv-fs/src/transaction.rs:605-624 | each published record strictly increases the rank over global and per-target progress, across any number of crashes and recoveries |
| `Recovery.RecordIncreasesRank` | crates/srcmv-fs/src/transaction.rs:1017-1037 | each record that any transition builds has a greater rank than the last one |
| `Recovery.RecordsArePublishable` | crates/srcmv-fs/src/journal.rs:437-455 | no record that the executor builds is refused by its own validator: shape, global constraints, originals, chain and transition checks |
| `Recovery.AcceptedExactly` | crates/srcmv-fs/src/transaction.rs:1200-1304 | for whatever is on disk, third-party files included, a recovery is admitted for a target if and only if the target is in a state in which the protocol can leave it under its record, told by the identity and bytes of the files, and the phase permits that recovery |
| `Recovery.ClassifiedExactly` | crates/srcmv-fs/src/recovery_classifier.rs:78-278 | the classifier accepts a target, rather than reporting a conflict, in exactly those states |
| `Recovery.AdmitsExactly` | crates/srcmv-fs/src/transaction.rs:1200-1238 | all targets together: a recovery is admitted if and only if every target is in such a state and the phase permits it |
| `Recovery.ForeignFilesConflict` | crates/srcmv-fs/src/transaction.rs:1240-1275 | a file that is neither the original nor the recorded candidate, at a target or backup name or at a candidate name after preparing, is refused by both recoveries |
| `Recovery.ObservationMeans` | crates/srcmv-fs/src/transaction.rs:1240-1275 | each observation says what the file is: absent, the very original, or the recorded candidate with the planned bytes (or, while preparing, any other file at the candidate name) |
| `Recovery.FingerprintsIdentify` | crates/srcmv-fs/src/transaction.rs:1307-1322 | matching identity, length and digest means being that object with those bytes |
| `Recovery.AcceptedRecordsAreSatisfiable` | crates/srcmv-fs/src/journal.rs:916-1053 | validator and classifier fit: under every accepted record each target has a state that recovery accepts, unless its candidate is recorded as being its original |
| `Recovery.TargetAdmission` | crates/srcmv-fs/src/recovery_classifier.rs:78-278 | for one target in any sound state: the classifier's tables allow rollback iff it is not stranded and completion iff the global state permits it |
| `Recovery.InvAdmitsRecovery` | crates/srcmv-fs/src/transaction.rs:1200-1240 | the same iff for all targets together, for every state that satisfies the invariant |
| `Recovery.CrashAnywhere` | crates/srcmv-fs/src/transaction.rs:362-433 | a run cut short anywhere is a run, so that crash points are ordinary states |
| `Recovery.InvKeepsOriginal` | crates/srcmv-fs/src/transaction.rs:836-911 | the invariant places each original at exactly one of its two locations |
| `Recovery.CommittingLocations` | crates/srcmv-fs/src/transaction.rs:538-603 | what completing a target may rely on: which location holds original and candidate in every state between the two renames |
| `Recovery.RollingBackLocations` | crates/srcmv-fs/src/transaction.rs:836-899 | what rolling a target back may rely on, for every interrupted order of remove, restore and clean up |
| `ProtocolInvariant.RunKeeps` | crates/srcmv-fs/src/transaction.rs:362-911 | the protocol invariant holds at every point of every run |
| `ProtocolInvariant.ActionKeeps` | crates/srcmv-fs/src/transaction.rs:362-911 | every atomic action (renames, appends, mode changes, record publication, finishing, cleanup) preserves the invariant |
| `ProtocolInvariant.MoveKeepsTarget` | crates/srcmv-fs/src/transaction.rs:538-603 | each single filesystem action on one target keeps that target's invariant |
| `ProtocolInvariant.RecordKeeps` | crates/srcmv-fs/src/transaction.rs:1017-1037 | publishing any justified record keeps the invariant of records and disk together |
| `ProtocolInvariant.ReportFollows` | crates/srcmv-fs/src/transaction.rs:605-624 | a report about one target is a progress that the validator admits and is true of its locations |
| `ProtocolInvariant.GlobalFollows` | crates/srcmv-fs/src/journal.rs:954-1000 | a global transition leaves every target's record valid and true |
| `ProtocolInvariant.FinishKeeps` | crates/srcmv-fs/src/control.rs:357-394 | renaming the directory below completed happens only with the outcome its suffix says |
| `ProtocolInvariant.CleanupKeeps` | crates/srcmv-fs/src/control.rs:1087-1107 | terminal cleanup removes artifacts and then the directory, and never changes a target |
| `ProtocolInvariant.ManifestRemovalKeeps` | crates/srcmv-fs/src/control.rs:318-345 | unlinking the manifest of a transaction without records keeps the invariant; a temporary that is left is the first record |
| `Protocol.TargetsRankBound` | crates/srcmv-fs/src/journal.rs:20-25 | n targets contribute at most 4n to the rank |
| `Executor.Transaction.Execute` | crates/srcmv-fs/src/transaction.rs:362-433 | an uninterrupted commit passes only through states of a run and ends with every target planned and the directory removed |
| `Executor.Transaction.Recover` | crates/srcmv-fs/src/transaction.rs:632-705 | an explicit recovery succeeds if and only if the caller-checkable condition Recoverable holds, then ends all planned or all original, and a refused one changes nothing but a temporary; a directory without manifest that holds a state temporary is refused as corrupt |
| `Executor.Transaction.RollbackControlOnly` | crates/srcmv-fs/src/control.rs:318-345 | manifest, temporary and directory are removed one by one in name order, through states of a run |
| `Executor.Transaction.ScanRecords` | crates/srcmv-fs/src/control.rs:737-814 | whatever run led here, the fold over the record files accepts the journal, ends at its last record, and a left temporary passes the checks of a successor |
| `Executor.Transaction.RecoverCompleteActive` | crates/srcmv-fs/src/transaction.rs:707-765 | completing an active transaction succeeds iff its last record is prepared, committing or committed, and a refused one changes nothing durable |
| `Executor.Transaction.RecoverRollbackActive` | crates/srcmv-fs/src/transaction.rs:767-816 | rolling an active transaction back succeeds iff it is not committed and no target is stranded, and a refused one changes nothing durable |
| `Executor.Transaction.RollbackAllTargets` | crates/srcmv-fs/src/transaction.rs:818-834 | targets are rolled back in reverse order until every rollback is recorded |
| `Executor.Transaction.RollbackTarget` | crates/srcmv-fs/src/transaction.rs:836-911 | one target is restored to its original bytes or absence and recorded, touching no other target |
| `Executor.Transaction.RestoreLocations` | crates/srcmv-fs/src/transaction.rs:836-899 | remove installed candidate, restore backup, remove candidate, from whatever a crash left |
| `Executor.Transaction.CompleteCommitSteps` | crates/srcmv-fs/src/transaction.rs:509-536 | every target ends installed and the commit is recorded |
| `Executor.Transaction.CompleteTarget` | crates/srcmv-fs/src/transaction.rs:538-603 | one target ends installed from any intermediate state, touching no other target |
| `Executor.Transaction.BackUpTarget` | crates/srcmv-fs/src/transaction.rs:538-580 | original to backup, mode copied to the candidate, backup recorded, each only if not done already |
| `Executor.Transaction.InstallTarget` | crates/srcmv-fs/src/transaction.rs:580-603 | the recorded candidate ends at the target path |
| `Executor.Transaction.ClassifyAllTargets` | crates/srcmv-fs/src/transaction.rs:1200-1238 | classification succeeds iff every target admits the requested mode |
| `Executor.Transaction.PublishState` | crates/srcmv-fs/src/journal.rs:437-502 | a record is validated, written beside the journal and renamed into it as two atomic steps, and becomes the last state |
| `Executor.Transaction.PublishTarget` | crates/srcmv-fs/src/transaction.rs:999-1015 | one target's record is replaced and all others kept |
| `Executor.Transaction.PublishGlobal` | crates/srcmv-fs/src/transaction.rs:991-997 | the global state is replaced and all targets kept |
| `Executor.Transaction.CreateCandidate` | crates/srcmv-fs/src/transaction.rs:435-507 | the candidate holds exactly the bytes of its segment recipe, streamed segment by segment |
| `Executor.Transaction.StageCandidate` | crates/srcmv-fs/src/transaction.rs:387-403 | candidates become ready one by one, the last making the transaction prepared |
| `Executor.Transaction.FinishTransaction` | crates/srcmv-fs/src/control.rs:357-394 | the directory goes below completed with the suffix of the last record and is cleaned up |
| `Executor.Transaction.CleanupCompleted` | crates/srcmv-fs/src/control.rs:1087-1107 | cleanup ends with the directory removed and the outcome unchanged |
| `Executor.Transaction.Load` | crates/srcmv-fs/src/transaction.rs:1064-1132 | the volatile state becomes the last record that the scan accepts and its checksum, with no temporary left |
| `Journal.FoldStateChain` | crates/srcmv-fs/src/control.rs:832-893 | the fold over the record files succeeds iff the records form an accepted chain, and returns its last record and checksum |
| `Journal.CheckRecord` | crates/srcmv-fs/src/control.rs:850-885 | one record passes iff it links to the manifest and to its predecessor |
| `Journal.ScanRecord` | crates/srcmv-fs/src/control.rs:850-885 | the scan of one record, check by check, gives that verdict |
| `Journal.ValidateShape` | crates/srcmv-fs/src/journal.rs:916-952 | version, sequence, links, target indexes, fields and global constraints are checked one by one, and decide ValidShape |
| `Journal.ValidateGlobalConstraints` | crates/srcmv-fs/src/journal.rs:954-1000 | what a global state asks of all targets is collected in one pass |
| `Journal.ValidateTransition` | crates/srcmv-fs/src/journal.rs:616-660 | shapes, sequence, global step and the progress of every target decide ValidTransition |
| `Journal.TransitionsMean` | crates/srcmv-fs/src/journal.rs:628-650 | a commit stays in its phase or goes on by one until it has ended, and before that may turn into a rollback, which can only end |
| `Journal.ChainPreservesProgress` | crates/srcmv-fs/src/journal.rs:1055-1081 | along every chain the scan accepts, not only ones the executor writes: ready identities and rollback results never change, commit rank never falls, commit fields are frozen once rolling back |
| `Journal.ChainDecidesOnce` | crates/srcmv-fs/src/journal.rs:616-660 | no accepted chain contains both a committed and a rollback record, and a terminal record is the last |
| `Journal.RollbackPersists` | crates/srcmv-fs/src/journal.rs:616-660 | rollback is never left along an accepted chain |
| `Journal.ChecksumDeterminesChain` | crates/srcmv-fs/src/journal.rs:1176-1189 | two accepted chains with the same last checksum are equal |
| `Journal.ChainExtends` | crates/srcmv-fs/src/journal.rs:437-455 | a valid successor extends an accepted chain |
| `Manifests.PlannedFilesAreVisible` | crates/srcmv-fs/src/transaction.rs:139-188 | end to end: after any run of the transaction built from a plan that is over as committed, every touched path shows the edited file the planner defined, and over as rolled back, what the snapshot saw |
| `Manifests.PlanMakesAJob` | crates/srcmv-fs/src/transaction.rs:254-360 | the manifest built from a plan is a valid transaction whose planned bytes are the planner's output bytes, when file ids are snapshot positions as acquisition numbers them |
| `Manifests.ValidateManifest` | crates/srcmv-fs/src/journal.rs:777-879 | one pass that compares neighbouring paths and checks fields, modes and segments decides validity of the whole manifest |
| `Manifests.MaskedModes` | crates/srcmv-fs/src/journal.rs:831-843 | a mode is its own mask iff it is at most 0666 and has no execution bit |
| `Manifests.ManifestIsValid` | crates/srcmv-fs/src/journal.rs:777-879 | the manifest that commit builds passes its own validation: count, strict path order, mode bits, original fields, every segment nonempty and in bounds |
| `Manifests.StagedIsPlanned` | crates/srcmv-fs/src/transaction.rs:453-491 | however the snapshot numbers its files, staging succeeds if and only if the segments read by position give the planned bytes |
| `Manifests.StageBytes` | crates/srcmv-fs/src/transaction.rs:453-491 | streams the segments and succeeds iff all can be read and length and digest are the planned ones |
| `Manifests.OwnNumberingStages` | crates/srcmv-fs/src/transaction.rs:453-491 | with the snapshot's own numbering staging always succeeds |
| `Manifests.SwappedNumbering` | crates/srcmv-fs/src/transaction.rs:453-491 | with two files numbered the other way round, a candidate that is all of one is refused unless the other begins with it |
| `Manifests.RecipesAgree` | crates/srcmv-fs/src/transaction.rs:453-480 | the bytes streamed into a candidate from manifest segments are the bytes of the plan's recipe |
| `Manifests.PlanTransaction` | crates/srcmv-fs/src/transaction.rs:139-170 | planning a batch and building its manifest yields exactly what the end-to-end theorems assume, and fails in planning iff the batch is not plannable |
| `Manifests.PrepareManifest` | crates/srcmv-fs/src/transaction.rs:139-170 | a manifest is built iff some output changes and every changed path is on the workspace device |
| `Manifests.BuildManifest` | crates/srcmv-fs/src/transaction.rs:254-360 | inputs in snapshot order and one target per changed output, each saying what was there and what will be |
| `Manifests.BuildSegments` | crates/srcmv-fs/src/transaction.rs:254-360 | a slice of the original belongs to no operation and a payload to its own, with their input and range |
| `Manifests.ChangedStaysSorted` | crates/srcmv-fs/src/transaction.rs:149-162 | filtering keeps path order, so sorting the changed outputs moves nothing |
| `Manifests.OtherPathsNeedNoTarget` | crates/srcmv-core/src/planner.rs:562-572 | a touched path without a target already holds its planned bytes |
| `Budget.PlanBatch` | crates/srcmv-core/src/planner.rs:58-186 | planning as a whole: it reports an unplannable batch iff the batch is not plannable, is over budget only with a plan whose true usage is, and otherwise returns plan, usage and the digest of the plan's record |
| `Budget.CheckUsage` | crates/srcmv-core/src/planner.rs:574-695 | counting in checked 64-bit words and comparing with the budget decides exactly as comparing the unbounded totals would |
| `Budget.UsageIsTotals` | crates/srcmv-core/src/planner.rs:574-661 | the usage is the largest output and the totals over operations and outputs |
| `Budget.ChangedTargetsAreTargets` | crates/srcmv-core/src/planner.rs:631-633 | the changed targets charged are the targets of the transaction |
| `Budget.LargestIsMaximum` | crates/srcmv-core/src/planner.rs:623-629 | the largest output and segment count charged are maxima |
| `Budget.CalculateUsage` | crates/srcmv-core/src/planner.rs:574-661 | the usage is returned iff no total overflows a word, although every intermediate sum is checked |
| `Budget.PlansAreEncodable` | crates/srcmv-core/src/plan_hash.rs:45-71 | the record of every plan exists: no two inputs share an identifier and every segment's file is an input |
| `Budget.PlanInWords` | crates/srcmv-core/src/plan_hash.rs:77-84 | a plan made from 64-bit fields, whose usage can be counted, has a record of 64-bit fields |
| `Planner.MakePlan` | crates/srcmv-core/src/planner.rs:58-186 | planning succeeds iff the batch is plannable, before usage and digest are considered, and then lists exactly the touched paths in order, each with a valid recipe of its edited file, its length, digest and change class |
| `Planner.IndexSnapshot` | crates/srcmv-core/src/planner.rs:188-220 | indexing succeeds iff no path and no file id is used twice |
| `Planner.ValidatePreconditionConsistency` | crates/srcmv-core/src/planner.rs:222-248 | succeeds iff every two references to a path state the same precondition |
| `Planner.OperationMeans` | crates/srcmv-core/src/planner.rs:257-363 | an operation resolves to r if and only if both paths are there as its preconditions say of their bytes, r has the range its selector selects and the place its anchor names, and it is a no-op iff a range moves to one of its own ends |
| `Planner.BatchMeans` | crates/srcmv-core/src/planner.rs:58-134 | every operation resolves iff every operation means something in the snapshot, and the resolutions of a batch are what its operations mean |
| `Planner.SelectorMeans` | crates/srcmv-core/src/planner.rs:305-329 | a line selector selects from the start of its first line to the end of its last, both counted by terminators, and a byte selector its nonempty range; exactly these resolve |
| `Planner.AnchorMeans` | crates/srcmv-core/src/planner.rs:331-363 | an anchor resolves exactly to the end of the file, the start or end of the line, or the offset it names, in a new file to 0 only |
| `Planner.OutputsInByteOrder` | crates/srcmv-core/src/planner.rs:67-67 | outputs are listed in the order of the UTF-8 bytes of their paths, each path once |
| `Planner.ResolvedInBounds` | crates/srcmv-core/src/planner.rs:305-363 | every resolved selector is nonempty and in bounds, every anchor inside its file |
| `Planner.AddOperation` | crates/srcmv-core/src/planner.rs:100-134 | an effectful operation adds exactly its deletion and its insertion |
| `Planner.ResolveBatch` | crates/srcmv-core/src/planner.rs:58-134 | the batch resolves iff every operation does, each against the one snapshot |
| `Planner.StreamOutput` | crates/srcmv-core/src/planner.rs:500-560 | length, digest and equality with the original are those of the recipe's bytes |
| `Planner.PlanOutput` | crates/srcmv-core/src/planner.rs:136-173 | an output is planned iff its edits do not conflict and it does not change a file with several links; unchanged iff the bytes equal the original |
| `Planner.PlanOutputs` | crates/srcmv-core/src/planner.rs:136-173 | all touched paths in order, or the first failing one |
| `Sweep.BuildSegments` | crates/srcmv-core/src/planner.rs:425-498 | the sweep over event points refines the offset-by-offset definition of the edited file, every segment is nonempty and in bounds, and payloads keep offset and operation order |
| `Sweep.OwnEndsChangeNothing` | crates/srcmv-core/src/planner.rs:83-90 | moving a range to its own start or end would leave the file as it is, which is why it is planned as no edit |
| `Sweep.InsertionAlone` | crates/srcmv-core/src/planner.rs:425-498 | a lone insertion gives the file before its place, the payload and the file after it |
| `Sweep.DeletionAlone` | crates/srcmv-core/src/planner.rs:425-498 | a lone deletion gives the file without its range |
| `Sweep.SweepPoint` | crates/srcmv-core/src/planner.rs:445-489 | one event point: original up to it, end of deletion, insertions, start of deletion |
| `Sweep.PushPayloads` | crates/srcmv-core/src/planner.rs:445-489 | one payload slice per insertion at a point, in their order, with operation, file, range and digest |
| `Sweep.CollectPoints` | crates/srcmv-core/src/planner.rs:430-443 | the points are exactly the offsets with events, insertions in operation order |
| `Sweep.ValidateEditConflicts` | crates/srcmv-core/src/planner.rs:401-423 | succeeds iff deletions are pairwise disjoint and no insertion is strictly inside one |
| `Sweep.FindOverlap` | crates/srcmv-core/src/planner.rs:404-412 | comparing adjacent pairs of the sorted deletions finds an overlap iff there is one |
| `Sweep.DeletedAtPoint` | crates/srcmv-core/src/planner.rs:455-489 | for disjoint deletions the deleting flag after a point follows from the flag before it and the point's events |
| `Sweep.QuietStretch` | crates/srcmv-core/src/planner.rs:445-489 | between event points the edited file only gains kept original bytes |
| `Conservation.PlansConserveTheMultiset` | crates/srcmv-core/src/planner.rs:69-134 | the multiset of bytes over all outputs is that of the originals plus the payloads of effectful copies |
| `Conservation.PlansConserveBytes` | crates/srcmv-core/src/planner.rs:69-134 | the same for every byte value: moves neither create nor destroy a byte |
| `Conservation.PathBalance` | crates/srcmv-core/src/planner.rs:425-498 | per path: output plus what moves take equals original plus what insertions put |
| `Conservation.EditedBalance` | crates/srcmv-core/src/planner.rs:425-498 | the edited file of disjoint deletions, counted byte value by byte value |
| `OrderIndependence.OrderDoesNotMatter` | crates/srcmv-core/src/planner.rs:58-173 | reordering a batch while keeping the order of insertions at each place keeps success, the touched paths and every output's bytes |
| `OrderIndependence.ReorderingIsPlannable` | crates/srcmv-core/src/planner.rs:401-423 | conflict checks do not depend on the order of operations |
| `OrderIndependence.SameOutput` | crates/srcmv-core/src/planner.rs:438-442 | each path's edited file is the same for both orders |
| `OrderIndependence.DisjointMeansCoveredOnce` | crates/srcmv-core/src/planner.rs:401-412 | deletions are pairwise disjoint iff no offset is covered twice |
| `PlanIdentity.EqualDigestsSameFiles` | crates/srcmv-core/src/plan_hash.rs:77-84 | two plans with the same digest have the same workspace, operations and output paths, and describe the same bytes at each, wherever their snapshots came from |
| `PlanIdentity.EqualDigestsEqualRecords` | crates/srcmv-core/src/plan_hash.rs:72-84 | equal plan digests mean equal record fields |
| `PlanIdentity.RecordsArePrefixFree` | crates/srcmv-core/src/plan_hash.rs:39-70 | no record is a prefix of another, and each determines every field |
| `PlanIdentity.RecordIsRecovered` | crates/srcmv-core/src/plan_hash.rs:39-70 | a decoder recovers the record and where it ends, whatever follows |
| `PlanIdentity.RecordIsShortest` | crates/srcmv-core/src/plan_hash.rs:316-334 | anything that decodes to the record is longer or identical (section 4.2.1 of RFC 8949) |
| `PlanIdentity.RecordIgnoresNumbering` | crates/srcmv-core/src/plan_hash.rs:43-59 | permuting the snapshot's and plan's lists and renumbering file ids leaves the record unchanged |
| `PlanIdentity.EncodabilityIgnoresNumbering` | crates/srcmv-core/src/plan_hash.rs:51-59 | and keeps whether there is a record at all |
| `PlanIdentity.RecordDeterminesOutput` | crates/srcmv-core/src/plan_hash.rs:148-203 | the bytes of an output follow from the record alone |
| `PlanIdentity.RecordIsInByteOrder` | crates/srcmv-core/src/plan_hash.rs:45-49 | the record lists all inputs and all outputs in the order of the UTF-8 bytes of their paths |
| `Order.PathsInByteOrder` | crates/srcmv-core/src/plan_hash.rs:154-154 | the order of paths is that of their UTF-8 bytes: a prefix first, otherwise by the first byte that differs |
| `PlanIdentity.DomainIsNamed` | crates/srcmv-core/src/plan_hash.rs:77-84 | the domain prefix is the program name, the word PLAN and the version, ended by a zero byte |
| `PlanIdentity.PlanDigest` | crates/srcmv-core/src/plan_hash.rs:77-84 | the digest is the hash of domain prefix and record, and exists iff the record does |
| `PlanEncoder.EncodePlanRecord` | crates/srcmv-core/src/plan_hash.rs:39-70 | the encoder succeeds iff file ids are distinct and segments refer to inputs, and writes the encoding of the record |
| `PlanEncoder.EncodeOperation` | crates/srcmv-core/src/plan_hash.rs:121-144 | thirteen positional fields per operation |
| `PlanEncoder.EncodeOutputs` | crates/srcmv-core/src/plan_hash.rs:148-203 | outputs by path with segments naming inputs by position, failing iff a segment's file is no input |
| `PlanEncoder.EncodeInputs` | crates/srcmv-core/src/plan_hash.rs:92-119 | inputs by path, absent ones with three fields and existing ones with seven |
| `PlanEncoder.IndexInputs` | crates/srcmv-core/src/plan_hash.rs:51-59 | indexing succeeds iff no file id occurs twice |
| `PlanRecord.RecordInjective` | crates/srcmv-core/src/plan_hash.rs:86-276 | the positional form determines every field of the record |
| `PlanRecord.OperationInjective` | crates/srcmv-core/src/plan_hash.rs:121-144 | an operation's row determines it |
| `PlanRecord.OutputInjective` | crates/srcmv-core/src/plan_hash.rs:148-203 | an output's row determines it, segments included |
| `Cbor.RoundTrip` | crates/srcmv-core/src/plan_hash.rs:278-335 | decoding undoes encoding and finds the end of the item |
| `Cbor.PrefixFree` | crates/srcmv-core/src/plan_hash.rs:278-335 | encodings of different items are never prefixes of each other |
| `Cbor.ShortestEncoding` | crates/srcmv-core/src/plan_hash.rs:316-334 | for every byte string a lenient decoder accepts, the encoder's form of the item is not longer, and is the only one of its length |
| `Cbor.HeadIsShortest` | crates/srcmv-core/src/plan_hash.rs:316-334 | the same for one integer argument |
| `Cbor.HeadRoundTrip` | crates/srcmv-core/src/plan_hash.rs:316-334 | major type and argument are recovered from a head |
| `Cbor.CborEncoder.MajorValue` | crates/srcmv-core/src/plan_hash.rs:316-334 | appends exactly the shortest head |
| `Cbor.CborEncoder.PutText` | crates/srcmv-core/src/plan_hash.rs:298-303 | appends one text item in UTF-8 |
| `Utf8.EncodesShortest` | crates/srcmv-core/src/plan_hash.rs:298-303 | the encoding of a scalar is well formed by RFC 3629, stands for it, and every other well-formed encoding of it is longer |
| `Utf8.DecodesAll` | crates/srcmv-core/src/plan_hash.rs:298-303 | UTF-8 decoding undoes encoding, so that different texts have different bytes |
| `Lines.FromBytesWithLimits` | crates/srcmv-core/src/line_metrics.rs:22-70 | the index lists exactly the line boundaries in order, and is built iff the line count is within both limits |
| `Lines.MetricsForRange` | crates/srcmv-core/src/line_metrics.rs:72-128 | refuses exactly an index of another length or a range outside the bytes; for the index of the bytes two binary searches and edge corrections give the metrics of the slice scanned alone, including cuts inside CRLF |
| `Lines.LengthIsIndexed` | crates/srcmv-core/src/line_metrics.rs:167-169 | the index of some bytes has their length |
| `Lines.RangeTerminators` | crates/srcmv-core/src/line_metrics.rs:97-124 | boundaries in a range, corrected at its ends, are the terminators of its bytes alone |
| `Lines.BoundariesUpTo` | crates/srcmv-core/src/line_metrics.rs:72-128 | a partition point of the index counts the terminators before an offset |
| `Lines.LineNumbersMean` | crates/srcmv-core/src/line_metrics.rs:136-165 | exactly the lines 1 to the line count have a start and an end: the start is where n - 1 terminators have ended, the last just there, and the end the next boundary |
| `Lines.CountEndsInSlice` | crates/srcmv-core/src/line_metrics.rs:105-124 | cutting a range out changes its terminators only at a cut CRLF |
| `Lines.TryFromBytes` | crates/srcmv-core/src/line_metrics.rs:193-213 | the scan computes the metrics |
| `Lines.AppendIsConcatenation` | crates/srcmv-core/src/line_metrics.rs:239-281 | summaries compose as bytes do, a CR and a following LF merging, if and only if the byte count fits 64 bits; the line count never overflows first |
| `Lines.NextTerminatorEnd` | crates/srcmv-core/src/line_metrics.rs:288-303 | advances to the end of the first LF, CRLF or lone CR |
| `Lines.IndexCountsLines` | crates/srcmv-core/src/line_metrics.rs:132-134 | the index has one boundary per line |
| `Lines.PartitionPoint` | crates/srcmv-core/src/line_metrics.rs:88-103 | the binary search finds how many boundaries are at most an offset |
| `Review.BuildReviewOutput` | crates/srcmv-cli/src/preview.rs:144-231 | folding segment summaries gives the line count of the materialised output; succeeds iff segments are in range, payloads are effectful insertions into the path and lengths agree |
| `Review.PlannedOutputsAreReviewable` | crates/srcmv-cli/src/preview.rs:144-231 | the review of every planned output succeeds and its groups are the insertions by offset, in order, each offset once |
| `Review.GroupsByPlace` | crates/srcmv-cli/src/preview.rs:202-209 | extending the last group groups insertions exactly by place |
| `Framing.ChunkingDoesNotMatter` | crates/srcmv-lsp/src/jsonrpc.rs:453-510 | any split of a stream reaches the same state or error; what it delivers followed by what its failing chunk completed is what the stream holds, so it delivers everything iff the failing chunk completes nothing |
| `Framing.SingleBytesDropNothing` | crates/srcmv-lsp/src/jsonrpc.rs:453-510 | a stream pushed byte by byte loses no body to an error |
| `Framing.FrameDecoder.Push` | crates/srcmv-lsp/src/jsonrpc.rs:453-510 | consumes a chunk exactly as its bytes one by one would be |
| `Framing.FrameDecoder.Finish` | crates/srcmv-lsp/src/jsonrpc.rs:513-523 | EOF is accepted between frames only and classed by section otherwise |
| `Framing.FrameDecoder.IsMidFrame` | crates/srcmv-lsp/src/jsonrpc.rs:442-447 | false exactly between frames |
| `Framing.DecodeChunks` | crates/srcmv-lsp/src/jsonrpc.rs:449-523 | a decoder driven over any chunks and EOF gives the verdict of the whole stream, and its bodies less those dropped with a failing chunk |
| `Framing.FeedBlock` | crates/srcmv-lsp/src/jsonrpc.rs:494-506 | taking a block of body bytes at once is taking them one by one |
| `FrameStreams.ReadBody` | crates/srcmv-lsp/src/jsonrpc.rs:588-607 | the blocking reader returns the first frame, nothing at EOF between frames, the decoder's error or a failed read, whatever sizes its reads return and however often they are interrupted |
| `FrameStreams.ReadAllBodies` | crates/srcmv-lsp/src/jsonrpc.rs:588-607 | reading frame after frame gives what the decoder gives for the whole stream, class of EOF or failure included |
| `FrameStreams.FirstFrameAgrees` | crates/srcmv-lsp/src/jsonrpc.rs:721-760 | first frame, EOF, failed read and errors of reader and decoder agree on every stream |
| `FrameStreams.ReadHeader` | crates/srcmv-lsp/src/jsonrpc.rs:721-760 | reads byte by byte up to the terminator, with the decoder's limits and errors |
| `FrameStreams.ReadExactSection` | crates/srcmv-lsp/src/jsonrpc.rs:885-906 | reads exactly the announced body or reports EOF or a failed read in it |
| `FrameStreams.FramesRoundTrip` | crates/srcmv-lsp/src/jsonrpc.rs:634-657 | decoding any concatenation of encoded frames within limits returns exactly their bodies and leaves the decoder between frames |
| `FrameStreams.HeaderRoundTrip` | crates/srcmv-lsp/src/jsonrpc.rs:644 | the header that the encoder writes announces the body's length |
| `FrameStreams.EncodeBody` | crates/srcmv-lsp/src/jsonrpc.rs:634-657 | a body is framed iff it is within the outbound limit and the frame fits a machine word |
| `FrameStreams.ErrorsDropTheirChunk` | crates/srcmv-lsp/src/jsonrpc.rs:453-510 | for every frame within limits and every byte outside ASCII: in chunks of their own the body is delivered, in one chunk it is dropped, with the same error |
| `HeaderGrammar.HeadersExactly` | crates/srcmv-lsp/src/jsonrpc.rs:762-805 | byte for byte: a header announces n if and only if it is lines of name, colon, blanks, printable value and blanks, joined by CRLF and ended by an empty line, of which exactly one is a length with value n, at most one a content type, a supported one |
| `HeaderGrammar.ContentTypesExactly` | crates/srcmv-lsp/src/jsonrpc.rs:840-867 | a content type is supported if and only if it is the media type, alone or with one semicolon and the parameter charset equal to a name of UTF-8, in any case, with any blanks around each word |
| `HeaderGrammar.GoodLineParses` | crates/srcmv-lsp/src/jsonrpc.rs:770-795 | every line of that form parses to its name and value |
| `HeaderGrammar.ParsedLineIsGood` | crates/srcmv-lsp/src/jsonrpc.rs:770-795 | only lines of that form parse |
| `Headers.TerminatedMeans` | crates/srcmv-lsp/src/jsonrpc.rs:763-765 | a header is terminated iff it is a payload, possibly empty, followed by CRLF CRLF |
| `Headers.SplitMeans` | crates/srcmv-lsp/src/jsonrpc.rs:770-770 | the parts joined by the separator are the whole, and no part contains the separator |
| `Headers.SplitJoin` | crates/srcmv-lsp/src/jsonrpc.rs:770-770 | splitting undoes joining, for a separator that cannot overlap itself |
| `Headers.FindMeans` | crates/srcmv-lsp/src/jsonrpc.rs:776-780 | the first occurrence is found, and nothing iff there is none |
| `Headers.NamesAreTokens` | crates/srcmv-lsp/src/jsonrpc.rs:807-826 | header name bytes are the token characters of RFC 9110 |
| `Headers.IgnoresCaseOfLetters` | crates/srcmv-lsp/src/jsonrpc.rs:797-803 | names are compared up to the case of ASCII letters and nothing else |
| `Headers.HeaderAcceptedIff` | crates/srcmv-lsp/src/jsonrpc.rs:762-805 | a header announces n iff it is terminated text, all lines are well formed, exactly one states a length and states n, and at most one states a supported type |
| `Headers.ParseHeader` | crates/srcmv-lsp/src/jsonrpc.rs:762-805 | the line loop computes that verdict, with the first error |
| `Headers.ParseContentLength` | crates/srcmv-lsp/src/jsonrpc.rs:828-838 | digit-by-digit checked arithmetic overflows iff the number does not fit 64 bits |
| `Headers.DecimalRoundTrip` | crates/srcmv-lsp/src/jsonrpc.rs:644 | decimal printing is undone by parsing |
| `Headers.ValidateContentType` | crates/srcmv-lsp/src/jsonrpc.rs:840-867 | accepts the protocol's media type with at most one parameter, a UTF-8 charset |
| `Headers.TrimAsciiWhitespace` | crates/srcmv-lsp/src/jsonrpc.rs:869-883 | computes the trimming that `Headers.TrimCutsBlanks` characterises |
| `Headers.TrimCutsBlanks` | crates/srcmv-lsp/src/jsonrpc.rs:869-883 | the result is a slice with no blank at either end, and everything cut off is blank |
| `Correlator.ResponseCorrelator.BeginRequest` | crates/srcmv-lsp/src/jsonrpc.rs:679-694 | a request gets an identifier never handed out before, unless a limit is reached |
| `Correlator.ResponseCorrelator.Complete` | crates/srcmv-lsp/src/jsonrpc.rs:697-706 | a pending request completes once; a second answer is a duplicate and any other is unknown |
| `Positions.PositionsAreOrdered` | crates/srcmv-lsp/src/position.rs:139-210 | positions and their bytes are in the same order in all three encodings, so each determines the other |
| `Positions.AcceptedPositionsAreMonotone` | crates/srcmv-lsp/src/position.rs:139-155 | a later accepted position never denotes an earlier byte, clamped or not |
| `Positions.DenotationIsUnique` | crates/srcmv-lsp/src/position.rs:139-155 | a position denotes one thing: its byte, the content end if its character is beyond it, or one error; only the budget can hide it |
| `Positions.ByteRoundTrip` | crates/srcmv-lsp/src/position.rs:139-210 | from a byte to its position and back is the same byte |
| `Positions.PositionRoundTrip` | crates/srcmv-lsp/src/position.rs:139-210 | from a position to its byte and back is the same position iff its character is not beyond the content, and the content end otherwise |
| `Positions.RangeMeaningIsUnique` | crates/srcmv-lsp/src/position.rs:166-173 | a range whose ends denote bytes is accepted iff the second is later |
| `Positions.PositionConverter.New` | crates/srcmv-lsp/src/position.rs:90-115 | a converter is refused iff the index is for text of another length, and never for the index of the text |
| `Positions.PositionsSkipTerminators` | crates/srcmv-lsp/src/position.rs:139-155 | no byte between a line's start and a position on it is a CR or LF |
| `Positions.PositionsAreInside` | crates/srcmv-lsp/src/position.rs:139-155 | every position is at a character boundary inside its line's content |
| `Positions.BoundariesArePositions` | crates/srcmv-lsp/src/position.rs:175-210 | every character boundary inside a line's content has a position in every encoding |
| `Positions.PositionConverter.LspPositionToByte` | crates/srcmv-lsp/src/position.rs:139-155 | returns what the position denotes (its byte, the content end for a character that is too large, no such line, or a split scalar), out of budget iff the scalars before it exceed what is left, charging exactly those |
| `Positions.PositionConverter.LspRangeToByteRange` | crates/srcmv-lsp/src/position.rs:166-173 | accepts a range iff both ends denote bytes, the second later, and the budget covers both; otherwise the error is that of the first end that fails, or that the range is empty or reversed |
| `Positions.PositionConverter.ByteToLspPosition` | crates/srcmv-lsp/src/position.rs:186-210 | returns the position at the byte, and with enough budget finds it whenever there is one |
| `Positions.PositionConverter.LineForByte` | crates/srcmv-lsp/src/position.rs:420-459 | the binary search finds the line whose content has the byte iff there is one |
| `Positions.PositionConverter.UserLineScalarToByte` | crates/srcmv-lsp/src/position.rs:258-280 | returns the byte at a one-based line and scalar column, never clamping, and refuses exactly where there is none |
| `Positions.PositionConverter.ByteToUserLineScalar` | crates/srcmv-lsp/src/position.rs:313-368 | inverse of it whenever a column exists, and no column only beyond a line's content |
| `Positions.PositionConverter.EncodedUnitsToByte` | crates/srcmv-lsp/src/position.rs:461-486 | counts units to a scalar, the end, or the inside of a scalar, out of budget iff the scalars to examine exceed it |
| `Positions.PositionConverter.ByteToEncodedUnits` | crates/srcmv-lsp/src/position.rs:488-508 | counts the units before a byte, within 32 bits |
| `Positions.PositionConverter.ChargeCodePoint` | crates/srcmv-lsp/src/position.rs:566-576 | one unit of work, unless the budget is used up |
| `Positions.Utf8UnitsMean` | crates/srcmv-lsp/src/position.rs:583-592 | the constant-time UTF-8 conversion agrees with counting |
| `Scalars.AsciiByteIsScalar` | crates/srcmv-lsp/src/position.rs:390-418 | a terminator byte is a scalar of its own, so line contents are cut at character boundaries |
| `Scalars.ContentIsUnterminated` | crates/srcmv-lsp/src/position.rs:370-408 | a line's content has no CR or LF, and what follows it up to the line's end is LF, CR, CRLF or, at the end of the text, nothing |
| `Scalars.WidthsAreEncodings` | crates/srcmv-lsp/src/position.rs:142-150 | the units of a scalar are those of its encoding: in UTF-16 one, or two surrogates, in UTF-8 its bytes, in UTF-32 one |
| `Scalars.SubTextMeans` | crates/srcmv-lsp/src/position.rs:410-418 | slicing a text by bytes gives the text of exactly those bytes, between character boundaries in order and nowhere else |
| `Scalars.LineShape` | crates/srcmv-lsp/src/position.rs:370-408 | lines follow each other and only the last may lack a terminator |
| `Symbols.NormalizeHierarchicalSymbols` | crates/srcmv-lsp/src/symbols.rs:456-610 | a forest is flattened if and only if every symbol is within its limits with ranges that denote bytes and nest, the counts and storage are within theirs, and the budget covers all its positions; the list is then the preorder with root-first breadcrumbs, and exactly that work is charged |
| `Symbols.FlatteningIsUnique` | crates/srcmv-lsp/src/symbols.rs:456-610 | a forest has at most one flattening |
| `Symbols.Unflattenable` | crates/srcmv-lsp/src/symbols.rs:482-592 | one symbol over a limit, or one running total over its limit, is enough to refuse the forest whatever follows |
| `Symbols.PushChildren` | crates/srcmv-lsp/src/symbols.rs:555-584 | children are pushed so that they come in order, unless visited and pending symbols would exceed the raw limit |
| `Symbols.PushReversed` | crates/srcmv-lsp/src/symbols.rs:468-476 | pushing siblings last to first makes them come in order |
| `Symbols.MaterializePath` | crates/srcmv-lsp/src/symbols.rs:784-795 | the breadcrumb is the ancestor names, root first |
| `Symbols.CheckLengths` | crates/srcmv-lsp/src/symbols.rs:491-515 | a symbol passes iff its name, ranges, depth, name, detail and breadcrumb lengths are within limits |

## Left out

- Filesystem calls, permissions, device and inode lookup, `flock`, `fsync` and directory listing: atomic steps over an ideal store. An I/O error or failpoint is a run cut short; no other process changes the locations while the lock is held.
- Torn state temporaries: a temporary is whole or absent; the scan refuses a torn one.
- Record, artifact and disk byte budgets of the transaction: straight checked arithmetic.
- Revalidation of manifest inputs before and during recovery (crates/srcmv-fs/src/transaction.rs:913-989): rereads of unchanged files in an ideal store.
- `gate_new_transaction`, generation of transaction identifiers, path normalisation and generated-name checks: bookkeeping over names.
- SHA-256 internals, JSON parsing and serialisation, envelope classification and the JSON depth scan: payloads are values or opaque bytes.
- Processes, sessions, transports, deadlines and capability tables of the LSP client, the CLI grammar, rendering, diffs and protocol DTOs.
- Resolution of symbol queries, deduplication and extents: comparators and adjacent deduplication. Standard symbol kinds are known by their number; their spellings are a table.
- Executor.Transaction.AllocateIdentity: models only that a new file's identity is not in use by the transaction, because inode allocation belongs to the filesystem.
- Lines.MetricsForRange: says nothing of what is returned for the index of other bytes of the same length, which its documentation excludes and the code does not detect.
- Review.BuildReviewOutput: does not model the distinct error names of one refused segment, only that it is refused.
- Manifests.ManifestIsValid: does not model path normalisation, generated names, digest format and projected disk size, which are checks of names and sums.
- Planner.MakePlan: stops before usage and digest; Budget.PlanBatch adds both.
- Budget.PlanBatch: takes the in-memory sizes of records as parameters, because they are the compiler's.
- Recovery.AcceptedExactly: says nothing of permission bits, which recovery does not compare.
