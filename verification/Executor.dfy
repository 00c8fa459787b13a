/** The executor: the code that commits, completes and rolls back, step by step.

    `run` records every durable state the executor passes through, so each method's contract says not
    only where it ends but that all its crash points belong to a run of the protocol.  Every
    verification that the executor makes of a location on its way is asserted where it happens. */
module Executor {
  import opened Common
  import opened Journal
  import opened RecoveryClassifier
  import opened Protocol
  import opened ProtocolInvariant
  import opened Recovery

  datatype RecoveryError = ActionNotAllowed | Conflict | NotFound | Corrupt

  class Transaction {
    const manifest: Manifest
    const sources: seq<Bytes>
    ghost const initial: seq<Slot>

    // durable
    var area: Area
    var disk: seq<Locations>
    var records: seq<StateSnapshot>
    var temporary: Option<StateSnapshot>

    // volatile: the last published state and its checksum
    var state: StateSnapshot
    var checksum: RecordChecksum

    ghost var run: seq<World>

    ghost function Spec(): Job {
      Job(manifest, initial, sources)
    }

    ghost function Durable(): World
      reads this
    {
      World(area, disk, records, temporary)
    }

    ghost predicate Valid()
      reads this
    {
      && ValidJob(Spec())
      && IsRun(Spec(), run)
      && run[|run| - 1] == Durable()
    }

    /** The volatile state agrees with the journal of an active transaction. */
    ghost predicate Loaded()
      reads this
    {
      && Valid()
      && Running(Spec(), Durable())
      && state == Last(records)
      && checksum == StateChecksum(state)
    }

    constructor (job: Job)
      requires ValidJob(job)
      ensures Valid() && Spec() == job && Durable() == Start(job) && run == [Start(job)]
    {
      manifest, sources, initial := job.manifest, job.sources, job.initial;
      area, disk, records, temporary := Orphan, Start(job).disk, [], None;
      state, checksum := ZeroState(job.manifest), ManifestChecksum(job.manifest);
      run := [Start(job)];
    }

    lemma Facts(i: nat)
      requires Loaded() && i < |disk|
      ensures |disk| == |manifest.targets| == |initial| == |state.targets|
      ensures Sound(manifest.targets[i], initial[i], state.global, state.targets[i], disk[i])
      ensures Describes(manifest.targets[i], initial[i], Planned(Spec(), i))
    {
      RunKeeps(Spec(), run, |run| - 1);
      LastIsSound(Spec(), Durable());
    }

    lemma Admission(mode: RecoveryMode)
      requires Loaded()
      ensures |disk| == |state.targets| == |manifest.targets|
      ensures mode == Rollback && state.global !in {Committed, RolledBack} ==>
                (Admits(Spec(), state, disk, mode) <==> Recoverable(Spec(), Durable(), Rollback))
      ensures mode == Complete && state.global in {Prepared, Committing, Committed} ==>
                Admits(Spec(), state, disk, mode)
    {
      RunKeeps(Spec(), run, |run| - 1);
      InvAdmitsRecovery(Spec(), Durable());
    }

    lemma RecordsFit()
      requires Valid() && area == Active && records != []
      ensures |disk| == |Last(records).targets| == |manifest.targets|
    {
      RunKeeps(Spec(), run, |run| - 1);
    }

    // ----- atomic steps

    /** Notes the durable state that an atomic action has produced. */
    ghost method Note(a: Action)
      requires ValidJob(Spec()) && IsRun(Spec(), run)
      requires Enabled(Spec(), run[|run| - 1], a) && Durable() == Apply(Spec(), run[|run| - 1], a)
      modifies this`run
      ensures Valid() && run == old(run) + [Durable()]
    {
      run := run + [Durable()];
      assert forall k | 0 < k < |run| :: Next(Spec(), run[k - 1], run[k]);
    }

    method ChangeTarget(i: nat, move: Move)
      requires Loaded() && i < |disk|
      requires CanMove(manifest.targets[i], state.global, state.targets[i], disk[i], move)
      requires move.CreateCandidate? ==> !Live(disk, move.identity)
      modifies this`disk, this`run
      ensures Loaded() && old(run) <= run
      ensures disk == old(disk)[i := Moved(manifest.targets[i], state.global, state.targets[i], old(disk)[i], move)]
    {
      disk := disk[i := Moved(manifest.targets[i], state.global, state.targets[i], disk[i], move)];
      Note(MoveTarget(i, move));
    }

    /** Writes the next record beside the journal. */
    method WriteRecord(next: StateSnapshot, ghost tr: Transition)
      requires Valid() && Justified(Spec(), Durable(), tr) && next == Record(Spec(), Durable(), tr)
      modifies this`temporary, this`run
      ensures Valid() && old(run) <= run && temporary == Some(next)
    {
      temporary := Some(next);
      Note(WriteTemporary(tr));
    }

    /** Renames the record that was written into the journal. */
    method RenameRecord()
      requires Valid() && area == Active && temporary.Some?
      modifies this`records, this`temporary, this`run
      ensures Valid() && old(run) <= run && temporary.None? && records == old(records) + [old(temporary).value]
    {
      records, temporary := records + [temporary.value], None;
      Note(PublishTemporary);
    }

    /** Validates, writes and renames the next record, as `publish_state` does. */
    method PublishState(next: StateSnapshot, ghost tr: Transition)
      requires Valid() && Justified(Spec(), Durable(), tr) && next == Record(Spec(), Durable(), tr)
      requires records != [] ==> Loaded()
      modifies this`records, this`temporary, this`state, this`checksum, this`run
      ensures Loaded() && old(run) <= run
      ensures records == old(records) + [next] && state == next
    {
      assert Publishable(manifest, records, next) by {
        RunKeeps(Spec(), run, |run| - 1);
        RecordsArePublishable(Spec(), Durable(), tr);
      }
      WriteRecord(next, tr);
      RenameRecord();
      state, checksum := next, StateChecksum(next);
    }

    method PublishGlobal(global: GlobalState, ghost tr: Transition)
      requires Loaded() && (tr.BeginCommit? || tr.FinishCommit? || tr.BeginRollback? || tr.FinishRollback?)
      requires Justified(Spec(), Durable(), tr) && global == Record(Spec(), Durable(), tr).global
      modifies this`records, this`temporary, this`state, this`checksum, this`run
      ensures Loaded() && old(run) <= run
      ensures state == NextState(old(state), global, old(state).targets)
    {
      PublishState(NextState(state, global, state.targets), tr);
    }

    method PublishTarget(i: nat, target: TargetState, ghost report: Report)
      requires Loaded() && i < |disk| && report != CandidateReady
      requires CanReport(manifest.targets[i], state.global, state.targets[i], disk[i], report)
      requires target == Reported(manifest.targets[i], state.global, state.targets[i], disk[i], report)
      modifies this`records, this`temporary, this`state, this`checksum, this`run
      ensures Loaded() && old(run) <= run
      ensures state == NextState(old(state), old(state).global, old(state).targets[i := target])
    {
      PublishState(NextState(state, state.global, state.targets[i := target]), OnTarget(i, report));
    }

    // ----- classification

    method ClassifyTarget(index: nat, mode: RecoveryMode) returns (r: Result<(), RecoveryError>)
      requires index < |disk| == |state.targets| == |manifest.targets|
      ensures r.Ok? <==> TargetAllows(manifest.targets[index], disk[index], state.targets[index], state.global, mode)
      ensures forall original, planned | Describes(manifest.targets[index], original, planned) ::
                r == Err(Conflict) <==>
                !Authorized(original, planned, state.global, state.targets[index], disk[index])
    {
      forall original, planned | Describes(manifest.targets[index], original, planned)
        ensures
          ClassifyRecovery(
            state.global, manifest.targets[index].originalExisted, state.targets[index],
            ObserveTarget(manifest.targets[index], disk[index], state.targets[index], state.global)).Ok? <==>
          Authorized(original, planned, state.global, state.targets[index], disk[index])
      {
        ClassifiedExactly(
          manifest.targets[index], original, planned, state.global, state.targets[index], disk[index]);
      }
      var target, recorded := manifest.targets[index], state.targets[index];
      var observed := ObserveTarget(target, disk[index], recorded, state.global);
      var disposition := ClassifyRecovery(state.global, target.originalExisted, recorded, observed);
      if disposition.Err? {
        return Err(Conflict);
      }
      return if Allows(disposition.value, mode) then Ok(()) else Err(ActionNotAllowed);
    }

    ghost predicate AllowedUpTo(n: nat, mode: RecoveryMode)
      requires n <= |disk| == |state.targets| == |manifest.targets|
      reads this
    {
      forall k | 0 <= k < n :: TargetAllows(manifest.targets[k], disk[k], state.targets[k], state.global, mode)
    }

    method ClassifyTargets(mode: RecoveryMode) returns (r: Result<(), RecoveryError>)
      requires |disk| == |state.targets| == |manifest.targets|
      ensures r.Ok? <==> AllowedUpTo(|disk|, mode)
    {
      for index := 0 to |manifest.targets|
        invariant AllowedUpTo(index, mode)
      {
        r := ClassifyTarget(index, mode);
        if r.Err? {
          return;
        }
      }
      return Ok(());
    }

    method ClassifyAllTargets(mode: RecoveryMode) returns (r: Result<(), RecoveryError>)
      requires Loaded()
      ensures |disk| == |state.targets| == |manifest.targets|
      ensures r.Ok? <==> Admits(Spec(), state, disk, mode)
    {
      r := ClassifyTargets(mode);
    }

    // ----- completing

    /** Moves an original out of the way, gives the candidate its mode and records the backup. */
    method BackUpTarget(i: nat)
      requires Loaded() && i < |disk| && state.global == Committing && manifest.targets[i].originalExisted
      requires ObserveTarget(manifest.targets[i], disk[i], state.targets[i], state.global).target != Candidate
      modifies this
      ensures Loaded() && old(run) <= run && OnlyTarget(i, old(state), old(disk))
      ensures state.targets[i].candidate == old(state).targets[i].candidate
      ensures state.targets[i].commit.kind == BackedUp
      ensures CanMove(manifest.targets[i], state.global, state.targets[i], disk[i], InstallCandidate)
    {
      Facts(i);
      var t := manifest.targets[i];
      CommittingLocations(t, initial[i], state.targets[i], disk[i]);
      if ObserveBackup(disk[i].backup, t) != Original {
        ChangeTarget(i, RenameToBackup);
        assert HoldsOriginal(disk[i].backup, t);
      }
      ChangeTarget(i, SetCandidateMode);
      if state.targets[i].commit.kind == Untouched {
        var backup := disk[i].backup.value;
        assert MatchesOriginal(backup, t);
        PublishTarget(
          i, state.targets[i].(commit := CommitState(BackedUp, Some(backup.identity), Some(backup.mode))),
            OriginalBackedUp);
      }
    }

    /** Nothing but target `i` and its record has changed. */
    ghost predicate OnlyTarget(i: nat, before: StateSnapshot, locations: seq<Locations>)
      reads this
    {
      && |disk| == |locations| == |state.targets| == |before.targets| && i < |disk|
      && state.global == before.global
      && forall k | 0 <= k < |disk| && k != i :: state.targets[k] == before.targets[k] && disk[k] == locations[k]
    }

    /** Gets the candidate to the target's path, unless it is there already. */
    method InstallTarget(i: nat)
      requires Loaded() && i < |disk| && state.global == Committing
      modifies this
      ensures Loaded() && old(run) <= run && OnlyTarget(i, old(state), old(disk))
      ensures HoldsCandidate(disk[i].target, manifest.targets[i], state.targets[i])
    {
      var t := manifest.targets[i];
      InstallFacts(i);
      var observed := ObserveTarget(t, disk[i], state.targets[i], state.global);
      if observed.target != Candidate {
        if t.originalExisted {
          BackUpTarget(i);
          InstallFacts(i);
        } else {
          ChangeTarget(i, SetCandidateMode);
        }
        ChangeTarget(i, InstallCandidate);
      }
    }

    lemma InstallFacts(i: nat)
      requires Loaded() && i < |disk| && state.global == Committing
      ensures i < |manifest.targets| == |initial| == |state.targets|
      ensures var t, recorded, loc := manifest.targets[i], state.targets[i], disk[i];
              && (ObserveTarget(t, loc, recorded, Committing).target == Candidate ==>
                  HoldsCandidate(loc.target, t, recorded))
              && (loc.candidate.Some? ==> HoldsCandidate(loc.candidate, t, recorded))
              && (ObserveTarget(t, loc, recorded, Committing).target != Candidate && !t.originalExisted ==>
                    loc.candidate.Some? && loc.target.None? && t.newFileMode.Some?)
    {
      Facts(i);
      CommittingLocations(manifest.targets[i], initial[i], state.targets[i], disk[i]);
    }

    method CompleteTarget(i: nat)
      requires Loaded() && i < |disk| && state.global == Committing
      modifies this
      ensures Loaded() && old(run) <= run && OnlyTarget(i, old(state), old(disk))
      ensures state.targets[i].commit.kind == Installed
    {
      InstallTarget(i);
      var final := disk[i].target;
      if state.targets[i].commit.kind != Installed {
        var commit := state.targets[i].commit.(kind := Installed, identity := Some(final.value.identity));
        PublishTarget(i, state.targets[i].(commit := commit), CandidateInstalled);
      }
    }

    method CompleteCommitSteps()
      requires Loaded() && state.global == Committing
      modifies this
      ensures Loaded() && old(run) <= run && state.global == Committed
    {
      var classified := ClassifyAllTargets(Complete);
      assert classified.Ok? by {
        Admission(Complete);
      }
      var index := 0;
      while index < |manifest.targets|
        invariant 0 <= index <= |manifest.targets| == |disk| == |state.targets|
        invariant Loaded() && old(run) <= run && state.global == Committing
        invariant forall k | 0 <= k < index :: state.targets[k].commit.kind == Installed
      {
        CompleteTarget(index);
        index := index + 1;
      }
      forall k | 0 <= k < |disk|
        ensures HoldsCandidate(disk[k].target, manifest.targets[k], state.targets[k])
      {
        Facts(k);
      }
      PublishGlobal(Committed, FinishCommit);
    }

    // ----- rolling back

    /** Brings one target's locations back, in the order remove, restore, clean up. */
    method RestoreLocations(i: nat)
      requires Loaded() && i < |disk| && state.global == RollingBack
      modifies this`disk, this`run
      ensures Loaded() && old(run) <= run && OnlyTarget(i, state, old(disk))
      ensures disk[i].backup.None? && disk[i].candidate.None?
      ensures if manifest.targets[i].originalExisted then HoldsOriginal(disk[i].target, manifest.targets[i])
              else disk[i].target.None?
    {
      RollbackFacts(i);
      var t, recorded := manifest.targets[i], state.targets[i];
      var observed := ObserveTarget(t, disk[i], recorded, state.global);
      if observed.target == Candidate {
        ChangeTarget(i, RemoveInstalled);
        RollbackFacts(i);
      }
      if t.originalExisted && disk[i].backup.Some? {
        assert HoldsOriginal(disk[i].backup, t);
        ChangeTarget(i, RestoreBackup);
        RollbackFacts(i);
      }
      if disk[i].candidate.Some? {
        assert recorded.candidate.kind == Ready ==> HoldsCandidate(disk[i].candidate, t, recorded);
        ChangeTarget(i, RemoveCandidate);
      }
    }

    lemma RollbackFacts(i: nat)
      requires Loaded() && i < |disk| && state.global == RollingBack
      ensures var t, recorded, loc := manifest.targets[i], state.targets[i], disk[i];
              && (ObserveLocation(loc.target, t, recorded, false, RollingBack) == Candidate <==>
                  HoldsCandidate(loc.target, t, recorded))
              && (!HoldsCandidate(loc.target, t, recorded) && loc.backup.Some? ==> loc.target.None?)
              && (loc.backup.Some? ==> t.originalExisted && HoldsOriginal(loc.backup, t))
              && (loc.candidate.Some? && recorded.candidate.kind == Ready ==>
                  HoldsCandidate(loc.candidate, t, recorded))
              && (!HoldsCandidate(loc.target, t, recorded) && loc.backup.None? ==>
                    if t.originalExisted then HoldsOriginal(loc.target, t) else loc.target.None?)
    {
      Facts(i);
      RollingBackLocations(manifest.targets[i], initial[i], state.targets[i], disk[i]);
    }

    method RollbackTarget(i: nat)
      requires Loaded() && i < |disk| && state.global == RollingBack
      modifies this
      ensures Loaded() && old(run) <= run && OnlyTarget(i, old(state), old(disk))
      ensures state.targets[i].rollback.kind != NotRestored
    {
      RestoreLocations(i);
      var t, recorded := manifest.targets[i], state.targets[i];
      if recorded.rollback.kind == NotRestored {
        var restored := if t.originalExisted then RollbackState(OriginalRestored, Some(disk[i].target.value.identity))
                        else RollbackState(AbsenceRestored, None);
        PublishTarget(i, recorded.(rollback := restored), OriginalStateRestored);
      }
    }

    method RollbackAllTargets()
      requires Loaded() && state.global == RollingBack
      modifies this
      ensures Loaded() && old(run) <= run && state.global == RollingBack
      ensures forall k | 0 <= k < |state.targets| :: state.targets[k].rollback.kind != NotRestored
    {
      var index := |manifest.targets|;
      while index > 0
        invariant 0 <= index <= |manifest.targets| == |disk| == |state.targets|
        invariant Loaded() && old(run) <= run && state.global == RollingBack
        invariant forall k | index <= k < |disk| :: state.targets[k].rollback.kind != NotRestored
      {
        index := index - 1;
        RollbackTarget(index);
      }
      var classified := ClassifyAllTargets(Rollback);
      assert classified.Ok? by {
        Admission(Rollback);
        forall k | 0 <= k < |disk| ensures !Stranded(state.targets[k], disk[k], state.global) {
          Facts(k);
        }
      }
    }

    // ----- the end of the transaction

    /** Renames the directory below `completed` and removes it. */
    method FinishTransaction()
      requires Loaded() && state.global in {Committed, RolledBack}
      modifies this`area, this`disk, this`records, this`temporary, this`run
      ensures Valid() && old(run) <= run && area == Cleaned(old(state).global == Committed)
    {
      area := Completed(state.global == Committed);
      Note(Action.FinishTransaction);
      CleanupCompleted();
    }

    method CleanupCompleted()
      requires Valid() && area.Completed?
      modifies this`area, this`disk, this`records, this`temporary, this`run
      ensures Valid() && old(run) <= run && area == Cleaned(old(area).committed)
    {
      var index := 0;
      while index < |disk|
        invariant 0 <= index <= |disk|
        invariant Valid() && old(run) <= run && area == old(area)
        invariant forall k | 0 <= k < index :: disk[k].candidate.None? && disk[k].backup.None?
      {
        disk := disk[index := disk[index].(candidate := None, backup := None)];
        Note(RemoveArtifacts(index));
        index := index + 1;
      }
      area, records, temporary := Cleaned(area.committed), [], None;
      Note(RemoveDirectory);
    }

    // ----- explicit recovery

    /** The scan before a recovery folds over the record files and checks a temporary against the last record;
        whatever run led here, it accepts both. */
    method ScanRecords() returns (last: StateSnapshot, lastChecksum: RecordChecksum)
      requires Valid() && area == Active && records != []
      ensures last == Last(records) && lastChecksum == StateChecksum(last)
    {
      JournalIsAcceptedAndBounded(Spec(), run, |run| - 1);
      RecordFilesInOrder(manifest, records);
      var folded := FoldStateChain(manifest, RecordFiles(records));
      last, lastChecksum := folded.value.0, folded.value.1;
      if temporary.Some? {
        TemporaryIsAccepted(manifest, records, temporary.value);
        var refused := ScanRecord(manifest, Some(last), temporary.value, last.sequence + 1);
        assert refused.None?;
      }
    }

    /** Reads the journal back, dropping a temporary that a crash left behind. */
    method Load()
      requires Valid() && area == Active && records != []
      modifies this`temporary, this`state, this`checksum, this`run
      ensures Loaded() && old(run) <= run && state == Last(records)
    {
      var last, lastChecksum := ScanRecords();
      RecordsFit();
      if temporary.Some? {
        temporary := None;
        Note(RemoveTemporary);
      }
      state, checksum := last, lastChecksum;
    }

    method RecoverCompleteActive() returns (r: Result<(), RecoveryError>)
      requires Loaded()
      modifies this
      ensures Valid() && old(run) <= run
      ensures r.Ok? <==> old(state).global in {Prepared, Committing, Committed}
      ensures r.Ok? ==> area == Cleaned(true)
      ensures r.Err? ==> Durable() == old(Durable())
    {
      if state.global == Preparing || InRollback(state.global) {
        return Err(ActionNotAllowed);
      }
      var classified := ClassifyAllTargets(Complete);
      assert classified.Ok? by {
        Admission(Complete);
      }
      if state.global == Prepared {
        PublishGlobal(Committing, BeginCommit);
      }
      if state.global == Committing {
        CompleteCommitSteps();
      }
      FinishTransaction();
      return Ok(());
    }

    method RecoverRollbackActive() returns (r: Result<(), RecoveryError>)
      requires Loaded()
      modifies this
      ensures Valid() && old(run) <= run
      ensures r.Ok? <==> Recoverable(Spec(), old(Durable()), Rollback)
      ensures r.Ok? ==> area == Cleaned(false)
      ensures r.Err? ==> Durable() == old(Durable())
    {
      if state.global == Committed {
        return Err(ActionNotAllowed);
      }
      if state.global == RolledBack {
        FinishTransaction();
        return Ok(());
      }
      Admission(Rollback);
      var classified := ClassifyAllTargets(Rollback);
      if classified.Err? {
        return Err(classified.error);
      }
      RollbackSteps();
      FinishTransaction();
      return Ok(());
    }

    method RollbackSteps()
      requires Loaded() && state.global !in {Committed, RolledBack}
      modifies this
      ensures Loaded() && old(run) <= run && state.global == RolledBack
    {
      if state.global != RollingBack {
        PublishGlobal(RollingBack, BeginRollback);
      }
      RollbackAllTargets();
      PublishGlobal(RolledBack, FinishRollback);
    }

    /** Unlinks what the directory holds in name order, the manifest before a temporary, and removes it. */
    method RollbackControlOnly()
      requires Valid() && ((area == Orphan && temporary.None?) || (area == Active && records == []))
      modifies this`area, this`temporary, this`run
      ensures Valid() && old(run) <= run && area == Cleaned(false)
    {
      if area == Active {
        area := Orphan;
        Note(RemoveManifest);
      }
      if temporary.Some? {
        temporary := None;
        Note(RemoveTemporary);
      }
      area := Cleaned(false);
      Note(RemoveOrphan);
    }

    /** One uninterrupted recovery: it succeeds exactly when it is allowed, ends with the transaction
        gone and, when it is refused, changes nothing but a left-over temporary. */
    method Recover(mode: RecoveryMode) returns (r: Result<(), RecoveryError>)
      requires Valid()
      modifies this
      ensures Valid() && old(run) <= run
      ensures r.Ok? <==> Recoverable(Spec(), old(Durable()), mode)
      ensures r.Ok? ==> area == Cleaned(mode == Complete) && Outcome(Spec(), disk, mode == Complete)
      ensures r.Err? ==> area == old(area) && disk == old(disk) && records == old(records)
    {
      if area.Cleaned? {
        return Err(NotFound);
      } else if area.Completed? {
        if area.committed != (mode == Complete) {
          return Err(ActionNotAllowed);
        }
        CleanupCompleted();
      } else if area == Orphan && temporary.Some? {
        return Err(Corrupt);
      } else if area == Orphan || records == [] {
        if mode == Complete {
          return Err(ActionNotAllowed);
        }
        RollbackControlOnly();
      } else {
        Load();
        var recovered;
        if mode == Complete {
          recovered := RecoverCompleteActive();
        } else {
          recovered := RecoverRollbackActive();
        }
        if recovered.Err? {
          return Err(recovered.error);
        }
      }
      AllOrNothing(Spec(), run, |run| - 1);
      return Ok(());
    }

    // ----- a new transaction

    /** An identity that no file of the transaction uses. */
    method AllocateIdentity() returns (identity: Identity)
      ensures !Live(disk, identity)
    {
      var inode: nat := 0;
      var index := 0;
      while index < |disk|
        invariant 0 <= index <= |disk|
        invariant forall k, used: Identity | 0 <= k < index && inode <= used.inode ::
                    !SlotHas(disk[k].target, used) && !SlotHas(disk[k].candidate, used)
                      && !SlotHas(disk[k].backup, used)
      {
        var loc := disk[index];
        if loc.target.Some? && inode <= loc.target.value.identity.inode {
          inode := loc.target.value.identity.inode + 1;
        }
        if loc.candidate.Some? && inode <= loc.candidate.value.identity.inode {
          inode := loc.candidate.value.identity.inode + 1;
        }
        if loc.backup.Some? && inode <= loc.backup.value.identity.inode {
          inode := loc.backup.value.identity.inode + 1;
        }
        index := index + 1;
      }
      identity := Identity(0, inode);
    }

    /** Streams one slice of a snapshot file into a candidate. */
    method AppendSegment(i: nat, segment: ManifestSegment)
      requires Loaded() && i < |disk| && state.global == Preparing && state.targets[i].candidate.kind == Missing
      requires disk[i].candidate.Some? && segment in manifest.targets[i].segments
      modifies this`disk, this`run
      ensures Loaded() && old(run) <= run && OnlyTarget(i, state, old(disk))
      ensures disk[i].candidate.Some?
      ensures disk[i].candidate.value.mode == old(disk)[i].candidate.value.mode
      ensures disk[i].candidate.value.bytes == old(disk)[i].candidate.value.bytes + SegmentBytes(sources, segment)
    {
      assert ValidSegment(manifest, segment) by {
        assert manifest.targets[i] in manifest.targets;
      }
      ChangeTarget(i, AppendToCandidate(sources[segment.inputIndex][segment.start..segment.end]));
    }

    method StreamSegments(i: nat, segments: seq<ManifestSegment>)
      requires Loaded() && i < |disk| && state.global == Preparing && state.targets[i].candidate.kind == Missing
      requires disk[i].candidate.Some? && segments == manifest.targets[i].segments
      modifies this`disk, this`run
      ensures Loaded() && old(run) <= run && OnlyTarget(i, state, old(disk))
      ensures disk[i].candidate.Some?
      ensures disk[i].candidate.value.mode == old(disk)[i].candidate.value.mode
      ensures disk[i].candidate.value.bytes == old(disk)[i].candidate.value.bytes + RecipeBytes(sources, segments)
    {
      ghost var start := disk[i].candidate.value.bytes;
      for index := 0 to |segments|
        invariant Loaded() && old(run) <= run && OnlyTarget(i, state, old(disk))
        invariant disk[i].candidate.Some? && disk[i].candidate.value.mode == old(disk)[i].candidate.value.mode
        invariant disk[i].candidate.value.bytes == start + RecipeBytes(sources, segments[..index])
      {
        AppendSegment(i, segments[index]);
        StreamOne(start, sources, segments, index);
      }
      assert segments[..|segments|] == segments;
    }

    /** Creates a candidate and streams its recipe into it. */
    method CreateCandidate(i: nat)
      requires Loaded() && i < |disk| && state.global == Preparing
      requires state.targets[i].candidate.kind == Missing && disk[i].candidate.None?
      modifies this`disk, this`run
      ensures Loaded() && old(run) <= run && OnlyTarget(i, state, old(disk))
      ensures disk[i].candidate.Some? && disk[i].candidate.value.bytes == Planned(Spec(), i)
      ensures disk[i].candidate.value.mode == 384  // readable and writable by the owner only
    {
      var identity := AllocateIdentity();
      ChangeTarget(i, Move.CreateCandidate(identity));
      StreamSegments(i, manifest.targets[i].segments);
    }

    /** All candidates up to `index` are staged and recorded. */
    ghost predicate StagedUpTo(index: nat)
      reads this
    {
      && Loaded()
      && index <= |manifest.targets| == |disk| == |state.targets|
      && state.global == (if index == |manifest.targets| then Prepared else Preparing)
      && (forall k | 0 <= k < |disk| :: state.targets[k].candidate.kind == Ready <==> k < index)
      && (forall k | index <= k < |disk| :: disk[k].candidate.None?)
    }

    method StageCandidate(index: nat)
      requires StagedUpTo(index) && index < |manifest.targets|
      modifies this
      ensures StagedUpTo(index + 1) && old(run) <= run
    {
      CreateCandidate(index);
      var candidate := disk[index].candidate.value;
      assert |candidate.bytes| == manifest.targets[index].candidateLength
             && Hash(candidate.bytes) == manifest.targets[index].candidateDigest by {
        Facts(index);
      }
      var ready := state.targets[index].(candidate := CandidateState(Ready, Some(candidate.identity)));
      var global := if index + 1 == |manifest.targets| then Prepared else Preparing;
      PublishState(NextState(state, global, state.targets[index := ready]), OnTarget(index, CandidateReady));
    }

    /** Publishes the manifest and the first state. */
    method Begin()
      requires Valid() && Durable() == Start(Spec())
      modifies this
      ensures StagedUpTo(0) && old(run) <= run
    {
      area := Active;
      Note(PublishManifest);
      PublishState(ZeroState(manifest), StateZero);
    }

    method Execute()
      requires Valid() && Durable() == Start(Spec())
      modifies this
      ensures Valid() && old(run) <= run
      ensures area == Cleaned(true) && AllPlanned(Spec(), disk)
    {
      Begin();
      var index := 0;
      while index < |manifest.targets|
        invariant 0 <= index <= |manifest.targets|
        invariant StagedUpTo(index) && old(run) <= run
      {
        StageCandidate(index);
        index := index + 1;
      }
      PublishGlobal(Committing, BeginCommit);
      CompleteCommitSteps();
      FinishTransaction();
      assert AllPlanned(Spec(), disk) by {
        AllOrNothing(Spec(), run, |run| - 1);
      }
    }
  }

  lemma StreamOne(start: Bytes, sources: seq<Bytes>, segments: seq<ManifestSegment>, index: nat)
    requires index < |segments|
    ensures start + RecipeBytes(sources, segments[..index]) + SegmentBytes(sources, segments[index]) ==
            start + RecipeBytes(sources, segments[..index + 1])
  {
    RecipeSnoc(sources, segments[..index], segments[index]);
    assert segments[..index + 1] == segments[..index] + [segments[index]];
  }

  /** The record files of a journal, by sequence number. */
  function RecordFiles(log: seq<StateSnapshot>): (files: map<nat, StateSnapshot>)
    ensures forall k: nat :: k in files <==> k < |log|
    ensures forall k: nat | k < |log| :: files[k] == log[k]
    ensures |files| == |log|
  {
    if log == [] then map[]
    else
      var n := |log| - 1;
      assert n !in RecordFiles(log[..n]);
      RecordFiles(log[..n])[n := log[n]]
  }

  lemma FilesKeepTheLog(files: map<nat, StateSnapshot>, log: seq<StateSnapshot>)
    requires forall k: nat | k < |log| :: k in files && files[k] == log[k]
    ensures InOrder(files, |log|) == log
  {
  }

  lemma RecordFilesInOrder(manifest: Manifest, log: seq<StateSnapshot>)
    requires AcceptedChain(manifest, log)
    ensures AcceptedUpTo(manifest, RecordFiles(log), |log|)
  {
    FilesKeepTheLog(RecordFiles(log), log);
  }

  lemma TemporaryIsAccepted(manifest: Manifest, log: seq<StateSnapshot>, next: StateSnapshot)
    requires log != [] && AcceptedChain(manifest, log) && AcceptedChain(manifest, log + [next])
    ensures ValidLink(manifest, next, |log|) && Last(log).sequence + 1 == |log| && ValidSuccessor(Last(log), next)
  {
    var longer := log + [next];
    assert ValidLink(manifest, log[|log| - 1], |log| - 1);
    assert ValidLink(manifest, longer[|log|], |log|);
    assert ValidSuccessor(longer[|log| - 1], longer[|log|]);
  }
}
