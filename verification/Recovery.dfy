/** What every run guarantees, and when recovery can go on after a crash. */
module Recovery {
  import opened Common
  import opened Journal
  import opened RecoveryClassifier
  import opened Protocol
  import opened ProtocolInvariant

  // ----- safety over whole runs

  /** Appending the effect of an enabled action to a run. */
  lemma RunExtends(job: Job, run: seq<World>, a: Action) returns (next: World)
    requires IsRun(job, run) && Enabled(job, run[|run| - 1], a)
    ensures next == Apply(job, run[|run| - 1], a) && IsRun(job, run + [next])
  {
    next := Apply(job, run[|run| - 1], a);
    assert Next(job, run[|run| - 1], next);
  }

  /** A run cut short anywhere is a run: a crash between any two actions is covered. */
  lemma CrashAnywhere(job: Job, run: seq<World>, k: nat)
    requires IsRun(job, run) && 0 < k <= |run|
    ensures IsRun(job, run[..k])
  {
  }

  /** All or nothing: whatever was interrupted and recovered on the way, a transaction that ends as
      committed has every target as planned and one that ends as rolled back has every target in its
      original state, and cleaning up does not change that. */
  lemma AllOrNothing(job: Job, run: seq<World>, k: nat)
    requires ValidJob(job) && IsRun(job, run) && k < |run|
    ensures run[k].area.Completed? || run[k].area.Cleaned? ==> Outcome(job, run[k].disk, run[k].area.committed)
  {
    RunKeeps(job, run, k);
  }

  /** Until terminal cleanup, an original file is at exactly one of its path and its backup name. */
  ghost predicate OriginalKept(original: Slot, loc: Locations) {
    original.Some? ==>
      && (loc.target == original) != (loc.backup == original)
      && !(SlotHas(loc.target, original.value.identity) && SlotHas(loc.backup, original.value.identity))
  }

  lemma OriginalNeverLost(job: Job, run: seq<World>, k: nat, i: nat)
    requires ValidJob(job) && IsRun(job, run) && k < |run| && i < |job.initial|
    requires run[k].area == Orphan || run[k].area == Active
    ensures i < |run[k].disk| && OriginalKept(job.initial[i], run[k].disk[i])
  {
    RunKeeps(job, run, k);
    InvKeepsOriginal(job, run[k], i);
  }

  lemma InvKeepsOriginal(job: Job, w: World, i: nat)
    requires Inv(job, w) && (w.area == Orphan || w.area == Active) && i < |job.initial|
    ensures OriginalKept(job.initial[i], w.disk[i])
  {
    if w.log != [] && w.area == Active {
      var s := Last(w.log);
      assert TargetInv(job.manifest.targets[i], job.initial[i], s.global, s.targets[i], w.disk[i]);
      assert Describes(job.manifest.targets[i], job.initial[i], Planned(job, i));
    }
  }

  // ----- reports

  datatype Visibility = AllOriginalReported | MixedPossible | AllPlannedReported | NothingReported

  function VisibilityForState(global: GlobalState): Visibility {
    match global
    case Preparing | Prepared | RolledBack => AllOriginalReported
    case Committing | RollingBack => MixedPossible
    case Committed => AllPlannedReported
  }

  /** A state temporary without its manifest: the scan refuses the directory. */
  predicate ManifestLost(w: World) {
    w.area == Orphan && w.temporary.Some?
  }

  /** The visibility that a scan reports for the transaction directory, if it accepts it. */
  function ReportedVisibility(w: World): Visibility {
    match w.area
    case Orphan => if ManifestLost(w) then NothingReported else AllOriginalReported
    case Active => if w.log == [] then AllOriginalReported else VisibilityForState(Last(w.log).global)
    case Completed(committed) => if committed then AllPlannedReported else AllOriginalReported
    case Cleaned(committed) => if committed then AllPlannedReported else AllOriginalReported
  }

  /** A report of `all_original` or `all_planned` is true in every reachable state. */
  lemma ReportsAreTrue(job: Job, run: seq<World>, k: nat)
    requires ValidJob(job) && IsRun(job, run) && k < |run|
    ensures ReportedVisibility(run[k]) == AllOriginalReported ==> AllOriginal(job, run[k].disk)
    ensures ReportedVisibility(run[k]) == AllPlannedReported ==> AllPlanned(job, run[k].disk)
  {
    RunKeeps(job, run, k);
    var w := run[k];
    if w.area == Active && w.log != [] {
      var s := Last(w.log);
      forall i | 0 <= i < |w.disk|
        ensures VisibilityForState(s.global) == AllOriginalReported ==> w.disk[i].target == job.initial[i]
        ensures VisibilityForState(s.global) == AllPlannedReported ==> HoldsPlan(job, i, w.disk[i].target)
      {
        assert TargetInv(job.manifest.targets[i], job.initial[i], s.global, s.targets[i], w.disk[i]);
        assert Describes(job.manifest.targets[i], job.initial[i], Planned(job, i));
      }
    }
  }

  /** No record says yet that targets may be touched. */
  ghost predicate Undecided(log: seq<StateSnapshot>) {
    forall k | 0 <= k < |log| :: log[k].global in {Preparing, Prepared}
  }

  ghost predicate Reaches(log: seq<StateSnapshot>, global: GlobalState) {
    exists k | 0 <= k < |log| :: log[k].global == global
  }

  lemma {:induction false} UndecidedBefore(manifest: Manifest, log: seq<StateSnapshot>, i: nat, j: nat)
    requires AcceptedChain(manifest, log) && i <= j < |log| && log[j].global in {Preparing, Prepared}
    ensures log[i].global in {Preparing, Prepared}
    decreases j
  {
    if i < j {
      assert ValidSuccessor(log[j - 1], log[j]);
      UndecidedBefore(manifest, log, i, j - 1);
    }
  }

  /** What the last record of an accepted journal tells of all of them. */
  lemma LastTells(manifest: Manifest, log: seq<StateSnapshot>)
    requires AcceptedChain(manifest, log)
    ensures Undecided(log) <==> Last(log).global in {Preparing, Prepared}
    ensures Reaches(log, Committed) <==> Last(log).global == Committed
    ensures Reaches(log, RolledBack) <==> Last(log).global == RolledBack
  {
    var n := |log| - 1;
    forall k | 0 <= k < |log|
      ensures Last(log).global in {Preparing, Prepared} ==> log[k].global in {Preparing, Prepared}
      ensures log[k].global == Committed || log[k].global == RolledBack ==> k == n
    {
      ChainDecidesOnce(manifest, log, k, n);
      if Last(log).global in {Preparing, Prepared} {
        UndecidedBefore(manifest, log, k, n);
      }
    }
  }

  /** And the reports are as strong as the journal allows: `mixed_possible` is reported only between the record
      that decides and the one that concludes. */
  lemma ReportsAreExact(job: Job, run: seq<World>, k: nat)
    requires ValidJob(job) && IsRun(job, run) && k < |run| && run[k].area == Active
    ensures ReportedVisibility(run[k]) == AllOriginalReported <==>
              Undecided(run[k].log) || Reaches(run[k].log, RolledBack)
    ensures ReportedVisibility(run[k]) == AllPlannedReported <==> Reaches(run[k].log, Committed)
    ensures ReportedVisibility(run[k]) != NothingReported
  {
    JournalIsAcceptedAndBounded(job, run, k);
    if run[k].log != [] {
      LastTells(job.manifest, run[k].log);
    }
  }

  /** Once the directory has ended, the report is its suffix; before the manifest is published, or after it has
      been unlinked, all is original. */
  lemma OtherReportsAreExact(w: World)
    ensures w.area == Orphan ==>
              ReportedVisibility(w) == if w.temporary.Some? then NothingReported else AllOriginalReported
    ensures w.area.Completed? || w.area.Cleaned? ==>
              (ReportedVisibility(w) == AllPlannedReported <==> w.area.committed)
              && (ReportedVisibility(w) == AllOriginalReported <==> !w.area.committed)
  {
  }

  // ----- the journal

  /** Every record that any executor publishes passes the scan's validation, a left-over temporary
      would pass it too, and n targets never need more than 4n + 4 records. */
  lemma JournalIsAcceptedAndBounded(job: Job, run: seq<World>, k: nat)
    requires ValidJob(job) && IsRun(job, run) && k < |run|
    requires run[k].area == Active
    ensures run[k].log != [] ==> AcceptedChain(job.manifest, run[k].log)
    ensures run[k].temporary.Some? ==> AcceptedChain(job.manifest, run[k].log + [run[k].temporary.value])
    ensures |run[k].log| <= 4 * |job.manifest.targets| + 4 <= 404 < MAX_STATE_RECORDS
  {
    RunKeeps(job, run, k);
    PendingIsAccepted(job, run[k]);
    if run[k].log != [] {
      TargetsRankBound(Last(run[k].log).targets);
    }
  }

  lemma PendingIsAccepted(job: Job, w: World)
    requires ValidJob(job) && Inv(job, w) && w.area == Active
    ensures w.temporary.Some? ==> AcceptedChain(job.manifest, w.log + [w.temporary.value])
  {
    if w.temporary.Some? {
      ActionKeeps(job, w, PublishTemporary);
      var w' := Apply(job, w, PublishTemporary);
      assert w'.log != [];
    }
  }

  /** Every published record strictly increases the rank. */
  lemma PublicationIncreasesRank(job: Job, run: seq<World>, k: nat)
    requires ValidJob(job) && IsRun(job, run) && 0 < k < |run|
    requires run[k].area == Active && run[k - 1].log != [] && run[k].log != run[k - 1].log
    ensures |run[k].log| == |run[k - 1].log| + 1
    ensures Rank(Last(run[k].log)) > Rank(Last(run[k - 1].log))
  {
    var w := run[k - 1];
    RunKeeps(job, run, k - 1);
    var a :| Enabled(job, w, a) && run[k] == Apply(job, w, a);
    assert a == PublishTemporary;
    var tr :| Pending(job, w, tr);
    RecordIncreasesRank(job, w.(temporary := None), tr);
  }

  lemma RecordIncreasesRank(job: Job, w: World, tr: Transition)
    requires w.log != [] && Justified(job, w, tr)
    ensures Rank(Record(job, w, tr)) > Rank(Last(w.log))
  {
    if tr.OnTarget? {
      TargetsRankUpdate(Last(w.log).targets, tr.i, Record(job, w, tr).targets[tr.i]);
    }
  }

  // ----- what recovery sees

  function ObserveLocation(
    slot: Slot, t: ManifestTarget, recorded: TargetState, candidateLocation: bool,
    global: GlobalState): LocationObservation
  {
    if slot.None? then Absent
    else if t.originalExisted && MatchesOriginal(slot.value, t) then Original
    else if recorded.candidate.kind == Ready && MatchesCandidate(slot.value, t, recorded) then Candidate
    else if candidateLocation && global == Preparing then Candidate
    else Unexpected
  }

  function ObserveBackup(slot: Slot, t: ManifestTarget): LocationObservation {
    if slot.None? then Absent else if t.originalExisted && MatchesOriginal(slot.value, t) then Original else Unexpected
  }

  function ObserveTarget(
    t: ManifestTarget, loc: Locations, recorded: TargetState, global: GlobalState): TargetObservation
  {
    TargetObservation(
      true,
      ObserveLocation(loc.target, t, recorded, false, global),
      ObserveLocation(loc.candidate, t, recorded, true, global),
      ObserveBackup(loc.backup, t))
  }

  datatype RecoveryMode = Complete | Rollback

  predicate Allows(d: RecoveryDisposition, mode: RecoveryMode) {
    (if mode == Complete then d.complete else d.rollback) || d.cleanupOnly
  }

  predicate TargetAllows(
    t: ManifestTarget, loc: Locations, recorded: TargetState, global: GlobalState, mode: RecoveryMode)
  {
    var r := ClassifyRecovery(global, t.originalExisted, recorded, ObserveTarget(t, loc, recorded, global));
    r.Ok? && Allows(r.value, mode)
  }

  /** The classification of all targets admits the recovery. */
  predicate Admits(job: Job, s: StateSnapshot, disk: seq<Locations>, mode: RecoveryMode)
    requires |disk| == |s.targets| == |job.manifest.targets|
  {
    forall i | 0 <= i < |disk| :: TargetAllows(job.manifest.targets[i], disk[i], s.targets[i], s.global, mode)
  }

  // ----- what recovery accepts, of whatever is on disk

  /** The very file that was there before: same object, same bytes. */
  ghost predicate IsOriginal(original: Slot, slot: Slot) {
    && slot.Some? && original.Some?
    && slot.value.identity == original.value.identity
    && slot.value.bytes == original.value.bytes
  }

  /** The file recorded as staged, with the planned bytes. */
  ghost predicate IsCandidate(original: Slot, planned: Bytes, recorded: TargetState, slot: Slot) {
    && slot.Some? && recorded.candidate.kind == Ready
    && recorded.candidate.identity == Some(slot.value.identity)
    && slot.value.bytes == planned
    && !IsOriginal(original, slot)
  }

  /** The original, or its absence, is where it was. */
  ghost predicate AtPath(original: Slot, loc: Locations) {
    (if original.Some? then IsOriginal(original, loc.target) else loc.target.None?) && loc.backup.None?
  }

  /** The original is at its backup name and nothing has replaced it. */
  ghost predicate SetAside(original: Slot, loc: Locations) {
    loc.target.None? && IsOriginal(original, loc.backup)
  }

  /** The candidate has replaced the original, which is at its backup name. */
  ghost predicate Replaced(original: Slot, planned: Bytes, recorded: TargetState, loc: Locations) {
    && IsCandidate(original, planned, recorded, loc.target)
    && loc.candidate.None?
    && (if original.Some? then IsOriginal(original, loc.backup) else loc.backup.None?)
  }

  /** The original, or its absence, has been restored as recorded, and nothing is left over. */
  ghost predicate Restored(original: Slot, recorded: TargetState, loc: Locations) {
    && recorded.rollback.kind == (if original.Some? then OriginalRestored else AbsenceRestored)
    && AtPath(original, loc)
    && loc.candidate.None?
  }

  /** The states in which the protocol can leave a target under a record. */
  ghost predicate Authorized(
    original: Slot, planned: Bytes, global: GlobalState, recorded: TargetState, loc: Locations)
  {
    var staged := IsCandidate(original, planned, recorded, loc.candidate);
    var replaced := Replaced(original, planned, recorded, loc);
    match global
    case Preparing => AtPath(original, loc) && !IsOriginal(original, loc.candidate)
    case Prepared => AtPath(original, loc) && staged
    case Committing => (
      match recorded.commit.kind
      case Untouched => ((AtPath(original, loc) || SetAside(original, loc)) && staged) || replaced
      case BackedUp => original.Some? && ((SetAside(original, loc) && staged) || replaced)
      case Installed => replaced)
    case Committed => replaced
    case RollingBack =>
      if recorded.rollback.kind == NotRestored then
        || ((AtPath(original, loc) || SetAside(original, loc)) && (loc.candidate.None? || staged))
        || replaced
      else
        Restored(original, recorded, loc)
    case RolledBack => Restored(original, recorded, loc)
  }

  /** The fingerprints of the manifest identify the files. */
  lemma FingerprintsIdentify(t: ManifestTarget, original: Slot, planned: Bytes, recorded: TargetState, slot: Slot)
    requires Describes(t, original, planned)
    ensures t.originalExisted && HoldsOriginal(slot, t) <==> IsOriginal(original, slot)
    ensures recorded.candidate.kind == Ready && HoldsCandidate(slot, t, recorded) && !IsOriginal(original, slot) <==>
            IsCandidate(original, planned, recorded, slot)
  {
  }

  /** What each observation means of the file at a location. */
  lemma ObservationMeans(
    t: ManifestTarget, original: Slot, planned: Bytes, recorded: TargetState, slot: Slot, candidateLocation: bool,
    global: GlobalState)
    requires Describes(t, original, planned)
    ensures var seen := ObserveLocation(slot, t, recorded, candidateLocation, global);
            && (seen == Absent <==> slot.None?)
            && (seen == Original <==> IsOriginal(original, slot))
            && (seen == Candidate <==>
                || IsCandidate(original, planned, recorded, slot)
                || (candidateLocation && global == Preparing && slot.Some? && !IsOriginal(original, slot)))
    ensures ObserveBackup(slot, t) == Absent <==> slot.None?
    ensures ObserveBackup(slot, t) == Original <==> IsOriginal(original, slot)
    ensures ObserveBackup(slot, t) != Candidate
  {
    FingerprintsIdentify(t, original, planned, recorded, slot);
  }

  /** Every accepted target may be rolled back, and completed once everything is staged. */
  lemma DispositionMeans(global: GlobalState, originalExisted: bool, recorded: TargetState, o: TargetObservation)
    requires ClassifyRecovery(global, originalExisted, recorded, o).Ok?
    ensures var d := ClassifyRecovery(global, originalExisted, recorded, o).value;
            && Allows(d, Rollback)
            && (Allows(d, Complete) <==> global in {Prepared, Committing, Committed, RolledBack})
  {
  }

  /** Whatever is on disk, third-party files included: the classifier accepts a target if and only if it is in a
      state in which the protocol can leave it under that record. */
  lemma ClassifiedExactly(
    t: ManifestTarget, original: Slot, planned: Bytes, global: GlobalState, recorded: TargetState, loc: Locations)
    requires Describes(t, original, planned)
    ensures ClassifyRecovery(global, t.originalExisted, recorded, ObserveTarget(t, loc, recorded, global)).Ok? <==>
            Authorized(original, planned, global, recorded, loc)
  {
    ObservationMeans(t, original, planned, recorded, loc.target, false, global);
    ObservationMeans(t, original, planned, recorded, loc.candidate, true, global);
    ObservationMeans(t, original, planned, recorded, loc.backup, false, global);
  }

  /** Each recovery is admitted exactly there, in the phases that permit it. */
  lemma AcceptedExactly(
    t: ManifestTarget, original: Slot, planned: Bytes, global: GlobalState, recorded: TargetState, loc: Locations,
    mode: RecoveryMode)
    requires Describes(t, original, planned)
    ensures TargetAllows(t, loc, recorded, global, mode) <==>
            && Authorized(original, planned, global, recorded, loc)
            && (mode == Rollback || global in {Prepared, Committing, Committed, RolledBack})
  {
    var o := ObserveTarget(t, loc, recorded, global);
    ClassifiedExactly(t, original, planned, global, recorded, loc);
    if ClassifyRecovery(global, t.originalExisted, recorded, o).Ok? {
      DispositionMeans(global, t.originalExisted, recorded, o);
    }
  }

  /** A recovery is admitted only if no location of any target holds anything but the original, the recorded
      candidate, or an unrecorded candidate while preparing. */
  lemma AdmitsExactly(job: Job, s: StateSnapshot, disk: seq<Locations>, mode: RecoveryMode)
    requires ValidJob(job) && |disk| == |s.targets| == |job.manifest.targets|
    ensures Admits(job, s, disk, mode) <==>
            && (mode == Rollback || s.global in {Prepared, Committing, Committed, RolledBack})
            && forall i | 0 <= i < |disk| ::
                 Authorized(job.initial[i], Planned(job, i), s.global, s.targets[i], disk[i])
  {
    var permitted := mode == Rollback || s.global in {Prepared, Committing, Committed, RolledBack};
    forall i | 0 <= i < |disk|
      ensures TargetAllows(job.manifest.targets[i], disk[i], s.targets[i], s.global, mode) <==>
              Authorized(job.initial[i], Planned(job, i), s.global, s.targets[i], disk[i]) && permitted
    {
      AcceptedExactly(
        job.manifest.targets[i], job.initial[i], Planned(job, i), s.global, s.targets[i], disk[i], mode);
    }
    if Admits(job, s, disk, mode) {
      assert TargetAllows(job.manifest.targets[0], disk[0], s.targets[0], s.global, mode);
    }
  }

  /** The candidate recorded for a target cannot be told from its original. */
  ghost predicate Indistinct(original: Slot, planned: Bytes, recorded: TargetState) {
    original.Some? && recorded.candidate.identity == Some(original.value.identity) && planned == original.value.bytes
  }

  /** The validator and the classifier fit: under every record that the scan accepts each target has a state that
      recovery accepts, unless its candidate is recorded as being its original. */
  lemma AcceptedRecordsAreSatisfiable(
    t: ManifestTarget, original: Slot, planned: Bytes, s: StateSnapshot, k: nat) returns (loc: Locations)
    requires Describes(t, original, planned) && ValidShape(s) && k < |s.targets|
    requires ConsistentWithOriginal(s.targets[k], t.originalExisted) && !Indistinct(original, planned, s.targets[k])
    ensures Authorized(original, planned, s.global, s.targets[k], loc)
  {
    var recorded := s.targets[k];
    assert recorded in s.targets && ValidTargetFields(recorded);
    loc := Locations(original, None, None);
    if recorded.candidate.kind == Ready {
      var candidate := Some(File(recorded.candidate.identity.value, planned, NEW_CANDIDATE_MODE));
      if s.global == Committed || (s.global == Committing && recorded.commit.kind != Untouched) {
        loc := Locations(candidate, None, original);
      } else if s.global in {Prepared, Committing} {
        loc := Locations(original, candidate, None);
      }
    }
  }

  /** A third party's file at a target, a candidate or a backup name is a conflict. */
  lemma ForeignFilesConflict(
    t: ManifestTarget, original: Slot, planned: Bytes, global: GlobalState, recorded: TargetState, loc: Locations,
    slot: Slot)
    requires Describes(t, original, planned) && slot.Some?
    requires slot == loc.target || slot == loc.backup || (slot == loc.candidate && global != Preparing)
    requires !IsOriginal(original, slot) && !IsCandidate(original, planned, recorded, slot)
    ensures !TargetAllows(t, loc, recorded, global, Complete) && !TargetAllows(t, loc, recorded, global, Rollback)
  {
    ClassifiedExactly(t, original, planned, global, recorded, loc);
  }

  /** A candidate file without a ready record, under a record that is already rolling back. */
  predicate Stranded(recorded: TargetState, loc: Locations, global: GlobalState) {
    global == RollingBack && recorded.candidate.kind == Missing && loc.candidate.Some?
  }

  lemma TargetAdmission(
    t: ManifestTarget, original: Slot, global: GlobalState, recorded: TargetState, loc: Locations)
    requires Sound(t, original, global, recorded, loc)
    requires Describes(t, original, t.candidateDigest.preimage)
    ensures TargetAllows(t, loc, recorded, global, Rollback) <==> !Stranded(recorded, loc, global)
    ensures TargetAllows(t, loc, recorded, global, Complete) <==>
              global in {Prepared, Committing, Committed, RolledBack}
  {
  }

  /** Crash closure, exactly: whatever a crash leaves on disk is classified, and admits rollback unless
      a candidate file without a ready record outlived the switch to rolling back, and completion
      whenever the last record is at least prepared and not rolling back.  In the excluded case every
      original is still in place. */
  lemma CrashStatesAdmitRecovery(job: Job, run: seq<World>, k: nat)
    requires ValidJob(job) && IsRun(job, run) && k < |run|
    requires run[k].area == Active && run[k].log != []
    ensures |run[k].disk| == |Last(run[k].log).targets| == |job.manifest.targets| == |job.initial|
    ensures var s, disk := Last(run[k].log), run[k].disk;
            var stranded := exists i | 0 <= i < |disk| :: Stranded(s.targets[i], disk[i], s.global);
            && (Admits(job, s, disk, Rollback) <==> !stranded)
            && (Admits(job, s, disk, Complete) <==> s.global in {Prepared, Committing, Committed, RolledBack})
            && (stranded ==> Pristine(job, disk))
  {
    RunKeeps(job, run, k);
    InvAdmitsRecovery(job, run[k].(temporary := None));
  }

  lemma EachTargetAdmits(job: Job, w: World, i: nat)
    requires Inv(job, w) && w.area == Active && w.log != [] && w.temporary.None? && i < |w.disk|
    ensures |w.disk| == |Last(w.log).targets| == |job.manifest.targets|
    ensures var s := Last(w.log);
            && (TargetAllows(job.manifest.targets[i], w.disk[i], s.targets[i], s.global, Rollback) <==>
                  !Stranded(s.targets[i], w.disk[i], s.global))
            && (TargetAllows(job.manifest.targets[i], w.disk[i], s.targets[i], s.global, Complete) <==>
                  s.global in {Prepared, Committing, Committed, RolledBack})
  {
    LastIsSound(job, w);
    assert Describes(job.manifest.targets[i], job.initial[i], Planned(job, i));
    TargetAdmission(job.manifest.targets[i], job.initial[i], Last(w.log).global, Last(w.log).targets[i], w.disk[i]);
  }

  lemma InvAdmitsRecovery(job: Job, w: World)
    requires Inv(job, w) && w.area == Active && w.log != [] && w.temporary.None?
    ensures |w.disk| == |Last(w.log).targets| == |job.manifest.targets| == |job.initial|
    ensures var s, disk := Last(w.log), w.disk;
            var stranded := exists i | 0 <= i < |disk| :: Stranded(s.targets[i], disk[i], s.global);
            && (Admits(job, s, disk, Rollback) <==> !stranded)
            && (Admits(job, s, disk, Complete) <==> s.global in {Prepared, Committing, Committed, RolledBack})
            && (stranded ==> Pristine(job, disk))
  {
    var s := Last(w.log);
    forall i | 0 <= i < |w.disk|
      ensures TargetAllows(job.manifest.targets[i], w.disk[i], s.targets[i], s.global, Rollback) <==>
              !Stranded(s.targets[i], w.disk[i], s.global)
      ensures TargetAllows(job.manifest.targets[i], w.disk[i], s.targets[i], s.global, Complete) <==>
              s.global in {Prepared, Committing, Committed, RolledBack}
    {
      EachTargetAdmits(job, w, i);
    }
    EachTargetAdmits(job, w, 0);
  }

  /** The checks of `publish_state` on the next record. */
  predicate Publishable(manifest: Manifest, log: seq<StateSnapshot>, next: StateSnapshot) {
    && next.manifestChecksum == ManifestChecksum(manifest)
    && ValidAgainstManifest(next, manifest)
    && next.priorChecksum == (if log == [] then None else Some(StateChecksum(Last(log))))
    && (if log == [] then ValidFirst(next) && ValidShape(next) else ValidTransition(Last(log), next))
  }

  /** The executor never writes a record that its own validator refuses. */
  lemma RecordsArePublishable(job: Job, w: World, tr: Transition)
    requires Inv(job, w) && Justified(job, w, tr)
    ensures Publishable(job.manifest, w.log, Record(job, w, tr))
  {
    RecordKeeps(job, w, tr);
    var next := Record(job, w, tr);
    var longer := w.log + [next];
    var n := |w.log|;
    assert longer[n] == next && ValidLink(job.manifest, longer[n], n);
    assert n > 0 ==> longer[n - 1] == Last(w.log) && ValidSuccessor(longer[n - 1], longer[n]);
  }

  /** How a target that is being committed looks. */
  lemma CommittingLocations(t: ManifestTarget, original: Slot, recorded: TargetState, loc: Locations)
    requires Sound(t, original, Committing, recorded, loc)
    requires Describes(t, original, t.candidateDigest.preimage)
    ensures var seen := ObserveTarget(t, loc, recorded, Committing);
            if seen.target == Candidate then HoldsCandidate(loc.target, t, recorded)
            else
              && recorded.commit.kind != Installed
              && HoldsCandidate(loc.candidate, t, recorded)
              && (if seen.backup == Original then original.Some? && HoldsOriginal(loc.backup, t) && loc.target.None?
                  else
                    && recorded.commit.kind == Untouched && loc.backup.None?
                    && (t.originalExisted ==> HoldsOriginal(loc.target, t))
                    && (!t.originalExisted ==> loc.target.None?))
  {
  }

  /** How a target that is being rolled back looks, step by step. */
  lemma RollingBackLocations(t: ManifestTarget, original: Slot, recorded: TargetState, loc: Locations)
    requires Sound(t, original, RollingBack, recorded, loc)
    requires Describes(t, original, t.candidateDigest.preimage)
    ensures recorded.rollback.kind != NotRestored ==>
              && loc.candidate.None? && loc.backup.None?
              && !HoldsCandidate(loc.target, t, recorded)
    ensures ObserveLocation(loc.target, t, recorded, false, RollingBack) == Candidate <==>
              HoldsCandidate(loc.target, t, recorded)
    ensures !HoldsCandidate(loc.target, t, recorded) && loc.backup.Some? ==> loc.target.None?
    ensures loc.backup.Some? ==> t.originalExisted && HoldsOriginal(loc.backup, t)
    ensures loc.candidate.Some? && recorded.candidate.kind == Ready ==> HoldsCandidate(loc.candidate, t, recorded)
    ensures !HoldsCandidate(loc.target, t, recorded) && loc.backup.None? ==>
              if t.originalExisted then HoldsOriginal(loc.target, t) else loc.target.None?
  {
  }

  /** When an explicit recovery succeeds, as a caller can tell beforehand from what is on disk. */
  predicate Recoverable(job: Job, w: World, mode: RecoveryMode) {
    match w.area
    case Orphan => mode == Rollback && !ManifestLost(w)
    case Active =>
      if w.log == [] then mode == Rollback
      else if mode == Complete then Last(w.log).global in {Prepared, Committing, Committed}
      else
        && Last(w.log).global != Committed
        && |w.disk| == |Last(w.log).targets|
        && !exists i | 0 <= i < |w.disk| :: Stranded(Last(w.log).targets[i], w.disk[i], Last(w.log).global)
    case Completed(committed) => committed == (mode == Complete)
    case Cleaned(_) => false
  }

  lemma {:induction false} RecipeSnoc(sources: seq<Bytes>, segments: seq<ManifestSegment>, last: ManifestSegment)
    ensures RecipeBytes(sources, segments + [last]) == RecipeBytes(sources, segments) + SegmentBytes(sources, last)
  {
    if segments == [] {
      assert segments + [last] == [last];
    } else {
      RecipeSnoc(sources, segments[1..], last);
      assert (segments + [last])[1..] == segments[1..] + [last];
    }
  }

  /** Every transaction can come to hold a candidate file that no record mentions. */
  lemma UnrecordedCandidate(job: Job, identity: Identity) returns (run: seq<World>)
    requires ValidJob(job) && !Live(Start(job).disk, identity)
    ensures IsRun(job, run)
    ensures var w := run[|run| - 1];
            && Running(job, w) && w.log == [ZeroState(job.manifest)]
            && w.disk == Start(job).disk[0 := w.disk[0]] && w.disk[0].candidate.Some?
            && w.disk[0].target == job.initial[0]
  {
    run := [Start(job)];
    var w := RunExtends(job, run, PublishManifest);
    run := run + [w];
    w := RunExtends(job, run, WriteTemporary(StateZero));
    run := run + [w];
    w := RunExtends(job, run, PublishTemporary);
    run := run + [w];
    assert w.log == [ZeroState(job.manifest)];
    w := RunExtends(job, run, MoveTarget(0, CreateCandidate(identity)));
    run := run + [w];
  }

  /** The excluded case happens, in every transaction: a crash after a candidate was created and another
      one right after the rollback has recorded that it began leave a transaction that no recovery
      accepts any more, with every target in its original state. */
  lemma StrandingIsReachable(job: Job, identity: Identity) returns (run: seq<World>)
    requires ValidJob(job) && !Live(Start(job).disk, identity)
    ensures IsRun(job, run)
    ensures var w := run[|run| - 1];
            && w.area == Active && w.log != [] && w.temporary.None?
            && !Recoverable(job, w, Complete) && !Recoverable(job, w, Rollback)
            && AllOriginal(job, w.disk)
  {
    run := UnrecordedCandidate(job, identity);
    var zero := ZeroState(job.manifest);
    var w := RunExtends(job, run, WriteTemporary(BeginRollback));
    run := run + [w];
    w := RunExtends(job, run, PublishTemporary);
    run := run + [w];
    assert Last(w.log) == NextState(zero, RollingBack, zero.targets);
    assert Stranded(Last(w.log).targets[0], w.disk[0], RollingBack);
  }

  /** The other one happens too, in every transaction: a crash after the first record was written beside
      the journal and another one right after the rollback has unlinked the manifest leave a directory
      that the scan refuses, with every target in its original state. */
  lemma ManifestLossIsReachable(job: Job) returns (run: seq<World>)
    requires ValidJob(job)
    ensures IsRun(job, run)
    ensures var w := run[|run| - 1];
            && ManifestLost(w)
            && !Recoverable(job, w, Complete) && !Recoverable(job, w, Rollback)
            && AllOriginal(job, w.disk)
  {
    run := [Start(job)];
    var w := RunExtends(job, run, PublishManifest);
    run := run + [w];
    w := RunExtends(job, run, WriteTemporary(StateZero));
    run := run + [w];
    w := RunExtends(job, run, RemoveManifest);
    run := run + [w];
  }

  /** A candidate file without a ready record outlived the switch to rolling back. */
  predicate CandidateLost(w: World) {
    && w.area == Active && w.log != [] && |w.disk| <= |Last(w.log).targets|
    && exists i | 0 <= i < |w.disk| :: Stranded(Last(w.log).targets[i], w.disk[i], Last(w.log).global)
  }

  /** These two are all: at every point of every run that has not ended, some recovery succeeds unless one
      of them has happened, and then every target is in its original state. */
  lemma StuckExactly(job: Job, run: seq<World>, k: nat)
    requires ValidJob(job) && IsRun(job, run) && k < |run| && !run[k].area.Cleaned?
    ensures var w := run[k];
            && (Recoverable(job, w, Complete) || Recoverable(job, w, Rollback) <==>
                !ManifestLost(w) && !CandidateLost(w))
            && (ManifestLost(w) || CandidateLost(w) ==> AllOriginal(job, w.disk))
  {
    RunKeeps(job, run, k);
    var w := run[k];
    if w.area == Active && w.log != [] {
      CrashStatesAdmitRecovery(job, run, k);
    }
  }
}
