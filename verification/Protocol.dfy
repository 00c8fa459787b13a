/** The commit and recovery protocol as a state machine over what survives a crash.

    A `World` holds only durable state: the locations of every target, the published records, a
    state temporary and the place of the transaction directory.  A crash loses nothing else, so a
    run that is cut short anywhere is again a run, and whatever any process does next (completing,
    rolling back, cleaning up) continues it. */
module Protocol {
  import opened Common
  import opened Journal

  datatype File = File(identity: Identity, bytes: Bytes, mode: Mode)

  type Slot = Option<File>

  /** The user's path and the two generated names inside the transaction directory. */
  datatype Locations = Locations(target: Slot, candidate: Slot, backup: Slot)

  /** Where the transaction directory is: without a manifest (before it is published, or after a rollback of
      control records has unlinked it), active, renamed below `completed` with its suffix, or removed. */
  datatype Area = Orphan | Active | Completed(committed: bool) | Cleaned(committed: bool)

  datatype World = World(
    area: Area, disk: seq<Locations>, log: seq<StateSnapshot>, temporary: Option<StateSnapshot>)

  /** A transaction: its manifest, the targets as they were before, and the snapshot's file bytes. */
  datatype Job = Job(manifest: Manifest, initial: seq<Slot>, sources: seq<Bytes>)

  // ----- what a manifest says about the job

  function SegmentBytes(sources: seq<Bytes>, segment: ManifestSegment): Bytes {
    if segment.inputIndex < |sources| && segment.start <= segment.end <= |sources[segment.inputIndex]| then
      sources[segment.inputIndex][segment.start..segment.end]
    else
      []
  }

  /** The bytes that a segment recipe streams into a candidate. */
  function RecipeBytes(sources: seq<Bytes>, segments: seq<ManifestSegment>): Bytes {
    if segments == [] then [] else SegmentBytes(sources, segments[0]) + RecipeBytes(sources, segments[1..])
  }

  function Planned(job: Job, i: nat): Bytes
    requires i < |job.manifest.targets|
  {
    RecipeBytes(job.sources, job.manifest.targets[i].segments)
  }

  ghost predicate Describes(t: ManifestTarget, original: Slot, planned: Bytes) {
    && t.originalExisted == original.Some?
    && t.originalIdentity == (if original.Some? then Some(original.value.identity) else None)
    && t.originalLength == (if original.Some? then Some(|original.value.bytes|) else None)
    && t.originalDigest == (if original.Some? then Some(Hash(original.value.bytes)) else None)
    && t.newFileMode.Some? == original.None?
    && t.candidateLength == |planned|
    && t.candidateDigest == Hash(planned)
  }

  ghost predicate ValidJob(job: Job) {
    && 0 < |job.manifest.targets| <= MAX_TRANSACTION_TARGETS
    && |job.initial| == |job.manifest.targets|
    && (forall i | 0 <= i < |job.initial| :: Describes(job.manifest.targets[i], job.initial[i], Planned(job, i)))
    && ValidSegments(job.manifest)
    && |job.sources| <= |job.manifest.inputs|
    && (forall k | 0 <= k < |job.manifest.inputs| :: job.manifest.inputs[k].length ==
          if k < |job.sources| then Some(|job.sources[k]|) else None)
  }

  function Start(job: Job): World {
    World(Orphan, seq(|job.initial|, i requires 0 <= i < |job.initial| => Locations(job.initial[i], None, None)), [],
      None)
  }

  // ----- fingerprints

  predicate MatchesOriginal(f: File, t: ManifestTarget) {
    && t.originalIdentity == Some(f.identity)
    && t.originalLength == Some(|f.bytes|)
    && t.originalDigest == Some(Hash(f.bytes))
  }

  predicate MatchesCandidate(f: File, t: ManifestTarget, recorded: TargetState) {
    && recorded.candidate.identity == Some(f.identity)
    && t.candidateLength == |f.bytes|
    && t.candidateDigest == Hash(f.bytes)
  }

  predicate HoldsCandidate(slot: Slot, t: ManifestTarget, recorded: TargetState) {
    slot.Some? && MatchesCandidate(slot.value, t, recorded)
  }

  predicate HoldsOriginal(slot: Slot, t: ManifestTarget) {
    slot.Some? && MatchesOriginal(slot.value, t)
  }

  // ----- the records that the executor publishes

  /** What a record can report about one target. */
  datatype Report = CandidateReady | OriginalBackedUp | CandidateInstalled | OriginalStateRestored

  datatype Transition =
    | StateZero
    | OnTarget(i: nat, report: Report)
    | BeginCommit
    | FinishCommit
    | BeginRollback
    | FinishRollback

  function UntouchedTarget(index: nat): TargetState {
    TargetState(index, CandidateState(Missing, None), CommitState(Untouched, None, None),
      RollbackState(NotRestored, None))
  }

  function ZeroState(manifest: Manifest): StateSnapshot {
    StateSnapshot(1, 0, ManifestChecksum(manifest), None, Preparing,
      seq(|manifest.targets|, (i: nat) => UntouchedTarget(i)))
  }

  function Last(log: seq<StateSnapshot>): StateSnapshot
    requires log != []
  {
    log[|log| - 1]
  }

  function NextState(last: StateSnapshot, global: GlobalState, targets: seq<TargetState>): StateSnapshot {
    last.(sequence := last.sequence + 1, priorChecksum := Some(StateChecksum(last)), global := global,
      targets := targets)
  }

  /** A report is made after the filesystem action it is about has happened. */
  predicate CanReport(t: ManifestTarget, global: GlobalState, recorded: TargetState, loc: Locations, report: Report) {
    match report
    case CandidateReady =>
      && global == Preparing
      && recorded.candidate.kind == Missing
      && loc.candidate.Some?
      && |loc.candidate.value.bytes| == t.candidateLength
      && Hash(loc.candidate.value.bytes) == t.candidateDigest
    case OriginalBackedUp =>
      && global == Committing
      && recorded.commit.kind == Untouched
      && t.originalExisted
      && HoldsOriginal(loc.backup, t)
      && loc.candidate.Some?
      && loc.candidate.value.mode == loc.backup.value.mode
    case CandidateInstalled =>
      && global == Committing
      && recorded.commit.kind != Installed
      && HoldsCandidate(loc.target, t, recorded)
    case OriginalStateRestored =>
      && global == RollingBack
      && recorded.rollback.kind == NotRestored
      && loc.backup.None?
      && loc.candidate.None?
      && (if t.originalExisted then HoldsOriginal(loc.target, t) else loc.target.None?)
  }

  function Reported(
    t: ManifestTarget, global: GlobalState, recorded: TargetState, loc: Locations, report: Report): TargetState
    requires CanReport(t, global, recorded, loc, report)
  {
    match report
    case CandidateReady => recorded.(candidate := CandidateState(Ready, Some(loc.candidate.value.identity)))
    case OriginalBackedUp =>
      recorded.(commit := CommitState(BackedUp, Some(loc.backup.value.identity), Some(loc.backup.value.mode)))
    case CandidateInstalled =>
      recorded.(commit := recorded.commit.(kind := Installed, identity := Some(loc.target.value.identity)))
    case OriginalStateRestored =>
      recorded.(rollback := if t.originalExisted then RollbackState(OriginalRestored, Some(loc.target.value.identity))
                            else RollbackState(AbsenceRestored, None))
  }

  predicate Idle(job: Job, w: World) {
    && w.area == Active && w.temporary.None? && |w.disk| == |job.manifest.targets|
  }

  predicate Running(job: Job, w: World) {
    Idle(job, w) && w.log != [] && |Last(w.log).targets| == |job.manifest.targets|
  }

  /** When the executor writes which record.  Candidates become ready in target order. */
  predicate Justified(job: Job, w: World, tr: Transition) {
    && Idle(job, w)
    && (tr != StateZero ==> Running(job, w))
    && match tr
       case StateZero => w.log == []
       case OnTarget(i, report) =>
         && i < |w.disk|
         && CanReport(job.manifest.targets[i], Last(w.log).global, Last(w.log).targets[i], w.disk[i], report)
         && (report == CandidateReady ==>
               forall k | 0 <= k < |w.disk| :: Last(w.log).targets[k].candidate.kind == Ready <==> k < i)
       case BeginCommit => Last(w.log).global == Prepared
       case FinishCommit =>
         && Last(w.log).global == Committing
         && forall k | 0 <= k < |w.disk| ::
              && Last(w.log).targets[k].commit.kind == Installed
              && HoldsCandidate(w.disk[k].target, job.manifest.targets[k], Last(w.log).targets[k])
       case BeginRollback => Last(w.log).global in {Preparing, Prepared, Committing}
       case FinishRollback =>
         && Last(w.log).global == RollingBack
         && forall k | 0 <= k < |w.disk| :: Last(w.log).targets[k].rollback.kind != NotRestored
  }

  /** The record that a transition publishes. */
  function Record(job: Job, w: World, tr: Transition): StateSnapshot
    requires Justified(job, w, tr)
  {
    if tr == StateZero then ZeroState(job.manifest) else
      var last := Last(w.log);
      match tr
      case OnTarget(i, report) =>
        var t := Reported(job.manifest.targets[i], last.global, last.targets[i], w.disk[i], report);
        var global := if report == CandidateReady && i + 1 == |last.targets| then Prepared else last.global;
        NextState(last, global, last.targets[i := t])
      case BeginCommit => NextState(last, Committing, last.targets)
      case FinishCommit => NextState(last, Committed, last.targets)
      case BeginRollback => NextState(last, RollingBack, last.targets)
      case FinishRollback => NextState(last, RolledBack, last.targets)
  }

  // ----- atomic actions

  /** Atomic changes of one target's locations. */
  datatype Move =
    | CreateCandidate(identity: Identity)
    | AppendToCandidate(data: Bytes)
    | RenameToBackup
    | SetCandidateMode
    | InstallCandidate
    | RemoveInstalled
    | RestoreBackup
    | RemoveCandidate

  datatype Action =
    | PublishManifest
    | WriteTemporary(tr: Transition)
    | PublishTemporary
    | RemoveTemporary
    | MoveTarget(i: nat, move: Move)
    | FinishTransaction
    | RemoveArtifacts(i: nat)
    | RemoveDirectory
    | RemoveManifest
    | RemoveOrphan

  const NEW_CANDIDATE_MODE: Mode := 384  // 0o600

  predicate SlotHas(slot: Slot, identity: Identity) {
    slot.Some? && slot.value.identity == identity
  }

  /** Some file of the transaction uses the identity. */
  predicate Live(disk: seq<Locations>, identity: Identity) {
    exists loc | loc in disk ::
      SlotHas(loc.target, identity) || SlotHas(loc.candidate, identity) || SlotHas(loc.backup, identity)
  }

  /** The mode an installed candidate must have: the backup's, or the recorded new-file mode. */
  function IntendedMode(t: ManifestTarget, loc: Locations): Option<Mode> {
    if t.originalExisted then (if loc.backup.Some? then Some(loc.backup.value.mode) else None) else t.newFileMode
  }

  predicate CanMove(t: ManifestTarget, global: GlobalState, recorded: TargetState, loc: Locations, move: Move) {
    match move
    case CreateCandidate(identity) => global == Preparing && recorded.candidate.kind == Missing && loc.candidate.None?
    case AppendToCandidate(data) => global == Preparing && recorded.candidate.kind == Missing && loc.candidate.Some?
    case RenameToBackup =>
      && global == Committing
      && recorded.commit.kind == Untouched
      && HoldsOriginal(loc.target, t)
      && loc.backup.None?
    case SetCandidateMode => global == Committing && loc.candidate.Some? && IntendedMode(t, loc).Some?
    case InstallCandidate =>
      && global == Committing
      && (t.originalExisted ==> recorded.commit.kind == BackedUp)
      && loc.candidate.Some?
      && Some(loc.candidate.value.mode) == IntendedMode(t, loc)
      && loc.target.None?
    case RemoveInstalled => global == RollingBack && HoldsCandidate(loc.target, t, recorded)
    case RestoreBackup => global == RollingBack && HoldsOriginal(loc.backup, t) && loc.target.None?
    case RemoveCandidate => global == RollingBack && loc.candidate.Some?
  }

  function Moved(t: ManifestTarget, global: GlobalState, recorded: TargetState, loc: Locations, move: Move): Locations
    requires CanMove(t, global, recorded, loc, move)
  {
    match move
    case CreateCandidate(identity) => loc.(candidate := Some(File(identity, [], NEW_CANDIDATE_MODE)))
    case AppendToCandidate(data) =>
      loc.(candidate := Some(loc.candidate.value.(bytes := loc.candidate.value.bytes + data)))
    case RenameToBackup => loc.(target := None, backup := loc.target)
    case SetCandidateMode => loc.(candidate := Some(loc.candidate.value.(mode := IntendedMode(t, loc).value)))
    case InstallCandidate => loc.(candidate := None, target := loc.candidate)
    case RemoveInstalled => loc.(target := None)
    case RestoreBackup => loc.(backup := None, target := loc.backup)
    case RemoveCandidate => loc.(candidate := None)
  }

  predicate Enabled(job: Job, w: World, a: Action) {
    match a
    case PublishManifest => w.area == Orphan && w.temporary.None?
    case WriteTemporary(tr) => Justified(job, w, tr)
    case PublishTemporary => w.area == Active && w.temporary.Some?
    case RemoveTemporary => w.temporary.Some? && (w.area == Orphan || (w.area == Active && w.log != []))
    case MoveTarget(i, move) =>
      && Running(job, w)
      && i < |w.disk|
      && CanMove(job.manifest.targets[i], Last(w.log).global, Last(w.log).targets[i], w.disk[i], move)
      && (move.CreateCandidate? ==> !Live(w.disk, move.identity))
    case FinishTransaction => Running(job, w) && Last(w.log).global in {Committed, RolledBack}
    case RemoveArtifacts(i) => w.area.Completed? && i < |w.disk|
    case RemoveDirectory =>
      w.area.Completed? && forall k | 0 <= k < |w.disk| :: w.disk[k].candidate.None? && w.disk[k].backup.None?
    case RemoveManifest => w.area == Active && w.log == []
    case RemoveOrphan => w.area == Orphan && w.temporary.None?
  }

  function Apply(job: Job, w: World, a: Action): World
    requires Enabled(job, w, a)
  {
    match a
    case PublishManifest => w.(area := Active)
    case WriteTemporary(tr) => w.(temporary := Some(Record(job, w, tr)))
    case PublishTemporary => w.(log := w.log + [w.temporary.value], temporary := None)
    case RemoveTemporary => w.(temporary := None)
    case MoveTarget(i, move) =>
      Place(w, i, Moved(job.manifest.targets[i], Last(w.log).global, Last(w.log).targets[i], w.disk[i], move))
    case FinishTransaction => w.(area := Completed(Last(w.log).global == Committed))
    case RemoveArtifacts(i) => Place(w, i, w.disk[i].(candidate := None, backup := None))
    case RemoveDirectory => w.(area := Cleaned(w.area.committed), log := [], temporary := None)
    case RemoveManifest => w.(area := Orphan)
    case RemoveOrphan => w.(area := Cleaned(false))
  }

  function Place(w: World, i: nat, loc: Locations): World
    requires i < |w.disk|
  {
    w.(disk := w.disk[i := loc])
  }

  ghost predicate Next(job: Job, w: World, w': World) {
    exists a :: Enabled(job, w, a) && w' == Apply(job, w, a)
  }

  /** A run: durable states from the empty transaction directory on, one atomic action apart. */
  ghost predicate IsRun(job: Job, run: seq<World>) {
    && run != []
    && run[0] == Start(job)
    && forall k | 0 < k < |run| :: Next(job, run[k - 1], run[k])
  }

  // ----- the measure that bounds the journal

  function TargetRank(t: TargetState): nat {
    (if t.candidate.kind == Ready then 1 else 0) + CommitRank(t.commit.kind)
      + (if t.rollback.kind != NotRestored then 1 else 0)
  }

  function TargetsRank(ts: seq<TargetState>): nat {
    if ts == [] then 0 else TargetRank(ts[0]) + TargetsRank(ts[1..])
  }

  function GlobalRank(g: GlobalState): nat {
    match g
    case Preparing => 0
    case Prepared => 0
    case Committing => 1
    case Committed => 2
    case RollingBack => 2
    case RolledBack => 3
  }

  function Rank(s: StateSnapshot): nat {
    GlobalRank(s.global) + TargetsRank(s.targets)
  }

  lemma {:induction false} TargetsRankUpdate(ts: seq<TargetState>, i: nat, t: TargetState)
    requires i < |ts|
    ensures TargetsRank(ts[i := t]) == TargetsRank(ts) - TargetRank(ts[i]) + TargetRank(t)
  {
    if i == 0 {
      assert ts[0 := t][1..] == ts[1..];
    } else {
      TargetsRankUpdate(ts[1..], i - 1, t);
      assert ts[i := t][1..] == ts[1..][i - 1 := t];
    }
  }

  lemma {:induction false} TargetsRankBound(ts: seq<TargetState>)
    ensures TargetsRank(ts) <= 4 * |ts|
  {
    if ts != [] {
      TargetsRankBound(ts[1..]);
    }
  }

  // ----- the invariant

  /** A staged file that is not the original; complete and recorded when the record says so. */
  ghost predicate Staged(t: ManifestTarget, recorded: TargetState, slot: Slot) {
    && slot.Some?
    && Some(slot.value.identity) != t.originalIdentity
    && (recorded.candidate.kind == Ready ==> MatchesCandidate(slot.value, t, recorded))
  }

  ghost predicate CandidateIn(t: ManifestTarget, recorded: TargetState, slot: Slot) {
    recorded.candidate.kind == Ready && Staged(t, recorded, slot)
  }

  /** Nothing has touched the target yet. */
  ghost predicate AtStart(original: Slot, loc: Locations) {
    loc.target == original && loc.backup.None?
  }

  ghost predicate Swapped(t: ManifestTarget, original: Slot, recorded: TargetState, loc: Locations) {
    && CandidateIn(t, recorded, loc.target)
    && loc.candidate.None?
    && loc.backup == original
    && Some(loc.target.value.mode) == (if original.Some? then Some(original.value.mode) else t.newFileMode)
  }

  ghost predicate BetweenRenames(t: ManifestTarget, original: Slot, recorded: TargetState, loc: Locations) {
    loc.target.None? && CandidateIn(t, recorded, loc.candidate) && loc.backup == original
  }

  ghost predicate CommittingInv(t: ManifestTarget, original: Slot, recorded: TargetState, loc: Locations) {
    && recorded.candidate.kind == Ready
    && recorded.rollback.kind == NotRestored
    && match recorded.commit.kind
       case Untouched =>
         || (AtStart(original, loc) && CandidateIn(t, recorded, loc.candidate))
         || BetweenRenames(t, original, recorded, loc)
         || (original.None? && Swapped(t, original, recorded, loc))
       case BackedUp =>
         && original.Some?
         && recorded.commit.identity == Some(original.value.identity)
         && recorded.commit.preservedMode == Some(original.value.mode)
         && (|| (BetweenRenames(t, original, recorded, loc) && loc.candidate.value.mode == original.value.mode)
             || Swapped(t, original, recorded, loc))
       case Installed =>
         && recorded.commit.identity == recorded.candidate.identity
         && recorded.commit.preservedMode == (if original.Some? then Some(original.value.mode) else None)
         && Swapped(t, original, recorded, loc)
  }

  ghost predicate RollingBackInv(t: ManifestTarget, original: Slot, recorded: TargetState, loc: Locations) {
    match recorded.rollback.kind
    case NotRestored =>
      || (AtStart(original, loc) && (loc.candidate.Some? ==> Staged(t, recorded, loc.candidate)))
      || (&& recorded.candidate.kind == Ready
          && loc.target.None? && loc.backup == original
          && (loc.candidate.Some? ==> Staged(t, recorded, loc.candidate)))
      || Swapped(t, original, recorded, loc)
    case OriginalRestored => original.Some? && loc == Locations(original, None, None)
    case AbsenceRestored => original.None? && loc == Locations(None, None, None)
  }

  ghost predicate TargetInv(
    t: ManifestTarget, original: Slot, global: GlobalState, recorded: TargetState, loc: Locations)
  {
    && (recorded.candidate.kind == Ready ==> recorded.candidate.identity != t.originalIdentity)
    && match global
       case Preparing =>
         AtStart(original, loc) && (loc.candidate.Some? ==> Staged(t, recorded, loc.candidate))
         && (recorded.candidate.kind == Ready ==> loc.candidate.Some?)
       case Prepared => AtStart(original, loc) && CandidateIn(t, recorded, loc.candidate)
       case Committing => CommittingInv(t, original, recorded, loc)
       case Committed => recorded.commit.kind == Installed && CommittingInv(t, original, recorded, loc)
       case RollingBack => RollingBackInv(t, original, recorded, loc)
       case RolledBack => recorded.rollback.kind != NotRestored && RollingBackInv(t, original, recorded, loc)
  }

  ghost predicate AllReady(s: StateSnapshot) {
    forall i | 0 <= i < |s.targets| :: s.targets[i].candidate.kind == Ready
  }

  /** No target has been touched. */
  ghost predicate Pristine(job: Job, disk: seq<Locations>) {
    && |disk| == |job.initial|
    && forall i | 0 <= i < |disk| :: AtStart(job.initial[i], disk[i])
  }

  ghost predicate TargetsInv(job: Job, s: StateSnapshot, disk: seq<Locations>) {
    && |disk| == |s.targets| == |job.manifest.targets| == |job.initial|
    && (forall i | 0 <= i < |disk| ::
          TargetInv(job.manifest.targets[i], job.initial[i], s.global, s.targets[i], disk[i]))
    && (AllReady(s) || Pristine(job, disk))
  }

  /** A target holds what the plan says, under its own new identity and with the intended mode. */
  ghost predicate HoldsPlan(job: Job, i: nat, slot: Slot)
    requires i < |job.initial| == |job.manifest.targets|
  {
    && slot.Some?
    && slot.value.bytes == Planned(job, i)
    && Some(slot.value.mode) ==
       (if job.initial[i].Some? then Some(job.initial[i].value.mode) else job.manifest.targets[i].newFileMode)
  }

  ghost predicate AllPlanned(job: Job, disk: seq<Locations>) {
    && |disk| == |job.initial| == |job.manifest.targets|
    && forall i | 0 <= i < |disk| :: HoldsPlan(job, i, disk[i].target)
  }

  ghost predicate AllOriginal(job: Job, disk: seq<Locations>) {
    && |disk| == |job.initial|
    && forall i | 0 <= i < |disk| :: disk[i].target == job.initial[i]
  }

  ghost predicate Outcome(job: Job, disk: seq<Locations>, committed: bool) {
    if committed then AllPlanned(job, disk) else AllOriginal(job, disk)
  }

  ghost predicate LogInv(job: Job, log: seq<StateSnapshot>) {
    && AcceptedChain(job.manifest, log)
    && |log| <= Rank(Last(log)) + 1
  }

  ghost predicate ActiveInv(job: Job, disk: seq<Locations>, log: seq<StateSnapshot>) {
    if log == [] then disk == Start(job).disk else LogInv(job, log) && TargetsInv(job, Last(log), disk)
  }

  ghost predicate Inv(job: Job, w: World) {
    && ValidJob(job)
    && |w.disk| == |job.initial|
    && match w.area
       case Orphan => w == Start(job).(temporary := w.temporary) && w.temporary in {None, Some(ZeroState(job.manifest))}
       case Active => ActiveInv(job, w.disk, w.log) && (w.temporary.Some? ==> exists tr :: Pending(job, w, tr))
       case Completed(committed) => Outcome(job, w.disk, committed)
       case Cleaned(committed) => Outcome(job, w.disk, committed)
  }

  /** The temporary is the record of a transition that may be published now. */
  ghost predicate Pending(job: Job, w: World, tr: Transition) {
    var idle := w.(temporary := None);
    Justified(job, idle, tr) && w.temporary == Some(Record(job, idle, tr))
  }
}
