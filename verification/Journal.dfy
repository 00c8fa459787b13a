/** Transaction records and the validation of the append-only state chain. */
module Journal {
  import opened Common

  const MAX_STATE_RECORDS: nat := 512
  const MAX_TRANSACTION_TARGETS: nat := 100

  /** One slice of an immutable input, in the order in which a candidate is written. */
  datatype ManifestSegment = ManifestSegment(inputIndex: nat, start: nat, end: nat, operationIndex: Option<nat>)

  /** An input of the transaction; only the length matters here and it is recorded for files only. */
  datatype ManifestInput = ManifestInput(path: string, length: Option<nat>)

  datatype ManifestTarget = ManifestTarget(
    path: string,
    originalExisted: bool,
    originalIdentity: Option<Identity>,
    originalDigest: Option<Digest>,
    originalLength: Option<nat>,
    candidateDigest: Digest,
    candidateLength: nat,
    newFileMode: Option<Mode>,
    segments: seq<ManifestSegment>)

  datatype Manifest = Manifest(transactionId: string, inputs: seq<ManifestInput>, targets: seq<ManifestTarget>)

  datatype CandidateKind = Missing | Ready
  datatype CandidateState = CandidateState(kind: CandidateKind, identity: Option<Identity>)

  datatype CommitKind = Untouched | BackedUp | Installed
  datatype CommitState = CommitState(kind: CommitKind, identity: Option<Identity>, preservedMode: Option<Mode>)

  datatype RollbackKind = NotRestored | OriginalRestored | AbsenceRestored
  datatype RollbackState = RollbackState(kind: RollbackKind, identity: Option<Identity>)

  datatype TargetState = TargetState(
    targetIndex: nat, candidate: CandidateState, commit: CommitState, rollback: RollbackState)

  datatype GlobalState = Preparing | Prepared | Committing | Committed | RollingBack | RolledBack

  /** The checksum stored in a published record, identified with the record it was taken of. */
  datatype RecordChecksum = ManifestChecksum(manifest: Manifest) | StateChecksum(state: StateSnapshot)

  datatype StateSnapshot = StateSnapshot(
    version: nat,
    sequence: nat,
    manifestChecksum: RecordChecksum,
    priorChecksum: Option<RecordChecksum>,
    global: GlobalState,
    targets: seq<TargetState>)

  // ----- validation of a manifest's segment recipe

  predicate ValidSegment(manifest: Manifest, segment: ManifestSegment) {
    && segment.start < segment.end
    && segment.inputIndex < |manifest.inputs|
    && manifest.inputs[segment.inputIndex].length.Some?
    && segment.end <= manifest.inputs[segment.inputIndex].length.value
  }

  predicate ValidSegments(manifest: Manifest) {
    forall target, segment | target in manifest.targets && segment in target.segments ::
      ValidSegment(manifest, segment)
  }

  // ----- validation of one state snapshot

  predicate ValidTargetFields(t: TargetState) {
    && (t.candidate.kind == Ready <==> t.candidate.identity.Some?)
    && (match t.commit.kind
        case Untouched => t.commit.identity.None? && t.commit.preservedMode.None?
        case BackedUp => t.commit.identity.Some? && t.commit.preservedMode.Some?
        case Installed => t.commit.identity.Some?)
    && (t.rollback.kind == OriginalRestored <==> t.rollback.identity.Some?)
  }

  predicate ValidGlobalConstraints(s: StateSnapshot) {
    var allReady := forall t | t in s.targets :: t.candidate.kind == Ready;
    var allUntouched := forall t | t in s.targets :: t.commit.kind == Untouched;
    var noneRolledBack := forall t | t in s.targets :: t.rollback.kind == NotRestored;
    match s.global
    case Preparing => allUntouched && noneRolledBack
    case Prepared => allReady && allUntouched && noneRolledBack
    case Committing => allReady && noneRolledBack
    case Committed => allReady && noneRolledBack && forall t | t in s.targets :: t.commit.kind == Installed
    case RollingBack =>
      forall t | t in s.targets ::
        t.rollback.kind != NotRestored || t.commit.kind == Untouched || t.candidate.kind == Ready
    case RolledBack => forall t | t in s.targets :: t.rollback.kind != NotRestored
  }

  predicate ValidShape(s: StateSnapshot) {
    && s.version == 1
    && s.sequence < MAX_STATE_RECORDS
    && (s.sequence == 0 <==> s.priorChecksum.None?)
    && |s.targets| <= MAX_TRANSACTION_TARGETS
    && (forall k | 0 <= k < |s.targets| :: s.targets[k].targetIndex == k && ValidTargetFields(s.targets[k]))
    && ValidGlobalConstraints(s)
  }

  predicate ConsistentWithOriginal(t: TargetState, originalExisted: bool) {
    && !(!originalExisted && t.commit.kind == BackedUp)
    && !(t.rollback.kind == OriginalRestored && !originalExisted)
    && !(t.rollback.kind == AbsenceRestored && originalExisted)
  }

  predicate ValidAgainstManifest(s: StateSnapshot, manifest: Manifest) {
    && |s.targets| == |manifest.targets|
    && forall k | 0 <= k < |s.targets| ::
         ConsistentWithOriginal(s.targets[k], manifest.targets[k].originalExisted)
  }

  // ----- validation of a transition between two snapshots

  function CommitRank(kind: CommitKind): nat {
    match kind case Untouched => 0 case BackedUp => 1 case Installed => 2
  }

  predicate InRollback(g: GlobalState) {
    g == RollingBack || g == RolledBack
  }

  predicate AllowedGlobalTransition(previous: GlobalState, next: GlobalState) {
    match previous
    case Preparing => next == Preparing || next == Prepared || next == RollingBack
    case Prepared => next == Prepared || next == Committing || next == RollingBack
    case Committing => next == Committing || next == Committed || next == RollingBack
    case RollingBack => next == RollingBack || next == RolledBack
    case Committed => false
    case RolledBack => false
  }

  /** The phases of a commit, in order. */
  function CommitPhase(g: GlobalState): Option<nat> {
    match g
    case Preparing => Some(0)
    case Prepared => Some(1)
    case Committing => Some(2)
    case Committed => Some(3)
    case RollingBack => None
    case RolledBack => None
  }

  /** A commit stays in its phase or goes on to the next one until it has ended; before that it can turn into a
      rollback, which can only end. */
  lemma TransitionsMean(previous: GlobalState, next: GlobalState)
    ensures AllowedGlobalTransition(previous, next) <==>
            && previous != Committed && previous != RolledBack
            && (|| next == RollingBack
                || (previous == RollingBack && next == RolledBack)
                || (&& CommitPhase(previous).Some? && CommitPhase(next).Some?
                    && CommitPhase(next).value - CommitPhase(previous).value in {0, 1}))
  {
  }

  predicate ValidTargetProgress(before: TargetState, after: TargetState, global: GlobalState) {
    && (before.candidate == after.candidate || (before.candidate.kind == Missing && after.candidate.kind == Ready))
    && (InRollback(global) || before.rollback == after.rollback)
    && CommitRank(after.commit.kind) >= CommitRank(before.commit.kind)
    && (InRollback(global) ==> before.commit == after.commit)
    && (before.rollback.kind != NotRestored ==> before.rollback == after.rollback)
  }

  predicate ValidTransition(previous: StateSnapshot, next: StateSnapshot) {
    && ValidShape(previous)
    && ValidShape(next)
    && next.sequence == previous.sequence + 1
    && AllowedGlobalTransition(previous.global, next.global)
    && |previous.targets| == |next.targets|
    && forall k | 0 <= k < |next.targets| ::
         && previous.targets[k].targetIndex == next.targets[k].targetIndex
         && ValidTargetProgress(previous.targets[k], next.targets[k], next.global)
  }

  // ----- the chain

  /** What the scan checks of one record, whatever came before it. */
  predicate ValidLink(manifest: Manifest, s: StateSnapshot, expected: nat) {
    && ValidShape(s)
    && s.sequence == expected
    && s.manifestChecksum == ManifestChecksum(manifest)
    && ValidAgainstManifest(s, manifest)
  }

  predicate ValidFirst(s: StateSnapshot) {
    s.sequence == 0 && s.global == Preparing && s.priorChecksum.None?
  }

  predicate ValidSuccessor(previous: StateSnapshot, next: StateSnapshot) {
    next.priorChecksum == Some(StateChecksum(previous)) && ValidTransition(previous, next)
  }

  /** The state chains that a recovery scan accepts. */
  ghost predicate AcceptedChain(manifest: Manifest, log: seq<StateSnapshot>) {
    && 0 < |log| <= MAX_STATE_RECORDS
    && (forall k | 0 <= k < |log| :: ValidLink(manifest, log[k], k))
    && ValidFirst(log[0])
    && (forall k | 0 < k < |log| :: ValidSuccessor(log[k - 1], log[k]))
  }

  datatype ChainError = BadRecord | TooManyRecords | Gap | Mismatch | Fork | InvalidTransition | InvalidZero | Empty

  /** The scan's checks of one decoded record after the record `prior`. */
  function CheckRecord(
    manifest: Manifest, prior: Option<StateSnapshot>, state: StateSnapshot, expected: nat): (e: Option<ChainError>)
    ensures e.None? <==>
            && ValidLink(manifest, state, expected)
            && (if prior.None? then ValidFirst(state) else ValidSuccessor(prior.value, state))
  {
    if !ValidShape(state) then
      Some(BadRecord)
    else if !(state.sequence == expected && state.manifestChecksum == ManifestChecksum(manifest)
         && ValidAgainstManifest(state, manifest)) then
      Some(Mismatch)
    else if prior.None? then
      if ValidFirst(state) then None else Some(InvalidZero)
    else if state.priorChecksum != Some(StateChecksum(prior.value)) then
      Some(Fork)
    else if !ValidTransition(prior.value, state) then
      Some(InvalidTransition)
    else
      None
  }

  // ----- the validators, check by check

  method ValidateTargetFields(t: TargetState) returns (ok: bool)
    ensures ok <==> ValidTargetFields(t)
  {
    if (t.candidate.kind == Ready) != t.candidate.identity.Some? {
      return false;
    }
    match t.commit.kind {
      case Untouched => ok := t.commit.identity.None? && t.commit.preservedMode.None?;
      case BackedUp => ok := t.commit.identity.Some? && t.commit.preservedMode.Some?;
      case Installed => ok := t.commit.identity.Some?;
    }
    if !ok {
      return false;
    }
    match t.rollback.kind {
      case NotRestored => ok := t.rollback.identity.None?;
      case AbsenceRestored => ok := t.rollback.identity.None?;
      case OriginalRestored => ok := t.rollback.identity.Some?;
    }
  }

  /** One pass over the targets that collects what the global state asks about all of them. */
  method ValidateGlobalConstraints(s: StateSnapshot) returns (ok: bool)
    ensures ok <==> ValidGlobalConstraints(s)
  {
    var allReady, allUntouched, noneRolledBack := true, true, true;
    var allInstalled, allRestorable, allRolledBack := true, true, true;
    for i := 0 to |s.targets|
      invariant allReady <==> forall t | t in s.targets[..i] :: t.candidate.kind == Ready
      invariant allUntouched <==> forall t | t in s.targets[..i] :: t.commit.kind == Untouched
      invariant noneRolledBack <==> forall t | t in s.targets[..i] :: t.rollback.kind == NotRestored
      invariant allInstalled <==> forall t | t in s.targets[..i] :: t.commit.kind == Installed
      invariant allRestorable <==>
                forall t | t in s.targets[..i] ::
                  t.rollback.kind != NotRestored || t.commit.kind == Untouched || t.candidate.kind == Ready
      invariant allRolledBack <==> forall t | t in s.targets[..i] :: t.rollback.kind != NotRestored
    {
      var t := s.targets[i];
      assert s.targets[..i + 1] == s.targets[..i] + [t];
      allReady := allReady && t.candidate.kind == Ready;
      allUntouched := allUntouched && t.commit.kind == Untouched;
      noneRolledBack := noneRolledBack && t.rollback.kind == NotRestored;
      allInstalled := allInstalled && t.commit.kind == Installed;
      allRestorable :=
        allRestorable && (t.rollback.kind != NotRestored || t.commit.kind == Untouched || t.candidate.kind == Ready);
      allRolledBack := allRolledBack && t.rollback.kind != NotRestored;
    }
    assert s.targets[..|s.targets|] == s.targets;
    match s.global {
      case Preparing => ok := allUntouched && noneRolledBack;
      case Prepared => ok := allReady && allUntouched && noneRolledBack;
      case Committing => ok := allReady && noneRolledBack;
      case Committed => ok := allReady && noneRolledBack && allInstalled;
      case RollingBack => ok := allRestorable;
      case RolledBack => ok := allRolledBack;
    }
  }

  method ValidateShape(s: StateSnapshot) returns (ok: bool)
    ensures ok <==> ValidShape(s)
  {
    if s.version != 1 || s.sequence >= 512 || |s.targets| > 100 {
      return false;
    }
    if (s.sequence == 0 && s.priorChecksum.Some?) || (s.sequence != 0 && s.priorChecksum.None?) {
      return false;
    }
    for i := 0 to |s.targets|
      invariant forall k | 0 <= k < i :: s.targets[k].targetIndex == k && ValidTargetFields(s.targets[k])
    {
      ok := ValidateTargetFields(s.targets[i]);
      if s.targets[i].targetIndex != i || !ok {
        return false;
      }
    }
    ok := ValidateGlobalConstraints(s);
  }

  method ValidateAgainstManifest(s: StateSnapshot, manifest: Manifest) returns (ok: bool)
    ensures ok <==> ValidAgainstManifest(s, manifest)
  {
    if |s.targets| != |manifest.targets| {
      return false;
    }
    for i := 0 to |s.targets|
      invariant forall k | 0 <= k < i :: ConsistentWithOriginal(s.targets[k], manifest.targets[k].originalExisted)
    {
      var t, originalExisted := s.targets[i], manifest.targets[i].originalExisted;
      if (!originalExisted && t.commit.kind == BackedUp)
         || (t.rollback.kind == OriginalRestored && !originalExisted)
         || (t.rollback.kind == AbsenceRestored && originalExisted)
      {
        return false;
      }
    }
    return true;
  }

  method ValidateTargetProgress(before: TargetState, after: TargetState, global: GlobalState) returns (ok: bool)
    ensures ok <==> ValidTargetProgress(before, after, global)
  {
    if before.candidate != after.candidate && !(before.candidate.kind == Missing && after.candidate.kind == Ready) {
      return false;
    }
    var rollingBack := global == RollingBack || global == RolledBack;
    if !rollingBack && before.rollback != after.rollback {
      return false;
    }
    var regressed :=
      match before.commit.kind
      case Untouched => false
      case BackedUp => after.commit.kind == Untouched
      case Installed => after.commit.kind != Installed;
    if regressed || (rollingBack && before.commit != after.commit) {
      return false;
    }
    return before.rollback.kind == NotRestored || before.rollback == after.rollback;
  }

  method ValidateTransition(previous: StateSnapshot, next: StateSnapshot) returns (ok: bool)
    ensures ok <==> ValidTransition(previous, next)
  {
    var previousShape := ValidateShape(previous);
    var nextShape := ValidateShape(next);
    if !previousShape || !nextShape || next.sequence != previous.sequence + 1 {
      return false;
    }
    var allowed := (previous.global, next.global) in {
      (Preparing, Preparing), (Preparing, Prepared), (Preparing, RollingBack),
      (Prepared, Prepared), (Prepared, Committing), (Prepared, RollingBack),
      (Committing, Committing), (Committing, Committed), (Committing, RollingBack),
      (RollingBack, RollingBack), (RollingBack, RolledBack)};
    if !allowed || |previous.targets| != |next.targets| {
      return false;
    }
    for i := 0 to |next.targets|
      invariant forall k | 0 <= k < i ::
                  && previous.targets[k].targetIndex == next.targets[k].targetIndex
                  && ValidTargetProgress(previous.targets[k], next.targets[k], next.global)
    {
      ok := ValidateTargetProgress(previous.targets[i], next.targets[i], next.global);
      if previous.targets[i].targetIndex != next.targets[i].targetIndex || !ok {
        return false;
      }
    }
    return true;
  }

  /** The scan of one record, check by check. */
  method ScanRecord(manifest: Manifest, prior: Option<StateSnapshot>, state: StateSnapshot, expected: nat)
    returns (e: Option<ChainError>)
    ensures e == CheckRecord(manifest, prior, state, expected)
  {
    var shape := ValidateShape(state);
    if !shape {
      return Some(BadRecord);
    }
    var originals := ValidateAgainstManifest(state, manifest);
    if state.sequence != expected || state.manifestChecksum != ManifestChecksum(manifest) || !originals {
      return Some(Mismatch);
    }
    if prior.None? {
      var zero := state.sequence == 0 && state.global == Preparing && state.priorChecksum.None?;
      return if zero then None else Some(InvalidZero);
    }
    if state.priorChecksum != Some(StateChecksum(prior.value)) {
      return Some(Fork);
    }
    var transition := ValidateTransition(prior.value, state);
    return if transition then None else Some(InvalidTransition);
  }

  /** The records in the order of their sequence numbers. */
  function InOrder(records: map<nat, StateSnapshot>, count: nat): (log: seq<StateSnapshot>)
    requires forall k: nat | k < count :: k in records
    ensures |log| == count
    ensures forall k: nat | k < count :: log[k] == records[k]
  {
    if count == 0 then [] else InOrder(records, count - 1) + [records[count - 1]]
  }

  ghost predicate AcceptedUpTo(manifest: Manifest, records: map<nat, StateSnapshot>, count: nat) {
    (forall k: nat | k < count :: k in records) && (count > 0 ==> AcceptedChain(manifest, InOrder(records, count)))
  }

  ghost function Before(records: map<nat, StateSnapshot>, k: nat): Option<StateSnapshot>
    requires k > 0 ==> k - 1 in records
  {
    if k == 0 then None else Some(records[k - 1])
  }

  lemma AcceptedRecord(manifest: Manifest, records: map<nat, StateSnapshot>, k: nat)
    requires AcceptedUpTo(manifest, records, k) && k in records && k < MAX_STATE_RECORDS
    requires CheckRecord(manifest, Before(records, k), records[k], k).None?
    ensures AcceptedUpTo(manifest, records, k + 1)
  {
    if k > 0 {
      ChainExtends(manifest, InOrder(records, k), records[k]);
    }
  }

  lemma RefusedRecord(manifest: Manifest, records: map<nat, StateSnapshot>, k: nat)
    requires k < |records| && k in records && (k > 0 ==> k - 1 in records)
    requires CheckRecord(manifest, Before(records, k), records[k], k).Some?
    ensures !AcceptedUpTo(manifest, records, |records|)
  {
    if forall k: nat | k < |records| :: k in records {
      var log := InOrder(records, |records|);
      assert log[k] == records[k];
      assert k > 0 ==> log[k - 1] == records[k - 1];
    }
  }

  /** The scan's fold over the published record files, which are found by their sequence numbers. */
  method FoldStateChain(manifest: Manifest, records: map<nat, StateSnapshot>)
    returns (r: Result<(StateSnapshot, RecordChecksum), ChainError>)
    ensures r.Ok? <==> |records| > 0 && AcceptedUpTo(manifest, records, |records|)
    ensures r.Ok? ==>
            && |records| > 0
            && r.value == (records[|records| - 1], StateChecksum(records[|records| - 1]))
  {
    var count := |records|;
    if count > MAX_STATE_RECORDS {
      return Err(TooManyRecords);
    }
    var prior: Option<StateSnapshot> := None;
    var expected := 0;
    while expected < count
      invariant 0 <= expected <= count
      invariant AcceptedUpTo(manifest, records, expected)
      invariant prior == Before(records, expected)
    {
      if expected !in records {
        return Err(Gap);
      }
      var error := ScanRecord(manifest, prior, records[expected], expected);
      if error.Some? {
        RefusedRecord(manifest, records, expected);
        return Err(error.value);
      }
      AcceptedRecord(manifest, records, expected);
      prior := Some(records[expected]);
      expected := expected + 1;
    }
    if prior.None? {
      return Err(Empty);
    }
    return Ok((prior.value, StateChecksum(prior.value)));
  }

  // ----- what every accepted chain keeps

  /** Everything about one target that a later record may no longer change. */
  ghost predicate Preserves(before: TargetState, after: TargetState, frozen: bool) {
    && (before.candidate.kind == Ready ==> after.candidate == before.candidate)
    && (before.rollback.kind != NotRestored ==> after.rollback == before.rollback)
    && CommitRank(before.commit.kind) <= CommitRank(after.commit.kind)
    && (frozen ==> after.commit == before.commit)
  }

  /** Along every accepted chain, between any two records: a ready candidate's identity and a
      rollback result never change, commit progress never falls, and commit fields are frozen
      from the first rollback record on. */
  lemma {:induction false} ChainPreservesProgress(manifest: Manifest, log: seq<StateSnapshot>, i: nat, j: nat, k: nat)
    requires AcceptedChain(manifest, log)
    requires i <= j < |log|
    requires k < |manifest.targets|
    ensures InRollback(log[i].global) ==> InRollback(log[j].global)
    ensures |log[i].targets| == |log[j].targets| == |manifest.targets|
    ensures Preserves(log[i].targets[k], log[j].targets[k], InRollback(log[i].global))
    decreases j - i
  {
    assert ValidLink(manifest, log[i], i);
    if i < j {
      ChainPreservesProgress(manifest, log, i, j - 1, k);
      assert ValidSuccessor(log[j - 1], log[j]);
      assert ValidLink(manifest, log[j], j);
      assert ValidTargetProgress(log[j - 1].targets[k], log[j].targets[k], log[j].global);
    }
  }

  /** No accepted chain both commits and rolls back. */
  lemma ChainDecidesOnce(manifest: Manifest, log: seq<StateSnapshot>, i: nat, j: nat)
    requires AcceptedChain(manifest, log)
    requires i < |log| && j < |log|
    ensures !(log[i].global == Committed && InRollback(log[j].global))
    ensures log[i].global == Committed || log[i].global == RolledBack ==> i == |log| - 1
  {
    if i + 1 < |log| {
      assert ValidSuccessor(log[i], log[i + 1]);
    }
    if j <= i {
      RollbackPersists(manifest, log, j, i);
    }
  }

  lemma {:induction false} RollbackPersists(manifest: Manifest, log: seq<StateSnapshot>, i: nat, j: nat)
    requires AcceptedChain(manifest, log)
    requires i <= j < |log|
    ensures InRollback(log[i].global) ==> InRollback(log[j].global)
    decreases j - i
  {
    if i < j {
      RollbackPersists(manifest, log, i, j - 1);
      assert ValidSuccessor(log[j - 1], log[j]);
    }
  }

  /** A chain's last checksum determines the whole chain: the links cannot be forked. */
  lemma {:induction false} ChecksumDeterminesChain(manifest: Manifest, a: seq<StateSnapshot>, b: seq<StateSnapshot>)
    requires AcceptedChain(manifest, a) && AcceptedChain(manifest, b)
    requires StateChecksum(a[|a| - 1]) == StateChecksum(b[|b| - 1])
    ensures a == b
    decreases |a|
  {
    assert ValidLink(manifest, a[|a| - 1], |a| - 1) && ValidLink(manifest, b[|b| - 1], |b| - 1);
    if |a| > 1 {
      var a', b' := a[..|a| - 1], b[..|b| - 1];
      assert ValidSuccessor(a[|a| - 2], a[|a| - 1]) && ValidSuccessor(b[|b| - 2], b[|b| - 1]);
      assert AcceptedChain(manifest, a') && AcceptedChain(manifest, b') by {
        assert forall k | 0 <= k < |a'| :: a'[k] == a[k] && b'[k] == b[k];
      }
      ChecksumDeterminesChain(manifest, a', b');
      assert a == a' + [a[|a| - 1]] && b == b' + [b[|b| - 1]];
    }
  }

  lemma ChainExtends(manifest: Manifest, log: seq<StateSnapshot>, next: StateSnapshot)
    requires AcceptedChain(manifest, log)
    requires ValidLink(manifest, next, |log|)
    requires ValidSuccessor(log[|log| - 1], next)
    ensures AcceptedChain(manifest, log + [next])
  {
    var longer := log + [next];
    assert forall k | 0 <= k < |log| :: longer[k] == log[k];
  }
}
