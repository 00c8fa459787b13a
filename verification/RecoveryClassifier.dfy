/** Classification of what is on disk against the last record. */
module RecoveryClassifier {
  import opened Common
  import opened Journal

  datatype LocationObservation = Original | Candidate | Absent | Unexpected

  datatype TargetObservation = TargetObservation(
    parentMatches: bool, target: LocationObservation, candidate: LocationObservation, backup: LocationObservation)

  datatype RecoveryDisposition = RecoveryDisposition(complete: bool, rollback: bool, cleanupOnly: bool)

  const COMPLETION_AND_ROLLBACK := RecoveryDisposition(true, true, false)
  const ROLLBACK_ONLY := RecoveryDisposition(false, true, false)
  const CLEANUP_ONLY := RecoveryDisposition(false, false, true)

  type Classified = Result<RecoveryDisposition, string>

  function ClassifyRecovery(
    global: GlobalState, originalExisted: bool, recorded: TargetState, observed: TargetObservation): (r: Classified)
  {
    if !observed.parentMatches || observed.target == Unexpected || observed.candidate == Unexpected
       || observed.backup == Unexpected then
      Err("unexpected_location_or_parent")
    else
      match global
      case Preparing => ClassifyPreparing(originalExisted, observed)
      case Prepared => ClassifyPrepared(originalExisted, observed)
      case Committing => ClassifyCommitting(originalExisted, recorded, observed)
      case Committed => ClassifyCommitted(originalExisted, observed)
      case RollingBack => ClassifyRollingBack(originalExisted, recorded, observed)
      case RolledBack => ClassifyRolledBack(originalExisted, recorded, observed)
  }

  function InitialTarget(originalExisted: bool): LocationObservation {
    if originalExisted then Original else Absent
  }

  function ClassifyPreparing(originalExisted: bool, o: TargetObservation): Classified {
    if o.target == InitialTarget(originalExisted) && o.candidate in {Absent, Candidate} && o.backup == Absent then
      Ok(ROLLBACK_ONLY)
    else
      Err("preparing_observation_invalid")
  }

  function ClassifyPrepared(originalExisted: bool, o: TargetObservation): Classified {
    if o.target == InitialTarget(originalExisted) && o.candidate == Candidate && o.backup == Absent then
      Ok(COMPLETION_AND_ROLLBACK)
    else
      Err("prepared_observation_invalid")
  }

  function ClassifyCommitting(originalExisted: bool, recorded: TargetState, o: TargetObservation): Classified {
    var seen := (o.target, o.candidate, o.backup);
    var valid :=
      match (originalExisted, recorded.commit.kind)
      case (true, Untouched) =>
        seen == (Original, Candidate, Absent) || seen == (Absent, Candidate, Original)
        || seen == (Candidate, Absent, Original)
      case (false, Untouched) => seen == (Absent, Candidate, Absent) || seen == (Candidate, Absent, Absent)
      case (true, BackedUp) => seen == (Absent, Candidate, Original) || seen == (Candidate, Absent, Original)
      case (false, BackedUp) => false
      case (true, Installed) => seen == (Candidate, Absent, Original)
      case (false, Installed) => seen == (Candidate, Absent, Absent);
    if valid then Ok(COMPLETION_AND_ROLLBACK) else Err("committing_observation_invalid")
  }

  function ClassifyCommitted(originalExisted: bool, o: TargetObservation): Classified {
    if o.target == Candidate && o.candidate == Absent && o.backup == InitialTarget(originalExisted) then
      Ok(CLEANUP_ONLY)
    else
      Err("committed_observation_invalid")
  }

  function ClassifyRollingBack(originalExisted: bool, recorded: TargetState, o: TargetObservation): Classified {
    match recorded.rollback.kind
    case OriginalRestored =>
      if originalExisted then ClassifyRestored(Original, o, ROLLBACK_ONLY) else Err("rolling_back_record_invalid")
    case AbsenceRestored =>
      if !originalExisted then ClassifyRestored(Absent, o, ROLLBACK_ONLY) else Err("rolling_back_record_invalid")
    case NotRestored =>
      var staged := o.candidate in {Absent, Candidate};
      var valid :=
        if originalExisted then
          || (o.target == Original && staged && o.backup == Absent)
          || (o.target == Absent && staged && o.backup == Original)
          || (o.target == Candidate && o.candidate == Absent && o.backup == Original)
        else
          || (o.target == Absent && staged && o.backup == Absent)
          || (o.target == Candidate && o.candidate == Absent && o.backup == Absent);
      if valid then Ok(ROLLBACK_ONLY) else Err("rolling_back_observation_invalid")
  }

  function ClassifyRolledBack(originalExisted: bool, recorded: TargetState, o: TargetObservation): Classified {
    match recorded.rollback.kind
    case OriginalRestored =>
      if originalExisted then ClassifyRestored(Original, o, CLEANUP_ONLY) else Err("rolled_back_record_invalid")
    case AbsenceRestored =>
      if !originalExisted then ClassifyRestored(Absent, o, CLEANUP_ONLY) else Err("rolled_back_record_invalid")
    case NotRestored => Err("rolled_back_record_invalid")
  }

  function ClassifyRestored(
    target: LocationObservation, o: TargetObservation, disposition: RecoveryDisposition): Classified
  {
    if o.target == target && o.candidate == Absent && o.backup == Absent then
      Ok(disposition)
    else if target == Original then
      Err("restored_original_observation_invalid")
    else
      Err("restored_absence_observation_invalid")
  }
}
