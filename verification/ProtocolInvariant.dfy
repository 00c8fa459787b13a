/** Every atomic action keeps the protocol invariant. */
module ProtocolInvariant {
  import opened Common
  import opened Journal
  import opened Protocol

  lemma StartEstablishes(job: Job)
    requires ValidJob(job)
    ensures Inv(job, Start(job))
  {
  }

  // ----- actions on the locations of one target

  /** Changing one target's locations needs that target's invariant only. */
  lemma PlaceKeeps(job: Job, w: World, i: nat, loc: Locations)
    requires Inv(job, w) && Running(job, w) && i < |w.disk|
    requires TargetInv(job.manifest.targets[i], job.initial[i], Last(w.log).global, Last(w.log).targets[i], loc)
    requires AllReady(Last(w.log)) || (AtStart(job.initial[i], w.disk[i]) ==> AtStart(job.initial[i], loc))
    ensures Inv(job, Place(w, i, loc))
  {
  }

  lemma ExtractTarget(job: Job, w: World, i: nat)
    requires Inv(job, w) && Running(job, w) && i < |w.disk|
    ensures TargetInv(job.manifest.targets[i], job.initial[i], Last(w.log).global, Last(w.log).targets[i], w.disk[i])
    ensures Describes(job.manifest.targets[i], job.initial[i], Planned(job, i))
    ensures ValidTargetFields(Last(w.log).targets[i])
    ensures ConsistentWithOriginal(Last(w.log).targets[i], job.manifest.targets[i].originalExisted)
  {
    assert ValidLink(job.manifest, w.log[|w.log| - 1], |w.log| - 1);
  }

  lemma MoveKeepsTarget(
    t: ManifestTarget, original: Slot, planned: Bytes, global: GlobalState, recorded: TargetState, loc: Locations,
    move: Move)
    requires Describes(t, original, planned) && ValidTargetFields(recorded)
             && ConsistentWithOriginal(recorded, t.originalExisted)
    requires TargetInv(t, original, global, recorded, loc)
    requires CanMove(t, global, recorded, loc, move)
    requires move.CreateCandidate? && original.Some? ==> move.identity != original.value.identity
    ensures TargetInv(t, original, global, recorded, Moved(t, global, recorded, loc, move))
    ensures global != Committing && AtStart(original, loc) ==> AtStart(original, Moved(t, global, recorded, loc, move))
  {
  }

  lemma MoveKeeps(job: Job, w: World, i: nat, move: Move)
    requires Inv(job, w) && Enabled(job, w, MoveTarget(i, move))
    ensures Inv(job, Apply(job, w, MoveTarget(i, move)))
  {
    ExtractTarget(job, w, i);
    var t, o, s := job.manifest.targets[i], job.initial[i], Last(w.log);
    if move.CreateCandidate? && o.Some? {
      assert w.disk[i] in w.disk && SlotHas(w.disk[i].target, o.value.identity);
    }
    MoveKeepsTarget(t, o, Planned(job, i), s.global, s.targets[i], w.disk[i], move);
    assert s.global == Committing ==> AllReady(s);
    PlaceKeeps(job, w, i, Moved(t, s.global, s.targets[i], w.disk[i], move));
  }

  // ----- publishing a record

  /** The target states that the records of a global state can have. */
  ghost predicate TargetFits(global: GlobalState, t: TargetState) {
    match global
    case Preparing => t.commit.kind == Untouched && t.rollback.kind == NotRestored
    case Prepared => t.candidate.kind == Ready && t.commit.kind == Untouched && t.rollback.kind == NotRestored
    case Committing => t.candidate.kind == Ready && t.rollback.kind == NotRestored
    case Committed => t.candidate.kind == Ready && t.rollback.kind == NotRestored && t.commit.kind == Installed
    case RollingBack => t.rollback.kind != NotRestored || t.commit.kind == Untouched || t.candidate.kind == Ready
    case RolledBack => t.rollback.kind != NotRestored
  }

  lemma FitsMeansValid(s: StateSnapshot)
    ensures ValidGlobalConstraints(s) <==> forall k | 0 <= k < |s.targets| :: TargetFits(s.global, s.targets[k])
  {
    assert forall k | 0 <= k < |s.targets| :: s.targets[k] in s.targets;
  }

  /** All that the validator and the invariant ask of one target of a record. */
  ghost predicate Sound(t: ManifestTarget, original: Slot, global: GlobalState, recorded: TargetState, loc: Locations) {
    && ValidTargetFields(recorded)
    && ConsistentWithOriginal(recorded, t.originalExisted)
    && TargetFits(global, recorded)
    && TargetInv(t, original, global, recorded, loc)
    && t.originalExisted == original.Some?
    && t.originalIdentity == (if original.Some? then Some(original.value.identity) else None)
  }

  /** All that the validator and the invariant ask of one target of the next record. */
  ghost predicate Follows(
    t: ManifestTarget, original: Slot, before: TargetState, global: GlobalState, after: TargetState, loc: Locations)
  {
    && Sound(t, original, global, after, loc)
    && after.targetIndex == before.targetIndex
    && ValidTargetProgress(before, after, global)
  }

  lemma LastIsSound(job: Job, w: World)
    requires Inv(job, w) && Running(job, w)
    ensures forall k | 0 <= k < |w.disk| ::
              Sound(job.manifest.targets[k], job.initial[k], Last(w.log).global, Last(w.log).targets[k], w.disk[k])
    ensures |w.disk| == |job.manifest.targets| == |job.initial| == |Last(w.log).targets|
  {
    assert ValidLink(job.manifest, w.log[|w.log| - 1], |w.log| - 1);
    FitsMeansValid(Last(w.log));
    forall k | 0 <= k < |w.disk|
      ensures Sound(job.manifest.targets[k], job.initial[k], Last(w.log).global, Last(w.log).targets[k], w.disk[k])
    {
      ExtractTarget(job, w, k);
    }
  }

  lemma RecordIsAccepted(job: Job, log: seq<StateSnapshot>, disk: seq<Locations>, next: StateSnapshot)
    requires ValidJob(job) && log != [] && LogInv(job, log)
    requires next == NextState(Last(log), next.global, next.targets)
    requires AllowedGlobalTransition(Last(log).global, next.global)
    requires |next.targets| == |job.manifest.targets| == |disk|
    requires |Last(log).targets| == |next.targets|
    requires forall k | 0 <= k < |next.targets| ::
               Follows(job.manifest.targets[k], job.initial[k], Last(log).targets[k], next.global, next.targets[k],
                 disk[k])
    requires Rank(next) > Rank(Last(log))
    ensures LogInv(job, log + [next])
  {
    assert ValidLink(job.manifest, log[|log| - 1], |log| - 1);
    TargetsRankBound(next.targets);
    FitsMeansValid(next);
    assert ValidShape(next);
    ChainExtends(job.manifest, log, next);
  }

  lemma RecordExtends(job: Job, w: World, next: StateSnapshot)
    requires Inv(job, w) && Running(job, w)
    requires next == NextState(Last(w.log), next.global, next.targets)
    requires AllowedGlobalTransition(Last(w.log).global, next.global)
    requires |next.targets| == |job.manifest.targets|
    requires forall k | 0 <= k < |next.targets| ::
               Follows(job.manifest.targets[k], job.initial[k], Last(w.log).targets[k], next.global, next.targets[k],
                 w.disk[k])
    requires Rank(next) > Rank(Last(w.log))
    ensures ActiveInv(job, w.disk, w.log + [next])
  {
    RecordIsAccepted(job, w.log, w.disk, next);
    assert Last(w.log + [next]) == next;
  }

  lemma StateZeroKeeps(job: Job, w: World)
    requires Inv(job, w) && Justified(job, w, StateZero)
    ensures ActiveInv(job, w.disk, w.log + [Record(job, w, StateZero)])
  {
    var zero := ZeroState(job.manifest);
    assert w.log + [zero] == [zero];
    assert ValidLink(job.manifest, zero, 0);
    assert TargetsInv(job, zero, w.disk);
  }

  lemma ReportFollows(
    t: ManifestTarget, original: Slot, global: GlobalState, recorded: TargetState, loc: Locations, report: Report)
    requires Sound(t, original, global, recorded, loc)
    requires CanReport(t, global, recorded, loc, report)
    ensures Follows(t, original, recorded, global, Reported(t, global, recorded, loc, report), loc)
    ensures TargetRank(Reported(t, global, recorded, loc, report)) > TargetRank(recorded)
  {
  }

  /** A new global state leaves every target as it was recorded. */
  lemma GlobalFollows(
    t: ManifestTarget, original: Slot, before: GlobalState, after: GlobalState, recorded: TargetState, loc: Locations)
    requires Sound(t, original, before, recorded, loc)
    requires AllowedGlobalTransition(before, after)
    requires after == Prepared ==> recorded.candidate.kind == Ready
    requires after == Committed ==> recorded.commit.kind == Installed
    requires after == RolledBack ==> recorded.rollback.kind != NotRestored
    ensures Follows(t, original, recorded, after, recorded, loc)
  {
  }

  lemma StepFollows(
    t: ManifestTarget, original: Slot, before: GlobalState, after: GlobalState, recorded: TargetState,
    next: TargetState, loc: Locations)
    requires Sound(t, original, before, recorded, loc)
    requires next == recorded || Follows(t, original, recorded, before, next, loc)
    requires AllowedGlobalTransition(before, after) && (after == before || after == Prepared)
    requires after == Prepared ==> next.candidate.kind == Ready
    ensures Follows(t, original, recorded, after, next, loc)
  {
    GlobalFollows(t, original, before, after, next, loc);
  }

  /** One target changes and the global state stays, but for the last candidate. */
  lemma OneTargetFollows(job: Job, w: World, i: nat, next: StateSnapshot)
    requires Inv(job, w) && Running(job, w) && i < |w.disk|
    requires i < |next.targets|
             && next == NextState(Last(w.log), next.global, Last(w.log).targets[i := next.targets[i]])
    requires Follows(job.manifest.targets[i], job.initial[i], Last(w.log).targets[i], Last(w.log).global,
             next.targets[i], w.disk[i])
    requires TargetRank(next.targets[i]) > TargetRank(Last(w.log).targets[i])
    requires AllowedGlobalTransition(Last(w.log).global, next.global)
    requires next.global == Last(w.log).global || next.global == Prepared
    requires next.global == Prepared ==> forall k | 0 <= k < |w.disk| :: next.targets[k].candidate.kind == Ready
    ensures ActiveInv(job, w.disk, w.log + [next])
  {
    var last := Last(w.log);
    LastIsSound(job, w);
    TargetsRankUpdate(last.targets, i, next.targets[i]);
    forall k | 0 <= k < |w.disk|
      ensures Follows(job.manifest.targets[k], job.initial[k], last.targets[k], next.global, next.targets[k], w.disk[k])
    {
      StepFollows(job.manifest.targets[k], job.initial[k], last.global, next.global, last.targets[k], next.targets[k],
        w.disk[k]);
    }
    RecordExtends(job, w, next);
  }

  lemma ReportKeeps(job: Job, w: World, i: nat, report: Report)
    requires Inv(job, w) && Justified(job, w, OnTarget(i, report))
    ensures ActiveInv(job, w.disk, w.log + [Record(job, w, OnTarget(i, report))])
  {
    var last, next := Last(w.log), Record(job, w, OnTarget(i, report));
    LastIsSound(job, w);
    ReportFollows(job.manifest.targets[i], job.initial[i], last.global, last.targets[i], w.disk[i], report);
    OneTargetFollows(job, w, i, next);
  }

  lemma GlobalRecordKeeps(job: Job, w: World, tr: Transition)
    requires Inv(job, w) && Justified(job, w, tr)
    requires tr.BeginCommit? || tr.FinishCommit? || tr.BeginRollback? || tr.FinishRollback?
    ensures ActiveInv(job, w.disk, w.log + [Record(job, w, tr)])
  {
    LastIsSound(job, w);
    var last, next := Last(w.log), Record(job, w, tr);
    forall k | 0 <= k < |w.disk|
      ensures Follows(job.manifest.targets[k], job.initial[k], last.targets[k], next.global, next.targets[k], w.disk[k])
    {
      GlobalFollows(job.manifest.targets[k], job.initial[k], last.global, next.global, last.targets[k], w.disk[k]);
    }
    RecordExtends(job, w, next);
  }

  lemma RecordKeeps(job: Job, w: World, tr: Transition)
    requires Inv(job, w) && Justified(job, w, tr)
    ensures ActiveInv(job, w.disk, w.log + [Record(job, w, tr)])
  {
    if tr == StateZero {
      StateZeroKeeps(job, w);
    } else if tr.OnTarget? {
      ReportKeeps(job, w, tr.i, tr.report);
    } else {
      GlobalRecordKeeps(job, w, tr);
    }
  }

  lemma PublicationKeeps(job: Job, w: World)
    requires Inv(job, w) && Enabled(job, w, PublishTemporary)
    ensures Inv(job, Apply(job, w, PublishTemporary))
  {
    var tr :| Pending(job, w, tr);
    var idle := w.(temporary := None);
    assert Inv(job, idle);
    RecordKeeps(job, idle, tr);
  }

  // ----- the end of the transaction

  lemma FinishKeeps(job: Job, w: World)
    requires Inv(job, w) && Enabled(job, w, FinishTransaction)
    ensures Inv(job, Apply(job, w, FinishTransaction))
  {
    forall i | 0 <= i < |w.disk|
      ensures Last(w.log).global == Committed ==> HoldsPlan(job, i, w.disk[i].target)
      ensures Last(w.log).global == RolledBack ==> w.disk[i].target == job.initial[i]
    {
      ExtractTarget(job, w, i);
    }
  }

  lemma CleanupKeeps(job: Job, w: World, a: Action)
    requires Inv(job, w) && Enabled(job, w, a)
    requires a.RemoveArtifacts? || a.RemoveDirectory? || a.RemoveOrphan?
    ensures Inv(job, Apply(job, w, a))
  {
    assert forall i | 0 <= i < |w.disk| :: Apply(job, w, a).disk[i].target == w.disk[i].target;
  }

  /** Before the first record is published only the first record can be pending. */
  lemma ManifestRemovalKeeps(job: Job, w: World)
    requires Inv(job, w) && Enabled(job, w, RemoveManifest)
    ensures Inv(job, Apply(job, w, RemoveManifest))
  {
    if w.temporary.Some? {
      var tr :| Pending(job, w, tr);
      assert tr == StateZero;
    }
  }

  /** The invariant is inductive. */
  lemma ActionKeeps(job: Job, w: World, a: Action)
    requires Inv(job, w) && Enabled(job, w, a)
    ensures Inv(job, Apply(job, w, a))
  {
    match a
    case PublishManifest =>
    case WriteTemporary(tr) => assert Pending(job, Apply(job, w, a), tr);
    case PublishTemporary => PublicationKeeps(job, w);
    case RemoveTemporary =>
    case FinishTransaction => FinishKeeps(job, w);
    case RemoveArtifacts(_) => CleanupKeeps(job, w, a);
    case RemoveDirectory => CleanupKeeps(job, w, a);
    case RemoveManifest => ManifestRemovalKeeps(job, w);
    case RemoveOrphan => CleanupKeeps(job, w, a);
    case MoveTarget(i, move) => MoveKeeps(job, w, i, move);
  }

  lemma NextKeeps(job: Job, w: World, w': World)
    requires Inv(job, w) && Next(job, w, w')
    ensures Inv(job, w')
  {
    var a :| Enabled(job, w, a) && w' == Apply(job, w, a);
    ActionKeeps(job, w, a);
  }

  lemma {:induction false} RunKeeps(job: Job, run: seq<World>, k: nat)
    requires ValidJob(job) && IsRun(job, run) && k < |run|
    ensures Inv(job, run[k])
  {
    if k == 0 {
      StartEstablishes(job);
    } else {
      RunKeeps(job, run, k - 1);
      NextKeeps(job, run[k - 1], run[k]);
    }
  }
}
