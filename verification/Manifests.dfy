/** From a plan to a transaction: the manifest that `commit` builds, and what a run of it leaves at
    the planned paths. */
module Manifests {
  import opened Common
  import opened Order
  import opened Plan
  import opened Planner
  import opened Journal
  import P = Protocol
  import Recovery

  datatype CommitError =
    | Planning(error: PlanError)
    | NoChangedTargets
    | MissingSnapshotInput(path: string)
    | CrossDeviceTransaction
    | TooManyTargets(count: nat)

  /** The outputs that need a target, in plan order. */
  function Changed(outputs: seq<PlannedOutput>): seq<PlannedOutput> {
    if outputs == [] then []
    else
      var n := |outputs| - 1;
      Changed(outputs[..n]) + if outputs[n].change != Unchanged then [outputs[n]] else []
  }

  predicate ByPath(a: PlannedOutput, b: PlannedOutput) {
    PathLeq(a.path, b.path)
  }

  function ToSegment(s: OutputSegment): ManifestSegment {
    match s
    case OriginalSlice(fileId, range) => ManifestSegment(fileId, range.start, range.end, None)
    case PayloadSlice(operationIndex, fileId, range, _) =>
      ManifestSegment(fileId, range.start, range.end, Some(operationIndex))
  }

  function ToSegments(segments: seq<OutputSegment>): (r: seq<ManifestSegment>)
    ensures |r| == |segments| && forall i | 0 <= i < |r| :: r[i] == ToSegment(segments[i])
  {
    seq(|segments|, i requires 0 <= i < |segments| => ToSegment(segments[i]))
  }

  function FindFile(files: seq<FileSnapshot>, path: string): (r: Option<FileSnapshot>)
    ensures r.Some? ==> r.value in files && r.value.path == path
    ensures r.None? ==> forall f | f in files :: f.path != path
  {
    if files == [] then None else if files[0].path == path then Some(files[0]) else FindFile(files[1..], path)
  }

  function FindAbsent(absent: seq<AbsentPathSnapshot>, path: string): (r: Option<AbsentPathSnapshot>)
    ensures r.Some? ==> r.value in absent && r.value.path == path
    ensures r.None? ==> forall a | a in absent :: a.path != path
  {
    if absent == [] then None else if absent[0].path == path then Some(absent[0]) else FindAbsent(absent[1..], path)
  }

  /** Read and write permission of every class, never execution. */
  function NewFileBits(mode: Mode): (bits: Mode)
    ensures bits <= 438 && bits % 2 == 0 && (bits / 8) % 2 == 0 && (bits / 64) % 2 == 0
  {
    (mode / 2 % 4) * 2 + (mode / 16 % 4) * 16 + (mode / 128 % 4) * 128
  }

  // ----- what the manifest must say

  function InputOf(s: WorkspaceSnapshot, k: nat): ManifestInput
    requires k < |s.files| + |s.absentPaths|
  {
    if k < |s.files| then ManifestInput(s.files[k].path, Some(|s.files[k].bytes|))
    else ManifestInput(s.absentPaths[k - |s.files|].path, None)
  }

  /** A target says what was at its path and what will be. */
  ghost predicate TargetFor(state: SnapshotState, mode: Mode, out: PlannedOutput, t: ManifestTarget) {
    && t.path == out.path
    && t.originalExisted == state.Existing?
    && t.originalIdentity == (if state.Existing? then Some(state.file.identity) else None)
    && t.originalDigest == (if state.Existing? then Some(state.file.digest) else None)
    && t.originalLength == (if state.Existing? then Some(|state.file.bytes|) else None)
    && t.candidateDigest == out.resultingDigest
    && t.candidateLength == out.resultingLength
    && t.newFileMode == (if state.Existing? then None else Some(NewFileBits(mode)))
    && t.segments == ToSegments(out.segments)
  }

  ghost predicate TargetsFor(states: States, mode: Mode, outputs: seq<PlannedOutput>, targets: seq<ManifestTarget>) {
    && |targets| == |outputs|
    && forall i | 0 <= i < |outputs| ::
       outputs[i].path in states && TargetFor(states[outputs[i].path], mode, outputs[i], targets[i])
  }

  ghost predicate ManifestFor(s: WorkspaceSnapshot, mode: Mode, outputs: seq<PlannedOutput>, m: Manifest) {
    && |m.inputs| == |s.files| + |s.absentPaths|
    && (forall k | 0 <= k < |m.inputs| :: m.inputs[k] == InputOf(s, k))
    && TargetsFor(StatesOf(s), mode, outputs, m.targets)
  }

  function ParentDevice(state: SnapshotState): nat {
    match state case Existing(f) => f.parentIdentity.device case Absent(a) => a.parentIdentity.device
  }

  /** Every changed path lives on the workspace's own device. */
  ghost predicate OneDevice(s: WorkspaceSnapshot, outputs: seq<PlannedOutput>) {
    forall i | 0 <= i < |outputs| ::
      outputs[i].path in StatesOf(s) && ParentDevice(StatesOf(s)[outputs[i].path]) == s.workspaceIdentity.device
  }

  // ----- building it

  /** Looking a path up in the lists is looking it up in the index. */
  lemma FindsState(s: WorkspaceSnapshot, states: States, files: Files, path: string)
    requires Indexed(s, states, files)
    ensures FindFile(s.files, path).Some? <==> path in states && states[path].Existing?
    ensures FindFile(s.files, path).Some? ==> states[path].file == FindFile(s.files, path).value
    ensures FindFile(s.files, path).None? ==>
              (FindAbsent(s.absentPaths, path).Some? <==> path in states)
              && (path in states ==> states[path] == Absent(FindAbsent(s.absentPaths, path).value))
  {
    var f, a := FindFile(s.files, path), FindAbsent(s.absentPaths, path);
    if f.None? && a.Some? {
      assert states[path] == Absent(a.value);
    }
  }

  /** A slice of the original belongs to no operation, a payload to its own. */
  method BuildSegments(segments: seq<OutputSegment>) returns (r: seq<ManifestSegment>)
    ensures r == ToSegments(segments)
  {
    r := [];
    for i := 0 to |segments|
      invariant |r| == i && forall k | 0 <= k < i :: r[k] == ToSegment(segments[k])
    {
      match segments[i]
      case OriginalSlice(fileId, range) =>
        r := r + [ManifestSegment(fileId, range.start, range.end, None)];
      case PayloadSlice(operationIndex, fileId, range, _) =>
        r := r + [ManifestSegment(fileId, range.start, range.end, Some(operationIndex))];
    }
  }

  method BuildTarget(s: WorkspaceSnapshot, out: PlannedOutput, newFileMode: Mode)
    returns (r: Result<ManifestTarget, CommitError>)
    requires Indexed(s, StatesOf(s), FilesOf(s))
    ensures r.Ok? <==> out.path in StatesOf(s) && ParentDevice(StatesOf(s)[out.path]) == s.workspaceIdentity.device
    ensures r.Ok? ==> TargetFor(StatesOf(s)[out.path], newFileMode, out, r.value)
    ensures r.Err? ==> !r.error.Planning?
  {
    var original, absent := FindFile(s.files, out.path), FindAbsent(s.absentPaths, out.path);
    FindsState(s, StatesOf(s), FilesOf(s), out.path);
    if original.None? && absent.None? {
      return Err(MissingSnapshotInput(out.path));
    }
    var parent := if original.Some? then original.value.parentIdentity else absent.value.parentIdentity;
    if parent.device != s.workspaceIdentity.device {
      return Err(CrossDeviceTransaction);
    }
    var segments := BuildSegments(out.segments);
    return Ok(ManifestTarget(
      out.path, original.Some?,
      if original.Some? then Some(original.value.identity) else None,
      if original.Some? then Some(original.value.digest) else None,
      if original.Some? then Some(|original.value.bytes|) else None,
      out.resultingDigest, out.resultingLength,
      if original.None? then Some(NewFileBits(newFileMode)) else None,
      segments));
  }

  method BuildInputs(s: WorkspaceSnapshot) returns (inputs: seq<ManifestInput>)
    ensures |inputs| == |s.files| + |s.absentPaths|
    ensures forall k | 0 <= k < |inputs| :: inputs[k] == InputOf(s, k)
  {
    inputs := [];
    for i := 0 to |s.files|
      invariant |inputs| == i && forall k | 0 <= k < i :: inputs[k] == InputOf(s, k)
    {
      inputs := inputs + [ManifestInput(s.files[i].path, Some(|s.files[i].bytes|))];
    }
    for i := 0 to |s.absentPaths|
      invariant |inputs| == |s.files| + i && forall k | 0 <= k < |inputs| :: inputs[k] == InputOf(s, k)
    {
      inputs := inputs + [ManifestInput(s.absentPaths[i].path, None)];
    }
  }

  method BuildManifest(s: WorkspaceSnapshot, outputs: seq<PlannedOutput>, transactionId: string, newFileMode: Mode)
    returns (r: Result<Manifest, CommitError>)
    requires Indexed(s, StatesOf(s), FilesOf(s))
    ensures r.Ok? <==> OneDevice(s, outputs)
    ensures r.Ok? ==> ManifestFor(s, newFileMode, outputs, r.value)
    ensures r.Err? ==> !r.error.Planning?
  {
    var inputs := BuildInputs(s);
    var targets: seq<ManifestTarget> := [];
    for i := 0 to |outputs|
      invariant TargetsFor(StatesOf(s), newFileMode, outputs[..i], targets)
      invariant OneDevice(s, outputs[..i])
    {
      var target := BuildTarget(s, outputs[i], newFileMode);
      if target.Err? {
        return Err(target.error);
      }
      targets := targets + [target.value];
    }
    assert outputs[..|outputs|] == outputs;
    return Ok(Manifest(transactionId, inputs, targets));
  }

  // ----- the outputs that change

  lemma {:induction false} ChangedIsFilter(outputs: seq<PlannedOutput>)
    ensures forall o :: o in Changed(outputs) <==> o in outputs && o.change != Unchanged
    ensures forall i | 0 <= i < |Changed(outputs)| :: Changed(outputs)[i] in outputs
  {
    if outputs != [] {
      var n := |outputs| - 1;
      ChangedIsFilter(outputs[..n]);
      assert outputs == outputs[..n] + [outputs[n]];
    }
  }

  /** Filtering keeps the plan's order, so sorting the changed outputs by path moves nothing. */
  lemma {:induction false} ChangedStaysSorted(outputs: seq<PlannedOutput>)
    requires InPathOrder(OutputPaths(outputs))
    ensures InPathOrder(OutputPaths(Changed(outputs)))
  {
    if outputs != [] {
      var n := |outputs| - 1;
      var rest, kept := outputs[..n], Changed(outputs[..n]);
      assert OutputPaths(rest) == OutputPaths(outputs)[..n];
      ChangedStaysSorted(rest);
      ChangedIsFilter(rest);
      if outputs[n].change != Unchanged {
        forall i | 0 <= i < |kept| ensures PathLeq(kept[i].path, outputs[n].path) && kept[i].path != outputs[n].path {
          var j :| 0 <= j < n && rest[j] == kept[i];
          assert PathLeq(OutputPaths(outputs)[j], OutputPaths(outputs)[n]);
        }
        AppendInOrder(kept, outputs[n]);
      }
    }
  }

  lemma AppendInOrder(kept: seq<PlannedOutput>, last: PlannedOutput)
    requires InPathOrder(OutputPaths(kept))
    requires forall i | 0 <= i < |kept| :: PathLeq(kept[i].path, last.path) && kept[i].path != last.path
    ensures InPathOrder(OutputPaths(kept + [last]))
  {
    var paths, longer := OutputPaths(kept), OutputPaths(kept + [last]);
    forall i, j | 0 <= i < j < |longer| ensures PathLeq(longer[i], longer[j]) && longer[i] != longer[j] {
      if j < |kept| {
        assert PathLeq(paths[i], paths[j]);
      }
    }
  }

  /** The first half of `commit`: nothing to change is refused, everything else becomes a manifest. */
  method PrepareManifest(s: WorkspaceSnapshot, plan: EditPlan, transactionId: string, newFileMode: Mode)
    returns (r: Result<Manifest, CommitError>)
    requires Indexed(s, StatesOf(s), FilesOf(s)) && InPathOrder(OutputPaths(plan.outputs))
    ensures r.Ok? <==> Changed(plan.outputs) != [] && OneDevice(s, Changed(plan.outputs))
    ensures r.Ok? ==> ManifestFor(s, newFileMode, Changed(plan.outputs), r.value)
    ensures r.Err? ==> !r.error.Planning?
  {
    var changed := Changed(plan.outputs);
    if changed == [] {
      return Err(NoChangedTargets);
    }
    var sorted := SortBy(changed, ByPath);
    ChangedStaysSorted(plan.outputs);
    assert SortedBy(changed, ByPath) by {
      forall i, j | 0 <= i < j < |changed| ensures ByPath(changed[i], changed[j]) {
        assert PathLeq(OutputPaths(changed)[i], OutputPaths(changed)[j]);
      }
    }
    SortBySortedIsIdentity(changed, ByPath);
    r := BuildManifest(s, sorted, transactionId, newFileMode);
  }

  // ----- the recipe is the planned file

  /** Snapshots number their files in order. */
  ghost predicate IdsArePositions(s: WorkspaceSnapshot) {
    forall k | 0 <= k < |s.files| :: s.files[k].id == k
  }

  function Sources(s: WorkspaceSnapshot): (r: seq<Bytes>)
    ensures |r| == |s.files| && forall k | 0 <= k < |r| :: r[k] == s.files[k].bytes
  {
    seq(|s.files|, k requires 0 <= k < |s.files| => s.files[k].bytes)
  }

  lemma SegmentsAgree(s: WorkspaceSnapshot, states: States, files: Files, segment: OutputSegment)
    requires Indexed(s, states, files) && IdsArePositions(s) && ValidSlice(files, segment.fileId, segment.range)
    ensures segment.fileId < |s.files| && segment.range.end <= |s.files[segment.fileId].bytes|
    ensures P.SegmentBytes(Sources(s), ToSegment(segment)) == SegmentBytes(files, segment)
  {
    var f := files[segment.fileId];
    var k :| 0 <= k < |s.files| && s.files[k] == f;
  }

  /** The bytes streamed into a candidate are the bytes the plan's recipe denotes. */
  lemma {:induction false} RecipesAgree(
    s: WorkspaceSnapshot, states: States, files: Files, segments: seq<OutputSegment>)
    requires Indexed(s, states, files) && IdsArePositions(s) && ValidRecipe(files, segments)
    ensures P.RecipeBytes(Sources(s), ToSegments(segments)) == RecipeBytes(files, segments)
  {
    forall i | 0 <= i < |segments|
      ensures P.SegmentBytes(Sources(s), ToSegment(segments[i])) == SegmentBytes(files, segments[i])
    {
      assert segments[i] in segments;
      SegmentsAgree(s, states, files, segments[i]);
    }
    PiecewiseEqual(Sources(s), files, segments);
  }

  lemma {:induction false} PiecewiseEqual(sources: seq<Bytes>, files: Files, segments: seq<OutputSegment>)
    requires forall i | 0 <= i < |segments| ::
               P.SegmentBytes(sources, ToSegment(segments[i])) == SegmentBytes(files, segments[i])
    ensures P.RecipeBytes(sources, ToSegments(segments)) == RecipeBytes(files, segments)
  {
    if segments != [] {
      var n := |segments| - 1;
      PiecewiseEqual(sources, files, segments[..n]);
      ToSegmentsSnoc(segments);
      Recovery.RecipeSnoc(sources, ToSegments(segments[..n]), ToSegment(segments[n]));
    }
  }

  lemma ToSegmentsSnoc(segments: seq<OutputSegment>)
    requires segments != []
    ensures var n := |segments| - 1; ToSegments(segments) == ToSegments(segments[..n]) + [ToSegment(segments[n])]
  {
  }

  // ----- staging, however the snapshot numbers its files

  predicate Readable(sources: seq<Bytes>, segment: ManifestSegment) {
    && segment.inputIndex < |sources|
    && segment.start <= segment.end <= |sources[segment.inputIndex]|
  }

  predicate AllReadable(sources: seq<Bytes>, segments: seq<ManifestSegment>) {
    forall i | 0 <= i < |segments| :: Readable(sources, segments[i])
  }

  /** Every segment can be read, and the bytes have the planned length and digest. */
  ghost predicate Stages(sources: seq<Bytes>, t: ManifestTarget) {
    && AllReadable(sources, t.segments)
    && |P.RecipeBytes(sources, t.segments)| == t.candidateLength
    && Hash(P.RecipeBytes(sources, t.segments)) == t.candidateDigest
  }

  lemma StreamedOneMore(sources: seq<Bytes>, segments: seq<ManifestSegment>, i: nat)
    requires i < |segments| && AllReadable(sources, segments[..i]) && Readable(sources, segments[i])
    ensures AllReadable(sources, segments[..i + 1])
    ensures P.RecipeBytes(sources, segments[..i + 1]) ==
            P.RecipeBytes(sources, segments[..i])
            + sources[segments[i].inputIndex][segments[i].start..segments[i].end]
  {
    Recovery.RecipeSnoc(sources, segments[..i], segments[i]);
    assert segments[..i + 1] == segments[..i] + [segments[i]];
  }

  /** Streams a target's segments and checks what came of it. */
  method StageBytes(sources: seq<Bytes>, t: ManifestTarget) returns (r: Result<Bytes, string>)
    ensures r.Ok? <==> Stages(sources, t)
    ensures r.Ok? ==> r.value == P.RecipeBytes(sources, t.segments)
  {
    var bytes: Bytes := [];
    for i := 0 to |t.segments|
      invariant AllReadable(sources, t.segments[..i])
      invariant bytes == P.RecipeBytes(sources, t.segments[..i])
    {
      var segment := t.segments[i];
      if segment.inputIndex >= |sources| {
        return Err("candidate_segment_input_exists");
      }
      if !(segment.start <= segment.end <= |sources[segment.inputIndex]|) {
        return Err("candidate_segment_range_valid");
      }
      StreamedOneMore(sources, t.segments, i);
      bytes := bytes + sources[segment.inputIndex][segment.start..segment.end];
    }
    assert t.segments[..|t.segments|] == t.segments;
    if |bytes| != t.candidateLength || Hash(bytes) != t.candidateDigest {
      return Err("candidate_matches_planned_output");
    }
    return Ok(bytes);
  }

  /** Whatever the numbering, staging yields the planned file or nothing: it succeeds exactly if the segments,
      read by position, give the planned bytes. */
  lemma StagedIsPlanned(
    s: WorkspaceSnapshot, states: States, files: Files, rs: seq<Resolution>, mode: Mode, out: PlannedOutput,
    t: ManifestTarget)
    requires Indexed(s, states, files) && out.path in states
    requires OutputFor(files, states[out.path], rs, out) && TargetFor(states[out.path], mode, out, t)
    ensures var planned := OutputBytes(files, states[out.path], rs, out.path);
            Stages(Sources(s), t) <==>
            AllReadable(Sources(s), t.segments) && P.RecipeBytes(Sources(s), t.segments) == planned
  {
  }

  /** With the snapshot's own numbering it always succeeds. */
  lemma OwnNumberingStages(
    s: WorkspaceSnapshot, states: States, files: Files, rs: seq<Resolution>, mode: Mode, out: PlannedOutput,
    t: ManifestTarget)
    requires Indexed(s, states, files) && out.path in states && IdsArePositions(s)
    requires OutputFor(files, states[out.path], rs, out) && TargetFor(states[out.path], mode, out, t)
    ensures Stages(Sources(s), t)
  {
    RecipesAgree(s, states, files, out.segments);
    forall i | 0 <= i < |t.segments| ensures Readable(Sources(s), t.segments[i]) {
      assert out.segments[i] in out.segments;
      SegmentsAgree(s, states, files, out.segments[i]);
    }
  }

  /** Two files numbered the other way round: a candidate that should be all of the first is read from the
      second, and refused unless that begins with the same bytes. */
  lemma SwappedNumbering(s: WorkspaceSnapshot, t: ManifestTarget)
    requires |s.files| == 2 && s.files[0].id == 1 && s.files[1].id == 0
    requires t.segments == ToSegments([OriginalSlice(1, ByteRange(0, |s.files[0].bytes|))])
    requires t.candidateDigest == Hash(s.files[0].bytes) && t.candidateLength == |s.files[0].bytes|
    ensures Stages(Sources(s), t) <==> s.files[0].bytes <= s.files[1].bytes
  {
    var wanted, read, segment := s.files[0].bytes, Sources(s)[1], t.segments[0];
    assert t.segments[1..] == [] && segment == ManifestSegment(1, 0, |wanted|, None);
    if |wanted| <= |read| {
      assert P.RecipeBytes(Sources(s), t.segments) == read[..|wanted|] + [];
    } else {
      assert !Readable(Sources(s), segment);
    }
  }

  // ----- the job

  /** What is on disk at a path before the transaction is what the snapshot saw. */
  ghost predicate OnDisk(state: SnapshotState, slot: P.Slot) {
    match state
    case Existing(f) => slot.Some? && slot.value.identity == f.identity && slot.value.bytes == f.bytes
    case Absent(_) => slot.None?
  }

  ghost predicate StartsFrom(states: States, outputs: seq<PlannedOutput>, initial: seq<P.Slot>) {
    && |initial| == |outputs|
    && forall i | 0 <= i < |outputs| :: outputs[i].path in states && OnDisk(states[outputs[i].path], initial[i])
  }

  /** Validation of a whole manifest, names and sizes aside. */
  ghost predicate ValidManifest(m: Manifest) {
    && 0 < |m.targets| <= MAX_TRANSACTION_TARGETS
    && InPathOrder(TargetPaths(m))
    && (forall t | t in m.targets :: ValidTarget(t))
    && ValidSegments(m)
  }

  /** The masked bits are those without execution, and nothing else. */
  lemma MaskedModes(mode: Mode)
    ensures NewFileBits(mode) == mode <==> mode <= 438 && mode % 2 == 0 && mode / 8 % 2 == 0 && mode / 64 % 2 == 0
  {
    var a, b, c := mode / 2 % 4, mode / 16 % 4, mode / 128;
    if mode <= 438 && mode % 2 == 0 && mode / 8 % 2 == 0 && mode / 64 % 2 == 0 {
      OctalDigits(mode);
      assert c < 4;
    }
  }

  lemma Eighth(n: nat)
    ensures n / 8 == n / 2 / 4 && n / 8 == n / 4 / 2
  {
  }

  lemma OctalDigits(mode: Mode)
    requires mode % 2 == 0 && mode / 8 % 2 == 0 && mode / 64 % 2 == 0
    ensures mode == mode / 2 % 4 * 2 + mode / 16 % 4 * 16 + mode / 128 * 128
  {
    OneOctalDigit(mode, mode / 8);
    OneOctalDigit(mode / 8, mode / 64);
    Sixteenth(mode);
    assert mode / 64 == 2 * (mode / 128) by {
      Hundredth(mode);
    }
  }

  lemma OneOctalDigit(n: nat, rest: nat)
    requires n % 2 == 0 && rest == n / 8
    ensures n == 8 * rest + n / 2 % 4 * 2
  {
    Eighth(n);
    assert n == 2 * (n / 2) && n / 2 == 4 * (n / 2 / 4) + n / 2 % 4;
  }

  lemma Sixteenth(n: nat)
    ensures n / 16 == n / 8 / 2 && n / 64 == n / 8 / 8
  {
  }

  lemma Hundredth(n: nat)
    requires n / 64 % 2 == 0
    ensures n / 64 == 2 * (n / 128)
  {
    assert n / 128 == n / 64 / 2;
  }

  predicate ValidTarget(t: ManifestTarget) {
    && t.newFileMode.Some? == !t.originalExisted
    && (t.newFileMode.Some? ==> NewFileBits(t.newFileMode.value) == t.newFileMode.value)
    && t.originalIdentity.Some? == t.originalDigest.Some? == t.originalLength.Some? == t.originalExisted
  }

  method ValidateTarget(t: ManifestTarget) returns (ok: bool)
    ensures ok <==> ValidTarget(t)
  {
    var fields := (t.originalIdentity.Some?, t.originalDigest.Some?, t.originalLength.Some?);
    if t.originalExisted != (fields == (true, true, true)) || (!t.originalExisted && fields != (false, false, false)) {
      return false;
    }
    if t.newFileMode.None? {
      return t.originalExisted;
    }
    var mode := t.newFileMode.value;
    MaskedModes(mode);
    return !t.originalExisted && mode <= 438 && mode % 2 == 0 && mode / 8 % 2 == 0 && mode / 64 % 2 == 0;
  }

  method ValidateSegments(m: Manifest, segments: seq<ManifestSegment>) returns (ok: bool)
    ensures ok <==> forall s | s in segments :: ValidSegment(m, s)
  {
    for i := 0 to |segments|
      invariant forall k | 0 <= k < i :: ValidSegment(m, segments[k])
    {
      var s := segments[i];
      assert s in segments;
      if s.start >= s.end || s.inputIndex >= |m.inputs| {
        return false;
      }
      var length := m.inputs[s.inputIndex].length;
      if length.None? || s.end > length.value {
        return false;
      }
    }
    return true;
  }

  lemma LaterPath(paths: seq<string>, i: nat, k: nat)
    requires i < k < |paths| && PathLeq(paths[k - 1], paths[k]) && paths[k - 1] != paths[k]
    requires i < k - 1 ==> PathLeq(paths[i], paths[k - 1]) && paths[i] != paths[k - 1]
    ensures PathLeq(paths[i], paths[k]) && paths[i] != paths[k]
  {
    if i < k - 1 {
      PathLeqTransitive(paths[i], paths[k - 1], paths[k]);
      PathLeqTotal(paths[k - 1], paths[k]);
    }
  }

  function TargetPaths(m: Manifest): (paths: seq<string>)
    ensures |paths| == |m.targets| && forall k | 0 <= k < |paths| :: paths[k] == m.targets[k].path
  {
    seq(|m.targets|, k requires 0 <= k < |m.targets| => m.targets[k].path)
  }

  /** What is checked at one target: its neighbour's path, its fields and its segments. */
  ghost predicate ValidAt(m: Manifest, k: nat)
    requires k < |m.targets|
  {
    && (k > 0 ==> PathLeq(m.targets[k - 1].path, m.targets[k].path) && m.targets[k - 1].path != m.targets[k].path)
    && ValidTarget(m.targets[k])
    && forall s | s in m.targets[k].segments :: ValidSegment(m, s)
  }

  method ValidateAt(m: Manifest, k: nat) returns (ok: bool)
    requires k < |m.targets|
    ensures ok <==> ValidAt(m, k)
  {
    var t := m.targets[k];
    if k > 0 && (!PathLeq(m.targets[k - 1].path, t.path) || m.targets[k - 1].path == t.path) {
      return false;
    }
    ok := ValidateTarget(t);
    if ok {
      ok := ValidateSegments(m, t.segments);
    }
  }

  /** The validation that reading a manifest makes: comparing neighbours is enough for the order of the paths. */
  method ValidateManifest(m: Manifest) returns (ok: bool)
    ensures ok <==> ValidManifest(m)
  {
    if |m.targets| == 0 || |m.targets| > 100 {
      return false;
    }
    for k := 0 to |m.targets|
      invariant forall i | 0 <= i < k :: ValidAt(m, i)
    {
      ok := ValidateAt(m, k);
      if !ok {
        InvalidAt(m, k);
        return;
      }
    }
    AllValidAt(m);
    return true;
  }

  lemma InvalidAt(m: Manifest, k: nat)
    requires k < |m.targets| && !ValidAt(m, k)
    ensures !ValidManifest(m)
  {
    var paths := TargetPaths(m);
    assert m.targets[k] in m.targets;
    if k > 0 {
      assert paths[k - 1] == m.targets[k - 1].path && paths[k] == m.targets[k].path;
    }
  }

  lemma AllValidAt(m: Manifest)
    requires forall k | 0 <= k < |m.targets| :: ValidAt(m, k)
    ensures InPathOrder(TargetPaths(m)) && ValidSegments(m)
    ensures forall t | t in m.targets :: ValidTarget(t)
  {
    var paths := TargetPaths(m);
    for k := 0 to |m.targets|
      invariant InPathOrder(paths[..k])
    {
      assert ValidAt(m, k);
      PathsStayInOrder(paths, k);
    }
    assert paths[..|paths|] == paths;
    forall t, s | t in m.targets && s in t.segments ensures ValidSegment(m, s) {
      var k :| 0 <= k < |m.targets| && m.targets[k] == t;
      assert ValidAt(m, k);
    }
    forall t | t in m.targets ensures ValidTarget(t) {
      var k :| 0 <= k < |m.targets| && m.targets[k] == t;
      assert ValidAt(m, k);
    }
  }

  lemma PathsStayInOrder(paths: seq<string>, k: nat)
    requires k < |paths| && InPathOrder(paths[..k])
    requires k > 0 ==> PathLeq(paths[k - 1], paths[k]) && paths[k - 1] != paths[k]
    ensures InPathOrder(paths[..k + 1])
  {
    var before, now := paths[..k], paths[..k + 1];
    forall i | 0 <= i < k ensures PathLeq(paths[i], paths[k]) && paths[i] != paths[k] {
      assert i < k - 1 ==> PathLeq(before[i], before[k - 1]) && before[i] != before[k - 1];
      LaterPath(paths, i, k);
    }
    forall i, j | 0 <= i < j < |now| ensures PathLeq(now[i], now[j]) && now[i] != now[j] {
      if j < k {
        assert PathLeq(before[i], before[j]);
      }
    }
  }

  lemma TargetDescribes(
    s: WorkspaceSnapshot, states: States, files: Files, rs: seq<Resolution>, mode: Mode, out: PlannedOutput,
    t: ManifestTarget, slot: P.Slot)
    requires Indexed(s, states, files) && IdsArePositions(s) && out.path in states
    requires OutputFor(files, states[out.path], rs, out) && TargetFor(states[out.path], mode, out, t)
    requires OnDisk(states[out.path], slot)
    ensures P.RecipeBytes(Sources(s), t.segments) == OutputBytes(files, states[out.path], rs, out.path)
    ensures P.Describes(t, slot, P.RecipeBytes(Sources(s), t.segments))
  {
    RecipesAgree(s, states, files, out.segments);
    if states[out.path].Existing? {
      assert ValidFile(states[out.path].file);
    }
  }

  lemma SegmentsValid(
    s: WorkspaceSnapshot, states: States, files: Files, m: Manifest, out: PlannedOutput, segment: ManifestSegment)
    requires Indexed(s, states, files) && IdsArePositions(s) && ValidRecipe(files, out.segments)
    requires |m.inputs| == |s.files| + |s.absentPaths| && forall k | 0 <= k < |m.inputs| :: m.inputs[k] == InputOf(s, k)
    requires segment in ToSegments(out.segments)
    ensures ValidSegment(m, segment)
  {
    var i :| 0 <= i < |out.segments| && ToSegment(out.segments[i]) == segment;
    assert out.segments[i] in out.segments;
    SegmentsAgree(s, states, files, out.segments[i]);
  }

  /** A plan, the snapshot it was made of and the manifest built from them. */
  ghost predicate Committable(
    s: WorkspaceSnapshot, rs: seq<Resolution>, outputs: seq<PlannedOutput>, mode: Mode, m: Manifest)
  {
    && Indexed(s, StatesOf(s), FilesOf(s))
    && IdsArePositions(s)
    && PlanFor(StatesOf(s), FilesOf(s), rs, outputs)
    && ManifestFor(s, mode, Changed(outputs), m)
    && 0 < |m.targets| <= MAX_TRANSACTION_TARGETS
  }

  /** Planning and preparing: what makes a batch a transaction, and that everything below applies to it. */
  method PlanTransaction(s: WorkspaceSnapshot, operations: seq<Operation>, transactionId: string, newFileMode: Mode)
    returns (r: Result<(EditPlan, Manifest), CommitError>)
    requires ValidSnapshot(s) && IdsArePositions(s)
    ensures r.Ok? ==> Plannable(s, operations)
    ensures r.Ok? ==> Committable(s, Resolutions(StatesOf(s), operations), r.value.0.outputs, newFileMode, r.value.1)
    ensures r.Err? && r.error.Planning? <==> !Plannable(s, operations)
  {
    var plan := MakePlan(s, operations);
    if plan.Err? {
      return Err(Planning(plan.error));
    }
    var manifest := PrepareManifest(s, plan.value, transactionId, newFileMode);
    if manifest.Err? {
      return Err(manifest.error);
    }
    if |manifest.value.targets| > MAX_TRANSACTION_TARGETS {
      return Err(TooManyTargets(|manifest.value.targets|));
    }
    return Ok((plan.value, manifest.value));
  }

  lemma ChangedOutputFor(
    s: WorkspaceSnapshot, rs: seq<Resolution>, outputs: seq<PlannedOutput>, mode: Mode, m: Manifest, i: nat)
    requires Committable(s, rs, outputs, mode, m) && i < |m.targets|
    ensures i < |Changed(outputs)|
    ensures var out := Changed(outputs)[i];
            out.path in StatesOf(s) && OutputFor(FilesOf(s), StatesOf(s)[out.path], rs, out)
  {
    ChangedIsFilter(outputs);
    var out := Changed(outputs)[i];
    assert out in outputs;
    var j :| 0 <= j < |outputs| && outputs[j] == out;
  }

  lemma SegmentsOfManifestValid(
    s: WorkspaceSnapshot, rs: seq<Resolution>, outputs: seq<PlannedOutput>, mode: Mode, m: Manifest)
    requires Committable(s, rs, outputs, mode, m)
    ensures ValidSegments(m)
  {
    forall t, segment | t in m.targets && segment in t.segments ensures ValidSegment(m, segment) {
      var i :| 0 <= i < |m.targets| && m.targets[i] == t;
      ChangedOutputFor(s, rs, outputs, mode, m, i);
      SegmentsValid(s, StatesOf(s), FilesOf(s), m, Changed(outputs)[i], segment);
    }
  }

  /** The manifest that `commit` builds always passes its own validation. */
  lemma ManifestIsValid(s: WorkspaceSnapshot, rs: seq<Resolution>, outputs: seq<PlannedOutput>, mode: Mode, m: Manifest)
    requires Committable(s, rs, outputs, mode, m)
    ensures ValidManifest(m)
  {
    SegmentsOfManifestValid(s, rs, outputs, mode, m);
    ChangedStaysSorted(outputs);
    assert TargetPaths(m) == OutputPaths(Changed(outputs));
    forall t | t in m.targets ensures ValidTarget(t) {
      var i :| 0 <= i < |m.targets| && m.targets[i] == t;
      MaskedOnce(mode);
    }
  }

  lemma MaskedOnce(mode: Mode)
    ensures NewFileBits(NewFileBits(mode)) == NewFileBits(mode)
  {
    MaskedDigits(mode / 2 % 4, mode / 16 % 4, mode / 128 % 4);
  }

  lemma MaskedDigits(a: nat, b: nat, c: nat)
    requires a < 4 && b < 4 && c < 4
    ensures NewFileBits(a * 2 + b * 16 + c * 128) == a * 2 + b * 16 + c * 128
  {
    var bits := a * 2 + b * 16 + c * 128;
    assert bits / 2 == a + 4 * (b * 2 + c * 16) && bits / 2 % 4 == a;
    assert bits / 16 == b + 4 * (c * 2) && bits / 16 % 4 == b;
    assert bits / 128 == c && c % 4 == c;
  }

  function JobFor(s: WorkspaceSnapshot, m: Manifest, initial: seq<P.Slot>): P.Job {
    P.Job(m, initial, Sources(s))
  }

  /** A manifest built from a plan is a valid transaction, and what it plans is what the planner computed. */
  lemma PlanMakesAJob(
    s: WorkspaceSnapshot, rs: seq<Resolution>, outputs: seq<PlannedOutput>, mode: Mode, m: Manifest,
    initial: seq<P.Slot>)
    requires Committable(s, rs, outputs, mode, m) && StartsFrom(StatesOf(s), Changed(outputs), initial)
    ensures P.ValidJob(JobFor(s, m, initial))
    ensures forall i | 0 <= i < |m.targets| ::
              var path := Changed(outputs)[i].path;
              P.Planned(JobFor(s, m, initial), i) == OutputBytes(FilesOf(s), StatesOf(s)[path], rs, path)
  {
    SegmentsOfManifestValid(s, rs, outputs, mode, m);
    forall i | 0 <= i < |m.targets|
      ensures P.Describes(m.targets[i], initial[i], P.Planned(JobFor(s, m, initial), i))
      ensures var path := Changed(outputs)[i].path;
              P.Planned(JobFor(s, m, initial), i) == OutputBytes(FilesOf(s), StatesOf(s)[path], rs, path)
    {
      ChangedOutputFor(s, rs, outputs, mode, m, i);
      TargetDescribes(s, StatesOf(s), FilesOf(s), rs, mode, Changed(outputs)[i], m.targets[i], initial[i]);
    }
  }

  // ----- end to end

  function SlotBytes(slot: P.Slot): Option<Bytes> {
    if slot.Some? then Some(slot.value.bytes) else None
  }

  function Before(state: SnapshotState): Option<Bytes> {
    if state.Existing? then Some(state.file.bytes) else None
  }

  /** What is at a path: at a target, what the transaction has put there; elsewhere, what was there. */
  ghost function Visible(
    targets: seq<PlannedOutput>, disk: seq<P.Locations>, state: SnapshotState, path: string): Option<Bytes>
    requires |disk| == |targets|
  {
    if exists i :: 0 <= i < |targets| && targets[i].path == path then
      var i :| 0 <= i < |targets| && targets[i].path == path;
      SlotBytes(disk[i].target)
    else Before(state)
  }

  lemma TargetShowsOutcome(
    s: WorkspaceSnapshot, rs: seq<Resolution>, outputs: seq<PlannedOutput>, mode: Mode, m: Manifest,
    initial: seq<P.Slot>,
    disk: seq<P.Locations>, committed: bool, i: nat)
    requires Committable(s, rs, outputs, mode, m) && StartsFrom(StatesOf(s), Changed(outputs), initial)
    requires P.Outcome(JobFor(s, m, initial), disk, committed) && i < |Changed(outputs)|
    ensures |disk| == |Changed(outputs)|
    ensures var path := Changed(outputs)[i].path;
            SlotBytes(disk[i].target) ==
              if committed then Some(OutputBytes(FilesOf(s), StatesOf(s)[path], rs, path))
                else Before(StatesOf(s)[path])
  {
    PlanMakesAJob(s, rs, outputs, mode, m, initial);
    assert OnDisk(StatesOf(s)[Changed(outputs)[i].path], initial[i]);
    if committed {
      assert P.HoldsPlan(JobFor(s, m, initial), i, disk[i].target);
    }
  }

  lemma OtherPathsNeedNoTarget(s: WorkspaceSnapshot, rs: seq<Resolution>, outputs: seq<PlannedOutput>, path: string)
    requires PlanFor(StatesOf(s), FilesOf(s), rs, outputs) && Touched(rs, path)
    requires forall i | 0 <= i < |Changed(outputs)| :: Changed(outputs)[i].path != path
    ensures path in StatesOf(s)
    ensures Some(OutputBytes(FilesOf(s), StatesOf(s)[path], rs, path)) == Before(StatesOf(s)[path])
  {
    var j :| 0 <= j < |outputs| && outputs[j].path == path;
    ChangedIsFilter(outputs);
    assert outputs[j] in outputs;
    assert outputs[j] !in Changed(outputs);
  }

  /** What the path should show once the transaction is over. */
  function Shown(s: WorkspaceSnapshot, rs: seq<Resolution>, committed: bool, path: string): Option<Bytes>
    requires path in StatesOf(s)
  {
    if committed then Some(OutputBytes(FilesOf(s), StatesOf(s)[path], rs, path)) else Before(StatesOf(s)[path])
  }

  lemma OutcomeIsVisible(
    s: WorkspaceSnapshot, rs: seq<Resolution>, outputs: seq<PlannedOutput>, mode: Mode, m: Manifest,
    initial: seq<P.Slot>,
    disk: seq<P.Locations>, committed: bool, path: string)
    requires Committable(s, rs, outputs, mode, m) && StartsFrom(StatesOf(s), Changed(outputs), initial)
    requires P.Outcome(JobFor(s, m, initial), disk, committed) && Touched(rs, path)
    ensures |disk| == |Changed(outputs)| && path in StatesOf(s)
    ensures Visible(Changed(outputs), disk, StatesOf(s)[path], path) == Shown(s, rs, committed, path)
  {
    var changed := Changed(outputs);
    forall i | 0 <= i < |changed| && changed[i].path == path
      ensures path in StatesOf(s) && SlotBytes(disk[i].target) == Shown(s, rs, committed, path)
    {
      TargetShowsOutcome(s, rs, outputs, mode, m, initial, disk, committed, i);
    }
    if forall i | 0 <= i < |changed| :: changed[i].path != path {
      OtherPathsNeedNoTarget(s, rs, outputs, path);
    }
    assert path in StatesOf(s);
    VisibleIs(changed, disk, StatesOf(s)[path], path, Shown(s, rs, committed, path));
  }

  lemma VisibleIs(
    targets: seq<PlannedOutput>, disk: seq<P.Locations>, state: SnapshotState, path: string, shown: Option<Bytes>)
    requires |disk| == |targets|
    requires forall i | 0 <= i < |targets| && targets[i].path == path :: SlotBytes(disk[i].target) == shown
    requires (forall i | 0 <= i < |targets| :: targets[i].path != path) ==> Before(state) == shown
    ensures Visible(targets, disk, state, path) == shown
  {
  }

  /** End to end: whenever any run of the transaction is over as committed, every path the batch touches
      shows the edited file, and whenever it is over as rolled back, it shows what the snapshot saw. */
  lemma PlannedFilesAreVisible(
    s: WorkspaceSnapshot, rs: seq<Resolution>, outputs: seq<PlannedOutput>, mode: Mode, m: Manifest,
    initial: seq<P.Slot>,
    run: seq<P.World>, k: nat, path: string)
    requires Committable(s, rs, outputs, mode, m) && StartsFrom(StatesOf(s), Changed(outputs), initial)
    requires P.IsRun(JobFor(s, m, initial), run) && k < |run| && Touched(rs, path)
    requires run[k].area.Completed? || run[k].area.Cleaned?
    ensures |run[k].disk| == |Changed(outputs)| && path in StatesOf(s)
    ensures Visible(Changed(outputs), run[k].disk, StatesOf(s)[path], path) == Shown(s, rs, run[k].area.committed, path)
  {
    PlanMakesAJob(s, rs, outputs, mode, m, initial);
    Recovery.AllOrNothing(JobFor(s, m, initial), run, k);
    OutcomeIsVisible(s, rs, outputs, mode, m, initial, run[k].disk, run[k].area.committed, path);
  }
}
