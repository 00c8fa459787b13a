/** The planner's resource accounting, and planning as a whole: plan, usage, budget and digest. */
module Budget {
  import opened Common
  import opened Order
  import opened Plan
  import opened Sweep
  import opened Planner
  import opened PlanRecord
  import opened PlanEncoder
  import opened PlanIdentity
  import Cbor
  import Manifests
  import Review
  import Utf8

  datatype PlanningUsage = PlanningUsage(
    maximumOutputBytes: nat, totalOutputBytes: nat, maximumOutputSegments: nat, totalSegments: nat,
    changedTargets: nat, projectedResponseBytes: nat, planningMemoryBytes: nat)

  /** The limits that planning enforces, in the order of its checks. */
  datatype ResourceBudget = ResourceBudget(
    resultingBytesPerOutput: nat, plannedOutputBytes: nat, segmentsPerOutput: nat, segments: nat,
    changedTargets: nat, projectedResponseBytes: nat, planningMemoryBytes: nat)

  datatype BatchError = NotPlannable(error: PlanError) | OverBudget(resource: string)

  /** What one record of each kind takes in memory. */
  datatype Sizes = Sizes(operation: nat, output: nat, segment: nat)

  // ----- what is counted

  function PathLength(path: string): nat {
    |Utf8.EncodeAll(path)|
  }

  function OperationPaths(o: ResolvedOperation): nat {
    PathLength(o.sourcePath) + PathLength(o.destinationPath)
  }

  function OperationResponse(o: ResolvedOperation): nat {
    1024 + OperationPaths(o)
  }

  function OutputLength(out: PlannedOutput): nat {
    out.resultingLength
  }

  function SegmentCount(out: PlannedOutput): nat {
    |out.segments|
  }

  function TargetCount(out: PlannedOutput): nat {
    if out.change != Unchanged then 1 else 0
  }

  function OutputResponse(out: PlannedOutput): nat {
    512 + PathLength(out.path) + |out.segments| * 512
  }

  function OutputMemory(sizes: Sizes): PlannedOutput -> nat {
    (out: PlannedOutput) => PathLength(out.path) + |out.segments| * sizes.segment
  }

  function Larger(a: nat, b: nat): nat {
    if a < b then b else a
  }

  function Largest<T>(s: seq<T>, f: T -> nat): nat {
    if s == [] then 0 else Larger(Largest(s[..|s| - 1], f), f(s[|s| - 1]))
  }

  function Product(a: nat, b: nat): nat {
    a * b
  }

  // ----- counting in 64 bits

  /** The first of the totals that no longer fits a word. */
  function FirstOverflow(u: PlanningUsage): Option<string> {
    if u.totalOutputBytes >= U64 then Some("planned_output_bytes")
    else if u.totalSegments >= U64 then Some("segments")
    else if u.changedTargets >= U64 then Some("changed_targets")
    else if u.projectedResponseBytes >= U64 then Some("projected_response_bytes")
    else if u.planningMemoryBytes >= U64 then Some("planning_memory_bytes")
    else None
  }

  predicate AtMost(u: PlanningUsage, v: PlanningUsage) {
    && u.maximumOutputBytes <= v.maximumOutputBytes && u.totalOutputBytes <= v.totalOutputBytes
    && u.maximumOutputSegments <= v.maximumOutputSegments && u.totalSegments <= v.totalSegments
    && u.changedTargets <= v.changedTargets && u.projectedResponseBytes <= v.projectedResponseBytes
    && u.planningMemoryBytes <= v.planningMemoryBytes
  }

  function WithOperation(u: PlanningUsage, o: ResolvedOperation): PlanningUsage {
    u.(projectedResponseBytes := u.projectedResponseBytes + OperationResponse(o),
       planningMemoryBytes := u.planningMemoryBytes + OperationPaths(o))
  }

  function WithOutput(sizes: Sizes, u: PlanningUsage, out: PlannedOutput): PlanningUsage {
    PlanningUsage(
      Larger(u.maximumOutputBytes, out.resultingLength), u.totalOutputBytes + out.resultingLength,
      Larger(u.maximumOutputSegments, |out.segments|), u.totalSegments + |out.segments|,
      u.changedTargets + TargetCount(out),
      u.projectedResponseBytes + OutputResponse(out),
      u.planningMemoryBytes + OutputMemory(sizes)(out))
  }

  function WithOperations(u: PlanningUsage, operations: seq<ResolvedOperation>): PlanningUsage {
    if operations == [] then u
    else WithOperation(WithOperations(u, operations[..|operations| - 1]), operations[|operations| - 1])
  }

  function WithOutputs(sizes: Sizes, u: PlanningUsage, outputs: seq<PlannedOutput>): PlanningUsage {
    if outputs == [] then u
    else WithOutput(sizes, WithOutputs(sizes, u, outputs[..|outputs| - 1]), outputs[|outputs| - 1])
  }

  function BeforeOperations(sizes: Sizes, operations: nat): PlanningUsage {
    PlanningUsage(0, 0, 0, 0, 0, 1024, Product(operations, sizes.operation))
  }

  function BeforeOutputs(sizes: Sizes, u: PlanningUsage, outputs: nat): PlanningUsage {
    u.(planningMemoryBytes := u.planningMemoryBytes + Product(outputs, sizes.output))
  }

  /** The usage of a plan, in unbounded integers. */
  function UsageOf(sizes: Sizes, operations: seq<ResolvedOperation>, outputs: seq<PlannedOutput>): PlanningUsage {
    var counted := WithOperations(BeforeOperations(sizes, |operations|), operations);
    WithOutputs(sizes, BeforeOutputs(sizes, counted, |outputs|), outputs)
  }

  lemma {:induction false} OperationsTotal(u: PlanningUsage, operations: seq<ResolvedOperation>)
    ensures WithOperations(u, operations) ==
            u.(projectedResponseBytes := u.projectedResponseBytes + Total(operations, OperationResponse),
               planningMemoryBytes := u.planningMemoryBytes + Total(operations, OperationPaths))
  {
    if operations != [] {
      OperationsTotal(u, operations[..|operations| - 1]);
    }
  }

  lemma {:induction false} OutputsTotal(sizes: Sizes, u: PlanningUsage, outputs: seq<PlannedOutput>)
    ensures WithOutputs(sizes, u, outputs) ==
            PlanningUsage(
              Larger(u.maximumOutputBytes, Largest(outputs, OutputLength)),
              u.totalOutputBytes + Total(outputs, OutputLength),
              Larger(u.maximumOutputSegments, Largest(outputs, SegmentCount)),
              u.totalSegments + Total(outputs, SegmentCount),
              u.changedTargets + Total(outputs, TargetCount),
              u.projectedResponseBytes + Total(outputs, OutputResponse),
              u.planningMemoryBytes + Total(outputs, OutputMemory(sizes)))
  {
    if outputs != [] {
      OutputsTotal(sizes, u, outputs[..|outputs| - 1]);
    }
  }

  /** What the usage says of a plan: the largest output and the totals over operations and outputs. */
  lemma UsageIsTotals(sizes: Sizes, operations: seq<ResolvedOperation>, outputs: seq<PlannedOutput>)
    ensures UsageOf(sizes, operations, outputs) ==
            PlanningUsage(
              Largest(outputs, OutputLength), Total(outputs, OutputLength),
              Largest(outputs, SegmentCount), Total(outputs, SegmentCount),
              Total(outputs, TargetCount),
              1024 + Total(operations, OperationResponse) + Total(outputs, OutputResponse),
              Product(|operations|, sizes.operation) + Total(operations, OperationPaths)
              + Product(|outputs|, sizes.output) + Total(outputs, OutputMemory(sizes)))
  {
    var counted := WithOperations(BeforeOperations(sizes, |operations|), operations);
    OperationsTotal(BeforeOperations(sizes, |operations|), operations);
    OutputsTotal(sizes, BeforeOutputs(sizes, counted, |outputs|), outputs);
  }

  /** Counting more never counts less, so a total that overflows on the way overflows at the end. */
  lemma {:induction false} OperationsGrow(u: PlanningUsage, operations: seq<ResolvedOperation>, i: nat)
    requires i <= |operations|
    ensures AtMost(WithOperations(u, operations[..i]), WithOperations(u, operations))
  {
    var n := |operations| - 1;
    if i <= n {
      OperationsGrow(u, operations[..n], i);
      assert operations[..n][..i] == operations[..i];
    } else {
      assert operations[..i] == operations;
    }
  }

  lemma {:induction false} OutputsGrow(sizes: Sizes, u: PlanningUsage, outputs: seq<PlannedOutput>, i: nat)
    requires i <= |outputs|
    ensures AtMost(WithOutputs(sizes, u, outputs[..i]), WithOutputs(sizes, u, outputs))
  {
    var n := |outputs| - 1;
    if i <= n {
      OutputsGrow(sizes, u, outputs[..n], i);
      assert outputs[..n][..i] == outputs[..i];
    } else {
      assert outputs[..i] == outputs;
    }
  }

  lemma OperationsSnoc(u: PlanningUsage, operations: seq<ResolvedOperation>, i: nat)
    requires i < |operations|
    ensures WithOperations(u, operations[..i + 1]) == WithOperation(WithOperations(u, operations[..i]), operations[i])
  {
    assert operations[..i + 1][..i] == operations[..i];
  }

  lemma OutputsSnoc(sizes: Sizes, u: PlanningUsage, outputs: seq<PlannedOutput>, i: nat)
    requires i < |outputs|
    ensures WithOutputs(sizes, u, outputs[..i + 1]) ==
            WithOutput(sizes, WithOutputs(sizes, u, outputs[..i]), outputs[i])
  {
    assert outputs[..i + 1][..i] == outputs[..i];
  }

  method CountOperation(usage: PlanningUsage, o: ResolvedOperation) returns (u: PlanningUsage)
    ensures u == WithOperation(usage, o)
  {
    var paths := |Utf8.EncodeAll(o.sourcePath)| + |Utf8.EncodeAll(o.destinationPath)|;
    u := usage.(projectedResponseBytes := usage.projectedResponseBytes + (1_024 + paths),
                planningMemoryBytes := usage.planningMemoryBytes + paths);
  }

  method CountOutput(sizes: Sizes, usage: PlanningUsage, out: PlannedOutput) returns (u: PlanningUsage)
    ensures u == WithOutput(sizes, usage, out)
  {
    var segments, path := |out.segments|, |Utf8.EncodeAll(out.path)|;
    u := PlanningUsage(
      if usage.maximumOutputBytes < out.resultingLength then out.resultingLength else usage.maximumOutputBytes,
      usage.totalOutputBytes + out.resultingLength,
      if usage.maximumOutputSegments < segments then segments else usage.maximumOutputSegments,
      usage.totalSegments + segments,
      usage.changedTargets + (if out.change == Unchanged then 0 else 1),
      usage.projectedResponseBytes + (512 + path + segments * 512),
      usage.planningMemoryBytes + (path + segments * sizes.segment));
  }

  method CountOperations(start: PlanningUsage, operations: seq<ResolvedOperation>)
    returns (r: Result<PlanningUsage, BatchError>)
    ensures r.Ok? <==> FirstOverflow(WithOperations(start, operations)).None?
    ensures r.Ok? ==> r.value == WithOperations(start, operations)
    ensures r.Err? ==> r.error.OverBudget?
  {
    var usage := start;
    OperationsGrow(start, operations, 0);
    if FirstOverflow(usage).Some? {
      return Err(OverBudget(FirstOverflow(usage).value));
    }
    for i := 0 to |operations|
      invariant usage == WithOperations(start, operations[..i]) && FirstOverflow(usage).None?
    {
      OperationsSnoc(start, operations, i);
      usage := CountOperation(usage, operations[i]);
      if FirstOverflow(usage).Some? {
        OperationsGrow(start, operations, i + 1);
        return Err(OverBudget(FirstOverflow(usage).value));
      }
    }
    assert operations[..|operations|] == operations;
    return Ok(usage);
  }

  method CountOutputs(sizes: Sizes, start: PlanningUsage, outputs: seq<PlannedOutput>)
    returns (r: Result<PlanningUsage, BatchError>)
    ensures r.Ok? <==> FirstOverflow(WithOutputs(sizes, start, outputs)).None?
    ensures r.Ok? ==> r.value == WithOutputs(sizes, start, outputs)
    ensures r.Err? ==> r.error.OverBudget?
  {
    var usage := start;
    OutputsGrow(sizes, start, outputs, 0);
    if FirstOverflow(usage).Some? {
      return Err(OverBudget(FirstOverflow(usage).value));
    }
    for i := 0 to |outputs|
      invariant usage == WithOutputs(sizes, start, outputs[..i]) && FirstOverflow(usage).None?
    {
      OutputsSnoc(sizes, start, outputs, i);
      usage := CountOutput(sizes, usage, outputs[i]);
      if FirstOverflow(usage).Some? {
        OutputsGrow(sizes, start, outputs, i + 1);
        return Err(OverBudget(FirstOverflow(usage).value));
      }
    }
    assert outputs[..|outputs|] == outputs;
    return Ok(usage);
  }

  /** The usage of a plan, unless one of its totals does not fit a word. */
  method CalculateUsage(sizes: Sizes, operations: seq<ResolvedOperation>, outputs: seq<PlannedOutput>)
    returns (r: Result<PlanningUsage, BatchError>)
    ensures r.Ok? <==> FirstOverflow(UsageOf(sizes, operations, outputs)).None?
    ensures r.Ok? ==> r.value == UsageOf(sizes, operations, outputs)
    ensures r.Err? ==> r.error.OverBudget?
  {
    var counted := CountOperations(BeforeOperations(sizes, |operations|), operations);
    ghost var before := WithOperations(BeforeOperations(sizes, |operations|), operations);
    OutputsGrow(sizes, BeforeOutputs(sizes, before, |outputs|), outputs, 0);
    if counted.Err? {
      return counted;
    }
    r := CountOutputs(sizes, BeforeOutputs(sizes, counted.value, |outputs|), outputs);
  }

  /** The largest value is one of the values and no value is larger. */
  lemma {:induction false} LargestIsMaximum<T>(s: seq<T>, f: T -> nat)
    ensures forall x | x in s :: f(x) <= Largest(s, f)
    ensures if s == [] then Largest(s, f) == 0 else exists x | x in s :: f(x) == Largest(s, f)
  {
    if s != [] {
      var n := |s| - 1;
      LargestIsMaximum(s[..n], f);
      assert s == s[..n] + [s[n]];
      if Largest(s, f) != f(s[n]) {
        assert n > 0;
      }
    }
  }

  /** The changed targets that are charged are those that get a target in the transaction. */
  lemma {:induction false} ChangedTargetsAreTargets(outputs: seq<PlannedOutput>)
    ensures Total(outputs, TargetCount) == |Manifests.Changed(outputs)|
  {
    if outputs != [] {
      ChangedTargetsAreTargets(outputs[..|outputs| - 1]);
    }
  }

  // ----- the budget

  predicate WithinBudget(u: PlanningUsage, budget: ResourceBudget) {
    && u.maximumOutputBytes <= budget.resultingBytesPerOutput && u.totalOutputBytes <= budget.plannedOutputBytes
    && u.maximumOutputSegments <= budget.segmentsPerOutput && u.totalSegments <= budget.segments
    && u.changedTargets <= budget.changedTargets
    && u.projectedResponseBytes <= budget.projectedResponseBytes
    && u.planningMemoryBytes <= budget.planningMemoryBytes
  }

  predicate BudgetInWords(budget: ResourceBudget) {
    && budget.plannedOutputBytes < U64 && budget.segments < U64 && budget.changedTargets < U64
    && budget.projectedResponseBytes < U64 && budget.planningMemoryBytes < U64
  }

  function EnforceUsage(u: PlanningUsage, budget: ResourceBudget): (r: Option<BatchError>)
    ensures r.None? <==> WithinBudget(u, budget)
    ensures r.Some? ==> r.value.OverBudget?
  {
    if u.maximumOutputBytes > budget.resultingBytesPerOutput then Some(OverBudget("resulting_bytes_per_output"))
    else if u.totalOutputBytes > budget.plannedOutputBytes then Some(OverBudget("planned_output_bytes"))
    else if u.maximumOutputSegments > budget.segmentsPerOutput then Some(OverBudget("segments_per_output"))
    else if u.totalSegments > budget.segments then Some(OverBudget("segments"))
    else if u.changedTargets > budget.changedTargets then Some(OverBudget("changed_targets"))
    else if u.projectedResponseBytes > budget.projectedResponseBytes then
      Some(OverBudget("projected_response_bytes"))
    else if u.planningMemoryBytes > budget.planningMemoryBytes then Some(OverBudget("planning_memory_bytes"))
    else None
  }

  /** Counting in words and then comparing decides as comparing the true totals would: overflow is never a
      reason of its own. */
  method CheckUsage(
    sizes: Sizes, operations: seq<ResolvedOperation>, outputs: seq<PlannedOutput>, budget: ResourceBudget)
    returns (r: Result<PlanningUsage, BatchError>)
    requires BudgetInWords(budget)
    ensures r.Ok? <==> WithinBudget(UsageOf(sizes, operations, outputs), budget)
    ensures r.Ok? ==> r.value == UsageOf(sizes, operations, outputs) && FirstOverflow(r.value).None?
    ensures r.Err? ==> r.error.OverBudget?
  {
    r := CalculateUsage(sizes, operations, outputs);
    if r.Ok? && EnforceUsage(r.value, budget).Some? {
      r := Err(EnforceUsage(r.value, budget).value);
    }
  }

  // ----- every plan has a record

  ghost predicate NoRepeats<T>(s: seq<T>) {
    forall i, j | 0 <= i < j < |s| :: s[i] != s[j]
  }

  lemma {:induction false} CountedOnce<T>(s: seq<T>, x: T)
    requires NoRepeats(s)
    ensures multiset(s)[x] <= 1
    decreases |s|
  {
    if s != [] {
      var n := |s| - 1;
      CountedOnce(s[..n], x);
      assert s == s[..n] + [s[n]];
      if x == s[n] {
        assert x !in s[..n];
        assert multiset(s[..n])[x] == 0;
      }
    }
  }

  lemma PermutedWithoutRepeats<T>(a: seq<T>, b: seq<T>)
    requires multiset(a) == multiset(b) && NoRepeats(b)
    ensures NoRepeats(a)
  {
    forall i, j | 0 <= i < j < |a| ensures a[i] != a[j] {
      CountedOnce(b, a[i]);
      assert a == a[..i] + [a[i]] + a[i + 1..];
      assert a[i + 1..][j - i - 1] == a[j];
      assert a[j] in multiset(a[i + 1..]);
    }
  }

  lemma InputsDiffer(s: WorkspaceSnapshot)
    requires Distinct(s)
    ensures NoRepeats(InputsOf(s))
  {
    var inputs := InputsOf(s);
    forall i, j | 0 <= i < j < |inputs| ensures inputs[i] != inputs[j] {
      if j < |s.files| {
        assert s.files[i].path != s.files[j].path;
      } else if i >= |s.files| {
        assert s.absentPaths[i - |s.files|].path != s.absentPaths[j - |s.files|].path;
      }
    }
  }

  lemma SortedIdsDiffer(s: WorkspaceSnapshot)
    requires Distinct(s) && Indexed(s, StatesOf(s), FilesOf(s))
    ensures DistinctIds(SortedInputs(s))
  {
    InputsDiffer(s);
    SortedByPath(s);
    PermutedWithoutRepeats(SortedInputs(s), InputsOf(s));
    SortedInputsHaveFiles(s);
    var inputs := SortedInputs(s);
    forall i, j | 0 <= i < j < |inputs| && inputs[i].ExistingRecord? && inputs[j].ExistingRecord?
      ensures inputs[i].file.id != inputs[j].file.id
    {
      assert inputs[i] in inputs && inputs[j] in inputs;
      assert inputs[i] != inputs[j];
    }
  }

  lemma FileIsAnInput(s: WorkspaceSnapshot, f: FileSnapshot)
    requires f in s.files
    ensures ExistingRecord(f) in SortedInputs(s) && IndexOf(SortedInputs(s), f.id).Some?
  {
    var k :| 0 <= k < |s.files| && s.files[k] == f;
    assert InputsOf(s)[k] == ExistingRecord(f);
    SortedByPath(s);
    SameElements(SortedInputs(s), InputsOf(s));
  }

  /** The digest step of planning never fails. */
  lemma PlansAreEncodable(s: WorkspaceSnapshot, rs: seq<Resolution>, p: EditPlan)
    requires Distinct(s) && Indexed(s, StatesOf(s), FilesOf(s)) && PlanFor(StatesOf(s), FilesOf(s), rs, p.outputs)
    ensures Encodable(s, p)
  {
    SortedIdsDiffer(s);
    forall out, segment | out in p.outputs && segment in out.segments
      ensures IndexOf(SortedInputs(s), segment.fileId).Some?
    {
      var i :| 0 <= i < |p.outputs| && p.outputs[i] == out;
      assert ValidSlice(FilesOf(s), segment.fileId, segment.range);
      FileIsAnInput(s, FilesOf(s)[segment.fileId]);
    }
  }

  // ----- every plan of machine words has a record of machine words

  ghost predicate SnapshotInWords(s: WorkspaceSnapshot) {
    && IdentityFits(s.workspaceIdentity) && |s.files| + |s.absentPaths| < U64
    && forall r | r in InputsOf(s) :: InputFits(ViewOfInput(r))
  }

  predicate OperationInWords(o: Operation) {
    && TextFits(o.sourcePath) && SelectorFits(o.selector) && PreconditionFits(o.sourcePrecondition)
    && TextFits(o.destinationPath) && AnchorFits(o.anchor) && PreconditionFits(o.destinationPrecondition)
  }

  predicate BatchInWords(operations: seq<Operation>) {
    |operations| < U64 && forall o | o in operations :: OperationInWords(o)
  }

  lemma FileInWords(s: WorkspaceSnapshot, f: FileSnapshot)
    requires SnapshotInWords(s) && f in s.files
    ensures |f.bytes| < U64 && TextFits(f.path)
  {
    var k :| 0 <= k < |s.files| && s.files[k] == f;
    assert InputsOf(s)[k] == ExistingRecord(f);
    assert InputFits(ViewOfInput(ExistingRecord(f)));
  }

  lemma StateInWords(s: WorkspaceSnapshot, path: string)
    requires SnapshotInWords(s) && Indexed(s, StatesOf(s), FilesOf(s)) && path in StatesOf(s)
    ensures TextFits(path) && |OriginalOf(StatesOf(s)[path])| < U64
  {
    match StatesOf(s)[path]
    case Existing(f) => FileInWords(s, f);
    case Absent(a) =>
      var k :| 0 <= k < |s.absentPaths| && s.absentPaths[k] == a;
      assert InputsOf(s)[|s.files| + k] == AbsentRecord(a);
      assert InputFits(ViewOfInput(AbsentRecord(a)));
  }

  lemma ResolutionInWords(s: WorkspaceSnapshot, r: Resolution)
    requires SnapshotInWords(s) && Indexed(s, StatesOf(s), FilesOf(s)) && Grounded(StatesOf(s), FilesOf(s), r)
    ensures RangeFits(r.range) && |Payload(r)| < U64 && r.offset < U64
  {
    FileInWords(s, r.source);
    StateInWords(s, r.destinationPath);
  }

  predicate InsertionInWords(i: Insertion) {
    i.operationIndex < U64 && DigestFits(i.payloadDigest)
  }

  lemma {:induction false} InsertionsInWords(rs: seq<Resolution>, path: string)
    requires |rs| < U64 && forall r | r in rs :: |Payload(r)| < U64
    ensures forall p | p in InsertionsFor(rs, path) :: InsertionInWords(p.insertion)
    decreases |rs|
  {
    if rs != [] {
      var n := |rs| - 1;
      assert rs[n] in rs;
      InsertionsInWords(rs[..n], path);
    }
  }

  /** The inserted slices of an output. */
  lemma InsertedSlicesInWords(s: WorkspaceSnapshot, rs: seq<Resolution>, path: string, k: nat)
    requires SnapshotInWords(s) && Indexed(s, StatesOf(s), FilesOf(s)) && AllGrounded(StatesOf(s), FilesOf(s), rs)
    requires |rs| < U64
    ensures forall x | x in PayloadsBefore(InsertionsFor(rs, path), k) :: PayloadInWords(x)
  {
    forall r | r in rs ensures |Payload(r)| < U64 {
      var i :| 0 <= i < |rs| && rs[i] == r;
      ResolutionInWords(s, rs[i]);
    }
    InsertionsInWords(rs, path);
    PayloadsInWords(InsertionsFor(rs, path), k);
  }

  lemma {:induction false} InsertedInWords(insertions: seq<Placed>, k: nat)
    requires forall p | p in insertions :: InsertionInWords(p.insertion)
    ensures forall i | i in InsertedAt(insertions, k) :: InsertionInWords(i)
    decreases |insertions|
  {
    if insertions != [] {
      InsertedInWords(insertions[..|insertions| - 1], k);
    }
  }

  predicate PayloadInWords(s: OutputSegment) {
    s.PayloadSlice? ==> s.operationIndex < U64 && DigestFits(s.payloadDigest)
  }

  lemma SlicesInWords(insertions: seq<Insertion>)
    requires forall i | i in insertions :: InsertionInWords(i)
    ensures forall s | s in Slices(insertions) :: PayloadInWords(s)
  {
    forall s | s in Slices(insertions) ensures PayloadInWords(s) {
      var i :| 0 <= i < |insertions| && Slices(insertions)[i] == s;
      assert insertions[i] in insertions;
    }
  }

  lemma {:induction false} PayloadsInWords(insertions: seq<Placed>, k: nat)
    requires forall p | p in insertions :: InsertionInWords(p.insertion)
    ensures forall s | s in PayloadsBefore(insertions, k) :: PayloadInWords(s)
  {
    if k > 0 {
      PayloadsInWords(insertions, k - 1);
      InsertedInWords(insertions, k - 1);
      SlicesInWords(InsertedAt(insertions, k - 1));
    }
  }

  lemma SegmentInWords(s: WorkspaceSnapshot, segments: seq<OutputSegment>, i: nat)
    requires SnapshotInWords(s) && Indexed(s, StatesOf(s), FilesOf(s)) && ValidRecipe(FilesOf(s), segments)
    requires i < |segments| && forall x | x in Payloads(segments) :: PayloadInWords(x)
    ensures SegmentFits(ViewOfSegment(SortedInputs(s), segments[i]))
  {
    var segment := segments[i];
    assert segment in segments;
    var f := FilesOf(s)[segment.fileId];
    FileInWords(s, f);
    FileIsAnInput(s, f);
    SortedLength(s);
    if segment.PayloadSlice? {
      Review.PayloadOf(segments, i);
    }
  }

  lemma SegmentsInWords(s: WorkspaceSnapshot, segments: seq<OutputSegment>)
    requires SnapshotInWords(s) && Indexed(s, StatesOf(s), FilesOf(s)) && ValidRecipe(FilesOf(s), segments)
    requires forall x | x in Payloads(segments) :: PayloadInWords(x)
    ensures forall v | v in ViewOfSegments(SortedInputs(s), segments) :: SegmentFits(v)
  {
    var views := ViewOfSegments(SortedInputs(s), segments);
    forall v | v in views ensures SegmentFits(v) {
      var i :| 0 <= i < |views| && views[i] == v;
      SegmentInWords(s, segments, i);
    }
  }

  lemma SortedLength(s: WorkspaceSnapshot)
    ensures |SortedInputs(s)| == |s.files| + |s.absentPaths|
  {
    SortedByPath(s);
    assert |multiset(SortedInputs(s))| == |SortedInputs(s)| && |multiset(InputsOf(s))| == |InputsOf(s)|;
  }

  lemma OutputInWords(s: WorkspaceSnapshot, rs: seq<Resolution>, out: PlannedOutput)
    requires SnapshotInWords(s) && Indexed(s, StatesOf(s), FilesOf(s)) && AllGrounded(StatesOf(s), FilesOf(s), rs)
    requires |rs| < U64 && out.path in StatesOf(s) && OutputFor(FilesOf(s), StatesOf(s)[out.path], rs, out)
    requires out.resultingLength < U64 && |out.segments| < U64
    ensures OutputFits(ViewOfOutput(SortedInputs(s), out))
  {
    StateInWords(s, out.path);
    InsertedSlicesInWords(s, rs, out.path, |OriginalOf(StatesOf(s)[out.path])| + 1);
    SegmentsInWords(s, out.segments);
  }

  lemma RecordInWords(s: WorkspaceSnapshot, o: Operation, r: Resolution, k: nat)
    requires SnapshotInWords(s) && Indexed(s, StatesOf(s), FilesOf(s)) && Grounded(StatesOf(s), FilesOf(s), r)
    requires OperationInWords(o) && k < U64
    ensures OperationFits(ResolvedRecord(o, r, k))
  {
    ResolutionInWords(s, r);
  }

  /** What planning makes of a snapshot and a batch. */
  ghost predicate Plans(s: WorkspaceSnapshot, operations: seq<Operation>, p: EditPlan) {
    Plannable(s, operations) && PlansFrom(s, operations, Resolutions(StatesOf(s), operations), p)
  }

  ghost predicate PlansFrom(s: WorkspaceSnapshot, operations: seq<Operation>, rs: seq<Resolution>, p: EditPlan) {
    && Indexed(s, StatesOf(s), FilesOf(s))
    && PlanFor(StatesOf(s), FilesOf(s), rs, p.outputs)
    && AllGrounded(StatesOf(s), FilesOf(s), rs)
    && |p.operations| == |operations| && RecordsFor(p.operations, operations, rs)
  }

  lemma OperationsInWords(
    s: WorkspaceSnapshot, operations: seq<Operation>, rs: seq<Resolution>, records: seq<ResolvedOperation>)
    requires SnapshotInWords(s) && BatchInWords(operations) && Indexed(s, StatesOf(s), FilesOf(s))
    requires AllGrounded(StatesOf(s), FilesOf(s), rs) && RecordsFor(records, operations, rs)
    ensures forall o | o in records :: OperationFits(o)
  {
    forall o | o in records ensures OperationFits(o) {
      var k :| 0 <= k < |records| && records[k] == o;
      assert operations[k] in operations;
      RecordInWords(s, operations[k], rs[k], k);
    }
  }

  lemma InputsInWords(s: WorkspaceSnapshot)
    requires SnapshotInWords(s)
    ensures forall v | v in Map(SortedInputs(s), ViewOfInput) :: InputFits(v)
  {
    SortedByPath(s);
    SameElements(SortedInputs(s), InputsOf(s));
    var inputs, views := SortedInputs(s), Map(SortedInputs(s), ViewOfInput);
    forall v | v in views ensures InputFits(v) {
      var k :| 0 <= k < |views| && views[k] == v;
      assert inputs[k] in inputs;
    }
  }

  lemma OutputsInWords(s: WorkspaceSnapshot, rs: seq<Resolution>, outputs: seq<PlannedOutput>)
    requires SnapshotInWords(s) && Indexed(s, StatesOf(s), FilesOf(s)) && AllGrounded(StatesOf(s), FilesOf(s), rs)
    requires |rs| < U64 && PlanFor(StatesOf(s), FilesOf(s), rs, outputs)
    requires forall out | out in outputs :: out.resultingLength < U64 && |out.segments| < U64
    ensures forall v | v in ViewOfOutputs(SortedInputs(s), SortBy(outputs, ByOutputPath)) :: OutputFits(v)
  {
    var sorted := SortBy(outputs, ByOutputPath);
    SortedHasSameElements(outputs);
    var views := ViewOfOutputs(SortedInputs(s), sorted);
    forall v | v in views ensures OutputFits(v) {
      var k :| 0 <= k < |views| && views[k] == v;
      assert sorted[k] in sorted;
      var i :| 0 <= i < |outputs| && outputs[i] == sorted[k];
      OutputInWords(s, rs, outputs[i]);
    }
  }

  lemma {:induction false} PartOfTotal<T>(s: seq<T>, f: T -> nat, x: T)
    requires x in s
    ensures f(x) <= Total(s, f)
  {
    var n := |s| - 1;
    if x != s[n] {
      PartOfTotal(s[..n], f, x);
    }
  }

  lemma TotalsInWords(sizes: Sizes, operations: seq<ResolvedOperation>, outputs: seq<PlannedOutput>)
    requires FirstOverflow(UsageOf(sizes, operations, outputs)).None?
    ensures Total(outputs, OutputLength) < U64 && Total(outputs, SegmentCount) < U64
  {
    UsageIsTotals(sizes, operations, outputs);
  }

  lemma AtLeastOneEach(count: nat, size: nat)
    requires size > 0
    ensures count <= Product(count, size)
  {
  }

  lemma CountsOutputs(sizes: Sizes, u: PlanningUsage, outputs: seq<PlannedOutput>)
    requires sizes.output > 0
    ensures |outputs| <= BeforeOutputs(sizes, u, |outputs|).planningMemoryBytes
  {
    AtLeastOneEach(|outputs|, sizes.output);
  }

  lemma OutputCountInWords(sizes: Sizes, operations: seq<ResolvedOperation>, outputs: seq<PlannedOutput>)
    requires sizes.output > 0 && FirstOverflow(UsageOf(sizes, operations, outputs)).None?
    ensures |outputs| < U64
  {
    var counted := WithOperations(BeforeOperations(sizes, |operations|), operations);
    CountsOutputs(sizes, counted, outputs);
    OutputsGrow(sizes, BeforeOutputs(sizes, counted, |outputs|), outputs, 0);
  }

  lemma OutputsInTotals(outputs: seq<PlannedOutput>)
    requires Total(outputs, OutputLength) < U64 && Total(outputs, SegmentCount) < U64
    ensures forall out | out in outputs :: out.resultingLength < U64 && |out.segments| < U64
  {
    forall out | out in outputs ensures out.resultingLength < U64 && |out.segments| < U64 {
      PartOfTotal(outputs, OutputLength, out);
      PartOfTotal(outputs, SegmentCount, out);
    }
  }

  /** A plan whose usage can be counted in words has a record of words. */
  lemma PlanInWords(
    s: WorkspaceSnapshot, operations: seq<Operation>, rs: seq<Resolution>, p: EditPlan, sizes: Sizes)
    requires SnapshotInWords(s) && BatchInWords(operations) && PlansFrom(s, operations, rs, p)
    requires sizes.output > 0 && FirstOverflow(UsageOf(sizes, p.operations, p.outputs)).None?
    ensures PlanRecord.Fits(ViewOf(s, p))
  {
    TotalsInWords(sizes, p.operations, p.outputs);
    OutputsInTotals(p.outputs);
    OutputCountInWords(sizes, p.operations, p.outputs);
    OutputsInWords(s, rs, p.outputs);
    OperationsInWords(s, operations, rs, p.operations);
    InputsInWords(s);
    SortedLength(s);
    SameLength(p.outputs);
  }

  /** The digest of a plan that has been made and counted. */
  method DigestOfPlan(
    s: WorkspaceSnapshot, operations: seq<Operation>, ghost rs: seq<Resolution>, p: EditPlan, ghost sizes: Sizes)
    returns (digest: Digest)
    requires SnapshotInWords(s) && BatchInWords(operations) && Distinct(s) && PlansFrom(s, operations, rs, p)
    requires sizes.output > 0 && FirstOverflow(UsageOf(sizes, p.operations, p.outputs)).None?
    ensures Cbor.Valid(RecordItem(ViewOf(s, p))) && digest == DigestOf(ViewOf(s, p))
  {
    PlanInWords(s, operations, rs, p, sizes);
    PlansAreEncodable(s, rs, p);
    var r := PlanDigest(s, p);
    return r.value;
  }

  /** Planning as a whole: it fails if and only if the batch is not plannable or the plan is over budget, and its
      digest is that of the plan's record. */
  method PlanBatch(s: WorkspaceSnapshot, operations: seq<Operation>, sizes: Sizes, budget: ResourceBudget)
    returns (r: Result<(EditPlan, PlanningUsage, Digest), BatchError>)
    requires ValidSnapshot(s) && SnapshotInWords(s) && BatchInWords(operations)
    requires sizes.output > 0 && BudgetInWords(budget)
    ensures r.Err? && r.error.NotPlannable? <==> !Plannable(s, operations)
    ensures r.Err? && r.error.OverBudget? ==>
              exists p :: Plans(s, operations, p) && !WithinBudget(UsageOf(sizes, p.operations, p.outputs), budget)
    ensures r.Ok? ==>
              var (plan, usage, digest) := r.value;
              && Plans(s, operations, plan)
              && usage == UsageOf(sizes, plan.operations, plan.outputs) && WithinBudget(usage, budget)
              && Cbor.Valid(RecordItem(ViewOf(s, plan))) && digest == DigestOf(ViewOf(s, plan))
  {
    var plan := MakePlan(s, operations);
    if plan.Err? {
      return Err(NotPlannable(plan.error));
    }
    var usage := CheckUsage(sizes, plan.value.operations, plan.value.outputs, budget);
    if usage.Err? {
      assert Plans(s, operations, plan.value);
      return Err(usage.error);
    }
    ghost var rs := Resolutions(StatesOf(s), operations);
    var digest := DigestOfPlan(s, operations, rs, plan.value, sizes);
    return Ok((plan.value, usage.value, digest));
  }
}
