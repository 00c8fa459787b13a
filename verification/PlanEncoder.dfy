/** Writing a plan record, and what its digest says about the plan. */
module PlanEncoder {
  import opened Common
  import opened Order
  import opened Plan
  import opened PlanRecord
  import opened Cbor

  // ----- the record of a snapshot and a plan

  datatype InputRecord = ExistingRecord(file: FileSnapshot) | AbsentRecord(absent: AbsentPathSnapshot)

  function PathOf(r: InputRecord): string {
    match r case ExistingRecord(f) => f.path case AbsentRecord(a) => a.path
  }

  predicate ByInputPath(a: InputRecord, b: InputRecord) {
    PathLeq(PathOf(a), PathOf(b))
  }

  predicate ByOutputPath(a: PlannedOutput, b: PlannedOutput) {
    PathLeq(a.path, b.path)
  }

  function Map<S, T>(s: seq<S>, f: S -> T): (r: seq<T>)
    ensures |r| == |s| && forall i | 0 <= i < |s| :: r[i] == f(s[i])
  {
    seq(|s|, i requires 0 <= i < |s| => f(s[i]))
  }

  function Existing(file: FileSnapshot): InputRecord {
    ExistingRecord(file)
  }

  function Absent(absent: AbsentPathSnapshot): InputRecord {
    AbsentRecord(absent)
  }

  function InputsOf(s: WorkspaceSnapshot): seq<InputRecord> {
    Map(s.files, Existing) + Map(s.absentPaths, Absent)
  }

  function SortedInputs(s: WorkspaceSnapshot): seq<InputRecord> {
    SortBy(InputsOf(s), ByInputPath)
  }

  predicate HasId(r: InputRecord, id: nat) {
    r.ExistingRecord? && r.file.id == id
  }

  /** The first input with an identifier. */
  function IndexOf(inputs: seq<InputRecord>, id: nat): (r: Option<nat>)
    ensures r.Some? ==> r.value < |inputs| && HasId(inputs[r.value], id)
    ensures r.None? ==> forall i | 0 <= i < |inputs| :: !HasId(inputs[i], id)
  {
    if inputs == [] then None
    else if HasId(inputs[0], id) then Some(0)
    else
      var r := IndexOf(inputs[1..], id);
      if r.None? then None else Some(r.value + 1)
  }

  function IndexOr0(inputs: seq<InputRecord>, id: nat): nat {
    var r := IndexOf(inputs, id);
    if r.Some? then r.value else 0
  }

  function ViewOfInput(r: InputRecord): InputView {
    match r
    case ExistingRecord(f) => ExistingInput(f.path, f.parentIdentity, f.identity, |f.bytes|, f.digest)
    case AbsentRecord(a) => AbsentInput(a.path, a.parentIdentity)
  }

  function ViewOfSegment(inputs: seq<InputRecord>, s: OutputSegment): SegmentView {
    match s
    case OriginalSlice(id, range) => OriginalView(IndexOr0(inputs, id), range)
    case PayloadSlice(operationIndex, id, range, digest) =>
      PayloadView(operationIndex, IndexOr0(inputs, id), range, digest)
  }

  function ViewOfSegments(inputs: seq<InputRecord>, s: seq<OutputSegment>): (r: seq<SegmentView>)
    ensures |r| == |s| && forall i | 0 <= i < |s| :: r[i] == ViewOfSegment(inputs, s[i])
  {
    seq(|s|, i requires 0 <= i < |s| => ViewOfSegment(inputs, s[i]))
  }

  function ViewOfOutput(inputs: seq<InputRecord>, out: PlannedOutput): OutputView {
    OutputView(out.path, out.originalDigest, out.resultingDigest, out.resultingLength, out.change,
               ViewOfSegments(inputs, out.segments))
  }

  function ViewOfOutputs(inputs: seq<InputRecord>, outs: seq<PlannedOutput>): (r: seq<OutputView>)
    ensures |r| == |outs| && forall i | 0 <= i < |outs| :: r[i] == ViewOfOutput(inputs, outs[i])
  {
    seq(|outs|, i requires 0 <= i < |outs| => ViewOfOutput(inputs, outs[i]))
  }

  function ViewOf(s: WorkspaceSnapshot, p: EditPlan): RecordView {
    RecordView(s.workspaceIdentity, Map(SortedInputs(s), ViewOfInput), p.operations,
               ViewOfOutputs(SortedInputs(s), SortBy(p.outputs, ByOutputPath)))
  }

  /** No two files share an identifier. */
  predicate DistinctIds(inputs: seq<InputRecord>) {
    forall i, j | 0 <= i < j < |inputs| && inputs[i].ExistingRecord? && inputs[j].ExistingRecord? ::
      inputs[i].file.id != inputs[j].file.id
  }

  predicate KnownSegments(inputs: seq<InputRecord>, out: PlannedOutput) {
    forall s | s in out.segments :: IndexOf(inputs, s.fileId).Some?
  }

  predicate Encodable(s: WorkspaceSnapshot, p: EditPlan) {
    && DistinctIds(SortedInputs(s))
    && forall out | out in p.outputs :: KnownSegments(SortedInputs(s), out)
  }

  // ----- records that fit are valid items

  lemma SelectorValid(s: Selector)
    requires SelectorFits(s)
    ensures Valid(SelectorItem(s))
  {
  }

  lemma AnchorValid(a: Anchor)
    requires AnchorFits(a)
    ensures Valid(AnchorItem(a))
  {
  }

  lemma PreconditionValid(p: Precondition)
    requires PreconditionFits(p)
    ensures Valid(PreconditionItem(p))
  {
    match p
    case Sha256(digest) =>
      assert Valid(DigestItem(digest)) && AllValid([UInt(1), DigestItem(digest)]);
    case MustNotExist =>
      assert AllValid([UInt(2)]);
  }

  lemma OperationValid(o: ResolvedOperation)
    requires OperationFits(o)
    ensures Valid(OperationItem(o))
  {
    SelectorValid(o.selector);
    AnchorValid(o.anchor);
    PreconditionValid(o.sourcePrecondition);
    PreconditionValid(o.destinationPrecondition);
  }

  lemma OutputValid(v: OutputView)
    requires OutputFits(v)
    ensures Valid(OutputItem(v)) && Valid(Array(Items(v.segments, SegmentItem)))
  {
    forall i | 0 <= i < |v.segments| ensures Valid(Items(v.segments, SegmentItem)[i]) {
      assert v.segments[i] in v.segments;
    }
    assert Valid(Array(Items(v.segments, SegmentItem)));
    assert OutputItem(v).items[5] == Array(Items(v.segments, SegmentItem));
  }

  lemma InputValid(v: InputView)
    requires InputFits(v)
    ensures Valid(InputItem(v))
  {
    assert Valid(InputItem(v).items[1]);
  }

  /** What fits in machine words can be encoded. */
  lemma RecordValid(v: RecordView)
    requires Fits(v)
    ensures Valid(RecordItem(v))
  {
    forall i | 0 <= i < |v.inputs| ensures Valid(InputItem(v.inputs[i])) {
      assert v.inputs[i] in v.inputs;
      InputValid(v.inputs[i]);
    }
    forall i | 0 <= i < |v.operations| ensures Valid(OperationItem(v.operations[i])) {
      assert v.operations[i] in v.operations;
      OperationValid(v.operations[i]);
    }
    forall i | 0 <= i < |v.outputs| ensures Valid(OutputItem(v.outputs[i])) {
      assert v.outputs[i] in v.outputs;
      OutputValid(v.outputs[i]);
    }
    assert Valid(Array(Items(v.inputs, InputItem)));
    assert Valid(Array(Items(v.operations, OperationItem)));
    assert Valid(Array(Items(v.outputs, OutputItem)));
    assert Valid(Array([UInt(v.workspace.device), UInt(v.workspace.inode)]));
  }

  // ----- the field encoders

  method EncodeSelector(e: CborEncoder, selector: Selector)
    requires e.Invariant() && SelectorFits(selector)
    modifies e
    ensures e.Wrote(SelectorItem(selector), old(e.start), old(e.row))
  {
    ghost var start, row := e.start, e.row;
    e.Open(3);
    e.Unsigned(if selector.LineSpan? then 1 else 2);
    e.Unsigned(selector.start);
    e.Unsigned(selector.end);
    assert e.row == SelectorItem(selector).items;
    e.Close(start, row, 3);
  }

  method EncodeAnchor(e: CborEncoder, anchor: Anchor)
    requires e.Invariant() && AnchorFits(anchor)
    modifies e
    ensures e.Wrote(AnchorItem(anchor), old(e.start), old(e.row))
  {
    ghost var start, row := e.start, e.row;
    match anchor
    case FileStart =>
      e.Open(1);
      e.Unsigned(1);
      assert e.row == AnchorItem(anchor).items;
      e.Close(start, row, 1);
    case FileEnd =>
      e.Open(1);
      e.Unsigned(2);
      assert e.row == AnchorItem(anchor).items;
      e.Close(start, row, 1);
    case BeforeLine(line) => EncodeTagged(e, 3, line);
    case AfterLine(line) => EncodeTagged(e, 4, line);
    case ByteOffset(offset) => EncodeTagged(e, 5, offset);
  }

  method EncodeTagged(e: CborEncoder, tag: nat, value: nat)
    requires e.Invariant() && tag < U64 && value < U64
    modifies e
    ensures e.Wrote(Array([UInt(tag), UInt(value)]), old(e.start), old(e.row))
  {
    ghost var start, row := e.start, e.row;
    e.Open(2);
    e.Unsigned(tag);
    e.Unsigned(value);
    assert e.row == [UInt(tag), UInt(value)];
    e.Close(start, row, 2);
  }

  method EncodePrecondition(e: CborEncoder, p: Precondition)
    requires e.Invariant() && PreconditionFits(p)
    modifies e
    ensures e.Wrote(PreconditionItem(p), old(e.start), old(e.row))
  {
    ghost var start, row := e.start, e.row;
    if p.Sha256? {
      e.Open(2);
      e.Unsigned(1);
      e.PutBytes(p.digest.preimage);
      assert e.row == PreconditionItem(p).items;
      e.Close(start, row, 2);
    } else {
      e.Open(1);
      e.Unsigned(2);
      assert e.row == PreconditionItem(p).items;
      e.Close(start, row, 1);
    }
  }

  method EncodeAbsent(e: CborEncoder, absent: AbsentPathSnapshot)
    requires e.Invariant() && IdentityFits(absent.parentIdentity)
    modifies e
    ensures e.Wrote(InputItem(ViewOfInput(AbsentRecord(absent))).items[1], old(e.start), old(e.row))
  {
    ghost var start, row := e.start, e.row;
    e.Open(3);
    e.Unsigned(0);
    e.Unsigned(absent.parentIdentity.device);
    e.Unsigned(absent.parentIdentity.inode);
    assert e.row == InputItem(ViewOfInput(AbsentRecord(absent))).items[1].items;
    e.Close(start, row, 3);
  }

  method EncodeExisting(e: CborEncoder, file: FileSnapshot)
    requires e.Invariant() && InputFits(ViewOfInput(ExistingRecord(file)))
    modifies e
    ensures e.Wrote(InputItem(ViewOfInput(ExistingRecord(file))).items[1], old(e.start), old(e.row))
  {
    ghost var start, row := e.start, e.row;
    e.Open(7);
    e.Unsigned(1);
    e.Unsigned(file.parentIdentity.device);
    e.Unsigned(file.parentIdentity.inode);
    e.Unsigned(file.identity.device);
    e.Unsigned(file.identity.inode);
    e.Unsigned(|file.bytes|);
    e.PutBytes(file.digest.preimage);
    assert e.row == InputItem(ViewOfInput(ExistingRecord(file))).items[1].items;
    e.Close(start, row, 7);
  }

  method EncodeInput(e: CborEncoder, input: InputRecord)
    requires e.Invariant() && InputFits(ViewOfInput(input))
    modifies e
    ensures e.Wrote(InputItem(ViewOfInput(input)), old(e.start), old(e.row))
  {
    ghost var start, row := e.start, e.row;
    e.Open(2);
    e.PutText(match input case ExistingRecord(file) => file.path case AbsentRecord(absent) => absent.path);
    match input {
      case AbsentRecord(absent) => EncodeAbsent(e, absent);
      case ExistingRecord(file) => EncodeExisting(e, file);
    }
    assert e.row == InputItem(ViewOfInput(input)).items;
    e.Close(start, row, 2);
  }

  method EncodeInputs(e: CborEncoder, inputs: seq<InputRecord>)
    requires e.Invariant() && |inputs| < U64 && forall i | 0 <= i < |inputs| :: InputFits(ViewOfInput(inputs[i]))
    modifies e
    ensures e.Wrote(Array(Items(Map(inputs, ViewOfInput), InputItem)), old(e.start), old(e.row))
  {
    ghost var start, row, views := e.start, e.row, Map(inputs, ViewOfInput);
    e.Open(|inputs|);
    ghost var inside := e.start;
    for i := 0 to |inputs|
      invariant e.Invariant() && e.start == inside && e.row == Items(views, InputItem)[..i]
    {
      EncodeInput(e, inputs[i]);
    }
    assert e.row == Items(views, InputItem);
    e.Close(start, row, |inputs|);
  }

  lemma OperationFields(o: ResolvedOperation)
    ensures OperationItem(o).items[..4] ==
            [UInt(o.operationIndex), UInt(if o.kind == Move then 1 else 2), Text(o.sourcePath),
              SelectorItem(o.selector)]
  {
  }

  method EncodeSelection(e: CborEncoder, o: ResolvedOperation)
    requires e.Invariant() && OperationFits(o)
    modifies e
    ensures e.Invariant() && e.start == old(e.start) && e.row == old(e.row) + OperationItem(o).items[..4]
  {
    ghost var row := e.row;
    e.Unsigned(o.operationIndex);
    e.Unsigned(match o.kind case Move => 1 case Copy => 2);
    e.PutText(o.sourcePath);
    EncodeSelector(e, o.selector);
    OperationFields(o);
    assert e.row == row + [
      UInt(o.operationIndex), UInt(if o.kind == Move then 1 else 2), Text(o.sourcePath), SelectorItem(o.selector)];
  }

  method EncodeSourceState(e: CborEncoder, o: ResolvedOperation)
    requires e.Invariant() && OperationFits(o)
    modifies e
    ensures e.Invariant() && e.start == old(e.start) && e.row == old(e.row) + OperationItem(o).items[4..8]
  {
    ghost var row := e.row;
    EncodePrecondition(e, o.sourcePrecondition);
    e.Unsigned(o.sourceRange.start);
    e.Unsigned(o.sourceRange.end);
    e.PutBytes(o.selectedDigest.preimage);
    ghost var fields := OperationItem(o).items;
    assert e.row == row + [fields[4], fields[5], fields[6], fields[7]];
  }

  method EncodeDestinationFields(e: CborEncoder, o: ResolvedOperation)
    requires e.Invariant() && OperationFits(o)
    modifies e
    ensures e.Invariant() && e.start == old(e.start) && e.row == old(e.row) + OperationItem(o).items[8..]
  {
    ghost var row := e.row;
    e.PutText(o.destinationPath);
    EncodeAnchor(e, o.anchor);
    EncodePrecondition(e, o.destinationPrecondition);
    e.Unsigned(o.destinationOffset);
    e.Unsigned(match o.effect case Changed => 1 case NoOp => 2);
    ghost var fields := OperationItem(o).items;
    assert e.row == row + [fields[8], fields[9], fields[10], fields[11], fields[12]];
  }

  method EncodeOperation(e: CborEncoder, o: ResolvedOperation)
    requires e.Invariant() && OperationFits(o)
    modifies e
    ensures e.Wrote(OperationItem(o), old(e.start), old(e.row))
  {
    ghost var start, row := e.start, e.row;
    e.Open(13);
    EncodeSelection(e, o);
    EncodeSourceState(e, o);
    EncodeDestinationFields(e, o);
    assert e.row == OperationItem(o).items;
    e.Close(start, row, 13);
  }

  method EncodeOperations(e: CborEncoder, operations: seq<ResolvedOperation>)
    requires e.Invariant() && |operations| < U64 && forall o | o in operations :: OperationFits(o)
    modifies e
    ensures e.Wrote(Array(Items(operations, OperationItem)), old(e.start), old(e.row))
  {
    ghost var start, row := e.start, e.row;
    e.Open(|operations|);
    ghost var inside := e.start;
    for i := 0 to |operations|
      invariant e.Invariant() && e.start == inside && e.row == Items(operations, OperationItem)[..i]
    {
      assert operations[i] in operations;
      EncodeOperation(e, operations[i]);
    }
    assert e.row == Items(operations, OperationItem);
    e.Close(start, row, |operations|);
  }

  /** The map that the encoder keeps from identifiers to positions. */
  ghost predicate Positions(m: map<nat, nat>, inputs: seq<InputRecord>) {
    forall id: nat :: (id in m <==> IndexOf(inputs, id).Some?) && (id in m ==> IndexOf(inputs, id) == Some(m[id]))
  }

  method EncodeSegment(e: CborEncoder, s: OutputSegment, indexes: map<nat, nat>, ghost inputs: seq<InputRecord>)
    returns (ok: bool)
    requires e.Invariant() && Positions(indexes, inputs) && SegmentFits(ViewOfSegment(inputs, s))
    modifies e
    ensures ok <==> IndexOf(inputs, s.fileId).Some?
    ensures ok ==> e.Wrote(SegmentItem(ViewOfSegment(inputs, s)), old(e.start), old(e.row))
  {
    ghost var start, row := e.start, e.row;
    match s
    case OriginalSlice(id, range) =>
      e.Open(4);
      e.Unsigned(1);
      if id !in indexes {
        return false;
      }
      e.Unsigned(indexes[id]);
      e.Unsigned(range.start);
      e.Unsigned(range.end);
      assert e.row == SegmentItem(ViewOfSegment(inputs, s)).items;
      e.Close(start, row, 4);
      return true;
    case PayloadSlice(operationIndex, id, range, digest) =>
      e.Open(6);
      e.Unsigned(2);
      e.Unsigned(operationIndex);
      if id !in indexes {
        return false;
      }
      e.Unsigned(indexes[id]);
      e.Unsigned(range.start);
      e.Unsigned(range.end);
      e.PutBytes(digest.preimage);
      assert e.row == SegmentItem(ViewOfSegment(inputs, s)).items;
      e.Close(start, row, 6);
      return true;
  }

  method EncodeSegments(
    e: CborEncoder, segments: seq<OutputSegment>, indexes: map<nat, nat>, ghost inputs: seq<InputRecord>)
    returns (ok: bool)
    requires e.Invariant() && Positions(indexes, inputs) && |segments| < U64
    requires forall v | v in ViewOfSegments(inputs, segments) :: SegmentFits(v)
    modifies e
    ensures ok <==> forall s | s in segments :: IndexOf(inputs, s.fileId).Some?
    ensures ok ==> e.Wrote(Array(Items(ViewOfSegments(inputs, segments), SegmentItem)), old(e.start), old(e.row))
  {
    ghost var start, row, views := e.start, e.row, ViewOfSegments(inputs, segments);
    e.Open(|segments|);
    ghost var inside := e.start;
    for i := 0 to |segments|
      invariant e.Invariant() && e.start == inside && e.row == Items(views, SegmentItem)[..i]
      invariant forall k | 0 <= k < i :: IndexOf(inputs, segments[k].fileId).Some?
    {
      assert views[i] in views;
      ok := EncodeSegment(e, segments[i], indexes, inputs);
      if !ok {
        return false;
      }
    }
    assert e.row == Items(views, SegmentItem);
    e.Close(start, row, |segments|);
    return true;
  }

  method EncodeOriginal(e: CborEncoder, digest: Option<Digest>)
    requires e.Invariant() && (digest.Some? ==> DigestFits(digest.value))
    modifies e
    ensures e.Wrote(if digest.Some? then DigestItem(digest.value) else Null, old(e.start), old(e.row))
  {
    if digest.Some? {
      e.PutBytes(digest.value.preimage);
    } else {
      e.PutNull();
    }
  }

  method EncodeOutputFields(e: CborEncoder, out: PlannedOutput, ghost inputs: seq<InputRecord>)
    requires e.Invariant() && OutputFits(ViewOfOutput(inputs, out))
    modifies e
    ensures e.Invariant() && e.start == old(e.start)
    ensures e.row == old(e.row) + OutputItem(ViewOfOutput(inputs, out)).items[..5]
  {
    ghost var row, fields := e.row, OutputItem(ViewOfOutput(inputs, out)).items;
    e.PutText(out.path);
    EncodeOriginal(e, out.originalDigest);
    e.PutBytes(out.resultingDigest.preimage);
    e.Unsigned(out.resultingLength);
    e.Unsigned(match out.change
               case Unchanged => 1 case ModifiedExisting => 2 case CreatedNew => 3 case EmptiedExisting => 4);
    assert e.row == row + [fields[0], fields[1], fields[2], fields[3], fields[4]];
  }

  method EncodeOutput(e: CborEncoder, out: PlannedOutput, indexes: map<nat, nat>, ghost inputs: seq<InputRecord>)
    returns (ok: bool)
    requires e.Invariant() && Positions(indexes, inputs) && OutputFits(ViewOfOutput(inputs, out))
    modifies e
    ensures ok <==> KnownSegments(inputs, out)
    ensures ok ==> e.Wrote(OutputItem(ViewOfOutput(inputs, out)), old(e.start), old(e.row))
  {
    ghost var start, row := e.start, e.row;
    e.Open(6);
    EncodeOutputFields(e, out, inputs);
    ok := EncodeSegments(e, out.segments, indexes, inputs);
    if ok {
      assert e.row == OutputItem(ViewOfOutput(inputs, out)).items;
      e.Close(start, row, 6);
    }
  }

  method EncodeOutputs(
    e: CborEncoder, outputs: seq<PlannedOutput>, indexes: map<nat, nat>, ghost inputs: seq<InputRecord>)
    returns (ok: bool)
    requires e.Invariant() && Positions(indexes, inputs) && |outputs| < U64
    requires forall i | 0 <= i < |outputs| :: OutputFits(ViewOfOutput(inputs, outputs[i]))
    modifies e
    ensures ok <==> forall out | out in outputs :: KnownSegments(inputs, out)
    ensures ok ==> e.Wrote(Array(Items(ViewOfOutputs(inputs, outputs), OutputItem)), old(e.start), old(e.row))
  {
    ghost var start, row, views := e.start, e.row, ViewOfOutputs(inputs, outputs);
    e.Open(|outputs|);
    ghost var inside := e.start;
    for i := 0 to |outputs|
      invariant e.Invariant() && e.start == inside && e.row == Items(views, OutputItem)[..i]
      invariant forall k | 0 <= k < i :: KnownSegments(inputs, outputs[k])
    {
      ok := EncodeOutput(e, outputs[i], indexes, inputs);
      if !ok {
        return false;
      }
    }
    assert e.row == Items(views, OutputItem);
    e.Close(start, row, |outputs|);
    return true;
  }

  // ----- the record

  ghost predicate PositionsUpTo(m: map<nat, nat>, inputs: seq<InputRecord>, n: nat)
    requires n <= |inputs|
  {
    && (forall id | id in m :: m[id] < n && HasId(inputs[m[id]], id))
    && (forall k | 0 <= k < n && inputs[k].ExistingRecord? :: inputs[k].file.id in m && m[inputs[k].file.id] == k)
  }

  lemma PositionsComplete(m: map<nat, nat>, inputs: seq<InputRecord>)
    requires PositionsUpTo(m, inputs, |inputs|)
    ensures DistinctIds(inputs) && Positions(m, inputs)
  {
    forall id: nat
      ensures (id in m <==> IndexOf(inputs, id).Some?) && (id in m ==> IndexOf(inputs, id) == Some(m[id]))
    {
      var r := IndexOf(inputs, id);
    }
  }

  method IndexInputs(inputs: seq<InputRecord>) returns (r: Result<map<nat, nat>, PlanError>)
    ensures r.Ok? <==> DistinctIds(inputs)
    ensures r.Ok? ==> Positions(r.value, inputs)
  {
    var indexes: map<nat, nat> := map[];
    for i := 0 to |inputs|
      invariant PositionsUpTo(indexes, inputs, i)
    {
      if inputs[i].ExistingRecord? {
        var id := inputs[i].file.id;
        if id in indexes {
          assert inputs[indexes[id]].file.id == inputs[i].file.id;
          return Err(InvalidValue("duplicate_snapshot_file_id"));
        }
        indexes := indexes[id := i];
      }
    }
    PositionsComplete(indexes, inputs);
    return Ok(indexes);
  }

  lemma ViewFits(v: RecordView, inputs: seq<InputRecord>, outputs: seq<PlannedOutput>)
    requires Fits(v) && v.inputs == Map(inputs, ViewOfInput) && v.outputs == ViewOfOutputs(inputs, outputs)
    ensures |inputs| < U64 && forall i | 0 <= i < |inputs| :: InputFits(ViewOfInput(inputs[i]))
    ensures |outputs| < U64 && forall i | 0 <= i < |outputs| :: OutputFits(ViewOfOutput(inputs, outputs[i]))
  {
    forall i | 0 <= i < |inputs| ensures InputFits(ViewOfInput(inputs[i])) {
      assert v.inputs[i] in v.inputs;
    }
    forall i | 0 <= i < |outputs| ensures OutputFits(ViewOfOutput(inputs, outputs[i])) {
      assert v.outputs[i] in v.outputs;
    }
  }

  lemma SortedHasSameElements(outputs: seq<PlannedOutput>)
    ensures forall o :: o in SortBy(outputs, ByOutputPath) <==> o in outputs
  {
    SameElements(SortBy(outputs, ByOutputPath), outputs);
  }

  method EncodeRecord(
    workspace: Identity, inputs: seq<InputRecord>, operations: seq<ResolvedOperation>, outputs: seq<PlannedOutput>,
    indexes: map<nat, nat>, ghost v: RecordView)
    returns (ok: bool, bytes: Bytes)
    requires Positions(indexes, inputs) && Fits(v) && Valid(RecordItem(v))
    requires v == RecordView(workspace, Map(inputs, ViewOfInput), operations, ViewOfOutputs(inputs, outputs))
    ensures ok <==> forall out | out in outputs :: KnownSegments(inputs, out)
    ensures ok ==> bytes == Encode(RecordItem(v))
  {
    ViewFits(v, inputs, outputs);
    var e := new CborEncoder();
    e.Open(6);
    e.Unsigned(1);
    e.Unsigned(1);
    EncodeTagged(e, workspace.device, workspace.inode);
    EncodeInputs(e, inputs);
    EncodeOperations(e, operations);
    ok := EncodeOutputs(e, outputs, indexes, inputs);
    if ok {
      assert e.row == RecordItem(v).items;
      e.Close([], [], 6);
      OneItem(RecordItem(v));
    }
    bytes := e.bytes;
  }

  /** Writes the deterministic encoding of the record. */
  method EncodePlanRecord(s: WorkspaceSnapshot, p: EditPlan) returns (r: Result<Bytes, PlanError>)
    requires Fits(ViewOf(s, p))
    ensures r.Ok? <==> Encodable(s, p)
    ensures r.Ok? ==> Valid(RecordItem(ViewOf(s, p))) && r.value == Encode(RecordItem(ViewOf(s, p)))
  {
    var inputs := SortBy(InputsOf(s), ByInputPath);
    var indexed := IndexInputs(inputs);
    if indexed.Err? {
      return Err(indexed.error);
    }
    SortedHasSameElements(p.outputs);
    RecordValid(ViewOf(s, p));
    var ok, bytes := EncodeRecord(
      s.workspaceIdentity, inputs, p.operations, SortBy(p.outputs, ByOutputPath), indexed.value, ViewOf(s, p));
    return if ok then Ok(bytes) else Err(InvalidValue("segment_snapshot_input_index"));
  }

  lemma OneItem(x: Item)
    requires Valid(x)
    ensures [] + EncodeItems([x]) == Encode(x)
  {
    assert [x][1..] == [];
    assert EncodeItems([x]) == Encode(x) + EncodeItems([x][1..]);
  }
}
