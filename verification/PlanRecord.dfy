/** The plan record: what `--expect-plan` compares, as deterministic CBOR. */
module PlanRecord {
  import opened Common
  import opened Order
  import opened Plan
  import Cbor
  import Utf8

  // ----- the fields that a record holds

  datatype InputView =
    | AbsentInput(path: string, parent: Identity)
    | ExistingInput(path: string, parent: Identity, identity: Identity, length: nat, digest: Digest)

  /** A segment with its file named by position among the inputs. */
  datatype SegmentView =
    | OriginalView(input: nat, range: ByteRange)
    | PayloadView(operationIndex: nat, input: nat, range: ByteRange, payloadDigest: Digest)

  datatype OutputView = OutputView(
    path: string, originalDigest: Option<Digest>, resultingDigest: Digest, resultingLength: nat,
    change: OutputChange, segments: seq<SegmentView>)

  datatype RecordView = RecordView(
    workspace: Identity, inputs: seq<InputView>, operations: seq<ResolvedOperation>, outputs: seq<OutputView>)

  // ----- their positional form

  function DigestItem(d: Digest): Cbor.Item {
    Cbor.ByteString(d.preimage)
  }

  function InputItem(v: InputView): Cbor.Item {
    match v
    case AbsentInput(path, parent) =>
      Cbor.Array([Cbor.Text(path), Cbor.Array([Cbor.UInt(0), Cbor.UInt(parent.device), Cbor.UInt(parent.inode)])])
    case ExistingInput(path, parent, identity, length, digest) =>
      Cbor.Array([Cbor.Text(path), Cbor.Array([
        Cbor.UInt(1), Cbor.UInt(parent.device), Cbor.UInt(parent.inode), Cbor.UInt(identity.device),
        Cbor.UInt(identity.inode), Cbor.UInt(length), DigestItem(digest)])])
  }

  function SelectorItem(s: Selector): Cbor.Item {
    match s
    case LineSpan(start, end) => Cbor.Array([Cbor.UInt(1), Cbor.UInt(start), Cbor.UInt(end)])
    case ByteSpan(start, end) => Cbor.Array([Cbor.UInt(2), Cbor.UInt(start), Cbor.UInt(end)])
  }

  function AnchorItem(a: Anchor): Cbor.Item {
    match a
    case FileStart => Cbor.Array([Cbor.UInt(1)])
    case FileEnd => Cbor.Array([Cbor.UInt(2)])
    case BeforeLine(line) => Cbor.Array([Cbor.UInt(3), Cbor.UInt(line)])
    case AfterLine(line) => Cbor.Array([Cbor.UInt(4), Cbor.UInt(line)])
    case ByteOffset(offset) => Cbor.Array([Cbor.UInt(5), Cbor.UInt(offset)])
  }

  function PreconditionItem(p: Precondition): Cbor.Item {
    match p
    case Sha256(digest) => Cbor.Array([Cbor.UInt(1), DigestItem(digest)])
    case MustNotExist => Cbor.Array([Cbor.UInt(2)])
  }

  function OperationItem(o: ResolvedOperation): Cbor.Item {
    Cbor.Array([
      Cbor.UInt(o.operationIndex),
      Cbor.UInt(if o.kind == Move then 1 else 2),
      Cbor.Text(o.sourcePath),
      SelectorItem(o.selector),
      PreconditionItem(o.sourcePrecondition),
      Cbor.UInt(o.sourceRange.start),
      Cbor.UInt(o.sourceRange.end),
      DigestItem(o.selectedDigest),
      Cbor.Text(o.destinationPath),
      AnchorItem(o.anchor),
      PreconditionItem(o.destinationPrecondition),
      Cbor.UInt(o.destinationOffset),
      Cbor.UInt(if o.effect == Changed then 1 else 2)])
  }

  function SegmentItem(v: SegmentView): Cbor.Item {
    match v
    case OriginalView(input, range) =>
      Cbor.Array([Cbor.UInt(1), Cbor.UInt(input), Cbor.UInt(range.start), Cbor.UInt(range.end)])
    case PayloadView(operationIndex, input, range, payloadDigest) =>
      Cbor.Array([
        Cbor.UInt(2), Cbor.UInt(operationIndex), Cbor.UInt(input), Cbor.UInt(range.start), Cbor.UInt(range.end),
        DigestItem(payloadDigest)])
  }

  function ChangeCode(c: OutputChange): nat {
    match c case Unchanged => 1 case ModifiedExisting => 2 case CreatedNew => 3 case EmptiedExisting => 4
  }

  function OutputItem(v: OutputView): Cbor.Item {
    Cbor.Array([
      Cbor.Text(v.path),
      if v.originalDigest.Some? then DigestItem(v.originalDigest.value) else Cbor.Null,
      DigestItem(v.resultingDigest),
      Cbor.UInt(v.resultingLength),
      Cbor.UInt(ChangeCode(v.change)),
      Cbor.Array(Items(v.segments, SegmentItem))])
  }

  function Items<T>(s: seq<T>, item: T -> Cbor.Item): (r: seq<Cbor.Item>)
    ensures |r| == |s| && forall i | 0 <= i < |s| :: r[i] == item(s[i])
  {
    seq(|s|, i requires 0 <= i < |s| => item(s[i]))
  }

  function RecordItem(v: RecordView): Cbor.Item {
    Cbor.Array([
      Cbor.UInt(1),
      Cbor.UInt(1),
      Cbor.Array([Cbor.UInt(v.workspace.device), Cbor.UInt(v.workspace.inode)]),
      Cbor.Array(Items(v.inputs, InputItem)),
      Cbor.Array(Items(v.operations, OperationItem)),
      Cbor.Array(Items(v.outputs, OutputItem))])
  }

  // ----- the fields are machine words and bounded strings

  predicate TextFits(t: string) {
    |Utf8.EncodeAll(t)| < U64
  }

  predicate DigestFits(d: Digest) {
    |d.preimage| < U64
  }

  predicate IdentityFits(i: Identity) {
    i.device < U64 && i.inode < U64
  }

  predicate RangeFits(r: ByteRange) {
    r.start < U64 && r.end < U64
  }

  predicate InputFits(v: InputView) {
    && TextFits(v.path) && IdentityFits(v.parent)
    && (v.ExistingInput? ==> IdentityFits(v.identity) && v.length < U64 && DigestFits(v.digest))
  }

  predicate SelectorFits(s: Selector) {
    s.start < U64 && s.end < U64
  }

  predicate AnchorFits(a: Anchor) {
    match a
    case BeforeLine(line) => line < U64
    case AfterLine(line) => line < U64
    case ByteOffset(offset) => offset < U64
    case _ => true
  }

  predicate PreconditionFits(p: Precondition) {
    p.Sha256? ==> DigestFits(p.digest)
  }

  predicate OperationFits(o: ResolvedOperation) {
    && o.operationIndex < U64 && TextFits(o.sourcePath) && SelectorFits(o.selector)
    && PreconditionFits(o.sourcePrecondition) && RangeFits(o.sourceRange) && DigestFits(o.selectedDigest)
    && TextFits(o.destinationPath) && AnchorFits(o.anchor) && PreconditionFits(o.destinationPrecondition)
    && o.destinationOffset < U64
  }

  predicate SegmentFits(v: SegmentView) {
    && v.input < U64 && RangeFits(v.range)
    && (v.PayloadView? ==> v.operationIndex < U64 && DigestFits(v.payloadDigest))
  }

  predicate OutputFits(v: OutputView) {
    && TextFits(v.path) && (v.originalDigest.Some? ==> DigestFits(v.originalDigest.value))
    && DigestFits(v.resultingDigest) && v.resultingLength < U64
    && |v.segments| < U64 && forall s | s in v.segments :: SegmentFits(s)
  }

  predicate Fits(v: RecordView) {
    && IdentityFits(v.workspace)
    && |v.inputs| < U64 && (forall i | i in v.inputs :: InputFits(i))
    && |v.operations| < U64 && (forall o | o in v.operations :: OperationFits(o))
    && |v.outputs| < U64 && (forall o | o in v.outputs :: OutputFits(o))
  }

  // ----- injectivity

  lemma InputInjective(v: InputView, w: InputView)
    requires InputItem(v) == InputItem(w)
    ensures v == w
  {
    var a, b := InputItem(v).items, InputItem(w).items;
    assert a[0] == b[0] && a[1] == b[1];
    var x, y := a[1].items, b[1].items;
    assert x[0] == y[0] && x[1] == y[1] && x[2] == y[2];
    if v.ExistingInput? {
      assert |x| == |y| == 7;
      assert x[3] == y[3] && x[4] == y[4] && x[5] == y[5] && x[6] == y[6];
    }
  }

  lemma SelectorInjective(v: Selector, w: Selector)
    requires SelectorItem(v) == SelectorItem(w)
    ensures v == w
  {
    var a, b := SelectorItem(v).items, SelectorItem(w).items;
    assert a[0] == b[0] && a[1] == b[1] && a[2] == b[2];
  }

  lemma AnchorInjective(v: Anchor, w: Anchor)
    requires AnchorItem(v) == AnchorItem(w)
    ensures v == w
  {
    var a, b := AnchorItem(v).items, AnchorItem(w).items;
    assert a[0] == b[0] && |a| == |b|;
    if |a| == 2 {
      assert a[1] == b[1];
    }
  }

  lemma PreconditionInjective(v: Precondition, w: Precondition)
    requires PreconditionItem(v) == PreconditionItem(w)
    ensures v == w
  {
    var a, b := PreconditionItem(v).items, PreconditionItem(w).items;
    assert a[0] == b[0];
    if v.Sha256? {
      assert |a| == |b| == 2 && a[1] == b[1];
    }
  }

  lemma OperationInjective(v: ResolvedOperation, w: ResolvedOperation)
    requires OperationItem(v) == OperationItem(w)
    ensures v == w
  {
    var a, b := OperationItem(v).items, OperationItem(w).items;
    assert a[0] == b[0] && a[1] == b[1] && a[2] == b[2] && a[3] == b[3] && a[4] == b[4] && a[5] == b[5] && a[6] == b[6];
    assert a[7] == b[7] && a[8] == b[8] && a[9] == b[9] && a[10] == b[10] && a[11] == b[11] && a[12] == b[12];
    SelectorInjective(v.selector, w.selector);
    PreconditionInjective(v.sourcePrecondition, w.sourcePrecondition);
    AnchorInjective(v.anchor, w.anchor);
    PreconditionInjective(v.destinationPrecondition, w.destinationPrecondition);
  }

  lemma SegmentInjective(v: SegmentView, w: SegmentView)
    requires SegmentItem(v) == SegmentItem(w)
    ensures v == w
  {
    var a, b := SegmentItem(v).items, SegmentItem(w).items;
    assert a[0] == b[0] && a[1] == b[1] && a[2] == b[2] && a[3] == b[3];
    if v.PayloadView? {
      assert |a| == |b| == 6 && a[4] == b[4] && a[5] == b[5];
    }
  }

  lemma OutputInjective(v: OutputView, w: OutputView)
    requires OutputItem(v) == OutputItem(w)
    ensures v == w
  {
    var a, b := OutputItem(v).items, OutputItem(w).items;
    assert a[0] == b[0] && a[1] == b[1] && a[2] == b[2] && a[3] == b[3] && a[4] == b[4] && a[5] == b[5];
    var x, y := Items(v.segments, SegmentItem), Items(w.segments, SegmentItem);
    assert x == y;
    forall i | 0 <= i < |v.segments| ensures v.segments[i] == w.segments[i] {
      assert x[i] == y[i];
      SegmentInjective(v.segments[i], w.segments[i]);
    }
  }

  /** The positional form determines every field. */
  lemma RecordInjective(v: RecordView, w: RecordView)
    requires RecordItem(v) == RecordItem(w)
    ensures v == w
  {
    var a, b := RecordItem(v).items, RecordItem(w).items;
    assert a[2] == b[2] && a[3] == b[3] && a[4] == b[4] && a[5] == b[5];
    assert a[2].items[0] == b[2].items[0] && a[2].items[1] == b[2].items[1];
    forall i | 0 <= i < |v.inputs| ensures |v.inputs| == |w.inputs| && v.inputs[i] == w.inputs[i] {
      assert a[3].items[i] == b[3].items[i];
      InputInjective(v.inputs[i], w.inputs[i]);
    }
    forall i | 0 <= i < |v.operations| ensures |v.operations| == |w.operations| && v.operations[i] == w.operations[i] {
      assert a[4].items[i] == b[4].items[i];
      OperationInjective(v.operations[i], w.operations[i]);
    }
    forall i | 0 <= i < |v.outputs| ensures |v.outputs| == |w.outputs| && v.outputs[i] == w.outputs[i] {
      assert a[5].items[i] == b[5].items[i];
      OutputInjective(v.outputs[i], w.outputs[i]);
    }
    assert |a[3].items| == |b[3].items| && |a[4].items| == |b[4].items| && |a[5].items| == |b[5].items|;
  }
}
