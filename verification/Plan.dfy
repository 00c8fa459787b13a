/** The filesystem-independent vocabulary of planning. */
module Plan {
  import opened Common
  import opened Lines

  datatype ByteRange = ByteRange(start: nat, end: nat)

  datatype Selector = LineSpan(start: nat, end: nat) | ByteSpan(start: nat, end: nat)

  datatype Anchor = FileStart | FileEnd | BeforeLine(line: nat) | AfterLine(line: nat) | ByteOffset(offset: nat)

  datatype Precondition = Sha256(digest: Digest) | MustNotExist

  datatype OperationKind = Move | Copy

  datatype Operation = Operation(
    kind: OperationKind,
    sourcePath: string, selector: Selector, sourcePrecondition: Precondition,
    destinationPath: string, anchor: Anchor, destinationPrecondition: Precondition)

  datatype FileSnapshot = FileSnapshot(
    id: nat, path: string, parentIdentity: Identity, identity: Identity, linkCount: nat,
    bytes: Bytes, digest: Digest, lineIndex: LineIndex)

  datatype AbsentPathSnapshot = AbsentPathSnapshot(path: string, parentIdentity: Identity)

  datatype WorkspaceSnapshot = WorkspaceSnapshot(
    workspaceIdentity: Identity, files: seq<FileSnapshot>, absentPaths: seq<AbsentPathSnapshot>)

  datatype OperationEffect = Changed | NoOp

  datatype ResolvedOperation = ResolvedOperation(
    operationIndex: nat, kind: OperationKind,
    sourcePath: string, selector: Selector, sourcePrecondition: Precondition,
    sourceRange: ByteRange, selectedDigest: Digest,
    destinationPath: string, anchor: Anchor, destinationPrecondition: Precondition,
    destinationOffset: nat, effect: OperationEffect)

  datatype OutputSegment =
    | OriginalSlice(fileId: nat, range: ByteRange)
    | PayloadSlice(operationIndex: nat, fileId: nat, range: ByteRange, payloadDigest: Digest)

  datatype OutputChange = Unchanged | ModifiedExisting | CreatedNew | EmptiedExisting

  datatype PlannedOutput = PlannedOutput(
    path: string, originalDigest: Option<Digest>, change: OutputChange,
    resultingLength: nat, resultingDigest: Digest, segments: seq<OutputSegment>)

  datatype EditPlan = EditPlan(operations: seq<ResolvedOperation>, outputs: seq<PlannedOutput>)

  datatype PlanError =
    | InvalidValue(field: string)
    | EditConflict(reason: string, operationIndex: Option<nat>)
    | HardLinkNotSupported(path: string, linkCount: nat)

  type Files = map<nat, FileSnapshot>

  /** A file's digest and line index are derived from its bytes. */
  ghost predicate ValidFile(f: FileSnapshot) {
    f.digest == Hash(f.bytes) && Indexes(f.lineIndex, f.bytes)
  }

  ghost predicate ValidSnapshot(s: WorkspaceSnapshot) {
    forall f | f in s.files :: ValidFile(f)
  }

  function Slice(bytes: Bytes, range: ByteRange): Bytes {
    if range.start <= range.end <= |bytes| then bytes[range.start..range.end] else []
  }

  /** The bytes a range of a snapshot file denotes. */
  function RangeBytes(files: Files, fileId: nat, range: ByteRange): Bytes {
    if fileId in files then Slice(files[fileId].bytes, range) else []
  }

  function SegmentBytes(files: Files, segment: OutputSegment): Bytes {
    RangeBytes(files, segment.fileId, segment.range)
  }

  /** The output that a recipe of segments describes. */
  function RecipeBytes(files: Files, segments: seq<OutputSegment>): Bytes {
    if segments == [] then []
    else RecipeBytes(files, segments[..|segments| - 1]) + SegmentBytes(files, segments[|segments| - 1])
  }

  lemma RecipeSnoc(files: Files, segments: seq<OutputSegment>, last: OutputSegment)
    ensures RecipeBytes(files, segments + [last]) == RecipeBytes(files, segments) + SegmentBytes(files, last)
  {
    assert (segments + [last])[..|segments|] == segments;
  }

  lemma {:induction false} RecipeAppend(files: Files, a: seq<OutputSegment>, b: seq<OutputSegment>)
    ensures RecipeBytes(files, a + b) == RecipeBytes(files, a) + RecipeBytes(files, b)
  {
    if b == [] {
      assert a + b == a;
    } else {
      var rest, last := b[..|b| - 1], b[|b| - 1];
      RecipeAppend(files, a, rest);
      RecipeSnoc(files, a + rest, last);
      assert a + b == (a + rest) + [last];
    }
  }

  /** A nonempty slice inside a snapshot file. */
  predicate ValidSlice(files: Files, fileId: nat, range: ByteRange) {
    fileId in files && range.start < range.end <= |files[fileId].bytes|
  }

  predicate ValidRecipe(files: Files, segments: seq<OutputSegment>) {
    forall s | s in segments :: ValidSlice(files, s.fileId, s.range)
  }
}
