/** Resolving a batch of moves and copies against one immutable snapshot. */
module Planner {
  import opened Common
  import opened Order
  import Utf8
  import opened Lines
  import opened Plan
  import opened Sweep

  datatype SnapshotState = Existing(file: FileSnapshot) | Absent(absent: AbsentPathSnapshot)

  type States = map<string, SnapshotState>

  // ----- indexing the snapshot

  ghost predicate DistinctFiles(files: seq<FileSnapshot>) {
    forall i, j | 0 <= i < j < |files| :: files[i].path != files[j].path && files[i].id != files[j].id
  }

  ghost predicate DistinctAbsent(absent: seq<AbsentPathSnapshot>) {
    forall i, j | 0 <= i < j < |absent| :: absent[i].path != absent[j].path
  }

  ghost predicate NoCommonPath(files: seq<FileSnapshot>, absent: seq<AbsentPathSnapshot>) {
    forall f, a | f in files && a in absent :: f.path != a.path
  }

  /** No path and no file identifier is used twice. */
  ghost predicate Distinct(s: WorkspaceSnapshot) {
    DistinctFiles(s.files) && DistinctAbsent(s.absentPaths) && NoCommonPath(s.files, s.absentPaths)
  }

  function FileStates(files: seq<FileSnapshot>): States {
    if files == [] then map[]
    else FileStates(files[..|files| - 1])[files[|files| - 1].path := Existing(files[|files| - 1])]
  }

  function FilesById(files: seq<FileSnapshot>): Files {
    if files == [] then map[] else FilesById(files[..|files| - 1])[files[|files| - 1].id := files[|files| - 1]]
  }

  function WithAbsent(states: States, absent: seq<AbsentPathSnapshot>): States {
    if absent == [] then states
    else WithAbsent(states, absent[..|absent| - 1])[absent[|absent| - 1].path := Absent(absent[|absent| - 1])]
  }

  /** The state that a snapshot gives each path, and the files by identifier. */
  function StatesOf(s: WorkspaceSnapshot): States {
    WithAbsent(FileStates(s.files), s.absentPaths)
  }

  function FilesOf(s: WorkspaceSnapshot): Files {
    FilesById(s.files)
  }

  ghost predicate IndexesFiles(files: seq<FileSnapshot>, states: States, byId: Files) {
    && (forall f | f in files :: f.path in states && states[f.path] == Existing(f) && f.id in byId && byId[f.id] == f)
    && (forall p | p in states && states[p].Existing? :: states[p].file in files && states[p].file.path == p)
    && (forall id | id in byId :: byId[id] in files && byId[id].id == id)
  }

  ghost predicate IndexesAbsent(absent: seq<AbsentPathSnapshot>, states: States) {
    && (forall a | a in absent :: a.path in states && states[a.path] == Absent(a))
    && (forall p | p in states && states[p].Absent? :: states[p].absent in absent && states[p].absent.path == p)
  }

  lemma IndexOneFile(files: seq<FileSnapshot>, states: States, byId: Files, file: FileSnapshot)
    requires IndexesFiles(files, states, byId) && forall p | p in states :: states[p].Existing?
    ensures file.path in states || file.id in byId ==> !DistinctFiles(files + [file])
    ensures file.path !in states && file.id !in byId ==>
              IndexesFiles(files + [file], states[file.path := Existing(file)], byId[file.id := file])
    ensures file.path !in states && file.id !in byId && DistinctFiles(files) ==> DistinctFiles(files + [file])
  {
    var longer := files + [file];
    if file.path in states || file.id in byId {
      var f := if file.path in states then states[file.path].file else byId[file.id];
      var i :| 0 <= i < |files| && files[i] == f;
      assert longer[i] == f && longer[|files|] == file;
    } else {
      assert forall i | 0 <= i < |files| :: files[i] in files;
    }
  }

  lemma DistinctPrefix(files: seq<FileSnapshot>, n: nat)
    requires n <= |files|
    ensures DistinctFiles(files) ==> DistinctFiles(files[..n])
  {
  }

  /** The files so far are distinct and these are their indexes. */
  ghost predicate FilesIndexed(files: seq<FileSnapshot>, states: States, byId: Files) {
    && states == FileStates(files) && byId == FilesById(files)
    && DistinctFiles(files) && IndexesFiles(files, states, byId)
    && forall p | p in states :: states[p].Existing?
  }

  lemma FilesSnoc(files: seq<FileSnapshot>, file: FileSnapshot)
    ensures FileStates(files + [file]) == FileStates(files)[file.path := Existing(file)]
    ensures FilesById(files + [file]) == FilesById(files)[file.id := file]
  {
    assert (files + [file])[..|files|] == files;
  }

  lemma OneMoreIndexed(files: seq<FileSnapshot>, states: States, byId: Files, file: FileSnapshot)
    requires FilesIndexed(files, states, byId) && file.path !in states && file.id !in byId
    ensures FilesIndexed(files + [file], states[file.path := Existing(file)], byId[file.id := file])
  {
    IndexOneFile(files, states, byId, file);
    FilesSnoc(files, file);
  }

  lemma IndexFileStep(files: seq<FileSnapshot>, i: nat, states: States, byId: Files)
    requires i < |files| && FilesIndexed(files[..i], states, byId)
    ensures files[i].path in states || files[i].id in byId ==> !DistinctFiles(files)
    ensures files[i].path !in states && files[i].id !in byId ==>
              FilesIndexed(files[..i + 1], states[files[i].path := Existing(files[i])], byId[files[i].id := files[i]])
  {
    assert files[..i + 1] == files[..i] + [files[i]];
    if files[i].path in states || files[i].id in byId {
      IndexOneFile(files[..i], states, byId, files[i]);
      DistinctPrefix(files, i + 1);
    } else {
      OneMoreIndexed(files[..i], states, byId, files[i]);
    }
  }

  method IndexFiles(files: seq<FileSnapshot>) returns (r: Result<(States, Files), PlanError>)
    ensures r.Ok? <==> DistinctFiles(files)
    ensures r.Ok? ==> FilesIndexed(files, r.value.0, r.value.1)
  {
    var states: States, byId: Files := map[], map[];
    for i := 0 to |files|
      invariant FilesIndexed(files[..i], states, byId)
    {
      var file := files[i];
      IndexFileStep(files, i, states, byId);
      if file.path in states || file.id in byId {
        var field := if file.path in states then "duplicate_snapshot_path" else "duplicate_snapshot_file_id";
        return Err(InvalidValue(field));
      }
      states, byId := states[file.path := Existing(file)], byId[file.id := file];
    }
    assert files[..|files|] == files;
    return Ok((states, byId));
  }

  ghost predicate IndexedWith(files: seq<FileSnapshot>, absent: seq<AbsentPathSnapshot>, states: States, byId: Files) {
    && IndexesFiles(files, states, byId) && IndexesAbsent(absent, states)
    && DistinctAbsent(absent) && NoCommonPath(files, absent)
  }

  lemma IndexOneAbsent(
    files: seq<FileSnapshot>, absent: seq<AbsentPathSnapshot>, states: States, byId: Files, a: AbsentPathSnapshot)
    requires IndexedWith(files, absent, states, byId)
    ensures a.path in states ==> !(DistinctAbsent(absent + [a]) && NoCommonPath(files, absent + [a]))
    ensures a.path !in states ==> IndexedWith(files, absent + [a], states[a.path := Absent(a)], byId)
  {
    var longer := absent + [a];
    assert longer[|absent|] == a;
    if a.path in states && states[a.path].Absent? {
      var i :| 0 <= i < |absent| && absent[i] == states[a.path].absent;
      assert longer[i].path == a.path;
    } else if a.path in states {
      assert states[a.path].file in files && a in longer;
    } else {
      assert forall i | 0 <= i < |absent| :: absent[i] in absent;
    }
  }

  lemma AbsentPrefix(files: seq<FileSnapshot>, absent: seq<AbsentPathSnapshot>, n: nat)
    requires n <= |absent|
    ensures DistinctAbsent(absent) && NoCommonPath(files, absent) ==>
              DistinctAbsent(absent[..n]) && NoCommonPath(files, absent[..n])
  {
    assert forall a | a in absent[..n] :: a in absent;
  }

  ghost predicate AbsentIndexed(
    files: seq<FileSnapshot>, absent: seq<AbsentPathSnapshot>, states: States, byId: Files)
  {
    states == WithAbsent(FileStates(files), absent) && IndexedWith(files, absent, states, byId)
  }

  lemma IndexAbsentStep(files: seq<FileSnapshot>, absent: seq<AbsentPathSnapshot>, i: nat, states: States, byId: Files)
    requires i < |absent| && AbsentIndexed(files, absent[..i], states, byId)
    ensures absent[i].path in states ==> !(DistinctAbsent(absent) && NoCommonPath(files, absent))
    ensures absent[i].path !in states ==>
              AbsentIndexed(files, absent[..i + 1], states[absent[i].path := Absent(absent[i])], byId)
  {
    IndexOneAbsent(files, absent[..i], states, byId, absent[i]);
    assert absent[..i + 1] == absent[..i] + [absent[i]] && absent[..i + 1][..i] == absent[..i];
    AbsentPrefix(files, absent, i + 1);
  }

  method IndexAbsent(files: seq<FileSnapshot>, absent: seq<AbsentPathSnapshot>, fileStates: States, ghost byId: Files)
    returns (r: Result<States, PlanError>)
    requires FilesIndexed(files, fileStates, byId)
    ensures r.Ok? <==> DistinctAbsent(absent) && NoCommonPath(files, absent)
    ensures r.Ok? ==> AbsentIndexed(files, absent, r.value, byId)
  {
    var states := fileStates;
    for i := 0 to |absent|
      invariant AbsentIndexed(files, absent[..i], states, byId)
    {
      IndexAbsentStep(files, absent, i, states, byId);
      if absent[i].path in states {
        return Err(EditConflict("path_used_as_absent_and_existing", None));
      }
      states := states[absent[i].path := Absent(absent[i])];
    }
    assert absent[..|absent|] == absent;
    return Ok(states);
  }

  method IndexSnapshot(s: WorkspaceSnapshot) returns (r: Result<(States, Files), PlanError>)
    ensures r.Ok? <==> Distinct(s)
    ensures r.Ok? ==> r.value == (StatesOf(s), FilesOf(s))
    ensures r.Ok? ==> IndexesFiles(s.files, r.value.0, r.value.1) && IndexesAbsent(s.absentPaths, r.value.0)
  {
    var files := IndexFiles(s.files);
    if files.Err? {
      return Err(files.error);
    }
    var states := IndexAbsent(s.files, s.absentPaths, files.value.0, files.value.1);
    return if states.Ok? then Ok((states.value, files.value.1)) else Err(states.error);
  }

  // ----- preconditions

  ghost predicate Mentions(o: Operation, path: string, required: Precondition) {
    || (o.sourcePath == path && o.sourcePrecondition == required)
    || (o.destinationPath == path && o.destinationPrecondition == required)
  }

  /** Every two references to a path state the same precondition. */
  ghost predicate PreconditionsAgree(operations: seq<Operation>) {
    forall o, o', p, a, b | o in operations && o' in operations && Mentions(o, p, a) && Mentions(o', p, b) :: a == b
  }

  ghost predicate Recorded(byPath: map<string, Precondition>, operations: seq<Operation>) {
    && (forall o, p, a | o in operations && Mentions(o, p, a) :: p in byPath && byPath[p] == a)
    && (forall p | p in byPath :: exists o :: o in operations && Mentions(o, p, byPath[p]))
  }

  /** Whether an operation agrees with what was recorded, and with itself. */
  predicate Fits(byPath: map<string, Precondition>, o: Operation) {
    && (o.sourcePath in byPath ==> byPath[o.sourcePath] == o.sourcePrecondition)
    && (o.destinationPath in byPath ==> byPath[o.destinationPath] == o.destinationPrecondition)
    && (o.sourcePath == o.destinationPath ==> o.sourcePrecondition == o.destinationPrecondition)
  }

  lemma RecordOperation(byPath: map<string, Precondition>, operations: seq<Operation>, o: Operation)
    requires Recorded(byPath, operations) && Fits(byPath, o)
    ensures Recorded(byPath[o.sourcePath := o.sourcePrecondition][o.destinationPath := o.destinationPrecondition],
            operations + [o])
  {
    var more := byPath[o.sourcePath := o.sourcePrecondition][o.destinationPath := o.destinationPrecondition];
    forall p | p in more ensures exists x :: x in operations + [o] && Mentions(x, p, more[p]) {
      if p == o.sourcePath || p == o.destinationPath {
        assert o in operations + [o] && Mentions(o, p, more[p]);
      } else {
        var x :| x in operations && Mentions(x, p, byPath[p]);
        assert x in operations + [o];
      }
    }
  }

  lemma Disagreement(
    byPath: map<string, Precondition>, operations: seq<Operation>, before: seq<Operation>, o: Operation)
    requires Recorded(byPath, before) && !Fits(byPath, o)
    requires o in operations && forall x | x in before :: x in operations
    ensures !PreconditionsAgree(operations)
  {
    if o.sourcePath in byPath && byPath[o.sourcePath] != o.sourcePrecondition {
      var x :| x in before && Mentions(x, o.sourcePath, byPath[o.sourcePath]);
      assert Mentions(o, o.sourcePath, o.sourcePrecondition);
    } else if o.destinationPath in byPath && byPath[o.destinationPath] != o.destinationPrecondition {
      var x :| x in before && Mentions(x, o.destinationPath, byPath[o.destinationPath]);
      assert Mentions(o, o.destinationPath, o.destinationPrecondition);
    } else {
      assert Mentions(o, o.sourcePath, o.sourcePrecondition) && Mentions(o, o.sourcePath, o.destinationPrecondition);
    }
  }

  method ValidatePreconditionConsistency(operations: seq<Operation>) returns (r: Result<(), PlanError>)
    ensures r.Ok? <==> PreconditionsAgree(operations)
  {
    var byPath: map<string, Precondition> := map[];
    for i := 0 to |operations|
      invariant Recorded(byPath, operations[..i])
    {
      var o := operations[i];
      var withSource := byPath[o.sourcePath := o.sourcePrecondition];
      if (o.sourcePath in byPath && byPath[o.sourcePath] != o.sourcePrecondition)
         || (o.destinationPath in withSource && withSource[o.destinationPath] != o.destinationPrecondition) {
        Disagreement(byPath, operations, operations[..i], o);
        return Err(EditConflict("incompatible_preconditions", Some(i)));
      }
      RecordOperation(byPath, operations[..i], o);
      assert operations[..i + 1] == operations[..i] + [o];
      byPath := withSource[o.destinationPath := o.destinationPrecondition];
    }
    assert operations[..|operations|] == operations;
    return Ok(());
  }

  // ----- resolving one operation

  /** An operation with its coordinates resolved; nothing in it depends on the other operations. */
  datatype Resolution = Resolution(
    kind: OperationKind, source: FileSnapshot, range: ByteRange,
    destinationPath: string, destination: SnapshotState, offset: nat, effect: OperationEffect)

  function ExistingSource(states: States, o: Operation): Result<FileSnapshot, string> {
    if !o.sourcePrecondition.Sha256? then Err("source_must_exist")
    else if !(o.sourcePath in states && states[o.sourcePath].Existing?) then Err("source_not_in_snapshot")
    else if states[o.sourcePath].file.digest != o.sourcePrecondition.digest then Err("source_precondition_failed")
    else Ok(states[o.sourcePath].file)
  }

  function DestinationState(states: States, o: Operation): Result<SnapshotState, string> {
    if o.destinationPath !in states then Err("destination_not_in_snapshot")
    else
      match (o.destinationPrecondition, states[o.destinationPath])
      case (Sha256(expected), Existing(file)) =>
        if expected == file.digest then Ok(states[o.destinationPath]) else Err("destination_precondition_failed")
      case (MustNotExist, Absent(_)) => Ok(states[o.destinationPath])
      case _ => Err("destination_state_mismatch")
  }

  function ResolveSelector(source: FileSnapshot, selector: Selector): Result<ByteRange, string> {
    match selector
    case LineSpan(start, end) =>
      if start == 0 || start > end then Err("line_selector_out_of_range")
      else if LineStart(source.lineIndex, start).None? || LineEnd(source.lineIndex, end).None? then
        Err("line_selector_out_of_range")
      else Ok(ByteRange(LineStart(source.lineIndex, start).value, LineEnd(source.lineIndex, end).value))
    case ByteSpan(start, end) =>
      if start < end <= |source.bytes| then Ok(ByteRange(start, end)) else Err("byte_selector_out_of_range")
  }

  function FromOption<T>(o: Option<T>, reason: string): Result<T, string> {
    if o.Some? then Ok(o.value) else Err(reason)
  }

  function ResolveAnchor(destination: SnapshotState, anchor: Anchor): Result<nat, string> {
    match destination
    case Existing(file) => (
      match anchor
      case FileStart => Ok(0)
      case FileEnd => Ok(|file.bytes|)
      case BeforeLine(line) => FromOption(LineStart(file.lineIndex, line), "line_anchor_out_of_range")
      case AfterLine(line) => FromOption(LineEnd(file.lineIndex, line), "line_anchor_out_of_range")
      case ByteOffset(offset) => if offset <= |file.bytes| then Ok(offset) else Err("byte_anchor_out_of_range"))
    case Absent(_) =>
      if anchor == FileStart || anchor == FileEnd || anchor == ByteOffset(0) then Ok(0)
      else Err("new_file_anchor_out_of_range")
  }

  function ResolveOperation(states: States, o: Operation): Result<Resolution, string> {
    var source := ExistingSource(states, o);
    if source.Err? then Err(source.error) else
    var range := ResolveSelector(source.value, o.selector);
    if range.Err? then Err(range.error) else
    var destination := DestinationState(states, o);
    if destination.Err? then Err(destination.error) else
    var offset := ResolveAnchor(destination.value, o.anchor);
    if offset.Err? then Err(offset.error) else
    var effect :=
      if o.kind == Move && o.sourcePath == o.destinationPath
         && (offset.value == range.value.start || offset.value == range.value.end)
      then NoOp else Changed;
    Ok(Resolution(o.kind, source.value, range.value, o.destinationPath, destination.value, offset.value, effect))
  }

  function OriginalOf(state: SnapshotState): Bytes {
    if state.Existing? then state.file.bytes else []
  }

  function Payload(r: Resolution): Bytes {
    Slice(r.source.bytes, r.range)
  }

  /** Every selector that resolves selects at least one byte and every anchor lies in its file. */
  lemma ResolvedInBounds(states: States, o: Operation)
    requires forall p | p in states && states[p].Existing? :: ValidFile(states[p].file) && states[p].file.path == p
    requires ResolveOperation(states, o).Ok?
    ensures var r := ResolveOperation(states, o).value;
            && r.range.start < r.range.end <= |r.source.bytes|
            && r.offset <= |OriginalOf(r.destination)|
            && r.source.path in states && states[r.source.path] == Existing(r.source) && r.source.path == o.sourcePath
            && r.destinationPath in states && states[r.destinationPath] == r.destination
  {
    var source, destination := ExistingSource(states, o).value, DestinationState(states, o).value;
    SelectorInBounds(source, o.selector);
    AnchorInBounds(destination, o.anchor);
  }

  // ----- what resolution finds, said of the bytes

  /** What a selector selects: whole lines from a first to a last one, or bytes, and at least one byte. */
  predicate Selects(bytes: Bytes, selector: Selector, range: ByteRange) {
    match selector
    case LineSpan(first, last) =>
      first <= last && LineStartsAt(bytes, first, range.start) && LineEndsAt(bytes, last, range.end)
    case ByteSpan(start, end) => range == ByteRange(start, end) && start < end <= |bytes|
  }

  /** The place that an anchor names: an end of the file, the start or the end of a line, or an offset. */
  predicate NamesPlace(bytes: Bytes, anchor: Anchor, k: nat) {
    match anchor
    case FileStart => k == 0
    case FileEnd => k == |bytes|
    case BeforeLine(line) => LineStartsAt(bytes, line, k)
    case AfterLine(line) => LineEndsAt(bytes, line, k)
    case ByteOffset(offset) => k == offset <= |bytes|
  }

  lemma LineOfBytes(bytes: Bytes, index: LineIndex, n: nat)
    requires Indexes(index, bytes)
    ensures 0 < n <= LineCount(Metrics(bytes)) <==> exists k: nat :: LineStartsAt(bytes, n, k)
    ensures 0 < n <= LineCount(Metrics(bytes)) <==> exists k: nat :: LineEndsAt(bytes, n, k)
  {
    LineNumbersMean(index, bytes, n);
    if LineStart(index, n).Some? {
      assert LineStartsAt(bytes, n, LineStart(index, n).value);
      assert LineEndsAt(bytes, n, LineEnd(index, n).value);
    } else {
      NoSuchLine(bytes, index, n);
    }
  }

  lemma NoSuchLine(bytes: Bytes, index: LineIndex, n: nat)
    requires Indexes(index, bytes) && !(0 < n <= LineCount(Metrics(bytes)))
    ensures forall k: nat :: !LineStartsAt(bytes, n, k) && !LineEndsAt(bytes, n, k)
  {
    IndexCountsLines(index, bytes);
    LastTerminator(bytes);
    forall k: nat ensures !LineStartsAt(bytes, n, k) && !LineEndsAt(bytes, n, k) {
      if k <= |bytes| {
        CountEndsSplit(bytes, 0, k, |bytes|);
        if k > 0 {
          CountEndsSplit(bytes, 0, k - 1, |bytes|);
        }
      }
    }
  }

  /** A selector resolves exactly to what it selects of the bytes. */
  lemma SelectorMeans(f: FileSnapshot, selector: Selector, range: ByteRange)
    requires ValidFile(f)
    ensures ResolveSelector(f, selector) == Ok(range) <==> Selects(f.bytes, selector, range)
  {
    match selector
    case LineSpan(first, last) =>
      LineNumbersMean(f.lineIndex, f.bytes, first);
      LineNumbersMean(f.lineIndex, f.bytes, last);
      LineOfBytes(f.bytes, f.lineIndex, first);
      LineOfBytes(f.bytes, f.lineIndex, last);
    case ByteSpan(_, _) =>
  }

  /** An anchor resolves exactly to the place it names, in a new file only at its one place. */
  lemma AnchorMeans(state: SnapshotState, anchor: Anchor, k: nat)
    requires state.Existing? ==> ValidFile(state.file)
    ensures ResolveAnchor(state, anchor) == Ok(k) <==>
            if state.Existing? then NamesPlace(state.file.bytes, anchor, k)
            else k == 0 && NamesPlace([], anchor, 0)
  {
    if state.Existing? {
      match anchor
      case BeforeLine(line) =>
        LineNumbersMean(state.file.lineIndex, state.file.bytes, line);
        LineOfBytes(state.file.bytes, state.file.lineIndex, line);
      case AfterLine(line) =>
        LineNumbersMean(state.file.lineIndex, state.file.bytes, line);
        LineOfBytes(state.file.bytes, state.file.lineIndex, line);
      case _ =>
    }
  }

  /** What an operation may say of a path: the digest of the bytes that are there, or that nothing is. */
  predicate Expects(precondition: Precondition, state: SnapshotState) {
    precondition == if state.Existing? then Sha256(Hash(state.file.bytes)) else MustNotExist
  }

  /** What resolving an operation means: both paths are in the snapshot as the operation expects them, the range is
      what its selector selects, the offset the place its anchor names, and there is nothing to do exactly if a
      range would move to one of its own ends. */
  ghost predicate Resolves(states: States, o: Operation, r: Resolution) {
    && r.kind == o.kind && r.destinationPath == o.destinationPath
    && o.sourcePath in states && states[o.sourcePath] == Existing(r.source)
    && Expects(o.sourcePrecondition, states[o.sourcePath])
    && o.destinationPath in states && states[o.destinationPath] == r.destination
    && Expects(o.destinationPrecondition, r.destination)
    && Selects(r.source.bytes, o.selector, r.range)
    && NamesPlace(OriginalOf(r.destination), o.anchor, r.offset)
    && (r.effect == NoOp <==>
          o.kind == Move && o.sourcePath == o.destinationPath && r.offset in {r.range.start, r.range.end})
  }

  /** Resolution is exact: it succeeds with r if and only if r is what the operation means. */
  lemma OperationMeans(states: States, o: Operation, r: Resolution)
    requires forall p | p in states && states[p].Existing? :: ValidFile(states[p].file) && states[p].file.path == p
    ensures ResolveOperation(states, o) == Ok(r) <==> Resolves(states, o, r)
  {
    if ResolveOperation(states, o).Ok? {
      var found := ResolveOperation(states, o).value;
      ResolvedIsMeant(states, o, found);
      if Resolves(states, o, r) {
        MeantIsResolved(states, o, r);
      }
    } else if Resolves(states, o, r) {
      MeantIsResolved(states, o, r);
    }
  }

  lemma ResolvedIsMeant(states: States, o: Operation, r: Resolution)
    requires forall p | p in states && states[p].Existing? :: ValidFile(states[p].file) && states[p].file.path == p
    requires ResolveOperation(states, o) == Ok(r)
    ensures Resolves(states, o, r)
  {
    SelectorMeans(r.source, o.selector, r.range);
    AnchorMeans(r.destination, o.anchor, r.offset);
  }

  lemma MeantIsResolved(states: States, o: Operation, r: Resolution)
    requires forall p | p in states && states[p].Existing? :: ValidFile(states[p].file) && states[p].file.path == p
    requires Resolves(states, o, r)
    ensures ResolveOperation(states, o) == Ok(r)
  {
    SelectorMeans(r.source, o.selector, r.range);
    AnchorMeans(r.destination, o.anchor, r.offset);
  }

  lemma SelectorInBounds(f: FileSnapshot, selector: Selector)
    requires ValidFile(f) && ResolveSelector(f, selector).Ok?
    ensures var range := ResolveSelector(f, selector).value; range.start < range.end <= |f.bytes|
  {
    LinesInBounds(f);
  }

  lemma AnchorInBounds(state: SnapshotState, anchor: Anchor)
    requires state.Existing? ==> ValidFile(state.file)
    requires ResolveAnchor(state, anchor).Ok?
    ensures ResolveAnchor(state, anchor).value <= |OriginalOf(state)|
  {
    if state.Existing? {
      LinesInBounds(state.file);
    }
  }

  lemma LinesInBounds(f: FileSnapshot)
    requires ValidFile(f)
    ensures var b := f.lineIndex.boundaries;
            && (forall i | 0 <= i < |b| :: 0 < b[i] <= |f.bytes|)
            && (forall i, j | 0 <= i < j < |b| :: b[i] < b[j])
  {
    assert forall i | 0 <= i < |f.lineIndex.boundaries| :: IsBoundary(f.bytes, f.lineIndex.boundaries[i]);
  }

  // ----- the edits of a batch

  predicate AllResolve(states: States, operations: seq<Operation>) {
    forall i | 0 <= i < |operations| :: ResolveOperation(states, operations[i]).Ok?
  }

  function Resolutions(states: States, operations: seq<Operation>): (rs: seq<Resolution>)
    requires AllResolve(states, operations)
    ensures |rs| == |operations|
    ensures forall i | 0 <= i < |rs| :: rs[i] == ResolveOperation(states, operations[i]).value
  {
    if operations == [] then []
    else
      Resolutions(states, operations[..|operations| - 1])
        + [ResolveOperation(states, operations[|operations| - 1]).value]
  }

  predicate DeletesFrom(r: Resolution, path: string) {
    r.effect == Changed && r.kind == Move && r.source.path == path
  }

  predicate InsertsInto(r: Resolution, path: string) {
    r.effect == Changed && r.destinationPath == path
  }

  predicate Touched(rs: seq<Resolution>, path: string) {
    exists i | 0 <= i < |rs| :: DeletesFrom(rs[i], path) || InsertsInto(rs[i], path)
  }

  function InsertionOf(r: Resolution, index: nat): Placed {
    Placed(r.offset, Insertion(index, r.source.id, r.range, Hash(Payload(r))))
  }

  function DeletionsFor(rs: seq<Resolution>, path: string): seq<Deletion> {
    if rs == [] then []
    else
      var n := |rs| - 1;
      DeletionsFor(rs[..n], path) + if DeletesFrom(rs[n], path) then [Deletion(n, rs[n].range)] else []
  }

  function InsertionsFor(rs: seq<Resolution>, path: string): seq<Placed> {
    if rs == [] then []
    else
      var n := |rs| - 1;
      InsertionsFor(rs[..n], path) + if InsertsInto(rs[n], path) then [InsertionOf(rs[n], n)] else []
  }

  /** The file that a batch makes of a path. */
  function OutputBytes(files: Files, state: SnapshotState, rs: seq<Resolution>, path: string): Bytes {
    Edited(files, OriginalOf(state), DeletionsFor(rs, path), InsertionsFor(rs, path))
  }

  function EmptyEdits(path: string, state: SnapshotState): OutputEdits {
    match state
    case Existing(file) => OutputEdits(path, Some(file.id), |file.bytes|, Some(file.digest), [], [])
    case Absent(_) => OutputEdits(path, None, 0, None, [], [])
  }

  function EditsFor(rs: seq<Resolution>, path: string, state: SnapshotState): OutputEdits {
    EmptyEdits(path, state).(deletions := DeletionsFor(rs, path), insertions := InsertionsFor(rs, path))
  }

  /** The map of edits after a prefix of the batch. */
  ghost predicate EditsOf(edits: map<string, OutputEdits>, states: States, rs: seq<Resolution>) {
    && (forall p :: p in edits <==> Touched(rs, p))
    && (forall p | p in edits :: p in states && edits[p] == EditsFor(rs, p, states[p]))
  }

  lemma TouchedSnoc(rs: seq<Resolution>, r: Resolution, p: string)
    ensures Touched(rs + [r], p) <==> Touched(rs, p) || DeletesFrom(r, p) || InsertsInto(r, p)
  {
    var longer := rs + [r];
    assert longer[|rs|] == r;
    assert forall i | 0 <= i < |rs| :: longer[i] == rs[i];
  }

  lemma EditsSnoc(rs: seq<Resolution>, r: Resolution, p: string)
    ensures DeletionsFor(rs + [r], p) ==
            DeletionsFor(rs, p) + if DeletesFrom(r, p) then [Deletion(|rs|, r.range)] else []
    ensures InsertionsFor(rs + [r], p) ==
            InsertionsFor(rs, p) + if InsertsInto(r, p) then [InsertionOf(r, |rs|)] else []
  {
    assert (rs + [r])[..|rs|] == rs;
  }

  lemma {:induction false} UntouchedHasNoEdits(rs: seq<Resolution>, p: string)
    requires !Touched(rs, p)
    ensures DeletionsFor(rs, p) == [] && InsertionsFor(rs, p) == []
  {
    if rs != [] {
      var rest, last := rs[..|rs| - 1], rs[|rs| - 1];
      assert rs == rest + [last];
      TouchedSnoc(rest, last, p);
      UntouchedHasNoEdits(rest, p);
    }
  }

  function EntryFor(edits: map<string, OutputEdits>, path: string, state: SnapshotState): OutputEdits {
    if path in edits then edits[path] else EmptyEdits(path, state)
  }

  lemma EntryIsEditsFor(edits: map<string, OutputEdits>, states: States, rs: seq<Resolution>, p: string)
    requires EditsOf(edits, states, rs) && p in states
    ensures EntryFor(edits, p, states[p]) == EditsFor(rs, p, states[p])
  {
    if p !in edits {
      UntouchedHasNoEdits(rs, p);
    }
  }

  /** One effectful operation adds a deletion at its source if it moves, and an insertion at its destination. */
  method AddOperation(
    edits: map<string, OutputEdits>, r: Resolution, index: nat, ghost states: States, ghost rs: seq<Resolution>)
    returns (more: map<string, OutputEdits>)
    requires EditsOf(edits, states, rs) && index == |rs| && r.effect == Changed
    requires r.source.path in states && states[r.source.path] == Existing(r.source)
    requires r.destinationPath in states && states[r.destinationPath] == r.destination
    ensures EditsOf(more, states, rs + [r])
  {
    more := edits;
    EntryIsEditsFor(edits, states, rs, r.source.path);
    EntryIsEditsFor(edits, states, rs, r.destinationPath);
    if r.kind == Move {
      var entry := EntryFor(more, r.source.path, Existing(r.source));
      more := more[r.source.path := entry.(deletions := entry.deletions + [Deletion(index, r.range)])];
    }
    var entry := EntryFor(more, r.destinationPath, r.destination);
    var inserted := Insertion(index, r.source.id, r.range, Hash(Slice(r.source.bytes, r.range)));
    more := more[r.destinationPath := entry.(insertions := entry.insertions + [Placed(r.offset, inserted)])];
    forall p ensures p in more <==> Touched(rs + [r], p) {
      TouchedSnoc(rs, r, p);
    }
    forall p | p in more ensures p in states && more[p] == EditsFor(rs + [r], p, states[p]) {
      EditsSnoc(rs, r, p);
    }
  }

  // ----- streaming an output

  method StreamOutput(segments: seq<OutputSegment>, files: Files, original: Option<Bytes>)
    returns (length: nat, digest: Digest, equalsOriginal: bool)
    requires ValidRecipe(files, segments)
    ensures length == |RecipeBytes(files, segments)|
    ensures digest == Hash(RecipeBytes(files, segments))
    ensures equalsOriginal <==> original == Some(RecipeBytes(files, segments))
  {
    var hashed: Bytes, comparisonOffset := [], 0;
    length, equalsOriginal := 0, original.Some?;
    for i := 0 to |segments|
      invariant hashed == RecipeBytes(files, segments[..i])
      invariant length == comparisonOffset == |hashed|
      invariant equalsOriginal <==> original.Some? && hashed <= original.value
    {
      var segment := segments[i];
      assert segment in segments;
      var bytes := files[segment.fileId].bytes[segment.range.start..segment.range.end];
      assert segments[..i + 1] == segments[..i] + [segment];
      RecipeSnoc(files, segments[..i], segment);
      var comparisonEnd := comparisonOffset + |bytes|;
      if original.Some? {
        PrefixGrows(hashed, bytes, original.value);
        if comparisonEnd > |original.value| || original.value[comparisonOffset..comparisonEnd] != bytes {
          equalsOriginal := false;
        }
      }
      length, comparisonOffset, hashed := length + |bytes|, comparisonEnd, hashed + bytes;
    }
    assert segments[..|segments|] == segments;
    assert original.Some? && hashed <= original.value && |hashed| == |original.value| ==> hashed == original.value;
    if original.Some? && comparisonOffset != |original.value| {
      equalsOriginal := false;
    }
    digest := Hash(hashed);
  }

  lemma PrefixGrows(a: Bytes, b: Bytes, whole: Bytes)
    ensures a + b <= whole <==> a <= whole && |a| + |b| <= |whole| && whole[|a|..|a| + |b|] == b
  {
    if a + b <= whole {
      assert whole[..|a|] == (a + b)[..|a|] == a;
      assert whole[|a|..|a| + |b|] == (a + b)[|a|..] == b;
    }
    if a <= whole && |a| + |b| <= |whole| && whole[|a|..|a| + |b|] == b {
      assert whole[..|a| + |b|] == whole[..|a|] + whole[|a|..|a| + |b|];
    }
  }

  function ClassifyOutput(existing: bool, length: nat, equalsOriginal: bool): OutputChange {
    if !existing then CreatedNew
    else if equalsOriginal then Unchanged
    else if length == 0 then EmptiedExisting
    else ModifiedExisting
  }

  // ----- planning

  /** What a planned output says about its path. */
  ghost predicate OutputFor(files: Files, state: SnapshotState, rs: seq<Resolution>, out: PlannedOutput) {
    var bytes := OutputBytes(files, state, rs, out.path);
    && ValidRecipe(files, out.segments)
    && RecipeBytes(files, out.segments) == bytes
    && Payloads(out.segments) == PayloadsBefore(InsertionsFor(rs, out.path), |OriginalOf(state)| + 1)
    && out.resultingLength == |bytes|
    && out.resultingDigest == Hash(bytes)
    && out.originalDigest == (if state.Existing? then Some(Hash(OriginalOf(state))) else None)
    && (out.change == CreatedNew <==> state.Absent?)
    && (out.change == Unchanged <==> state.Existing? && bytes == OriginalOf(state))
    && (out.change == EmptiedExisting <==> state.Existing? && bytes == [] && OriginalOf(state) != [])
  }

  /** The edits of one path do not conflict and do not change a file with several links. */
  ghost predicate PathPlannable(files: Files, state: SnapshotState, rs: seq<Resolution>, path: string) {
    && PairwiseDisjoint(DeletionsFor(rs, path))
    && NoInsertionInside(DeletionsFor(rs, path), InsertionsFor(rs, path))
    && (state.Existing? && state.file.linkCount != 1 ==> OutputBytes(files, state, rs, path) == OriginalOf(state))
  }

  ghost predicate Plannable(s: WorkspaceSnapshot, operations: seq<Operation>) {
    && Distinct(s)
    && PreconditionsAgree(operations)
    && AllResolve(StatesOf(s), operations)
    && PathsPlannable(StatesOf(s), FilesOf(s), Resolutions(StatesOf(s), operations))
  }

  // ----- the batch is well formed

  /** A resolution refers to the snapshot and stays inside its files. */
  ghost predicate Grounded(states: States, files: Files, r: Resolution) {
    && r.range.start < r.range.end <= |r.source.bytes|
    && r.source.id in files && files[r.source.id] == r.source
    && r.source.path in states && states[r.source.path] == Existing(r.source)
    && r.destinationPath in states && states[r.destinationPath] == r.destination
    && r.offset <= |OriginalOf(r.destination)|
  }

  ghost predicate AllGrounded(states: States, files: Files, rs: seq<Resolution>) {
    forall i | 0 <= i < |rs| :: Grounded(states, files, rs[i])
  }

  /** Indexed states of a valid snapshot. */
  ghost predicate Indexed(s: WorkspaceSnapshot, states: States, files: Files) {
    && ValidSnapshot(s)
    && IndexesFiles(s.files, states, files)
    && IndexesAbsent(s.absentPaths, states)
  }

  lemma ResolutionGrounded(s: WorkspaceSnapshot, states: States, files: Files, o: Operation)
    requires Indexed(s, states, files) && ResolveOperation(states, o).Ok?
    ensures Grounded(states, files, ResolveOperation(states, o).value)
  {
    ResolvedInBounds(states, o);
  }

  /** Whatever resolves is grounded. */
  ghost predicate Grounding(states: States, files: Files) {
    forall o :: ResolveOperation(states, o).Ok? ==> Grounded(states, files, ResolveOperation(states, o).value)
  }

  /** Every existing path has its file among the files by identifier. */
  ghost predicate HasFiles(states: States, files: Files) {
    forall p | p in states && states[p].Existing? ::
      states[p].file.id in files && files[states[p].file.id] == states[p].file
        && states[p].file.digest == Hash(states[p].file.bytes)
  }

  lemma IndexedIsGrounding(s: WorkspaceSnapshot, states: States, files: Files)
    requires Indexed(s, states, files)
    ensures Grounding(states, files) && HasFiles(states, files)
  {
    forall o | ResolveOperation(states, o).Ok? ensures Grounded(states, files, ResolveOperation(states, o).value) {
      ResolutionGrounded(s, states, files, o);
    }
  }

  lemma ResolutionsGrounded(states: States, files: Files, operations: seq<Operation>)
    requires Grounding(states, files) && AllResolve(states, operations)
    ensures AllGrounded(states, files, Resolutions(states, operations))
  {
  }

  /** The operation means something in the snapshot. */
  ghost predicate Meaningful(states: States, o: Operation) {
    exists r :: Resolves(states, o, r)
  }

  /** The operations of a planned batch mean what the plan records of them, and a batch is refused for its
      operations exactly if one of them means nothing in the snapshot. */
  lemma BatchMeans(s: WorkspaceSnapshot, operations: seq<Operation>)
    requires Indexed(s, StatesOf(s), FilesOf(s))
    ensures AllResolve(StatesOf(s), operations) <==>
            forall i | 0 <= i < |operations| :: Meaningful(StatesOf(s), operations[i])
    ensures AllResolve(StatesOf(s), operations) ==>
              forall i | 0 <= i < |operations| ::
                Resolves(StatesOf(s), operations[i], Resolutions(StatesOf(s), operations)[i])
  {
    var states := StatesOf(s);
    assert forall p | p in states && states[p].Existing? :: ValidFile(states[p].file) && states[p].file.path == p;
    forall i | 0 <= i < |operations|
      ensures ResolveOperation(states, operations[i]).Ok? <==> Meaningful(states, operations[i])
      ensures ResolveOperation(states, operations[i]).Ok? ==>
                Resolves(states, operations[i], ResolveOperation(states, operations[i]).value)
    {
      EachMeans(states, operations[i]);
    }
  }

  lemma EachMeans(states: States, o: Operation)
    requires forall p | p in states && states[p].Existing? :: ValidFile(states[p].file) && states[p].file.path == p
    ensures ResolveOperation(states, o).Ok? <==> Meaningful(states, o)
    ensures ResolveOperation(states, o).Ok? ==> Resolves(states, o, ResolveOperation(states, o).value)
  {
    if ResolveOperation(states, o).Ok? {
      OperationMeans(states, o, ResolveOperation(states, o).value);
    }
    if r :| Resolves(states, o, r) {
      OperationMeans(states, o, r);
    }
  }

  /** The outputs of a plan are in the order of their paths' bytes, each path once. */
  lemma OutputsInByteOrder(
    states: States, files: Files, rs: seq<Resolution>, outputs: seq<PlannedOutput>, i: nat, j: nat)
    requires PlanFor(states, files, rs, outputs) && i < j < |outputs|
    ensures BytesLeq(Utf8.EncodeAll(outputs[i].path), Utf8.EncodeAll(outputs[j].path))
    ensures outputs[i].path != outputs[j].path
  {
    assert PathLeq(OutputPaths(outputs)[i], OutputPaths(outputs)[j]);
    PathsInByteOrder(outputs[i].path, outputs[j].path);
  }

  lemma {:induction false} DeletionsInBounds(states: States, files: Files, rs: seq<Resolution>, p: string)
    requires AllGrounded(states, files, rs) && p in states
    ensures NonEmpty(DeletionsFor(rs, p))
    ensures forall i | 0 <= i < |DeletionsFor(rs, p)| :: DeletionsFor(rs, p)[i].range.end <= |OriginalOf(states[p])|
  {
    if rs != [] {
      var n := |rs| - 1;
      DeletionsInBounds(states, files, rs[..n], p);
      assert Grounded(states, files, rs[n]);
    }
  }

  lemma {:induction false} InsertionsInBounds(states: States, files: Files, rs: seq<Resolution>, p: string)
    requires AllGrounded(states, files, rs) && p in states
    ensures var placed := InsertionsFor(rs, p);
            && InOperationOrder(placed)
            && (forall i | 0 <= i < |placed| ::
                  && placed[i].insertion.operationIndex < |rs|
                  && placed[i].offset <= |OriginalOf(states[p])|
                  && ValidSlice(files, placed[i].insertion.fileId, placed[i].insertion.range))
  {
    if rs != [] {
      var n := |rs| - 1;
      InsertionsInBounds(states, files, rs[..n], p);
      assert Grounded(states, files, rs[n]);
    }
  }

  lemma EditsAreWellFormed(states: States, files: Files, rs: seq<Resolution>, p: string)
    requires AllGrounded(states, files, rs) && p in states
    requires states[p].Existing? ==> states[p].file.id in files && files[states[p].file.id] == states[p].file
    ensures WellFormed(EditsFor(rs, p, states[p]), files, OriginalOf(states[p]))
  {
    DeletionsInBounds(states, files, rs, p);
    InsertionsInBounds(states, files, rs, p);
  }

  // ----- planning

  method PlanOutput(edits: OutputEdits, files: Files, ghost states: States, ghost rs: seq<Resolution>)
    returns (r: Result<PlannedOutput, PlanError>)
    requires edits.path in states && edits == EditsFor(rs, edits.path, states[edits.path])
    requires states[edits.path].Existing? ==>
               var f := states[edits.path].file; f.id in files && files[f.id] == f && f.digest == Hash(f.bytes)
    requires AllGrounded(states, files, rs)
    ensures r.Ok? <==> PathPlannable(files, states[edits.path], rs, edits.path)
    ensures r.Ok? ==> r.value.path == edits.path && OutputFor(files, states[edits.path], rs, r.value)
  {
    ghost var state := states[edits.path];
    EditsAreWellFormed(states, files, rs, edits.path);
    var valid := ValidateEditConflicts(edits);
    if valid.Err? {
      return Err(valid.error);
    }
    var segments := BuildSegments(edits, files, OriginalOf(state));
    var original := if edits.existingFileId.Some? then Some(files[edits.existingFileId.value].bytes) else None;
    var length, digest, equalsOriginal := StreamOutput(segments, files, original);
    var change := ClassifyOutput(edits.existingFileId.Some?, length, equalsOriginal);
    if change != Unchanged && edits.existingFileId.Some? {
      var file := files[edits.existingFileId.value];
      if file.linkCount != 1 {
        return Err(HardLinkNotSupported(edits.path, file.linkCount));
      }
    }
    return Ok(PlannedOutput(edits.path, edits.originalDigest, change, length, digest, segments));
  }

  function ResolvedRecord(o: Operation, r: Resolution, index: nat): ResolvedOperation {
    ResolvedOperation(
      index, o.kind, o.sourcePath, o.selector, o.sourcePrecondition, r.range, Hash(Payload(r)),
      o.destinationPath, o.anchor, o.destinationPrecondition, r.offset, r.effect)
  }

  ghost predicate RecordsFor(records: seq<ResolvedOperation>, operations: seq<Operation>, rs: seq<Resolution>) {
    && |records| == |rs| <= |operations|
    && forall k | 0 <= k < |rs| :: records[k] == ResolvedRecord(operations[k], rs[k], k)
  }

  ghost predicate ResolvedPrefix(states: States, operations: seq<Operation>, rs: seq<Resolution>) {
    && |rs| <= |operations|
    && forall k | 0 <= k < |rs| :: ResolveOperation(states, operations[k]) == Ok(rs[k])
  }

  /** Adds one resolved operation to the edits; a no-op contributes none. */
  method AddResolved(
    edits: map<string, OutputEdits>, r: Resolution, index: nat, ghost states: States, ghost files: Files,
    ghost rs: seq<Resolution>)
    returns (more: map<string, OutputEdits>)
    requires EditsOf(edits, states, rs) && index == |rs| && Grounded(states, files, r)
    ensures EditsOf(more, states, rs + [r])
  {
    if r.effect == NoOp {
      NoOpAddsNothing(edits, states, rs, r);
      more := edits;
    } else {
      more := AddOperation(edits, r, index, states, rs);
    }
  }

  /** What a prefix of the batch has come to. */
  ghost predicate BatchUpTo(
    states: States, operations: seq<Operation>, rs: seq<Resolution>, resolved: seq<ResolvedOperation>,
    edits: map<string, OutputEdits>)
  {
    ResolvedPrefix(states, operations, rs) && RecordsFor(resolved, operations, rs) && EditsOf(edits, states, rs)
  }

  lemma OneMoreResolved(
    states: States, operations: seq<Operation>, rs: seq<Resolution>, resolved: seq<ResolvedOperation>, r: Resolution)
    requires ResolvedPrefix(states, operations, rs) && RecordsFor(resolved, operations, rs)
    requires |rs| < |operations| && ResolveOperation(states, operations[|rs|]) == Ok(r)
    ensures ResolvedPrefix(states, operations, rs + [r])
    ensures RecordsFor(resolved + [ResolvedRecord(operations[|rs|], r, |rs|)], operations, rs + [r])
  {
  }

  method ResolveNext(
    states: States, ghost files: Files, operations: seq<Operation>, i: nat, resolved: seq<ResolvedOperation>,
    edits: map<string, OutputEdits>, ghost rs: seq<Resolution>)
    returns (r: Result<(seq<ResolvedOperation>, map<string, OutputEdits>), PlanError>)
    requires Grounding(states, files) && i == |rs| < |operations| && BatchUpTo(states, operations, rs, resolved, edits)
    ensures r.Ok? <==> ResolveOperation(states, operations[i]).Ok?
    ensures r.Ok? ==>
              BatchUpTo(states, operations, rs + [ResolveOperation(states, operations[i]).value], r.value.0, r.value.1)
  {
    var o := operations[i];
    var resolution := ResolveOperation(states, o);
    if resolution.Err? {
      return Err(EditConflict(resolution.error, Some(i)));
    }
    assert Grounded(states, files, resolution.value);
    OneMoreResolved(states, operations, rs, resolved, resolution.value);
    var more := AddResolved(edits, resolution.value, i, states, files, rs);
    var found := resolution.value;
    var bytes := found.source.bytes[found.range.start..found.range.end];
    var resolvedOperation := ResolvedOperation(
      i, o.kind, o.sourcePath, o.selector, o.sourcePrecondition, found.range, Hash(bytes),
      o.destinationPath, o.anchor, o.destinationPrecondition, found.offset, found.effect);
    return Ok((resolved + [resolvedOperation], more));
  }

  method ResolveBatch(states: States, ghost files: Files, operations: seq<Operation>)
    returns (r: Result<(seq<ResolvedOperation>, map<string, OutputEdits>), PlanError>)
    requires Grounding(states, files)
    ensures r.Ok? <==> AllResolve(states, operations)
    ensures r.Ok? ==> EditsOf(r.value.1, states, Resolutions(states, operations))
    ensures r.Ok? ==> |r.value.0| == |operations| && RecordsFor(r.value.0, operations, Resolutions(states, operations))
  {
    var resolved: seq<ResolvedOperation>, edits: map<string, OutputEdits> := [], map[];
    ghost var rs: seq<Resolution> := [];
    for i := 0 to |operations|
      invariant |rs| == i && BatchUpTo(states, operations, rs, resolved, edits)
    {
      var next := ResolveNext(states, files, operations, i, resolved, edits, rs);
      if next.Err? {
        return Err(next.error);
      }
      resolved, edits := next.value.0, next.value.1;
      rs := rs + [ResolveOperation(states, operations[i]).value];
    }
    PrefixIsAll(states, operations, rs);
    return Ok((resolved, edits));
  }

  lemma PrefixIsAll(states: States, operations: seq<Operation>, rs: seq<Resolution>)
    requires ResolvedPrefix(states, operations, rs) && |rs| == |operations|
    ensures AllResolve(states, operations) && rs == Resolutions(states, operations)
  {
  }

  lemma NoOpAddsNothing(edits: map<string, OutputEdits>, states: States, rs: seq<Resolution>, r: Resolution)
    requires EditsOf(edits, states, rs) && r.effect == NoOp
    ensures EditsOf(edits, states, rs + [r])
  {
    forall p ensures Touched(rs + [r], p) <==> Touched(rs, p) {
      TouchedSnoc(rs, r, p);
    }
    forall p | p in edits ensures EditsFor(rs + [r], p, states[p]) == EditsFor(rs, p, states[p]) {
      EditsSnoc(rs, r, p);
    }
  }

  function OutputPaths(outputs: seq<PlannedOutput>): (paths: seq<string>)
    ensures |paths| == |outputs|
    ensures forall i | 0 <= i < |outputs| :: paths[i] == outputs[i].path
  {
    seq(|outputs|, i requires 0 <= i < |outputs| => outputs[i].path)
  }

  /** A plan describes exactly the touched paths, in path order, each by the file the batch makes of it. */
  ghost predicate PlanFor(states: States, files: Files, rs: seq<Resolution>, outputs: seq<PlannedOutput>) {
    && InPathOrder(OutputPaths(outputs))
    && (forall p :: Touched(rs, p) <==> exists i :: 0 <= i < |outputs| && outputs[i].path == p)
    && (forall i | 0 <= i < |outputs| ::
          outputs[i].path in states && OutputFor(files, states[outputs[i].path], rs, outputs[i]))
  }

  ghost predicate PlannedAs(states: States, files: Files, rs: seq<Resolution>, path: string, output: PlannedOutput) {
    && output.path == path && path in states
    && PathPlannable(files, states[path], rs, path)
    && OutputFor(files, states[path], rs, output)
  }

  ghost function Planned(states: States, files: Files, rs: seq<Resolution>): (string, PlannedOutput) -> bool {
    (path: string, output: PlannedOutput) => PlannedAs(states, files, rs, path, output)
  }

  method PlanPath(
    path: string, ghost states: States, files: Files, edits: map<string, OutputEdits>, ghost rs: seq<Resolution>,
    ghost planned: (string, PlannedOutput) -> bool)
    returns (r: Result<PlannedOutput, PlanError>)
    requires HasFiles(states, files) && AllGrounded(states, files, rs) && EditsOf(edits, states, rs) && path in edits
    requires forall p, o {:trigger PlannedAs(states, files, rs, p, o)} ::
               PlannedAs(states, files, rs, p, o) ==> planned(p, o)
    ensures r.Ok? ==> planned(path, r.value)
    ensures r.Err? ==> !PathsPlannable(states, files, rs)
  {
    r := PlanOutput(edits[path], files, states, rs);
    assert Touched(rs, path);
    assert r.Ok? ==> PlannedAs(states, files, rs, path, r.value);
  }

  method PlanPaths(
    paths: seq<string>, ghost states: States, files: Files, edits: map<string, OutputEdits>, ghost rs: seq<Resolution>,
    ghost planned: (string, PlannedOutput) -> bool)
    returns (r: Result<seq<PlannedOutput>, PlanError>)
    requires HasFiles(states, files) && AllGrounded(states, files, rs) && EditsOf(edits, states, rs)
    requires forall p, o {:trigger PlannedAs(states, files, rs, p, o)} ::
               PlannedAs(states, files, rs, p, o) ==> planned(p, o)
    requires forall p | p in paths :: p in edits
    ensures r.Ok? ==> Pointwise(paths, r.value, planned)
    ensures r.Err? ==> !PathsPlannable(states, files, rs)
  {
    var outputs: seq<PlannedOutput> := [];
    for i := 0 to |paths|
      invariant Pointwise(paths[..i], outputs, planned)
    {
      var output := PlanPath(paths[i], states, files, edits, rs, planned);
      if output.Err? {
        return Err(output.error);
      }
      PointwiseSnoc(paths[..i], outputs, planned, paths[i], output.value);
      assert paths[..i + 1] == paths[..i] + [paths[i]];
      outputs := outputs + [output.value];
    }
    assert paths[..|paths|] == paths;
    return Ok(outputs);
  }

  method PlanOutputs(ghost states: States, files: Files, edits: map<string, OutputEdits>, ghost rs: seq<Resolution>)
    returns (r: Result<seq<PlannedOutput>, PlanError>)
    requires HasFiles(states, files) && AllGrounded(states, files, rs) && EditsOf(edits, states, rs)
    ensures r.Ok? <==> PathsPlannable(states, files, rs)
    ensures r.Ok? ==> PlanFor(states, files, rs, r.value)
  {
    var paths := SortedPaths(edits.Keys);
    r := PlanPaths(paths, states, files, edits, rs, Planned(states, files, rs));
    if r.Ok? {
      SortedPathsMakeAPlan(states, files, rs, paths, r.value);
    }
  }

  ghost predicate PathsPlannable(states: States, files: Files, rs: seq<Resolution>) {
    forall p | Touched(rs, p) :: p in states && PathPlannable(files, states[p], rs, p)
  }

  lemma SortedPathsMakeAPlan(
    states: States, files: Files, rs: seq<Resolution>, paths: seq<string>, outputs: seq<PlannedOutput>)
    requires Pointwise(paths, outputs, Planned(states, files, rs))
    requires InPathOrder(paths)
    requires forall p :: p in paths <==> Touched(rs, p)
    ensures PlanFor(states, files, rs, outputs) && PathsPlannable(states, files, rs)
  {
    forall k | 0 <= k < |outputs|
      ensures PlannedAs(states, files, rs, outputs[k].path, outputs[k]) && outputs[k].path == paths[k]
    {
      assert Planned(states, files, rs)(paths[k], outputs[k]);
    }
    assert OutputPaths(outputs) == paths;
    forall p | Touched(rs, p)
      ensures p in states && PathPlannable(files, states[p], rs, p)
      ensures exists i :: 0 <= i < |outputs| && outputs[i].path == p
    {
      var i :| 0 <= i < |paths| && paths[i] == p;
      assert outputs[i].path == p;
    }
  }

  /** Planning succeeds exactly on conflict-free batches, and the recipes describe, path by path, the edited
      files. */
  method MakePlan(s: WorkspaceSnapshot, operations: seq<Operation>) returns (r: Result<EditPlan, PlanError>)
    requires ValidSnapshot(s)
    ensures r.Ok? <==> Plannable(s, operations)
    ensures r.Ok? ==>
              var rs := Resolutions(StatesOf(s), operations);
              && PlanFor(StatesOf(s), FilesOf(s), rs, r.value.outputs)
              && AllGrounded(StatesOf(s), FilesOf(s), rs)
              && |r.value.operations| == |operations| && RecordsFor(r.value.operations, operations, rs)
    ensures r.Ok? ==> Indexed(s, StatesOf(s), FilesOf(s))
  {
    var indexed := IndexSnapshot(s);
    if indexed.Err? {
      return Err(indexed.error);
    }
    var (states, files) := indexed.value;
    var consistent := ValidatePreconditionConsistency(operations);
    if consistent.Err? {
      return Err(consistent.error);
    }
    IndexedIsGrounding(s, states, files);
    var resolved := ResolveBatch(states, files, operations);
    if resolved.Err? {
      return Err(resolved.error);
    }
    ResolutionsGrounded(states, files, operations);
    var outputs := PlanOutputs(states, files, resolved.value.1, Resolutions(states, operations));
    if outputs.Err? {
      return Err(outputs.error);
    }
    return Ok(EditPlan(resolved.value.0, outputs.value));
  }
}
