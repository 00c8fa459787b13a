/** The review of one output: line counts from segment summaries, and insertions grouped by place. */
module Review {
  import opened Common
  import opened Lines
  import opened Plan
  import opened Sweep
  import opened Planner
  import Manifests

  datatype InsertionGroup = InsertionGroup(offset: nat, operations: seq<nat>)

  datatype OutputReview = OutputReview(beforeLines: Option<nat>, afterLines: nat, groups: seq<InsertionGroup>)

  ghost predicate ValidFiles(files: Files) {
    forall id | id in files :: ValidFile(files[id])
  }

  // ----- insertion groups

  /** Where an operation inserts. */
  datatype Mark = Mark(offset: nat, index: nat)

  /** An insertion joins the last group if that is at its place. */
  function AddToGroups(groups: seq<InsertionGroup>, mark: Mark): seq<InsertionGroup> {
    var n := |groups| - 1;
    if groups != [] && groups[n].offset == mark.offset
    then groups[..n] + [InsertionGroup(mark.offset, groups[n].operations + [mark.index])]
    else groups + [InsertionGroup(mark.offset, [mark.index])]
  }

  function Groups(marks: seq<Mark>): seq<InsertionGroup> {
    if marks == [] then [] else AddToGroups(Groups(marks[..|marks| - 1]), marks[|marks| - 1])
  }

  function MarkOf(operations: seq<ResolvedOperation>, s: OutputSegment): Mark {
    if s.PayloadSlice? && s.operationIndex < |operations|
      then Mark(operations[s.operationIndex].destinationOffset, s.operationIndex)
    else Mark(0, 0)
  }

  /** The places of a recipe's payloads, in order. */
  function Marks(operations: seq<ResolvedOperation>, payloads: seq<OutputSegment>): (r: seq<Mark>)
    ensures |r| == |payloads| && forall i | 0 <= i < |r| :: r[i] == MarkOf(operations, payloads[i])
  {
    seq(|payloads|, i requires 0 <= i < |payloads| => MarkOf(operations, payloads[i]))
  }

  lemma GroupsSnoc(marks: seq<Mark>, last: Mark)
    ensures Groups(marks + [last]) == AddToGroups(Groups(marks), last)
  {
    assert (marks + [last])[..|marks|] == marks;
  }

  /** The operation of a payload slice is an effectful insertion into the path. */
  predicate IsInsertion(operations: seq<ResolvedOperation>, path: string, index: nat) {
    && index < |operations|
    && operations[index].operationIndex == index
    && operations[index].effect == Changed
    && operations[index].destinationPath == path
  }

  // ----- which outputs can be reviewed

  predicate ReviewableSegment(files: Files, operations: seq<ResolvedOperation>, path: string, s: OutputSegment) {
    && s.fileId in files
    && s.range.start <= s.range.end <= |files[s.fileId].bytes|
    && (s.PayloadSlice? ==> IsInsertion(operations, path, s.operationIndex))
  }

  predicate ReviewableSegments(
    files: Files, operations: seq<ResolvedOperation>, path: string, segments: seq<OutputSegment>)
  {
    forall i | 0 <= i < |segments| :: ReviewableSegment(files, operations, path, segments[i])
  }

  /** What the fold has seen: the metrics of the bytes so far and the groups so far. */
  ghost predicate Reviewed(
    files: Files, operations: seq<ResolvedOperation>, path: string, segments: seq<OutputSegment>, metrics: LineMetrics,
    groups: seq<InsertionGroup>)
  {
    && ReviewableSegments(files, operations, path, segments)
    && metrics == Metrics(RecipeBytes(files, segments))
    && groups == Groups(Marks(operations, Payloads(segments)))
  }

  lemma MetricsOneMore(files: Files, segments: seq<OutputSegment>, last: OutputSegment)
    ensures Append(Metrics(RecipeBytes(files, segments)), Metrics(SegmentBytes(files, last))) ==
            if Countable(RecipeBytes(files, segments), SegmentBytes(files, last))
            then Ok(Metrics(RecipeBytes(files, segments + [last])))
            else Err(ResourceLimitExceeded("line_metric_bytes"))
  {
    RecipeSnoc(files, segments, last);
    AppendIsConcatenation(RecipeBytes(files, segments), SegmentBytes(files, last));
  }

  lemma GroupsOneMore(operations: seq<ResolvedOperation>, segments: seq<OutputSegment>, last: OutputSegment)
    ensures Groups(Marks(operations, Payloads(segments + [last]))) ==
            if last.PayloadSlice?
              then AddToGroups(Groups(Marks(operations, Payloads(segments))), MarkOf(operations, last))
            else Groups(Marks(operations, Payloads(segments)))
  {
    PayloadsSnoc(segments, last);
    if last.PayloadSlice? {
      GroupsSnoc(Marks(operations, Payloads(segments)), MarkOf(operations, last));
      assert Marks(operations, Payloads(segments) + [last]) ==
             Marks(operations, Payloads(segments)) + [MarkOf(operations, last)];
    } else {
      assert Payloads(segments) + [] == Payloads(segments);
    }
  }

  method ReviewSegment(
    segment: OutputSegment, files: Files, operations: seq<ResolvedOperation>, path: string, metrics: LineMetrics,
    groups: seq<InsertionGroup>, ghost segments: seq<OutputSegment>)
    returns (r: Result<(LineMetrics, seq<InsertionGroup>), string>)
    requires ValidFiles(files) && Reviewed(files, operations, path, segments, metrics, groups)
    ensures r.Ok? <==>
              && ReviewableSegment(files, operations, path, segment)
              && Countable(RecipeBytes(files, segments), SegmentBytes(files, segment))
    ensures r.Ok? ==> Reviewed(files, operations, path, segments + [segment], r.value.0, r.value.1)
  {
    if segment.fileId !in files {
      return Err("review_segment_snapshot_file");
    }
    var file := files[segment.fileId];
    LengthIsIndexed(file.lineIndex, file.bytes);
    var segmentMetrics := MetricsForRange(file.lineIndex, file.bytes, segment.range.start, segment.range.end);
    if segmentMetrics.Err? {
      return Err("line_metrics_range");
    }
    if segment.PayloadSlice? {
      if segment.operationIndex >= |operations| {
        return Err("review_segment_operation_index");
      }
      var operation := operations[segment.operationIndex];
      if operation.operationIndex != segment.operationIndex || operation.effect != Changed
         || operation.destinationPath != path
      {
        return Err("review_effectful_insertion");
      }
    }
    MetricsOneMore(files, segments, segment);
    GroupsOneMore(operations, segments, segment);
    var more := Append(metrics, segmentMetrics.value);
    if more.Err? {
      return Err("line_metric_bytes");
    }
    if segment.OriginalSlice? {
      return Ok((more.value, groups));
    }
    var mark := Mark(operations[segment.operationIndex].destinationOffset, segment.operationIndex);
    return Ok((more.value, AddToGroups(groups, mark)));
  }

  /** A recipe's first segments are no longer than all of them. */
  lemma LengthGrows(files: Files, segments: seq<OutputSegment>, i: nat)
    requires i < |segments|
    ensures |RecipeBytes(files, segments[..i])| + |SegmentBytes(files, segments[i])| <= |RecipeBytes(files, segments)|
  {
    RecipeSnoc(files, segments[..i], segments[i]);
    assert segments == segments[..i] + [segments[i]] + segments[i + 1..];
    RecipeAppend(files, segments[..i] + [segments[i]], segments[i + 1..]);
  }

  /** The line count after the change is that of the materialised output, although no output is materialised. */
  method BuildReviewOutput(out: PlannedOutput, s: WorkspaceSnapshot, operations: seq<ResolvedOperation>, files: Files)
    returns (r: Result<OutputReview, string>)
    requires ValidSnapshot(s) && ValidFiles(files)
    requires out.resultingLength < U64  // a 64-bit field
    ensures r.Ok? <==>
              && ReviewableSegments(files, operations, out.path, out.segments)
              && |RecipeBytes(files, out.segments)| == out.resultingLength
    ensures r.Ok? ==> r.value.afterLines == LineCount(Metrics(RecipeBytes(files, out.segments)))
    ensures r.Ok? ==> r.value.beforeLines.Some? == Manifests.FindFile(s.files, out.path).Some?
    ensures r.Ok? && r.value.beforeLines.Some? ==>
              r.value.beforeLines.value == LineCount(Metrics(Manifests.FindFile(s.files, out.path).value.bytes))
    ensures r.Ok? ==> r.value.groups == Groups(Marks(operations, Payloads(out.segments)))
  {
    var original := Manifests.FindFile(s.files, out.path);
    var beforeLines := None;
    if original.Some? {
      IndexCountsLines(original.value.lineIndex, original.value.bytes);
      beforeLines := Some(|original.value.lineIndex.boundaries|);
    }
    var metrics, groups := EMPTY_METRICS, [];
    for i := 0 to |out.segments|
      invariant Reviewed(files, operations, out.path, out.segments[..i], metrics, groups)
    {
      var next := ReviewSegment(out.segments[i], files, operations, out.path, metrics, groups, out.segments[..i]);
      assert out.segments[..i + 1] == out.segments[..i] + [out.segments[i]];
      if next.Err? {
        LengthGrows(files, out.segments, i);
        return Err(next.error);
      }
      metrics, groups := next.value.0, next.value.1;
    }
    assert out.segments[..|out.segments|] == out.segments;
    if metrics.byteCount != out.resultingLength {
      return Err("review_output_recipe_length");
    }
    return Ok(OutputReview(beforeLines, LineCount(metrics), groups));
  }

  // ----- every planned output can be reviewed, and its groups are its insertions by place

  function Indexes(insertions: seq<Insertion>): (r: seq<nat>)
    ensures |r| == |insertions| && forall i | 0 <= i < |r| :: r[i] == insertions[i].operationIndex
  {
    seq(|insertions|, i requires 0 <= i < |insertions| => insertions[i].operationIndex)
  }

  /** One group per offset with insertions, in order of offset. */
  function GroupsBefore(insertions: seq<Placed>, k: nat): seq<InsertionGroup> {
    if k == 0 then []
    else
      var here := InsertedAt(insertions, k - 1);
      WithGroup(GroupsBefore(insertions, k - 1), k - 1, Indexes(here))
  }

  /** Every insertion is one of the operations, at its own place. */
  ghost predicate Sourced(operations: seq<ResolvedOperation>, path: string, insertions: seq<Placed>) {
    forall i | 0 <= i < |insertions| ::
      && IsInsertion(operations, path, insertions[i].insertion.operationIndex)
      && operations[insertions[i].insertion.operationIndex].destinationOffset == insertions[i].offset
  }

  lemma {:induction false} InsertionsAreSourced(
    states: States, operations: seq<Operation>, records: seq<ResolvedOperation>, rs: seq<Resolution>, path: string,
    n: nat)
    requires |records| == |rs| == |operations| && RecordsFor(records, operations, rs) && n <= |rs|
    requires forall k | 0 <= k < |rs| :: ResolveOperation(states, operations[k]) == Ok(rs[k])
    ensures Sourced(records, path, InsertionsFor(rs[..n], path))
  {
    if n > 0 {
      InsertionsAreSourced(states, operations, records, rs, path, n - 1);
      assert rs[..n][..n - 1] == rs[..n - 1];
      assert records[n - 1] == ResolvedRecord(operations[n - 1], rs[n - 1], n - 1);
    }
  }

  lemma {:induction false} InsertedAreSourced(
    operations: seq<ResolvedOperation>, path: string, insertions: seq<Placed>, k: nat)
    requires Sourced(operations, path, insertions)
    ensures forall x | x in InsertedAt(insertions, k) ::
              IsInsertion(operations, path, x.operationIndex) && operations[x.operationIndex].destinationOffset == k
  {
    if insertions != [] {
      InsertedAreSourced(operations, path, insertions[..|insertions| - 1], k);
    }
  }

  lemma {:induction false} PayloadsBeforeAreSourced(
    operations: seq<ResolvedOperation>, path: string, insertions: seq<Placed>, k: nat)
    requires Sourced(operations, path, insertions)
    ensures forall s | s in PayloadsBefore(insertions, k) ::
              s.PayloadSlice? && IsInsertion(operations, path, s.operationIndex)
  {
    if k > 0 {
      PayloadsBeforeAreSourced(operations, path, insertions, k - 1);
      InsertedAreSourced(operations, path, insertions, k - 1);
      var here := InsertedAt(insertions, k - 1);
      forall s | s in Slices(here) ensures s.PayloadSlice? && IsInsertion(operations, path, s.operationIndex) {
        var i :| 0 <= i < |here| && Slices(here)[i] == s;
        assert here[i] in here;
      }
    }
  }

  lemma {:induction false} GroupsAreEarlier(insertions: seq<Placed>, k: nat)
    ensures var groups := GroupsBefore(insertions, k); groups != [] ==> groups[|groups| - 1].offset < k
  {
    if k > 0 {
      GroupsAreEarlier(insertions, k - 1);
    }
  }

  function MarksAt(k: nat, indexes: seq<nat>): (r: seq<Mark>)
    ensures |r| == |indexes| && forall i | 0 <= i < |r| :: r[i] == Mark(k, indexes[i])
  {
    seq(|indexes|, i requires 0 <= i < |indexes| => Mark(k, indexes[i]))
  }

  /** The groups with one more for the insertions at a place, if any. */
  function WithGroup(groups: seq<InsertionGroup>, k: nat, indexes: seq<nat>): seq<InsertionGroup> {
    if indexes == [] then groups else groups + [InsertionGroup(k, indexes)]
  }

  lemma JoinGroup(groups: seq<InsertionGroup>, k: nat, indexes: seq<nat>, index: nat)
    requires groups != [] ==> groups[|groups| - 1].offset < k
    ensures AddToGroups(WithGroup(groups, k, indexes), Mark(k, index)) == WithGroup(groups, k, indexes + [index])
  {
    if indexes != [] {
      var more := groups + [InsertionGroup(k, indexes)];
      assert more[..|more| - 1] == groups;
    } else {
      assert indexes + [index] == [index];
    }
  }

  /** Insertions at one place make one group. */
  lemma {:induction false} OneGroup(marks: seq<Mark>, groups: seq<InsertionGroup>, k: nat, indexes: seq<nat>)
    requires groups == Groups(marks) && (groups != [] ==> groups[|groups| - 1].offset < k)
    ensures Groups(marks + MarksAt(k, indexes)) == WithGroup(groups, k, indexes)
  {
    if indexes == [] {
      assert marks + MarksAt(k, indexes) == marks;
    } else {
      var n := |indexes| - 1;
      OneGroup(marks, groups, k, indexes[..n]);
      JoinGroup(groups, k, indexes[..n], indexes[n]);
      GroupsSnoc(marks + MarksAt(k, indexes[..n]), Mark(k, indexes[n]));
      MarksAtSnoc(marks, k, indexes);
    }
  }

  lemma MarksAtSnoc(marks: seq<Mark>, k: nat, indexes: seq<nat>)
    requires indexes != []
    ensures var n := |indexes| - 1;
            && indexes == indexes[..n] + [indexes[n]]
            && marks + MarksAt(k, indexes) == marks + MarksAt(k, indexes[..n]) + [Mark(k, indexes[n])]
  {
  }

  lemma MarksAppend(operations: seq<ResolvedOperation>, a: seq<OutputSegment>, b: seq<OutputSegment>)
    ensures Marks(operations, a + b) == Marks(operations, a) + Marks(operations, b)
  {
  }

  lemma MarksOfSlices(operations: seq<ResolvedOperation>, path: string, insertions: seq<Placed>, k: nat)
    requires Sourced(operations, path, insertions)
    ensures Marks(operations, Slices(InsertedAt(insertions, k))) == MarksAt(k, Indexes(InsertedAt(insertions, k)))
  {
    InsertedAreSourced(operations, path, insertions, k);
    var here := InsertedAt(insertions, k);
    forall i | 0 <= i < |here| ensures Marks(operations, Slices(here))[i] == Mark(k, here[i].operationIndex) {
      assert here[i] in here;
    }
  }

  /** The payloads at one more place make at most one more group. */
  lemma GroupsStep(
    operations: seq<ResolvedOperation>, before: seq<OutputSegment>, slices: seq<OutputSegment>,
    groups: seq<InsertionGroup>, k: nat, indexes: seq<nat>)
    requires Groups(Marks(operations, before)) == groups && (groups != [] ==> groups[|groups| - 1].offset < k)
    requires Marks(operations, slices) == MarksAt(k, indexes)
    ensures Groups(Marks(operations, before + slices)) == WithGroup(groups, k, indexes)
  {
    OneGroup(Marks(operations, before), groups, k, indexes);
    MarksAppend(operations, before, slices);
  }

  /** What one place with its insertions adds. */
  lemma PlaceStep(
    operations: seq<ResolvedOperation>, path: string, insertions: seq<Placed>, k: nat, groups: seq<InsertionGroup>)
    requires Sourced(operations, path, insertions)
    requires Groups(Marks(operations, PayloadsBefore(insertions, k))) == groups
    requires groups != [] ==> groups[|groups| - 1].offset < k
    ensures Groups(Marks(operations, PayloadsBefore(insertions, k + 1))) ==
            WithGroup(groups, k, Indexes(InsertedAt(insertions, k)))
  {
    MarksOfSlices(operations, path, insertions, k);
    var before, here := PayloadsBefore(insertions, k), InsertedAt(insertions, k);
    GroupsStep(operations, before, Slices(here), groups, k, Indexes(here));
  }

  lemma {:induction false} GroupsByPlace(
    operations: seq<ResolvedOperation>, path: string, insertions: seq<Placed>, k: nat)
    requires Sourced(operations, path, insertions)
    ensures Groups(Marks(operations, PayloadsBefore(insertions, k))) == GroupsBefore(insertions, k)
  {
    if k == 0 {
      assert Marks(operations, []) == [];
      return;
    }
    var j: nat, groups := k - 1, GroupsBefore(insertions, k - 1);
    GroupsByPlace(operations, path, insertions, j);
    GroupsAreEarlier(insertions, j);
    PlaceStep(operations, path, insertions, j, groups);
    assert GroupsBefore(insertions, k) == WithGroup(groups, j, Indexes(InsertedAt(insertions, j)));
  }

  lemma {:induction false} PayloadOf(segments: seq<OutputSegment>, i: nat)
    requires i < |segments| && segments[i].PayloadSlice?
    ensures segments[i] in Payloads(segments)
  {
    if i < |segments| - 1 {
      PayloadOf(segments[..|segments| - 1], i);
    }
  }

  /** The review of every planned output succeeds, and groups its insertions by offset, in order. */
  lemma PlannedOutputsAreReviewable(
    states: States, files: Files, operations: seq<Operation>, records: seq<ResolvedOperation>, rs: seq<Resolution>,
    out: PlannedOutput)
    requires |records| == |rs| == |operations| && RecordsFor(records, operations, rs)
    requires forall k | 0 <= k < |rs| :: ResolveOperation(states, operations[k]) == Ok(rs[k])
    requires out.path in states && OutputFor(files, states[out.path], rs, out)
    ensures ReviewableSegments(files, records, out.path, out.segments)
            && |RecipeBytes(files, out.segments)| == out.resultingLength
    ensures Groups(Marks(records, Payloads(out.segments))) ==
            GroupsBefore(InsertionsFor(rs, out.path), |OriginalOf(states[out.path])| + 1)
  {
    var insertions, n := InsertionsFor(rs, out.path), |OriginalOf(states[out.path])| + 1;
    InsertionsAreSourced(states, operations, records, rs, out.path, |rs|);
    assert rs[..|rs|] == rs;
    GroupsByPlace(records, out.path, insertions, n);
    PayloadsBeforeAreSourced(records, out.path, insertions, n);
    forall i | 0 <= i < |out.segments| ensures ReviewableSegment(files, records, out.path, out.segments[i]) {
      assert out.segments[i] in out.segments;
      if out.segments[i].PayloadSlice? {
        PayloadOf(out.segments, i);
      }
    }
  }
}
