/** What equal plan digests mean, and what they do not depend on. */
module PlanIdentity {
  import opened Common
  import opened Order
  import opened Plan
  import opened PlanRecord
  import opened PlanEncoder
  import opened Cbor
  import Utf8
  import Planner

  /** The ASCII bytes of "SRCMV-PLAN-V1" and a zero. */
  const DOMAIN_PREFIX: Bytes := [83, 82, 67, 77, 86, 45, 80, 76, 65, 78, 45, 86, 49, 0]

  method PlanDigest(s: WorkspaceSnapshot, p: EditPlan) returns (r: Result<Digest, PlanError>)
    requires Fits(ViewOf(s, p))
    ensures r.Ok? <==> Encodable(s, p)
    ensures r.Ok? ==> Valid(RecordItem(ViewOf(s, p))) && r.value == DigestOf(ViewOf(s, p))
  {
    var record := EncodePlanRecord(s, p);
    if record.Err? {
      return Err(record.error);
    }
    return Ok(Hash(DOMAIN_PREFIX + record.value));
  }

  function DigestOf(v: RecordView): Digest
    requires Valid(RecordItem(v))
  {
    Hash(DOMAIN_PREFIX + Encode(RecordItem(v)))
  }

  lemma DomainIsNamed()
    ensures |DOMAIN_PREFIX| == |"SRCMV-PLAN-V1"| + 1 && DOMAIN_PREFIX[|DOMAIN_PREFIX| - 1] == 0
    ensures forall i | 0 <= i < |"SRCMV-PLAN-V1"| :: DOMAIN_PREFIX[i] == "SRCMV-PLAN-V1"[i] as int
  {
  }

  /** The record lists the snapshot's inputs and the plan's outputs in the order of their paths' bytes. */
  lemma RecordIsInByteOrder(s: WorkspaceSnapshot, p: EditPlan)
    ensures multiset(SortedInputs(s)) == multiset(InputsOf(s))
    ensures forall i, j | 0 <= i < j < |SortedInputs(s)| ::
              BytesLeq(Utf8.EncodeAll(PathOf(SortedInputs(s)[i])), Utf8.EncodeAll(PathOf(SortedInputs(s)[j])))
    ensures var outputs := SortBy(p.outputs, ByOutputPath);
            && multiset(outputs) == multiset(p.outputs)
            && forall i, j | 0 <= i < j < |outputs| ::
                 BytesLeq(Utf8.EncodeAll(outputs[i].path), Utf8.EncodeAll(outputs[j].path))
  {
    var inputs, outputs := SortedInputs(s), SortBy(p.outputs, ByOutputPath);
    SortedByPath(s);
    OutputsSortedByPath(p.outputs);
    forall i, j | 0 <= i < j < |inputs|
      ensures BytesLeq(Utf8.EncodeAll(PathOf(inputs[i])), Utf8.EncodeAll(PathOf(inputs[j])))
    {
      assert ByInputPath(inputs[i], inputs[j]);
      PathsInByteOrder(PathOf(inputs[i]), PathOf(inputs[j]));
    }
    forall i, j | 0 <= i < j < |outputs|
      ensures BytesLeq(Utf8.EncodeAll(outputs[i].path), Utf8.EncodeAll(outputs[j].path))
    {
      assert ByOutputPath(outputs[i], outputs[j]);
      PathsInByteOrder(outputs[i].path, outputs[j].path);
    }
  }

  // ----- the record is injective, prefix-free and shortest

  /** Decoding finds the whole record and where it ends, whatever follows. */
  lemma RecordIsRecovered(v: RecordView, rest: Bytes)
    requires Fits(v)
    ensures Valid(RecordItem(v)) && Decode(Encode(RecordItem(v)) + rest) == Some((RecordItem(v), rest))
  {
    RecordValid(v);
    RoundTrip(RecordItem(v), rest);
  }

  /** No record is a prefix of another, and each determines every field. */
  lemma RecordsArePrefixFree(v: RecordView, w: RecordView, vs: Bytes, ws: Bytes)
    requires Fits(v) && Fits(w) && Valid(RecordItem(v)) && Valid(RecordItem(w))
    requires Encode(RecordItem(v)) + vs == Encode(RecordItem(w)) + ws
    ensures v == w && vs == ws
  {
    PrefixFree(RecordItem(v), RecordItem(w), vs, ws);
    RecordInjective(v, w);
  }

  /** Equal plan digests mean equal records. */
  lemma EqualDigestsEqualRecords(v: RecordView, w: RecordView)
    requires Fits(v) && Fits(w) && Valid(RecordItem(v)) && Valid(RecordItem(w)) && DigestOf(v) == DigestOf(w)
    ensures v == w
  {
    var a, b := Encode(RecordItem(v)), Encode(RecordItem(w));
    assert a == (DOMAIN_PREFIX + a)[|DOMAIN_PREFIX|..] == (DOMAIN_PREFIX + b)[|DOMAIN_PREFIX|..] == b;
    assert a + [] == b + [];
    RecordsArePrefixFree(v, w, [], []);
  }

  /** Any bytes that decode to a record are longer than its deterministic encoding or equal to it. */
  lemma RecordIsShortest(v: RecordView, b: Bytes)
    requires Decode(b) == Some((RecordItem(v), []))
    ensures Valid(RecordItem(v))
    ensures |Encode(RecordItem(v))| < |b| || Encode(RecordItem(v)) == b
  {
    ItemIsShortest(RecordItem(v), b);
  }

  lemma ItemIsShortest(x: Item, b: Bytes)
    requires Decode(b) == Some((x, []))
    ensures Valid(x) && (|Encode(x)| < |b| || Encode(x) == b)
  {
    ShortestEncoding(b);
    assert Encode(x) + [] == Encode(x);
  }

  // ----- permutations and sequences

  lemma {:induction false} CountIsSum<S, T>(a: seq<S>, f: S -> T, y: T, hit: S -> int)
    requires forall x :: hit(x) == if f(x) == y then 1 else 0
    ensures multiset(Map(a, f))[y] == Sum(a, hit)
  {
    if a != [] {
      CountIsSum(a[1..], f, y, hit);
      assert Map(a, f) == [f(a[0])] + Map(a[1..], f);
    }
  }

  lemma SameCounts<T>(a: multiset<T>, b: multiset<T>)
    requires forall y | y in a || y in b :: a[y] == b[y]
    ensures a == b
  {
  }

  lemma PermutedMap<S, T>(a: seq<S>, b: seq<S>, f: S -> T)
    requires multiset(a) == multiset(b)
    ensures multiset(Map(a, f)) == multiset(Map(b, f))
  {
    var ma, mb := multiset(Map(a, f)), multiset(Map(b, f));
    forall y | y in ma || y in mb ensures ma[y] == mb[y] {
      var hit := x => if f(x) == y then 1 else 0;
      CountIsSum(a, f, y, hit);
      CountIsSum(b, f, y, hit);
      SumPermuted(a, b, hit);
    }
    SameCounts(ma, mb);
  }

  lemma SortedByPath(s: WorkspaceSnapshot)
    ensures SortedBy(SortedInputs(s), ByInputPath) && multiset(SortedInputs(s)) == multiset(InputsOf(s))
  {
    forall a, b ensures ByInputPath(a, b) || ByInputPath(b, a) {
      PathLeqTotal(PathOf(a), PathOf(b));
    }
    forall a, b, c | ByInputPath(a, b) && ByInputPath(b, c) ensures ByInputPath(a, c) {
      PathLeqTransitive(PathOf(a), PathOf(b), PathOf(c));
    }
    SortBySorted(InputsOf(s), ByInputPath);
  }

  lemma OutputsSortedByPath(outputs: seq<PlannedOutput>)
    ensures SortedBy(SortBy(outputs, ByOutputPath), ByOutputPath)
  {
    forall a, b ensures ByOutputPath(a, b) || ByOutputPath(b, a) {
      PathLeqTotal(a.path, b.path);
    }
    forall a, b, c | ByOutputPath(a, b) && ByOutputPath(b, c) ensures ByOutputPath(a, c) {
      PathLeqTransitive(a.path, b.path, c.path);
    }
    SortBySorted(outputs, ByOutputPath);
  }

  /** Equivalent elements are equal. */
  ghost predicate Strict<T(!new)>(a: seq<T>, leq: (T, T) -> bool) {
    forall x, y | x in a && y in a && leq(x, y) && leq(y, x) :: x == y
  }

  /** A map that keeps the order turns the sorted list into the sorted list. */
  lemma SortedMap<T(!new)>(a: seq<T>, b: seq<T>, f: T -> T, leq: (T, T) -> bool)
    requires SortedBy(a, leq) && SortedBy(b, leq) && Strict(a, leq) && multiset(b) == multiset(Map(a, f))
    requires forall x, y :: leq(f(x), f(y)) == leq(x, y)
    ensures b == Map(a, f)
  {
    var c := Map(a, f);
    forall i, j | 0 <= i < j < |c| ensures leq(c[i], c[j]) {
      assert leq(a[i], a[j]);
    }
    forall x, y | x in c && y in c && leq(x, y) && leq(y, x) ensures x == y {
      var i, j :| 0 <= i < |a| && 0 <= j < |a| && x == c[i] && y == c[j];
      assert leq(f(a[i]), f(a[j])) && leq(f(a[j]), f(a[i]));
    }
    SortedIsUnique(c, b, leq);
  }

  // ----- renumbering files

  type Numbering = nat -> nat

  function RenumberedInput(r: InputRecord, n: Numbering): InputRecord {
    match r case ExistingRecord(f) => ExistingRecord(f.(id := n(f.id))) case AbsentRecord(_) => r
  }

  function RenumberedSegment(s: OutputSegment, n: Numbering): OutputSegment {
    match s
    case OriginalSlice(id, range) => OriginalSlice(n(id), range)
    case PayloadSlice(operationIndex, id, range, digest) => PayloadSlice(operationIndex, n(id), range, digest)
  }

  function RenumberedOutput(out: PlannedOutput, n: Numbering): PlannedOutput {
    out.(segments := Map(out.segments, s => RenumberedSegment(s, n)))
  }

  function RenumberedInputs(inputs: seq<InputRecord>, n: Numbering): seq<InputRecord> {
    Map(inputs, r => RenumberedInput(r, n))
  }

  function RenumberedOutputs(outputs: seq<PlannedOutput>, n: Numbering): seq<PlannedOutput> {
    Map(outputs, out => RenumberedOutput(out, n))
  }

  ghost predicate Injective(n: Numbering) {
    forall a, b | n(a) == n(b) :: a == b
  }

  /** The same snapshot and plan, listed in another order and with files numbered differently. */
  ghost predicate SameUpToNumbering(
    s: WorkspaceSnapshot, p: EditPlan, s': WorkspaceSnapshot, p': EditPlan, n: Numbering)
  {
    && s'.workspaceIdentity == s.workspaceIdentity
    && multiset(InputsOf(s')) == multiset(RenumberedInputs(InputsOf(s), n))
    && p'.operations == p.operations
    && multiset(p'.outputs) == multiset(RenumberedOutputs(p.outputs, n))
  }

  ghost predicate DistinctInputPaths(inputs: seq<InputRecord>) {
    forall x, y | x in inputs && y in inputs && PathOf(x) == PathOf(y) :: x == y
  }

  ghost predicate DistinctOutputPaths(outputs: seq<PlannedOutput>) {
    forall x, y | x in outputs && y in outputs && x.path == y.path :: x == y
  }

  lemma InputsStrict(sorted: seq<InputRecord>, inputs: seq<InputRecord>)
    requires multiset(sorted) == multiset(inputs) && DistinctInputPaths(inputs)
    ensures Strict(sorted, ByInputPath)
  {
    SameElements(sorted, inputs);
    forall x, y | x in sorted && y in sorted && ByInputPath(x, y) && ByInputPath(y, x) ensures x == y {
      PathLeqTotal(PathOf(x), PathOf(y));
    }
  }

  /** Sorting forgets the order of the lists and keeps the renumbering. */
  lemma SortedInputsRenumbered(s: WorkspaceSnapshot, s': WorkspaceSnapshot, n: Numbering)
    requires multiset(InputsOf(s')) == multiset(RenumberedInputs(InputsOf(s), n))
    requires DistinctInputPaths(InputsOf(s))
    ensures SortedInputs(s') == RenumberedInputs(SortedInputs(s), n)
  {
    var f := r => RenumberedInput(r, n);
    SortedByPath(s);
    SortedByPath(s');
    InputsStrict(SortedInputs(s), InputsOf(s));
    PermutedMap(SortedInputs(s), InputsOf(s), f);
    assert RenumberedInputs(InputsOf(s), n) == Map(InputsOf(s), f);
    SortedMap(SortedInputs(s), SortedInputs(s'), f, ByInputPath);
    assert RenumberedInputs(SortedInputs(s), n) == Map(SortedInputs(s), f);
  }

  lemma OutputsStrict(sorted: seq<PlannedOutput>, outputs: seq<PlannedOutput>)
    requires multiset(sorted) == multiset(outputs) && DistinctOutputPaths(outputs)
    ensures Strict(sorted, ByOutputPath)
  {
    SameElements(sorted, outputs);
    forall x, y | x in sorted && y in sorted && ByOutputPath(x, y) && ByOutputPath(y, x) ensures x == y {
      PathLeqTotal(x.path, y.path);
    }
  }

  lemma SortedOutputsRenumbered(p: EditPlan, p': EditPlan, n: Numbering)
    requires multiset(p'.outputs) == multiset(RenumberedOutputs(p.outputs, n))
    requires DistinctOutputPaths(p.outputs)
    ensures SortBy(p'.outputs, ByOutputPath) == RenumberedOutputs(SortBy(p.outputs, ByOutputPath), n)
  {
    var sorted := SortBy(p.outputs, ByOutputPath);
    var f := out => RenumberedOutput(out, n);
    OutputsSortedByPath(p.outputs);
    OutputsSortedByPath(p'.outputs);
    OutputsStrict(sorted, p.outputs);
    PermutedMap(sorted, p.outputs, f);
    assert RenumberedOutputs(p.outputs, n) == Map(p.outputs, f);
    SortedMap(sorted, SortBy(p'.outputs, ByOutputPath), f, ByOutputPath);
    assert RenumberedOutputs(sorted, n) == Map(sorted, f);
  }

  lemma {:induction false} IndexRenumbered(inputs: seq<InputRecord>, n: Numbering, id: nat)
    requires Injective(n)
    ensures IndexOf(RenumberedInputs(inputs, n), n(id)) == IndexOf(inputs, id)
  {
    if inputs != [] {
      var renamed := RenumberedInputs(inputs, n);
      assert renamed[0] == RenumberedInput(inputs[0], n) && renamed[1..] == RenumberedInputs(inputs[1..], n);
      assert HasId(renamed[0], n(id)) <==> HasId(inputs[0], id);
      IndexRenumbered(inputs[1..], n, id);
    }
  }

  lemma OutputViewRenumbered(inputs: seq<InputRecord>, out: PlannedOutput, n: Numbering)
    requires Injective(n)
    ensures ViewOfOutput(RenumberedInputs(inputs, n), RenumberedOutput(out, n)) == ViewOfOutput(inputs, out)
    ensures KnownSegments(RenumberedInputs(inputs, n), RenumberedOutput(out, n)) <==> KnownSegments(inputs, out)
  {
    var renamed, inputs' := RenumberedOutput(out, n), RenumberedInputs(inputs, n);
    forall i | 0 <= i < |out.segments|
      ensures ViewOfSegment(inputs', renamed.segments[i]) == ViewOfSegment(inputs, out.segments[i])
      ensures IndexOf(inputs', renamed.segments[i].fileId) == IndexOf(inputs, out.segments[i].fileId)
    {
      IndexRenumbered(inputs, n, out.segments[i].fileId);
    }
    assert ViewOfSegments(inputs', renamed.segments) == ViewOfSegments(inputs, out.segments);
    forall s | s in out.segments && KnownSegments(inputs', renamed) ensures IndexOf(inputs, s.fileId).Some? {
      var i :| 0 <= i < |out.segments| && out.segments[i] == s;
      assert renamed.segments[i] in renamed.segments;
    }
    forall s | s in renamed.segments && KnownSegments(inputs, out) ensures IndexOf(inputs', s.fileId).Some? {
      var i :| 0 <= i < |out.segments| && renamed.segments[i] == s;
      assert out.segments[i] in out.segments;
    }
  }

  /** Neither the order of the snapshot's and the plan's lists nor the numbering of files enters the record. */
  lemma RecordIgnoresNumbering(s: WorkspaceSnapshot, p: EditPlan, s': WorkspaceSnapshot, p': EditPlan, n: Numbering)
    requires SameUpToNumbering(s, p, s', p', n) && Injective(n)
    requires DistinctInputPaths(InputsOf(s)) && DistinctOutputPaths(p.outputs)
    ensures ViewOf(s', p') == ViewOf(s, p)
  {
    SortedInputsRenumbered(s, s', n);
    SortedOutputsRenumbered(p, p', n);
    var inputs, inputs' := SortedInputs(s), SortedInputs(s');
    var outputs, outputs' := SortBy(p.outputs, ByOutputPath), SortBy(p'.outputs, ByOutputPath);
    assert Map(inputs', ViewOfInput) == Map(inputs, ViewOfInput);
    forall i | 0 <= i < |outputs| ensures ViewOfOutput(inputs', outputs'[i]) == ViewOfOutput(inputs, outputs[i]) {
      OutputViewRenumbered(inputs, outputs[i], n);
    }
    assert ViewOfOutputs(inputs', outputs') == ViewOfOutputs(inputs, outputs);
  }

  lemma KnownSegmentsRenumbered(inputs: seq<InputRecord>, outputs: seq<PlannedOutput>, n: Numbering)
    requires Injective(n)
    ensures (forall out | out in RenumberedOutputs(outputs, n) :: KnownSegments(RenumberedInputs(inputs, n), out)) <==>
            (forall out | out in outputs :: KnownSegments(inputs, out))
  {
    var inputs', outputs' := RenumberedInputs(inputs, n), RenumberedOutputs(outputs, n);
    forall i | 0 <= i < |outputs| ensures KnownSegments(inputs', outputs'[i]) <==> KnownSegments(inputs, outputs[i]) {
      OutputViewRenumbered(inputs, outputs[i], n);
    }
    if forall out | out in outputs :: KnownSegments(inputs, out) {
      forall out | out in outputs' ensures KnownSegments(inputs', out) {
        var i :| 0 <= i < |outputs'| && outputs'[i] == out;
        assert outputs[i] in outputs;
      }
    }
    if forall out | out in outputs' :: KnownSegments(inputs', out) {
      forall out | out in outputs ensures KnownSegments(inputs, out) {
        var i :| 0 <= i < |outputs| && outputs[i] == out;
        assert outputs'[i] in outputs';
      }
    }
  }

  lemma DistinctIdsRenumbered(inputs: seq<InputRecord>, n: Numbering)
    requires Injective(n)
    ensures DistinctIds(RenumberedInputs(inputs, n)) <==> DistinctIds(inputs)
  {
    assert forall i | 0 <= i < |inputs| :: RenumberedInputs(inputs, n)[i] == RenumberedInput(inputs[i], n);
  }

  /** Nor does it matter for whether there is a record. */
  lemma EncodabilityIgnoresNumbering(
    s: WorkspaceSnapshot, p: EditPlan, s': WorkspaceSnapshot, p': EditPlan, n: Numbering)
    requires SameUpToNumbering(s, p, s', p', n) && Injective(n)
    requires DistinctInputPaths(InputsOf(s)) && DistinctOutputPaths(p.outputs)
    ensures Encodable(s', p') <==> Encodable(s, p)
  {
    SortedInputsRenumbered(s, s', n);
    DistinctIdsRenumbered(SortedInputs(s), n);
    SameElements(p'.outputs, RenumberedOutputs(p.outputs, n));
    KnownSegmentsRenumbered(SortedInputs(s), p.outputs, n);
  }

  // ----- what the record says about the files

  /** The bytes that a recorded segment denotes, from the record alone. */
  function RecordedSegment(inputs: seq<InputView>, v: SegmentView): Bytes {
    if v.input < |inputs| && inputs[v.input].ExistingInput? then Slice(inputs[v.input].digest.preimage, v.range) else []
  }

  function RecordedBytes(inputs: seq<InputView>, segments: seq<SegmentView>): Bytes {
    if segments == [] then []
    else RecordedBytes(inputs, segments[..|segments| - 1]) + RecordedSegment(inputs, segments[|segments| - 1])
  }

  ghost predicate HasFiles(inputs: seq<InputRecord>, files: Files) {
    forall r | r in inputs && r.ExistingRecord? ::
      r.file.id in files && files[r.file.id] == r.file && r.file.digest == Hash(r.file.bytes)
  }

  lemma SortedInputsHaveFiles(s: WorkspaceSnapshot)
    requires Planner.Indexed(s, Planner.StatesOf(s), Planner.FilesOf(s))
    ensures HasFiles(SortedInputs(s), Planner.FilesOf(s))
  {
    SameElements(SortedInputs(s), InputsOf(s));
    forall r | r in SortedInputs(s) && r.ExistingRecord?
      ensures r.file in s.files
    {
      var i :| 0 <= i < |InputsOf(s)| && InputsOf(s)[i] == r;
      assert i < |s.files|;
    }
  }

  lemma {:induction false} RecordedBytesAreRecipeBytes(
    inputs: seq<InputRecord>, files: Files, segments: seq<OutputSegment>)
    requires HasFiles(inputs, files) && forall s | s in segments :: IndexOf(inputs, s.fileId).Some?
    ensures RecordedBytes(Map(inputs, ViewOfInput), ViewOfSegments(inputs, segments)) == RecipeBytes(files, segments)
  {
    if segments != [] {
      var n := |segments| - 1;
      RecordedBytesAreRecipeBytes(inputs, files, segments[..n]);
      assert ViewOfSegments(inputs, segments)[..n] == ViewOfSegments(inputs, segments[..n]);
      var last := segments[n];
      assert last in segments;
      var k := IndexOf(inputs, last.fileId).value;
      assert inputs[k] in inputs;
    }
  }

  /** The record determines the bytes of every output. */
  lemma RecordDeterminesOutput(s: WorkspaceSnapshot, p: EditPlan, i: nat)
    requires Planner.Indexed(s, Planner.StatesOf(s), Planner.FilesOf(s)) && Encodable(s, p) && i < |p.outputs|
    ensures |SortBy(p.outputs, ByOutputPath)| == |p.outputs| == |ViewOf(s, p).outputs|
    ensures var out, v := SortBy(p.outputs, ByOutputPath)[i], ViewOf(s, p);
            && out.path == v.outputs[i].path
            && RecipeBytes(Planner.FilesOf(s), out.segments) == RecordedBytes(v.inputs, v.outputs[i].segments)
  {
    var sorted := SortBy(p.outputs, ByOutputPath);
    assert |multiset(sorted)| == |sorted| && |multiset(p.outputs)| == |p.outputs|;
    SortedHasSameElements(p.outputs);
    assert sorted[i] in sorted;
    SortedInputsHaveFiles(s);
    RecordedBytesAreRecipeBytes(SortedInputs(s), Planner.FilesOf(s), sorted[i].segments);
  }

  /** What expecting a plan by its digest guarantees: two plans with the same digest have the same operations
      and describe the same files at the same paths, wherever their snapshots came from. */
  lemma EqualDigestsSameFiles(s: WorkspaceSnapshot, p: EditPlan, s': WorkspaceSnapshot, p': EditPlan, i: nat)
    requires Planner.Indexed(s, Planner.StatesOf(s), Planner.FilesOf(s)) && Encodable(s, p) && Fits(ViewOf(s, p))
    requires Planner.Indexed(s', Planner.StatesOf(s'), Planner.FilesOf(s')) && Encodable(s', p') && Fits(ViewOf(s', p'))
    requires Valid(RecordItem(ViewOf(s, p))) && Valid(RecordItem(ViewOf(s', p')))
    requires DigestOf(ViewOf(s, p)) == DigestOf(ViewOf(s', p')) && i < |p.outputs|
    ensures s.workspaceIdentity == s'.workspaceIdentity && p.operations == p'.operations && |p.outputs| == |p'.outputs|
    ensures |SortBy(p.outputs, ByOutputPath)| == |p.outputs| && |SortBy(p'.outputs, ByOutputPath)| == |p'.outputs|
    ensures var out, out' := SortBy(p.outputs, ByOutputPath)[i], SortBy(p'.outputs, ByOutputPath)[i];
            && out.path == out'.path
            && RecipeBytes(Planner.FilesOf(s), out.segments) == RecipeBytes(Planner.FilesOf(s'), out'.segments)
  {
    EqualDigestsEqualRecords(ViewOf(s, p), ViewOf(s', p'));
    RecordDeterminesOutput(s, p, i);
    SameLength(p'.outputs);
    RecordDeterminesOutput(s', p', i);
  }

  lemma SameLength(outputs: seq<PlannedOutput>)
    ensures |SortBy(outputs, ByOutputPath)| == |outputs|
  {
    var sorted := SortBy(outputs, ByOutputPath);
    assert |multiset(sorted)| == |sorted| && |multiset(outputs)| == |outputs|;
  }
}
