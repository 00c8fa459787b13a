/** One output file: conflict checks and the sweep over event points. */
module Sweep {
  import opened Common
  import opened Order
  import opened Plan

  datatype Insertion = Insertion(operationIndex: nat, fileId: nat, range: ByteRange, payloadDigest: Digest)

  datatype Deletion = Deletion(operationIndex: nat, range: ByteRange)

  /** An insertion and the original offset it goes to. */
  datatype Placed = Placed(offset: nat, insertion: Insertion)

  datatype OutputEdits = OutputEdits(
    path: string, existingFileId: Option<nat>, originalLength: nat, originalDigest: Option<Digest>,
    deletions: seq<Deletion>, insertions: seq<Placed>)

  // ----- the edited file, said offset by offset

  predicate Covers(d: Deletion, k: nat) {
    d.range.start <= k < d.range.end
  }

  predicate DeletedAt(deletions: seq<Deletion>, k: nat) {
    exists i | 0 <= i < |deletions| :: Covers(deletions[i], k)
  }

  /** The payloads inserted at an offset, in list order. */
  function PayloadsAt(files: Files, insertions: seq<Placed>, k: nat): Bytes {
    if insertions == [] then []
    else
      var rest, last := insertions[..|insertions| - 1], insertions[|insertions| - 1];
      PayloadsAt(files, rest, k)
      + if last.offset == k then RangeBytes(files, last.insertion.fileId, last.insertion.range) else []
  }

  function Kept(original: Bytes, deletions: seq<Deletion>, k: nat): Bytes
    requires k < |original|
  {
    if DeletedAt(deletions, k) then [] else [original[k]]
  }

  /** What the offsets before `k` contribute: the payloads inserted there and the byte unless deleted. */
  function EditedPrefix(files: Files, original: Bytes, deletions: seq<Deletion>, insertions: seq<Placed>, k: nat): Bytes
    requires k <= |original|
  {
    if k == 0 then []
    else
      EditedPrefix(files, original, deletions, insertions, k - 1)
      + PayloadsAt(files, insertions, k - 1)
      + Kept(original, deletions, k - 1)
  }

  /** The edited file: every offset's contribution in order, and then the insertions at the end. */
  function Edited(files: Files, original: Bytes, deletions: seq<Deletion>, insertions: seq<Placed>): Bytes {
    EditedPrefix(files, original, deletions, insertions, |original|) + PayloadsAt(files, insertions, |original|)
  }

  // ----- conflicts

  predicate Disjoint(a: ByteRange, b: ByteRange) {
    a.end <= b.start || b.end <= a.start
  }

  predicate NonEmpty(deletions: seq<Deletion>) {
    forall i | 0 <= i < |deletions| :: deletions[i].range.start < deletions[i].range.end
  }

  predicate PairwiseDisjoint(deletions: seq<Deletion>) {
    forall i, j | 0 <= i < j < |deletions| :: Disjoint(deletions[i].range, deletions[j].range)
  }

  predicate StrictlyInside(offset: nat, d: Deletion) {
    d.range.start < offset < d.range.end
  }

  predicate NoInsertionInside(deletions: seq<Deletion>, insertions: seq<Placed>) {
    forall d, p | d in deletions && p in insertions :: !StrictlyInside(p.offset, d)
  }

  predicate DeletionLeq(a: Deletion, b: Deletion) {
    || a.range.start < b.range.start
    || (a.range.start == b.range.start
        && (a.range.end < b.range.end || (a.range.end == b.range.end && a.operationIndex <= b.operationIndex)))
  }

  /** Pairwise disjointness does not depend on the order. */
  lemma DisjointPermuted(a: seq<Deletion>, b: seq<Deletion>)
    requires multiset(a) == multiset(b) && PairwiseDisjoint(a) && NonEmpty(a)
    ensures PairwiseDisjoint(b)
  {
    forall i, j | 0 <= i < j < |b| ensures Disjoint(b[i].range, b[j].range) {
      assert b[i] in multiset(a) && b[j] in multiset(a);
      var k :| 0 <= k < |a| && a[k] == b[i];
      var l :| 0 <= l < |a| && a[l] == b[j];
      if k == l {
        TwoOccurrences(b, i, j);
        OneOccurrence(a, k);
        assert false;
      }
    }
  }

  lemma TwoOccurrences(s: seq<Deletion>, i: nat, j: nat)
    requires i < j < |s| && s[i] == s[j]
    ensures multiset(s)[s[i]] >= 2
  {
    assert s == s[..i] + [s[i]] + s[i + 1..j] + [s[j]] + s[j + 1..];
  }

  lemma OneOccurrence(s: seq<Deletion>, k: nat)
    requires k < |s| && PairwiseDisjoint(s) && NonEmpty(s)
    ensures multiset(s)[s[k]] == 1
  {
    assert s == s[..k] + [s[k]] + s[k + 1..];
    assert s[k] !in s[..k];
    assert s[k] !in s[k + 1..];
  }

  lemma DeletionsAreOrdered()
    ensures TotalPreorder(DeletionLeq)
  {
  }

  predicate StartsInOrder(deletions: seq<Deletion>) {
    forall i, j | 0 <= i < j < |deletions| :: deletions[i].range.start <= deletions[j].range.start
  }

  lemma SortedStarts(deletions: seq<Deletion>)
    ensures StartsInOrder(SortBy(deletions, DeletionLeq))
  {
    var sorted := SortBy(deletions, DeletionLeq);
    DeletionsAreOrdered();
    SortBySorted(deletions, DeletionLeq);
    forall i, j | 0 <= i < j < |sorted| ensures sorted[i].range.start <= sorted[j].range.start {
      assert DeletionLeq(sorted[i], sorted[j]);
    }
  }

  lemma PermutedDeletions(a: seq<Deletion>, b: seq<Deletion>)
    requires multiset(a) == multiset(b)
    ensures forall d :: d in a <==> d in b
    ensures NonEmpty(a) ==> NonEmpty(b)
    ensures NonEmpty(a) ==> (PairwiseDisjoint(a) <==> PairwiseDisjoint(b))
  {
    SameElements(a, b);
    assert forall i | 0 <= i < |b| :: b[i] in a;
    if NonEmpty(a) && PairwiseDisjoint(a) {
      DisjointPermuted(a, b);
    }
    if NonEmpty(a) && PairwiseDisjoint(b) {
      DisjointPermuted(b, a);
    }
  }

  /** Adjacent pairs are enough once the deletions are sorted. */
  method FindOverlap(sorted: seq<Deletion>) returns (overlap: Option<Deletion>)
    requires NonEmpty(sorted)
    requires StartsInOrder(sorted)
    ensures overlap.None? <==> PairwiseDisjoint(sorted)
    ensures overlap.Some? ==> overlap.value in sorted
  {
    var index := 1;
    while index < |sorted|
      invariant 1 <= index
      invariant forall i, j | 0 <= i < j < index && j < |sorted| :: sorted[i].range.end <= sorted[j].range.start
    {
      if sorted[index].range.start < sorted[index - 1].range.end {
        assert !Disjoint(sorted[index - 1].range, sorted[index].range);
        return Some(sorted[index]);
      }
      index := index + 1;
    }
    return None;
  }

  method FindInside(deletions: seq<Deletion>, insertions: seq<Placed>) returns (inside: Option<Placed>)
    ensures inside.None? <==> NoInsertionInside(deletions, insertions)
  {
    for index := 0 to |insertions|
      invariant forall d, i | d in deletions && 0 <= i < index :: !StrictlyInside(insertions[i].offset, d)
    {
      var placed := insertions[index];
      if exists d | d in deletions :: StrictlyInside(placed.offset, d) {
        assert placed in insertions;
        return Some(placed);
      }
    }
    return None;
  }

  method ValidateEditConflicts(edits: OutputEdits) returns (r: Result<(), PlanError>)
    requires NonEmpty(edits.deletions)
    ensures r.Ok? <==> PairwiseDisjoint(edits.deletions) && NoInsertionInside(edits.deletions, edits.insertions)
  {
    var deletions := SortBy(edits.deletions, DeletionLeq);
    SortedStarts(edits.deletions);
    PermutedDeletions(edits.deletions, deletions);
    var overlap := FindOverlap(deletions);
    if overlap.Some? {
      return Err(EditConflict("overlapping_move_deletions", Some(overlap.value.operationIndex)));
    }
    var inside := FindInside(deletions, edits.insertions);
    if inside.Some? {
      return Err(EditConflict("insertion_inside_move_deletion", Some(inside.value.insertion.operationIndex)));
    }
    return Ok(());
  }

  // ----- event points

  datatype PointEvents = PointEvents(deletionEnd: bool, insertions: seq<Insertion>, deletionStart: bool)

  const NO_EVENTS := PointEvents(false, [], false)

  predicate StartsAt(deletions: seq<Deletion>, k: nat) {
    exists i | 0 <= i < |deletions| :: deletions[i].range.start == k
  }

  predicate EndsAt(deletions: seq<Deletion>, k: nat) {
    exists i | 0 <= i < |deletions| :: deletions[i].range.end == k
  }

  function InsertedAt(insertions: seq<Placed>, k: nat): seq<Insertion> {
    if insertions == [] then []
    else
      var rest, last := insertions[..|insertions| - 1], insertions[|insertions| - 1];
      InsertedAt(rest, k) + if last.offset == k then [last.insertion] else []
  }

  /** What happens at an offset. */
  function EventsAt(deletions: seq<Deletion>, insertions: seq<Placed>, k: nat): PointEvents {
    PointEvents(EndsAt(deletions, k), InsertedAt(insertions, k), StartsAt(deletions, k))
  }

  type Points = map<nat, PointEvents>

  function Entry(points: Points, k: nat): PointEvents {
    if k in points then points[k] else NO_EVENTS
  }

  /** The points are exactly the offsets with events. */
  ghost predicate Collected(points: Points, deletions: seq<Deletion>, insertions: seq<Placed>) {
    && (forall k: nat :: Entry(points, k) == EventsAt(deletions, insertions, k))
    && (forall k | k in points :: points[k] != NO_EVENTS)
  }

  predicate InOperationOrder(insertions: seq<Placed>) {
    forall i, j | 0 <= i < j < |insertions| ::
      insertions[i].insertion.operationIndex < insertions[j].insertion.operationIndex
  }

  predicate ByOperation(a: Insertion, b: Insertion) {
    a.operationIndex <= b.operationIndex
  }

  lemma {:induction false} InsertedInOrder(insertions: seq<Placed>, k: nat)
    requires InOperationOrder(insertions)
    ensures SortedBy(InsertedAt(insertions, k), ByOperation)
    ensures forall x | x in InsertedAt(insertions, k) ::
              exists i | 0 <= i < |insertions| :: insertions[i].insertion == x
  {
    if insertions != [] {
      var rest, last := insertions[..|insertions| - 1], insertions[|insertions| - 1];
      InsertedInOrder(rest, k);
      var before := InsertedAt(rest, k);
      forall i | 0 <= i < |before| ensures ByOperation(before[i], last.insertion) {
        assert before[i] in before;
        var j :| 0 <= j < |rest| && rest[j].insertion == before[i];
        assert insertions[j] == rest[j];
      }
      forall x | x in before ensures exists i | 0 <= i < |insertions| :: insertions[i].insertion == x {
        var j :| 0 <= j < |rest| && rest[j].insertion == x;
        assert insertions[j] == rest[j];
      }
      assert insertions[|insertions| - 1].insertion == last.insertion;
    }
  }

  lemma MoreDeletions(deletions: seq<Deletion>, d: Deletion, k: nat)
    ensures StartsAt(deletions + [d], k) <==> StartsAt(deletions, k) || d.range.start == k
    ensures EndsAt(deletions + [d], k) <==> EndsAt(deletions, k) || d.range.end == k
  {
    var longer := deletions + [d];
    assert longer[|deletions|] == d;
    assert forall i | 0 <= i < |deletions| :: longer[i] == deletions[i];
  }

  lemma CollectDeletion(points: Points, deletions: seq<Deletion>, d: Deletion, more: Points, most: Points)
    requires Collected(points, deletions, [])
    requires more == points[d.range.start := Entry(points, d.range.start).(deletionStart := true)]
    requires most == more[d.range.end := Entry(more, d.range.end).(deletionEnd := true)]
    ensures Collected(most, deletions + [d], [])
  {
    forall k: nat ensures Entry(most, k) == EventsAt(deletions + [d], [], k) {
      MoreDeletions(deletions, d, k);
      assert Entry(points, k) == EventsAt(deletions, [], k);
    }
  }

  lemma MoreInsertions(insertions: seq<Placed>, p: Placed, k: nat)
    ensures InsertedAt(insertions + [p], k) == InsertedAt(insertions, k) + if p.offset == k then [p.insertion] else []
  {
    assert (insertions + [p])[..|insertions|] == insertions;
  }

  lemma CollectInsertion(points: Points, deletions: seq<Deletion>, insertions: seq<Placed>, p: Placed, more: Points)
    requires Collected(points, deletions, insertions)
    requires more ==
             points[p.offset :=
               Entry(points, p.offset).(insertions := Entry(points, p.offset).insertions + [p.insertion])]
    ensures Collected(more, deletions, insertions + [p])
  {
    forall k: nat ensures Entry(more, k) == EventsAt(deletions, insertions + [p], k) {
      MoreInsertions(insertions, p, k);
      assert Entry(points, k) == EventsAt(deletions, insertions, k);
    }
  }

  method CollectDeletions(deletions: seq<Deletion>) returns (points: Points)
    ensures Collected(points, deletions, [])
  {
    points := map[];
    for index := 0 to |deletions|
      invariant Collected(points, deletions[..index], [])
    {
      var d := deletions[index];
      var started := points[d.range.start := Entry(points, d.range.start).(deletionStart := true)];
      var ended := started[d.range.end := Entry(started, d.range.end).(deletionEnd := true)];
      CollectDeletion(points, deletions[..index], d, started, ended);
      points := ended;
      assert deletions[..index + 1] == deletions[..index] + [d];
    }
    assert deletions[..|deletions|] == deletions;
  }

  method CollectInsertions(
    before: Points, ghost deletions: seq<Deletion>, insertions: seq<Placed>)
    returns (points: Points)
    requires Collected(before, deletions, [])
    ensures Collected(points, deletions, insertions)
  {
    points := before;
    for index := 0 to |insertions|
      invariant Collected(points, deletions, insertions[..index])
    {
      var p := insertions[index];
      var entry := Entry(points, p.offset);
      var more := points[p.offset := entry.(insertions := entry.insertions + [p.insertion])];
      CollectInsertion(points, deletions, insertions[..index], p, more);
      points := more;
      assert insertions[..index + 1] == insertions[..index] + [p];
    }
    assert insertions[..|insertions|] == insertions;
  }

  /** Insertions are collected in operation order, so that sorting each point's list moves nothing. */
  lemma PointsAreInOrder(points: Points, deletions: seq<Deletion>, insertions: seq<Placed>, k: nat)
    requires Collected(points, deletions, insertions) && InOperationOrder(insertions) && k in points
    ensures SortBy(points[k].insertions, ByOperation) == points[k].insertions
  {
    InsertedInOrder(insertions, k);
    assert Entry(points, k) == EventsAt(deletions, insertions, k);
    SortBySortedIsIdentity(points[k].insertions, ByOperation);
  }

  /** Fills the map of event points. */
  method CollectPoints(edits: OutputEdits) returns (points: Points)
    requires InOperationOrder(edits.insertions)
    ensures Collected(points, edits.deletions, edits.insertions)
  {
    var deletions := CollectDeletions(edits.deletions);
    var unsorted := CollectInsertions(deletions, edits.deletions, edits.insertions);
    points := map k | k in unsorted :: unsorted[k].(insertions := SortBy(unsorted[k].insertions, ByOperation));
    forall k | k in unsorted ensures points[k] == unsorted[k] {
      PointsAreInOrder(unsorted, edits.deletions, edits.insertions, k);
    }
    assert points == unsorted;
  }

  // ----- the sweep

  /** The edits of one output refer to its original and to nonempty slices of snapshot files. */
  ghost predicate WellFormed(edits: OutputEdits, files: Files, original: Bytes) {
    && |original| == edits.originalLength
    && (if edits.existingFileId.Some? then
          edits.existingFileId.value in files && files[edits.existingFileId.value].bytes == original
        else original == [])
    && NonEmpty(edits.deletions)
    && (forall i | 0 <= i < |edits.deletions| :: edits.deletions[i].range.end <= |original|)
    && InOperationOrder(edits.insertions)
    && (forall i | 0 <= i < |edits.insertions| ::
          && edits.insertions[i].offset <= |original|
          && ValidSlice(files, edits.insertions[i].insertion.fileId, edits.insertions[i].insertion.range))
  }

  predicate NoneBetween(insertions: seq<Placed>, c: int, p: nat) {
    forall i | 0 <= i < |insertions| :: !(c < insertions[i].offset < p)
  }

  /** Nothing happens strictly between two offsets. */
  predicate Quiet(deletions: seq<Deletion>, insertions: seq<Placed>, c: int, p: nat) {
    && (forall i | 0 <= i < |deletions| :: !(c < deletions[i].range.start < p) && !(c < deletions[i].range.end < p))
    && NoneBetween(insertions, c, p)
  }

  lemma NoEventsMeansQuiet(deletions: seq<Deletion>, insertions: seq<Placed>, c: int, p: nat)
    requires forall k: nat | c < k < p :: EventsAt(deletions, insertions, k) == NO_EVENTS
    ensures Quiet(deletions, insertions, c, p)
  {
    forall i | 0 <= i < |deletions| ensures !(c < deletions[i].range.start < p) && !(c < deletions[i].range.end < p) {
      assert EventsAt(deletions, insertions, deletions[i].range.start).deletionStart;
      assert EventsAt(deletions, insertions, deletions[i].range.end).deletionEnd;
    }
    forall i | 0 <= i < |insertions| ensures !(c < insertions[i].offset < p) {
      InsertedIsNonEmpty(insertions, i);
      assert EventsAt(deletions, insertions, insertions[i].offset).insertions != [];
    }
  }

  /** Whether a byte is deleted changes only at event points. */
  lemma DeletedBetween(deletions: seq<Deletion>, insertions: seq<Placed>, c: nat, k: nat, p: nat)
    requires NonEmpty(deletions) && Quiet(deletions, insertions, c, p) && c <= k < p
    ensures DeletedAt(deletions, k) <==> DeletedAt(deletions, c)
  {
    if DeletedAt(deletions, k) {
      var i :| 0 <= i < |deletions| && Covers(deletions[i], k);
      assert Covers(deletions[i], c);
    }
    if DeletedAt(deletions, c) {
      var i :| 0 <= i < |deletions| && Covers(deletions[i], c);
      assert Covers(deletions[i], k);
    }
  }

  /** The state after an event point, from the state before it; this is where disjointness is needed. */
  lemma DeletedAtPoint(deletions: seq<Deletion>, insertions: seq<Placed>, c: nat, p: nat)
    requires NonEmpty(deletions) && PairwiseDisjoint(deletions) && Quiet(deletions, insertions, c, p) && c < p
    ensures DeletedAt(deletions, p) <==> StartsAt(deletions, p) || (DeletedAt(deletions, c) && !EndsAt(deletions, p))
  {
    DeletedBetween(deletions, insertions, c, p - 1, p);
    if DeletedAt(deletions, p) && !StartsAt(deletions, p) {
      var i :| 0 <= i < |deletions| && Covers(deletions[i], p);
      assert Covers(deletions[i], p - 1);
      assert forall j | 0 <= j < |deletions| && j != i :: Disjoint(deletions[i].range, deletions[j].range);
    }
    if StartsAt(deletions, p) {
      var i :| 0 <= i < |deletions| && deletions[i].range.start == p;
      assert Covers(deletions[i], p);
    }
    if DeletedAt(deletions, c) && !EndsAt(deletions, p) {
      var i :| 0 <= i < |deletions| && Covers(deletions[i], p - 1);
      assert Covers(deletions[i], p);
    }
  }

  /** Before the first event point nothing is deleted, and at it a deletion can only start. */
  lemma DeletedAtFirst(deletions: seq<Deletion>, insertions: seq<Placed>, k: nat, p: nat)
    requires NonEmpty(deletions) && Quiet(deletions, insertions, -1, p) && k <= p
    ensures if k < p then !DeletedAt(deletions, k) else DeletedAt(deletions, p) <==> StartsAt(deletions, p)
  {
    if StartsAt(deletions, p) {
      var i :| 0 <= i < |deletions| && deletions[i].range.start == p;
      assert Covers(deletions[i], p);
    }
  }

  lemma {:induction false} InsertedIsNonEmpty(insertions: seq<Placed>, i: nat)
    requires i < |insertions|
    ensures InsertedAt(insertions, insertions[i].offset) != []
  {
    if i < |insertions| - 1 {
      InsertedIsNonEmpty(insertions[..|insertions| - 1], i);
    }
  }

  lemma {:induction false} NoneInserted(files: Files, insertions: seq<Placed>, k: nat)
    requires forall i | 0 <= i < |insertions| :: insertions[i].offset != k
    ensures PayloadsAt(files, insertions, k) == [] && InsertedAt(insertions, k) == []
  {
    if insertions != [] {
      NoneInserted(files, insertions[..|insertions| - 1], k);
    }
  }

  /** All these offsets share one fate. */
  predicate Steady(deletions: seq<Deletion>, c: nat, p: nat, deleted: bool) {
    forall k | c <= k < p :: DeletedAt(deletions, k) == deleted
  }

  function KeptRange(original: Bytes, c: nat, p: nat, deleted: bool): Bytes
    requires c <= p <= |original|
  {
    if deleted then [] else original[c..p]
  }

  lemma KeptJoins(before: Bytes, original: Bytes, c: nat, k: nat, p: nat, deleted: bool)
    requires c <= k <= p <= |original|
    ensures before + KeptRange(original, c, k, deleted) + KeptRange(original, k, p, deleted) ==
            before + KeptRange(original, c, p, deleted)
  {
  }

  lemma OneOffset(
    files: Files, original: Bytes, deletions: seq<Deletion>, insertions: seq<Placed>, k: nat, deleted: bool)
    requires k < |original| && DeletedAt(deletions, k) == deleted
    ensures EditedPrefix(files, original, deletions, insertions, k + 1) ==
            EditedPrefix(files, original, deletions, insertions, k) + PayloadsAt(files, insertions, k)
            + KeptRange(original, k, k + 1, deleted)
  {
    assert original[k..k + 1] == [original[k]];
  }

  // Stretches of the edited file, over any functions that say what each offset contributes.

  /** A prefix grows, offset by offset, by the payloads there and the byte unless it is gone. */
  ghost predicate Grows(prefix: nat -> Bytes, payload: nat -> Bytes, gone: nat -> bool, original: Bytes) {
    && prefix(0) == []
    && forall i: nat, j: nat | i < |original| && j == i + 1 ::
         prefix(j) == prefix(i) + payload(i) + KeptRange(original, i, j, gone(i))
  }

  /** Where nothing is inserted and all offsets share one fate, it grows by the kept range. */
  lemma {:induction false} GrowsByKept(
    prefix: nat -> Bytes, payload: nat -> Bytes, gone: nat -> bool, original: Bytes, c: nat, k: nat, p: nat,
    deleted: bool, before: Bytes)
    requires Grows(prefix, payload, gone, original) && c <= k <= p <= |original|
    requires forall i: nat | k <= i < p :: payload(i) == [] && gone(i) == deleted
    requires prefix(k) == before + KeptRange(original, c, k, deleted)
    ensures prefix(p) == before + KeptRange(original, c, p, deleted)
    decreases p
  {
    if k < p {
      var i: nat := p - 1;
      GrowsByKept(prefix, payload, gone, original, c, k, i, deleted, before);
      assert payload(i) == [] && prefix(i) + [] == prefix(i);
      assert prefix(p) == prefix(i) + KeptRange(original, i, p, deleted);
      KeptJoins(before, original, c, i, p, deleted);
    }
  }

  lemma GrowsFromEvent(
    prefix: nat -> Bytes, payload: nat -> Bytes, gone: nat -> bool, original: Bytes, c: nat, p: nat, deleted: bool)
    requires Grows(prefix, payload, gone, original) && c < p <= |original|
    requires forall i: nat | c < i < p :: payload(i) == []
    requires forall i: nat | c <= i < p :: gone(i) == deleted
    ensures prefix(p) == prefix(c) + payload(c) + KeptRange(original, c, p, deleted)
  {
    var k := c + 1;
    assert gone(c) == deleted;
    assert prefix(k) == prefix(c) + payload(c) + KeptRange(original, c, k, deleted);
    GrowsByKept(prefix, payload, gone, original, c, k, p, deleted, prefix(c) + payload(c));
  }

  ghost function PrefixOf(
    files: Files, original: Bytes, deletions: seq<Deletion>, insertions: seq<Placed>): nat -> Bytes
  {
    (k: nat) => if k <= |original| then EditedPrefix(files, original, deletions, insertions, k) else []
  }

  ghost function PayloadOf(files: Files, insertions: seq<Placed>): nat -> Bytes {
    (k: nat) => PayloadsAt(files, insertions, k)
  }

  ghost function GoneOf(deletions: seq<Deletion>): nat -> bool {
    (k: nat) => DeletedAt(deletions, k)
  }

  lemma EditedGrows(files: Files, original: Bytes, deletions: seq<Deletion>, insertions: seq<Placed>)
    ensures Grows(
              PrefixOf(files, original, deletions, insertions), PayloadOf(files, insertions), GoneOf(deletions),
              original)
  {
    var prefix := PrefixOf(files, original, deletions, insertions);
    forall i: nat, j: nat | i < |original| && j == i + 1
      ensures prefix(j) ==
              prefix(i) + PayloadOf(files, insertions)(i) + KeptRange(original, i, j, GoneOf(deletions)(i))
    {
      OneOffset(files, original, deletions, insertions, i, DeletedAt(deletions, i));
    }
  }

  lemma NoPayloads(files: Files, insertions: seq<Placed>, c: int, p: nat)
    requires NoneBetween(insertions, c, p)
    ensures forall i: nat | c < i < p :: PayloadOf(files, insertions)(i) == []
  {
    forall i: nat | c < i < p ensures PayloadOf(files, insertions)(i) == [] {
      NoneInserted(files, insertions, i);
    }
  }

  lemma QuietIsSteady(deletions: seq<Deletion>, insertions: seq<Placed>, c: nat, p: nat)
    requires NonEmpty(deletions) && Quiet(deletions, insertions, c, p)
    ensures Steady(deletions, c, p, DeletedAt(deletions, c)) && NoneBetween(insertions, c, p)
  {
    forall k | c <= k < p ensures DeletedAt(deletions, k) == DeletedAt(deletions, c) {
      DeletedBetween(deletions, insertions, c, k, p);
    }
  }

  /** From one event point to the next the file only gains the payloads at the first and the kept bytes. */
  lemma QuietStretch(
    files: Files, original: Bytes, deletions: seq<Deletion>, insertions: seq<Placed>, c: nat, p: nat, deleted: bool)
    requires NoneBetween(insertions, c, p) && Steady(deletions, c, p, deleted) && c < p <= |original|
    ensures EditedPrefix(files, original, deletions, insertions, p) ==
            EditedPrefix(files, original, deletions, insertions, c) + PayloadsAt(files, insertions, c)
            + KeptRange(original, c, p, deleted)
  {
    EditedGrows(files, original, deletions, insertions);
    NoPayloads(files, insertions, c, p);
    GrowsFromEvent(
      PrefixOf(files, original, deletions, insertions), PayloadOf(files, insertions), GoneOf(deletions), original, c, p,
      deleted);
  }

  lemma FirstStretch(files: Files, original: Bytes, deletions: seq<Deletion>, insertions: seq<Placed>, p: nat)
    requires NonEmpty(deletions) && Quiet(deletions, insertions, -1, p) && p <= |original|
    ensures EditedPrefix(files, original, deletions, insertions, p) == KeptRange(original, 0, p, false)
  {
    forall k | 0 <= k < p ensures DeletedAt(deletions, k) == false {
      DeletedAtFirst(deletions, insertions, k, p);
    }
    EditedGrows(files, original, deletions, insertions);
    NoPayloads(files, insertions, -1, p);
    GrowsByKept(
      PrefixOf(files, original, deletions, insertions), PayloadOf(files, insertions), GoneOf(deletions), original, 0, 0,
      p, false, []);
  }

  // ----- the recipe

  function Slices(insertions: seq<Insertion>): (slices: seq<OutputSegment>)
    ensures |slices| == |insertions|
  {
    seq(|insertions|, i requires 0 <= i < |insertions| =>
      PayloadSlice(insertions[i].operationIndex, insertions[i].fileId, insertions[i].range,
        insertions[i].payloadDigest))
  }

  /** The payload slices of a recipe, in order. */
  function Payloads(segments: seq<OutputSegment>): seq<OutputSegment> {
    if segments == [] then []
    else
      var n := |segments| - 1;
      Payloads(segments[..n]) + if segments[n].PayloadSlice? then [segments[n]] else []
  }

  /** The slices inserted before an offset: by offset, and by operation at each offset. */
  function PayloadsBefore(insertions: seq<Placed>, k: nat): seq<OutputSegment> {
    if k == 0 then [] else PayloadsBefore(insertions, k - 1) + Slices(InsertedAt(insertions, k - 1))
  }

  lemma PayloadsSnoc(segments: seq<OutputSegment>, last: OutputSegment)
    ensures Payloads(segments + [last]) == Payloads(segments) + if last.PayloadSlice? then [last] else []
  {
    assert (segments + [last])[..|segments|] == segments;
  }

  lemma {:induction false} PayloadsAppend(a: seq<OutputSegment>, b: seq<OutputSegment>)
    requires forall i | 0 <= i < |b| :: b[i].PayloadSlice?
    ensures Payloads(a + b) == Payloads(a) + b
  {
    if b == [] {
      assert a + b == a;
    } else {
      var n := |b| - 1;
      PayloadsAppend(a, b[..n]);
      PayloadsSnoc(a + b[..n], b[n]);
      assert a + b == (a + b[..n]) + [b[n]];
      assert Payloads(a) + b[..n] + [b[n]] == Payloads(a) + b;
    }
  }

  lemma PayloadsStay(insertions: seq<Placed>, k: nat)
    requires InsertedAt(insertions, k) == []
    ensures PayloadsBefore(insertions, k + 1) == PayloadsBefore(insertions, k)
  {
    assert Slices([]) == [];
  }

  lemma {:induction false} NoPayloadsBetween(deletions: seq<Deletion>, insertions: seq<Placed>, low: nat, high: nat)
    requires low <= high && Quiet(deletions, insertions, low - 1, high)
    ensures PayloadsBefore(insertions, high) == PayloadsBefore(insertions, low)
    decreases high
  {
    if low < high {
      NoneInserted(map[], insertions, high - 1);
      NoPayloadsBetween(deletions, insertions, low, high - 1);
      PayloadsStay(insertions, high - 1);
    }
  }

  lemma {:induction false} SlicesAreThePayloads(files: Files, insertions: seq<Placed>, k: nat)
    requires forall i | 0 <= i < |insertions| ::
               ValidSlice(files, insertions[i].insertion.fileId, insertions[i].insertion.range)
    ensures RecipeBytes(files, Slices(InsertedAt(insertions, k))) == PayloadsAt(files, insertions, k)
    ensures ValidRecipe(files, Slices(InsertedAt(insertions, k)))
  {
    if insertions != [] {
      var rest, last := insertions[..|insertions| - 1], insertions[|insertions| - 1];
      SlicesAreThePayloads(files, rest, k);
      var before := InsertedAt(rest, k);
      if last.offset == k {
        var slice := PayloadSlice(
          last.insertion.operationIndex, last.insertion.fileId, last.insertion.range, last.insertion.payloadDigest);
        assert InsertedAt(insertions, k) == before + [last.insertion];
        assert Slices(before + [last.insertion]) == Slices(before) + [slice];
        RecipeSnoc(files, Slices(before), slice);
      } else {
        assert InsertedAt(insertions, k) == before;
      }
    }
  }

  predicate NatLeq(a: nat, b: nat) {
    a <= b
  }

  lemma NatsAreOrdered()
    ensures TotalPreorder(NatLeq) && Antisymmetric(NatLeq)
  {
  }

  /** Surviving original bytes between two event points. */
  method PushOriginal(segments: seq<OutputSegment>, edits: OutputEdits, cursor: nat, offset: nat, deleting: bool,
                      ghost files: Files, ghost original: Bytes)
    returns (longer: seq<OutputSegment>)
    requires WellFormed(edits, files, original) && cursor <= offset <= |original| && ValidRecipe(files, segments)
    ensures ValidRecipe(files, longer)
    ensures RecipeBytes(files, longer) == RecipeBytes(files, segments) + KeptRange(original, cursor, offset, deleting)
    ensures Payloads(longer) == Payloads(segments)
  {
    longer := segments;
    if cursor < offset && !deleting {
      assert edits.existingFileId.Some?;
      var slice := OriginalSlice(edits.existingFileId.value, ByteRange(cursor, offset));
      RecipeSnoc(files, segments, slice);
      PayloadsSnoc(segments, slice);
      longer := segments + [slice];
    }
  }

  /** How far the sweep has come: the recipe describes everything before the cursor and the payloads at it. */
  ghost predicate SweptTo(
    edits: OutputEdits, files: Files, original: Bytes, segments: seq<OutputSegment>, started: bool, cursor: nat,
    deleting: bool)
    requires |original| == edits.originalLength
  {
    && cursor <= |original|
    && ValidRecipe(files, segments)
    && if started then
         && deleting == DeletedAt(edits.deletions, cursor)
         && RecipeBytes(files, segments) ==
            EditedPrefix(files, original, edits.deletions, edits.insertions, cursor)
            + PayloadsAt(files, edits.insertions, cursor)
       else
         segments == [] && cursor == 0 && !deleting
  }

  lemma ReachPoint(edits: OutputEdits, files: Files, original: Bytes, segments: seq<OutputSegment>, started: bool,
                   cursor: nat, deleting: bool, p: nat)
    requires WellFormed(edits, files, original)
    requires SweptTo(edits, files, original, segments, started, cursor, deleting)
    requires p <= |original| && (if started then cursor < p else cursor <= p)
    requires Quiet(edits.deletions, edits.insertions, if started then cursor else -1, p)
    ensures RecipeBytes(files, segments) + KeptRange(original, cursor, p, deleting) ==
            EditedPrefix(files, original, edits.deletions, edits.insertions, p)
  {
    if started {
      QuietIsSteady(edits.deletions, edits.insertions, cursor, p);
      QuietStretch(files, original, edits.deletions, edits.insertions, cursor, p, deleting);
    } else {
      FirstStretch(files, original, edits.deletions, edits.insertions, p);
      assert [] + KeptRange(original, 0, p, false) == KeptRange(original, 0, p, false);
    }
  }

  /** One payload slice per insertion, in their order. */
  method PushPayloads(segments: seq<OutputSegment>, insertions: seq<Insertion>) returns (longer: seq<OutputSegment>)
    ensures longer == segments + Slices(insertions)
  {
    longer := segments;
    for i := 0 to |insertions|
      invariant longer == segments + Slices(insertions)[..i]
    {
      var inserted := insertions[i];
      longer := longer + [PayloadSlice(
        inserted.operationIndex, inserted.fileId, inserted.range, inserted.payloadDigest)];
    }
  }

  method SweepPoint(
    edits: OutputEdits, point: PointEvents, offset: nat, segments: seq<OutputSegment>, cursor: nat, deleting: bool,
    ghost files: Files, ghost original: Bytes, ghost started: bool)
    returns (longer: seq<OutputSegment>, deletingNext: bool)
    requires WellFormed(edits, files, original) && PairwiseDisjoint(edits.deletions)
    requires SweptTo(edits, files, original, segments, started, cursor, deleting)
    requires point == EventsAt(edits.deletions, edits.insertions, offset)
    requires offset <= |original| && (if started then cursor < offset else cursor <= offset)
    requires Quiet(edits.deletions, edits.insertions, if started then cursor else -1, offset)
    ensures SweptTo(edits, files, original, longer, true, offset, deletingNext)
    ensures Payloads(longer) == Payloads(segments) + Slices(InsertedAt(edits.insertions, offset))
  {
    ReachPoint(edits, files, original, segments, started, cursor, deleting, offset);
    longer := PushOriginal(segments, edits, cursor, offset, deleting, files, original);
    if started {
      DeletedAtPoint(edits.deletions, edits.insertions, cursor, offset);
    } else {
      DeletedAtFirst(edits.deletions, edits.insertions, offset, offset);
    }
    deletingNext := deleting;
    if point.deletionEnd {
      deletingNext := false;
    }
    SlicesAreThePayloads(files, edits.insertions, offset);
    RecipeAppend(files, longer, Slices(point.insertions));
    PayloadsAppend(longer, Slices(point.insertions));
    longer := PushPayloads(longer, point.insertions);
    if point.deletionStart {
      deletingNext := true;
    }
  }

  /** The points in order, each once. */
  ghost predicate Ordered(points: Points, offsets: seq<nat>) {
    && SortedBy(offsets, NatLeq)
    && (forall x :: x in offsets <==> x in points)
    && forall i, j | 0 <= i < j < |offsets| :: offsets[i] != offsets[j]
  }

  method OrderPoints(points: Points) returns (offsets: seq<nat>)
    ensures Ordered(points, offsets)
  {
    NatsAreOrdered();
    offsets := SortedElements(points.Keys, NatLeq);
  }

  /** How far the sweep has come after some of the points. */
  ghost predicate SweptPoints(
    edits: OutputEdits, files: Files, original: Bytes, offsets: seq<nat>, index: nat, segments: seq<OutputSegment>,
    cursor: nat, deleting: bool)
    requires |original| == edits.originalLength && index <= |offsets|
  {
    && SweptTo(edits, files, original, segments, index > 0, cursor, deleting)
    && (index > 0 ==> cursor == offsets[index - 1])
    && Payloads(segments) == PayloadsBefore(edits.insertions, if index > 0 then cursor + 1 else 0)
  }

  lemma PointReady(edits: OutputEdits, files: Files, original: Bytes, points: Points, offsets: seq<nat>, index: nat)
    requires WellFormed(edits, files, original)
    requires Collected(points, edits.deletions, edits.insertions) && Ordered(points, offsets) && index < |offsets|
    ensures offsets[index] in points
            && points[offsets[index]] == EventsAt(edits.deletions, edits.insertions, offsets[index])
    ensures offsets[index] <= |original| && (index > 0 ==> offsets[index - 1] < offsets[index])
    ensures Quiet(edits.deletions, edits.insertions, if index > 0 then offsets[index - 1] else -1, offsets[index])
  {
    assert offsets[index] in offsets;
    NextPoint(edits, points, offsets, index);
    PointInRange(edits, files, original, points, offsets[index]);
  }

  lemma PayloadsUpTo(
    deletions: seq<Deletion>, insertions: seq<Placed>, low: nat, offset: nat, before: seq<OutputSegment>)
    requires low <= offset && Quiet(deletions, insertions, low - 1, offset) && PayloadsBefore(insertions, low) == before
    ensures PayloadsBefore(insertions, offset + 1) == before + Slices(InsertedAt(insertions, offset))
  {
    NoPayloadsBetween(deletions, insertions, low, offset);
  }

  /** What the sweep of the next point needs, and the payloads it will have. */
  lemma NextReady(
    edits: OutputEdits, files: Files, original: Bytes, points: Points, offsets: seq<nat>, index: nat,
    before: seq<OutputSegment>, cursor: nat, deleting: bool)
    requires WellFormed(edits, files, original)
    requires Collected(points, edits.deletions, edits.insertions) && Ordered(points, offsets) && index < |offsets|
    requires SweptPoints(edits, files, original, offsets, index, before, cursor, deleting)
    ensures var offset, started := offsets[index], index > 0;
            && offset in points && points[offset] == EventsAt(edits.deletions, edits.insertions, offset)
            && offset <= |original| && (if started then cursor < offset else cursor <= offset)
            && Quiet(edits.deletions, edits.insertions, if started then cursor else -1, offset)
            && SweptTo(edits, files, original, before, started, cursor, deleting)
            && PayloadsBefore(edits.insertions, offset + 1) ==
               Payloads(before) + Slices(InsertedAt(edits.insertions, offset))
  {
    PointReady(edits, files, original, points, offsets, index);
    var low := if index > 0 then cursor + 1 else 0;
    PayloadsUpTo(edits.deletions, edits.insertions, low, offsets[index], Payloads(before));
  }

  method SweepNext(
    edits: OutputEdits, points: Points, offsets: seq<nat>, index: nat, before: seq<OutputSegment>, cursor: nat,
    wasDeleting: bool, ghost files: Files, ghost original: Bytes)
    returns (segments: seq<OutputSegment>, deleting: bool)
    requires WellFormed(edits, files, original) && PairwiseDisjoint(edits.deletions)
    requires Collected(points, edits.deletions, edits.insertions) && Ordered(points, offsets) && index < |offsets|
    requires SweptPoints(edits, files, original, offsets, index, before, cursor, wasDeleting)
    ensures SweptPoints(edits, files, original, offsets, index + 1, segments, offsets[index], deleting)
  {
    NextReady(edits, files, original, points, offsets, index, before, cursor, wasDeleting);
    var offset := offsets[index];
    segments, deleting :=
      SweepPoint(edits, points[offset], offset, before, cursor, wasDeleting, files, original, index > 0);
  }

  method SweepPoints(edits: OutputEdits, points: Points, offsets: seq<nat>, ghost files: Files, ghost original: Bytes)
    returns (segments: seq<OutputSegment>, cursor: nat, deleting: bool)
    requires WellFormed(edits, files, original) && PairwiseDisjoint(edits.deletions)
    requires Collected(points, edits.deletions, edits.insertions) && Ordered(points, offsets)
    ensures SweptPoints(edits, files, original, offsets, |offsets|, segments, cursor, deleting)
  {
    segments, cursor, deleting := [], 0, false;
    var index := 0;
    while index < |offsets|
      invariant 0 <= index <= |offsets|
      invariant SweptPoints(edits, files, original, offsets, index, segments, cursor, deleting)
    {
      segments, deleting := SweepNext(edits, points, offsets, index, segments, cursor, deleting, files, original);
      cursor, index := offsets[index], index + 1;
    }
  }

  /** Appends the rest of the original after the last point. */
  method SweepRest(
    edits: OutputEdits, before: seq<OutputSegment>, cursor: nat, deleting: bool, ghost files: Files,
    ghost original: Bytes, ghost started: bool)
    returns (segments: seq<OutputSegment>)
    requires WellFormed(edits, files, original) && SweptTo(edits, files, original, before, started, cursor, deleting)
    requires Quiet(edits.deletions, edits.insertions, if started then cursor else -1, |original| + 1)
    ensures RecipeBytes(files, segments) == Edited(files, original, edits.deletions, edits.insertions)
    ensures ValidRecipe(files, segments) && Payloads(segments) == Payloads(before)
  {
    SweepEnds(edits, files, original, before, started, cursor, deleting);
    segments := PushOriginal(before, edits, cursor, edits.originalLength, deleting, files, original);
  }

  /** The sweep refines the offset-by-offset definition of the edited file, and keeps the payloads in order. */
  method BuildSegments(
    edits: OutputEdits, ghost files: Files, ghost original: Bytes)
    returns (segments: seq<OutputSegment>)
    requires WellFormed(edits, files, original) && PairwiseDisjoint(edits.deletions)
    ensures RecipeBytes(files, segments) == Edited(files, original, edits.deletions, edits.insertions)
    ensures ValidRecipe(files, segments)
    ensures Payloads(segments) == PayloadsBefore(edits.insertions, |original| + 1)
  {
    var points := CollectPoints(edits);
    var offsets := OrderPoints(points);
    var before, cursor, deleting := SweepPoints(edits, points, offsets, files, original);
    ghost var started := offsets != [];
    LastPoint(edits, points, offsets, |original| + 1);
    NoPayloadsBetween(edits.deletions, edits.insertions, if started then cursor + 1 else 0, |original| + 1);
    segments := SweepRest(edits, before, cursor, deleting, files, original, started);
  }

  lemma NothingAtEnd(files: Files, original: Bytes, deletions: seq<Deletion>, insertions: seq<Placed>)
    requires forall i | 0 <= i < |insertions| :: insertions[i].offset != |original|
    ensures Edited(files, original, deletions, insertions) ==
            EditedPrefix(files, original, deletions, insertions, |original|)
  {
    NoneInserted(files, insertions, |original|);
  }

  /** After the last point only the rest of the original is left. */
  lemma SweepEnds(
    edits: OutputEdits, files: Files, original: Bytes, segments: seq<OutputSegment>, started: bool, cursor: nat,
    deleting: bool)
    requires WellFormed(edits, files, original) && SweptTo(edits, files, original, segments, started, cursor, deleting)
    requires Quiet(edits.deletions, edits.insertions, if started then cursor else -1, |original| + 1)
    ensures RecipeBytes(files, segments) + KeptRange(original, cursor, |original|, deleting) ==
            Edited(files, original, edits.deletions, edits.insertions)
  {
    if started && cursor == |original| {
      assert KeptRange(original, cursor, |original|, deleting) == [];
    } else {
      ReachPoint(edits, files, original, segments, started, cursor, deleting, |original|);
      NothingAtEnd(files, original, edits.deletions, edits.insertions);
    }
  }

  /** Between consecutive sorted points nothing happens. */
  lemma NextPoint(edits: OutputEdits, points: Points, offsets: seq<nat>, index: nat)
    requires Collected(points, edits.deletions, edits.insertions)
    requires Ordered(points, offsets) && index < |offsets|
    ensures index > 0 ==> offsets[index - 1] < offsets[index]
    ensures Quiet(edits.deletions, edits.insertions, if index > 0 then offsets[index - 1] else -1, offsets[index])
  {
    if index > 0 {
      assert NatLeq(offsets[index - 1], offsets[index]);
    }
    forall k: nat | (if index > 0 then offsets[index - 1] else -1) < k < offsets[index]
      ensures EventsAt(edits.deletions, edits.insertions, k) == NO_EVENTS
    {
      forall i | 0 <= i < |offsets| ensures offsets[i] != k {
        assert i < index - 1 ==> NatLeq(offsets[i], offsets[index - 1]);
        assert index < i ==> NatLeq(offsets[index], offsets[i]);
      }
      assert Entry(points, k) == EventsAt(edits.deletions, edits.insertions, k);
    }
    NoEventsMeansQuiet(edits.deletions, edits.insertions, if index > 0 then offsets[index - 1] else -1, offsets[index]);
  }

  lemma LastPoint(edits: OutputEdits, points: Points, offsets: seq<nat>, p: nat)
    requires Collected(points, edits.deletions, edits.insertions) && Ordered(points, offsets)
    ensures Quiet(edits.deletions, edits.insertions, if offsets == [] then -1 else offsets[|offsets| - 1], p)
  {
    forall k: nat | (if offsets == [] then -1 else offsets[|offsets| - 1]) < k
      ensures EventsAt(edits.deletions, edits.insertions, k) == NO_EVENTS
    {
      assert Entry(points, k) == EventsAt(edits.deletions, edits.insertions, k);
    }
    NoEventsMeansQuiet(edits.deletions, edits.insertions, if offsets == [] then -1 else offsets[|offsets| - 1], p);
  }

  lemma PointInRange(edits: OutputEdits, files: Files, original: Bytes, points: Points, k: nat)
    requires WellFormed(edits, files, original) && Collected(points, edits.deletions, edits.insertions) && k in points
    ensures k <= |original| && points[k] == EventsAt(edits.deletions, edits.insertions, k)
  {
    assert Entry(points, k) == EventsAt(edits.deletions, edits.insertions, k);
    if InsertedAt(edits.insertions, k) != [] {
      InsertedOffset(edits.insertions, k);
    }
  }

  lemma {:induction false} InsertedOffset(insertions: seq<Placed>, k: nat)
    requires InsertedAt(insertions, k) != []
    ensures exists i | 0 <= i < |insertions| :: insertions[i].offset == k
  {
    var rest, last := insertions[..|insertions| - 1], insertions[|insertions| - 1];
    if last.offset == k {
      assert insertions[|insertions| - 1].offset == k;
    } else {
      InsertedOffset(rest, k);
      var i :| 0 <= i < |rest| && rest[i].offset == k;
      assert insertions[i].offset == k;
    }
  }

  // ----- a move to one of its own ends

  lemma OnePayload(files: Files, p: Placed, k: nat)
    ensures PayloadsAt(files, [p], k) ==
            if p.offset == k then RangeBytes(files, p.insertion.fileId, p.insertion.range) else []
  {
    assert [p][..0] == [];
  }

  lemma OneDeletion(d: Deletion, k: nat)
    ensures DeletedAt([d], k) <==> Covers(d, k)
  {
    assert [d][0] == d;
  }

  /** What an edit of one deletion and one insertion does at each offset. */
  lemma OneMove(files: Files, original: Bytes, d: Deletion, p: Placed)
    ensures Grows(PrefixOf(files, original, [d], [p]), PayloadOf(files, [p]), GoneOf([d]), original)
    ensures forall k: nat :: GoneOf([d])(k) <==> Covers(d, k)
    ensures forall k: nat ::
              PayloadOf(files, [p])(k) ==
              if p.offset == k then RangeBytes(files, p.insertion.fileId, p.insertion.range) else []
  {
    EditedGrows(files, original, [d], [p]);
    forall k: nat
      ensures GoneOf([d])(k) <==> Covers(d, k)
      ensures PayloadOf(files, [p])(k) ==
              if p.offset == k then RangeBytes(files, p.insertion.fileId, p.insertion.range) else []
    {
      OneDeletion(d, k);
      OnePayload(files, p, k);
    }
  }

  lemma MoveToStart(
    prefix: nat -> Bytes, payload: nat -> Bytes, gone: nat -> bool, original: Bytes, start: nat, end: nat)
    requires Grows(prefix, payload, gone, original) && start < end <= |original|
    requires forall k: nat :: gone(k) <==> start <= k < end
    requires forall k: nat :: payload(k) == if k == start then original[start..end] else []
    ensures prefix(|original|) + payload(|original|) == original
  {
    GrowsByKept(prefix, payload, gone, original, 0, 0, start, false, []);
    GrowsFromEvent(prefix, payload, gone, original, start, end, true);
    assert prefix(end) == original[..start] + original[start..end] == original[..end];
    GrowsByKept(prefix, payload, gone, original, end, end, |original|, false, original[..end]);
    assert original[..end] + original[end..] == original;
  }

  lemma MoveToEnd(
    prefix: nat -> Bytes, payload: nat -> Bytes, gone: nat -> bool, original: Bytes, start: nat, end: nat)
    requires Grows(prefix, payload, gone, original) && start < end <= |original|
    requires forall k: nat :: gone(k) <==> start <= k < end
    requires forall k: nat :: payload(k) == if k == end then original[start..end] else []
    ensures prefix(|original|) + payload(|original|) == original
  {
    GrowsByKept(prefix, payload, gone, original, 0, 0, start, false, []);
    GrowsByKept(prefix, payload, gone, original, start, start, end, true, original[..start]);
    assert prefix(end) + payload(end) == original[..end];
    if end < |original| {
      GrowsFromEvent(prefix, payload, gone, original, end, |original|, false);
      assert original[..end] + original[end..] == original;
    }
  }

  /** Moving a range to its own start or end leaves the file as it is, so that nothing is lost by planning no edit
      for it. */
  lemma OwnEndsChangeNothing(files: Files, original: Bytes, d: Deletion, p: Placed)
    requires d.range.start < d.range.end <= |original| && p.offset in {d.range.start, d.range.end}
    requires RangeBytes(files, p.insertion.fileId, p.insertion.range) == Slice(original, d.range)
    ensures Edited(files, original, [d], [p]) == original
  {
    OneMove(files, original, d, p);
    var prefix, payload, gone := PrefixOf(files, original, [d], [p]), PayloadOf(files, [p]), GoneOf([d]);
    if p.offset == d.range.start {
      MoveToStart(prefix, payload, gone, original, d.range.start, d.range.end);
    } else {
      MoveToEnd(prefix, payload, gone, original, d.range.start, d.range.end);
    }
  }

  lemma InsertAt(
    prefix: nat -> Bytes, payload: nat -> Bytes, gone: nat -> bool, original: Bytes, k: nat, bytes: Bytes)
    requires Grows(prefix, payload, gone, original) && k <= |original|
    requires forall i: nat :: !gone(i)
    requires forall i: nat :: payload(i) == if k == i then bytes else []
    ensures prefix(|original|) + payload(|original|) == original[..k] + bytes + original[k..]
  {
    GrowsByKept(prefix, payload, gone, original, 0, 0, k, false, []);
    assert prefix(k) + payload(k) == original[..k] + bytes;
    if k < |original| {
      GrowsFromEvent(prefix, payload, gone, original, k, |original|, false);
    } else {
      assert original[..k] + bytes + [] == original[..k] + bytes;
    }
  }

  lemma RemoveRange(
    prefix: nat -> Bytes, payload: nat -> Bytes, gone: nat -> bool, original: Bytes, start: nat, end: nat)
    requires Grows(prefix, payload, gone, original) && start <= end <= |original|
    requires forall i: nat :: gone(i) <==> start <= i < end
    requires forall i: nat :: payload(i) == []
    ensures prefix(|original|) + payload(|original|) == original[..start] + original[end..]
  {
    GrowsByKept(prefix, payload, gone, original, 0, 0, start, false, []);
    GrowsByKept(prefix, payload, gone, original, start, start, end, true, original[..start]);
    GrowsByKept(prefix, payload, gone, original, end, end, |original|, false, original[..start]);
  }

  /** A copy inserts its bytes at its place and changes nothing else. */
  lemma InsertionAlone(files: Files, original: Bytes, p: Placed)
    requires p.offset <= |original|
    ensures Edited(files, original, [], [p]) ==
            original[..p.offset] + RangeBytes(files, p.insertion.fileId, p.insertion.range) + original[p.offset..]
  {
    var prefix, payload, gone := PrefixOf(files, original, [], [p]), PayloadOf(files, [p]), GoneOf([]);
    var bytes := RangeBytes(files, p.insertion.fileId, p.insertion.range);
    EditedGrows(files, original, [], [p]);
    forall i: nat ensures payload(i) == if p.offset == i then bytes else [] {
      OnePayload(files, p, i);
    }
    InsertAt(prefix, payload, gone, original, p.offset, bytes);
  }

  /** What is moved away leaves its file without its bytes, and nothing else. */
  lemma DeletionAlone(files: Files, original: Bytes, d: Deletion)
    requires d.range.start < d.range.end <= |original|
    ensures Edited(files, original, [d], []) == original[..d.range.start] + original[d.range.end..]
  {
    var prefix, payload, gone := PrefixOf(files, original, [d], []), PayloadOf(files, []), GoneOf([d]);
    EditedGrows(files, original, [d], []);
    forall i: nat ensures gone(i) <==> Covers(d, i) {
      OneDeletion(d, i);
    }
    RemoveRange(prefix, payload, gone, original, d.range.start, d.range.end);
  }
}
