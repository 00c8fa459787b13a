/** Line boundaries of immutable bytes and line summaries that compose. */
module Lines {
  import opened Common

  const LF: byte := 10
  const CR: byte := 13

  datatype CoreError = InvalidDomainValue(field: string) | ResourceLimitExceeded(resource: string)

  predicate IsTerminatorByte(b: byte) {
    b == CR || b == LF
  }

  // ----- where lines end, said offset by offset

  /** A terminator (LF, CRLF or a lone CR) ends at offset `e`. */
  predicate EndsLine(bytes: Bytes, e: nat) {
    && 0 < e <= |bytes|
    && (bytes[e - 1] == LF || (bytes[e - 1] == CR && !(e < |bytes| && bytes[e] == LF)))
  }

  /** A line ends at offset `e`, with a terminator or at the end of the bytes. */
  predicate IsBoundary(bytes: Bytes, e: nat) {
    EndsLine(bytes, e) || (e == |bytes| && e > 0)
  }

  /** The number of terminators that end in (lo, hi]. */
  function CountEnds(bytes: Bytes, lo: nat, hi: nat): nat
    requires lo <= hi
  {
    if lo == hi then 0 else CountEnds(bytes, lo, hi - 1) + if EndsLine(bytes, hi) then 1 else 0
  }

  datatype LineMetrics = LineMetrics(
    byteCount: nat, terminatorCount: nat, firstByte: Option<byte>, lastByte: Option<byte>)

  const EMPTY_METRICS := LineMetrics(0, 0, None, None)

  /** The metrics of a byte string on its own. */
  function Metrics(bytes: Bytes): LineMetrics {
    if bytes == [] then EMPTY_METRICS
    else LineMetrics(|bytes|, CountEnds(bytes, 0, |bytes|), Some(bytes[0]), Some(bytes[|bytes| - 1]))
  }

  function LineCount(m: LineMetrics): nat {
    m.terminatorCount + if m.lastByte.Some? && !IsTerminatorByte(m.lastByte.value) then 1 else 0
  }

  // ----- scanning

  /** Advances to the end of the next terminator. */
  method NextTerminatorEnd(bytes: Bytes, from: nat) returns (end: Option<nat>, offset: nat)
    requires from <= |bytes|
    ensures from <= offset <= |bytes|
    ensures end.Some? ==> end.value == offset && from < offset && EndsLine(bytes, offset)
    ensures forall e | from < e < offset :: !EndsLine(bytes, e)
    ensures end.None? ==> offset == |bytes| && !(from < offset && EndsLine(bytes, offset))
  {
    offset := from;
    while offset < |bytes|
      invariant from <= offset <= |bytes|
      invariant forall e | from < e <= offset :: !EndsLine(bytes, e)
    {
      if bytes[offset] == CR && offset + 1 < |bytes| && bytes[offset + 1] == LF {
        assert !EndsLine(bytes, offset + 1);
        offset := offset + 2;
        return Some(offset), offset;
      } else if IsTerminatorByte(bytes[offset]) {
        offset := offset + 1;
        return Some(offset), offset;
      }
      offset := offset + 1;
    }
    end := None;
  }

  lemma {:induction false} CountEndsSplit(bytes: Bytes, lo: nat, mid: nat, hi: nat)
    requires lo <= mid <= hi
    ensures CountEnds(bytes, lo, hi) == CountEnds(bytes, lo, mid) + CountEnds(bytes, mid, hi)
    decreases hi
  {
    if mid < hi {
      CountEndsSplit(bytes, lo, mid, hi - 1);
    }
  }

  lemma {:induction false} CountEndsNone(bytes: Bytes, lo: nat, hi: nat)
    requires lo <= hi
    requires forall e | lo < e <= hi :: !EndsLine(bytes, e)
    ensures CountEnds(bytes, lo, hi) == 0
    decreases hi
  {
    if lo < hi {
      CountEndsNone(bytes, lo, hi - 1);
    }
  }

  method TryFromBytes(bytes: Bytes) returns (m: LineMetrics)
    ensures m == Metrics(bytes)
  {
    if bytes == [] {
      return EMPTY_METRICS;
    }
    var terminatorCount, offset := 0, 0;
    while true
      invariant offset <= |bytes|
      invariant terminatorCount == CountEnds(bytes, 0, offset)
      decreases |bytes| - offset
    {
      var end, next := NextTerminatorEnd(bytes, offset);
      CountEndsSplit(bytes, 0, offset, next);
      if end.None? {
        CountEndsNone(bytes, offset, next);
        break;
      }
      CountEndsNone(bytes, offset, next - 1);
      terminatorCount, offset := terminatorCount + 1, next;
    }
    m := LineMetrics(|bytes|, terminatorCount, Some(bytes[0]), Some(bytes[|bytes| - 1]));
  }

  // ----- the line index

  datatype LineIndex = LineIndex(boundaries: seq<nat>)

  predicate StrictlyIncreasing(s: seq<nat>) {
    forall i, j | 0 <= i < j < |s| :: s[i] < s[j]
  }

  /** The index lists exactly the boundaries of the bytes, in order. */
  ghost predicate Indexes(index: LineIndex, bytes: Bytes) {
    && StrictlyIncreasing(index.boundaries)
    && (forall i | 0 <= i < |index.boundaries| :: IsBoundary(bytes, index.boundaries[i]))
    && (forall e | 0 <= e <= |bytes| && IsBoundary(bytes, e) :: e in index.boundaries)
  }

  /** The list holds exactly the terminator ends up to `offset`, in order. */
  ghost predicate Terminators(s: seq<nat>, bytes: Bytes, offset: nat) {
    && StrictlyIncreasing(s)
    && (forall i | 0 <= i < |s| :: EndsLine(bytes, s[i]) && s[i] <= offset)
    && (forall e | 0 <= e <= offset && EndsLine(bytes, e) :: e in s)
    && |s| == CountEnds(bytes, 0, offset)
  }

  predicate WithinLimits(lines: nat, maximumLines: nat, maximumMemoryBytes: nat) {
    lines == 0 || (lines <= maximumLines && 8 * lines <= maximumMemoryBytes)
  }

  method PushLineBoundary(boundaries: seq<nat>, boundary: nat, maximumLines: nat, maximumMemoryBytes: nat)
    returns (r: Result<seq<nat>, CoreError>)
    ensures r.Ok? <==> WithinLimits(|boundaries| + 1, maximumLines, maximumMemoryBytes)
    ensures r.Ok? ==> r.value == boundaries + [boundary]
  {
    if |boundaries| + 1 > maximumLines {
      return Err(ResourceLimitExceeded("line_count"));
    }
    if 8 * (|boundaries| + 1) > maximumMemoryBytes {
      return Err(ResourceLimitExceeded("line_index_memory"));
    }
    return Ok(boundaries + [boundary]);
  }

  method FromBytesWithLimits(bytes: Bytes, maximumLines: nat, maximumMemoryBytes: nat)
    returns (r: Result<LineIndex, CoreError>)
    ensures r.Ok? <==> WithinLimits(LineCount(Metrics(bytes)), maximumLines, maximumMemoryBytes)
    ensures r.Ok? ==> Indexes(r.value, bytes)
  {
    var boundaries: seq<nat>, offset := [], 0;
    LastTerminator(bytes);
    while true
      invariant offset <= |bytes|
      invariant Terminators(boundaries, bytes, offset)
      invariant WithinLimits(|boundaries|, maximumLines, maximumMemoryBytes)
      decreases |bytes| - offset
    {
      var end, next := NextTerminatorEnd(bytes, offset);
      CountEndsSplit(bytes, 0, next, |bytes|);
      if end.None? {
        NoMoreTerminators(boundaries, bytes, offset);
        break;
      }
      OneMoreTerminator(boundaries, bytes, offset, next);
      var pushed := PushLineBoundary(boundaries, next, maximumLines, maximumMemoryBytes);
      if pushed.Err? {
        return Err(pushed.error);
      }
      boundaries, offset := pushed.value, next;
    }
    LastBoundary(boundaries, bytes);
    if !(|boundaries| > 0 && boundaries[|boundaries| - 1] == |bytes|) && bytes != [] {
      var pushed := PushLineBoundary(boundaries, |bytes|, maximumLines, maximumMemoryBytes);
      if pushed.Err? {
        return Err(pushed.error);
      }
      boundaries := pushed.value;
    }
    return Ok(LineIndex(boundaries));
  }

  lemma OneMoreTerminator(s: seq<nat>, bytes: Bytes, offset: nat, next: nat)
    requires Terminators(s, bytes, offset) && offset < next <= |bytes| && EndsLine(bytes, next)
    requires forall e | offset < e < next :: !EndsLine(bytes, e)
    ensures Terminators(s + [next], bytes, next)
  {
    CountEndsSplit(bytes, 0, offset, next);
    CountEndsNone(bytes, offset, next - 1);
  }

  lemma NoMoreTerminators(s: seq<nat>, bytes: Bytes, offset: nat)
    requires Terminators(s, bytes, offset) && offset <= |bytes|
    requires forall e | offset < e <= |bytes| :: !EndsLine(bytes, e)
    ensures Terminators(s, bytes, |bytes|)
  {
    CountEndsSplit(bytes, 0, offset, |bytes|);
    CountEndsNone(bytes, offset, |bytes|);
  }

  lemma LastBoundary(s: seq<nat>, bytes: Bytes)
    requires Terminators(s, bytes, |bytes|)
    ensures EndsLine(bytes, |bytes|) <==> |s| > 0 && s[|s| - 1] == |bytes|
    ensures bytes == [] || EndsLine(bytes, |bytes|) ==> Indexes(LineIndex(s), bytes)
    ensures bytes != [] && !EndsLine(bytes, |bytes|) ==> Indexes(LineIndex(s + [|bytes|]), bytes)
  {
    if EndsLine(bytes, |bytes|) {
      var i :| 0 <= i < |s| && s[i] == |bytes|;
      assert s[i] <= s[|s| - 1] <= |bytes|;
    }
  }

  lemma LastTerminator(bytes: Bytes)
    ensures bytes != [] ==> (EndsLine(bytes, |bytes|) <==> IsTerminatorByte(bytes[|bytes| - 1]))
    ensures LineCount(Metrics(bytes)) ==
            CountEnds(bytes, 0, |bytes|) + if bytes != [] && !EndsLine(bytes, |bytes|) then 1 else 0
  {
  }

  function LineStart(index: LineIndex, line: nat): Option<nat> {
    if line == 0 || line > |index.boundaries| then None
    else if line == 1 then Some(0)
    else Some(index.boundaries[line - 2])
  }

  function LineEnd(index: LineIndex, line: nat): Option<nat> {
    if line == 0 || line > |index.boundaries| then None else Some(index.boundaries[line - 1])
  }

  // ----- metrics of a range from the index

  /** The number of elements that are at most `x`, by binary search. */
  method PartitionPoint(s: seq<nat>, x: nat) returns (k: nat)
    requires StrictlyIncreasing(s)
    ensures k <= |s|
    ensures forall i | 0 <= i < k :: s[i] <= x
    ensures forall i | k <= i < |s| :: x < s[i]
  {
    k := 0;
    var high := |s|;
    while k < high
      invariant 0 <= k <= high <= |s|
      invariant forall i | 0 <= i < k :: s[i] <= x
      invariant forall i | high <= i < |s| :: x < s[i]
    {
      var middle := k + (high - k) / 2;
      if s[middle] <= x {
        k := middle + 1;
      } else {
        high := middle;
      }
    }
  }

  /** A later point has no fewer elements before it, and one more at least if it is the last element. */
  lemma PointsAreOrdered(s: seq<nat>, x: nat, y: nat, j: nat, k: nat)
    requires x < y && j <= |s| && k <= |s|
    requires forall i | j <= i < |s| :: x < s[i]
    requires forall i | 0 <= i < j :: s[i] <= x
    requires forall i | k <= i < |s| :: y < s[i]
    ensures j <= k
    ensures s != [] && s[|s| - 1] == y ==> j < k
  {
    assert k < |s| ==> y < s[k];
  }

  /** How many of the first `x` offsets are boundaries: one more than the terminators when the bytes
      end without one. */
  lemma {:induction false} BoundariesUpTo(index: LineIndex, bytes: Bytes, x: nat, k: nat)
    requires Indexes(index, bytes) && x <= |bytes| && k <= |index.boundaries|
    requires forall i | 0 <= i < k :: index.boundaries[i] <= x
    requires forall i | k <= i < |index.boundaries| :: x < index.boundaries[i]
    ensures k == CountEnds(bytes, 0, x) + if x == |bytes| && x > 0 && !EndsLine(bytes, x) then 1 else 0
    decreases x
  {
    var b := index.boundaries;
    if x == 0 {
    } else if IsBoundary(bytes, x) {
      var i :| 0 <= i < |b| && b[i] == x;
      assert i < k && b[k - 1] <= x;
      assert i == k - 1;
      BoundariesUpTo(index, bytes, x - 1, k - 1);
    } else {
      BoundariesUpTo(index, bytes, x - 1, k);
    }
  }

  /** The index has one boundary per line. */
  lemma IndexCountsLines(index: LineIndex, bytes: Bytes)
    requires Indexes(index, bytes)
    ensures |index.boundaries| == LineCount(Metrics(bytes))
    ensures bytes != [] ==> |index.boundaries| > 0 && index.boundaries[|index.boundaries| - 1] == |bytes|
  {
    BoundariesUpTo(index, bytes, |bytes|, |index.boundaries|);
    if bytes != [] {
      assert IsBoundary(bytes, |bytes|);
    }
  }

  /** Line `n`, counted from one, starts where n - 1 terminators have ended, the last of them just there. */
  predicate LineStartsAt(bytes: Bytes, n: nat, k: nat) {
    && 0 < n && k < |bytes|
    && CountEnds(bytes, 0, k) == n - 1
    && (k == 0 || EndsLine(bytes, k))
  }

  /** It ends at the boundary before which n - 1 terminators have ended. */
  predicate LineEndsAt(bytes: Bytes, n: nat, k: nat) {
    0 < n && 0 < k && IsBoundary(bytes, k) && CountEnds(bytes, 0, k - 1) == n - 1
  }

  lemma EndsAreCounted(bytes: Bytes, j: nat, k: nat)
    requires j < k && EndsLine(bytes, k)
    ensures CountEnds(bytes, 0, j) < CountEnds(bytes, 0, k)
  {
    CountEndsSplit(bytes, 0, j, k - 1);
  }

  lemma LineStartsOnce(bytes: Bytes, n: nat, j: nat, k: nat)
    requires LineStartsAt(bytes, n, j) && LineStartsAt(bytes, n, k)
    ensures j == k
  {
    if j < k {
      EndsAreCounted(bytes, j, k);
    } else if k < j {
      EndsAreCounted(bytes, k, j);
    }
  }

  lemma EndsBefore(bytes: Bytes, j: nat, k: nat)
    requires 0 < j < k && IsBoundary(bytes, j) && IsBoundary(bytes, k)
    ensures CountEnds(bytes, 0, j - 1) < CountEnds(bytes, 0, k - 1)
  {
    assert EndsLine(bytes, j);
    CountEndsSplit(bytes, 0, j, k - 1);
  }

  lemma LineEndsOnce(bytes: Bytes, n: nat, j: nat, k: nat)
    requires LineEndsAt(bytes, n, j) && LineEndsAt(bytes, n, k)
    ensures j == k
  {
    if j < k {
      EndsBefore(bytes, j, k);
    } else if k < j {
      EndsBefore(bytes, k, j);
    }
  }

  lemma BoundaryIsLineEnd(index: LineIndex, bytes: Bytes, n: nat)
    requires Indexes(index, bytes) && 0 < n <= |index.boundaries|
    ensures LineEndsAt(bytes, n, index.boundaries[n - 1])
  {
    var b := index.boundaries;
    assert IsBoundary(bytes, b[n - 1]);
    BoundariesUpTo(index, bytes, b[n - 1] - 1, n - 1);
  }

  lemma BoundaryIsLineStart(index: LineIndex, bytes: Bytes, n: nat)
    requires Indexes(index, bytes) && 0 < n < |index.boundaries|
    ensures LineStartsAt(bytes, n + 1, index.boundaries[n - 1])
  {
    var b := index.boundaries;
    assert IsBoundary(bytes, b[n - 1]) && IsBoundary(bytes, b[n]);
    BoundariesUpTo(index, bytes, b[n - 1], n);
  }

  /** The index finds the start and the end of exactly the lines that there are. */
  lemma LineNumbersMean(index: LineIndex, bytes: Bytes, n: nat)
    requires Indexes(index, bytes)
    ensures LineStart(index, n).Some? <==> 0 < n <= LineCount(Metrics(bytes))
    ensures LineEnd(index, n).Some? <==> 0 < n <= LineCount(Metrics(bytes))
    ensures LineStart(index, n).Some? ==>
              forall k: nat :: LineStartsAt(bytes, n, k) <==> LineStart(index, n) == Some(k)
    ensures LineEnd(index, n).Some? ==>
              forall k: nat :: LineEndsAt(bytes, n, k) <==> LineEnd(index, n) == Some(k)
  {
    IndexCountsLines(index, bytes);
    if 0 < n <= |index.boundaries| {
      BoundaryIsLineEnd(index, bytes, n);
      FirstOrLaterStart(index, bytes, n);
      var start, end := LineStart(index, n).value, LineEnd(index, n).value;
      forall k: nat ensures LineStartsAt(bytes, n, k) <==> start == k {
        if LineStartsAt(bytes, n, k) {
          LineStartsOnce(bytes, n, start, k);
        }
      }
      forall k: nat ensures LineEndsAt(bytes, n, k) <==> end == k {
        if LineEndsAt(bytes, n, k) {
          LineEndsOnce(bytes, n, end, k);
        }
      }
    }
  }

  lemma FirstOrLaterStart(index: LineIndex, bytes: Bytes, n: nat)
    requires Indexes(index, bytes) && 0 < n <= |index.boundaries|
    ensures LineStart(index, n).Some? && LineStartsAt(bytes, n, LineStart(index, n).value)
  {
    if n > 1 {
      BoundaryIsLineStart(index, bytes, n - 1);
    } else {
      assert IsBoundary(bytes, index.boundaries[0]);
    }
  }

  /** Cutting a range out changes which terminators end in it only where it cuts a CRLF at its end. */
  lemma {:induction false} CountEndsInSlice(bytes: Bytes, start: nat, end: nat, x: nat)
    requires start <= x <= end <= |bytes|
    ensures CountEnds(bytes[start..end], 0, x - start) ==
            CountEnds(bytes, start, x)
            + if start < x == end < |bytes| && bytes[end - 1] == CR && bytes[end] == LF then 1 else 0
    decreases x
  {
    if start < x {
      CountEndsInSlice(bytes, start, end, x - 1);
      var slice := bytes[start..end];
      assert slice[x - 1 - start] == bytes[x - 1];
      assert x < end ==> slice[x - start] == bytes[x];
    }
  }

  function IndexedByteLength(index: LineIndex): nat {
    if index.boundaries == [] then 0 else index.boundaries[|index.boundaries| - 1]
  }

  lemma LengthIsIndexed(index: LineIndex, bytes: Bytes)
    requires Indexes(index, bytes)
    ensures IndexedByteLength(index) == |bytes|
  {
    IndexCountsLines(index, bytes);
    if bytes == [] && index.boundaries != [] {
      assert IsBoundary(bytes, index.boundaries[0]);
    }
  }

  /** The boundaries in a range, corrected at its two ends, are the terminators of its bytes alone. */
  lemma RangeTerminators(index: LineIndex, bytes: Bytes, start: nat, end: nat, first: nat, final: nat)
    requires Indexes(index, bytes) && start < end <= |bytes| && first <= |index.boundaries|
             && final <= |index.boundaries|
    requires forall i | 0 <= i < first :: index.boundaries[i] <= start
    requires forall i | first <= i < |index.boundaries| :: start < index.boundaries[i]
    requires forall i | 0 <= i < final :: index.boundaries[i] <= end
    requires forall i | final <= i < |index.boundaries| :: end < index.boundaries[i]
    ensures CountEnds(bytes[start..end], 0, end - start) ==
            final - first
            - (if end == |bytes| && !IsTerminatorByte(bytes[end - 1]) then 1 else 0)
            + if end < |bytes| && bytes[end - 1] == CR && bytes[end] == LF then 1 else 0
  {
    BoundariesUpTo(index, bytes, start, first);
    BoundariesUpTo(index, bytes, end, final);
    CountEndsSplit(bytes, 0, start, end);
    CountEndsInSlice(bytes, start, end, end);
    LastTerminator(bytes);
  }

  /** An index for bytes of another length is refused, and so is a range outside the bytes; otherwise, if the
      index is that of the bytes, the answer is what a scan of the range alone would give. */
  method MetricsForRange(
    index: LineIndex, bytes: Bytes, start: nat, end: nat)
    returns (r: Result<LineMetrics, CoreError>)
    requires StrictlyIncreasing(index.boundaries)  // as in every index that can be built
    ensures r == Err(InvalidDomainValue("line_metrics_indexed_bytes")) <==> IndexedByteLength(index) != |bytes|
    ensures r.Ok? <==> IndexedByteLength(index) == |bytes| && start <= end <= |bytes|
    ensures r.Ok? && Indexes(index, bytes) ==> r.value == Metrics(bytes[start..end])
  {
    if IndexedByteLength(index) != |bytes| {
      return Err(InvalidDomainValue("line_metrics_indexed_bytes"));
    }
    if start > end || end > |bytes| {
      return Err(InvalidDomainValue("line_metrics_range"));
    }
    if start == end {
      return Ok(EMPTY_METRICS);
    }
    var first := PartitionPoint(index.boundaries, start);
    var final := PartitionPoint(index.boundaries, end);
    if Indexes(index, bytes) {
      RangeTerminators(index, bytes, start, end, first, final);
    }
    PointsAreOrdered(index.boundaries, start, end, first, final);
    var terminatorCount := final - first;
    if end == |bytes| && !IsTerminatorByte(bytes[end - 1]) {
      terminatorCount := terminatorCount - 1;
    }
    if end < |bytes| && bytes[end - 1] == CR && bytes[end] == LF {
      terminatorCount := terminatorCount + 1;
    }
    return Ok(LineMetrics(end - start, terminatorCount, Some(bytes[start]), Some(bytes[end - 1])));
  }

  // ----- composition

  function Append(m: LineMetrics, following: LineMetrics): Result<LineMetrics, CoreError> {
    if following.byteCount == 0 then Ok(m)
    else if m.byteCount == 0 then Ok(following)
    else if m.byteCount + following.byteCount >= U64 then Err(ResourceLimitExceeded("line_metric_bytes"))
    else
      var merge := m.lastByte == Some(CR) && following.firstByte == Some(LF);
      if merge && following.terminatorCount == 0 then
        Err(InvalidDomainValue("line_metrics_summary"))
      else
        var terminators := following.terminatorCount - if merge then 1 else 0;
        if m.terminatorCount + terminators >= U64 then Err(ResourceLimitExceeded("line_count"))
        else Ok(m.(byteCount := m.byteCount + following.byteCount,
                   terminatorCount := m.terminatorCount + terminators,
                   lastByte := following.lastByte))
  }

  lemma {:induction false} CountEndsPrefix(a: Bytes, b: Bytes, x: nat)
    requires x <= |a|
    ensures CountEnds(a + b, 0, x) ==
            CountEnds(a, 0, x) - if 0 < x == |a| && b != [] && a[x - 1] == CR && b[0] == LF then 1 else 0
  {
    if x > 0 {
      CountEndsPrefix(a, b, x - 1);
      assert (a + b)[x - 1] == a[x - 1];
      assert x < |a| ==> (a + b)[x] == a[x];
    }
  }

  lemma {:induction false} CountEndsSuffix(a: Bytes, b: Bytes, x: nat)
    requires x <= |b|
    ensures CountEnds(a + b, |a|, |a| + x) == CountEnds(b, 0, x)
  {
    if x > 0 {
      CountEndsSuffix(a, b, x - 1);
      assert (a + b)[|a| + x - 1] == b[x - 1];
      assert x < |b| ==> (a + b)[|a| + x] == b[x];
    }
  }

  lemma {:induction false} CountEndsBound(bytes: Bytes, hi: nat)
    ensures CountEnds(bytes, 0, hi) <= hi
  {
    if hi > 0 {
      CountEndsBound(bytes, hi - 1);
    }
  }

  /** The length of the concatenation can be counted. */
  predicate Countable(a: Bytes, b: Bytes) {
    a == [] || b == [] || |a| + |b| < U64
  }

  lemma TerminatorsOfConcatenation(a: Bytes, b: Bytes)
    requires a != [] && b != []
    ensures CountEnds(a + b, 0, |a + b|) ==
            CountEnds(a, 0, |a|) + CountEnds(b, 0, |b|) - if a[|a| - 1] == CR && b[0] == LF then 1 else 0
    ensures b[0] == LF ==> CountEnds(b, 0, |b|) > 0
  {
    CountEndsSplit(a + b, 0, |a|, |a + b|);
    CountEndsPrefix(a, b, |a|);
    CountEndsSuffix(a, b, |b|);
    if b[0] == LF {
      CountEndsSplit(b, 0, 1, |b|);
      assert EndsLine(b, 1);
      assert CountEnds(b, 0, 1) == CountEnds(b, 0, 0) + 1;
    }
  }

  /** Summaries compose as the bytes do, a CR and a following LF merging into one terminator, until the byte
      count overflows; the line count never does so first. */
  lemma AppendIsConcatenation(a: Bytes, b: Bytes)
    ensures Append(Metrics(a), Metrics(b)) ==
            if Countable(a, b) then Ok(Metrics(a + b)) else Err(ResourceLimitExceeded("line_metric_bytes"))
  {
    if a == [] {
      assert a + b == b;
    } else if b == [] {
      assert a + b == a;
    } else {
      TerminatorsOfConcatenation(a, b);
      CountEndsBound(a + b, |a + b|);
    }
  }
}
