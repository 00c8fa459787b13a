/** Conversion between LSP positions, user columns and bytes of an immutable snapshot. */
module Positions {
  import opened Common
  import opened Lines
  import opened Scalars
  import Utf8

  const U32: nat := 0x1_0000_0000

  datatype PositionError =
    | InvalidSnapshotIndex
    | NonexistentLine
    | CharacterSplitsCodeUnit
    | InvalidRange
    | InvalidUserPosition
    | ByteNotRepresentable
    | WorkLimitExceeded

  datatype Position = Position(line: nat, character: nat)

  datatype LineBounds = LineBounds(line: nat, start: nat, contentEnd: nat)

  // ----- which byte a position is at

  ghost predicate AtScalar(d: Document, e: Encoding, p: Position, b: nat, i: nat) {
    && Valid(d) && p.line < LinesOf(d) && i <= |Content(d, p.line)|
    && b == StartOf(d, p.line) + Offset(Content(d, p.line), i)
    && p.character == Units(e, Content(d, p.line), i)
  }

  /** A position counts the units from the line's start to a scalar of its content, or to its end. */
  ghost predicate At(d: Document, e: Encoding, p: Position, b: nat) {
    exists i :: AtScalar(d, e, p, b, i)
  }

  /** User lines and columns count from one, columns in scalars. */
  ghost predicate UserAt(d: Document, line: nat, column: nat, b: nat) {
    line > 0 && column > 0 && At(d, EncodingUtf32, Position(line - 1, column - 1), b)
  }

  /** Every position is at a character boundary inside its line's content. */
  lemma PositionsAreInside(d: Document, e: Encoding, p: Position, b: nat)
    requires At(d, e, p, b)
    ensures ScalarAt(d.text, b).Some? && StartOf(d, p.line) <= b <= ContentEnd(d, p.line)
  {
    var i :| AtScalar(d, e, p, b, i);
    ContentOffsets(d, p.line, i);
  }

  /** A position never counts a terminator: it is not beyond its line's content, and no byte from the line's
      start to it is a CR or LF. */
  lemma PositionsSkipTerminators(d: Document, e: Encoding, p: Position, b: nat)
    requires At(d, e, p, b)
    ensures b <= ContentEnd(d, p.line) <= |Utf8.EncodeAll(d.text)|
    ensures forall i | StartOf(d, p.line) <= i < b :: !IsTerminatorByte(Utf8.EncodeAll(d.text)[i])
  {
    PositionsAreInside(d, e, p, b);
    ContentIsUnterminated(d, p.line);
  }

  predicate Before(p: Position, q: Position) {
    p.line < q.line || (p.line == q.line && p.character < q.character)
  }

  /** Positions and their bytes are in the same order, so that each determines the other. */
  lemma PositionsAreOrdered(d: Document, e: Encoding, p: Position, b: nat, q: Position, c: nat)
    requires At(d, e, p, b) && At(d, e, q, c)
    ensures Before(p, q) <==> b < c
    ensures p == q <==> b == c
  {
    if p.line == q.line {
      var i :| AtScalar(d, e, p, b, i);
      var j :| AtScalar(d, e, q, c, j);
      UnitsOrder(e, Content(d, p.line), i, j);
      UnitsOrder(e, Content(d, p.line), j, i);
      UnitsOrder(EncodingUtf8, Content(d, p.line), i, j);
      UnitsOrder(EncodingUtf8, Content(d, p.line), j, i);
    } else {
      PositionsAreInside(d, e, p, b);
      PositionsAreInside(d, e, q, c);
      if p.line < q.line {
        LinesAreOrdered(d, p.line, q.line);
      } else {
        LinesAreOrdered(d, q.line, p.line);
      }
    }
  }

  /** A boundary inside a line's content is a position in every encoding. */
  lemma BoundariesArePositions(d: Document, e: Encoding, line: nat, b: nat) returns (p: Position)
    requires Valid(d) && line < LinesOf(d) && ScalarAt(d.text, b).Some?
    requires StartOf(d, line) <= b <= ContentEnd(d, line)
    ensures p.line == line && At(d, e, p, b)
  {
    var i := BoundaryInContent(d, line, b);
    p := Position(line, Units(e, Content(d, line), i));
    assert AtScalar(d, e, p, b, i);
  }

  // ----- units of one line

  ghost predicate LandsAt(e: Encoding, content: string, character: nat, b: nat, i: nat) {
    && i <= |content|
    && b == Offset(content, i)
    && (Units(e, content, i) == character || (i == |content| && Units(e, content, i) < character))
  }

  ghost predicate SplitsAt(e: Encoding, content: string, character: nat, i: nat) {
    i < |content| && Units(e, content, i) < character < Units(e, content, i + 1)
  }

  /** What a count of units denotes in a line: a scalar, the end if it is too large, or the inside of a scalar. */
  ghost predicate UnitsMean(e: Encoding, content: string, character: nat, r: Result<nat, PositionError>) {
    match r
    case Ok(b) => exists i :: LandsAt(e, content, character, b, i)
    case Err(error) => error == CharacterSplitsCodeUnit && exists i :: SplitsAt(e, content, character, i)
  }

  /** Counts beyond the line's end mean its end. */
  function Clamped(e: Encoding, content: string, character: nat): nat {
    if character < Units(e, content, |content|) then character else Units(e, content, |content|)
  }

  lemma LandedPosition(d: Document, e: Encoding, p: Position, b: nat, i: nat)
    requires Valid(d) && p.line < LinesOf(d) && LandsAt(e, Content(d, p.line), p.character, b, i)
    ensures At(d, e, Position(p.line, Clamped(e, Content(d, p.line), p.character)), StartOf(d, p.line) + b)
  {
    var content := Content(d, p.line);
    UnitsOrder(e, content, |content|, i);
    assert AtScalar(d, e, Position(p.line, Clamped(e, content, p.character)), StartOf(d, p.line) + b, i);
  }

  lemma SplitPosition(d: Document, e: Encoding, p: Position, i: nat, b: nat)
    requires Valid(d) && p.line < LinesOf(d) && SplitsAt(e, Content(d, p.line), p.character, i)
    ensures !At(d, e, p, b)
  {
    if At(d, e, p, b) {
      var j :| AtScalar(d, e, p, b, j);
      UnitsOrder(e, Content(d, p.line), i, j);
      UnitsOrder(e, Content(d, p.line), j, i + 1);
    }
  }

  // ----- the work of a conversion

  /** The scalars from the `i`-th that a scan for a count of units examines. */
  function Scanned(e: Encoding, content: string, character: nat, i: nat): (n: nat)
    requires i <= |content|
    ensures i <= n <= |content|
    decreases |content| - i
  {
    if i < |content| && Units(e, content, i) < character then Scanned(e, content, character, i + 1) else i
  }

  /** UTF-8 offsets are found without a scan. */
  function PositionWork(d: Document, e: Encoding, p: Position): (n: nat)
    requires Valid(d)
    ensures n <= |d.text|
  {
    if p.line >= LinesOf(d) || e == EncodingUtf8 then 0
    else
      ContentFits(d, p.line);
      Scanned(e, Content(d, p.line), p.character, 0)
  }

  /** What an LSP position denotes: the byte it is at, the line's end if it is beyond that, or an error. */
  ghost predicate Denotes(d: Document, e: Encoding, p: Position, r: Result<nat, PositionError>) {
    && Valid(d)
    && (r.Ok? ==>
        p.line < LinesOf(d) && At(d, e, Position(p.line, Clamped(e, Content(d, p.line), p.character)), r.value))
    && (forall b: nat | At(d, e, p, b) :: r == Ok(b) || r == Err(WorkLimitExceeded))
    && (r == Err(NonexistentLine) <==> p.line >= LinesOf(d))
    && (r == Err(CharacterSplitsCodeUnit) ==> exists i :: SplitsAt(e, Content(d, p.line), p.character, i))
    && (r.Err? ==> r.error in {NonexistentLine, CharacterSplitsCodeUnit, WorkLimitExceeded})
  }

  lemma SplitIsNotClamped(d: Document, e: Encoding, p: Position, i: nat)
    requires Valid(d) && p.line < LinesOf(d) && SplitsAt(e, Content(d, p.line), p.character, i)
    ensures Clamped(e, Content(d, p.line), p.character) == p.character
  {
    UnitsOrder(e, Content(d, p.line), i + 1, |Content(d, p.line)|);
  }

  /** A position denotes one thing, whatever the budget: a character beyond the line's content denotes its end
      and nothing else. */
  lemma DenotationIsUnique(
    d: Document, e: Encoding, p: Position, r: Result<nat, PositionError>, r': Result<nat, PositionError>)
    requires Denotes(d, e, p, r) && Denotes(d, e, p, r')
    requires r != Err(WorkLimitExceeded) && r' != Err(WorkLimitExceeded)
    ensures r == r'
  {
    if r.Ok? && r'.Ok? {
      var q := Position(p.line, Clamped(e, Content(d, p.line), p.character));
      PositionsAreOrdered(d, e, q, r.value, q, r'.value);
    } else if r.Ok? && r' == Err(CharacterSplitsCodeUnit) {
      var i :| SplitsAt(e, Content(d, p.line), p.character, i);
      SplitIsNotClamped(d, e, p, i);
    } else if r'.Ok? && r == Err(CharacterSplitsCodeUnit) {
      var i :| SplitsAt(e, Content(d, p.line), p.character, i);
      SplitIsNotClamped(d, e, p, i);
    }
  }

  lemma LandedDenotes(d: Document, e: Encoding, p: Position, b: nat, i: nat)
    requires Valid(d) && p.line < LinesOf(d) && LandsAt(e, Content(d, p.line), p.character, b, i)
    ensures Denotes(d, e, p, Ok(StartOf(d, p.line) + b))
  {
    LandedPosition(d, e, p, b, i);
    FoundDenotes(d, e, p, StartOf(d, p.line) + b);
  }

  lemma FoundDenotes(d: Document, e: Encoding, p: Position, b: nat)
    requires Valid(d) && p.line < LinesOf(d)
    requires At(d, e, Position(p.line, Clamped(e, Content(d, p.line), p.character)), b)
    ensures Denotes(d, e, p, Ok(b))
  {
    forall c: nat | At(d, e, p, c) ensures b == c {
      LandedExactly(d, e, p, b, c);
    }
  }

  lemma LandedExactly(d: Document, e: Encoding, p: Position, b: nat, c: nat)
    requires At(d, e, p, c) && At(d, e, Position(p.line, Clamped(e, Content(d, p.line), p.character)), b)
    ensures b == c
  {
    ExactIsNotClamped(d, e, p, c);
    PositionsAreOrdered(d, e, p, c, p, b);
  }

  lemma SplitDenotes(d: Document, e: Encoding, p: Position, i: nat)
    requires Valid(d) && p.line < LinesOf(d) && SplitsAt(e, Content(d, p.line), p.character, i)
    ensures Denotes(d, e, p, Err(CharacterSplitsCodeUnit))
  {
    forall b: nat ensures !At(d, e, p, b) {
      SplitPosition(d, e, p, i, b);
    }
  }

  lemma UnitsDenote(d: Document, e: Encoding, p: Position, r: Result<nat, PositionError>)
    requires Valid(d) && p.line < LinesOf(d) && UnitsMean(e, Content(d, p.line), p.character, r)
    ensures Denotes(d, e, p, if r.Ok? then Ok(StartOf(d, p.line) + r.value) else r)
  {
    if r.Ok? {
      var i :| LandsAt(e, Content(d, p.line), p.character, r.value, i);
      LandedDenotes(d, e, p, r.value, i);
    } else {
      var i :| SplitsAt(e, Content(d, p.line), p.character, i);
      SplitDenotes(d, e, p, i);
    }
  }

  /** A later position never denotes an earlier byte, clamped or not. */
  lemma AcceptedPositionsAreMonotone(
    d: Document, e: Encoding, p: Position, b: Result<nat, PositionError>, q: Position, c: Result<nat, PositionError>)
    requires Denotes(d, e, p, b) && Denotes(d, e, q, c) && b.Ok? && c.Ok? && Before(p, q)
    ensures b.value <= c.value
  {
    var p' := Position(p.line, Clamped(e, Content(d, p.line), p.character));
    var q' := Position(q.line, Clamped(e, Content(d, q.line), q.character));
    PositionsAreOrdered(d, e, p', b.value, q', c.value);
  }

  /** What a range denotes: both ends, if they denote bytes and the second is later. */
  ghost predicate RangeMeans(
    d: Document, e: Encoding, start: Position, end: Position, r: Result<(nat, nat), PositionError>)
  {
    match r
    case Ok(bytes) => bytes.0 < bytes.1 && Denotes(d, e, start, Ok(bytes.0)) && Denotes(d, e, end, Ok(bytes.1))
    case Err(error) =>
      if error == InvalidRange then
        exists b: nat, c: nat | c <= b :: Denotes(d, e, start, Ok(b)) && Denotes(d, e, end, Ok(c))
      else
        Denotes(d, e, start, Err(error)) || Denotes(d, e, end, Err(error))
  }

  /** A range has one meaning, so it is refused exactly when it is wrong. */
  lemma RangeMeaningIsUnique(
    d: Document, e: Encoding, start: Position, end: Position, b: nat, c: nat, r: Result<(nat, nat), PositionError>)
    requires Denotes(d, e, start, Ok(b)) && Denotes(d, e, end, Ok(c))
    requires RangeMeans(d, e, start, end, r) && r != Err(WorkLimitExceeded)
    ensures r == if b < c then Ok((b, c)) else Err(InvalidRange)
  {
    match r
    case Ok(bytes) =>
      DenotationIsUnique(d, e, start, Ok(b), Ok(bytes.0));
      DenotationIsUnique(d, e, end, Ok(c), Ok(bytes.1));
    case Err(error) =>
      if error == InvalidRange {
        var b': nat, c': nat :| c' <= b' && Denotes(d, e, start, Ok(b')) && Denotes(d, e, end, Ok(c'));
        DenotationIsUnique(d, e, start, Ok(b), Ok(b'));
        DenotationIsUnique(d, e, end, Ok(c), Ok(c'));
      } else if Denotes(d, e, start, Err(error)) {
        DenotationIsUnique(d, e, start, Ok(b), Err(error));
      } else {
        DenotationIsUnique(d, e, end, Ok(c), Err(error));
      }
  }

  /** What a byte's LSP position is: the one 32-bit position at it, if there is one. */
  ghost predicate Locates(d: Document, e: Encoding, b: nat, r: Result<Position, PositionError>) {
    && (r.Ok? ==> At(d, e, r.value, b) && r.value.line < U32 && r.value.character < U32)
    && (forall p: Position | At(d, e, p, b) && p.line < U32 && p.character < U32 ::
          r == Ok(p) || r == Err(WorkLimitExceeded))
    && (r.Err? ==> r.error in {ByteNotRepresentable, WorkLimitExceeded})
  }

  /** From a byte to its position and back is the same byte. */
  lemma ByteRoundTrip(d: Document, e: Encoding, b: nat, p: Position, r: Result<nat, PositionError>)
    requires Locates(d, e, b, Ok(p)) && Denotes(d, e, p, r) && r != Err(WorkLimitExceeded)
    ensures r == Ok(b)
  {
  }

  /** From a position to its byte and back is the same position, if and only if its character was not beyond
      the line's content; then it is the end of the content. */
  lemma PositionRoundTrip(d: Document, e: Encoding, p: Position, b: nat, r: Result<Position, PositionError>)
    requires Denotes(d, e, p, Ok(b)) && Locates(d, e, b, r) && r != Err(WorkLimitExceeded)
    requires p.line < U32 && p.character < U32
    ensures r == Ok(Position(p.line, Clamped(e, Content(d, p.line), p.character)))
    ensures r == Ok(p) <==> p.character <= Units(e, Content(d, p.line), |Content(d, p.line)|)
  {
  }

  lemma NoSuchLine(d: Document, e: Encoding, p: Position)
    requires Valid(d) && p.line >= LinesOf(d)
    ensures Denotes(d, e, p, Err(NonexistentLine))
  {
  }

  lemma ContentFits(d: Document, line: nat)
    requires Valid(d) && line < LinesOf(d)
    ensures |Content(d, line)| <= |d.text|
  {
    var m, n := ContentIsSlice(d, line);
  }

  /** A position that is at a byte needs no clamping. */
  lemma ExactIsNotClamped(d: Document, e: Encoding, p: Position, b: nat)
    requires At(d, e, p, b)
    ensures Clamped(e, Content(d, p.line), p.character) == p.character
  {
    var i :| AtScalar(d, e, p, b, i);
    UnitsOrder(e, Content(d, p.line), |Content(d, p.line)|, i);
  }

  /** UTF-8 offsets need no scan. */
  function Utf8UnitsToByte(content: string, character: nat): Result<nat, PositionError> {
    if character >= Offset(content, |content|) then Ok(Offset(content, |content|))
    else if ScalarAt(content, character).None? then Err(CharacterSplitsCodeUnit)
    else Ok(character)
  }

  lemma Utf8UnitsMean(content: string, character: nat)
    ensures UnitsMean(EncodingUtf8, content, character, Utf8UnitsToByte(content, character))
  {
    ScalarAtFinds(content, character);
    if character >= Offset(content, |content|) {
      assert LandsAt(EncodingUtf8, content, character, Offset(content, |content|), |content|);
    } else if ScalarAt(content, character).None? {
      var k := Covered(content, character, |content|);
      assert Offset(content, k) != character;
      assert SplitsAt(EncodingUtf8, content, character, k);
    } else {
      assert LandsAt(EncodingUtf8, content, character, character, ScalarAt(content, character).value);
    }
  }

  // ----- the converter

  class PositionConverter {
    const document: Document
    const encoding: Encoding
    const maximumCodePointsScanned: nat
    var codePointsScanned: nat

    /** The index was built from the text, and the budget is kept. */
    ghost predicate Ready()
      reads this
    {
      Valid(document) && codePointsScanned <= maximumCodePointsScanned
    }

    constructor (document: Document, encoding: Encoding, maximumCodePointsScanned: nat)
      ensures Valid(document) ==> Ready()
      ensures this.document == document && this.encoding == encoding && codePointsScanned == 0
      ensures this.maximumCodePointsScanned == maximumCodePointsScanned
    {
      this.document, this.encoding, this.maximumCodePointsScanned := document, encoding, maximumCodePointsScanned;
      codePointsScanned := 0;
    }

    /** A converter is refused exactly if the index is for text of another length; the index of the text itself
        never is. */
    static method New(document: Document, encoding: Encoding, maximumCodePointsScanned: nat)
      returns (r: Result<PositionConverter, PositionError>)
      requires StrictlyIncreasing(document.index.boundaries)  // as in every index that can be built
      ensures r.Ok? <==> IndexedByteLength(document.index) == |Utf8.EncodeAll(document.text)|
      ensures Valid(document) ==> r.Ok?
      ensures r.Err? ==> r.error == InvalidSnapshotIndex
      ensures r.Ok? ==>
                && fresh(r.value)
                && r.value.document == document && r.value.encoding == encoding
                && r.value.maximumCodePointsScanned == maximumCodePointsScanned
                && r.value.codePointsScanned == 0
    {
      var bytes := Utf8.EncodeAll(document.text);
      if Valid(document) {
        LengthIsIndexed(document.index, bytes);
      }
      var metrics := MetricsForRange(document.index, bytes, 0, |bytes|);
      if metrics.Err? {
        return Err(InvalidSnapshotIndex);
      }
      var converter := new PositionConverter(document, encoding, maximumCodePointsScanned);
      return Ok(converter);
    }

    method ChargeCodePoint() returns (ok: bool)
      requires Ready()
      modifies this
      ensures Ready()
      ensures ok <==> old(codePointsScanned) < maximumCodePointsScanned
      ensures codePointsScanned == old(codePointsScanned) + if ok then 1 else 0
    {
      if codePointsScanned + 1 > maximumCodePointsScanned {
        return false;
      }
      codePointsScanned := codePointsScanned + 1;
      return true;
    }

    function BoundsOf(line: nat): (r: Option<LineBounds>)
      requires Valid(document)
      ensures r.Some? <==> line < LinesOf(document)
      ensures r.Some? ==> r.value == LineBounds(line, StartOf(document, line), ContentEnd(document, line))
    {
      var start, end := LineStart(document.index, line + 1), LineEnd(document.index, line + 1);
      if start.None? || end.None? then None
      else
        LineInBounds(document, line);
        Some(LineBounds(line, start.value,
          end.value - TerminatorLength(Utf8.EncodeAll(document.text), start.value, end.value)))
    }

    /** The text of a line is always there. */
    method LineContent(bounds: LineBounds) returns (content: string)
      requires Ready() && BoundsOf(bounds.line) == Some(bounds)
      ensures content == Content(document, bounds.line)
    {
      ghost var m, n := ContentIsSlice(document, bounds.line);
      content := SubText(document.text, bounds.start, bounds.contentEnd).value;
    }

    /** Charges one unit for every scalar before the count is reached, and fails only for want of budget. */
    method EncodedUnitsToByte(content: string, character: nat) returns (r: Result<nat, PositionError>)
      requires Ready()
      modifies this
      ensures Ready()
      ensures r == Err(WorkLimitExceeded) <==>
              old(codePointsScanned) + Scanned(encoding, content, character, 0) > maximumCodePointsScanned
      ensures r != Err(WorkLimitExceeded) ==>
                && codePointsScanned == old(codePointsScanned) + Scanned(encoding, content, character, 0)
                && UnitsMean(encoding, content, character, r)
    {
      var byteOffset, units := 0, 0;
      for i := 0 to |content|
        invariant Ready() && codePointsScanned == old(codePointsScanned) + i
        invariant byteOffset == Offset(content, i)
        invariant units == Units(encoding, content, i) && units <= character
        invariant Scanned(encoding, content, character, 0) == Scanned(encoding, content, character, i)
      {
        if units == character {
          assert LandsAt(encoding, content, character, byteOffset, i);
          return Ok(byteOffset);
        }
        var charged := ChargeCodePoint();
        if !charged {
          return Err(WorkLimitExceeded);
        }
        var next := units + WidthOf(encoding, content[i]);
        assert next == Units(encoding, content, i + 1);
        if character < next {
          assert SplitsAt(encoding, content, character, i);
          return Err(CharacterSplitsCodeUnit);
        }
        units, byteOffset := next, byteOffset + WidthOf(EncodingUtf8, content[i]);
      }
      assert LandsAt(encoding, content, character, byteOffset, |content|);
      return Ok(byteOffset);
    }

    /** An LSP position denotes a byte exactly when it does not split a scalar; too large a character means
        the end of the line's content. */
    method LspPositionToByte(p: Position) returns (r: Result<nat, PositionError>)
      requires Ready()
      modifies this
      ensures Ready() && Denotes(document, encoding, p, r)
      ensures r == Err(WorkLimitExceeded) <==>
              old(codePointsScanned) + PositionWork(document, encoding, p) > maximumCodePointsScanned
      ensures r != Err(WorkLimitExceeded) ==>
                codePointsScanned == old(codePointsScanned) + PositionWork(document, encoding, p)
    {
      var bounds := BoundsOf(p.line);
      if bounds.None? {
        NoSuchLine(document, encoding, p);
        return Err(NonexistentLine);
      }
      var content := LineContent(bounds.value);
      ContentFits(document, p.line);
      var relative: Result<nat, PositionError>;
      if encoding == EncodingUtf8 {
        Utf8UnitsMean(content, p.character);
        relative := Utf8UnitsToByte(content, p.character);
      } else {
        relative := EncodedUnitsToByte(content, p.character);
      }
      if relative == Err(WorkLimitExceeded) {
        return relative;
      }
      UnitsDenote(document, encoding, p, relative);
      return if relative.Ok? then Ok(bounds.value.start + relative.value) else Err(relative.error);
    }

    /** A range has bytes exactly when both ends denote bytes and the second is later. */
    method LspRangeToByteRange(start: Position, end: Position) returns (r: Result<(nat, nat), PositionError>)
      requires Ready()
      modifies this
      ensures Ready() && RangeMeans(document, encoding, start, end, r)
      ensures var work := PositionWork(document, encoding, start) + PositionWork(document, encoding, end);
              && (r.Ok? ==> codePointsScanned == old(codePointsScanned) + work)
              && (r == Err(WorkLimitExceeded) ==> old(codePointsScanned) + work > maximumCodePointsScanned)
    {
      var first := LspPositionToByte(start);
      if first.Err? {
        return Err(first.error);
      }
      var last := LspPositionToByte(end);
      if last.Err? {
        return Err(last.error);
      }
      EndInText(document, encoding, end, last.value);
      if first.value >= last.value || last.value > Offset(document.text, |document.text|) {
        return Err(InvalidRange);
      }
      return Ok((first.value, last.value));
    }

    /** A binary search for the line whose content has a byte. */
    method LineForByte(b: nat) returns (r: Option<LineBounds>)
      requires Ready()
      ensures r.Some? ==>
                BoundsOf(r.value.line) == Some(r.value) && r.value.line < U32
                  && r.value.start <= b <= r.value.contentEnd
      ensures r.Some? ==> ScalarAt(document.text, b).Some?
      ensures r.None? && ScalarAt(document.text, b).Some? ==>
                forall l: nat | l < LinesOf(document) && l < U32 ::
                  !(StartOf(document, l) <= b <= ContentEnd(document, l))
    {
      var ends := document.index.boundaries;
      if ScalarAt(document.text, b).None? || |ends| == 0 {
        return None;
      }
      var low, high := 0, |ends| - 1;
      while low < high
        invariant 0 <= low <= high < |ends|
        invariant forall l | 0 <= l < low :: ends[l] < b
        invariant high < |ends| - 1 ==> b <= ends[high]
      {
        var middle := low + (high - low) / 2;
        if ends[middle] < b {
          low := middle + 1;
        } else {
          high := middle;
        }
      }
      var selected := if ends[low] == b && low < |ends| - 1 then low + 1 else low;
      SearchedLine(document, b, low, selected);
      if selected > 0xFFFF_FFFF {
        return None;
      }
      var bounds := BoundsOf(selected).value;
      if b < bounds.start || b > bounds.contentEnd {
        return None;
      }
      return Some(bounds);
    }

    method ByteToEncodedUnits(content: string, offset: nat) returns (r: Result<nat, PositionError>)
      requires Ready() && ScalarAt(content, offset).Some?
      modifies this
      ensures Ready() && codePointsScanned <= old(codePointsScanned) + |content|
      ensures r.Ok? ==>
                exists i | 0 <= i <= |content| ::
                  offset == Offset(content, i) && r.value == Units(encoding, content, i) < U32
      ensures r == Err(ByteNotRepresentable) ==>
                exists i | 0 <= i <= |content| :: offset == Offset(content, i) && U32 <= Units(encoding, content, i)
      ensures r == Err(WorkLimitExceeded) ==> old(codePointsScanned) + |content| > maximumCodePointsScanned
      ensures r.Err? ==> r.error in {ByteNotRepresentable, WorkLimitExceeded}
    {
      ScalarAtFinds(content, offset);
      ghost var k := ScalarAt(content, offset).value;
      var byteOffset, units, i := 0, 0, 0;
      while i < |content| && byteOffset != offset
        invariant 0 <= i <= k
        invariant Ready() && codePointsScanned == old(codePointsScanned) + i
        invariant byteOffset == Offset(content, i) && units == Units(encoding, content, i)
      {
        UnitsOrder(EncodingUtf8, content, i, k);
        var charged := ChargeCodePoint();
        if !charged {
          return Err(WorkLimitExceeded);
        }
        units, byteOffset := units + WidthOf(encoding, content[i]), byteOffset + WidthOf(EncodingUtf8, content[i]);
        i := i + 1;
      }
      UnitsOrder(EncodingUtf8, content, i, k);
      return if units <= 0xFFFF_FFFF then Ok(units) else Err(ByteNotRepresentable);
    }

    /** A byte has an LSP position exactly when it is a character boundary inside a line's content. */
    method ByteToLspPosition(b: nat) returns (r: Result<Position, PositionError>)
      requires Ready()
      modifies this
      ensures Ready() && codePointsScanned <= old(codePointsScanned) + |document.text|
      ensures Locates(document, encoding, b, r)
      ensures r == Err(WorkLimitExceeded) ==> old(codePointsScanned) + |document.text| > maximumCodePointsScanned
    {
      var bounds := LineForByte(b);
      if bounds.None? {
        NotInAnyLine(document, encoding, b);
        return Err(ByteNotRepresentable);
      }
      var line := bounds.value.line;
      var content := LineContent(bounds.value);
      ghost var m, n := ContentIsSlice(document, line);
      ghost var k := BoundaryInContent(document, line, b);
      var relative := b - bounds.value.start;
      ScalarAtOffset(content, k);
      if encoding == EncodingUtf8 {
        UnitsAreUnique(document, encoding, line, b, k, relative);
        return if relative <= 0xFFFF_FFFF then Ok(Position(line, relative)) else Err(ByteNotRepresentable);
      }
      var units := ByteToEncodedUnits(content, relative);
      if units.Err? && units.error == WorkLimitExceeded {
        return Err(WorkLimitExceeded);
      }
      ghost var i :| 0 <= i <= |content| && relative == Offset(content, i)
                     && (units.Ok? ==> units.value == Units(encoding, content, i) < U32)
                     && (units.Err? ==> U32 <= Units(encoding, content, i));
      UnitsAreUnique(document, encoding, line, b, i, Units(encoding, content, i));
      return if units.Ok? then Ok(Position(line, units.value)) else Err(ByteNotRepresentable);
    }

    /** The byte of a scalar column, never clamped. */
    method ScalarUnitsToByteExact(content: string, target: nat) returns (r: Result<nat, PositionError>)
      requires Ready()
      modifies this
      ensures Ready() && codePointsScanned <= old(codePointsScanned) + |content|
      ensures r.Ok? ==> target <= |content| && r.value == Offset(content, target)
      ensures r == Err(InvalidUserPosition) ==> target > |content|
      ensures r == Err(WorkLimitExceeded) ==> old(codePointsScanned) + |content| > maximumCodePointsScanned
      ensures r.Err? ==> r.error in {InvalidUserPosition, WorkLimitExceeded}
    {
      var byteOffset := 0;
      for scalars := 0 to |content|
        invariant Ready() && codePointsScanned == old(codePointsScanned) + scalars
        invariant byteOffset == Offset(content, scalars) && scalars <= target
      {
        if scalars == target {
          return Ok(byteOffset);
        }
        var charged := ChargeCodePoint();
        if !charged {
          return Err(WorkLimitExceeded);
        }
        byteOffset := byteOffset + WidthOf(EncodingUtf8, content[scalars]);
      }
      return if |content| == target then Ok(byteOffset) else Err(InvalidUserPosition);
    }

    method ColumnToByte(bounds: LineBounds, column: nat) returns (r: Result<nat, PositionError>)
      requires Ready() && BoundsOf(bounds.line) == Some(bounds)
      modifies this
      ensures Ready() && codePointsScanned <= old(codePointsScanned) + |document.text|
      ensures ColumnMeans(document, bounds.line, column, r)
      ensures r == Err(WorkLimitExceeded) ==> old(codePointsScanned) + |document.text| > maximumCodePointsScanned
    {
      var content := LineContent(bounds);
      ContentFits(document, bounds.line);
      var relative := ScalarUnitsToByteExact(content, column);
      return if relative.Ok? then Ok(bounds.start + relative.value) else Err(relative.error);
    }

    /** A line and column of the user's denote a byte exactly when both exist. */
    method UserLineScalarToByte(line: nat, column: nat) returns (r: Result<nat, PositionError>)
      requires Ready()
      modifies this
      ensures Ready() && codePointsScanned <= old(codePointsScanned) + |document.text|
      ensures UserDenotes(document, line, column, r)
      ensures r == Err(WorkLimitExceeded) ==> old(codePointsScanned) + |document.text| > maximumCodePointsScanned
      ensures r.Err? ==> r.error in {InvalidUserPosition, WorkLimitExceeded}
    {
      if line == 0 || column == 0 || line - 1 > 0xFFFF_FFFF {
        return Err(InvalidUserPosition);
      }
      var bounds := BoundsOf(line - 1);
      if bounds.None? {
        NoUserLine(document, line, column);
        return Err(InvalidUserPosition);
      }
      r := ColumnToByte(bounds.value, column - 1);
      ColumnDenotes(document, line - 1, column - 1, r);
    }

    /** The text from a line's start to a byte in it. */
    method TextBefore(bounds: LineBounds, b: nat, ghost i: nat) returns (prefix: string)
      requires Ready() && BoundsOf(bounds.line) == Some(bounds) && i <= |Content(document, bounds.line)|
      requires b == bounds.start + Offset(Content(document, bounds.line), i)
      ensures |prefix| == i <= |document.text|
    {
      ghost var m, n := ContentIsSlice(document, bounds.line);
      PrefixText(document.text, m, n, i);
      prefix := SubText(document.text, bounds.start, b).value;
    }

    method ScalarColumnBefore(bounds: LineBounds, b: nat, ghost i: nat) returns (r: Result<nat, PositionError>)
      requires Ready() && BoundsOf(bounds.line) == Some(bounds) && i <= |Content(document, bounds.line)|
      requires b == bounds.start + Offset(Content(document, bounds.line), i)
      modifies this
      ensures Ready() && codePointsScanned <= old(codePointsScanned) + |document.text|
      ensures r == Ok(i + 1)
              || (r == Err(WorkLimitExceeded) && old(codePointsScanned) + |document.text| > maximumCodePointsScanned)
    {
      var prefix := TextBefore(bounds, b, i);
      for scalars := 0 to |prefix|
        invariant Ready() && codePointsScanned == old(codePointsScanned) + scalars
      {
        var charged := ChargeCodePoint();
        if !charged {
          return Err(WorkLimitExceeded);
        }
      }
      return Ok(|prefix| + 1);
    }

    /** The physical line of a byte, by binary search. */
    method PhysicalLine(b: nat) returns (selected: nat)
      requires Ready() && LinesOf(document) > 0 && b <= |Utf8.EncodeAll(document.text)|
      ensures selected < LinesOf(document)
      ensures StartOf(document, selected) <= b <= EndOf(document, selected)
      ensures b == EndOf(document, selected) ==> selected == LinesOf(document) - 1
    {
      var ends := document.index.boundaries;
      var low, high := 0, |ends| - 1;
      while low < high
        invariant 0 <= low <= high < |ends|
        invariant forall l | 0 <= l < low :: ends[l] <= b
        invariant high < |ends| - 1 ==> b < ends[high]
      {
        var middle := low + (high - low) / 2;
        if ends[middle] <= b {
          low := middle + 1;
        } else {
          high := middle;
        }
      }
      selected := if ends[low] <= b then |ends| - 1 else low;
      IndexCountsLines(document.index, Utf8.EncodeAll(document.text));
      SomeLine(document);
    }

    /** A byte has a line, and a column exactly when it is not beyond its line's content. */
    method ByteToUserLineScalar(b: nat) returns (r: Result<(nat, Option<nat>), PositionError>)
      requires Ready()
      modifies this
      ensures Ready() && codePointsScanned <= old(codePointsScanned) + |document.text|
      ensures r.Ok? && r.value.1.Some? ==> UserAt(document, r.value.0, r.value.1.value, b)
      ensures r.Ok? && r.value.1.None? ==>
                && 0 < r.value.0 <= LinesOf(document)
                && ContentEnd(document, r.value.0 - 1) < b <= EndOf(document, r.value.0 - 1)
                && forall line: nat, column: nat :: !UserAt(document, line, column, b)
      ensures forall line: nat, column: nat | UserAt(document, line, column, b) && line <= U32 ::
                r == Ok((line, Some(column))) || r == Err(WorkLimitExceeded)
      ensures r == Err(ByteNotRepresentable) ==>
                ScalarAt(document.text, b).None? || LinesOf(document) == 0 || LinesOf(document) > U32
      ensures r == Err(WorkLimitExceeded) ==> old(codePointsScanned) + |document.text| > maximumCodePointsScanned
      ensures r.Err? ==> r.error in {ByteNotRepresentable, WorkLimitExceeded}
    {
      if ScalarAt(document.text, b).None? || LinesOf(document) == 0 {
        OnlyBoundariesAreUserPositions(document, b);
        return Err(ByteNotRepresentable);
      }
      BoundaryInText(document.text, b);
      var selected := PhysicalLine(b);
      UserLineIsPhysical(document, selected, b);
      if selected > 0xFFFF_FFFF {
        return Err(ByteNotRepresentable);
      }
      var bounds := BoundsOf(selected).value;
      if b > bounds.contentEnd {
        return Ok((selected + 1, None));
      }
      ghost var i := BoundaryInContent(document, selected, b);
      ColumnIsScalar(document, selected, i, b);
      var column := ScalarColumnBefore(bounds, b, i);
      OneUserPosition(document, selected + 1, i + 1, b);
      return if column.Ok? then Ok((selected + 1, Some(column.value))) else Err(column.error);
    }
  }

  // ----- user positions

  lemma {:induction false} ScalarUnits(s: string, n: nat)
    requires n <= |s|
    ensures Units(EncodingUtf32, s, n) == n
  {
    if n > 0 {
      ScalarUnits(s, n - 1);
    }
  }

  /** What a line and column of the user's denote: the byte they are at, or nothing. */
  ghost predicate UserDenotes(d: Document, line: nat, column: nat, r: Result<nat, PositionError>) {
    && (r.Ok? ==> UserAt(d, line, column, r.value))
    && (r == Err(InvalidUserPosition) && line <= U32 ==> forall b: nat :: !UserAt(d, line, column, b))
  }

  /** What a column of an existing line means, counted from zero. */
  ghost predicate ColumnMeans(d: Document, line: nat, column: nat, r: Result<nat, PositionError>) {
    && Valid(d) && line < LinesOf(d)
    && match r
       case Ok(b) => column <= |Content(d, line)| && b == StartOf(d, line) + Offset(Content(d, line), column)
       case Err(error) =>
         error == WorkLimitExceeded || (error == InvalidUserPosition && column > |Content(d, line)|)
  }

  lemma ColumnDenotes(d: Document, line: nat, column: nat, r: Result<nat, PositionError>)
    requires ColumnMeans(d, line, column, r)
    ensures UserDenotes(d, line + 1, column + 1, r)
  {
    var p := Position(line, column);
    if r.Ok? {
      ColumnIsScalar(d, line, column, r.value);
    } else if r.error == InvalidUserPosition {
      forall b: nat ensures !At(d, EncodingUtf32, p, b) {
        if At(d, EncodingUtf32, p, b) {
          ColumnIsInside(d, p, b);
        }
      }
    }
  }

  lemma ColumnIsInside(d: Document, p: Position, b: nat)
    requires At(d, EncodingUtf32, p, b)
    ensures p.character <= |Content(d, p.line)|
  {
    var k :| AtScalar(d, EncodingUtf32, p, b, k);
    ScalarUnits(Content(d, p.line), k);
  }

  lemma NoUserLine(d: Document, line: nat, column: nat)
    requires LinesOf(d) < line
    ensures UserDenotes(d, line, column, Err(InvalidUserPosition))
  {
  }

  lemma ColumnIsScalar(d: Document, line: nat, i: nat, b: nat)
    requires Valid(d) && line < LinesOf(d)
    ensures At(d, EncodingUtf32, Position(line, i), b) <==>
            i <= |Content(d, line)| && b == StartOf(d, line) + Offset(Content(d, line), i)
  {
    var p, content := Position(line, i), Content(d, line);
    if At(d, EncodingUtf32, p, b) {
      var k :| AtScalar(d, EncodingUtf32, p, b, k);
      ScalarUnits(content, k);
    }
    if i <= |content| && b == StartOf(d, line) + Offset(content, i) {
      ScalarUnits(content, i);
      assert AtScalar(d, EncodingUtf32, p, b, i);
    }
  }

  lemma OneUserPosition(d: Document, line: nat, column: nat, b: nat)
    requires UserAt(d, line, column, b)
    ensures forall l: nat, c: nat | UserAt(d, l, c, b) :: l == line && c == column
  {
    forall l: nat, c: nat | UserAt(d, l, c, b) ensures l == line && c == column {
      PositionsAreOrdered(d, EncodingUtf32, Position(l - 1, c - 1), b, Position(line - 1, column - 1), b);
    }
  }

  lemma OnlyBoundariesAreUserPositions(d: Document, b: nat)
    requires Valid(d) && (ScalarAt(d.text, b).None? || LinesOf(d) == 0)
    ensures forall line: nat, column: nat :: !UserAt(d, line, column, b)
  {
    forall line: nat, column: nat ensures !UserAt(d, line, column, b) {
      if UserAt(d, line, column, b) {
        PositionsAreInside(d, EncodingUtf32, Position(line - 1, column - 1), b);
      }
    }
  }

  /** Only the physical line of a byte can have a column for it. */
  lemma PositionIsOnPhysicalLine(d: Document, selected: nat, b: nat, p: Position)
    requires Valid(d) && selected < LinesOf(d) && StartOf(d, selected) <= b <= EndOf(d, selected)
    requires b == EndOf(d, selected) ==> selected == LinesOf(d) - 1
    requires At(d, EncodingUtf32, p, b)
    ensures p.line == selected && b <= ContentEnd(d, selected)
  {
    PositionsAreInside(d, EncodingUtf32, p, b);
    if p.line < selected {
      LinesAreOrdered(d, p.line, selected);
    } else if selected < p.line {
      LinesAreOrdered(d, selected, p.line);
    }
  }

  lemma UserLineIsPhysical(d: Document, selected: nat, b: nat)
    requires Valid(d) && selected < LinesOf(d) && StartOf(d, selected) <= b <= EndOf(d, selected)
    requires b == EndOf(d, selected) ==> selected == LinesOf(d) - 1
    ensures forall line: nat, column: nat | UserAt(d, line, column, b) ::
              line == selected + 1 && b <= ContentEnd(d, selected)
  {
    forall line: nat, column: nat | UserAt(d, line, column, b)
      ensures line == selected + 1 && b <= ContentEnd(d, selected)
    {
      PositionIsOnPhysicalLine(d, selected, b, Position(line - 1, column - 1));
    }
  }

  lemma BoundaryInText(s: string, b: nat)
    requires ScalarAt(s, b).Some?
    ensures b <= |Utf8.EncodeAll(s)|
  {
    ScalarAtFinds(s, b);
    EncodedLength(s);
    UnitsOrder(EncodingUtf8, s, |s|, ScalarAt(s, b).value);
  }

  lemma EndInText(d: Document, e: Encoding, p: Position, b: nat)
    requires Denotes(d, e, p, Ok(b))
    ensures b <= Offset(d.text, |d.text|)
  {
    PositionsAreInside(d, e, Position(p.line, Clamped(e, Content(d, p.line), p.character)), b);
    BoundaryInText(d.text, b);
    EncodedLength(d.text);
  }

  lemma PrefixText(s: string, m: nat, n: nat, i: nat)
    requires m <= n <= |s| && i <= n - m
    ensures SubText(s, Offset(s, m), Offset(s, m) + Offset(s[m..n], i)) == Some(s[m..m + i])
  {
    SliceOffsets(s, m, n, i);
    ScalarAtOffset(s, m);
    ScalarAtOffset(s, m + i);
  }

  lemma SomeLine(d: Document)
    requires Valid(d) && LinesOf(d) > 0
    ensures Utf8.EncodeAll(d.text) != []
  {
    LineInBounds(d, 0);
  }

  // ----- searching

  lemma SearchedLine(d: Document, b: nat, low: nat, selected: nat)
    requires Valid(d) && low < LinesOf(d)
    requires forall l | 0 <= l < low :: d.index.boundaries[l] < b
    requires low < LinesOf(d) - 1 ==> b <= d.index.boundaries[low]
    requires selected == if d.index.boundaries[low] == b && low < LinesOf(d) - 1 then low + 1 else low
    ensures forall l: nat | l < LinesOf(d) && StartOf(d, l) <= b <= ContentEnd(d, l) :: l == selected
  {
    forall l: nat | l < LinesOf(d) && StartOf(d, l) <= b <= ContentEnd(d, l) ensures l == selected {
      LineShape(d, l);
      if l > selected {
        LinesAreOrdered(d, selected, l);
      } else if l < selected {
        LineShape(d, low);
      }
    }
  }

  lemma NotInAnyLine(d: Document, e: Encoding, b: nat)
    requires Valid(d)
    requires ScalarAt(d.text, b).Some? ==>
               forall l: nat | l < LinesOf(d) && l < U32 :: !(StartOf(d, l) <= b <= ContentEnd(d, l))
    ensures forall p: Position | p.line < U32 && p.character < U32 :: !At(d, e, p, b)
  {
    forall p: Position | p.line < U32 && p.character < U32 ensures !At(d, e, p, b) {
      if At(d, e, p, b) {
        PositionsAreInside(d, e, p, b);
      }
    }
  }

  /** The only position of a byte is the one counted from its line's start. */
  lemma UnitsAreUnique(d: Document, e: Encoding, line: nat, b: nat, i: nat, units: nat)
    requires Valid(d) && line < LinesOf(d) && i <= |Content(d, line)|
    requires b == StartOf(d, line) + Offset(Content(d, line), i) && units == Units(e, Content(d, line), i)
    ensures At(d, e, Position(line, units), b)
    ensures forall p: Position | At(d, e, p, b) :: p == Position(line, units)
  {
    assert AtScalar(d, e, Position(line, units), b, i);
    forall p: Position | At(d, e, p, b) ensures p == Position(line, units) {
      PositionsAreOrdered(d, e, p, b, Position(line, units), b);
    }
  }
}
