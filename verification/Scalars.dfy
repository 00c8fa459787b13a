/** Lines of UTF-8 text: where scalars begin, how wide they are and where a line's content ends. */
module Scalars {
  import opened Common
  import opened Lines
  import Utf8

  datatype Encoding = EncodingUtf8 | EncodingUtf16 | EncodingUtf32

  /** The number of code units of a scalar. */
  function WidthOf(encoding: Encoding, c: char): (w: nat)
    ensures 1 <= w <= 4
  {
    match encoding
    case EncodingUtf8 => |Utf8.Encode(c)|
    case EncodingUtf16 => if c as int < 0x10000 then 1 else 2
    case EncodingUtf32 => 1
  }

  /** The number of code units of the first `n` scalars. */
  function Units(encoding: Encoding, s: string, n: nat): nat
    requires n <= |s|
  {
    if n == 0 then 0 else Units(encoding, s, n - 1) + WidthOf(encoding, s[n - 1])
  }

  /** The byte at which a scalar begins. */
  function Offset(s: string, n: nat): nat
    requires n <= |s|
  {
    Units(EncodingUtf8, s, n)
  }

  lemma {:induction false} UnitsIncrease(encoding: Encoding, s: string, m: nat, n: nat)
    requires m < n <= |s|
    ensures Units(encoding, s, m) < Units(encoding, s, n)
  {
    if m < n - 1 {
      UnitsIncrease(encoding, s, m, n - 1);
    }
  }

  /** Different places have different units, in order. */
  lemma UnitsOrder(encoding: Encoding, s: string, m: nat, n: nat)
    requires m <= |s| && n <= |s|
    ensures Units(encoding, s, m) < Units(encoding, s, n) <==> m < n
    ensures Units(encoding, s, m) == Units(encoding, s, n) <==> m == n
  {
    if m < n {
      UnitsIncrease(encoding, s, m, n);
    } else if n < m {
      UnitsIncrease(encoding, s, n, m);
    }
  }

  lemma {:induction false} UnitsOfSlice(encoding: Encoding, s: string, from: nat, to: nat, n: nat)
    requires from <= to <= |s| && n <= to - from
    ensures Units(encoding, s, from + n) == Units(encoding, s, from) + Units(encoding, s[from..to], n)
  {
    if n > 0 {
      UnitsOfSlice(encoding, s, from, to, n - 1);
    }
  }

  // ----- character boundaries

  /** The scalar that begins at a byte, or the end. */
  function ScalarAt(s: string, b: nat): Option<nat> {
    ScalarFrom(s, 0, b)
  }

  function ScalarFrom(s: string, n: nat, b: nat): Option<nat>
    requires n <= |s|
    decreases |s| - n
  {
    if Offset(s, n) == b then Some(n) else if n == |s| then None else ScalarFrom(s, n + 1, b)
  }

  lemma {:induction false} ScalarFromFinds(s: string, n: nat, b: nat)
    requires n <= |s|
    ensures ScalarFrom(s, n, b).Some? ==>
              n <= ScalarFrom(s, n, b).value <= |s| && Offset(s, ScalarFrom(s, n, b).value) == b
    ensures ScalarFrom(s, n, b).None? ==> forall k | n <= k <= |s| :: Offset(s, k) != b
    decreases |s| - n
  {
    if Offset(s, n) != b && n < |s| {
      ScalarFromFinds(s, n + 1, b);
    }
  }

  /** A byte is a character boundary exactly when some scalar, or the end, is at it. */
  lemma ScalarAtFinds(s: string, b: nat)
    ensures ScalarAt(s, b).Some? ==> ScalarAt(s, b).value <= |s| && Offset(s, ScalarAt(s, b).value) == b
    ensures ScalarAt(s, b).None? ==> forall k | 0 <= k <= |s| :: Offset(s, k) != b
  {
    ScalarFromFinds(s, 0, b);
  }

  lemma ScalarAtOffset(s: string, n: nat)
    requires n <= |s|
    ensures ScalarAt(s, Offset(s, n)) == Some(n)
  {
    var r := ScalarAt(s, Offset(s, n));
    ScalarAtFinds(s, Offset(s, n));
    UnitsOrder(EncodingUtf8, s, r.value, n);
  }

  /** `&s[from..to]` in bytes. */
  function SubText(s: string, from: nat, to: nat): Option<string> {
    ScalarAtFinds(s, from);
    ScalarAtFinds(s, to);
    var m, n := ScalarAt(s, from), ScalarAt(s, to);
    if m.Some? && n.Some? && m.value <= n.value then Some(s[m.value..n.value]) else None
  }

  // ----- the bytes of a text

  lemma {:induction false} OffsetIsLength(s: string, n: nat)
    requires n <= |s|
    ensures Offset(s, n) == |Utf8.EncodeAll(s[..n])|
  {
    if n > 0 {
      OffsetIsLength(s, n - 1);
      ConcatMapPart(s, n - 1, Utf8.Encode);
    }
  }

  lemma EncodedLength(s: string)
    ensures |Utf8.EncodeAll(s)| == Offset(s, |s|)
  {
    OffsetIsLength(s, |s|);
    assert s[..|s|] == s;
  }

  /** The encoding of a text holds the encoding of each scalar at its offset. */
  lemma EncodedScalar(s: string, n: nat)
    requires n < |s|
    ensures Offset(s, n + 1) <= |Utf8.EncodeAll(s)|
    ensures Utf8.EncodeAll(s)[Offset(s, n)..Offset(s, n + 1)] == Utf8.Encode(s[n])
  {
    OffsetIsLength(s, n);
    OffsetIsLength(s, n + 1);
    ConcatMapPart(s, n, Utf8.Encode);
  }

  /** Some scalar covers every byte. */
  lemma {:induction false} Covered(s: string, i: nat, n: nat) returns (k: nat)
    requires n <= |s| && i < Offset(s, n)
    ensures k < n && Offset(s, k) <= i < Offset(s, k + 1)
  {
    if Offset(s, n - 1) <= i {
      k := n - 1;
    } else {
      k := Covered(s, i, n - 1);
    }
  }

  lemma MultiByteIsHigh(c: char, j: nat)
    requires j < |Utf8.Encode(c)| && Utf8.Encode(c)[j] < 128
    ensures |Utf8.Encode(c)| == 1
  {
  }

  /** An ASCII byte is a scalar of its own, so it begins and ends at character boundaries. */
  lemma AsciiByteIsScalar(s: string, i: nat)
    requires i < |Utf8.EncodeAll(s)| && Utf8.EncodeAll(s)[i] < 128
    ensures ScalarAt(s, i).Some? && ScalarAt(s, i + 1).Some?
  {
    EncodedLength(s);
    var k := Covered(s, i, |s|);
    EncodedScalar(s, k);
    var bytes := Utf8.EncodeAll(s);
    assert bytes[Offset(s, k)..Offset(s, k + 1)][i - Offset(s, k)] == bytes[i];
    MultiByteIsHigh(s[k], i - Offset(s, k));
    ScalarAtOffset(s, k);
    ScalarAtOffset(s, k + 1);
  }

  lemma EncodedSlice(s: string, m: nat, n: nat)
    requires m <= n <= |s|
    ensures Offset(s, m) <= Offset(s, n) <= |Utf8.EncodeAll(s)|
    ensures Utf8.EncodeAll(s[m..n]) == Utf8.EncodeAll(s)[Offset(s, m)..Offset(s, n)]
  {
    OffsetIsLength(s, m);
    OffsetIsLength(s, n);
    assert s == s[..m] + s[m..n] + s[n..] && s[..n] == s[..m] + s[m..n];
    ConcatMapAppend(s[..m], s[m..n], Utf8.Encode);
    ConcatMapAppend(s[..m] + s[m..n], s[n..], Utf8.Encode);
  }

  /** Slicing a text by bytes gives the text of those bytes, between character boundaries in order and nowhere
      else. */
  lemma SubTextMeans(s: string, from: nat, to: nat)
    ensures SubText(s, from, to).Some? <==> ScalarAt(s, from).Some? && ScalarAt(s, to).Some? && from <= to
    ensures SubText(s, from, to).Some? ==>
              to <= |Utf8.EncodeAll(s)| && Utf8.EncodeAll(SubText(s, from, to).value) == Utf8.EncodeAll(s)[from..to]
  {
    ScalarAtFinds(s, from);
    ScalarAtFinds(s, to);
    var m, n := ScalarAt(s, from), ScalarAt(s, to);
    if m.Some? && n.Some? {
      UnitsOrder(EncodingUtf8, s, m.value, n.value);
      UnitsOrder(EncodingUtf8, s, n.value, m.value);
      if m.value <= n.value {
        EncodedSlice(s, m.value, n.value);
      }
    }
  }

  /** UTF-16, as section 2.1 of RFC 2781 defines it: a scalar outside the basic plane takes two surrogates. */
  function Utf16(c: char): (u: seq<nat>) {
    var n := c as int;
    if n < 0x10000 then [n] else [0xD800 + (n - 0x10000) / 1024, 0xDC00 + (n - 0x10000) % 1024]
  }

  predicate IsHighSurrogate(u: nat) {
    0xD800 <= u < 0xDC00
  }

  predicate IsLowSurrogate(u: nat) {
    0xDC00 <= u < 0xE000
  }

  /** The scalar that one unit or a pair of surrogates stands for. */
  function FromUtf16(u: seq<nat>): Option<nat> {
    if |u| == 1 && u[0] < 0x10000 && !IsHighSurrogate(u[0]) && !IsLowSurrogate(u[0]) then Some(u[0])
    else if |u| == 2 && IsHighSurrogate(u[0]) && IsLowSurrogate(u[1]) then
      Some(0x10000 + (u[0] - 0xD800) * 1024 + (u[1] - 0xDC00))
    else None
  }

  /** The width in UTF-16 is the number of code units of the only encoding there is; in UTF-8 it is the number of
      bytes, and in UTF-32 one. */
  lemma WidthsAreEncodings(c: char, u: seq<nat>)
    ensures FromUtf16(u) == Some(c as int) ==> |u| == WidthOf(EncodingUtf16, c)
    ensures FromUtf16(Utf16(c)) == Some(c as int) && |Utf16(c)| == WidthOf(EncodingUtf16, c)
    ensures WidthOf(EncodingUtf8, c) == |Utf8.Encode(c)| && WidthOf(EncodingUtf32, c) == 1
  {
  }

  // ----- lines

  /** A text with the index of its lines. */
  datatype Document = Document(text: string, index: LineIndex)

  ghost predicate Valid(d: Document) {
    Indexes(d.index, Utf8.EncodeAll(d.text))
  }

  function LinesOf(d: Document): nat {
    |d.index.boundaries|
  }

  function StartOf(d: Document, line: nat): nat
    requires line < LinesOf(d)
  {
    if line == 0 then 0 else d.index.boundaries[line - 1]
  }

  function EndOf(d: Document, line: nat): nat
    requires line < LinesOf(d)
  {
    d.index.boundaries[line]
  }

  /** The length of the terminator at the end of a line. */
  function TerminatorLength(bytes: Bytes, start: nat, end: nat): nat
    requires start <= end <= |bytes|
  {
    if end - start >= 2 && bytes[end - 2] == CR && bytes[end - 1] == LF then 2
    else if end > start && IsTerminatorByte(bytes[end - 1]) then 1
    else 0
  }

  lemma LineInBounds(d: Document, line: nat)
    requires Valid(d) && line < LinesOf(d)
    ensures StartOf(d, line) < EndOf(d, line) <= |Utf8.EncodeAll(d.text)|
  {
    assert IsBoundary(Utf8.EncodeAll(d.text), EndOf(d, line));
  }

  function ContentEnd(d: Document, line: nat): nat
    requires Valid(d) && line < LinesOf(d)
  {
    LineInBounds(d, line);
    EndOf(d, line) - TerminatorLength(Utf8.EncodeAll(d.text), StartOf(d, line), EndOf(d, line))
  }

  /** Lines follow each other, and only the last one may lack a terminator. */
  lemma LineShape(d: Document, line: nat)
    requires Valid(d) && line < LinesOf(d)
    ensures StartOf(d, line) <= ContentEnd(d, line) <= EndOf(d, line) <= |Utf8.EncodeAll(d.text)|
    ensures line + 1 < LinesOf(d) ==> ContentEnd(d, line) < EndOf(d, line) == StartOf(d, line + 1)
    ensures ContentEnd(d, line) == EndOf(d, line) ==> EndOf(d, line) == |Utf8.EncodeAll(d.text)|
  {
    var bytes := Utf8.EncodeAll(d.text);
    LineInBounds(d, line);
    assert IsBoundary(bytes, EndOf(d, line));
    if line + 1 < LinesOf(d) {
      LineInBounds(d, line + 1);
    }
  }

  predicate IsTerminator(b: Bytes) {
    b == [LF] || b == [CR] || b == [CR, LF]
  }

  /** Between two boundaries of the index there is no third one. */
  lemma NoBoundaryInside(d: Document, line: nat, e: nat)
    requires Valid(d) && line < LinesOf(d) && StartOf(d, line) < e < EndOf(d, line)
    ensures !IsBoundary(Utf8.EncodeAll(d.text), e)
  {
    var bytes, b := Utf8.EncodeAll(d.text), d.index.boundaries;
    LineInBounds(d, line);
    forall k | 0 <= k < |b| ensures b[k] != e {
    }
  }

  /** A line's content has no terminator byte; what follows it up to the line's end is one terminator or, at the
      end of the text, nothing. */
  lemma ContentIsUnterminated(d: Document, line: nat)
    requires Valid(d) && line < LinesOf(d)
    ensures StartOf(d, line) <= ContentEnd(d, line) <= EndOf(d, line) <= |Utf8.EncodeAll(d.text)|
    ensures var bytes := Utf8.EncodeAll(d.text);
            && (forall i | StartOf(d, line) <= i < ContentEnd(d, line) :: !IsTerminatorByte(bytes[i]))
            && var rest := bytes[ContentEnd(d, line)..EndOf(d, line)];
               IsTerminator(rest) || (rest == [] && EndOf(d, line) == |bytes|)
  {
    LineShape(d, line);
    var bytes := Utf8.EncodeAll(d.text);
    forall i | StartOf(d, line) <= i < ContentEnd(d, line) ensures !IsTerminatorByte(bytes[i]) {
      ContentByte(d, line, i);
    }
  }

  lemma ContentByte(d: Document, line: nat, i: nat)
    requires Valid(d) && line < LinesOf(d) && StartOf(d, line) <= i < ContentEnd(d, line)
    ensures i < |Utf8.EncodeAll(d.text)| && !IsTerminatorByte(Utf8.EncodeAll(d.text)[i])
  {
    LineShape(d, line);
    var bytes, end := Utf8.EncodeAll(d.text), EndOf(d, line);
    if IsTerminatorByte(bytes[i]) {
      if i + 1 < end {
        NoBoundaryInside(d, line, i + 1);
        assert bytes[i] == CR && bytes[i + 1] == LF;
        if i + 2 < end {
          NoBoundaryInside(d, line, i + 2);
        }
      }
    }
  }

  lemma {:induction false} LinesAreOrdered(d: Document, line: nat, later: nat)
    requires Valid(d) && line < later < LinesOf(d)
    ensures ContentEnd(d, line) < EndOf(d, line) <= StartOf(d, later)
  {
    LineShape(d, line);
    LineShape(d, later - 1);
    if line + 1 < later {
      LinesAreOrdered(d, line, later - 1);
    }
  }

  lemma EndIsBoundary(s: string)
    ensures ScalarAt(s, |Utf8.EncodeAll(s)|).Some?
  {
    EncodedLength(s);
    ScalarAtOffset(s, |s|);
  }

  lemma AfterAscii(s: string, bytes: Bytes, b: nat)
    requires bytes == Utf8.EncodeAll(s) && 0 < b <= |bytes| && bytes[b - 1] < 128
    ensures ScalarAt(s, b).Some?
  {
    AsciiByteIsScalar(s, b - 1);
  }

  lemma StartIsText(d: Document, line: nat)
    requires Valid(d) && line < LinesOf(d)
    ensures ScalarAt(d.text, StartOf(d, line)).Some?
  {
    if line == 0 {
      assert Offset(d.text, 0) == 0;
      ScalarAtOffset(d.text, 0);
    } else {
      var bytes := Utf8.EncodeAll(d.text);
      LineInBounds(d, line);
      assert IsBoundary(bytes, EndOf(d, line - 1));
      AfterAscii(d.text, bytes, StartOf(d, line));
    }
  }

  lemma ContentEndIsText(d: Document, line: nat)
    requires Valid(d) && line < LinesOf(d)
    ensures ScalarAt(d.text, ContentEnd(d, line)).Some?
  {
    LineShape(d, line);
    var bytes := Utf8.EncodeAll(d.text);
    if ContentEnd(d, line) < EndOf(d, line) {
      assert IsTerminatorByte(bytes[ContentEnd(d, line)]);
      AsciiByteIsScalar(d.text, ContentEnd(d, line));
    } else {
      EndIsBoundary(d.text);
    }
  }

  /** The scalars of a line without its terminator. */
  function Content(d: Document, line: nat): string
    requires Valid(d) && line < LinesOf(d)
  {
    var content := SubText(d.text, StartOf(d, line), ContentEnd(d, line));
    if content.Some? then content.value else ""
  }

  lemma ContentIsSlice(d: Document, line: nat) returns (m: nat, n: nat)
    requires Valid(d) && line < LinesOf(d)
    ensures m <= n <= |d.text| && Content(d, line) == d.text[m..n]
    ensures SubText(d.text, StartOf(d, line), ContentEnd(d, line)) == Some(Content(d, line))
    ensures Offset(d.text, m) == StartOf(d, line) && Offset(d.text, n) == ContentEnd(d, line)
  {
    StartIsText(d, line);
    ContentEndIsText(d, line);
    LineShape(d, line);
    ScalarAtFinds(d.text, StartOf(d, line));
    ScalarAtFinds(d.text, ContentEnd(d, line));
    m, n := ScalarAt(d.text, StartOf(d, line)).value, ScalarAt(d.text, ContentEnd(d, line)).value;
    UnitsOrder(EncodingUtf8, d.text, n, m);
  }

  /** Offsets in a line's content are offsets in the text. */
  lemma ContentOffsets(d: Document, line: nat, i: nat)
    requires Valid(d) && line < LinesOf(d) && i <= |Content(d, line)|
    ensures ScalarAt(d.text, StartOf(d, line) + Offset(Content(d, line), i)).Some?
    ensures StartOf(d, line) + Offset(Content(d, line), i) <= ContentEnd(d, line)
    ensures StartOf(d, line) + Offset(Content(d, line), |Content(d, line)|) == ContentEnd(d, line)
  {
    var m, n := ContentIsSlice(d, line);
    SliceOffsets(d.text, m, n, i);
    SliceOffsets(d.text, m, n, n - m);
  }

  lemma SliceOffsets(s: string, m: nat, n: nat, i: nat)
    requires m <= n <= |s| && i <= n - m
    ensures Offset(s, m) + Offset(s[m..n], i) == Offset(s, m + i) <= Offset(s, n)
    ensures ScalarAt(s, Offset(s, m) + Offset(s[m..n], i)).Some?
  {
    UnitsOfSlice(EncodingUtf8, s, m, n, i);
    ScalarAtOffset(s, m + i);
    UnitsOrder(EncodingUtf8, s, n, m + i);
  }

  /** A character boundary of the text inside a line's content is one of the content. */
  lemma BoundaryInContent(d: Document, line: nat, b: nat) returns (i: nat)
    requires Valid(d) && line < LinesOf(d)
    requires ScalarAt(d.text, b).Some? && StartOf(d, line) <= b <= ContentEnd(d, line)
    ensures i <= |Content(d, line)| && b == StartOf(d, line) + Offset(Content(d, line), i)
  {
    var m, n := ContentIsSlice(d, line);
    ScalarAtFinds(d.text, b);
    var k := ScalarAt(d.text, b).value;
    UnitsOrder(EncodingUtf8, d.text, k, m);
    UnitsOrder(EncodingUtf8, d.text, n, k);
    i := k - m;
    UnitsOfSlice(EncodingUtf8, d.text, m, n, i);
  }
}
