/** The blocking reader agrees with the incremental decoder, and both undo the encoder. */
module FrameStreams {
  import opened Common
  import opened Headers
  import opened Framing
  import Utf8

  // ----- the first frame of a stream

  /** How a stream ends after its last byte. */
  datatype Ending = Eof | Failure

  function AtEnd(s: DecoderState, ending: Ending): Result<(), FrameError> {
    if ending == Eof then AtEof(s) else Err(ReadFailed(if s.Header? then HeaderSection else BodySection))
  }

  /** The body of the first frame and what follows it, nothing at EOF between frames, or an error. */
  function FirstFrame(limits: FramingLimits, s: DecoderState, stream: Bytes, ending: Ending):
    Result<Option<(Bytes, Bytes)>, FrameError>
    decreases |stream|
  {
    if stream == [] then
      if AtEnd(s, ending).Ok? then Ok(None) else Err(AtEnd(s, ending).error)
    else
      var step := Feed(limits, s, stream[0]);
      if step.Err? then Err(step.error)
      else if step.value.body.Some? then Ok(Some((step.value.body.value, stream[1..])))
      else FirstFrame(limits, step.value.state, stream[1..], ending)
  }

  /** The same, once the header is complete. */
  function FromHeader(limits: FramingLimits, header: Bytes, rest: Bytes, ending: Ending):
    Result<Option<(Bytes, Bytes)>, FrameError>
  {
    var step := AfterHeader(limits, header);
    if step.Err? then Err(step.error)
    else if step.value.body.Some? then Ok(Some((step.value.body.value, rest)))
    else FirstFrame(limits, step.value.state, rest, ending)
  }

  lemma {:induction false} FirstFrameBlock(
    limits: FramingLimits, bytes: Bytes, expected: nat, block: Bytes, rest: Bytes, ending: Ending)
    requires 0 < |block| && |bytes| + |block| <= expected
    ensures FirstFrame(limits, Body(bytes, expected), block + rest, ending) ==
              if |bytes| + |block| == expected then Ok(Some((bytes + block, rest)))
              else FirstFrame(limits, Body(bytes + block, expected), rest, ending)
    decreases |block|
  {
    var stream := block + rest;
    assert stream[0] == block[0] && stream[1..] == block[1..] + rest;
    assert bytes + block == bytes + [block[0]] + block[1..];
    if |block| > 1 {
      FirstFrameBlock(limits, bytes + [block[0]], expected, block[1..], rest, ending);
    } else {
      assert block[1..] + rest == rest && bytes + [block[0]] == bytes + block;
    }
  }

  // ----- the blocking reader

  datatype ReadResult = Data(bytes: Bytes) | Interrupted | Failed

  /** A byte stream whose reads return some of its bytes, or are interrupted, and which ends in EOF or fails. */
  class Reader {
    var rest: Bytes
    var interruptions: nat
    const ending: Ending

    constructor (stream: Bytes, interruptions: nat, ending: Ending)
      ensures rest == stream && this.ending == ending
    {
      rest, this.interruptions, this.ending := stream, interruptions, ending;
    }

    method Read(max: nat) returns (r: ReadResult)
      requires max > 0
      modifies this
      ensures r.Data? ==>
                && r.bytes + rest == old(rest) && |r.bytes| <= max && interruptions == old(interruptions)
                && (r.bytes == [] <==> old(rest) == []) && (r.bytes == [] ==> ending == Eof)
      ensures r.Interrupted? ==> rest == old(rest) && interruptions < old(interruptions)
      ensures r.Failed? ==> rest == old(rest) == [] && ending == Failure
    {
      var interrupted :| interrupted in {true, false};
      if interruptions > 0 && interrupted {
        interruptions := interruptions - 1;
        return Interrupted;
      }
      if rest == [] {
        return if ending == Eof then Data([]) else Failed;
      }
      var count :| 1 <= count <= |rest| && count <= max;
      r := Data(rest[..count]);
      rest := rest[count..];
    }
  }

  method ReadHeader(reader: Reader, limit: nat, ghost limits: FramingLimits)
    returns (r: Result<Option<Bytes>, FrameError>)
    requires limit == limits.maxHeader
    modifies reader
    ensures FirstFrame(limits, Header([]), old(reader.rest), reader.ending) ==
              match r
              case Err(e) => Err(e)
              case Ok(None) => Ok(None)
              case Ok(Some(header)) => FromHeader(limits, header, reader.rest, reader.ending)
    ensures r == Ok(None) ==> reader.rest == []
  {
    var header: Bytes := [];
    while true
      invariant FirstFrame(limits, Header(header), reader.rest, reader.ending) ==
                FirstFrame(limits, Header([]), old(reader.rest), reader.ending)
      decreases |reader.rest|, reader.interruptions
    {
      ghost var before := reader.rest;
      var read := reader.Read(1);
      if read.Interrupted? {
        continue;
      }
      if read.Failed? {
        return Err(ReadFailed(HeaderSection));
      }
      var b := read.bytes;
      if b == [] {
        return if header == [] then Ok(None) else Err(UnexpectedEof(HeaderSection));
      }
      assert before[0] == b[0] && before[1..] == reader.rest;
      if |header| == limit {
        return Err(HeaderTooLarge(limit));
      }
      if b[0] >= 128 {
        return Err(NonAsciiHeader);
      }
      header := header + [b[0]];
      if EndsWithTerminator(header) {
        return Ok(Some(header));
      }
      if |header| == limit {
        return Err(HeaderTooLarge(limit));
      }
    }
  }

  method ReadExactSection(
    reader: Reader, length: nat, ghost limits: FramingLimits)
    returns (r: Result<Bytes, FrameError>)
    requires length > 0
    modifies reader
    ensures FirstFrame(limits, Body([], length), old(reader.rest), reader.ending) ==
              match r case Err(e) => Err(e) case Ok(body) => Ok(Some((body, reader.rest)))
  {
    var body: Bytes := [];
    while |body| < length
      invariant |body| <= length
      invariant FirstFrame(limits, Body([], length), old(reader.rest), reader.ending) ==
                  if |body| == length then Ok(Some((body, reader.rest)))
                  else FirstFrame(limits, Body(body, length), reader.rest, reader.ending)
      decreases length - |body|, reader.interruptions
    {
      var read := reader.Read(length - |body|);
      if read.Interrupted? {
        continue;
      }
      if read.Failed? {
        return Err(ReadFailed(BodySection));
      }
      if read.bytes == [] {
        return Err(UnexpectedEof(BodySection));
      }
      FirstFrameBlock(limits, body, length, read.bytes, reader.rest, reader.ending);
      body := body + read.bytes;
    }
    return Ok(body);
  }

  /** Reads one frame: its body, nothing at EOF between frames, or the error of the incremental decoder; a read
      that fails is reported, and one that is interrupted changes nothing. */
  method ReadBody(reader: Reader, limits: FramingLimits) returns (r: Result<Option<Bytes>, FrameError>)
    modifies reader
    ensures match FirstFrame(limits, Header([]), old(reader.rest), reader.ending)
            case Err(e) => r == Err(e)
            case Ok(None) => r == Ok(None) && reader.rest == []
            case Ok(Some((body, rest))) => r == Ok(Some(body)) && reader.rest == rest
  {
    var header := ReadHeader(reader, limits.maxHeader, limits);
    if header.Err? {
      return Err(header.error);
    }
    if header.value.None? {
      return Ok(None);
    }
    var contentLength := ParseHeader(header.value.value);
    if contentLength.Err? {
      return Err(contentLength.error);
    }
    if contentLength.value > limits.maxInboundBody {
      return Err(InboundBodyTooLarge(contentLength.value, limits.maxInboundBody));
    }
    if contentLength.value == 0 {
      return Ok(Some([]));
    }
    var body := ReadExactSection(reader, contentLength.value, limits);
    return if body.Ok? then Ok(Some(body.value)) else Err(body.error);
  }

  // ----- agreement with the incremental decoder

  lemma CompletedBodyEndsFrame(limits: FramingLimits, s: DecoderState, b: byte)
    requires Feed(limits, s, b).Ok?
    ensures Feed(limits, s, b).value.body.Some? ==> Feed(limits, s, b).value.state == Header([])
    ensures Feed(limits, s, b).value.body.None? ==> Feed(limits, s, b).value.state != Header([])
  {
  }

  /** What a stream's outcome amounts to once it has ended. */
  function Ended(o: Outcome, ending: Ending): Result<(), FrameError> {
    if o.end.Err? then Err(o.end.error) else AtEnd(o.end.value, ending)
  }

  /** The decoder sees the same first frame, EOF or error. */
  lemma {:induction false} FirstFrameAgrees(limits: FramingLimits, s: DecoderState, stream: Bytes, ending: Ending)
    ensures var whole := FeedAll(limits, s, stream);
            match FirstFrame(limits, s, stream, ending)
            case Err(e) => whole.bodies == [] && Ended(whole, ending) == Err(e)
            case Ok(None) => whole == Outcome([], Ok(Header([]))) && stream == [] && ending == Eof
            case Ok(Some((body, rest))) =>
              var others := FeedAll(limits, Header([]), rest);
              |rest| < |stream| && whole == Outcome([body] + others.bodies, others.end)
    decreases |stream|
  {
    if stream != [] {
      var step := Feed(limits, s, stream[0]);
      if step.Ok? {
        CompletedBodyEndsFrame(limits, s, stream[0]);
        if step.value.body.None? {
          var rest := FeedAll(limits, step.value.state, stream[1..]);
          FirstFrameAgrees(limits, step.value.state, stream[1..], ending);
          assert [] + rest.bodies == rest.bodies;
        }
      }
    }
  }

  /** Reading frame after frame gives what the decoder gives for the whole stream, the class of EOF included,
      whatever sizes the reads return and however often they are interrupted. */
  method ReadAllBodies(reader: Reader, limits: FramingLimits) returns (bodies: seq<Bytes>, r: Result<(), FrameError>)
    modifies reader
    ensures var whole := FeedAll(limits, Header([]), old(reader.rest));
            bodies == whole.bodies && r == Ended(whole, reader.ending)
  {
    bodies := [];
    while true
      invariant var left := FeedAll(limits, Header([]), reader.rest);
                FeedAll(limits, Header([]), old(reader.rest)) == Outcome(bodies + left.bodies, left.end)
      decreases |reader.rest|
    {
      ghost var before := reader.rest;
      FirstFrameAgrees(limits, Header([]), before, reader.ending);
      var next := ReadBody(reader, limits);
      assert bodies + [] == bodies;
      if next.Err? {
        return bodies, Err(next.error);
      }
      if next.value.None? {
        return bodies, Ok(());
      }
      ghost var others := FeedAll(limits, Header([]), reader.rest).bodies;
      assert bodies + ([next.value.value] + others) == bodies + [next.value.value] + others;
      bodies := bodies + [next.value.value];
    }
  }

  // ----- the encoder

  const LENGTH_PREFIX := Ascii("Content-Length: ")

  /** The header line of a body, without its line end. */
  function LengthLine(length: nat): Bytes {
    LENGTH_PREFIX + Decimal(length)
  }

  function FrameHeader(length: nat): Bytes {
    LengthLine(length) + TERMINATOR
  }

  function Frame(body: Bytes): Bytes {
    FrameHeader(|body|) + body
  }

  method EncodeBody(body: Bytes, limits: FramingLimits) returns (r: Result<Bytes, FrameError>)
    ensures r.Ok? <==> |body| <= limits.maxOutboundBody && |FrameHeader(|body|)| + |body| < USIZE
    ensures r.Ok? ==> r.value == Frame(body)
    ensures r.Err? ==> r.error == OutboundBodyTooLarge(|body|, limits.maxOutboundBody)
  {
    if |body| > limits.maxOutboundBody {
      return Err(OutboundBodyTooLarge(|body|, limits.maxOutboundBody));
    }
    var header := LENGTH_PREFIX + Decimal(|body|) + [CR, LF, CR, LF];
    if |header| + |body| > 0xFFFF_FFFF_FFFF_FFFF {
      return Err(OutboundBodyTooLarge(|body|, limits.maxOutboundBody));
    }
    return Ok(header + body);
  }

  lemma LineIsPlain(length: nat)
    ensures forall i | 0 <= i < |LengthLine(length)| :: 32 <= LengthLine(length)[i] <= 126
    ensures |LENGTH_PREFIX| == 16 && LengthLine(length)[..14] == CONTENT_LENGTH
    ensures LengthLine(length)[14] == COLON && LengthLine(length)[15] == 32
            && LengthLine(length)[16..] == Decimal(length)
    ensures forall i | 0 <= i < 14 :: LengthLine(length)[i] != COLON && IsHeaderNameByte(LengthLine(length)[i])
  {
    var text := "Content-Length: ";
    assert |text| == 16;
    assert forall i | 0 <= i < 16 :: LENGTH_PREFIX[i] == text[i] as int;
    assert text[..14] == "Content-Length";
    forall i | 0 <= i < |LengthLine(length)| ensures 32 <= LengthLine(length)[i] <= 126 {
      if i >= 16 {
        assert LengthLine(length)[i] == Decimal(length)[i - 16];
      }
    }
  }

  lemma {:induction false} AsciiDecodes(b: Bytes)
    requires forall i | 0 <= i < |b| :: b[i] < 128
    ensures Utf8.DecodeAll(b).Some?
  {
    if b != [] {
      var c := b[0] as char;
      assert Utf8.Encode(c) == [b[0]] && b == [b[0]] + b[1..];
      Utf8.DecodesFirst(c, b[1..]);
      AsciiDecodes(b[1..]);
    }
  }

  lemma TrimsOneBlank(digits: Bytes)
    requires digits != [] && AllDigits(digits)
    ensures Trim([32] + digits) == digits
  {
    assert ([32] + digits)[1..] == digits;
  }

  /** The line that the encoder writes states the length. */
  lemma LengthLineMeansLength(length: nat)
    requires length < USIZE
    ensures TokenOf(LengthLine(length)) == LengthToken(Ok(length))
  {
    var line := LengthLine(length);
    LineIsPlain(length);
    FindByte(line, COLON, 14);
    TrimsOneBlank(Decimal(length));
    assert line[15..] == [32] + Decimal(length);
    assert ParseLine(line) == Some(Field(CONTENT_LENGTH, Decimal(length))) by {
      assert forall i | 0 <= i < |Decimal(length)| :: IsDigit(Decimal(length)[i]);
    }
    DecimalRoundTrip(length);
  }

  /** The header that the encoder writes announces the body's length. */
  lemma HeaderRoundTrip(length: nat)
    requires length < USIZE
    ensures HeaderLength(FrameHeader(length)) == Ok(length)
  {
    var header, line := FrameHeader(length), LengthLine(length);
    assert header[|header| - 4..] == TERMINATOR && header[..|header| - 4] == line;
    LineIsPlain(length);
    AsciiDecodes(line);
    FindNone(line, [CR, LF]);
    LengthLineMeansLength(length);
    assert HeaderTokens(header) == [LengthToken(Ok(length))];
    OneToken(length);
  }

  lemma OneToken(length: nat)
    ensures AddTokens([LengthToken(Ok(length))]) == Ok(Fields(Some(length), false))
  {
    assert [LengthToken(Ok(length))][..0] == [];
  }

  /** No proper prefix of a header is taken for a header. */
  lemma NoEarlyTerminator(length: nat, k: nat)
    requires k < |FrameHeader(length)|
    ensures !EndsWithTerminator(FrameHeader(length)[..k])
  {
    LineIsPlain(length);
    var p := FrameHeader(length)[..k];
    if k >= 4 {
      assert p[k - 4] == LengthLine(length)[k - 4];
      assert p[k - 4..][0] == p[k - 4];
    }
  }

  lemma FeedPrefixByte(limits: FramingLimits, header: Bytes, k: nat)
    requires k < |header| <= limits.maxHeader && header[k] < 128 && !EndsWithTerminator(header[..k + 1])
             && k + 1 < |header|
    ensures Feed(limits, Header(header[..k]), header[k]) == Ok(Step(Header(header[..k + 1]), None))
  {
    assert header[..k + 1] == header[..k] + [header[k]];
  }

  lemma {:induction false} FeedHeaderPrefix(limits: FramingLimits, length: nat, k: nat)
    requires k < |FrameHeader(length)| <= limits.maxHeader
    ensures FeedAll(limits, Header([]), FrameHeader(length)[..k]) == Outcome([], Ok(Header(FrameHeader(length)[..k])))
  {
    var header := FrameHeader(length);
    if k > 0 {
      FeedHeaderPrefix(limits, length, k - 1);
      NoEarlyTerminator(length, k);
      HeaderIsAscii(length, k - 1);
      FeedPrefixByte(limits, header, k - 1);
      OneByte(limits, Header(header[..k - 1]), header[k - 1]);
      FeedAllAppend(limits, Header([]), header[..k - 1], [header[k - 1]]);
      assert header[..k] == header[..k - 1] + [header[k - 1]];
    }
  }

  lemma HeaderIsAscii(length: nat, k: nat)
    requires k < |FrameHeader(length)|
    ensures FrameHeader(length)[k] < 128
  {
    LineIsPlain(length);
  }

  lemma OneByte(limits: FramingLimits, s: DecoderState, b: byte)
    ensures var step := Feed(limits, s, b);
            FeedAll(limits, s, [b]) ==
              if step.Err? then Outcome([], Err(step.error)) else Outcome(Bodies(step.value.body), Ok(step.value.state))
  {
    assert [b][1..] == [];
  }

  ghost predicate WithinLimits(limits: FramingLimits, body: Bytes) {
    |FrameHeader(|body|)| <= limits.maxHeader && |body| <= limits.maxInboundBody && |body| < USIZE
  }

  lemma FeedWholeHeader(limits: FramingLimits, body: Bytes)
    requires WithinLimits(limits, body)
    ensures FeedAll(limits, Header([]), FrameHeader(|body|)) ==
              if body == [] then Outcome([[]], Ok(Header([]))) else Outcome([], Ok(Body([], |body|)))
  {
    var header := FrameHeader(|body|);
    var k := |header| - 1;
    FeedHeaderPrefix(limits, |body|, k);
    assert header == header[..k] + [header[k]];
    FeedAllAppend(limits, Header([]), header[..k], [header[k]]);
    OneByte(limits, Header(header[..k]), header[k]);
    HeaderRoundTrip(|body|);
    assert header[|header| - 4..] == TERMINATOR;
  }

  /** Decoding a frame returns its body and leaves the decoder between frames. */
  lemma FrameRoundTrip(limits: FramingLimits, body: Bytes)
    requires WithinLimits(limits, body)
    ensures FeedAll(limits, Header([]), Frame(body)) == Outcome([body], Ok(Header([])))
  {
    FeedWholeHeader(limits, body);
    FeedAllAppend(limits, Header([]), FrameHeader(|body|), body);
    if body != [] {
      FeedBlock(limits, [], |body|, body);
      assert [] + body == body;
    }
  }

  function Frames(bodies: seq<Bytes>): Bytes {
    if bodies == [] then [] else Frame(bodies[0]) + Frames(bodies[1..])
  }

  /** Decoding any number of encoded frames returns exactly their bodies. */
  lemma {:induction false} FramesRoundTrip(limits: FramingLimits, bodies: seq<Bytes>)
    requires forall b | b in bodies :: WithinLimits(limits, b)
    ensures FeedAll(limits, Header([]), Frames(bodies)) == Outcome(bodies, Ok(Header([])))
  {
    if bodies != [] {
      FrameRoundTrip(limits, bodies[0]);
      FramesRoundTrip(limits, bodies[1..]);
      FeedAllAppend(limits, Header([]), Frame(bodies[0]), Frames(bodies[1..]));
    }
  }

  /** A header byte outside ASCII fails and completes nothing. */
  lemma BadHeaderByte(limits: FramingLimits, b: byte)
    requires limits.maxHeader > 0 && b >= 128
    ensures FeedAll(limits, Header([]), [b]) == Outcome([], Err(NonAsciiHeader))
  {
    assert [b][0] == b;
  }

  /** A frame followed by a byte outside ASCII: in chunks of their own the body is delivered, in one chunk
      it is dropped. */
  lemma ErrorsDropTheirChunk(limits: FramingLimits, body: Bytes, b: byte)
    requires WithinLimits(limits, body) && b >= 128
    ensures Drive(limits, Header([]), [Frame(body), [b]]) == Outcome([body], Err(NonAsciiHeader))
    ensures Drive(limits, Header([]), [Frame(body) + [b]]) == Outcome([], Err(NonAsciiHeader))
    ensures Dropped(limits, Header([]), [Frame(body) + [b]]) == [body]
  {
    BadHeaderByte(limits, b);
    FrameRoundTrip(limits, body);
    FeedAllAppend(limits, Header([]), Frame(body), [b]);
    assert [Frame(body), [b]][1..] == [[b]];
    assert Drive(limits, Header([]), [[b]]).bodies == [];
  }
}
