/** Framing of LSP messages: an incremental decoder, a blocking reader and the encoder. */
module Framing {
  import opened Common
  import opened Headers
  import Utf8

  datatype FramingLimits = FramingLimits(maxHeader: nat, maxInboundBody: nat, maxOutboundBody: nat)

  datatype DecoderState = Header(bytes: Bytes) | Body(bytes: Bytes, expected: nat)

  /** A body in progress is incomplete. */
  predicate Incomplete(s: DecoderState) {
    s.Body? ==> |s.bytes| < s.expected
  }

  // ----- one byte at a time

  datatype Step = Step(state: DecoderState, body: Option<Bytes>)

  /** A complete header starts a body, or completes an empty one. */
  function AfterHeader(limits: FramingLimits, header: Bytes): Result<Step, FrameError> {
    var length := HeaderLength(header);
    if length.Err? then Err(length.error)
    else if length.value > limits.maxInboundBody then Err(InboundBodyTooLarge(length.value, limits.maxInboundBody))
    else if length.value == 0 then Ok(Step(Header([]), Some([])))
    else Ok(Step(Body([], length.value), None))
  }

  function FeedHeader(limits: FramingLimits, header: Bytes, b: byte): Result<Step, FrameError> {
    if |header| == limits.maxHeader then Err(HeaderTooLarge(limits.maxHeader))
    else if b >= 128 then Err(NonAsciiHeader)
    else if EndsWithTerminator(header + [b]) then AfterHeader(limits, header + [b])
    else if |header| + 1 == limits.maxHeader then Err(HeaderTooLarge(limits.maxHeader))
    else Ok(Step(Header(header + [b]), None))
  }

  function FeedBody(bytes: Bytes, expected: nat, b: byte): Step {
    if |bytes| + 1 == expected then Step(Header([]), Some(bytes + [b])) else Step(Body(bytes + [b], expected), None)
  }

  function Feed(limits: FramingLimits, s: DecoderState, b: byte): Result<Step, FrameError> {
    match s
    case Header(header) => FeedHeader(limits, header, b)
    case Body(bytes, expected) => Ok(FeedBody(bytes, expected, b))
  }

  // ----- a stream of bytes

  /** The bodies completed, and the state reached or the error met. */
  datatype Outcome = Outcome(bodies: seq<Bytes>, end: Result<DecoderState, FrameError>)

  function Bodies(body: Option<Bytes>): seq<Bytes> {
    if body.Some? then [body.value] else []
  }

  function FeedAll(limits: FramingLimits, s: DecoderState, stream: Bytes): Outcome
    decreases |stream|
  {
    if stream == [] then Outcome([], Ok(s))
    else
      var step := Feed(limits, s, stream[0]);
      if step.Err? then Outcome([], Err(step.error))
      else
        var rest := FeedAll(limits, step.value.state, stream[1..]);
        rest.(bodies := Bodies(step.value.body) + rest.bodies)
  }

  lemma {:induction false} FeedAllAppend(limits: FramingLimits, s: DecoderState, a: Bytes, b: Bytes)
    ensures var first := FeedAll(limits, s, a);
            FeedAll(limits, s, a + b) ==
              if first.end.Err? then first
              else
                var second := FeedAll(limits, first.end.value, b);
                Outcome(first.bodies + second.bodies, second.end)
    decreases |a|
  {
    if a == [] {
      assert a + b == b;
      assert [] + FeedAll(limits, s, b).bodies == FeedAll(limits, s, b).bodies;
    } else {
      assert (a + b)[0] == a[0] && (a + b)[1..] == a[1..] + b;
      var step := Feed(limits, s, a[0]);
      if step.Ok? {
        FeedAllAppend(limits, step.value.state, a[1..], b);
        var done, first := Bodies(step.value.body), FeedAll(limits, step.value.state, a[1..]);
        if first.end.Ok? {
          var second := FeedAll(limits, first.end.value, b);
          assert done + (first.bodies + second.bodies) == done + first.bodies + second.bodies;
        }
      }
    }
  }

  /** Taking a block of body bytes at once is taking them one by one. */
  lemma {:induction false} FeedBlock(limits: FramingLimits, bytes: Bytes, expected: nat, block: Bytes)
    requires 0 < |block| && |bytes| + |block| <= expected
    ensures FeedAll(limits, Body(bytes, expected), block) ==
              if |bytes| + |block| == expected then Outcome([bytes + block], Ok(Header([])))
              else Outcome([], Ok(Body(bytes + block, expected)))
    decreases |block|
  {
    assert bytes + block == bytes + [block[0]] + block[1..];
    if |block| > 1 {
      FeedBlock(limits, bytes + [block[0]], expected, block[1..]);
    } else {
      assert block[1..] == [] && bytes + [block[0]] == bytes + block;
    }
  }

  // ----- the incremental decoder

  class FrameDecoder {
    const limits: FramingLimits
    var state: DecoderState

    constructor (limits: FramingLimits)
      ensures this.limits == limits && state == Header([])
    {
      this.limits := limits;
      state := Header([]);
    }

    function IsMidFrame(): (r: bool)
      reads this
      ensures !r <==> state == Header([])
    {
      match state case Header(header) => header != [] case Body(_, _) => true
    }

    method PushHeaderByte(b: byte) returns (r: Result<Option<Bytes>, FrameError>)
      requires state.Header?
      modifies this
      ensures var fed := FeedHeader(limits, old(state).bytes, b);
              if fed.Err? then r == Err(fed.error) else r == Ok(fed.value.body) && state == fed.value.state
    {
      var header := state.bytes;
      if |header| == limits.maxHeader {
        return Err(HeaderTooLarge(limits.maxHeader));
      }
      if b >= 128 {
        return Err(NonAsciiHeader);
      }
      header := header + [b];
      state := Header(header);
      if EndsWithTerminator(header) {
        var contentLength := ParseHeader(header);
        if contentLength.Err? {
          return Err(contentLength.error);
        }
        if contentLength.value > limits.maxInboundBody {
          return Err(InboundBodyTooLarge(contentLength.value, limits.maxInboundBody));
        }
        if contentLength.value == 0 {
          state := Header([]);
          return Ok(Some([]));
        }
        state := Body([], contentLength.value);
      } else if |header| == limits.maxHeader {
        return Err(HeaderTooLarge(limits.maxHeader));
      }
      return Ok(None);
    }

    /** Takes as many body bytes as the chunk has. */
    method PushBodyBytes(chunk: Bytes) returns (take: nat, body: Option<Bytes>)
      requires state.Body? && Incomplete(state) && chunk != []
      modifies this
      ensures 0 < take <= |chunk| && Incomplete(state)
      ensures FeedAll(limits, old(state), chunk[..take]) == Outcome(Bodies(body), Ok(state))
    {
      var remaining := state.expected - |state.bytes|;
      take := if remaining < |chunk| then remaining else |chunk|;
      FeedBlock(limits, state.bytes, state.expected, chunk[..take]);
      state := Body(state.bytes + chunk[..take], state.expected);
      body := None;
      if |state.bytes| == state.expected {
        body := Some(state.bytes);
        state := Header([]);
      }
    }

    /** One turn of the loop: a header byte, or as many body bytes as there are. */
    method PushSome(chunk: Bytes) returns (take: nat, r: Result<seq<Bytes>, FrameError>)
      requires Incomplete(state) && chunk != []
      modifies this
      ensures 0 < take <= |chunk|
      ensures r.Ok? ==> Incomplete(state) && FeedAll(limits, old(state), chunk[..take]) == Outcome(r.value, Ok(state))
      ensures r.Err? ==> FeedAll(limits, old(state), chunk).end == Err(r.error)
    {
      if state.Header? {
        var fed := PushHeaderByte(chunk[0]);
        FeedOne(limits, old(state), chunk);
        take := 1;
        r := if fed.Ok? then Ok(Bodies(fed.value)) else Err(fed.error);
      } else {
        var count, body := PushBodyBytes(chunk);
        take, r := count, Ok(Bodies(body));
      }
    }

    /** Consumes a chunk as its bytes one by one would be; after an error the caller discards the decoder. */
    method Push(chunk: Bytes) returns (r: Result<seq<Bytes>, FrameError>)
      requires Incomplete(state)
      modifies this
      ensures var outcome := FeedAll(limits, old(state), chunk);
              if outcome.end.Err? then r == Err(outcome.end.error)
              else r == Ok(outcome.bodies) && state == outcome.end.value && Incomplete(state)
    {
      var completed, rest := [], chunk;
      assert [] + FeedAll(limits, state, chunk).bodies == FeedAll(limits, state, chunk).bodies;
      while rest != []
        invariant Incomplete(state)
        invariant Remaining(limits, old(state), chunk, completed, state, rest)
        decreases |rest|
      {
        ghost var before := state;
        var take, bodies := PushSome(rest);
        if bodies.Err? {
          return Err(bodies.error);
        }
        BlockStep(limits, old(state), chunk, completed, before, rest, take, bodies.value, state);
        completed, rest := completed + bodies.value, rest[take..];
      }
      assert completed + [] == completed;
      return Ok(completed);
    }

    /** EOF is fine between frames only. */
    method Finish() returns (r: Result<(), FrameError>)
      ensures r == AtEof(state)
    {
      match state
      case Header(header) => return if header == [] then Ok(()) else Err(UnexpectedEof(HeaderSection));
      case Body(_, _) => return Err(UnexpectedEof(BodySection));
    }
  }

  function AtEof(s: DecoderState): Result<(), FrameError> {
    if s == Header([]) then Ok(())
    else Err(UnexpectedEof(if s.Header? then HeaderSection else BodySection))
  }

  /** What has been consumed so far, with what is left, amounts to the whole chunk. */
  ghost predicate Remaining(
    limits: FramingLimits, start: DecoderState, chunk: Bytes, completed: seq<Bytes>, s: DecoderState, rest: Bytes)
  {
    var left := FeedAll(limits, s, rest);
    FeedAll(limits, start, chunk) == Outcome(completed + left.bodies, left.end)
  }

  lemma FeedOne(limits: FramingLimits, s: DecoderState, chunk: Bytes)
    requires chunk != []
    ensures var step := Feed(limits, s, chunk[0]);
            if step.Err? then FeedAll(limits, s, chunk).end == Err(step.error)
            else FeedAll(limits, s, chunk[..1]) == Outcome(Bodies(step.value.body), Ok(step.value.state))
  {
    assert chunk[..1][0] == chunk[0] && chunk[..1][1..] == [];
    var step := Feed(limits, s, chunk[0]);
    if step.Ok? {
      assert Bodies(step.value.body) + [] == Bodies(step.value.body);
    }
  }

  lemma BlockStep(
    limits: FramingLimits, start: DecoderState, chunk: Bytes, completed: seq<Bytes>, s: DecoderState, rest: Bytes,
    take: nat, bodies: seq<Bytes>, s': DecoderState)
    requires Remaining(limits, start, chunk, completed, s, rest) && take <= |rest|
    requires FeedAll(limits, s, rest[..take]) == Outcome(bodies, Ok(s'))
    ensures Remaining(limits, start, chunk, completed + bodies, s', rest[take..])
  {
    assert rest == rest[..take] + rest[take..];
    FeedAllAppend(limits, s, rest[..take], rest[take..]);
    var left := FeedAll(limits, s', rest[take..]);
    assert completed + (bodies + left.bodies) == completed + bodies + left.bodies;
  }

  // ----- independence of chunking

  /** Pushing chunk after chunk: an error drops the bodies completed in its own chunk. */
  function Drive(limits: FramingLimits, s: DecoderState, chunks: seq<Bytes>): Outcome
    decreases |chunks|
  {
    if chunks == [] then Outcome([], Ok(s))
    else
      var first := FeedAll(limits, s, chunks[0]);
      if first.end.Err? then Outcome([], first.end)
      else
        var rest := Drive(limits, first.end.value, chunks[1..]);
        rest.(bodies := first.bodies + rest.bodies)
  }

  /** The bodies completed in the chunk that fails: none if no chunk fails. */
  ghost function Dropped(limits: FramingLimits, s: DecoderState, chunks: seq<Bytes>): seq<Bytes>
    decreases |chunks|
  {
    if chunks == [] then []
    else
      var first := FeedAll(limits, s, chunks[0]);
      if first.end.Err? then first.bodies else Dropped(limits, first.end.value, chunks[1..])
  }

  /** What a split delivers and what it drops make up the whole. */
  ghost predicate Accounts(split: Outcome, dropped: seq<Bytes>, whole: Outcome) {
    && split.end == whole.end
    && split.bodies + dropped == whole.bodies
    && (whole.end.Ok? ==> dropped == [])
  }

  lemma AccountsAfter(bodies: seq<Bytes>, split: Outcome, dropped: seq<Bytes>, whole: Outcome)
    requires Accounts(split, dropped, whole)
    ensures Accounts(split.(bodies := bodies + split.bodies), dropped, Outcome(bodies + whole.bodies, whole.end))
  {
    assert bodies + (split.bodies + dropped) == bodies + split.bodies + dropped;
  }

  lemma {:induction false} SplitAccounts(limits: FramingLimits, s: DecoderState, chunks: seq<Bytes>)
    ensures Accounts(Drive(limits, s, chunks), Dropped(limits, s, chunks), FeedAll(limits, s, Concat(chunks)))
    decreases |chunks|
  {
    if chunks != [] {
      var first, rest := FeedAll(limits, s, chunks[0]), Concat(chunks[1..]);
      FeedAllAppend(limits, s, chunks[0], rest);
      if first.end.Ok? {
        var next := first.end.value;
        SplitAccounts(limits, next, chunks[1..]);
        AccountsAfter(
          first.bodies, Drive(limits, next, chunks[1..]), Dropped(limits, next, chunks[1..]),
            FeedAll(limits, next, rest));
      }
    }
  }

  /** Any split of a stream reaches the same state or the same error, and what it delivers, with what the
      failing chunk completed, is what the stream holds. So a split delivers everything if and only if no body
      is completed in the failing chunk. */
  lemma ChunkingDoesNotMatter(limits: FramingLimits, s: DecoderState, chunks: seq<Bytes>)
    ensures var whole, split := FeedAll(limits, s, Concat(chunks)), Drive(limits, s, chunks);
            && split.end == whole.end
            && split.bodies + Dropped(limits, s, chunks) == whole.bodies
            && (split.bodies == whole.bodies <==> Dropped(limits, s, chunks) == [])
            && (whole.end.Ok? ==> split.bodies == whole.bodies)
  {
    SplitAccounts(limits, s, chunks);
  }

  lemma OneByteDropsNothing(limits: FramingLimits, s: DecoderState, chunk: Bytes)
    requires |chunk| == 1 && FeedAll(limits, s, chunk).end.Err?
    ensures FeedAll(limits, s, chunk).bodies == []
  {
    assert chunk[1..] == [];
  }

  /** A stream pushed byte by byte loses nothing to an error. */
  lemma {:induction false} SingleBytesDropNothing(limits: FramingLimits, s: DecoderState, chunks: seq<Bytes>)
    requires forall c | c in chunks :: |c| == 1
    ensures Dropped(limits, s, chunks) == []
    decreases |chunks|
  {
    if chunks != [] {
      var first := FeedAll(limits, s, chunks[0]);
      assert chunks[0] in chunks;
      if first.end.Ok? {
        SingleBytesDropNothing(limits, first.end.value, chunks[1..]);
      } else {
        OneByteDropsNothing(limits, s, chunks[0]);
      }
    }
  }

  /** What has been delivered so far, with what driving the rest will give, amounts to the whole. */
  ghost predicate Driven(whole: Outcome, limits: FramingLimits, bodies: seq<Bytes>, s: DecoderState, rest: seq<Bytes>) {
    var left := Drive(limits, s, rest);
    whole == Outcome(bodies + left.bodies, left.end)
  }

  lemma DriveStep(whole: Outcome, limits: FramingLimits, bodies: seq<Bytes>, s: DecoderState, rest: seq<Bytes>)
    requires Driven(whole, limits, bodies, s, rest) && rest != []
    ensures var first := FeedAll(limits, s, rest[0]);
            if first.end.Err? then whole == Outcome(bodies, first.end)
            else Driven(whole, limits, bodies + first.bodies, first.end.value, rest[1..])
  {
    var first := FeedAll(limits, s, rest[0]);
    if first.end.Ok? {
      var left := Drive(limits, first.end.value, rest[1..]);
      assert bodies + (first.bodies + left.bodies) == bodies + first.bodies + left.bodies;
    } else {
      assert bodies + [] == bodies;
    }
  }

  /** Pushes chunk after chunk until one fails. */
  method PushChunks(decoder: FrameDecoder, chunks: seq<Bytes>) returns (bodies: seq<Bytes>, error: Option<FrameError>)
    requires decoder.state == Header([])
    modifies decoder
    ensures Drive(decoder.limits, Header([]), chunks) ==
              Outcome(bodies, if error.Some? then Err(error.value) else Ok(decoder.state))
  {
    bodies := [];
    ghost var whole := Drive(decoder.limits, Header([]), chunks);
    assert [] + whole.bodies == whole.bodies;
    for i := 0 to |chunks|
      invariant Incomplete(decoder.state)
      invariant Driven(whole, decoder.limits, bodies, decoder.state, chunks[i..])
    {
      DriveStep(whole, decoder.limits, bodies, decoder.state, chunks[i..]);
      var pushed := decoder.Push(chunks[i]);
      if pushed.Err? {
        return bodies, Some(pushed.error);
      }
      assert chunks[i..][1..] == chunks[i + 1..];
      bodies := bodies + pushed.value;
    }
    assert bodies + [] == bodies;
    return bodies, None;
  }

  /** Drives a decoder over chunks and signals EOF. */
  method DecodeChunks(limits: FramingLimits, chunks: seq<Bytes>) returns (bodies: seq<Bytes>, r: Result<(), FrameError>)
    ensures var whole := FeedAll(limits, Header([]), Concat(chunks));
            && bodies + Dropped(limits, Header([]), chunks) == whole.bodies
            && (whole.end.Err? ==> r == Err(whole.end.error))
            && (whole.end.Ok? ==> bodies == whole.bodies && r == AtEof(whole.end.value))
  {
    ChunkingDoesNotMatter(limits, Header([]), chunks);
    var decoder := new FrameDecoder(limits);
    var delivered, error := PushChunks(decoder, chunks);
    bodies := delivered;
    if error.Some? {
      return bodies, Err(error.value);
    }
    r := decoder.Finish();
  }
}
