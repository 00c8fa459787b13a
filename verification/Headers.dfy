/** The header part of the LSP base protocol. */
module Headers {
  import opened Common
  import Utf8

  /** Machine words have 64 bits. */
  const USIZE: nat := 0x1_0000_0000_0000_0000

  datatype Section = HeaderSection | BodySection

  datatype FrameError =
    | HeaderTooLarge(limit: nat)
    | NonAsciiHeader
    | MalformedHeader
    | DuplicateContentLength
    | InvalidContentLength
    | ContentLengthOverflow
    | DuplicateContentType
    | UnsupportedContentType
    | MissingContentLength
    | InboundBodyTooLarge(length: nat, limit: nat)
    | OutboundBodyTooLarge(length: nat, limit: nat)
    | UnexpectedEof(section: Section)
    | ReadFailed(section: Section)

  const CR: byte := 13
  const LF: byte := 10
  const COLON: byte := 58
  const SEMICOLON: byte := 59
  const EQUALS: byte := 61
  const TERMINATOR: Bytes := [CR, LF, CR, LF]

  /** The bytes of an ASCII literal. */
  function Ascii(s: string): (b: Bytes)
    requires forall i | 0 <= i < |s| :: s[i] < 128 as char
    ensures |b| == |s| && forall i | 0 <= i < |s| :: b[i] == s[i] as int
  {
    seq(|s|, i requires 0 <= i < |s| => s[i] as int)
  }

  // ----- decimal numbers

  predicate IsDigit(b: byte) {
    48 <= b <= 57
  }

  predicate AllDigits(b: Bytes) {
    forall i | 0 <= i < |b| :: IsDigit(b[i])
  }

  function DecimalValue(b: Bytes): nat
    requires AllDigits(b)
  {
    if b == [] then 0 else DecimalValue(b[..|b| - 1]) * 10 + (b[|b| - 1] - 48)
  }

  /** The shortest decimal form. */
  function Decimal(n: nat): (b: Bytes)
    ensures b != [] && AllDigits(b)
  {
    if n < 10 then [48 + n] else Decimal(n / 10) + [48 + n % 10]
  }

  lemma {:induction false} DecimalRoundTrip(n: nat)
    ensures DecimalValue(Decimal(n)) == n
  {
    if n >= 10 {
      DecimalRoundTrip(n / 10);
      assert Decimal(n)[..|Decimal(n)| - 1] == Decimal(n / 10);
    } else {
      assert DecimalValue([48 + n][..0]) == 0;
    }
  }

  lemma {:induction false} DecimalValueGrows(b: Bytes, k: nat)
    requires AllDigits(b) && k <= |b|
    ensures DecimalValue(b[..k]) <= DecimalValue(b)
    decreases |b|
  {
    if k == |b| {
      assert b[..k] == b;
    } else {
      DecimalValueGrows(b[..|b| - 1], k);
      assert b[..|b| - 1][..k] == b[..k];
    }
  }

  /** The length that a header value denotes. */
  function ContentLength(value: Bytes): Result<nat, FrameError> {
    if value == [] || !AllDigits(value) then Err(InvalidContentLength)
    else if DecimalValue(value) < USIZE then Ok(DecimalValue(value))
    else Err(ContentLengthOverflow)
  }

  /** Checked arithmetic digit by digit overflows exactly when the number does not fit. */
  method ParseContentLength(value: Bytes) returns (r: Result<nat, FrameError>)
    ensures r == ContentLength(value)
  {
    if value == [] || exists i | 0 <= i < |value| :: !IsDigit(value[i]) {
      return Err(InvalidContentLength);
    }
    var length: nat := 0;
    for i := 0 to |value|
      invariant length == DecimalValue(value[..i]) < USIZE
    {
      assert value[..i + 1][..i] == value[..i];
      DecimalValueGrows(value, i + 1);
      if length * 10 > 0xFFFF_FFFF_FFFF_FFFF || length * 10 + (value[i] - 48) > 0xFFFF_FFFF_FFFF_FFFF {
        return Err(ContentLengthOverflow);
      }
      length := length * 10 + (value[i] - 48);
    }
    assert value[..|value|] == value;
    return Ok(length);
  }

  // ----- text

  predicate IsBlank(b: byte) {
    b == 32 || b == 9
  }

  /** Without the blanks at both ends. */
  function Trim(b: Bytes): Bytes {
    if b == [] then []
    else if IsBlank(b[0]) then Trim(b[1..])
    else if IsBlank(b[|b| - 1]) then Trim(b[..|b| - 1])
    else b
  }

  /** The slice leaves out blanks only, and has none at either end. */
  ghost predicate IsTrimmed(b: Bytes, start: nat, end: nat) {
    && start <= end <= |b|
    && (forall i | 0 <= i < start || end <= i < |b| :: IsBlank(b[i]))
    && (start < end ==> !IsBlank(b[start]) && !IsBlank(b[end - 1]))
  }

  lemma TrimmedInFront(b: Bytes, inner: Bytes, i: nat, j: nat)
    requires b != [] && IsBlank(b[0]) && inner == b[1..] && IsTrimmed(inner, i, j)
    ensures IsTrimmed(b, i + 1, j + 1) && inner[i..j] == b[i + 1..j + 1]
  {
    assert forall k | 0 < k < |b| :: b[k] == inner[k - 1];
  }

  lemma TrimmedBehind(b: Bytes, inner: Bytes, i: nat, j: nat)
    requires b != [] && IsBlank(b[|b| - 1]) && inner == b[..|b| - 1] && IsTrimmed(inner, i, j)
    ensures IsTrimmed(b, i, j) && inner[i..j] == b[i..j]
  {
    assert forall k | 0 <= k < |b| - 1 :: b[k] == inner[k];
  }

  /** Trimming cuts blanks off both ends, and leaves none there. */
  lemma {:induction false} TrimCutsBlanks(b: Bytes) returns (start: nat, end: nat)
    ensures IsTrimmed(b, start, end) && Trim(b) == b[start..end]
    decreases |b|
  {
    start, end := 0, |b|;
    if b != [] && IsBlank(b[0]) {
      start, end := TrimCutsBlanks(b[1..]);
      TrimmedInFront(b, b[1..], start, end);
      start, end := start + 1, end + 1;
    } else if b != [] && IsBlank(b[|b| - 1]) {
      start, end := TrimCutsBlanks(b[..|b| - 1]);
      TrimmedBehind(b, b[..|b| - 1], start, end);
    }
  }

  method TrimAsciiWhitespace(b: Bytes) returns (r: Bytes)
    ensures r == Trim(b)
  {
    r := b;
    while r != [] && (r[0] == 32 || r[0] == 9)
      invariant Trim(r) == Trim(b)
    {
      r := r[1..];
    }
    while r != [] && (r[|r| - 1] == 32 || r[|r| - 1] == 9)
      invariant Trim(r) == Trim(b)
      invariant r != [] ==> !IsBlank(r[0])
    {
      r := r[..|r| - 1];
    }
  }

  /** The first place where a pattern occurs. */
  function Find(b: Bytes, pattern: Bytes): (r: Option<nat>)
    requires pattern != []
    ensures r.Some? ==> r.value + |pattern| <= |b|
  {
    if |b| < |pattern| then None
    else if b[..|pattern|] == pattern then Some(0)
    else
      var r := Find(b[1..], pattern);
      if r.None? then None else Some(r.value + 1)
  }

  predicate OccursAt(b: Bytes, pattern: Bytes, k: nat) {
    k + |pattern| <= |b| && b[k..k + |pattern|] == pattern
  }

  ghost predicate Contains(b: Bytes, pattern: Bytes) {
    exists k :: OccursAt(b, pattern, k)
  }

  lemma OccursLater(b: Bytes, pattern: Bytes, k: nat)
    requires b != []
    ensures OccursAt(b, pattern, k + 1) <==> OccursAt(b[1..], pattern, k)
  {
    if k + 1 + |pattern| <= |b| {
      assert b[1..][k..k + |pattern|] == b[k + 1..k + 1 + |pattern|];
    }
  }

  /** `Find` finds the first occurrence, if there is one. */
  lemma {:induction false} FindMeans(b: Bytes, pattern: Bytes)
    requires pattern != []
    ensures Find(b, pattern).Some? ==> OccursAt(b, pattern, Find(b, pattern).value)
    ensures forall k: nat | OccursAt(b, pattern, k) :: Find(b, pattern).Some? && Find(b, pattern).value <= k
    decreases |b|
  {
    if |b| >= |pattern| && b[..|pattern|] != pattern {
      FindMeans(b[1..], pattern);
      if Find(b[1..], pattern).Some? {
        OccursLater(b, pattern, Find(b[1..], pattern).value);
      }
      forall k: nat | OccursAt(b, pattern, k) ensures Find(b, pattern).Some? && Find(b, pattern).value <= k {
        assert k > 0;
        OccursLater(b, pattern, k - 1);
      }
    }
  }

  lemma {:induction false} FindNone(b: Bytes, pattern: Bytes)
    requires pattern != [] && forall i | 0 <= i < |b| :: b[i] != pattern[0]
    ensures Find(b, pattern).None?
  {
    if |b| >= |pattern| {
      assert b[..|pattern|][0] == b[0];
      FindNone(b[1..], pattern);
    }
  }

  lemma {:induction false} FindByte(b: Bytes, c: byte, k: nat)
    requires k < |b| && b[k] == c && forall i | 0 <= i < k :: b[i] != c
    ensures Find(b, [c]) == Some(k)
  {
    if k == 0 {
      assert b[..1] == [c];
    } else {
      assert b[..1][0] == b[0];
      FindByte(b[1..], c, k - 1);
    }
  }

  function Split(b: Bytes, separator: Bytes): (parts: seq<Bytes>)
    requires separator != []
    ensures parts != []
    decreases |b|
  {
    var at := Find(b, separator);
    if at.None? then [b] else [b[..at.value]] + Split(b[at.value + |separator|..], separator)
  }

  function Join(parts: seq<Bytes>, separator: Bytes): Bytes
    requires parts != []
  {
    if |parts| == 1 then parts[0] else parts[0] + separator + Join(parts[1..], separator)
  }

  /** Splitting loses nothing, and leaves no separator in a part. */
  lemma {:induction false} SplitMeans(b: Bytes, separator: Bytes)
    requires separator != []
    ensures Join(Split(b, separator), separator) == b
    ensures forall part | part in Split(b, separator) :: !Contains(part, separator)
    decreases |b|
  {
    FindMeans(b, separator);
    var at := Find(b, separator);
    if at.Some? {
      var first, rest := b[..at.value], b[at.value + |separator|..];
      SplitMeans(rest, separator);
      assert Split(b, separator) == [first] + Split(rest, separator);
      assert ([first] + Split(rest, separator))[1..] == Split(rest, separator);
      assert b == first + b[at.value..at.value + |separator|] + rest;
      NoEarlier(b, separator, at.value);
    }
  }

  lemma NoEarlier(b: Bytes, separator: Bytes, n: nat)
    requires n <= |b| && separator != [] && forall k: nat | OccursAt(b, separator, k) :: n <= k
    ensures !Contains(b[..n], separator)
  {
    forall k: nat ensures !OccursAt(b[..n], separator, k) {
      if k + |separator| <= n {
        assert b[..n][k..k + |separator|] == b[k..k + |separator|];
        assert !OccursAt(b, separator, k);
      }
    }
  }

  lemma FirstSeparator(first: Bytes, separator: Bytes, rest: Bytes)
    requires separator != [] && !Contains(first, separator)
    requires forall i | 0 < i < |separator| :: separator[i] != separator[0]
    ensures Find(first + separator + rest, separator) == Some(|first|)
  {
    var b, n := first + separator + rest, |first|;
    FindMeans(b, separator);
    assert b[n..n + |separator|] == separator;
    assert OccursAt(b, separator, n);
    forall k: nat | k < n ensures !OccursAt(b, separator, k) {
      if k + |separator| <= n {
        assert first[k..k + |separator|] == b[k..k + |separator|];
        assert !OccursAt(first, separator, k);
      } else if k + |separator| <= |b| {
        assert b[k..k + |separator|][n - k] == b[n] == separator[0];
      }
    }
  }

  /** Splitting undoes joining, when the separator cannot overlap itself. */
  lemma {:induction false} SplitJoin(parts: seq<Bytes>, separator: Bytes)
    requires parts != [] && separator != [] && forall part | part in parts :: !Contains(part, separator)
    requires forall i | 0 < i < |separator| :: separator[i] != separator[0]
    ensures Split(Join(parts, separator), separator) == parts
    decreases |parts|
  {
    var first := parts[0];
    assert first in parts;
    if |parts| > 1 {
      var rest := Join(parts[1..], separator);
      assert parts == [first] + parts[1..];
      SplitJoin(parts[1..], separator);
      SplitFirst(first, separator, rest);
    } else {
      assert parts == [first];
      FindMeans(first, separator);
    }
  }

  lemma SplitFirst(first: Bytes, separator: Bytes, rest: Bytes)
    requires separator != [] && !Contains(first, separator)
    requires forall i | 0 < i < |separator| :: separator[i] != separator[0]
    ensures Split(first + separator + rest, separator) == [first] + Split(rest, separator)
  {
    var b := first + separator + rest;
    FirstSeparator(first, separator, rest);
    assert b[..|first|] == first && b[|first| + |separator|..] == rest;
  }

  function Lower(b: byte): byte {
    if 65 <= b <= 90 then b + 32 else b
  }

  predicate EqIgnoreCase(a: Bytes, b: Bytes) {
    |a| == |b| && forall i | 0 <= i < |a| :: Lower(a[i]) == Lower(b[i])
  }

  /** ASCII letters match in either case, every other byte only itself. */
  lemma IgnoresCaseOfLetters(a: Bytes, b: Bytes)
    ensures EqIgnoreCase(a, b) <==>
            && |a| == |b|
            && forall i | 0 <= i < |a| ::
                 || a[i] == b[i]
                 || (65 <= a[i] <= 90 && b[i] == a[i] + 32)
                 || (65 <= b[i] <= 90 && a[i] == b[i] + 32)
  {
    if EqIgnoreCase(a, b) {
      forall i | 0 <= i < |a|
        ensures a[i] == b[i] || (65 <= a[i] <= 90 && b[i] == a[i] + 32) || (65 <= b[i] <= 90 && a[i] == b[i] + 32)
      {
        assert Lower(a[i]) == Lower(b[i]);
      }
    }
  }

  predicate IsAlphanumeric(b: byte) {
    IsDigit(b) || 65 <= b <= 90 || 97 <= b <= 122
  }

  predicate IsHeaderNameByte(b: byte) {
    IsAlphanumeric(b) || b in {33, 35, 36, 37, 38, 39, 42, 43, 45, 46, 94, 95, 96, 124, 126}
  }

  const DELIMITERS := Ascii("\"(),/:;<=>?@[\\]{}")

  /** The characters of a token in section 5.6.2 of RFC 9110: visible and no delimiter. */
  lemma NamesAreTokens(b: byte)
    ensures IsHeaderNameByte(b) <==> 33 <= b <= 126 && b !in DELIMITERS
  {
    var delimiters := DELIMITERS;
    assert delimiters == [34, 40, 41, 44, 47, 58, 59, 60, 61, 62, 63, 64, 91, 92, 93, 123, 125];
  }

  const CONTENT_LENGTH := Ascii("Content-Length")
  const CONTENT_TYPE := Ascii("Content-Type")

  // ----- content types

  /** A parameter is a charset, and that charset is UTF-8. */
  predicate IsUtf8Charset(parameter: Bytes) {
    var trimmed := Trim(parameter);
    var equals := Find(trimmed, [EQUALS]);
    && equals.Some?
    && EqIgnoreCase(Trim(trimmed[..equals.value]), Ascii("charset"))
    && (|| EqIgnoreCase(Trim(trimmed[equals.value + 1..]), Ascii("utf-8"))
        || EqIgnoreCase(Trim(trimmed[equals.value + 1..]), Ascii("utf8")))
  }

  /** The media type of the protocol with at most one parameter, the UTF-8 charset. */
  predicate SupportedContentType(value: Bytes) {
    var parts := Split(value, [SEMICOLON]);
    && EqIgnoreCase(Trim(parts[0]), Ascii("application/vscode-jsonrpc"))
    && |parts| <= 2
    && (|parts| == 2 ==> IsUtf8Charset(parts[1]))
  }

  method ValidateParameter(parameter: Bytes) returns (ok: bool)
    ensures ok <==> IsUtf8Charset(parameter)
  {
    var component := TrimAsciiWhitespace(parameter);
    var equals := Find(component, [EQUALS]);
    if equals.None? {
      return false;
    }
    var name := TrimAsciiWhitespace(component[..equals.value]);
    var parameterValue := TrimAsciiWhitespace(component[equals.value + 1..]);
    if !EqIgnoreCase(name, Ascii("charset")) {
      return false;
    }
    return EqIgnoreCase(parameterValue, Ascii("utf-8")) || EqIgnoreCase(parameterValue, Ascii("utf8"));
  }

  method ValidateContentType(value: Bytes) returns (ok: bool)
    ensures ok <==> SupportedContentType(value)
  {
    var parts := Split(value, [SEMICOLON]);
    var mediaType := TrimAsciiWhitespace(parts[0]);
    if !EqIgnoreCase(mediaType, Ascii("application/vscode-jsonrpc")) {
      return false;
    }
    ok := ValidateParameters(parts);
  }

  method ValidateParameters(parts: seq<Bytes>) returns (ok: bool)
    requires parts != []
    ensures ok <==> |parts| <= 2 && (|parts| == 2 ==> IsUtf8Charset(parts[1]))
  {
    var sawCharset := false;
    for i := 1 to |parts|
      invariant sawCharset <==> i > 1
      invariant i > 1 ==> i == 2 && IsUtf8Charset(parts[1])
    {
      var supported := ValidateParameter(parts[i]);
      if !supported || sawCharset {
        return false;
      }
      sawCharset := true;
    }
    return true;
  }

  // ----- header lines

  datatype Field = Field(name: Bytes, value: Bytes)

  function ParseLine(line: Bytes): Option<Field> {
    var colon := Find(line, [COLON]);
    if (exists i | 0 <= i < |line| :: line[i] == CR || line[i] == LF) || colon.None? then None
    else
      var name, value := line[..colon.value], Trim(line[colon.value + 1..]);
      if name == [] || (exists i | 0 <= i < |name| :: !IsHeaderNameByte(name[i]))
         || exists i | 0 <= i < |value| :: value[i] != 9 && !(32 <= value[i] <= 126)
      then None
      else Some(Field(name, value))
  }

  /** What a line means for the frame. */
  datatype Token = Malformed | LengthToken(length: Result<nat, FrameError>) | TypeToken(supported: bool) | Other

  function TokenOf(line: Bytes): Token {
    var field := ParseLine(line);
    if field.None? then Malformed
    else if EqIgnoreCase(field.value.name, CONTENT_LENGTH) then LengthToken(ContentLength(field.value.value))
    else if EqIgnoreCase(field.value.name, CONTENT_TYPE) then TypeToken(SupportedContentType(field.value.value))
    else Other
  }

  function TokensOf(lines: seq<Bytes>): (r: seq<Token>)
    ensures |r| == |lines| && forall i | 0 <= i < |lines| :: r[i] == TokenOf(lines[i])
  {
    seq(|lines|, i requires 0 <= i < |lines| => TokenOf(lines[i]))
  }

  datatype Fields = Fields(length: Option<nat>, sawType: bool)

  function AddToken(fields: Fields, token: Token): Result<Fields, FrameError> {
    match token
    case Malformed => Err(MalformedHeader)
    case LengthToken(length) =>
      if fields.length.Some? then Err(DuplicateContentLength)
      else if length.Err? then Err(length.error)
      else Ok(fields.(length := Some(length.value)))
    case TypeToken(supported) =>
      if fields.sawType then Err(DuplicateContentType)
      else if !supported then Err(UnsupportedContentType)
      else Ok(fields.(sawType := true))
    case Other => Ok(fields)
  }

  /** The fields of a header after all its lines, or the first error. */
  function AddTokens(tokens: seq<Token>): Result<Fields, FrameError> {
    if tokens == [] then Ok(Fields(None, false))
    else
      var before := AddTokens(tokens[..|tokens| - 1]);
      if before.Err? then before else AddToken(before.value, tokens[|tokens| - 1])
  }

  predicate EndsWithTerminator(header: Bytes) {
    |header| >= 4 && header[|header| - 4..] == TERMINATOR
  }

  /** A header is terminated exactly if it is a payload, possibly empty, followed by an empty line. */
  lemma TerminatedMeans(header: Bytes)
    ensures EndsWithTerminator(header) <==> exists payload :: header == payload + [13, 10, 13, 10]
  {
    if EndsWithTerminator(header) {
      assert header == header[..|header| - 4] + header[|header| - 4..];
    }
    if payload :| header == payload + [13, 10, 13, 10] {
      assert header[|header| - 4..] == [13, 10, 13, 10];
    }
  }

  /** What the lines of a header mean. */
  function HeaderTokens(header: Bytes): seq<Token>
    requires EndsWithTerminator(header)
  {
    TokensOf(Split(header[..|header| - 4], [CR, LF]))
  }

  /** The body length that a header announces. */
  function HeaderLength(header: Bytes): Result<nat, FrameError> {
    if !EndsWithTerminator(header) then Err(MalformedHeader)
    else if Utf8.DecodeAll(header[..|header| - 4]).None? then Err(NonAsciiHeader)
    else
      var fields := AddTokens(HeaderTokens(header));
      if fields.Err? then Err(fields.error)
      else if fields.value.length.None? then Err(MissingContentLength)
      else Ok(fields.value.length.value)
  }

  lemma {:induction false} FirstErrorStays(tokens: seq<Token>, n: nat)
    requires n <= |tokens| && AddTokens(tokens[..n]).Err?
    ensures AddTokens(tokens) == AddTokens(tokens[..n])
    decreases |tokens|
  {
    if n == |tokens| {
      assert tokens[..n] == tokens;
    } else {
      assert tokens[..|tokens| - 1][..n] == tokens[..n];
      FirstErrorStays(tokens[..|tokens| - 1], n);
    }
  }

  lemma OneMoreToken(tokens: seq<Token>, i: nat)
    requires i < |tokens| && AddTokens(tokens[..i]).Ok?
    ensures AddTokens(tokens[..i + 1]) == AddToken(AddTokens(tokens[..i]).value, tokens[i])
  {
    assert tokens[..i + 1][..i] == tokens[..i];
  }

  /** One line: duplicates are found before the value is looked at. */
  method ParseField(
    line: Bytes, contentLength: Option<nat>, sawContentType: bool)
    returns (r: Result<Fields, FrameError>)
    ensures r == AddToken(Fields(contentLength, sawContentType), TokenOf(line))
  {
    var field := ParseLine(line);
    if field.None? {
      return Err(MalformedHeader);
    }
    if EqIgnoreCase(field.value.name, CONTENT_LENGTH) {
      if contentLength.Some? {
        return Err(DuplicateContentLength);
      }
      var length := ParseContentLength(field.value.value);
      return if length.Ok? then Ok(Fields(Some(length.value), sawContentType)) else Err(length.error);
    } else if EqIgnoreCase(field.value.name, CONTENT_TYPE) {
      if sawContentType {
        return Err(DuplicateContentType);
      }
      var supported := ValidateContentType(field.value.value);
      return if supported then Ok(Fields(contentLength, true)) else Err(UnsupportedContentType);
    }
    return Ok(Fields(contentLength, sawContentType));
  }

  method ParseFields(lines: seq<Bytes>) returns (r: Result<Fields, FrameError>)
    ensures r == AddTokens(TokensOf(lines))
  {
    ghost var tokens := TokensOf(lines);
    var contentLength: Option<nat>, sawContentType := None, false;
    for i := 0 to |lines|
      invariant AddTokens(tokens[..i]) == Ok(Fields(contentLength, sawContentType))
    {
      var next := ParseField(lines[i], contentLength, sawContentType);
      OneMoreToken(tokens, i);
      if next.Err? {
        FirstErrorStays(tokens, i + 1);
        return next;
      }
      contentLength, sawContentType := next.value.length, next.value.sawType;
    }
    assert tokens[..|lines|] == tokens;
    return Ok(Fields(contentLength, sawContentType));
  }

  method ParseHeader(header: Bytes) returns (r: Result<nat, FrameError>)
    ensures r == HeaderLength(header)
  {
    if !EndsWithTerminator(header) {
      return Err(MalformedHeader);
    }
    var payload := header[..|header| - 4];
    if Utf8.DecodeAll(payload).None? {
      return Err(NonAsciiHeader);
    }
    var fields := ParseFields(Split(payload, [CR, LF]));
    if fields.Err? {
      return Err(fields.error);
    }
    return if fields.value.length.Some? then Ok(fields.value.length.value) else Err(MissingContentLength);
  }

  // ----- which headers are accepted

  predicate Good(token: Token) {
    token != Malformed && (token.LengthToken? ==> token.length.Ok?) && (token.TypeToken? ==> token.supported)
  }

  /** Every line is good, at most one states a length and at most one a type. */
  ghost predicate Acceptable(tokens: seq<Token>) {
    && (forall i | 0 <= i < |tokens| :: Good(tokens[i]))
    && (forall i, j | 0 <= i < j < |tokens| :: !(tokens[i].LengthToken? && tokens[j].LengthToken?))
    && (forall i, j | 0 <= i < j < |tokens| :: !(tokens[i].TypeToken? && tokens[j].TypeToken?))
  }

  ghost predicate Collects(fields: Fields, tokens: seq<Token>) {
    && (fields.length.None? ==> forall i | 0 <= i < |tokens| :: !tokens[i].LengthToken?)
    && (fields.length.Some? ==> LengthToken(Ok(fields.length.value)) in tokens)
    && (fields.sawType <==> TypeToken(true) in tokens)
  }

  lemma AcceptableSnoc(rest: seq<Token>, last: Token, fields: Fields)
    requires Acceptable(rest) && Collects(fields, rest)
    ensures Acceptable(rest + [last]) <==> AddToken(fields, last).Ok?
    ensures AddToken(fields, last).Ok? ==> Collects(AddToken(fields, last).value, rest + [last])
  {
    var tokens := rest + [last];
    assert tokens[|rest|] == last && forall i | 0 <= i < |rest| :: tokens[i] == rest[i];
    if fields.length.Some? {
      var i :| 0 <= i < |rest| && rest[i] == LengthToken(Ok(fields.length.value));
      assert tokens[i].LengthToken?;
    }
    if fields.sawType {
      var i :| 0 <= i < |rest| && rest[i] == TypeToken(true);
      assert tokens[i].TypeToken?;
    }
  }

  lemma AcceptablePrefix(rest: seq<Token>, last: Token)
    requires Acceptable(rest + [last])
    ensures Acceptable(rest)
  {
    var tokens := rest + [last];
    assert forall i | 0 <= i < |rest| :: tokens[i] == rest[i];
  }

  lemma {:induction false} AcceptableIff(tokens: seq<Token>)
    ensures AddTokens(tokens).Ok? <==> Acceptable(tokens)
    ensures AddTokens(tokens).Ok? ==> Collects(AddTokens(tokens).value, tokens)
  {
    if tokens != [] {
      var rest, last := tokens[..|tokens| - 1], tokens[|tokens| - 1];
      AcceptableIff(rest);
      assert tokens == rest + [last];
      if AddTokens(rest).Ok? {
        AcceptableSnoc(rest, last, AddTokens(rest).value);
      } else if Acceptable(tokens) {
        AcceptablePrefix(rest, last);
      }
    }
  }

  /** A header announces a length exactly when all its lines are good, exactly one states a length, namely this
      one, and at most one states a type. */
  lemma HeaderAcceptedIff(header: Bytes, n: nat)
    ensures HeaderLength(header) == Ok(n) <==>
            && EndsWithTerminator(header)
            && Utf8.DecodeAll(header[..|header| - 4]).Some?
            && Acceptable(HeaderTokens(header))
            && LengthToken(Ok(n)) in HeaderTokens(header)
  {
    if EndsWithTerminator(header) {
      var tokens := HeaderTokens(header);
      AcceptableIff(tokens);
      if Acceptable(tokens) && LengthToken(Ok(n)) in tokens {
        OneLength(tokens, AddTokens(tokens).value, n);
      }
    }
  }

  lemma OneLength(tokens: seq<Token>, fields: Fields, n: nat)
    requires Acceptable(tokens) && Collects(fields, tokens) && LengthToken(Ok(n)) in tokens
    ensures fields.length == Some(n)
  {
    var i :| 0 <= i < |tokens| && tokens[i] == LengthToken(Ok(n));
    var j :| 0 <= j < |tokens| && tokens[j] == LengthToken(Ok(fields.length.value));
    assert i == j;
  }
}
