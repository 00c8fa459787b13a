/** Which headers are accepted, byte for byte: the lines, their blanks and the supported content types. */
module HeaderGrammar {
  import opened Common
  import opened Headers
  import Utf8

  // ----- the grammar of accepted headers, byte for byte

  /** A header line: name, colon, blanks, value, blanks. */
  datatype FieldLine = FieldLine(name: Bytes, before: Bytes, value: Bytes, after: Bytes)

  function LineOf(f: FieldLine): Bytes {
    f.name + [COLON] + (f.before + f.value + f.after)
  }

  predicate IsPrintable(b: byte) {
    b == 9 || 32 <= b <= 126
  }

  predicate AllPrintable(b: Bytes) {
    forall i | 0 <= i < |b| :: IsPrintable(b[i])
  }

  ghost predicate GoodName(name: Bytes) {
    name != [] && forall i | 0 <= i < |name| :: IsHeaderNameByte(name[i])
  }

  ghost predicate GoodField(f: FieldLine) {
    && GoodName(f.name)
    && AllBlank(f.before) && AllBlank(f.after)
    && AllPrintable(f.value)
    && (f.value != [] ==> !IsBlank(f.value[0]) && !IsBlank(f.value[|f.value| - 1]))
  }

  predicate AllBlank(b: Bytes) {
    forall i | 0 <= i < |b| :: IsBlank(b[i])
  }

  lemma TrimmedOnce(b: Bytes, i: nat, j: nat, k: nat, l: nat)
    requires IsTrimmed(b, i, j) && IsTrimmed(b, k, l)
    ensures b[i..j] == b[k..l]
  {
    if i < j {
      assert !IsBlank(b[i]) && !IsBlank(b[j - 1]);
    }
    if k < l {
      assert !IsBlank(b[k]) && !IsBlank(b[l - 1]);
    }
  }

  lemma TrimStrips(before: Bytes, value: Bytes, after: Bytes)
    requires AllBlank(before) && AllBlank(after)
    requires value != [] ==> !IsBlank(value[0]) && !IsBlank(value[|value| - 1])
    ensures Trim(before + value + after) == value
  {
    var b, k, l := before + value + after, |before|, |before| + |value|;
    var i, j := TrimCutsBlanks(b);
    assert forall n | 0 <= n < |value| :: b[k + n] == value[n];
    assert forall n | l <= n < |b| :: b[n] == after[n - l];
    TrimmedOnce(b, i, j, k, l);
    assert b[k..l] == value;
  }

  lemma NameHasNoColon(name: Bytes)
    requires GoodName(name)
    ensures !Contains(name, [COLON])
  {
    forall k: nat ensures !OccursAt(name, [COLON], k) {
      if k + 1 <= |name| {
        assert name[k..k + 1][0] == name[k] && IsHeaderNameByte(name[k]);
      }
    }
  }

  lemma LineBytes(f: FieldLine, i: nat)
    requires GoodField(f) && i < |LineOf(f)|
    ensures IsPrintable(LineOf(f)[i])
  {
    var n, m, l := |f.name|, |f.before|, |f.value|;
    if i < n {
      assert LineOf(f)[i] == f.name[i];
    } else if i > n {
      var rest := f.before + f.value + f.after;
      assert LineOf(f)[i] == rest[i - n - 1];
      if i - n - 1 < m {
        assert rest[i - n - 1] == f.before[i - n - 1];
      } else if i - n - 1 < m + l {
        assert rest[i - n - 1] == f.value[i - n - 1 - m];
      } else {
        assert rest[i - n - 1] == f.after[i - n - 1 - m - l];
      }
    }
  }

  /** Every good line parses to its name and value. */
  lemma GoodLineParses(f: FieldLine)
    requires GoodField(f)
    ensures ParseLine(LineOf(f)) == Some(Field(f.name, f.value))
  {
    var line, rest := LineOf(f), f.before + f.value + f.after;
    NameHasNoColon(f.name);
    FirstSeparator(f.name, [COLON], rest);
    assert line[..|f.name|] == f.name && line[|f.name| + 1..] == rest;
    TrimStrips(f.before, f.value, f.after);
    forall i | 0 <= i < |line| ensures line[i] != CR && line[i] != LF {
      LineBytes(f, i);
    }
  }

  lemma ParsedPieces(line: Bytes, n: nat)
    requires ParseLine(line).Some? && Find(line, [COLON]) == Some(n) && n < |line|
    ensures GoodName(line[..n]) && ParseLine(line) == Some(Field(line[..n], Trim(line[n + 1..])))
    ensures AllPrintable(Trim(line[n + 1..]))
  {
  }

  lemma TrimmedParts(rest: Bytes) returns (before: Bytes, after: Bytes)
    ensures AllBlank(before) && AllBlank(after) && rest == before + Trim(rest) + after
    ensures Trim(rest) != [] ==> !IsBlank(Trim(rest)[0]) && !IsBlank(Trim(rest)[|Trim(rest)| - 1])
  {
    var i, j := TrimCutsBlanks(rest);
    before, after := rest[..i], rest[j..];
  }

  lemma CutAt(t: Bytes, c: byte, e: nat)
    requires OccursAt(t, [c], e)
    ensures e < |t| && t == t[..e] + [c] + t[e + 1..]
  {
    assert t[e..e + 1][0] == t[e];
  }

  /** And only good lines parse. */
  lemma ParsedLineIsGood(line: Bytes) returns (f: FieldLine)
    requires ParseLine(line).Some?
    ensures GoodField(f) && LineOf(f) == line && ParseLine(line) == Some(Field(f.name, f.value))
  {
    FindMeans(line, [COLON]);
    var n := Find(line, [COLON]).value;
    CutAt(line, COLON, n);
    ParsedPieces(line, n);
    var before, after := TrimmedParts(line[n + 1..]);
    f := FieldLine(line[..n], before, Trim(line[n + 1..]), after);
  }

  function LinesOf(fields: seq<FieldLine>): (lines: seq<Bytes>)
    ensures |lines| == |fields| && forall i | 0 <= i < |lines| :: lines[i] == LineOf(fields[i])
  {
    seq(|fields|, i requires 0 <= i < |fields| => LineOf(fields[i]))
  }

  function Rendered(fields: seq<FieldLine>): Bytes
    requires fields != []
  {
    Join(LinesOf(fields), [CR, LF]) + TERMINATOR
  }

  predicate IsLengthField(f: FieldLine) {
    EqIgnoreCase(f.name, CONTENT_LENGTH)
  }

  predicate IsTypeField(f: FieldLine) {
    EqIgnoreCase(f.name, CONTENT_TYPE)
  }

  /** Good lines of which exactly one states a length, namely this one, and at most one a type, a supported one. */
  ghost predicate Announces(fields: seq<FieldLine>, n: nat) {
    && fields != []
    && (forall i | 0 <= i < |fields| :: GoodField(fields[i]))
    && (exists i | 0 <= i < |fields| :: IsLengthField(fields[i]))
    && (forall i | 0 <= i < |fields| && IsLengthField(fields[i]) :: ContentLength(fields[i].value) == Ok(n))
    && (forall i | 0 <= i < |fields| && IsTypeField(fields[i]) :: SupportedContentType(fields[i].value))
    && (forall i, j | 0 <= i < j < |fields| :: !(IsLengthField(fields[i]) && IsLengthField(fields[j])))
    && (forall i, j | 0 <= i < j < |fields| :: !(IsTypeField(fields[i]) && IsTypeField(fields[j])))
  }

  function FieldToken(f: FieldLine): Token {
    if IsLengthField(f) then LengthToken(ContentLength(f.value))
    else if IsTypeField(f) then TypeToken(SupportedContentType(f.value))
    else Other
  }

  lemma NotBothFields(f: FieldLine)
    ensures !(IsLengthField(f) && IsTypeField(f))
  {
    assert |CONTENT_LENGTH| == 14 && |CONTENT_TYPE| == 12;
  }

  lemma {:induction false} PrintableIsText(b: Bytes)
    requires forall i | 0 <= i < |b| :: b[i] < 128
    ensures Utf8.DecodeAll(b).Some?
    decreases |b|
  {
    if b != [] {
      var c := b[0] as int as char;
      assert Utf8.Encode(c) == [b[0]];
      assert [b[0]] <= b;
      PrintableIsText(b[1..]);
    }
  }

  lemma {:induction false} JoinedBytes(lines: seq<Bytes>, i: nat)
    requires lines != [] && i < |Join(lines, [CR, LF])|
    requires forall k, l | 0 <= k < |lines| && 0 <= l < |lines[k]| :: lines[k][l] < 128
    ensures Join(lines, [CR, LF])[i] < 128
    decreases |lines|
  {
    if |lines| > 1 && i >= |lines[0]| + 2 {
      JoinedBytes(lines[1..], i - |lines[0]| - 2);
    }
  }

  lemma GoodLineHasNoBreak(f: FieldLine)
    requires GoodField(f)
    ensures !Contains(LineOf(f), [CR, LF])
  {
    var line := LineOf(f);
    forall k: nat ensures !OccursAt(line, [CR, LF], k) {
      if k + 2 <= |line| {
        LineBytes(f, k);
        assert line[k..k + 2][0] == line[k];
      }
    }
  }

  /** A rendered header has its fields as tokens. */
  lemma RenderedTokens(fields: seq<FieldLine>)
    requires fields != [] && forall i | 0 <= i < |fields| :: GoodField(fields[i])
    ensures var header := Rendered(fields);
            && EndsWithTerminator(header)
            && Utf8.DecodeAll(header[..|header| - 4]).Some?
            && |HeaderTokens(header)| == |fields|
            && forall i | 0 <= i < |fields| :: HeaderTokens(header)[i] == FieldToken(fields[i])
  {
    var header, lines := Rendered(fields), LinesOf(fields);
    var payload := Join(lines, [CR, LF]);
    assert header[..|header| - 4] == payload && header[|header| - 4..] == TERMINATOR;
    forall line | line in lines ensures !Contains(line, [CR, LF]) {
      var i :| 0 <= i < |lines| && lines[i] == line;
      GoodLineHasNoBreak(fields[i]);
    }
    SplitJoin(lines, [CR, LF]);
    forall i | 0 <= i < |fields| ensures TokenOf(lines[i]) == FieldToken(fields[i]) {
      GoodLineParses(fields[i]);
    }
    forall i | 0 <= i < |payload| ensures payload[i] < 128 {
      forall k, l | 0 <= k < |lines| && 0 <= l < |lines[k]| ensures lines[k][l] < 128 {
        LineBytes(fields[k], l);
      }
      JoinedBytes(lines, i);
    }
    PrintableIsText(payload);
  }

  lemma FieldsOfLines(lines: seq<Bytes>) returns (fields: seq<FieldLine>)
    requires forall i | 0 <= i < |lines| :: ParseLine(lines[i]).Some?
    ensures (forall i | 0 <= i < |fields| :: GoodField(fields[i])) && LinesOf(fields) == lines
  {
    fields := [];
    for i := 0 to |lines|
      invariant |fields| == i
      invariant forall k | 0 <= k < i :: GoodField(fields[k]) && LineOf(fields[k]) == lines[k]
    {
      var f := ParsedLineIsGood(lines[i]);
      fields := fields + [f];
    }
  }

  /** A header without malformed lines is rendered from good fields. */
  lemma TokensAreRendered(header: Bytes) returns (fields: seq<FieldLine>)
    requires EndsWithTerminator(header)
    requires forall i | 0 <= i < |HeaderTokens(header)| :: HeaderTokens(header)[i] != Malformed
    ensures fields != [] && (forall i | 0 <= i < |fields| :: GoodField(fields[i])) && header == Rendered(fields)
  {
    var payload := header[..|header| - 4];
    var lines := Split(payload, [CR, LF]);
    SplitMeans(payload, [CR, LF]);
    forall i | 0 <= i < |lines| ensures ParseLine(lines[i]).Some? {
      assert HeaderTokens(header)[i] == TokenOf(lines[i]);
    }
    fields := FieldsOfLines(lines);
    assert header == payload + header[|header| - 4..];
  }

  /** The grammar, exactly: a header announces n if and only if it is rendered from good lines that announce n. */
  lemma HeadersExactly(header: Bytes, n: nat)
    ensures HeaderLength(header) == Ok(n) <==>
            exists fields: seq<FieldLine> :: Announces(fields, n) && header == Rendered(fields)
  {
    HeaderAcceptedIff(header, n);
    if fields: seq<FieldLine> :| Announces(fields, n) && header == Rendered(fields) {
      RenderedIsAccepted(fields, n);
    }
    if HeaderLength(header) == Ok(n) {
      AcceptedIsRendered(header, n);
    }
  }

  lemma FieldTokenMeans(f: FieldLine)
    ensures IsLengthField(f) <==> FieldToken(f).LengthToken?
    ensures IsLengthField(f) ==> FieldToken(f) == LengthToken(ContentLength(f.value))
    ensures IsTypeField(f) <==> FieldToken(f).TypeToken?
    ensures IsTypeField(f) ==> FieldToken(f) == TypeToken(SupportedContentType(f.value))
    ensures FieldToken(f) != Malformed
  {
    NotBothFields(f);
  }

  ghost predicate TokensFit(fields: seq<FieldLine>, tokens: seq<Token>) {
    && |tokens| == |fields|
    && forall i | 0 <= i < |fields| ::
         && tokens[i] != Malformed
         && (IsLengthField(fields[i]) <==> tokens[i].LengthToken?)
         && (IsLengthField(fields[i]) ==> tokens[i] == LengthToken(ContentLength(fields[i].value)))
         && (IsTypeField(fields[i]) <==> tokens[i].TypeToken?)
         && (IsTypeField(fields[i]) ==> tokens[i] == TypeToken(SupportedContentType(fields[i].value)))
  }

  lemma FieldsFit(fields: seq<FieldLine>, tokens: seq<Token>)
    requires |tokens| == |fields| && forall i | 0 <= i < |fields| :: tokens[i] == FieldToken(fields[i])
    ensures TokensFit(fields, tokens)
  {
    forall i | 0 <= i < |fields|
      ensures tokens[i] != Malformed
      ensures IsLengthField(fields[i]) <==> tokens[i].LengthToken?
      ensures IsLengthField(fields[i]) ==> tokens[i] == LengthToken(ContentLength(fields[i].value))
      ensures IsTypeField(fields[i]) <==> tokens[i].TypeToken?
      ensures IsTypeField(fields[i]) ==> tokens[i] == TypeToken(SupportedContentType(fields[i].value))
    {
      FieldTokenMeans(fields[i]);
    }
  }

  lemma AcceptableAnnounces(fields: seq<FieldLine>, tokens: seq<Token>, n: nat)
    requires fields != [] && (forall i | 0 <= i < |fields| :: GoodField(fields[i])) && TokensFit(fields, tokens)
    requires Acceptable(tokens) && LengthToken(Ok(n)) in tokens
    ensures Announces(fields, n)
  {
    var i :| 0 <= i < |tokens| && tokens[i] == LengthToken(Ok(n));
    forall j | 0 <= j < |fields| && IsLengthField(fields[j]) ensures ContentLength(fields[j].value) == Ok(n) {
      assert tokens[j].LengthToken? && i == j;
    }
    forall j | 0 <= j < |fields| && IsTypeField(fields[j]) ensures SupportedContentType(fields[j].value) {
      assert Good(tokens[j]);
    }
    assert IsLengthField(fields[i]);
  }

  lemma AnnouncedIsAcceptable(fields: seq<FieldLine>, tokens: seq<Token>, n: nat)
    requires Announces(fields, n) && TokensFit(fields, tokens)
    ensures Acceptable(tokens) && LengthToken(Ok(n)) in tokens
  {
    var i :| 0 <= i < |fields| && IsLengthField(fields[i]);
    assert tokens[i] == LengthToken(Ok(n));
  }

  lemma RenderedIsAccepted(fields: seq<FieldLine>, n: nat)
    requires Announces(fields, n)
    ensures HeaderLength(Rendered(fields)) == Ok(n)
  {
    var header := Rendered(fields);
    RenderedTokens(fields);
    FieldsFit(fields, HeaderTokens(header));
    AnnouncedIsAcceptable(fields, HeaderTokens(header), n);
    HeaderAcceptedIff(header, n);
  }

  lemma AcceptedIsRendered(header: Bytes, n: nat)
    requires HeaderLength(header) == Ok(n)
    ensures exists fields: seq<FieldLine> :: Announces(fields, n) && header == Rendered(fields)
  {
    HeaderAcceptedIff(header, n);
    var fields := TokensAreRendered(header);
    RenderedTokens(fields);
    FieldsFit(fields, HeaderTokens(header));
    AcceptableAnnounces(fields, HeaderTokens(header), n);
  }

  // ----- the grammar of supported content types

  /** Between blanks. */
  ghost predicate Padded(b: Bytes, before: Bytes, inner: Bytes, after: Bytes) {
    AllBlank(before) && AllBlank(after) && b == before + inner + after
  }

  /** A word in any case, between blanks. */
  ghost predicate IsWord(b: Bytes, word: Bytes) {
    exists before, inner, after :: Padded(b, before, inner, after) && EqIgnoreCase(inner, word)
  }

  /** A word that trimming leaves alone and a search for a parameter's value does not stop in. */
  predicate IsName(word: Bytes) {
    word != [] && forall i | 0 <= i < |word| :: 97 <= word[i] <= 122 || word[i] in {45, 47} || IsDigit(word[i])
  }

  lemma NameBytes(inner: Bytes, word: Bytes)
    requires IsName(word) && EqIgnoreCase(inner, word)
    ensures inner != []
    ensures forall i | 0 <= i < |inner| :: !IsBlank(inner[i]) && inner[i] != EQUALS && inner[i] != SEMICOLON
  {
    forall i | 0 <= i < |inner| ensures !IsBlank(inner[i]) && inner[i] != EQUALS && inner[i] != SEMICOLON {
      assert Lower(inner[i]) == Lower(word[i]);
    }
  }

  lemma TrimmedIsWord(b: Bytes, word: Bytes)
    requires EqIgnoreCase(Trim(b), word)
    ensures IsWord(b, word)
  {
    var i, j := TrimCutsBlanks(b);
    assert b == b[..i] + b[i..j] + b[j..];
    assert Padded(b, b[..i], b[i..j], b[j..]);
  }

  lemma WordTrims(b: Bytes, word: Bytes)
    requires IsName(word) && IsWord(b, word)
    ensures EqIgnoreCase(Trim(b), word)
  {
    var before, inner, after :| Padded(b, before, inner, after) && EqIgnoreCase(inner, word);
    NameBytes(inner, word);
    TrimStrips(before, inner, after);
  }

  lemma WordIsTrimmed(b: Bytes, word: Bytes)
    requires IsName(word)
    ensures IsWord(b, word) <==> EqIgnoreCase(Trim(b), word)
  {
    if EqIgnoreCase(Trim(b), word) {
      TrimmedIsWord(b, word);
    } else if IsWord(b, word) {
      WordTrims(b, word);
    }
  }

  lemma WordBetweenBlanks(x: Bytes, b: Bytes, y: Bytes, word: Bytes)
    requires AllBlank(x) && AllBlank(y) && IsWord(b, word)
    ensures IsWord(x + b + y, word)
  {
    var before, inner, after :| Padded(b, before, inner, after) && EqIgnoreCase(inner, word);
    assert x + b + y == (x + before) + inner + (after + y);
    assert Padded(x + b + y, x + before, inner, after + y);
  }

  ghost predicate IsCharsetName(b: Bytes) {
    IsWord(b, Ascii("charset"))
  }

  ghost predicate IsUtf8Name(b: Bytes) {
    IsWord(b, Ascii("utf-8")) || IsWord(b, Ascii("utf8"))
  }

  /** A parameter: the name `charset`, an equals sign and a name of UTF-8, with blanks around each. */
  ghost predicate IsCharsetParameter(b: Bytes) {
    exists k | 0 <= k < |b| :: b[k] == EQUALS && IsCharsetName(b[..k]) && IsUtf8Name(b[k + 1..])
  }

  lemma NamesAreNames()
    ensures IsName(Ascii("charset")) && IsName(Ascii("utf-8")) && IsName(Ascii("utf8"))
    ensures IsName(Ascii("application/vscode-jsonrpc"))
  {
  }

  lemma Utf8BetweenBlanks(rest: Bytes, y: Bytes)
    requires AllBlank(y) && IsUtf8Name(rest)
    ensures IsUtf8Name(rest + y)
  {
    assert [] + rest + y == rest + y;
    if IsWord(rest, Ascii("utf-8")) {
      WordBetweenBlanks([], rest, y, Ascii("utf-8"));
    } else {
      WordBetweenBlanks([], rest, y, Ascii("utf8"));
    }
  }

  lemma ParameterBetweenBlanks(p: Bytes, x: Bytes, name: Bytes, rest: Bytes, y: Bytes)
    requires AllBlank(x) && AllBlank(y) && IsCharsetName(name) && IsUtf8Name(rest)
    requires p == x + (name + [EQUALS] + rest) + y
    ensures IsCharsetParameter(p)
  {
    var k := |x| + |name|;
    WordBetweenBlanks(x, name, [], Ascii("charset"));
    Utf8BetweenBlanks(rest, y);
    assert p[..k] == x + name + [] && p[k] == EQUALS && p[k + 1..] == rest + y;
  }

  lemma CharsetWords(name: Bytes, rest: Bytes)
    requires EqIgnoreCase(Trim(name), Ascii("charset"))
    requires EqIgnoreCase(Trim(rest), Ascii("utf-8")) || EqIgnoreCase(Trim(rest), Ascii("utf8"))
    ensures IsCharsetName(name) && IsUtf8Name(rest)
  {
    TrimmedIsWord(name, Ascii("charset"));
    if EqIgnoreCase(Trim(rest), Ascii("utf-8")) {
      TrimmedIsWord(rest, Ascii("utf-8"));
    } else {
      TrimmedIsWord(rest, Ascii("utf8"));
    }
  }

  lemma CharsetIsParameter(p: Bytes)
    requires IsUtf8Charset(p)
    ensures IsCharsetParameter(p)
  {
    var t := Trim(p);
    FindMeans(t, [EQUALS]);
    var e := Find(t, [EQUALS]).value;
    var name, rest := t[..e], t[e + 1..];
    CutAt(t, EQUALS, e);
    CharsetWords(name, rest);
    var x, y := TrimmedParts(p);
    ParameterBetweenBlanks(p, x, name, rest, y);
  }

  lemma TrimEnds(name: Bytes, blanks: Bytes)
    requires AllBlank(blanks) && name != [] && !IsBlank(name[0]) && !IsBlank(name[|name| - 1])
    ensures Trim(name + blanks) == name && Trim(blanks + name) == name
  {
    TrimStrips([], name, blanks);
    TrimStrips(blanks, name, []);
    assert [] + name + blanks == name + blanks && blanks + name + [] == blanks + name;
  }

  lemma NoEquals(name: Bytes, blanks: Bytes)
    requires AllBlank(blanks) && forall i | 0 <= i < |name| :: name[i] != EQUALS
    ensures !Contains(name + blanks, [EQUALS])
  {
    var left := name + blanks;
    forall k: nat ensures !OccursAt(left, [EQUALS], k) {
      if k + 1 <= |left| {
        assert left[k..k + 1][0] == left[k];
      }
    }
  }

  lemma Regrouped(a: Bytes, name: Bytes, b: Bytes, c: Bytes, value: Bytes, d: Bytes)
    ensures a + name + b + [EQUALS] + (c + value + d) == a + (name + b + [EQUALS] + (c + value)) + d
  {
  }

  lemma CutInner(left: Bytes, right: Bytes)
    ensures var inner := left + [EQUALS] + right; inner[..|left|] == left && inner[|left| + 1..] == right
  {
  }

  /** Trimmed, a parameter splits at its equals sign into the two words. */
  lemma ParameterSplits(a: Bytes, name: Bytes, b: Bytes, c: Bytes, value: Bytes, d: Bytes)
    requires AllBlank(a) && AllBlank(b) && AllBlank(c) && AllBlank(d) && name != [] && value != []
    requires forall i | 0 <= i < |name| :: !IsBlank(name[i]) && name[i] != EQUALS
    requires forall i | 0 <= i < |value| :: !IsBlank(value[i])
    ensures var t := Trim(a + name + b + [EQUALS] + (c + value + d));
            && Find(t, [EQUALS]) == Some(|name + b|)
            && Trim(t[..|name + b|]) == name
            && Trim(t[|name + b| + 1..]) == value
  {
    var left, right := name + b, c + value;
    var inner := left + [EQUALS] + right;
    Regrouped(a, name, b, c, value, d);
    assert inner[0] == name[0] && inner[|inner| - 1] == value[|value| - 1];
    TrimStrips(a, inner, d);
    NoEquals(name, b);
    FirstSeparator(left, [EQUALS], right);
    CutInner(left, right);
    TrimEnds(name, b);
    TrimEnds(value, c);
  }

  lemma ParameterIsCharset(p: Bytes, k: nat, utf8: Bytes)
    requires utf8 == Ascii("utf-8") || utf8 == Ascii("utf8")
    requires k < |p| && p[k] == EQUALS && IsCharsetName(p[..k]) && IsWord(p[k + 1..], utf8)
    ensures IsUtf8Charset(p)
  {
    NamesAreNames();
    var a, name, b :| Padded(p[..k], a, name, b) && EqIgnoreCase(name, Ascii("charset"));
    var c, value, d :| Padded(p[k + 1..], c, value, d) && EqIgnoreCase(value, utf8);
    NameBytes(name, Ascii("charset"));
    NameBytes(value, utf8);
    assert p == p[..k] + [EQUALS] + p[k + 1..];
    assert p == a + name + b + [EQUALS] + (c + value + d);
    ParameterSplits(a, name, b, c, value, d);
  }

  lemma CharsetsExactly(p: Bytes)
    ensures IsUtf8Charset(p) <==> IsCharsetParameter(p)
  {
    if IsUtf8Charset(p) {
      CharsetIsParameter(p);
    }
    if k :| 0 <= k < |p| && p[k] == EQUALS && IsCharsetName(p[..k]) && IsUtf8Name(p[k + 1..]) {
      ParameterIsCharset(p, k, if IsWord(p[k + 1..], Ascii("utf-8")) then Ascii("utf-8") else Ascii("utf8"));
    }
  }

  ghost predicate IsMediaType(b: Bytes) {
    IsWord(b, Ascii("application/vscode-jsonrpc"))
  }

  /** A content type is supported if and only if it is the protocol's media type, alone or followed by a semicolon
      and one parameter that names the charset UTF-8, in any case and with any blanks. */
  lemma ContentTypesExactly(value: Bytes)
    ensures SupportedContentType(value) <==>
            || IsMediaType(value)
            || exists k | 0 <= k < |value| ::
                 value[k] == SEMICOLON && IsMediaType(value[..k]) && IsCharsetParameter(value[k + 1..])
  {
    NamesAreNames();
    if SupportedContentType(value) {
      SupportedIsGrammatical(value);
    }
    if IsMediaType(value) {
      WordHasNoSemicolon(value);
      SplitJoin([value], [SEMICOLON]);
      WordIsTrimmed(value, Ascii("application/vscode-jsonrpc"));
    }
    if k :| 0 <= k < |value| && value[k] == SEMICOLON && IsMediaType(value[..k]) && IsCharsetParameter(value[k + 1..]) {
      GrammaticalIsSupported(value, k);
    }
  }

  lemma SupportedIsGrammatical(value: Bytes)
    requires SupportedContentType(value)
    ensures || IsMediaType(value)
            || exists k | 0 <= k < |value| ::
                 value[k] == SEMICOLON && IsMediaType(value[..k]) && IsCharsetParameter(value[k + 1..])
  {
    NamesAreNames();
    var parts := Split(value, [SEMICOLON]);
    SplitMeans(value, [SEMICOLON]);
    WordIsTrimmed(parts[0], Ascii("application/vscode-jsonrpc"));
    if |parts| == 2 {
      CharsetsExactly(parts[1]);
      var k := |parts[0]|;
      assert value == parts[0] + [SEMICOLON] + Join(parts[1..], [SEMICOLON]);
      assert value[..k] == parts[0] && value[k + 1..] == parts[1] && value[k] == SEMICOLON;
    }
  }

  lemma WordHasNoSemicolon(b: Bytes)
    requires IsMediaType(b)
    ensures !Contains(b, [SEMICOLON])
  {
    NamesAreNames();
    var x, inner, y :| Padded(b, x, inner, y) && EqIgnoreCase(inner, Ascii("application/vscode-jsonrpc"));
    NameBytes(inner, Ascii("application/vscode-jsonrpc"));
    forall k: nat ensures !OccursAt(b, [SEMICOLON], k) {
      if k + 1 <= |b| {
        assert b[k..k + 1][0] == b[k];
      }
    }
  }

  lemma NoSemicolon(b: Bytes)
    requires forall i | 0 <= i < |b| :: b[i] != SEMICOLON
    ensures !Contains(b, [SEMICOLON])
  {
    forall k: nat ensures !OccursAt(b, [SEMICOLON], k) {
      if k + 1 <= |b| {
        assert b[k..k + 1][0] == b[k];
      }
    }
  }

  lemma ParameterPieces(p: Bytes, e: nat)
    requires e < |p| && p[e] == EQUALS && IsCharsetName(p[..e]) && IsUtf8Name(p[e + 1..])
    ensures forall i | 0 <= i < |p| :: p[i] != SEMICOLON
  {
    NamesAreNames();
    WordBytes(p[..e], Ascii("charset"));
    if IsWord(p[e + 1..], Ascii("utf-8")) {
      WordBytes(p[e + 1..], Ascii("utf-8"));
    } else {
      WordBytes(p[e + 1..], Ascii("utf8"));
    }
    assert p[e..e + 1] == [EQUALS];
    CutAt(p, EQUALS, e);
    JoinedHasNone(p, p[..e], EQUALS, p[e + 1..]);
  }

  lemma ParameterHasNoSemicolon(p: Bytes)
    requires IsCharsetParameter(p)
    ensures !Contains(p, [SEMICOLON])
  {
    var e :| 0 <= e < |p| && p[e] == EQUALS && IsCharsetName(p[..e]) && IsUtf8Name(p[e + 1..]);
    ParameterPieces(p, e);
    NoSemicolon(p);
  }

  lemma JoinedHasNone(p: Bytes, left: Bytes, c: byte, right: Bytes)
    requires p == left + [c] + right && c != SEMICOLON
    requires forall i | 0 <= i < |left| :: left[i] != SEMICOLON
    requires forall i | 0 <= i < |right| :: right[i] != SEMICOLON
    ensures forall i | 0 <= i < |p| :: p[i] != SEMICOLON
  {
  }

  lemma WordBytes(b: Bytes, word: Bytes)
    requires IsName(word) && IsWord(b, word)
    ensures forall i | 0 <= i < |b| :: b[i] != SEMICOLON
  {
    var x, inner, y :| Padded(b, x, inner, y) && EqIgnoreCase(inner, word);
    NameBytes(inner, word);
  }

  lemma GrammaticalIsSupported(value: Bytes, k: nat)
    requires k < |value| && value[k] == SEMICOLON && IsMediaType(value[..k]) && IsCharsetParameter(value[k + 1..])
    ensures SupportedContentType(value)
  {
    NamesAreNames();
    var parts := [value[..k], value[k + 1..]];
    WordHasNoSemicolon(parts[0]);
    ParameterHasNoSemicolon(parts[1]);
    assert parts[1..] == [parts[1]];
    assert Join(parts, [SEMICOLON]) == value[..k] + [SEMICOLON] + value[k + 1..] == value;
    SplitJoin(parts, [SEMICOLON]);
    WordIsTrimmed(parts[0], Ascii("application/vscode-jsonrpc"));
    CharsetsExactly(parts[1]);
  }
}
