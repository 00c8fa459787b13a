/** Flattening a symbol hierarchy with an explicit stack. */
module Symbols {
  import opened Common
  import opened Scalars
  import opened Positions
  import Utf8

  const MAXIMUM_LSP_UINTEGER: nat := 2_147_483_647

  datatype WireRange = WireRange(start: Position, end: Position)

  /** A standardised kind, by its number in the protocol, or one of the server's own. */
  datatype SymbolKind = Standard(number: nat) | Custom(value: nat)

  datatype NormalizedSymbolKind = Known(number: nat) | Unknown(value: nat)

  function NormalizeKind(kind: SymbolKind): NormalizedSymbolKind {
    match kind case Standard(number) => Known(number) case Custom(value) => Unknown(value)
  }

  datatype Symbol = Symbol(
    name: string, detail: Option<string>, kind: SymbolKind, range: WireRange, selectionRange: WireRange,
    children: seq<Symbol>)

  datatype NormalizedSymbol = NormalizedSymbol(
    name: string, detail: Option<string>, kind: NormalizedSymbolKind, symbolPath: seq<string>, lspRange: WireRange,
    lspSelectionRange: WireRange, byteRange: (nat, nat), selectionByteRange: (nat, nat))

  datatype SymbolLimits = SymbolLimits(
    rawSymbols: nat, flattenedSymbols: nat, depth: nat, nameBytes: nat, detailBytes: nat, pathBytes: nat,
    storageBytes: nat)

  datatype SymbolError =
    | MalformedDocumentSymbols
    | SelectionRangeNotContained
    | ResourceLimitExceeded(resource: string, maximum: nat)
    | PositionFailure(error: PositionError)

  const OutOfWork := PositionFailure(WorkLimitExceeded)

  function RawLimit(limits: SymbolLimits): SymbolError {
    ResourceLimitExceeded("raw_document_symbols", limits.rawSymbols)
  }

  // ----- recursive preorder

  /** A symbol with the names of its ancestors, root first, and its own. */
  datatype Entry = Entry(symbol: Symbol, path: seq<string>)

  function Preorder(forest: seq<Symbol>, parents: seq<string>): seq<Entry>
    decreases forest
  {
    if forest == [] then []
    else
      var path := parents + [forest[0].name];
      [Entry(forest[0], path)] + Preorder(forest[0].children, path) + Preorder(forest[1..], parents)
  }

  lemma PreorderUnfold(s: Symbol, parents: seq<string>)
    ensures Preorder([s], parents) == [Entry(s, parents + [s.name])] + Preorder(s.children, parents + [s.name])
  {
    assert [s][1..] == [];
    assert Preorder([], parents) == [];
    assert Preorder([], parents + [s.name]) == [];
  }

  lemma PreorderSplit(forest: seq<Symbol>, parents: seq<string>)
    requires forest != []
    ensures Preorder(forest, parents) == Preorder([forest[0]], parents) + Preorder(forest[1..], parents)
  {
    PreorderUnfold(forest[0], parents);
  }

  // ----- breadcrumbs as shared linked nodes

  datatype PathNode = PathNode(name: string, parent: Option<PathNode>)

  function Breadcrumb(node: PathNode): seq<string> {
    Ancestors(node.parent) + [node.name]
  }

  function Ancestors(node: Option<PathNode>): seq<string> {
    match node case None => [] case Some(n) => Ancestors(n.parent) + [n.name]
  }

  function Reversed<T>(s: seq<T>): seq<T> {
    if s == [] then [] else Reversed(s[1..]) + [s[0]]
  }

  lemma {:induction false} ReversedSnoc<T>(s: seq<T>, x: T)
    ensures Reversed(s + [x]) == [x] + Reversed(s)
  {
    if s == [] {
      assert s + [x] == [x];
    } else {
      ReversedSnoc(s[1..], x);
      assert (s + [x])[1..] == s[1..] + [x];
    }
  }

  /** Collects the names leaf first and reverses them. */
  method MaterializePath(node: PathNode) returns (path: seq<string>)
    ensures path == Breadcrumb(node)
  {
    path := [];
    var current := Some(node);
    while current.Some?
      invariant Breadcrumb(node) == Ancestors(current) + Reversed(path)
      decreases current
    {
      ReversedSnoc(path, current.value.name);
      path := path + [current.value.name];
      current := current.value.parent;
    }
    path := Reversed(path);
  }

  // ----- what a normalized symbol must say

  ghost predicate RangeDenotes(d: Document, e: Encoding, range: WireRange, bytes: (nat, nat)) {
    && bytes.0 < bytes.1
    && Denotes(d, e, range.start, Ok(bytes.0))
    && Denotes(d, e, range.end, Ok(bytes.1))
  }

  ghost predicate Matches(d: Document, e: Encoding, entry: Entry, n: NormalizedSymbol) {
    && n.name == entry.symbol.name && n.detail == entry.symbol.detail && n.symbolPath == entry.path
    && n.kind == NormalizeKind(entry.symbol.kind)
    && n.lspRange == entry.symbol.range && n.lspSelectionRange == entry.symbol.selectionRange
    && RangeDenotes(d, e, n.lspRange, n.byteRange)
    && RangeDenotes(d, e, n.lspSelectionRange, n.selectionByteRange)
    && n.byteRange.0 <= n.selectionByteRange.0 && n.selectionByteRange.1 <= n.byteRange.1
  }

  function ByteLength(s: string): nat {
    |Utf8.EncodeAll(s)|
  }

  function PathBytes(path: seq<string>): nat {
    if path == [] then 0 else PathBytes(path[..|path| - 1]) + ByteLength(path[|path| - 1])
  }

  predicate WireRangeIsValid(r: WireRange) {
    && r.start.line <= MAXIMUM_LSP_UINTEGER && r.start.character <= MAXIMUM_LSP_UINTEGER
    && r.end.line <= MAXIMUM_LSP_UINTEGER && r.end.character <= MAXIMUM_LSP_UINTEGER
  }

  predicate WithinLimits(limits: SymbolLimits, entry: Entry) {
    var s := entry.symbol;
    && s.name != "" && WireRangeIsValid(s.range) && WireRangeIsValid(s.selectionRange)
    && |entry.path| <= limits.depth
    && ByteLength(s.name) <= limits.nameBytes
    && (s.detail.Some? ==> ByteLength(s.detail.value) <= limits.detailBytes)
    && PathBytes(entry.path) <= limits.pathBytes
  }

  /** The owned strings of one candidate: its name twice, its detail and its breadcrumb. */
  function OwnedBytes(entry: Entry): nat {
    ByteLength(entry.symbol.name) + ByteLength(entry.symbol.name)
    + (if entry.symbol.detail.Some? then ByteLength(entry.symbol.detail.value) else 0) + PathBytes(entry.path)
  }

  /** The work of converting a symbol's two ranges. */
  function RangesWork(d: Document, e: Encoding, s: Symbol): nat
    requires Valid(d)
  {
    PositionWork(d, e, s.range.start) + PositionWork(d, e, s.range.end)
    + PositionWork(d, e, s.selectionRange.start) + PositionWork(d, e, s.selectionRange.end)
  }

  ghost function Work(d: Document, e: Encoding): Entry -> nat
    requires Valid(d)
  {
    (entry: Entry) => RangesWork(d, e, entry.symbol)
  }

  /** A symbol that is within its limits and whose ranges denote bytes, the selection inside the whole. */
  ghost predicate Acceptable(d: Document, e: Encoding, limits: SymbolLimits, entry: Entry) {
    WithinLimits(limits, entry) && exists n :: Matches(d, e, entry, n)
  }

  /** A forest within every limit, symbol by symbol and in all. */
  ghost predicate Flattenable(d: Document, e: Encoding, limits: SymbolLimits, entries: seq<Entry>) {
    && |entries| <= limits.rawSymbols
    && |entries| <= limits.flattenedSymbols
    && (entries != [] ==> Total(entries, OwnedBytes) <= limits.storageBytes)
    && forall entry | entry in entries :: Acceptable(d, e, limits, entry)
  }

  ghost function Accepting(d: Document, e: Encoding, limits: SymbolLimits): (Entry, NormalizedSymbol) -> bool {
    (entry: Entry, n: NormalizedSymbol) => WithinLimits(limits, entry) && Matches(d, e, entry, n)
  }

  /** The list is the preorder, entry by entry. */
  ghost predicate Flattens(
    d: Document, e: Encoding, limits: SymbolLimits, entries: seq<Entry>, list: seq<NormalizedSymbol>)
  {
    Pointwise(entries, list, Accepting(d, e, limits))
  }

  lemma FlattenedIsAcceptable(
    d: Document, e: Encoding, limits: SymbolLimits, entries: seq<Entry>, list: seq<NormalizedSymbol>)
    requires Flattens(d, e, limits, entries, list)
    ensures forall entry | entry in entries :: Acceptable(d, e, limits, entry)
  {
    forall entry | entry in entries ensures Acceptable(d, e, limits, entry) {
      var i :| 0 <= i < |entries| && entries[i] == entry;
      assert Accepting(d, e, limits)(entries[i], list[i]);
    }
  }

  lemma RangeMeaning(
    d: Document, e: Encoding, range: WireRange, bytes: (nat, nat), r: Result<(nat, nat), PositionError>)
    requires RangeDenotes(d, e, range, bytes)
    requires RangeMeans(d, e, range.start, range.end, r) && r != Err(WorkLimitExceeded)
    ensures r == Ok(bytes)
  {
    RangeMeaningIsUnique(d, e, range.start, range.end, bytes.0, bytes.1, r);
  }

  /** A symbol normalizes to one thing only. */
  lemma MatchIsUnique(d: Document, e: Encoding, entry: Entry, n: NormalizedSymbol, n': NormalizedSymbol)
    requires Matches(d, e, entry, n) && Matches(d, e, entry, n')
    ensures n == n'
  {
    RangeMeaning(d, e, n.lspRange, n.byteRange, Ok(n'.byteRange));
    RangeMeaning(d, e, n.lspSelectionRange, n.selectionByteRange, Ok(n'.selectionByteRange));
  }

  /** So does a forest. */
  lemma FlatteningIsUnique(
    d: Document, e: Encoding, limits: SymbolLimits, entries: seq<Entry>, list: seq<NormalizedSymbol>,
    list': seq<NormalizedSymbol>)
    requires Flattens(d, e, limits, entries, list) && Flattens(d, e, limits, entries, list')
    ensures list == list'
  {
    forall i | 0 <= i < |entries| ensures list[i] == list'[i] {
      MatchIsUnique(d, e, entries[i], list[i], list'[i]);
    }
  }

  // ----- the stack

  datatype PendingSymbol = PendingSymbol(symbol: Symbol, parentPath: Option<PathNode>, parentPathBytes: nat, depth: nat)

  function EntryOf(p: PendingSymbol): Entry {
    Entry(p.symbol, Ancestors(p.parentPath) + [p.symbol.name])
  }

  /** The counters of a pending symbol describe its ancestors. */
  predicate Consistent(p: PendingSymbol) {
    p.depth == |Ancestors(p.parentPath)| + 1 && p.parentPathBytes == PathBytes(Ancestors(p.parentPath))
  }

  /** What is still to come: the symbol on top and all below it, then the rest of the stack. */
  function Upcoming(stack: seq<PendingSymbol>): seq<Entry> {
    if stack == [] then []
    else
      var top := stack[|stack| - 1];
      Preorder([top.symbol], Ancestors(top.parentPath)) + Upcoming(stack[..|stack| - 1])
  }

  lemma {:induction false} PendingIsUpcoming(stack: seq<PendingSymbol>)
    ensures |stack| <= |Upcoming(stack)|
  {
    if stack != [] {
      PendingIsUpcoming(stack[..|stack| - 1]);
      var top := stack[|stack| - 1];
      PreorderUnfold(top.symbol, Ancestors(top.parentPath));
    }
  }

  /** Pushing siblings last to first makes them come in order. */
  method PushReversed(
    symbols: seq<Symbol>, parent: Option<PathNode>, parentPathBytes: nat, depth: nat, below: seq<PendingSymbol>)
    returns (stack: seq<PendingSymbol>)
    requires depth == |Ancestors(parent)| + 1 && parentPathBytes == PathBytes(Ancestors(parent))
    requires forall p | p in below :: Consistent(p)
    ensures |stack| == |below| + |symbols| && forall p | p in stack :: Consistent(p)
    ensures Upcoming(stack) == Preorder(symbols, Ancestors(parent)) + Upcoming(below)
  {
    stack := below;
    var i := |symbols|;
    assert symbols[|symbols|..] == [];
    assert Preorder(symbols[i..], Ancestors(parent)) + Upcoming(below) == Upcoming(below);
    while i > 0
      invariant 0 <= i <= |symbols|
      invariant |stack| == |below| + |symbols| - i && forall p | p in stack :: Consistent(p)
      invariant Upcoming(stack) == Preorder(symbols[i..], Ancestors(parent)) + Upcoming(below)
    {
      i := i - 1;
      var pending := PendingSymbol(symbols[i], parent, parentPathBytes, depth);
      PushOne(stack, pending, symbols[i..], below);
      stack := stack + [pending];
    }
    assert symbols[0..] == symbols;
  }

  lemma PushOne(stack: seq<PendingSymbol>, pending: PendingSymbol, siblings: seq<Symbol>, below: seq<PendingSymbol>)
    requires siblings != [] && siblings[0] == pending.symbol
    requires Upcoming(stack) == Preorder(siblings[1..], Ancestors(pending.parentPath)) + Upcoming(below)
    ensures Upcoming(stack + [pending]) == Preorder(siblings, Ancestors(pending.parentPath)) + Upcoming(below)
  {
    PreorderSplit(siblings, Ancestors(pending.parentPath));
    assert (stack + [pending])[..|stack|] == stack;
    var first, others :=
      Preorder([pending.symbol], Ancestors(pending.parentPath)), Preorder(siblings[1..], Ancestors(pending.parentPath));
    assert first + (others + Upcoming(below)) == first + others + Upcoming(below);
  }

  // ----- one symbol

  method CheckWireRange(r: WireRange) returns (ok: bool)
    ensures ok <==> WireRangeIsValid(r)
  {
    ok := true;
    var positions := [r.start, r.end];
    for i := 0 to |positions|
      invariant ok <==> forall k | 0 <= k < i ::
                          positions[k].line <= 2_147_483_647 && positions[k].character <= 2_147_483_647
    {
      if positions[i].line > 2_147_483_647 || positions[i].character > 2_147_483_647 {
        ok := false;
      }
    }
    assert positions[0] == r.start && positions[1] == r.end;
  }

  method CheckLengths(pending: PendingSymbol, limits: SymbolLimits) returns (r: Result<nat, SymbolError>)
    requires Consistent(pending)
    ensures r.Ok? <==> WithinLimits(limits, EntryOf(pending))
    ensures r.Ok? ==> r.value == PathBytes(EntryOf(pending).path)
    ensures r.Err? ==> r.error == MalformedDocumentSymbols
                       || (r.error.ResourceLimitExceeded? && r.error.resource != "raw_document_symbols")
  {
    var s := pending.symbol;
    ghost var path := EntryOf(pending).path;
    assert path[..|path| - 1] == Ancestors(pending.parentPath);
    if pending.depth > limits.depth {
      return Err(ResourceLimitExceeded("symbol_nesting_depth", limits.depth));
    }
    var rangeIsValid := CheckWireRange(s.range);
    var selectionIsValid := CheckWireRange(s.selectionRange);
    if s.name == "" || !rangeIsValid || !selectionIsValid {
      return Err(MalformedDocumentSymbols);
    }
    if |Utf8.EncodeAll(s.name)| > limits.nameBytes {
      return Err(ResourceLimitExceeded("symbol_name_bytes", limits.nameBytes));
    }
    if s.detail.Some? && |Utf8.EncodeAll(s.detail.value)| > limits.detailBytes {
      return Err(ResourceLimitExceeded("symbol_detail_bytes", limits.detailBytes));
    }
    var pathBytes := pending.parentPathBytes + |Utf8.EncodeAll(s.name)|;
    if pathBytes > limits.pathBytes {
      return Err(ResourceLimitExceeded("symbol_path_bytes", limits.pathBytes));
    }
    return Ok(pathBytes);
  }

  method ConvertRange(range: WireRange, converter: PositionConverter) returns (r: Result<(nat, nat), SymbolError>)
    requires converter.Ready()
    modifies converter
    ensures converter.Ready()
    ensures r.Ok? ==> RangeDenotes(converter.document, converter.encoding, range, r.value)
    ensures r.Err? ==> r.error.PositionFailure?
    ensures r.Err? && r.error != OutOfWork ==>
              forall bytes :: !RangeDenotes(converter.document, converter.encoding, range, bytes)
    ensures var work := PositionWork(converter.document, converter.encoding, range.start)
                        + PositionWork(converter.document, converter.encoding, range.end);
            && (r.Ok? ==> converter.codePointsScanned == old(converter.codePointsScanned) + work)
            && (r == Err(OutOfWork) ==> old(converter.codePointsScanned) + work > converter.maximumCodePointsScanned)
  {
    var converted := converter.LspRangeToByteRange(range.start, range.end);
    if converted.Err? && converted.error != WorkLimitExceeded {
      forall bytes ensures !RangeDenotes(converter.document, converter.encoding, range, bytes) {
        if RangeDenotes(converter.document, converter.encoding, range, bytes) {
          RangeMeaning(converter.document, converter.encoding, range, bytes, converted);
        }
      }
    }
    return if converted.Ok? then Ok(converted.value) else Err(PositionFailure(converted.error));
  }

  lemma SelectionOutside(d: Document, e: Encoding, entry: Entry, bytes: (nat, nat), selection: (nat, nat))
    requires RangeDenotes(d, e, entry.symbol.range, bytes)
    requires RangeDenotes(d, e, entry.symbol.selectionRange, selection)
    requires !(bytes.0 <= selection.0 && selection.1 <= bytes.1)
    ensures forall n :: !Matches(d, e, entry, n)
  {
    forall n ensures !Matches(d, e, entry, n) {
      if Matches(d, e, entry, n) {
        RangeMeaning(d, e, n.lspRange, bytes, Ok(n.byteRange));
        RangeMeaning(d, e, n.lspSelectionRange, selection, Ok(n.selectionByteRange));
      }
    }
  }

  method NormalizeOne(pending: PendingSymbol, path: seq<string>, converter: PositionConverter)
    returns (r: Result<NormalizedSymbol, SymbolError>)
    requires converter.Ready() && path == EntryOf(pending).path
    modifies converter
    ensures converter.Ready()
    ensures r.Ok? ==> Matches(converter.document, converter.encoding, EntryOf(pending), r.value)
    ensures r.Err? ==> r.error.PositionFailure? || r.error == SelectionRangeNotContained
    ensures r.Err? && r.error != OutOfWork ==>
              forall n :: !Matches(converter.document, converter.encoding, EntryOf(pending), n)
    ensures var work := RangesWork(converter.document, converter.encoding, pending.symbol);
            && (r.Ok? ==> converter.codePointsScanned == old(converter.codePointsScanned) + work)
            && (r == Err(OutOfWork) ==> old(converter.codePointsScanned) + work > converter.maximumCodePointsScanned)
  {
    var s := pending.symbol;
    var byteRange := ConvertRange(s.range, converter);
    if byteRange.Err? {
      return Err(byteRange.error);
    }
    var selection := ConvertRange(s.selectionRange, converter);
    if selection.Err? {
      return Err(selection.error);
    }
    if !(byteRange.value.0 <= selection.value.0 && selection.value.1 <= byteRange.value.1) {
      SelectionOutside(converter.document, converter.encoding, EntryOf(pending), byteRange.value, selection.value);
      return Err(SelectionRangeNotContained);
    }
    var kind := match s.kind case Standard(number) => Known(number) case Custom(value) => Unknown(value);
    return Ok(NormalizedSymbol(
      s.name, s.detail, kind, path, s.range, s.selectionRange, byteRange.value, selection.value));
  }

  // ----- the traversal

  /** The traversal is `done`, then the symbol on top, then its children, then the rest. */
  lemma PopOne(all: seq<Entry>, done: seq<Entry>, stack: seq<PendingSymbol>) returns (after: seq<Entry>)
    requires stack != [] && all == done + Upcoming(stack)
    ensures var top, rest := stack[|stack| - 1], stack[..|stack| - 1];
            && after == Preorder(top.symbol.children, EntryOf(top).path) + Upcoming(rest)
            && all == done + [EntryOf(top)] + after
            && |Upcoming(stack)| == 1 + |after|
  {
    var top, rest := stack[|stack| - 1], stack[..|stack| - 1];
    PreorderUnfold(top.symbol, Ancestors(top.parentPath));
    var below := Preorder(top.symbol.children, EntryOf(top).path);
    after := below + Upcoming(rest);
    Regroup(done, EntryOf(top), below, Upcoming(rest));
  }

  lemma Regroup<T>(done: seq<T>, x: T, below: seq<T>, rest: seq<T>)
    ensures done + ([x] + below + rest) == done + [x] + (below + rest)
  {
  }

  /** Pushes the children of a symbol unless visited and pending symbols would exceed the limit. */
  method PushChildren(
    top: PendingSymbol, node: PathNode, pathBytes: nat, rawCount: nat, rest: seq<PendingSymbol>, limits: SymbolLimits)
    returns (r: Result<seq<PendingSymbol>, SymbolError>)
    requires Consistent(top) && node == PathNode(top.symbol.name, top.parentPath)
             && pathBytes == PathBytes(EntryOf(top).path)
    requires rawCount + |rest| <= limits.rawSymbols && forall p | p in rest :: Consistent(p)
    ensures r.Ok? ==> rawCount + |r.value| <= limits.rawSymbols && forall p | p in r.value :: Consistent(p)
    ensures r.Ok? ==> Upcoming(r.value) == Preorder(top.symbol.children, EntryOf(top).path) + Upcoming(rest)
    ensures r.Err? ==>
              limits.rawSymbols < rawCount + |Preorder(top.symbol.children, EntryOf(top).path)| + |Upcoming(rest)|
    ensures r.Err? ==> r.error == RawLimit(limits)
  {
    assert Ancestors(Some(node)) == EntryOf(top).path;
    var children := top.symbol.children;
    if |rest| + rawCount + |children| > limits.rawSymbols {
      PendingIsUpcoming(rest);
      ForestSize(children, EntryOf(top).path);
      return Err(RawLimit(limits));
    }
    var stack := PushReversed(children, Some(node), pathBytes, top.depth + 1, rest);
    return Ok(stack);
  }

  lemma {:induction false} ForestSize(forest: seq<Symbol>, parents: seq<string>)
    ensures |forest| <= |Preorder(forest, parents)|
    decreases |forest|
  {
    if forest != [] {
      ForestSize(forest[1..], parents);
    }
  }

  /** Everything one visit does to the symbol on top. */
  method Visit(top: PendingSymbol, converter: PositionConverter, limits: SymbolLimits, storage: nat)
    returns (r: Result<NormalizedSymbol, SymbolError>, node: PathNode, pathBytes: nat, newStorage: nat)
    requires converter.Ready() && Consistent(top)
    modifies converter
    ensures converter.Ready()
    ensures r.Ok? ==>
              && Matches(converter.document, converter.encoding, EntryOf(top), r.value)
              && WithinLimits(limits, EntryOf(top))
              && node == PathNode(top.symbol.name, top.parentPath)
              && pathBytes == PathBytes(EntryOf(top).path)
              && newStorage == storage + OwnedBytes(EntryOf(top)) <= limits.storageBytes
    ensures r.Err? ==> r.error != RawLimit(limits)
    ensures r.Err? && r.error != OutOfWork ==>
              || !Acceptable(converter.document, converter.encoding, limits, EntryOf(top))
              || storage + OwnedBytes(EntryOf(top)) > limits.storageBytes
    ensures var work := RangesWork(converter.document, converter.encoding, top.symbol);
            && (r.Ok? ==> converter.codePointsScanned == old(converter.codePointsScanned) + work)
            && (r == Err(OutOfWork) ==> old(converter.codePointsScanned) + work > converter.maximumCodePointsScanned)
  {
    node, pathBytes, newStorage := PathNode(top.symbol.name, top.parentPath), 0, storage;
    var checked := CheckLengths(top, limits);
    if checked.Err? {
      r := Err(checked.error);
      return;
    }
    pathBytes := checked.value;
    var path := MaterializePath(node);
    r := NormalizeOne(top, path, converter);
    if r.Err? {
      return;
    }
    var nameBytes := |Utf8.EncodeAll(top.symbol.name)|;
    var detailBytes := if top.symbol.detail.Some? then |Utf8.EncodeAll(top.symbol.detail.value)| else 0;
    newStorage := storage + (nameBytes + nameBytes + detailBytes + pathBytes);
    if newStorage > limits.storageBytes {
      r := Err(ResourceLimitExceeded("symbol_candidate_storage_bytes", limits.storageBytes));
    }
  }

  /** What has been flattened so far. */
  ghost predicate Progress(
    d: Document, e: Encoding, limits: SymbolLimits, done: seq<Entry>, list: seq<NormalizedSymbol>, storage: nat,
    work: nat)
  {
    && Valid(d)
    && Flattens(d, e, limits, done, list)
    && |done| <= limits.flattenedSymbols
    && storage == Total(done, OwnedBytes) && (done != [] ==> storage <= limits.storageBytes)
    && work == Total(done, Work(d, e))
  }

  lemma ProgressOneMore(
    d: Document, e: Encoding, limits: SymbolLimits, done: seq<Entry>, list: seq<NormalizedSymbol>, storage: nat,
    work: nat,
    entry: Entry, n: NormalizedSymbol)
    requires Progress(d, e, limits, done, list, storage, work)
    requires Matches(d, e, entry, n) && WithinLimits(limits, entry)
    requires |done| < limits.flattenedSymbols && storage + OwnedBytes(entry) <= limits.storageBytes
    ensures Progress(
              d, e, limits, done + [entry], list + [n], storage + OwnedBytes(entry),
                work + RangesWork(d, e, entry.symbol))
  {
    TotalSnoc(done, entry, OwnedBytes);
    TotalSnoc(done, entry, Work(d, e));
    PointwiseSnoc(done, list, Accepting(d, e, limits), entry, n);
  }

  /** A visit that fails shows that the forest cannot be flattened, whatever comes after it. */
  lemma Unflattenable(
    d: Document, e: Encoding, limits: SymbolLimits, done: seq<Entry>, entry: Entry, after: seq<Entry>)
    requires || !Acceptable(d, e, limits, entry)
             || Total(done, OwnedBytes) + OwnedBytes(entry) > limits.storageBytes
             || |done| + 1 + |after| > limits.rawSymbols
             || |done| + 1 > limits.flattenedSymbols
    ensures !Flattenable(d, e, limits, done + [entry] + after)
  {
    TotalSnoc(done, entry, OwnedBytes);
    TotalGrows(done + [entry], after, OwnedBytes);
    assert (done + [entry] + after)[|done|] == entry;
  }

  lemma WorkGrows(d: Document, e: Encoding, done: seq<Entry>, entry: Entry, after: seq<Entry>)
    requires Valid(d)
    ensures Total(done, Work(d, e)) + RangesWork(d, e, entry.symbol) <= Total(done + [entry] + after, Work(d, e))
  {
    TotalSnoc(done, entry, Work(d, e));
    TotalGrows(done + [entry], after, Work(d, e));
  }

  /** The state of the traversal between two visits. */
  ghost predicate Traversing(limits: SymbolLimits, all: seq<Entry>, done: seq<Entry>, stack: seq<PendingSymbol>) {
    && all == done + Upcoming(stack)
    && |done| + |stack| <= limits.rawSymbols
    && (forall p | p in stack :: Consistent(p))
  }

  /** What a failure says of the forest, when `before` was charged before the traversal. */
  ghost predicate Justified(
    error: SymbolError, d: Document, e: Encoding, limits: SymbolLimits, all: seq<Entry>, before: nat, maximum: nat)
    requires Valid(d)
  {
    && (error == OutOfWork ==> before + Total(all, Work(d, e)) > maximum)
    && (error != OutOfWork ==> !Flattenable(d, e, limits, all))
    && (error == RawLimit(limits) ==> limits.rawSymbols < |all|)
  }

  /** A visit that fails is enough to say so of the forest. */
  lemma FailureIsJustified(
    error: SymbolError, d: Document, e: Encoding, limits: SymbolLimits, done: seq<Entry>, entry: Entry,
    after: seq<Entry>, before: nat, maximum: nat)
    requires Valid(d)
    requires error == OutOfWork ==> before + Total(done, Work(d, e)) + RangesWork(d, e, entry.symbol) > maximum
    requires error != OutOfWork ==>
               || !Acceptable(d, e, limits, entry)
               || Total(done, OwnedBytes) + OwnedBytes(entry) > limits.storageBytes
               || |done| + 1 + |after| > limits.rawSymbols
               || |done| + 1 > limits.flattenedSymbols
    requires error == RawLimit(limits) ==> |done| + 1 + |after| > limits.rawSymbols
    ensures Justified(error, d, e, limits, done + [entry] + after, before, maximum)
  {
    if error == OutOfWork {
      WorkGrows(d, e, done, entry, after);
    } else {
      Unflattenable(d, e, limits, done, entry, after);
    }
  }

  /** Pushes the children and checks that there is room for one more flattened symbol. */
  method Descend(
    top: PendingSymbol, node: PathNode, pathBytes: nat, rawCount: nat, rest: seq<PendingSymbol>, limits: SymbolLimits,
    flattened: nat)
    returns (r: Result<seq<PendingSymbol>, SymbolError>)
    requires Consistent(top) && node == PathNode(top.symbol.name, top.parentPath)
             && pathBytes == PathBytes(EntryOf(top).path)
    requires rawCount + |rest| <= limits.rawSymbols && forall p | p in rest :: Consistent(p)
    ensures r.Ok? ==>
              && rawCount + |r.value| <= limits.rawSymbols && (forall p | p in r.value :: Consistent(p))
              && Upcoming(r.value) == Preorder(top.symbol.children, EntryOf(top).path) + Upcoming(rest)
              && flattened < limits.flattenedSymbols
    ensures r.Err? ==> r.error.ResourceLimitExceeded?
    ensures r.Err? ==>
              || (r.error == RawLimit(limits)
                  && limits.rawSymbols < rawCount + |Preorder(top.symbol.children, EntryOf(top).path) + Upcoming(rest)|)
              || (r.error != RawLimit(limits) && flattened + 1 > limits.flattenedSymbols)
  {
    r := PushChildren(top, node, pathBytes, rawCount, rest, limits);
    if r.Ok? && flattened + 1 > limits.flattenedSymbols {
      r := Err(ResourceLimitExceeded("flattened_document_symbols", limits.flattenedSymbols));
    }
  }

  /** Flattens one symbol: the progress is one more, or the failure says something of the forest. */
  method VisitSymbol(
    top: PendingSymbol, converter: PositionConverter, limits: SymbolLimits, storage: nat,
    normalized: seq<NormalizedSymbol>, ghost done: seq<Entry>, ghost after: seq<Entry>, ghost before: nat,
    ghost work: nat)
    returns (
      r: Result<seq<NormalizedSymbol>, SymbolError>, node: PathNode, pathBytes: nat, newStorage: nat, ghost more: nat)
    requires converter.Ready() && Consistent(top) && converter.codePointsScanned == before + work
    requires Progress(converter.document, converter.encoding, limits, done, normalized, storage, work)
    modifies converter
    ensures converter.Ready()
    ensures r.Ok? ==>
              && node == PathNode(top.symbol.name, top.parentPath) && pathBytes == PathBytes(EntryOf(top).path)
              && converter.codePointsScanned == before + more
              && (|normalized| < limits.flattenedSymbols ==>
                    Progress(
                      converter.document, converter.encoding, limits, done + [EntryOf(top)], r.value, newStorage, more))
    ensures r.Err? ==>
              Justified(
                r.error, converter.document, converter.encoding, limits, done + [EntryOf(top)] + after, before,
                converter.maximumCodePointsScanned)
  {
    ghost var d, e, entry := converter.document, converter.encoding, EntryOf(top);
    more := work + RangesWork(d, e, top.symbol);
    var visited;
    visited, node, pathBytes, newStorage := Visit(top, converter, limits, storage);
    if visited.Err? {
      FailureIsJustified(
        visited.error, d, e, limits, done, entry, after, before, converter.maximumCodePointsScanned);
      r := Err(visited.error);
      return;
    }
    if |done| < limits.flattenedSymbols {
      ProgressOneMore(d, e, limits, done, normalized, storage, work, entry, visited.value);
    }
    r := Ok(normalized + [visited.value]);
  }

  /** Takes the symbol on top off the stack, flattens it and pushes its children. */
  method VisitTop(
    stack: seq<PendingSymbol>, converter: PositionConverter, limits: SymbolLimits, rawCount: nat, storage: nat,
    normalized: seq<NormalizedSymbol>, ghost all: seq<Entry>, ghost done: seq<Entry>, ghost before: nat,
    ghost work: nat)
    returns (r: Result<(seq<PendingSymbol>, nat, seq<NormalizedSymbol>), SymbolError>, ghost more: nat)
    requires converter.Ready() && stack != [] && converter.codePointsScanned == before + work
    requires Traversing(limits, all, done, stack) && rawCount == |done| + 1
    requires Progress(converter.document, converter.encoding, limits, done, normalized, storage, work)
    modifies converter
    ensures converter.Ready()
    ensures r.Ok? ==>
              var done' := done + [EntryOf(stack[|stack| - 1])];
              && converter.codePointsScanned == before + more
              && Traversing(limits, all, done', r.value.0)
              && |Upcoming(r.value.0)| < |Upcoming(stack)|
              && Progress(converter.document, converter.encoding, limits, done', r.value.2, r.value.1, more)
    ensures r.Err? ==>
              Justified(
                r.error, converter.document, converter.encoding, limits, all, before,
                  converter.maximumCodePointsScanned)
  {
    var top, rest := stack[|stack| - 1], stack[..|stack| - 1];
    ghost var after := PopOne(all, done, stack);
    var visited, node, pathBytes, newStorage;
    visited, node, pathBytes, newStorage, more :=
      VisitSymbol(top, converter, limits, storage, normalized, done, after, before, work);
    if visited.Err? {
      r := Err(visited.error);
      return;
    }
    var pushed := Descend(top, node, pathBytes, rawCount, rest, limits, |normalized|);
    if pushed.Err? {
      FailureIsJustified(
        pushed.error, converter.document, converter.encoding, limits, done, EntryOf(top), after, before,
        converter.maximumCodePointsScanned);
      r := Err(pushed.error);
      return;
    }
    r := Ok((pushed.value, newStorage, visited.value));
  }

  /** Visits symbol after symbol until the stack is empty. */
  method Traverse(start: seq<PendingSymbol>, converter: PositionConverter, limits: SymbolLimits, ghost all: seq<Entry>)
    returns (r: Result<seq<NormalizedSymbol>, SymbolError>, ghost storage: nat, ghost work: nat)
    requires converter.Ready() && Traversing(limits, all, [], start)
    modifies converter
    ensures converter.Ready()
    ensures r.Ok? ==>
              && Progress(converter.document, converter.encoding, limits, all, r.value, storage, work)
              && |all| <= limits.rawSymbols
              && converter.codePointsScanned == old(converter.codePointsScanned) + work
    ensures r.Err? ==>
              Justified(
                r.error, converter.document, converter.encoding, limits, all, old(converter.codePointsScanned),
                converter.maximumCodePointsScanned)
  {
    ghost var d, e, done: seq<Entry> := converter.document, converter.encoding, [];
    var stack, rawCount, candidateStorage: nat, normalized := start, 0, 0, [];
    storage, work := 0, 0;
    while stack != []
      invariant converter.Ready() && converter.codePointsScanned == old(converter.codePointsScanned) + work
      invariant Traversing(limits, all, done, stack) && rawCount == |done|
      invariant Progress(d, e, limits, done, normalized, candidateStorage, work)
      decreases |Upcoming(stack)|
    {
      ghost var entry := EntryOf(stack[|stack| - 1]);
      rawCount := rawCount + 1;
      var visited, more :=
        VisitTop(
          stack, converter, limits, rawCount, candidateStorage, normalized, all, done,
          old(converter.codePointsScanned), work);
      if visited.Err? {
        r := Err(visited.error);
        return;
      }
      done, work := done + [entry], more;
      stack, candidateStorage, normalized := visited.value.0, visited.value.1, visited.value.2;
    }
    assert done + [] == done;
    storage := candidateStorage;
    r := Ok(normalized);
  }

  lemma FinishedIsFlattenable(
    d: Document, e: Encoding, limits: SymbolLimits, all: seq<Entry>, list: seq<NormalizedSymbol>, storage: nat,
    work: nat)
    requires Progress(d, e, limits, all, list, storage, work) && |all| <= limits.rawSymbols
    ensures Flattenable(d, e, limits, all)
  {
    FlattenedIsAcceptable(d, e, limits, all, list);
  }

  lemma TooManyRoots(d: Document, e: Encoding, limits: SymbolLimits, roots: seq<Symbol>)
    requires |roots| > limits.rawSymbols
    ensures |Preorder(roots, [])| > limits.rawSymbols && !Flattenable(d, e, limits, Preorder(roots, []))
  {
    ForestSize(roots, []);
  }

  /** A forest is flattened if and only if it is within every limit, all its ranges denote bytes and nest, and
      the budget covers the scalars before all of its positions. The list is then the preorder with root-first
      breadcrumbs, and exactly that work is charged. */
  method NormalizeHierarchicalSymbols(roots: seq<Symbol>, converter: PositionConverter, limits: SymbolLimits)
    returns (r: Result<seq<NormalizedSymbol>, SymbolError>)
    requires converter.Ready()
    modifies converter
    ensures converter.Ready()
    ensures var d, e, all := converter.document, converter.encoding, Preorder(roots, []);
            var work := old(converter.codePointsScanned) + Total(all, Work(d, e));
            && (r.Ok? <==> Flattenable(d, e, limits, all) && work <= converter.maximumCodePointsScanned)
            && (r.Ok? ==> Flattens(d, e, limits, all, r.value) && converter.codePointsScanned == work)
            && (r == Err(OutOfWork) ==> work > converter.maximumCodePointsScanned)
            && (r.Err? && r.error != OutOfWork ==> !Flattenable(d, e, limits, all))
            && (r == Err(RawLimit(limits)) ==> limits.rawSymbols < |all|)
  {
    ghost var d, e, all := converter.document, converter.encoding, Preorder(roots, []);
    if |roots| > limits.rawSymbols {
      TooManyRoots(d, e, limits, roots);
      return Err(RawLimit(limits));
    }
    var stack := PushReversed(roots, None, 0, 1, []);
    assert all + [] == all && [] + Upcoming(stack) == Upcoming(stack);
    ghost var storage, work;
    r, storage, work := Traverse(stack, converter, limits, all);
    if r.Ok? {
      FinishedIsFlattenable(d, e, limits, all, r.value, storage, work);
    }
  }
}
