/** The subset of CBOR (RFC 8949) that plan records use: definite arrays, unsigned integers, byte and
    text strings, and null. */
module Cbor {
  import opened Common
  import Utf8

  datatype Item = UInt(value: nat) | ByteString(bytes: Bytes) | Text(text: string) | Array(items: seq<Item>) | Null

  /** Big-endian, in a given number of bytes. */
  function BigEndian(n: nat, size: nat): (b: Bytes)
    ensures |b| == size
  {
    if size == 0 then [] else BigEndian(n / 256, size - 1) + [n % 256]
  }

  function FromBigEndian(b: Bytes): nat {
    if b == [] then 0 else FromBigEndian(b[..|b| - 1]) * 256 + b[|b| - 1]
  }

  /** The size of the shortest argument that holds a number of 24 or more, and the code of that size. */
  function SizeOf(n: nat): nat {
    if n < 0x100 then 1 else if n < 0x1_0000 then 2 else if n < 0x1_0000_0000 then 4 else 8
  }

  function InfoOf(n: nat): (info: nat)
    ensures 24 <= info <= 27
  {
    if n < 0x100 then 24 else if n < 0x1_0000 then 25 else if n < 0x1_0000_0000 then 26 else 27
  }

  /** A head: three bits of major type, five of argument or of the argument's size. */
  function Head(major: nat, n: nat): (b: Bytes)
    requires major < 8 && n < U64
    ensures 1 <= |b| <= 9
  {
    if n < 24 then [major * 32 + n] else [major * 32 + InfoOf(n)] + BigEndian(n, SizeOf(n))
  }

  predicate Valid(x: Item) {
    match x
    case UInt(n) => n < U64
    case ByteString(b) => |b| < U64
    case Text(t) => |Utf8.EncodeAll(t)| < U64
    case Array(items) => |items| < U64 && AllValid(items)
    case Null => true
  }

  predicate AllValid(items: seq<Item>) {
    forall i | 0 <= i < |items| :: Valid(items[i])
  }

  function Encode(x: Item): (b: Bytes)
    requires Valid(x)
    ensures b != []
    decreases x
  {
    match x
    case UInt(n) => Head(0, n)
    case ByteString(b) => Head(2, |b|) + b
    case Text(t) => Head(3, |Utf8.EncodeAll(t)|) + Utf8.EncodeAll(t)
    case Array(items) => Head(4, |items|) + EncodeItems(items)
    case Null => [0xF6]
  }

  function EncodeItems(items: seq<Item>): Bytes
    requires AllValid(items)
    decreases items
  {
    if items == [] then [] else Encode(items[0]) + EncodeItems(items[1..])
  }

  // ----- a decoder that also accepts arguments longer than necessary

  /** The argument's size in bytes after the initial byte, when it is one that is defined. */
  function ArgumentSize(info: nat): Option<nat> {
    if info < 24 then Some(0)
    else if info == 24 then Some(1)
    else if info == 25 then Some(2)
    else if info == 26 then Some(4)
    else if info == 27 then Some(8)
    else None
  }

  datatype Prefix = Prefix(major: nat, argument: nat, size: nat)

  function DecodeHead(b: Bytes): (r: Option<Prefix>)
    ensures r.Some? ==> r.value.major < 8 && 1 <= r.value.size <= |b|
  {
    if b == [] then None
    else
      var info := b[0] % 32;
      var size := ArgumentSize(info);
      if size.None? || |b| < 1 + size.value then None
      else Some(Prefix(b[0] / 32, if info < 24 then info else FromBigEndian(b[1..1 + size.value]), 1 + size.value))
  }

  /** The items without parts. */
  function DecodeLeaf(major: nat, n: nat, initial: byte, rest: Bytes): (r: Option<(Item, Bytes)>)
    ensures r.Some? ==> |r.value.1| <= |rest|
  {
    if major == 0 then Some((UInt(n), rest))
    else if major == 2 && n <= |rest| then Some((ByteString(rest[..n]), rest[n..]))
    else if major == 3 && n <= |rest| then
      var text := Utf8.DecodeAll(rest[..n]);
      if text.Some? then Some((Text(text.value), rest[n..])) else None
    else if initial == 0xF6 then Some((Null, rest))
    else None
  }

  function Decode(b: Bytes): (r: Option<(Item, Bytes)>)
    ensures r.Some? ==> |r.value.1| < |b|
    decreases |b|, 0
  {
    var head := DecodeHead(b);
    if head.None? then None
    else
      var Prefix(major, n, size) := head.value;
      if major == 4 then
        var items := DecodeItems(n, b[size..]);
        if items.None? then None else Some((Array(items.value.0), items.value.1))
      else DecodeLeaf(major, n, b[0], b[size..])
  }

  function DecodeItems(n: nat, b: Bytes): (r: Option<(seq<Item>, Bytes)>)
    ensures r.Some? ==> |r.value.1| <= |b|
    decreases |b|, 1
  {
    if n == 0 then Some(([], b))
    else
      var first := Decode(b);
      if first.None? then None
      else
        var others := DecodeItems(n - 1, first.value.1);
        if others.None? then None else Some(([first.value.0] + others.value.0, others.value.1))
  }

  // ----- round trip

  lemma {:induction false} BigEndianRoundTrip(n: nat, size: nat)
    requires n < Power256(size)
    ensures FromBigEndian(BigEndian(n, size)) == n
  {
    if size > 0 {
      BigEndianRoundTrip(n / 256, size - 1);
      assert BigEndian(n, size)[..size - 1] == BigEndian(n / 256, size - 1);
    }
  }

  function Power256(size: nat): nat {
    if size == 0 then 1 else Power256(size - 1) * 256
  }

  lemma Powers()
    ensures Power256(1) == 0x100 && Power256(2) == 0x1_0000 && Power256(4) == 0x1_0000_0000 && Power256(8) == U64
  {
    assert Power256(3) == 0x100_0000;
    assert Power256(5) == 0x100_0000_0000;
    assert Power256(6) == 0x1_0000_0000_0000;
    assert Power256(7) == 0x100_0000_0000_0000;
  }

  lemma LongHead(major: nat, info: nat, n: nat, size: nat, rest: Bytes)
    requires major < 8 && 24 <= info <= 27 && ArgumentSize(info) == Some(size) && n < Power256(size)
    ensures DecodeHead([major * 32 + info] + BigEndian(n, size) + rest) == Some(Prefix(major, n, 1 + size))
  {
    var b := [major * 32 + info] + BigEndian(n, size) + rest;
    assert b[0] % 32 == info && b[0] / 32 == major;
    assert b[1..1 + size] == BigEndian(n, size);
    BigEndianRoundTrip(n, size);
  }

  lemma HeadRoundTrip(major: nat, n: nat, rest: Bytes)
    requires major < 8 && n < U64
    ensures DecodeHead(Head(major, n) + rest) == Some(Prefix(major, n, |Head(major, n)|))
  {
    if n < 24 {
      assert ([major * 32 + n] + rest)[0] == major * 32 + n;
    } else {
      assert n < Power256(SizeOf(n)) by {
        Powers();
      }
      LongHead(major, InfoOf(n), n, SizeOf(n), rest);
    }
  }

  /** Reading past a head leaves the body and what follows. */
  lemma HeadStep(major: nat, n: nat, body: Bytes, rest: Bytes)
    requires major < 8 && n < U64
    ensures var b, h := Head(major, n) + body + rest, Head(major, n);
            && DecodeHead(b) == Some(Prefix(major, n, |h|))
            && b[|h|..] == body + rest
  {
    HeadRoundTrip(major, n, body + rest);
    assert Head(major, n) + body + rest == Head(major, n) + (body + rest);
  }

  lemma LeafRoundTrip(major: nat, initial: byte, x: Item, body: Bytes, rest: Bytes)
    requires (major == 2 && x == ByteString(body)) || (major == 3 && x.Text? && Utf8.EncodeAll(x.text) == body)
    ensures DecodeLeaf(major, |body|, initial, body + rest) == Some((x, rest))
  {
    assert (body + rest)[..|body|] == body && (body + rest)[|body|..] == rest;
    if x.Text? {
      Utf8.DecodesAll(x.text);
    }
  }

  lemma StringRoundTrip(major: nat, x: Item, body: Bytes, rest: Bytes)
    requires Valid(x) && |body| < U64
    requires (major == 2 && x == ByteString(body)) || (major == 3 && x.Text? && Utf8.EncodeAll(x.text) == body)
    ensures Decode(Encode(x) + rest) == Some((x, rest))
  {
    HeadStep(major, |body|, body, rest);
    LeafRoundTrip(major, (Encode(x) + rest)[0], x, body, rest);
  }

  lemma UIntRoundTrip(n: nat, rest: Bytes)
    requires n < U64
    ensures Decode(Encode(UInt(n)) + rest) == Some((UInt(n), rest))
  {
    HeadRoundTrip(0, n, rest);
    assert (Head(0, n) + rest)[|Head(0, n)|..] == rest;
  }

  lemma DecodeArray(b: Bytes, n: nat, size: nat, items: seq<Item>, rest: Bytes)
    requires DecodeHead(b) == Some(Prefix(4, n, size)) && DecodeItems(n, b[size..]) == Some((items, rest))
    ensures Decode(b) == Some((Array(items), rest))
  {
  }

  /** Decoding undoes encoding and finds where the item ends. */
  lemma {:induction false} RoundTrip(x: Item, rest: Bytes)
    requires Valid(x)
    ensures Decode(Encode(x) + rest) == Some((x, rest))
    decreases x
  {
    match x
    case UInt(n) => UIntRoundTrip(n, rest);
    case ByteString(b) => StringRoundTrip(2, x, b, rest);
    case Text(t) => StringRoundTrip(3, x, Utf8.EncodeAll(t), rest);
    case Array(items) =>
      RoundTripItems(items, rest);
      HeadStep(4, |items|, EncodeItems(items), rest);
      DecodeArray(Encode(x) + rest, |items|, |Head(4, |items|)|, items, rest);
    case Null =>
      assert (Encode(x) + rest)[1..] == rest;
  }

  lemma DecodeItemsFirst(n: nat, b: Bytes, x: Item, after: Bytes, others: seq<Item>, rest: Bytes)
    requires n > 0 && Decode(b) == Some((x, after)) && DecodeItems(n - 1, after) == Some((others, rest))
    ensures DecodeItems(n, b) == Some(([x] + others, rest))
  {
  }

  lemma EncodeItemsFirst(items: seq<Item>, rest: Bytes)
    requires items != [] && AllValid(items)
    ensures EncodeItems(items) + rest == Encode(items[0]) + (EncodeItems(items[1..]) + rest)
  {
    var first, others := Encode(items[0]), EncodeItems(items[1..]);
    assert first + others + rest == first + (others + rest);
  }

  lemma {:induction false} RoundTripItems(items: seq<Item>, rest: Bytes)
    requires AllValid(items)
    ensures DecodeItems(|items|, EncodeItems(items) + rest) == Some((items, rest))
    decreases items
  {
    if items == [] {
      assert EncodeItems(items) + rest == rest;
      return;
    }
    var first, others := items[0], items[1..];
    assert [first] + others == items;
    var more := EncodeItems(others) + rest;
    EncodeItemsFirst(items, rest);
    RoundTrip(first, more);
    RoundTripItems(others, rest);
    DecodeItemsFirst(|items|, EncodeItems(items) + rest, first, more, others, rest);
  }

  /** No encoding is a prefix of another one, and different items have different encodings. */
  lemma PrefixFree(x: Item, y: Item, xs: Bytes, ys: Bytes)
    requires Valid(x) && Valid(y) && Encode(x) + xs == Encode(y) + ys
    ensures x == y && xs == ys
  {
    RoundTrip(x, xs);
    RoundTrip(y, ys);
  }

  // ----- the encoding is the shortest one

  lemma {:induction false} FromBigEndianBound(b: Bytes)
    ensures FromBigEndian(b) < Power256(|b|)
  {
    if b != [] {
      FromBigEndianBound(b[..|b| - 1]);
    }
  }

  lemma {:induction false} BigEndianUnique(b: Bytes)
    ensures BigEndian(FromBigEndian(b), |b|) == b
  {
    if b != [] {
      BigEndianUnique(b[..|b| - 1]);
      assert FromBigEndian(b) / 256 == FromBigEndian(b[..|b| - 1]);
    }
  }

  /** Every head that means the same is at least as long, and one of the same length is the same. */
  lemma HeadIsShortest(b: Bytes)
    requires DecodeHead(b).Some?
    ensures var Prefix(major, n, size) := DecodeHead(b).value;
            n < U64 && |Head(major, n)| <= size && (|Head(major, n)| == size ==> b[..size] == Head(major, n))
  {
    var Prefix(major, n, size) := DecodeHead(b).value;
    Powers();
    assert b[0] == major * 32 + b[0] % 32;
    if size > 1 {
      FromBigEndianBound(b[1..size]);
      BigEndianUnique(b[1..size]);
      assert b[..size] == [b[0]] + b[1..size];
    }
  }

  /** `b` is an encoding of `x` followed by `rest`, and not shorter than the one that `Encode` makes. */
  ghost predicate NoShorter(b: Bytes, encoded: Bytes, rest: Bytes) {
    && |encoded| + |rest| <= |b|
    && (|encoded| + |rest| == |b| ==> b == encoded + rest)
  }

  /** A head and what follows it. */
  lemma ShortestHead(b: Bytes, head: Bytes, size: nat)
    requires size <= |b| && |head| <= size && (|head| == size ==> b[..size] == head)
    ensures NoShorter(b, head, b[size..])
  {
    assert b == b[..size] + b[size..];
  }

  lemma WholeIsNoShorter(body: Bytes, n: nat)
    requires n <= |body|
    ensures NoShorter(body, body[..n], body[n..])
  {
    assert body == body[..n] + body[n..];
  }

  lemma ShortestString(b: Bytes, head: Bytes, size: nat, n: nat)
    requires size <= |b| && n <= |b| - size && |head| <= size && (|head| == size ==> b[..size] == head)
    ensures NoShorter(b, head + b[size..][..n], b[size..][n..])
  {
    ShortestHead(b, head, size);
    WholeIsNoShorter(b[size..], n);
    NoShorterJoins(b, head, b[size..], b[size..][..n], b[size..][n..]);
  }

  lemma ShortestLeaf(b: Bytes, major: nat, n: nat, size: nat)
    requires DecodeHead(b) == Some(Prefix(major, n, size)) && major != 4 && DecodeLeaf(major, n, b[0], b[size..]).Some?
    requires n < U64 && |Head(major, n)| <= size && (|Head(major, n)| == size ==> b[..size] == Head(major, n))
    ensures var (x, tail) := DecodeLeaf(major, n, b[0], b[size..]).value; Valid(x) && NoShorter(b, Encode(x), tail)
  {
    if major == 0 {
      ShortestHead(b, Head(0, n), size);
    } else if (major == 2 || major == 3) && n <= |b[size..]| {
      ShortestString(b, Head(major, n), size, n);
    } else {
      ShortestHead(b, [0xF6], 1);
    }
  }

  /** Deterministic encoding: whatever decodes to an item is at least as long as what `Encode` makes of
      it, and only that has its length. */
  lemma {:induction false} ShortestEncoding(b: Bytes)
    requires Decode(b).Some?
    ensures Valid(Decode(b).value.0)
    ensures NoShorter(b, Encode(Decode(b).value.0), Decode(b).value.1)
    decreases |b|, 0
  {
    var Prefix(major, n, size) := DecodeHead(b).value;
    HeadIsShortest(b);
    if major != 4 {
      ShortestLeaf(b, major, n, size);
    } else {
      ShortestItems(n, b[size..]);
      var (items, tail) := DecodeItems(n, b[size..]).value;
      ShortestHead(b, Head(4, n), size);
      NoShorterJoins(b, Head(4, n), b[size..], EncodeItems(items), tail);
    }
  }

  lemma NoShorterJoins(b: Bytes, first: Bytes, tail: Bytes, second: Bytes, rest: Bytes)
    requires NoShorter(b, first, tail) && NoShorter(tail, second, rest)
    ensures NoShorter(b, first + second, rest)
  {
    if |first| + |second| + |rest| == |b| {
      assert first + second + rest == first + (second + rest);
    }
  }

  lemma {:induction false} ShortestItems(n: nat, b: Bytes)
    requires n < U64 && DecodeItems(n, b).Some?
    ensures var (items, rest) := DecodeItems(n, b).value;
            |items| == n && AllValid(items) && NoShorter(b, EncodeItems(items), rest)
    decreases |b|, 1
  {
    if n > 0 {
      ShortestEncoding(b);
      var (x, tail) := Decode(b).value;
      ShortestItems(n - 1, tail);
      var (others, rest) := DecodeItems(n - 1, tail).value;
      assert ([x] + others)[1..] == others;
      NoShorterJoins(b, Encode(x), tail, EncodeItems(others), rest);
    } else {
      assert [] + b == b;
    }
  }

  // ----- the encoder

  lemma {:induction false} EncodeItemsSnoc(items: seq<Item>, x: Item)
    requires AllValid(items) && Valid(x)
    ensures AllValid(items + [x]) && EncodeItems(items + [x]) == EncodeItems(items) + Encode(x)
    decreases |items|
  {
    if items == [] {
      assert items + [x] == [x];
    } else {
      EncodeItemsSnoc(items[1..], x);
      assert (items + [x])[1..] == items[1..] + [x];
    }
  }

  lemma Regroup(a: Bytes, b: Bytes, c: Bytes)
    ensures a + b + c == a + (b + c)
  {
  }

  /** Appends to `bytes`.  The ghost fields name the items written since the innermost open array. */
  class CborEncoder {
    var bytes: Bytes
    ghost var start: Bytes
    ghost var row: seq<Item>

    ghost predicate Invariant()
      reads this
    {
      AllValid(row) && bytes == start + EncodeItems(row)
    }

    constructor ()
      ensures Invariant() && bytes == start == [] && row == []
    {
      bytes, start, row := [], [], [];
    }

    /** Writes the shortest head. */
    method MajorValue(major: nat, value: nat)
      requires major < 8 && value < U64
      modifies this`bytes
      ensures bytes == old(bytes) + Head(major, value)
    {
      var prefix := major * 32;
      if value <= 23 {
        bytes := bytes + [prefix + value];
      } else if value <= 0xFF {
        bytes := bytes + [prefix + 24, value];
        assert BigEndian(value, 1) == [value];
      } else if value <= 0xFFFF {
        bytes := bytes + [prefix + 25];
        bytes := bytes + BigEndian(value, 2);
        Regroup(old(bytes), [prefix + 25], BigEndian(value, 2));
      } else if value <= 0xFFFF_FFFF {
        bytes := bytes + [prefix + 26];
        bytes := bytes + BigEndian(value, 4);
        Regroup(old(bytes), [prefix + 26], BigEndian(value, 4));
      } else {
        bytes := bytes + [prefix + 27];
        bytes := bytes + BigEndian(value, 8);
        Regroup(old(bytes), [prefix + 27], BigEndian(value, 8));
      }
    }

    ghost predicate Wrote(x: Item, start0: Bytes, row0: seq<Item>)
      reads this
    {
      Invariant() && start == start0 && row == row0 + [x]
    }

    ghost method Add(x: Item, before: Bytes)
      requires AllValid(row) && before == start + EncodeItems(row) && Valid(x) && bytes == before + Encode(x)
      modifies this`row
      ensures Wrote(x, old(start), old(row))
    {
      EncodeItemsSnoc(row, x);
      row := row + [x];
    }

    method Unsigned(value: nat)
      requires Invariant() && value < U64
      modifies this
      ensures Wrote(UInt(value), old(start), old(row))
    {
      ghost var before := bytes;
      MajorValue(0, value);
      Add(UInt(value), before);
    }

    /** Writes a string with its length before it. */
    method PutString(major: nat, payload: Bytes, ghost x: Item)
      requires Invariant() && Valid(x) && major < 8 && |payload| < U64 && Encode(x) == Head(major, |payload|) + payload
      modifies this
      ensures Wrote(x, old(start), old(row))
    {
      ghost var before := bytes;
      MajorValue(major, |payload|);
      bytes := bytes + payload;
      Add(x, before);
    }

    method PutText(value: string)
      requires Invariant() && Valid(Text(value))
      modifies this
      ensures Wrote(Text(value), old(start), old(row))
    {
      PutString(3, Utf8.EncodeAll(value), Text(value));
    }

    method PutBytes(value: Bytes)
      requires Invariant() && |value| < U64
      modifies this
      ensures Wrote(ByteString(value), old(start), old(row))
    {
      PutString(2, value, ByteString(value));
    }

    method PutNull()
      requires Invariant()
      modifies this
      ensures Wrote(Null, old(start), old(row))
    {
      ghost var before := bytes;
      bytes := bytes + [0xF6];
      Add(Null, before);
    }

    /** Opens an array of a given length. */
    method Open(length: nat)
      requires Invariant() && length < U64
      modifies this
      ensures Invariant() && row == [] && start == old(bytes) + Head(4, length)
    {
      MajorValue(4, length);
      start, row := bytes, [];
    }

    /** The array opened last is complete. */
    ghost method Close(outer: Bytes, items: seq<Item>, length: nat)
      requires Invariant() && AllValid(items) && length < U64
      requires start == outer + EncodeItems(items) + Head(4, length) && |row| == length
      modifies this`start, this`row
      ensures Wrote(Array(old(row)), outer, items)
    {
      var x := Array(row);
      assert outer + EncodeItems(items) + Head(4, length) + EncodeItems(row)
          == outer + EncodeItems(items) + (Head(4, length) + EncodeItems(row));
      start, row := outer, items;
      Add(x, outer + EncodeItems(items));
    }
  }
}
