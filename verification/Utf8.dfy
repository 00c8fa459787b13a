/** UTF-8, the form in which text enters plan records, frames and position arithmetic. */
module Utf8 {
  import opened Common

  function Encode(c: char): (b: Bytes)
    ensures 1 <= |b| <= 4
  {
    var n := c as int;
    if n < 0x80 then [n]
    else if n < 0x800 then [0xC0 + n / 64, 0x80 + n % 64]
    else if n < 0x10000 then [0xE0 + n / 4096, 0x80 + n / 64 % 64, 0x80 + n % 64]
    else [0xF0 + n / 262144, 0x80 + n / 4096 % 64, 0x80 + n / 64 % 64, 0x80 + n % 64]
  }

  function EncodeAll(s: string): Bytes {
    ConcatMap(s, Encode)
  }

  predicate IsScalar(n: int) {
    0 <= n < 0xD800 || 0xE000 <= n < 0x110000
  }

  /** The number of bytes that a leading byte announces. */
  function Width(lead: byte): nat {
    if lead < 0x80 then 1 else if lead < 0xE0 then 2 else if lead < 0xF0 then 3 else 4
  }

  function Assemble(b: Bytes): int
    requires b != [] && Width(b[0]) <= |b|
  {
    var lead: int := b[0];
    match Width(b[0])
    case 1 => lead
    case 2 => (lead - 0xC0) * 64 + Tail(b[1])
    case 3 => (lead - 0xE0) * 4096 + Tail(b[1]) * 64 + Tail(b[2])
    case _ => (lead - 0xF0) * 262144 + Tail(b[1]) * 4096 + Tail(b[2]) * 64 + Tail(b[3])
  }

  function Tail(b: byte): int {
    var n: int := b;
    n - 0x80
  }

  /** A strict decoder: only the bytes that encode a scalar are taken for it. */
  function DecodeFirst(b: Bytes): (r: Option<char>)
    ensures r.Some? ==> Encode(r.value) <= b
  {
    if b == [] || |b| < Width(b[0]) || !IsScalar(Assemble(b)) then None
    else
      var c := Assemble(b) as char;
      if Encode(c) <= b then Some(c) else None
  }

  function DecodeAll(b: Bytes): (r: Option<string>)
    ensures r.Some? ==> EncodeAll(r.value) == b
    decreases |b|
  {
    if b == [] then Some("")
    else
      var c := DecodeFirst(b);
      if c.None? then None
      else
        var rest := DecodeAll(b[|Encode(c.value)|..]);
        if rest.None? then None
        else
          assert b == Encode(c.value) + b[|Encode(c.value)|..];
          Some([c.value] + rest.value)
  }

  lemma DecodesFirst(c: char, rest: Bytes)
    ensures DecodeFirst(Encode(c) + rest) == Some(c)
  {
    var b := Encode(c) + rest;
    assert forall i | 0 <= i < |Encode(c)| :: b[i] == Encode(c)[i];
    assert Width(b[0]) == |Encode(c)|;
    Reassembles(c, b);
  }

  lemma Reassembles(c: char, b: Bytes)
    requires Encode(c) <= b && Width(b[0]) == |Encode(c)|
    ensures Assemble(b) == c as int
  {
    var n := c as int;
    assert n == n / 64 * 64 + n % 64;
    assert n / 64 == n / 4096 * 64 + n / 64 % 64;
    assert n / 4096 == n / 262144 * 64 + n / 4096 % 64;
  }

  /** Decoding undoes encoding, so that different texts have different bytes. */
  lemma {:induction false} DecodesAll(s: string)
    ensures DecodeAll(EncodeAll(s)) == Some(s)
  {
    if s != "" {
      var rest := EncodeAll(s[1..]);
      DecodesFirst(s[0], rest);
      assert (Encode(s[0]) + rest)[|Encode(s[0])|..] == rest;
      DecodesAll(s[1..]);
      assert [s[0]] + s[1..] == s;
    }
  }

  // ----- the encoding is the one of RFC 3629

  /** A leading byte and the continuation bytes it announces, as in section 3 of RFC 3629. */
  predicate WellFormed(b: Bytes) {
    && b != []
    && !(0x80 <= b[0] < 0xC0) && b[0] < 0xF8
    && |b| == Width(b[0])
    && forall i | 0 < i < |b| :: 0x80 <= b[i] < 0xC0
  }

  /** The encoding of a scalar is well formed, stands for the scalar, and is the only shortest form of it. */
  lemma EncodesShortest(c: char, b: Bytes)
    ensures WellFormed(Encode(c)) && Assemble(Encode(c)) == c as int
    ensures WellFormed(b) && Assemble(b) == c as int ==> |Encode(c)| < |b| || b == Encode(c)
  {
    EncodedIsWellFormed(c);
    if WellFormed(b) && Assemble(b) == c as int && |b| <= |Encode(c)| {
      SameForm(c, b);
    }
  }

  lemma EncodedIsWellFormed(c: char)
    ensures WellFormed(Encode(c)) && Assemble(Encode(c)) == c as int
  {
    assert Width(Encode(c)[0]) == |Encode(c)|;
    Reassembles(c, Encode(c));
  }

  lemma SameForm(c: char, b: Bytes)
    requires WellFormed(b) && Assemble(b) == c as int && |b| <= |Encode(c)|
    ensures b == Encode(c)
  {
    match |b|
    case 1 =>
    case 2 =>
      assert c as int / 64 == b[0] - 0xC0 && c as int % 64 == b[1] - 0x80;
    case 3 => SameThree(c, b);
    case _ => SameFour(c, b);
  }

  lemma Digits(n: nat, m: nat, t: nat)
    requires n == m * 64 + t && t < 64
    ensures n / 64 == m && n % 64 == t
  {
  }

  lemma SameThree(c: char, b: Bytes)
    requires WellFormed(b) && Assemble(b) == c as int && |b| == 3 <= |Encode(c)|
    ensures b == Encode(c)
  {
    var n := c as int;
    var k := b[0] - 0xE0;
    var m := k * 64 + Tail(b[1]);
    Digits(n, m, Tail(b[2]));
    Digits(m, k, Tail(b[1]));
    assert n / 4096 == n / 64 / 64;
  }

  lemma SameFour(c: char, b: Bytes)
    requires WellFormed(b) && Assemble(b) == c as int && |b| == 4 <= |Encode(c)|
    ensures b == Encode(c)
  {
    var n := c as int;
    var j := b[0] - 0xF0;
    var k := j * 64 + Tail(b[1]);
    var m := k * 64 + Tail(b[2]);
    Digits(n, m, Tail(b[3]));
    Digits(m, k, Tail(b[2]));
    Digits(k, j, Tail(b[1]));
    assert n / 4096 == n / 64 / 64 && n / 262144 == n / 64 / 64 / 64;
  }
}
