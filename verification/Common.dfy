/** Values shared by every component of the model. */
module Common {

  datatype Option<+T> = None | Some(value: T)

  datatype Result<+T, +E> = Ok(value: T) | Err(error: E)

  type byte = x: int | 0 <= x < 256

  type Bytes = seq<byte>

  /** One more than the largest 64-bit word. */
  const U64: nat := 0x1_0000_0000_0000_0000

  /** SHA-256 as an ideal hash: a digest is identified with the bytes it was taken of, so that
      equal digests mean equal bytes and nothing else is known about it. */
  datatype Digest = Digest(preimage: Bytes)

  function Hash(bytes: Bytes): Digest {
    Digest(bytes)
  }

  /** Physical identity of a file (device and inode). */
  datatype Identity = Identity(device: nat, inode: nat)

  /** Permission bits. */
  type Mode = nat

  /** Concatenation of a sequence of byte strings. */
  function Concat(parts: seq<Bytes>): Bytes {
    if parts == [] then [] else parts[0] + Concat(parts[1..])
  }

  /** The concatenation of what a function makes of each element. */
  function ConcatMap<T>(s: seq<T>, f: T -> Bytes): Bytes {
    if s == [] then [] else f(s[0]) + ConcatMap(s[1..], f)
  }

  lemma {:induction false} ConcatMapAppend<T>(a: seq<T>, b: seq<T>, f: T -> Bytes)
    ensures ConcatMap(a + b, f) == ConcatMap(a, f) + ConcatMap(b, f)
  {
    if a == [] {
      assert a + b == b;
    } else {
      assert (a + b)[0] == a[0] && (a + b)[1..] == a[1..] + b;
      ConcatMapAppend(a[1..], b, f);
      var first, others, more := f(a[0]), ConcatMap(a[1..], f), ConcatMap(b, f);
      assert first + (others + more) == first + others + more;
    }
  }

  /** Each element's part is where the parts before it end. */
  lemma ConcatMapPart<T>(s: seq<T>, n: nat, f: T -> Bytes)
    requires n < |s|
    ensures var before := |ConcatMap(s[..n], f)|;
            && |ConcatMap(s[..n + 1], f)| == before + |f(s[n])| <= |ConcatMap(s, f)|
            && ConcatMap(s, f)[before..before + |f(s[n])|] == f(s[n])
  {
    var before := ConcatMap(s[..n], f);
    ConcatMapAppend(s[..n], s[n..], f);
    assert s == s[..n] + s[n..];
    assert ConcatMap(s, f) == before + (f(s[n]) + ConcatMap(s[n + 1..], f));
    ConcatMapAppend(s[..n], [s[n]], f);
    assert s[..n + 1] == s[..n] + [s[n]];
    assert ConcatMap([s[n]], f) == f(s[n]) + [];
  }

  /** Two sequences correspond element by element. */
  ghost predicate Pointwise<A, B>(a: seq<A>, b: seq<B>, ok: (A, B) -> bool) {
    |a| == |b| && forall i | 0 <= i < |a| :: ok(a[i], b[i])
  }

  lemma PointwiseSnoc<A, B>(a: seq<A>, b: seq<B>, ok: (A, B) -> bool, x: A, y: B)
    requires Pointwise(a, b, ok) && ok(x, y)
    ensures Pointwise(a + [x], b + [y], ok)
  {
  }

  /** The total of what a function makes of each element. */
  function Total<T>(s: seq<T>, f: T -> nat): nat {
    if s == [] then 0 else Total(s[..|s| - 1], f) + f(s[|s| - 1])
  }

  lemma TotalSnoc<T>(s: seq<T>, x: T, f: T -> nat)
    ensures Total(s + [x], f) == Total(s, f) + f(x)
  {
    assert (s + [x])[..|s|] == s;
  }

  /** More elements total no less. */
  lemma {:induction false} TotalGrows<T>(a: seq<T>, b: seq<T>, f: T -> nat)
    ensures Total(a, f) <= Total(a + b, f)
  {
    if b == [] {
      assert a + b == a;
    } else {
      var n := |b| - 1;
      TotalGrows(a, b[..n], f);
      TotalSnoc(a + b[..n], b[n], f);
      assert a + b == a + b[..n] + [b[n]];
    }
  }
}
