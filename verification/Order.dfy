/** Sorting, the order of paths, and sums over sequences. */
module Order {
  import opened Common
  import Utf8

  predicate SortedBy<T(!new)>(s: seq<T>, leq: (T, T) -> bool) {
    forall i, j | 0 <= i < j < |s| :: leq(s[i], s[j])
  }

  ghost predicate TotalPreorder<T(!new)>(leq: (T, T) -> bool) {
    && (forall x, y :: leq(x, y) || leq(y, x))
    && (forall x, y, z :: leq(x, y) && leq(y, z) ==> leq(x, z))
  }

  ghost predicate Antisymmetric<T(!new)>(leq: (T, T) -> bool) {
    forall x, y :: leq(x, y) && leq(y, x) ==> x == y
  }

  lemma RemoveAt<T>(s: seq<T>, i: nat)
    requires i < |s|
    ensures multiset(s[..i] + s[i + 1..]) == multiset(s) - multiset{s[i]}
  {
    assert s == s[..i] + ([s[i]] + s[i + 1..]);
  }

  lemma RemoveFirst<T>(s: seq<T>)
    requires s != []
    ensures multiset(s[1..]) == multiset(s) - multiset{s[0]}
  {
    assert s == [s[0]] + s[1..];
  }

  // ----- a stable sort

  function InsertBy<T(!new)>(x: T, s: seq<T>, leq: (T, T) -> bool): (r: seq<T>)
    ensures multiset(r) == multiset(s) + multiset{x}
  {
    if s == [] then [x]
    else if leq(x, s[0]) then [x] + s
    else
      assert s == [s[0]] + s[1..];
      [s[0]] + InsertBy(x, s[1..], leq)
  }

  function SortBy<T(!new)>(s: seq<T>, leq: (T, T) -> bool): (r: seq<T>)
    ensures multiset(r) == multiset(s)
  {
    if s == [] then []
    else
      assert s == [s[0]] + s[1..];
      InsertBy(s[0], SortBy(s[1..], leq), leq)
  }

  lemma {:induction false} InsertBySorted<T(!new)>(x: T, s: seq<T>, leq: (T, T) -> bool)
    requires TotalPreorder(leq) && SortedBy(s, leq)
    ensures SortedBy(InsertBy(x, s, leq), leq)
  {
    if s != [] && !leq(x, s[0]) {
      var rest := InsertBy(x, s[1..], leq);
      InsertBySorted(x, s[1..], leq);
      forall j | 0 <= j < |rest| ensures leq(s[0], rest[j]) {
        assert rest[j] in multiset(rest);
        assert rest[j] == x || rest[j] in s[1..];
      }
    }
  }

  lemma {:induction false} SortBySorted<T(!new)>(s: seq<T>, leq: (T, T) -> bool)
    requires TotalPreorder(leq)
    ensures SortedBy(SortBy(s, leq), leq)
  {
    if s != [] {
      SortBySorted(s[1..], leq);
      InsertBySorted(s[0], SortBy(s[1..], leq), leq);
    }
  }

  /** A sorted sequence is left alone. */
  lemma {:induction false} SortBySortedIsIdentity<T(!new)>(s: seq<T>, leq: (T, T) -> bool)
    requires SortedBy(s, leq)
    ensures SortBy(s, leq) == s
  {
    if s != [] {
      SortBySortedIsIdentity(s[1..], leq);
      assert s == [s[0]] + s[1..];
      if |s| > 1 {
        assert leq(s[0], s[1]);
      }
    }
  }

  /** Two sorted sequences of the same elements are equal when the order tells these elements apart. */
  lemma {:induction false} SortedIsUnique<T(!new)>(a: seq<T>, b: seq<T>, leq: (T, T) -> bool)
    requires SortedBy(a, leq) && SortedBy(b, leq) && multiset(a) == multiset(b)
    requires forall x, y | x in a && y in a && leq(x, y) && leq(y, x) :: x == y
    ensures a == b
  {
    if a == [] {
      assert |multiset(b)| == 0;
    } else {
      assert a[0] in multiset(b);
      var i :| 0 <= i < |b| && b[i] == a[0];
      assert b[0] in multiset(b);
      var j :| 0 <= j < |a| && a[j] == b[0];
      assert a[0] == b[0];
      RemoveFirst(a);
      RemoveFirst(b);
      SortedIsUnique(a[1..], b[1..], leq);
    }
  }

  // ----- the elements of a set in order

  predicate IsLeast<T(!new, ==)>(m: T, s: set<T>, leq: (T, T) -> bool) {
    m in s && forall y | y in s :: leq(m, y)
  }

  lemma {:induction false} LeastExists<T(!new)>(s: set<T>, leq: (T, T) -> bool) returns (m: T)
    requires s != {} && TotalPreorder(leq)
    ensures IsLeast(m, s, leq)
  {
    var x :| x in s;
    m := x;
    if s - {x} != {} {
      var least := LeastExists(s - {x}, leq);
      if !leq(x, least) {
        m := least;
      }
      forall y | y in s ensures leq(m, y) {
        if y in s - {x} {
          assert leq(least, y);
        } else {
          assert leq(y, y);
        }
      }
    } else {
      assert s == {x};
      assert leq(x, x);
    }
  }

  function Least<T(!new, ==)>(s: set<T>, leq: (T, T) -> bool): (m: T)
    requires s != {} && TotalPreorder(leq) && Antisymmetric(leq)
    ensures IsLeast(m, s, leq)
  {
    assert exists m :: IsLeast(m, s, leq) by {
      var m := LeastExists(s, leq);
    }
    var m :| m in s && IsLeast(m, s, leq);
    m
  }

  function SortedElements<T(!new, ==)>(s: set<T>, leq: (T, T) -> bool): (r: seq<T>)
    requires TotalPreorder(leq) && Antisymmetric(leq)
    ensures forall x :: x in r <==> x in s
    ensures SortedBy(r, leq)
    ensures forall i, j | 0 <= i < j < |r| :: r[i] != r[j]
  {
    if s == {} then []
    else
      var m := Least(s, leq);
      [m] + SortedElements(s - {m}, leq)
  }

  // ----- the order of paths: by code point, position by position

  predicate PathLeq(a: string, b: string) {
    if a == [] then true
    else if b == [] then false
    else if a[0] != b[0] then a[0] < b[0]
    else PathLeq(a[1..], b[1..])
  }

  lemma PathLeqTotal(a: string, b: string)
    ensures PathLeq(a, b) || PathLeq(b, a)
    ensures PathLeq(a, b) && PathLeq(b, a) ==> a == b
  {
    if a != [] && b != [] && a[0] == b[0] {
      PathLeqTotal(a[1..], b[1..]);
      assert a == [a[0]] + a[1..] && b == [b[0]] + b[1..];
    }
  }

  lemma PathLeqTransitive(a: string, b: string, c: string)
    requires PathLeq(a, b) && PathLeq(b, c)
    ensures PathLeq(a, c)
  {
    if a != [] && b != [] && c != [] && a[0] == b[0] == c[0] {
      PathLeqTransitive(a[1..], b[1..], c[1..]);
    }
  }

  lemma PathsAreOrdered()
    ensures TotalPreorder(PathLeq) && Antisymmetric(PathLeq)
  {
    forall a, b ensures (PathLeq(a, b) || PathLeq(b, a)) && (PathLeq(a, b) && PathLeq(b, a) ==> a == b) {
      PathLeqTotal(a, b);
    }
    forall a, b, c | PathLeq(a, b) && PathLeq(b, c) ensures PathLeq(a, c) {
      PathLeqTransitive(a, b, c);
    }
  }

  /** The first byte in which two strings differ is smaller in the first one. */
  ghost predicate SmallerAt(x: Bytes, y: Bytes, i: nat) {
    i < |x| && i < |y| && x[i] < y[i] && forall j | 0 <= j < i :: x[j] == y[j]
  }

  /** The order of byte strings: a prefix first, otherwise by the first byte in which they differ. */
  ghost predicate BytesLeq(x: Bytes, y: Bytes) {
    x <= y || exists i :: SmallerAt(x, y, i)
  }

  lemma SmallerIsLeq(x: Bytes, y: Bytes, i: nat)
    requires SmallerAt(x, y, i)
    ensures BytesLeq(x, y) && !BytesLeq(y, x)
  {
    assert forall k: nat :: !SmallerAt(y, x, k);
  }

  lemma CommonPrefix(p: Bytes, x: Bytes, y: Bytes)
    ensures BytesLeq(p + x, p + y) <==> BytesLeq(x, y)
  {
    var px, py := p + x, p + y;
    assert forall k | 0 <= k < |x| :: px[|p| + k] == x[k];
    assert forall k | 0 <= k < |y| :: py[|p| + k] == y[k];
    if x <= y {
      assert py == px + y[|x|..];
    } else if i :| SmallerAt(x, y, i) {
      assert SmallerAt(px, py, |p| + i);
    }
    if px <= py {
      PrefixShared(p, x, y);
    } else if i :| SmallerAt(px, py, i) {
      SmallerShared(p, x, y, i);
    }
  }

  lemma PrefixShared(p: Bytes, x: Bytes, y: Bytes)
    requires p + x <= p + y
    ensures x <= y
  {
    assert x == (p + x)[|p|..] && y[..|x|] == (p + y)[..|p + x|][|p|..];
  }

  lemma SmallerShared(p: Bytes, x: Bytes, y: Bytes, i: nat)
    requires SmallerAt(p + x, p + y, i)
    ensures i >= |p| && SmallerAt(x, y, i - |p|)
  {
    var px, py := p + x, p + y;
    assert forall k | 0 <= k < |p| :: px[k] == p[k] == py[k];
    forall j | 0 <= j < i - |p| ensures x[j] == y[j] {
      assert px[|p| + j] == x[j] && py[|p| + j] == y[j];
    }
  }

  lemma DigitsInOrder(m: nat, n: nat)
    requires m < n
    ensures m / 64 < n / 64 || (m / 64 == n / 64 && m % 64 < n % 64)
  {
  }

  lemma Leads(c: char)
    ensures var x, n := Utf8.Encode(c), c as int;
            && (n < 0x80 <==> |x| == 1) && (n < 0x800 <==> |x| <= 2) && (n < 0x10000 <==> |x| <= 3)
            && (|x| == 1 ==> x[0] < 0x80)
            && (|x| == 2 ==> 0xC0 <= x[0] < 0xE0 && x == [0xC0 + n / 64, 0x80 + n % 64])
            && (|x| == 3 ==> 0xE0 <= x[0] < 0xF0 && x == [0xE0 + n / 64 / 64, 0x80 + n / 64 % 64, 0x80 + n % 64])
            && (|x| == 4 ==>
                  && 0xF0 <= x[0]
                  && x == [0xF0 + n / 64 / 64 / 64, 0x80 + n / 64 / 64 % 64, 0x80 + n / 64 % 64, 0x80 + n % 64])
  {
    var n := c as int;
    assert n / 4096 == n / 64 / 64 && n / 262144 == n / 64 / 64 / 64;
  }

  lemma ShorterFirst(c: char, d: char)
    requires |Utf8.Encode(c)| < |Utf8.Encode(d)|
    ensures SmallerAt(Utf8.Encode(c), Utf8.Encode(d), 0)
  {
    Leads(c);
    Leads(d);
  }

  lemma UpToTwoInOrder(c: char, d: char) returns (i: nat)
    requires c < d && |Utf8.Encode(c)| == |Utf8.Encode(d)| <= 2
    ensures SmallerAt(Utf8.Encode(c), Utf8.Encode(d), i)
  {
    var m, n := c as int, d as int;
    Leads(c);
    Leads(d);
    DigitsInOrder(m, n);
    i := if |Utf8.Encode(c)| == 2 && m / 64 == n / 64 then 1 else 0;
  }

  lemma ThreeInOrder(c: char, d: char) returns (i: nat)
    requires c < d && |Utf8.Encode(c)| == |Utf8.Encode(d)| == 3
    ensures SmallerAt(Utf8.Encode(c), Utf8.Encode(d), i)
  {
    var m, n := c as int, d as int;
    Leads(c);
    Leads(d);
    DigitsInOrder(m, n);
    i := 2;
    if m / 64 < n / 64 {
      DigitsInOrder(m / 64, n / 64);
      i := if m / 64 / 64 < n / 64 / 64 then 0 else 1;
    }
  }

  lemma FourInOrder(c: char, d: char) returns (i: nat)
    requires c < d && |Utf8.Encode(c)| == |Utf8.Encode(d)| == 4
    ensures SmallerAt(Utf8.Encode(c), Utf8.Encode(d), i)
  {
    var m, n := c as int, d as int;
    Leads(c);
    Leads(d);
    DigitsInOrder(m, n);
    i := 3;
    if m / 64 < n / 64 {
      DigitsInOrder(m / 64, n / 64);
      i := 2;
      if m / 64 / 64 < n / 64 / 64 {
        DigitsInOrder(m / 64 / 64, n / 64 / 64);
        i := if m / 64 / 64 / 64 < n / 64 / 64 / 64 then 0 else 1;
      }
    }
  }

  /** Encodings of different scalars differ, the smaller scalar having the smaller byte first. */
  lemma ScalarsInOrder(c: char, d: char) returns (i: nat)
    requires c < d
    ensures SmallerAt(Utf8.Encode(c), Utf8.Encode(d), i)
  {
    Leads(c);
    Leads(d);
    if |Utf8.Encode(c)| < |Utf8.Encode(d)| {
      ShorterFirst(c, d);
      i := 0;
    } else if |Utf8.Encode(c)| <= 2 {
      i := UpToTwoInOrder(c, d);
    } else if |Utf8.Encode(c)| == 3 {
      i := ThreeInOrder(c, d);
    } else {
      i := FourInOrder(c, d);
    }
  }

  /** Comparing code points compares the UTF-8 bytes. */
  lemma {:induction false} PathsInByteOrder(a: string, b: string)
    ensures PathLeq(a, b) <==> BytesLeq(Utf8.EncodeAll(a), Utf8.EncodeAll(b))
    decreases |a|
  {
    if a != [] && b != [] {
      var x, y := Utf8.EncodeAll(a[1..]), Utf8.EncodeAll(b[1..]);
      if a[0] == b[0] {
        PathsInByteOrder(a[1..], b[1..]);
        CommonPrefix(Utf8.Encode(a[0]), x, y);
      } else {
        DifferentFirst(a[0], b[0], x, y);
      }
    }
  }

  lemma DifferentFirst(c: char, d: char, x: Bytes, y: Bytes)
    requires c != d
    ensures BytesLeq(Utf8.Encode(c) + x, Utf8.Encode(d) + y) <==> c < d
  {
    var i;
    if c < d {
      i := ScalarsInOrder(c, d);
    } else {
      i := ScalarsInOrder(d, c);
    }
    var cx, dy := Utf8.Encode(c) + x, Utf8.Encode(d) + y;
    if c < d {
      assert SmallerAt(cx, dy, i);
      SmallerIsLeq(cx, dy, i);
    } else {
      assert SmallerAt(dy, cx, i);
      SmallerIsLeq(dy, cx, i);
    }
  }

  predicate InPathOrder(paths: seq<string>) {
    && (forall i, j {:trigger PathLeq(paths[i], paths[j])} | 0 <= i < j < |paths| :: PathLeq(paths[i], paths[j]))
    && (forall i, j | 0 <= i < j < |paths| :: paths[i] != paths[j])
  }

  /** Paths in order, each once. */
  function SortedPaths(paths: set<string>): (r: seq<string>)
    ensures forall p :: p in r <==> p in paths
    ensures InPathOrder(r)
  {
    PathsAreOrdered();
    SortedElements(paths, PathLeq)
  }

  // ----- sums

  function Sum<T>(s: seq<T>, f: T -> int): int {
    if s == [] then 0 else f(s[0]) + Sum(s[1..], f)
  }

  lemma {:induction false} SumAppend<T>(a: seq<T>, b: seq<T>, f: T -> int)
    ensures Sum(a + b, f) == Sum(a, f) + Sum(b, f)
  {
    if a == [] {
      assert a + b == b;
    } else {
      SumAppend(a[1..], b, f);
      assert (a + b)[1..] == a[1..] + b;
    }
  }

  /** Sums do not depend on the order. */
  lemma {:induction false} SumPermuted<T>(a: seq<T>, b: seq<T>, f: T -> int)
    requires multiset(a) == multiset(b)
    ensures Sum(a, f) == Sum(b, f)
  {
    if a == [] {
      assert |multiset(b)| == 0;
    } else {
      assert a[0] in multiset(b);
      var i :| 0 <= i < |b| && b[i] == a[0];
      var rest := b[..i] + b[i + 1..];
      RemoveFirst(a);
      RemoveAt(b, i);
      assert b == b[..i] + ([b[i]] + b[i + 1..]);
      SumPermuted(a[1..], rest, f);
      SumAppend(b[..i], [b[i]] + b[i + 1..], f);
      SumAppend([b[i]], b[i + 1..], f);
      SumAppend(b[..i], b[i + 1..], f);
    }
  }

  lemma SameElements<T>(a: seq<T>, b: seq<T>)
    requires multiset(a) == multiset(b)
    ensures forall x :: x in a <==> x in b
  {
    forall x ensures x in a <==> x in b {
      assert x in a <==> x in multiset(a);
      assert x in b <==> x in multiset(b);
    }
  }
}
