// Bytes, byte strings, their lexicographic order, and the ordered sets of byte
// strings the planner keeps.

module Bytes {
  type Byte = x: int | 0 <= x < 256
  type Bytes = seq<Byte>

  datatype Option<+T> = None | Some(value: T)

  const U32 := 0x1_0000_0000
  const U64 := 0x1_0000_0000_0000_0000

  type u32 = x: int | 0 <= x < U32

  const NEWLINE: Byte := 10
  const SLASH: Byte := 47

  function Min(a: int, b: int): int {
    if a < b then a else b
  }

  lemma Regroup<T>(a: seq<T>, b: seq<T>, c: seq<T>)
    ensures a + b + c == a + (b + c)
  {
  }

  lemma SliceOfSlice(b: Bytes, lo: nat, mid: nat, hi: nat)
    requires lo <= mid <= hi <= |b|
    ensures b[lo..mid] == b[lo..hi][..mid - lo] && b[mid..hi] == b[lo..hi][mid - lo..]
  {
  }

  function IdSet(ids: seq<nat>): set<nat> {
    set i | i in ids
  }

  // ------------------------------------------------------------ byte order

  /** Lexicographic order on byte strings, the order of `Vec<u8>`. */
  predicate Less(a: Bytes, b: Bytes) {
    if b == [] then false
    else if a == [] then true
    else a[0] < b[0] || (a[0] == b[0] && Less(a[1..], b[1..]))
  }

  lemma {:induction false} LessIrreflexive(a: Bytes)
    ensures !Less(a, a)
  {
    if a != [] {
      LessIrreflexive(a[1..]);
    }
  }

  lemma {:induction false} LessTransitive(a: Bytes, b: Bytes, c: Bytes)
    requires Less(a, b) && Less(b, c)
    ensures Less(a, c)
  {
    if a != [] && a[0] == b[0] == c[0] {
      LessTransitive(a[1..], b[1..], c[1..]);
    }
  }

  lemma {:induction false} LessTotal(a: Bytes, b: Bytes)
    ensures Less(a, b) || a == b || Less(b, a)
  {
    if a != [] && b != [] && a[0] == b[0] {
      LessTotal(a[1..], b[1..]);
      assert a == [a[0]] + a[1..] && b == [b[0]] + b[1..];
    }
  }

  lemma {:induction false} LessAsymmetric(a: Bytes, b: Bytes)
    requires Less(a, b)
    ensures !Less(b, a) && a != b
  {
    LessIrreflexive(a);
    if Less(b, a) {
      LessTransitive(a, b, a);
    }
  }

  // ------------------------------------------------------------ ordered sets

  ghost predicate Ascending(s: seq<Bytes>) {
    forall i, j | 0 <= i < j < |s| :: Less(s[i], s[j])
  }

  /** A `BTreeSet<Vec<u8>>`, as the list its iterator yields. */
  type ByteSet = s: seq<Bytes> | Ascending(s) witness []

  lemma {:induction false} ConsAscending(x: Bytes, s: ByteSet)
    requires s == [] || Less(x, s[0])
    ensures Ascending([x] + s)
  {
    forall j | 0 <= j < |s| ensures Less(x, s[j]) {
      if 0 < j {
        LessTransitive(x, s[0], s[j]);
      }
    }
  }

  /** Set insertion: the list stays ascending and gains exactly `x`. */
  function Insert(s: ByteSet, x: Bytes): (r: ByteSet)
    ensures forall y :: y in r <==> y == x || y in s
    ensures |s| <= |r| <= |s| + 1
    ensures r != [] && (r[0] == x || (s != [] && r[0] == s[0]))
  {
    if s == [] then [x]
    else if s[0] == x then s
    else if Less(x, s[0]) then
      ConsAscending(x, s);
      [x] + s
    else
      var rest := Insert(s[1..], x);
      assert Less(s[0], rest[0]) by {
        LessTotal(s[0], x);
      }
      ConsAscending(s[0], rest);
      [s[0]] + rest
  }

  /** `collect()` into an ordered set. */
  function Collect(xs: seq<Bytes>): (r: ByteSet)
    ensures forall y :: y in r <==> y in xs
    ensures |r| <= |xs|
    ensures xs != [] ==> r != []
  {
    if xs == [] then []
    else
      var n := |xs| - 1;
      assert xs == xs[..n] + [xs[n]];
      Insert(Collect(xs[..n]), xs[n])
  }

  lemma {:induction false} HeadIsLeast(s: ByteSet, x: Bytes)
    requires x in s
    ensures x == s[0] || Less(s[0], x)
  {
  }

  lemma TailDropsHead(s: ByteSet, x: Bytes)
    requires s != []
    ensures x in s[1..] <==> x in s && x != s[0]
  {
    if x in s[1..] {
      var k :| 0 <= k < |s[1..]| && s[1..][k] == x;
      LessAsymmetric(s[0], s[k + 1]);
    }
  }

  /** Two ordered sets with the same members are the same list. */
  lemma {:induction false} SameMembersSameSet(a: ByteSet, b: ByteSet)
    requires forall x :: x in a <==> x in b
    ensures a == b
  {
    assert (a != [] ==> a[0] in b) && (b != [] ==> b[0] in a);
    if a != [] && b != [] {
      HeadIsLeast(a, b[0]);
      HeadIsLeast(b, a[0]);
      if a[0] != b[0] {
        LessAsymmetric(a[0], b[0]);
        assert false;
      }
      forall x ensures x in a[1..] <==> x in b[1..] {
        TailDropsHead(a, x);
        TailDropsHead(b, x);
      }
      SameMembersSameSet(a[1..], b[1..]);
      assert a == [a[0]] + a[1..] && b == [b[0]] + b[1..];
    }
  }
}
