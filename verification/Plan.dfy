// The trigram query planner (crates/greeg-index/src/plan.rs): what each node of
// a regex tree is known to contain, and the query a file must satisfy.

module Plan {
  import opened Bytes
  import opened Trigrams
  import H = Hir

  const MAX_SET := 32
  const MAX_STR := 24

  /** A query over the trigrams of a file. */
  datatype Q = All | Nothing | Gram(key: nat) | And(qs: seq<Q>) | Or(qs: seq<Q>)

  /** A file whose trigrams are `g` satisfies `q`. */
  predicate Sat(q: Q, g: set<nat>) {
    match q
    case All => true
    case Nothing => false
    case Gram(key) => key in g
    case And(qs) => forall x | x in qs :: Sat(x, g)
    case Or(qs) => exists x | x in qs :: Sat(x, g)
  }

  /** What is known of the text a node matches, folded: whether it can be
      empty, all it can be, how it can start and end; and what the file has. */
  datatype Info = Info(emptyable: bool, exact: Option<ByteSet>, prefix: ByteSet, suffix: ByteSet, q: Q)

  // ------------------------------------------------------------ sets of strings

  function First(s: Bytes, n: nat): (r: Bytes)
    ensures r <= s
  {
    s[..Min(|s|, n)]
  }

  predicate IsSuffix(r: Bytes, s: Bytes) {
    |r| <= |s| && s[|s| - |r|..] == r
  }

  function Last(s: Bytes, n: nat): (r: Bytes)
    ensures IsSuffix(r, s)
  {
    s[|s| - Min(|s|, n)..]
  }

  function Firsts(strs: ByteSet, n: nat): ByteSet {
    Collect(seq(|strs|, i requires 0 <= i < |strs| => First(strs[i], n)))
  }

  function Lasts(strs: ByteSet, n: nat): ByteSet {
    Collect(seq(|strs|, i requires 0 <= i < |strs| => Last(strs[i], n)))
  }

  function Union(a: ByteSet, b: ByteSet): (r: ByteSet)
    ensures forall x :: x in r <==> x in a || x in b
  {
    Collect(a + b)
  }

  function Row(x: Bytes, b: seq<Bytes>): (r: seq<Bytes>)
    ensures forall z :: z in r <==> exists y | y in b :: z == x + y
  {
    if b == [] then []
    else
      var n := |b| - 1;
      assert b == b[..n] + [b[n]];
      Row(x, b[..n]) + [x + b[n]]
  }

  function Products(a: seq<Bytes>, b: seq<Bytes>): seq<Bytes> {
    if a == [] then [] else Products(a[..|a| - 1], b) + Row(a[|a| - 1], b)
  }

  ghost predicate IsProduct(z: Bytes, a: seq<Bytes>, b: seq<Bytes>) {
    exists x, y | x in a && y in b :: z == x + y
  }

  lemma {:induction false} ProductsMembers(a: seq<Bytes>, b: seq<Bytes>, z: Bytes)
    ensures z in Products(a, b) <==> IsProduct(z, a, b)
  {
    if a != [] {
      var n := |a| - 1;
      assert a == a[..n] + [a[n]];
      ProductsMembers(a[..n], b, z);
      if IsProduct(z, a, b) && z !in Row(a[n], b) {
        var x, y :| x in a && y in b && z == x + y;
        assert x in a[..n];
      }
    }
  }

  /** Every string of `a` followed by every string of `b`. */
  function Cross(a: ByteSet, b: ByteSet): (r: ByteSet)
    ensures forall z :: z in r <==> IsProduct(z, a, b)
  {
    assert forall z :: z in Products(a, b) <==> IsProduct(z, a, b) by {
      forall z ensures z in Products(a, b) <==> IsProduct(z, a, b) {
        ProductsMembers(a, b, z);
      }
    }
    Collect(Products(a, b))
  }

  lemma {:induction false} CollectAppend(xs: seq<Bytes>, x: Bytes)
    ensures Collect(xs + [x]) == Insert(Collect(xs), x)
  {
    assert (xs + [x])[..|xs|] == xs;
  }

  /** The inner loop of `cross`. */
  method CrossRow(x: Bytes, b: ByteSet, before: ByteSet, ghost done: seq<Bytes>) returns (out: ByteSet)
    requires before == Collect(done)
    ensures out == Collect(done + Row(x, b))
  {
    out := before;
    assert done + Row(x, b[..0]) == done;
    for j := 0 to |b|
      invariant out == Collect(done + Row(x, b[..j]))
    {
      assert b[..j + 1][..j] == b[..j];
      CollectAppend(done + Row(x, b[..j]), x + b[j]);
      assert done + Row(x, b[..j]) + [x + b[j]] == done + Row(x, b[..j + 1]);
      out := Insert(out, x + b[j]);
    }
    assert b[..|b|] == b;
  }

  /** The nested loops of `cross`. */
  method CrossLoop(a: ByteSet, b: ByteSet) returns (out: ByteSet)
    ensures out == Cross(a, b)
  {
    out := [];
    for i := 0 to |a|
      invariant out == Collect(Products(a[..i], b))
    {
      out := CrossRow(a[i], b, out, Products(a[..i], b));
      assert a[..i + 1][..i] == a[..i];
    }
    assert a[..|a|] == a;
  }

  // ------------------------------------------------------------ queries

  function AndQ(a: Q, b: Q): Q {
    if a.All? then b
    else if b.All? then a
    else if a.Nothing? || b.Nothing? then Nothing
    else if a.And? && b.And? then And(a.qs + b.qs)
    else if a.And? then And(a.qs + [b])
    else if b.And? then And(b.qs + [a])
    else And([a, b])
  }

  function OrQ(a: Q, b: Q): Q {
    if a.All? || b.All? then All
    else if a.Nothing? then b
    else if b.Nothing? then a
    else if a.Or? && b.Or? then Or(a.qs + b.qs)
    else if a.Or? then Or(a.qs + [b])
    else if b.Or? then Or(b.qs + [a])
    else Or([a, b])
  }

  lemma {:induction false} AndQMeans(a: Q, b: Q, g: set<nat>)
    ensures Sat(AndQ(a, b), g) <==> Sat(a, g) && Sat(b, g)
  {
    var r := AndQ(a, b);
    if r.And? {
      assert a.And? ==> forall x | x in a.qs :: x in r.qs || a == r || b == r;
      assert forall x | x in r.qs :: x == a || x == b || (a.And? && x in a.qs) || (b.And? && x in b.qs);
      assert b.And? ==> forall x | x in b.qs :: x in r.qs || a == r || b == r;
      assert !a.And? && r != b ==> a in r.qs;
      assert !b.And? && r != a ==> b in r.qs;
    }
  }

  lemma {:induction false} OrQMeans(a: Q, b: Q, g: set<nat>)
    ensures Sat(OrQ(a, b), g) <==> Sat(a, g) || Sat(b, g)
  {
    var r := OrQ(a, b);
    if r.Or? {
      assert a.Or? ==> forall x | x in a.qs :: x in r.qs || a == r || b == r;
      assert forall x | x in r.qs :: x == a || x == b || (a.Or? && x in a.qs) || (b.Or? && x in b.qs);
      assert b.Or? ==> forall x | x in b.qs :: x in r.qs || a == r || b == r;
      assert !a.Or? && r != b ==> a in r.qs;
      assert !b.Or? && r != a ==> b in r.qs;
    }
  }

  /** `Vec::dedup`: runs of equal neighbours become one. */
  function DedupRuns(qs: seq<Q>): (r: seq<Q>)
    ensures forall x :: x in r <==> x in qs
    ensures qs != [] ==> r != [] && r[0] == qs[0]
    ensures |r| <= |qs|
  {
    if |qs| <= 1 then qs
    else if qs[0] == qs[1] then DedupRuns(qs[1..])
    else
      assert qs == [qs[0]] + qs[1..];
      [qs[0]] + DedupRuns(qs[1..])
  }

  function GramsOfGroups(groups: seq<seq<nat>>): seq<Q> {
    if groups == [] then []
    else seq(|groups[0]|, i requires 0 <= i < |groups[0]| => Gram(groups[0][i])) + GramsOfGroups(groups[1..])
  }

  lemma {:induction false} GramsOfGroupsMembers(groups: seq<seq<nat>>, x: Q)
    ensures x in GramsOfGroups(groups) <==> x.Gram? && InSome(x.key, groups)
  {
    if groups != [] {
      var head := seq(|groups[0]|, i requires 0 <= i < |groups[0]| => Gram(groups[0][i]));
      GramsOfGroupsMembers(groups[1..], x);
      if x.Gram? {
        assert groups == [groups[0]] + groups[1..];
        InSomeCons(x.key, groups[0], groups[1..]);
        if x.key in groups[0] {
          var i :| 0 <= i < |groups[0]| && groups[0][i] == x.key;
          assert head[i] == x;
        }
      }
    }
  }

  /** The AND of the trigrams of one string. */
  function Conjunction(s: Bytes): Q {
    var ands := DedupRuns(GramsOfGroups(LiteralKeys(s)));
    if |ands| == 1 then ands[0] else And(ands)
  }

  /** A file may hold one of `set`: the OR over its strings of the AND of their
      trigrams, or no constraint when some string has none. */
  function TrigramsOf(strs: ByteSet): Q {
    if exists s | s in strs :: LiteralKeys(s) == [] then All
    else if strs == [] then All
    else if |strs| == 1 then Conjunction(strs[0])
    else Or(seq(|strs|, i requires 0 <= i < |strs| => Conjunction(strs[i])))
  }

  /** The conjuncts are exactly the trigrams of the string. */
  lemma ConjunctsAreGrams(s: Bytes, x: Q)
    ensures x in DedupRuns(GramsOfGroups(LiteralKeys(s))) <==> x.Gram? && x.key in Grams(s)
  {
    GramsOfGroupsMembers(LiteralKeys(s), x);
    if x.Gram? {
      LiteralKeysAreWindows(s, x.key);
    }
  }

  lemma {:induction false} ConjunctionMeans(s: Bytes, g: set<nat>)
    ensures Sat(Conjunction(s), g) <==> Grams(s) <= g
  {
    var ands := DedupRuns(GramsOfGroups(LiteralKeys(s)));
    assert Sat(Conjunction(s), g) <==> Sat(And(ands), g) by {
      if |ands| == 1 {
        assert ands == [ands[0]];
      }
    }
    if Sat(And(ands), g) {
      forall k | k in Grams(s) ensures k in g {
        ConjunctsAreGrams(s, Gram(k));
        assert Sat(Gram(k), g);
      }
    }
    if Grams(s) <= g {
      forall x | x in ands ensures Sat(x, g) {
        ConjunctsAreGrams(s, x);
      }
    }
  }

  /** The query is exactly "some string of the set could be in the file". */
  lemma {:induction false} TrigramsOfMeans(strs: ByteSet, g: set<nat>)
    ensures Sat(TrigramsOf(strs), g) <==> strs == [] || exists s | s in strs :: Grams(s) <= g
  {
    forall s | s in strs ensures Sat(Conjunction(s), g) <==> Grams(s) <= g {
      ConjunctionMeans(s, g);
    }
    if s :| s in strs && LiteralKeys(s) == [] {
      forall k ensures k !in Grams(s) {
        LiteralKeysAreWindows(s, k);
      }
      assert Grams(s) == {};
    } else if |strs| == 1 {
      assert strs == [strs[0]];
    } else if strs != [] {
      var alts := seq(|strs|, i requires 0 <= i < |strs| => Conjunction(strs[i]));
      forall s | s in strs ensures Conjunction(s) in alts {
        var i :| 0 <= i < |strs| && strs[i] == s;
        assert alts[i] == Conjunction(s);
      }
    }
  }

  /** The loop of `trigrams_of`: one alternative pushed per string. */
  method TrigramsOfLoop(strs: ByteSet) returns (q: Q)
    ensures q == TrigramsOf(strs)
  {
    var alts: seq<Q> := [];
    for i := 0 to |strs|
      invariant |alts| == i
      invariant forall k | 0 <= k < i :: LiteralKeys(strs[k]) != [] && alts[k] == Conjunction(strs[k])
    {
      var groups := LiteralKeys(strs[i]);
      if groups == [] {
        return All;
      }
      var ands := DedupRuns(GramsOfGroups(groups));
      alts := alts + [if |ands| == 1 then ands[0] else And(ands)];
    }
    if alts == [] {
      q := All;
    } else if |alts| == 1 {
      q := alts[0];
    } else {
      q := Or(alts);
      assert alts == seq(|strs|, i requires 0 <= i < |strs| => Conjunction(strs[i]));
    }
  }

  // ------------------------------------------------------------ simplification

  predicate TooBig(i: Info) {
    i.exact.Some? && (|i.exact.value| > MAX_SET || exists s | s in i.exact.value :: |s| > MAX_STR)
  }

  function FoldExact(i: Info): Info {
    if TooBig(i) then
      var ex := i.exact.value;
      Info(i.emptyable, None, Firsts(Firsts(ex, MAX_STR), 3), Lasts(Lasts(ex, MAX_STR), 3),
           AndQ(i.q, TrigramsOf(ex)))
    else i
  }

  const EMPTY_STRING: ByteSet := [[]]

  function ShrinkPrefix(strs: ByteSet): ByteSet {
    if |strs| <= MAX_SET then strs
    else if |Firsts(strs, 2)| <= MAX_SET then Firsts(strs, 2)
    else EMPTY_STRING
  }

  function ShrinkSuffix(strs: ByteSet): ByteSet {
    if |strs| <= MAX_SET then strs
    else if |Lasts(strs, 2)| <= MAX_SET then Lasts(strs, 2)
    else EMPTY_STRING
  }

  /** Sets past their bound are folded into the query or cut short. */
  function Simplify(i: Info): Info {
    var f := FoldExact(i);
    f.(prefix := ShrinkPrefix(f.prefix), suffix := ShrinkSuffix(f.suffix))
  }

  method FoldExactInPlace(info: Info) returns (i: Info)
    ensures i == FoldExact(info)
  {
    i := info;
    if i.exact.Some? {
      var ex := i.exact.value;
      if |ex| > MAX_SET || exists s | s in ex :: |s| > MAX_STR {
        i := i.(q := AndQ(i.q, TrigramsOf(ex)));
        i := i.(prefix := Firsts(Firsts(ex, MAX_STR), 3));
        i := i.(suffix := Lasts(Lasts(ex, MAX_STR), 3));
        i := i.(exact := None);
      }
    }
  }

  /** `simplify`, overwriting one field at a time. */
  method SimplifyInPlace(info: Info) returns (i: Info)
    ensures i == Simplify(info)
  {
    i := FoldExactInPlace(info);
    if |i.prefix| > MAX_SET {
      i := i.(prefix := Firsts(i.prefix, 2));
      if |i.prefix| > MAX_SET {
        i := i.(prefix := EMPTY_STRING);
      }
    }
    if |i.suffix| > MAX_SET {
      i := i.(suffix := Lasts(i.suffix, 2));
      if |i.suffix| > MAX_SET {
        i := i.(suffix := EMPTY_STRING);
      }
    }
  }

  // ------------------------------------------------------------ classes

  /** A class member as the index would store it. */
  function Member(c: H.Scalar): Bytes {
    if c < 128 then [FoldByte(c)] else H.Utf8(c)
  }

  function CodePoints(lo: nat, hi: int): (r: Option<seq<Bytes>>)
    requires lo <= hi + 1
    decreases hi + 1 - lo
  {
    if lo > hi then Some([])
    else
      var before := CodePoints(lo, hi - 1);
      if before.None? || !H.IsScalar(hi) then None else Some(before.value + [Member(hi)])
  }

  function CharMembers(rs: H.CharRanges): Option<seq<Bytes>> {
    if rs == [] then Some([])
    else
      var n := |rs| - 1;
      var before := CharMembers(rs[..n]);
      if before.None? || rs[n].end - rs[n].start > 16 then None
      else
        var points := CodePoints(rs[n].start, rs[n].end);
        if points.None? then None else Some(before.value + points.value)
  }

  function LowBytes(lo: nat, hi: int): (r: Option<seq<Bytes>>)
    requires lo <= hi + 1 <= 256
    decreases hi + 1 - lo
  {
    if lo > hi then Some([])
    else
      var before := LowBytes(lo, hi - 1);
      if before.None? || hi >= 0x80 then None else Some(before.value + [[FoldByte(hi)]])
  }

  function ByteMembers(rs: H.ByteRanges): Option<seq<Bytes>> {
    if rs == [] then Some([])
    else
      var n := |rs| - 1;
      var before := ByteMembers(rs[..n]);
      if before.None? || rs[n].end - rs[n].start > 16 then None
      else
        var points := LowBytes(rs[n].start, rs[n].end);
        if points.None? then None else Some(before.value + points.value)
  }

  /** The folded strings a small class matches; none when a range is long or
      holds something the index stores no string for. */
  function ClassMembers(members: Option<seq<Bytes>>): Option<ByteSet> {
    if members.None? then None else Some(Collect(members.value))
  }

  lemma {:induction false} CharMembersNone(rs: H.CharRanges, n: nat)
    requires n <= |rs| && CharMembers(rs[..n]).None?
    ensures CharMembers(rs).None?
    decreases |rs| - n
  {
    if n < |rs| {
      assert rs[..n + 1][..n] == rs[..n];
      CharMembersNone(rs, n + 1);
    } else {
      assert rs[..n] == rs;
    }
  }

  lemma {:induction false} CodePointsNone(lo: nat, mid: int, hi: int)
    requires lo <= mid + 1 && mid <= hi && CodePoints(lo, mid).None?
    ensures CodePoints(lo, hi).None?
    decreases hi - mid
  {
    if mid < hi {
      CodePointsNone(lo, mid + 1, hi);
    }
  }

  /** A set with the members of a range of characters added. */
  function WithPoints(done: seq<Bytes>, s: nat, k: int): Option<ByteSet>
    requires s <= k + 1
  {
    var points := CodePoints(s, k);
    if points.None? then None else Some(Collect(done + points.value))
  }

  lemma {:induction false} WithPointsStep(done: seq<Bytes>, s: nat, k: nat)
    requires s <= k && WithPoints(done, s, k - 1).Some?
    ensures WithPoints(done, s, k) ==
      if H.IsScalar(k) then Some(Insert(WithPoints(done, s, k - 1).value, Member(k))) else None
  {
    if H.IsScalar(k) {
      var points := CodePoints(s, k - 1).value;
      CollectAppend(done + points, Member(k));
      Regroup(done, points, [Member(k)]);
    }
  }

  method CodePointsLoop(s: nat, e: int, before: ByteSet, ghost done: seq<Bytes>) returns (out: Option<ByteSet>)
    requires s <= e && before == Collect(done)
    ensures out == WithPoints(done, s, e)
  {
    var acc := before;
    assert done + [] == done;
    for cp := s to e + 1
      invariant WithPoints(done, s, cp - 1) == Some(acc)
    {
      WithPointsStep(done, s, cp);
      if !H.IsScalar(cp) {
        CodePointsNone(s, cp, e);
        return None;
      }
      acc := Insert(acc, Member(cp));
    }
    out := Some(acc);
  }

  /** The members of one more range. */
  lemma {:induction false} CharStep(rs: H.CharRanges, k: nat)
    requires k < |rs| && CharMembers(rs[..k]).Some?
    ensures rs[k].start <= rs[k].end
    ensures ClassMembers(CharMembers(rs[..k + 1])) ==
      if rs[k].end - rs[k].start > 16 then None else WithPoints(CharMembers(rs[..k]).value, rs[k].start, rs[k].end)
  {
    assert rs[k] in rs && rs[..k + 1][..k] == rs[..k];
  }

  /** The loops of `class_members` over a Unicode class. */
  method CharMembersLoop(rs: H.CharRanges) returns (out: Option<ByteSet>)
    ensures out == ClassMembers(CharMembers(rs))
  {
    var acc: ByteSet := [];
    for k := 0 to |rs|
      invariant ClassMembers(CharMembers(rs[..k])) == Some(acc)
    {
      CharStep(rs, k);
      var s: int, e: int := rs[k].start, rs[k].end;
      var more: Option<ByteSet> := None;
      if e - s <= 16 {
        more := CodePointsLoop(s, e, acc, CharMembers(rs[..k]).value);
      }
      if more.None? {
        CharMembersNone(rs, k + 1);
        return None;
      }
      acc := more.value;
    }
    assert rs[..|rs|] == rs;
    out := Some(acc);
  }

  lemma {:induction false} ByteMembersNone(rs: H.ByteRanges, n: nat)
    requires n <= |rs| && ByteMembers(rs[..n]).None?
    ensures ByteMembers(rs).None?
    decreases |rs| - n
  {
    if n < |rs| {
      assert rs[..n + 1][..n] == rs[..n];
      ByteMembersNone(rs, n + 1);
    } else {
      assert rs[..n] == rs;
    }
  }

  lemma {:induction false} LowBytesNone(lo: nat, mid: int, hi: int)
    requires lo <= mid + 1 && mid <= hi < 256 && LowBytes(lo, mid).None?
    ensures LowBytes(lo, hi).None?
    decreases hi - mid
  {
    if mid < hi {
      LowBytesNone(lo, mid + 1, hi);
    }
  }

  /** A set with the members of a range of bytes added. */
  function WithBytes(done: seq<Bytes>, s: nat, k: int): Option<ByteSet>
    requires s <= k + 1 <= 256
  {
    var points := LowBytes(s, k);
    if points.None? then None else Some(Collect(done + points.value))
  }

  lemma {:induction false} WithBytesStep(done: seq<Bytes>, s: nat, k: Byte)
    requires s <= k && WithBytes(done, s, k - 1).Some?
    ensures WithBytes(done, s, k) ==
      if k < 0x80 then Some(Insert(WithBytes(done, s, k - 1).value, [FoldByte(k)])) else None
  {
    if k < 0x80 {
      var points, member: Bytes := LowBytes(s, k - 1).value, [FoldByte(k)];
      CollectAppend(done + points, member);
      Regroup(done, points, [member]);
    }
  }

  method LowBytesLoop(s: nat, e: int, before: ByteSet, ghost done: seq<Bytes>) returns (out: Option<ByteSet>)
    requires s <= e < 256 && before == Collect(done)
    ensures out == WithBytes(done, s, e)
  {
    var acc := before;
    assert done + [] == done;
    for x := s to e + 1
      invariant WithBytes(done, s, x - 1) == Some(acc)
    {
      WithBytesStep(done, s, x);
      if x >= 0x80 {
        LowBytesNone(s, x, e);
        return None;
      }
      acc := Insert(acc, [FoldByte(x)]);
    }
    out := Some(acc);
  }

  /** The members of one more range. */
  lemma {:induction false} ByteStep(rs: H.ByteRanges, k: nat)
    requires k < |rs| && ByteMembers(rs[..k]).Some?
    ensures rs[k].start <= rs[k].end < 256
    ensures ClassMembers(ByteMembers(rs[..k + 1])) ==
      if rs[k].end - rs[k].start > 16 then None else WithBytes(ByteMembers(rs[..k]).value, rs[k].start, rs[k].end)
  {
    assert rs[k] in rs && rs[..k + 1][..k] == rs[..k];
  }

  /** The loops of `class_members` over a byte class. */
  method ByteMembersLoop(rs: H.ByteRanges) returns (out: Option<ByteSet>)
    ensures out == ClassMembers(ByteMembers(rs))
  {
    var acc: ByteSet := [];
    for k := 0 to |rs|
      invariant ClassMembers(ByteMembers(rs[..k])) == Some(acc)
    {
      ByteStep(rs, k);
      var s: int, e: int := rs[k].start, rs[k].end;
      var more: Option<ByteSet> := None;
      if e - s <= 16 {
        more := LowBytesLoop(s, e, acc, ByteMembers(rs[..k]).value);
      }
      if more.None? {
        ByteMembersNone(rs, k + 1);
        return None;
      }
      acc := more.value;
    }
    assert rs[..|rs|] == rs;
    out := Some(acc);
  }

  // ------------------------------------------------------------ nodes

  function Unknown(emptyable: bool): Info {
    Info(emptyable, None, EMPTY_STRING, EMPTY_STRING, All)
  }

  function Exactly(emptyable: bool, strs: ByteSet): Info {
    Info(emptyable, Some(strs), strs, strs, All)
  }

  function OfClass(members: Option<ByteSet>): Info {
    if members.Some? && members.value != [] && |members.value| <= 8 then Exactly(false, members.value)
    else Unknown(false)
  }

  function ConcatRaw(a: Info, b: Info): Info {
    var exact := if a.exact.Some? && b.exact.Some? then Some(Cross(a.exact.value, b.exact.value)) else None;
    var q := AndQ(a.q, b.q);
    Info(a.emptyable && b.emptyable,
         exact,
         if a.exact.Some? then Cross(a.exact.value, b.prefix) else a.prefix,
         if b.exact.Some? then Cross(a.suffix, b.exact.value) else b.suffix,
         if exact.None? then AndQ(q, TrigramsOf(Cross(a.suffix, b.prefix))) else q)
  }

  function ConcatInfo(a: Info, b: Info): Info {
    var out := ConcatRaw(a, b);
    Simplify(if out.exact.Some? && |out.exact.value| > MAX_SET then Simplify(out) else out)
  }

  function WithExact(i: Info): Q {
    AndQ(i.q, if i.exact.Some? then TrigramsOf(i.exact.value) else All)
  }

  function Alternate(a: Info, b: Info): Info {
    var both := a.exact.Some? && b.exact.Some?;
    Simplify(Info(a.emptyable || b.emptyable,
                  if both then Some(Union(a.exact.value, b.exact.value)) else None,
                  Union(a.prefix, b.prefix),
                  Union(a.suffix, b.suffix),
                  if both then All else OrQ(WithExact(a), WithExact(b))))
  }

  /** What is known of a node's matches. */
  function Analyze(h: H.Node): Info
    decreases h, 1
  {
    Simplify(NodeInfo(h))
  }

  function NodeInfo(h: H.Node): Info
    decreases h, 0
  {
    match h {
      case Empty => Exactly(true, EMPTY_STRING)
      case Look(_) => Exactly(true, EMPTY_STRING)
      case Literal(lit) => Exactly(lit == [], [Fold(lit)])
      case ClassUnicode(rs) => OfClass(ClassMembers(CharMembers(rs)))
      case ClassBytes(rs) => OfClass(ClassMembers(ByteMembers(rs)))
      case Repetition(min, max, sub) =>
        var i := Analyze(sub);
        if min == 0 then Unknown(true)
        else if min == 1 && max == Some(1) then i
        else i.(exact := None)
      case Capture(group) => Analyze(group)
      case Concat(parts) => ConcatAll(Exactly(true, EMPTY_STRING), parts)
      case Alternation(first, rest) => AlternateAll(Analyze(first), rest)
    }
  }

  function ConcatAll(acc: Info, hs: seq<H.Node>): Info
    decreases hs, 0
  {
    if hs == [] then acc else ConcatAll(ConcatInfo(acc, Analyze(hs[0])), hs[1..])
  }

  function AlternateAll(acc: Info, hs: seq<H.Node>): Info
    decreases hs, 0
  {
    if hs == [] then acc else AlternateAll(Alternate(acc, Analyze(hs[0])), hs[1..])
  }

  /** The query of a whole pattern, before redundant structure is removed. */
  function RawPlan(h: H.Node): Q {
    WithExact(Analyze(h))
  }

  // ------------------------------------------------------------ flattening

  /** `sort_by_key` order: trigrams by key (a `u32`), everything else after them. */
  predicate Before(x: Q, y: Q) {
    x.Gram? && (!y.Gram? || x.key < y.key)
  }

  ghost predicate InKeyOrder(qs: seq<Q>) {
    forall i, j | 0 <= i < j < |qs| :: !Before(qs[j], qs[i])
  }

  function InsertStable(x: Q, qs: seq<Q>): (r: seq<Q>)
    requires InKeyOrder(qs)
    ensures InKeyOrder(r)
    ensures forall y :: y in r <==> y == x || y in qs
    ensures |r| == |qs| + 1
  {
    if qs == [] || !Before(qs[0], x) then [x] + qs
    else
      assert qs == [qs[0]] + qs[1..];
      var rest := InsertStable(x, qs[1..]);
      assert forall y | y in rest :: !Before(y, qs[0]);
      [qs[0]] + rest
  }

  /** A stable sort by key. */
  function SortByKey(qs: seq<Q>): (r: seq<Q>)
    ensures InKeyOrder(r)
    ensures forall y :: y in r <==> y in qs
    ensures |r| == |qs|
  {
    if qs == [] then []
    else
      assert qs == [qs[0]] + qs[1..];
      InsertStable(qs[0], SortByKey(qs[1..]))
  }

  /** A query without redundant structure: no constant below the top, no AND
      directly in an AND, no OR directly in an OR, none with fewer than two
      parts; the trigrams of an AND come first, ascending and each once. */
  ghost predicate Flat(q: Q) {
    match q
    case All => true
    case Nothing => true
    case Gram(_) => true
    case And(qs) =>
      && |qs| >= 2
      && TrigramsFirst(qs)
      && (forall x | x in qs :: Flat(x) && !x.And? && !x.All? && !x.Nothing?)
    case Or(qs) =>
      && |qs| >= 2
      && (forall x | x in qs :: Flat(x) && !x.Or? && !x.All? && !x.Nothing?)
  }

  ghost predicate TrigramsFirst(qs: seq<Q>) {
    forall i, j | 0 <= i < j < |qs| && qs[j].Gram? :: qs[i].Gram? && qs[i].key < qs[j].key
  }

  lemma FirstBefore(q: Q, rest: seq<Q>)
    requires rest != [] && TrigramsFirst(rest) && q != rest[0] && forall j | 0 <= j < |rest| :: !Before(rest[j], q)
    ensures TrigramsFirst([q] + rest)
  {
    forall j | 0 <= j < |rest| && rest[j].Gram? ensures q.Gram? && q.key < rest[j].key {
      if 0 < j {
        assert rest[0].Gram? && rest[0].key < rest[j].key;
      }
      assert !Before(rest[j], q) && !Before(rest[0], q);
    }
  }

  lemma {:induction false} DedupInOrder(qs: seq<Q>)
    requires InKeyOrder(qs)
    ensures TrigramsFirst(DedupRuns(qs))
  {
    if |qs| >= 2 {
      DedupInOrder(qs[1..]);
      var rest := DedupRuns(qs[1..]);
      forall j | 0 <= j < |rest| ensures !Before(rest[j], qs[0]) {
        assert rest[j] in qs[1..];
      }
      if qs[0] != qs[1] {
        FirstBefore(qs[0], rest);
      }
    }
  }

  /** `flatten`: the same meaning, without redundant structure. */
  method Flatten(q: Q) returns (r: Q)
    ensures forall g :: Sat(r, g) <==> Sat(q, g)
    ensures Flat(r)
    decreases q
  {
    match q
    case And(v) => r := FlattenAnd(v);
    case Or(v) => r := FlattenOr(v);
    case _ => r := q;
  }

  method FlattenAnd(v: seq<Q>) returns (r: Q)
    ensures forall g :: Sat(r, g) <==> Sat(And(v), g)
    ensures Flat(r)
    decreases v
  {
    var out: seq<Q> := [];
    for i := 0 to |v|
      invariant forall g :: Sat(And(out), g) <==> Sat(And(v[..i]), g)
      invariant forall x | x in out :: Flat(x) && !x.And? && !x.All? && !x.Nothing?
    {
      var f := Flatten(v[i]);
      assert v[i] in v && v[..i + 1] == v[..i] + [v[i]];
      assert forall g :: Sat(And(v[..i + 1]), g) <==> Sat(And(v[..i]), g) && Sat(v[i], g);
      match f {
        case All =>
        case Nothing =>
          assert forall g :: !Sat(f, g);
          return Nothing;
        case And(inner) =>
          assert forall g :: Sat(And(out + inner), g) <==> Sat(And(out), g) && Sat(f, g);
          out := out + inner;
        case _ =>
          assert forall g :: Sat(And(out + [f]), g) <==> Sat(And(out), g) && Sat(f, g);
          out := out + [f];
      }
    }
    assert v[..|v|] == v;
    var sorted := DedupRuns(SortByKey(out));
    DedupInOrder(SortByKey(out));
    assert forall g :: Sat(And(sorted), g) <==> Sat(And(out), g);
    if |sorted| == 0 {
      r := All;
      assert forall g :: Sat(And(sorted), g);
    } else if |sorted| == 1 {
      r := sorted[0];
      assert sorted == [sorted[0]] && sorted[0] in sorted;
      assert forall g :: Sat(And(sorted), g) <==> Sat(sorted[0], g);
    } else {
      r := And(sorted);
    }
  }

  method FlattenOr(v: seq<Q>) returns (r: Q)
    ensures forall g :: Sat(r, g) <==> Sat(Or(v), g)
    ensures Flat(r)
    decreases v
  {
    var out: seq<Q> := [];
    for i := 0 to |v|
      invariant forall g :: Sat(Or(out), g) <==> Sat(Or(v[..i]), g)
      invariant forall x | x in out :: Flat(x) && !x.Or? && !x.All? && !x.Nothing?
    {
      var f := Flatten(v[i]);
      assert v[i] in v && v[..i + 1] == v[..i] + [v[i]];
      assert forall g :: Sat(Or(v[..i + 1]), g) <==> Sat(Or(v[..i]), g) || Sat(v[i], g);
      match f {
        case All =>
          assert forall g :: Sat(f, g);
          return All;
        case Nothing =>
        case Or(inner) =>
          assert forall g :: Sat(Or(out + inner), g) <==> Sat(Or(out), g) || Sat(f, g);
          out := out + inner;
        case _ =>
          assert forall g :: Sat(Or(out + [f]), g) <==> Sat(Or(out), g) || Sat(f, g);
          out := out + [f];
      }
    }
    assert v[..|v|] == v;
    if |out| == 0 {
      r := Nothing;
      assert forall g :: !Sat(Or(out), g);
    } else if |out| == 1 {
      r := out[0];
      assert out == [out[0]];
      assert forall g :: Sat(Or(out), g) <==> Sat(out[0], g);
    } else {
      r := Or(out);
    }
  }
}
