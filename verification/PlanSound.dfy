// The planner never loses a match: a file holding a match of the pattern
// satisfies the pattern's query. Where the whole language of a pattern is
// tracked, the query is also as tight as any query over trigrams can be.

module PlanSound {
  import opened Bytes
  import opened Trigrams
  import opened Plan
  import H = Hir

  // ------------------------------------------------------------ one node

  /** What `i` says holds of a match whose folded text is `m`, in a file with
      the trigrams `g`. */
  ghost predicate Fits(i: Info, m: Bytes, g: set<nat>) {
    && (i.exact.Some? ==> m in i.exact.value)
    && (exists p | p in i.prefix :: p <= m)
    && (exists s | s in i.suffix :: IsSuffix(s, m))
    && Sat(i.q, g)
    && (m == [] ==> i.emptyable)
  }

  lemma FirstsFit(strs: ByteSet, n: nat, m: Bytes)
    requires exists p | p in strs :: p <= m
    ensures exists p | p in Firsts(strs, n) :: p <= m
  {
    var p :| p in strs && p <= m;
    var i :| 0 <= i < |strs| && strs[i] == p;
    var cut := seq(|strs|, i requires 0 <= i < |strs| => First(strs[i], n));
    assert cut[i] in Firsts(strs, n) && cut[i] <= m;
  }

  lemma LastsFit(strs: ByteSet, n: nat, m: Bytes)
    requires exists s | s in strs :: IsSuffix(s, m)
    ensures exists s | s in Lasts(strs, n) :: IsSuffix(s, m)
  {
    var s :| s in strs && IsSuffix(s, m);
    var i :| 0 <= i < |strs| && strs[i] == s;
    var cut := seq(|strs|, i requires 0 <= i < |strs| => Last(strs[i], n));
    assert cut[i] in Lasts(strs, n) && IsSuffix(cut[i], m);
  }

  lemma EmptyStringFits(m: Bytes)
    ensures exists p | p in EMPTY_STRING :: p <= m
    ensures exists s | s in EMPTY_STRING :: IsSuffix(s, m)
  {
    assert [] in EMPTY_STRING && [] <= m && IsSuffix([], m);
  }

  lemma FoldExactFits(i: Info, m: Bytes, g: set<nat>)
    requires Fits(i, m, g) && Windows(m) <= g && Fold(m) == m
    ensures Fits(FoldExact(i), m, g)
  {
    if TooBig(i) {
      var ex := i.exact.value;
      assert m <= m && IsSuffix(m, m);
      FirstsFit(ex, MAX_STR, m);
      FirstsFit(Firsts(ex, MAX_STR), 3, m);
      LastsFit(ex, MAX_STR, m);
      LastsFit(Lasts(ex, MAX_STR), 3, m);
      TrigramsOfMeans(ex, g);
      AndQMeans(i.q, TrigramsOf(ex), g);
    }
  }

  lemma SimplifyFits(i: Info, m: Bytes, g: set<nat>)
    requires Fits(i, m, g) && Windows(m) <= g && Fold(m) == m
    ensures Fits(Simplify(i), m, g)
  {
    FoldExactFits(i, m, g);
    var f := FoldExact(i);
    EmptyStringFits(m);
    FirstsFit(f.prefix, 2, m);
    LastsFit(f.suffix, 2, m);
  }

  lemma MiddleFits(a: Bytes, b: Bytes, s: Bytes, p: Bytes)
    requires IsSuffix(s, a) && p <= b
    ensures Windows(s + p) <= Windows(a + b)
  {
    var lo, hi := |a| - |s|, |a| + |p|;
    assert (a + b)[lo..hi] == s + p;
    WindowsOfPart(a + b, lo, hi);
  }

  lemma FoldOfParts(a: Bytes, b: Bytes)
    requires Fold(a) == a && Fold(b) == b
    ensures Fold(a + b) == a + b
  {
    FoldConcat(a, b);
  }

  lemma FoldOfPart(a: Bytes, lo: nat, hi: nat)
    requires Fold(a) == a && lo <= hi <= |a|
    ensures Fold(a[lo..hi]) == a[lo..hi]
  {
    forall i | 0 <= i < hi - lo ensures FoldByte(a[lo..hi][i]) == a[lo..hi][i] {
      assert Fold(a)[lo + i] == a[lo + i];
    }
  }

  lemma ConcatPrefixFits(a: Info, b: Info, x: Bytes, y: Bytes, g: set<nat>)
    requires Fits(a, x, g) && Fits(b, y, g)
    ensures exists p | p in ConcatRaw(a, b).prefix :: p <= x + y
  {
    var p :| p in b.prefix && p <= y;
    if a.exact.Some? {
      assert IsProduct(x + p, a.exact.value, b.prefix);
      assert x + p <= x + y;
    } else {
      var pa :| pa in a.prefix && pa <= x;
      assert pa <= x + y;
    }
  }

  lemma ConcatSuffixFits(a: Info, b: Info, x: Bytes, y: Bytes, g: set<nat>)
    requires Fits(a, x, g) && Fits(b, y, g)
    ensures exists s | s in ConcatRaw(a, b).suffix :: IsSuffix(s, x + y)
  {
    var s :| s in a.suffix && IsSuffix(s, x);
    if b.exact.Some? {
      assert IsProduct(s + y, a.suffix, b.exact.value);
      assert IsSuffix(s + y, x + y);
    } else {
      var sb :| sb in b.suffix && IsSuffix(sb, y);
      assert IsSuffix(sb, x + y);
    }
  }

  /** The trigrams across the boundary of two matches are in the file. */
  lemma {:induction false} BoundaryFits(a: Info, b: Info, x: Bytes, y: Bytes, g: set<nat>)
    requires Fits(a, x, g) && Fits(b, y, g) && Windows(x + y) <= g
    requires Fold(x) == x && Fold(y) == y
    ensures Sat(TrigramsOf(Cross(a.suffix, b.prefix)), g)
  {
    var p :| p in b.prefix && p <= y;
    var s :| s in a.suffix && IsSuffix(s, x);
    assert IsProduct(s + p, a.suffix, b.prefix);
    MiddleFits(x, y, s, p);
    FoldOfPart(x, |x| - |s|, |x|);
    FoldOfPart(y, 0, |p|);
    FoldOfParts(s, p);
    TrigramsOfMeans(Cross(a.suffix, b.prefix), g);
  }

  lemma ConcatRawFits(a: Info, b: Info, x: Bytes, y: Bytes, g: set<nat>)
    requires Fits(a, x, g) && Fits(b, y, g) && Windows(x + y) <= g
    requires Fold(x) == x && Fold(y) == y
    ensures Fits(ConcatRaw(a, b), x + y, g)
  {
    ConcatPrefixFits(a, b, x, y, g);
    ConcatSuffixFits(a, b, x, y, g);
    BoundaryFits(a, b, x, y, g);
    if a.exact.Some? && b.exact.Some? {
      assert IsProduct(x + y, a.exact.value, b.exact.value);
    }
    AndQMeans(a.q, b.q, g);
    AndQMeans(AndQ(a.q, b.q), TrigramsOf(Cross(a.suffix, b.prefix)), g);
  }

  lemma ConcatFits(a: Info, b: Info, x: Bytes, y: Bytes, g: set<nat>)
    requires Fits(a, x, g) && Fits(b, y, g) && Windows(x + y) <= g
    requires Fold(x) == x && Fold(y) == y
    ensures Fits(ConcatInfo(a, b), x + y, g)
  {
    ConcatRawFits(a, b, x, y, g);
    FoldOfParts(x, y);
    var raw := ConcatRaw(a, b);
    SimplifyFits(raw, x + y, g);
    SimplifyFits(if raw.exact.Some? && |raw.exact.value| > MAX_SET then Simplify(raw) else raw, x + y, g);
  }

  lemma {:induction false} WithExactFits(i: Info, m: Bytes, g: set<nat>)
    requires Fits(i, m, g) && Windows(m) <= g && Fold(m) == m
    ensures Sat(WithExact(i), g)
  {
    if i.exact.Some? {
      TrigramsOfMeans(i.exact.value, g);
      AndQMeans(i.q, TrigramsOf(i.exact.value), g);
    }
  }

  lemma AlternateFits(a: Info, b: Info, m: Bytes, g: set<nat>)
    requires Fits(a, m, g) || Fits(b, m, g)
    requires Windows(m) <= g && Fold(m) == m
    ensures Fits(Alternate(a, b), m, g)
  {
    if Fits(a, m, g) {
      WithExactFits(a, m, g);
      assert exists p | p in Union(a.prefix, b.prefix) :: p <= m;
      assert exists s | s in Union(a.suffix, b.suffix) :: IsSuffix(s, m);
    } else {
      WithExactFits(b, m, g);
      assert exists p | p in Union(a.prefix, b.prefix) :: p <= m;
      assert exists s | s in Union(a.suffix, b.suffix) :: IsSuffix(s, m);
    }
    OrQMeans(WithExact(a), WithExact(b), g);
    var both := a.exact.Some? && b.exact.Some?;
    SimplifyFits(Info(a.emptyable || b.emptyable,
                      if both then Some(Union(a.exact.value, b.exact.value)) else None,
                      Union(a.prefix, b.prefix),
                      Union(a.suffix, b.suffix),
                      if both then All else OrQ(WithExact(a), WithExact(b))), m, g);
  }

  // ------------------------------------------------------------ classes

  lemma {:induction false} CodePointsHold(lo: nat, hi: int, c: H.Scalar)
    requires lo <= c <= hi && CodePoints(lo, hi).Some?
    ensures Member(c) in CodePoints(lo, hi).value
    decreases hi - lo
  {
    if c < hi {
      CodePointsHold(lo, hi - 1, c);
    }
  }

  lemma MemberIsFoldedText(c: H.Scalar)
    ensures Member(c) == Fold(H.Utf8(c))
  {
    assert c >= 128 ==> forall b | b in H.Utf8(c) :: FoldByte(b) == b;
  }

  lemma {:induction false} CharMembersHold(rs: H.CharRanges, c: H.Scalar)
    requires H.InChars(rs, c) && CharMembers(rs).Some?
    ensures Fold(H.Utf8(c)) in CharMembers(rs).value
  {
    var n := |rs| - 1;
    MemberIsFoldedText(c);
    if rs[n].start <= c <= rs[n].end {
      CodePointsHold(rs[n].start, rs[n].end, c);
    } else {
      assert rs == rs[..n] + [rs[n]];
      CharMembersHold(rs[..n], c);
    }
  }

  lemma {:induction false} LowBytesHold(lo: nat, hi: int, b: Byte)
    requires lo <= b <= hi < 256 && LowBytes(lo, hi).Some?
    ensures [FoldByte(b)] in LowBytes(lo, hi).value
    decreases hi - lo
  {
    if b < hi {
      LowBytesHold(lo, hi - 1, b);
    }
  }

  lemma {:induction false} ByteMembersHold(rs: H.ByteRanges, b: Byte)
    requires H.InBytes(rs, b) && ByteMembers(rs).Some?
    ensures [FoldByte(b)] in ByteMembers(rs).value
  {
    var n := |rs| - 1;
    if rs[n].start <= b <= rs[n].end {
      LowBytesHold(rs[n].start, rs[n].end, b);
    } else {
      assert rs == rs[..n] + [rs[n]];
      ByteMembersHold(rs[..n], b);
    }
  }

  lemma ClassFits(members: Option<ByteSet>, m: Bytes, g: set<nat>)
    requires m != [] && (members.Some? ==> m in members.value)
    ensures Fits(OfClass(members), m, g)
  {
    EmptyStringFits(m);
    assert m <= m && IsSuffix(m, m);
  }

  // ------------------------------------------------------------ the tree

  lemma FoldedMatch(t: Bytes, i: nat, j: nat)
    requires i <= j <= |t|
    ensures Windows(Fold(t[i..j])) <= Grams(t)
    ensures Fold(Fold(t[i..j])) == Fold(t[i..j])
  {
    assert Fold(t[i..j]) == Fold(t)[i..j];
    WindowsOfPart(Fold(t), i, j);
    FoldIdempotent(t[i..j]);
  }

  lemma FoldedJoin(t: Bytes, i: nat, k: nat, j: nat)
    requires i <= k <= j <= |t|
    ensures Fold(t[i..j]) == Fold(t[i..k]) + Fold(t[k..j])
  {
    assert t[i..j] == t[i..k] + t[k..j];
    FoldConcat(t[i..k], t[k..j]);
  }

  /** The node invariant: whatever `h` matches, its analysis fits. */
  lemma {:induction false} AnalyzeSound(h: H.Node, t: Bytes, i: nat, j: nat, looks: H.Looks)
    requires H.Matches(h, t, i, j, looks)
    ensures Fits(Analyze(h), Fold(t[i..j]), Grams(t))
    decreases h, 0
  {
    var m, g := Fold(t[i..j]), Grams(t);
    FoldedMatch(t, i, j);
    EmptyStringFits(m);
    assert m <= m && IsSuffix(m, m);
    match h {
      case Empty =>
        SimplifyFits(Exactly(true, EMPTY_STRING), m, g);
      case Look(_) =>
        SimplifyFits(Exactly(true, EMPTY_STRING), m, g);
      case Literal(lit) =>
        assert m in [Fold(lit)];
        SimplifyFits(Exactly(lit == [], [Fold(lit)]), m, g);
      case ClassUnicode(rs) =>
        var c: H.Scalar :| H.InChars(rs, c) && t[i..j] == H.Utf8(c);
        if CharMembers(rs).Some? {
          CharMembersHold(rs, c);
        }
        ClassFits(ClassMembers(CharMembers(rs)), m, g);
        SimplifyFits(OfClass(ClassMembers(CharMembers(rs))), m, g);
      case ClassBytes(rs) =>
        assert m == [FoldByte(t[i])];
        if ByteMembers(rs).Some? {
          ByteMembersHold(rs, t[i]);
        }
        ClassFits(ClassMembers(ByteMembers(rs)), m, g);
        SimplifyFits(OfClass(ClassMembers(ByteMembers(rs))), m, g);
      case Repetition(min, max, sub) =>
        RepetitionSound(min, max, sub, t, i, j, looks);
      case Capture(group) =>
        AnalyzeSound(group, t, i, j, looks);
        SimplifyFits(Analyze(group), m, g);
      case Concat(parts) =>
        assert Fold(t[i..i]) == [];
        ConcatAllSound(Exactly(true, EMPTY_STRING), parts, t, i, i, j, looks);
        SimplifyFits(ConcatAll(Exactly(true, EMPTY_STRING), parts), m, g);
      case Alternation(first, rest) =>
        if H.Matches(first, t, i, j, looks) {
          AnalyzeSound(first, t, i, j, looks);
        }
        AlternateAllSound(Analyze(first), rest, t, i, j, looks);
        SimplifyFits(AlternateAll(Analyze(first), rest), m, g);
    }
  }

  lemma {:induction false} RepetitionSound(min: nat, max: Option<nat>, sub: H.Node, t: Bytes, i: nat, j: nat,
                                          looks: H.Looks)
    requires H.Matches(H.Repetition(min, max, sub), t, i, j, looks)
    ensures Fits(Analyze(H.Repetition(min, max, sub)), Fold(t[i..j]), Grams(t))
    decreases sub, 2
  {
    var m, g := Fold(t[i..j]), Grams(t);
    FoldedMatch(t, i, j);
    EmptyStringFits(m);
    var n: nat :| min <= n && (max.Some? ==> n <= max.value) && H.MatchesTimes(sub, n, t, i, j, looks);
    if min == 0 {
      SimplifyFits(Unknown(true), m, g);
    } else {
      var k := FirstCopy(sub, n, t, i, j, looks);
      AnalyzeSound(sub, t, i, k, looks);
      var info := Analyze(sub);
      FoldedJoin(t, i, k, j);
      if min == 1 && max == Some(1) {
        assert k == j;
        SimplifyFits(info, m, g);
      } else {
        var p :| p in info.prefix && p <= Fold(t[i..k]);
        assert p <= m;
        LastCopy(sub, n, t, i, j, looks);
        SimplifyFits(info.(exact := None), m, g);
      }
    }
  }

  lemma FirstCopy(sub: H.Node, n: nat, t: Bytes, i: nat, j: nat, looks: H.Looks) returns (k: nat)
    requires n >= 1 && H.MatchesTimes(sub, n, t, i, j, looks)
    ensures H.Matches(sub, t, i, k, looks) && H.MatchesTimes(sub, n - 1, t, k, j, looks)
  {
    k :| H.Matches(sub, t, i, k, looks) && H.MatchesTimes(sub, n - 1, t, k, j, looks);
  }

  /** The end of a repetition is the end of its last copy. */
  lemma {:induction false} LastCopy(sub: H.Node, n: nat, t: Bytes, i: nat, j: nat, looks: H.Looks)
    requires n >= 1 && H.MatchesTimes(sub, n, t, i, j, looks)
    ensures exists s | s in Analyze(sub).suffix :: IsSuffix(s, Fold(t[i..j]))
    decreases sub, 1, n
  {
    var k: nat :| H.Matches(sub, t, i, k, looks) && H.MatchesTimes(sub, n - 1, t, k, j, looks);
    FoldedJoin(t, i, k, j);
    if n == 1 {
      AnalyzeSound(sub, t, i, k, looks);
    } else {
      LastCopy(sub, n - 1, t, k, j, looks);
      var s :| s in Analyze(sub).suffix && IsSuffix(s, Fold(t[k..j]));
      assert IsSuffix(s, Fold(t[i..j]));
    }
  }

  lemma {:induction false} ConcatAllSound(acc: Info, hs: seq<H.Node>, t: Bytes, i: nat, k: nat, j: nat,
                                         looks: H.Looks)
    requires i <= k <= j <= |t|
    requires Fits(acc, Fold(t[i..k]), Grams(t))
    requires H.MatchesSeq(hs, t, k, j, looks)
    ensures Fits(ConcatAll(acc, hs), Fold(t[i..j]), Grams(t))
    decreases hs, 0
  {
    if hs != [] {
      var l: nat :| H.Matches(hs[0], t, k, l, looks) && H.MatchesSeq(hs[1..], t, l, j, looks);
      AnalyzeSound(hs[0], t, k, l, looks);
      FoldedJoin(t, i, k, l);
      FoldedMatch(t, i, l);
      FoldedMatch(t, i, k);
      FoldedMatch(t, k, l);
      ConcatFits(acc, Analyze(hs[0]), Fold(t[i..k]), Fold(t[k..l]), Grams(t));
      ConcatAllSound(ConcatInfo(acc, Analyze(hs[0])), hs[1..], t, i, l, j, looks);
    }
  }

  lemma {:induction false} AlternateAllSound(acc: Info, hs: seq<H.Node>, t: Bytes, i: nat, j: nat,
                                            looks: H.Looks)
    requires i <= j <= |t|
    requires Fits(acc, Fold(t[i..j]), Grams(t)) || exists k :: 0 <= k < |hs| && H.Matches(hs[k], t, i, j, looks)
    ensures Fits(AlternateAll(acc, hs), Fold(t[i..j]), Grams(t))
    decreases hs, 0
  {
    if hs != [] {
      FoldedMatch(t, i, j);
      var next := Alternate(acc, Analyze(hs[0]));
      if Fits(acc, Fold(t[i..j]), Grams(t)) {
        AlternateFits(acc, Analyze(hs[0]), Fold(t[i..j]), Grams(t));
      } else if H.Matches(hs[0], t, i, j, looks) {
        AnalyzeSound(hs[0], t, i, j, looks);
        AlternateFits(acc, Analyze(hs[0]), Fold(t[i..j]), Grams(t));
      } else {
        var k :| 0 <= k < |hs| && H.Matches(hs[k], t, i, j, looks);
        assert hs[1..][k - 1] == hs[k];
      }
      AlternateAllSound(next, hs[1..], t, i, j, looks);
    }
  }

  // ------------------------------------------------------------ the pattern

  /** `h` matches somewhere in `t`. */
  ghost predicate Found(h: H.Node, t: Bytes) {
    exists i: nat, j: nat, looks: H.Looks :: H.Matches(h, t, i, j, looks)
  }

  lemma RawPlanSound(h: H.Node, t: Bytes)
    requires Found(h, t)
    ensures Sat(RawPlan(h), Grams(t))
  {
    var i: nat, j: nat, looks: H.Looks :| H.Matches(h, t, i, j, looks);
    AnalyzeSound(h, t, i, j, looks);
    FoldedMatch(t, i, j);
    WithExactFits(Analyze(h), Fold(t[i..j]), Grams(t));
  }

  /** The planner: no file a scan would report is left out by the query. */
  method MakePlan(h: H.Node) returns (q: Q)
    ensures Flat(q)
    ensures forall g :: Sat(q, g) <==> Sat(RawPlan(h), g)
    ensures forall t | Found(h, t) :: Sat(q, Grams(t))
  {
    q := Flatten(RawPlan(h));
    forall t | Found(h, t) ensures Sat(q, Grams(t)) {
      RawPlanSound(h, t);
    }
  }
}
