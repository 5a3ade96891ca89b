// How tight the query is: the sets kept per node stay within their bounds, an
// exact set is exactly the folded language of its node, and the query of a
// pattern tracked exactly is the best a trigram query can be.

module PlanTight {
  import opened Bytes
  import opened Trigrams
  import opened Plan
  import opened PlanSound
  import H = Hir

  // ------------------------------------------------------------ bounds

  ghost predicate Bounded(i: Info) {
    && |i.prefix| <= MAX_SET && |i.suffix| <= MAX_SET
    && (i.exact.Some? ==> |i.exact.value| <= MAX_SET && forall s | s in i.exact.value :: |s| <= MAX_STR)
  }

  /** No set outgrows its bound, and an exact string is at most 24 bytes. */
  lemma {:induction false} AnalyzeBounded(h: H.Node)
    ensures Bounded(Analyze(h))
  {
    SimplifyBounded(NodeInfo(h));
  }

  lemma SimplifyBounded(i: Info)
    ensures Bounded(Simplify(i))
  {
  }

  // ------------------------------------------------------------ the language of a node

  /** Every look-around holds everywhere. */
  function AllLooks(): H.Looks {
    (look, at) => true
  }

  /** `t` is a whole match of `h` in some context. */
  ghost predicate Denotes(h: H.Node, t: Bytes) {
    H.Matches(h, t, 0, |t|, AllLooks())
  }

  /** A match can be moved to any text that holds the same bytes. */
  lemma {:induction false} MatchMoves(h: H.Node, t: Bytes, i: nat, j: nat, u: Bytes, d: int)
    requires H.Matches(h, t, i, j, AllLooks())
    requires 0 <= i + d && j + d <= |u| && u[i + d..j + d] == t[i..j]
    ensures H.Matches(h, u, i + d, j + d, AllLooks())
    decreases h, 0
  {
    match h {
      case Empty =>
      case Look(_) =>
      case Literal(_) =>
      case ClassUnicode(_) =>
      case ClassBytes(_) =>
        assert u[i + d..j + d][0] == t[i..j][0];
      case Repetition(min, max, sub) =>
        var n: nat :| min <= n && (max.Some? ==> n <= max.value) && H.MatchesTimes(sub, n, t, i, j, AllLooks());
        TimesMoves(sub, n, t, i, j, u, d);
      case Capture(group) =>
        MatchMoves(group, t, i, j, u, d);
      case Concat(parts) =>
        SeqMoves(parts, t, i, j, u, d);
      case Alternation(first, rest) =>
        if H.Matches(first, t, i, j, AllLooks()) {
          MatchMoves(first, t, i, j, u, d);
        } else {
          var k :| 0 <= k < |rest| && H.Matches(rest[k], t, i, j, AllLooks());
          MatchMoves(rest[k], t, i, j, u, d);
        }
    }
  }

  lemma {:induction false} TimesMoves(h: H.Node, n: nat, t: Bytes, i: nat, j: nat, u: Bytes, d: int)
    requires H.MatchesTimes(h, n, t, i, j, AllLooks())
    requires 0 <= i + d && j + d <= |u| && u[i + d..j + d] == t[i..j]
    ensures H.MatchesTimes(h, n, u, i + d, j + d, AllLooks())
    decreases h, 1, n
  {
    if n > 0 {
      var k := FirstCopy(h, n, t, i, j, AllLooks());
      SplitSame(t, i, k, j, u, d);
      MatchMoves(h, t, i, k, u, d);
      TimesMoves(h, n - 1, t, k, j, u, d);
      var k': nat := k + d;
      assert H.Matches(h, u, i + d, k', AllLooks()) && H.MatchesTimes(h, n - 1, u, k', j + d, AllLooks());
    }
  }

  lemma {:induction false} SeqMoves(hs: seq<H.Node>, t: Bytes, i: nat, j: nat, u: Bytes, d: int)
    requires H.MatchesSeq(hs, t, i, j, AllLooks())
    requires 0 <= i + d && j + d <= |u| && u[i + d..j + d] == t[i..j]
    ensures H.MatchesSeq(hs, u, i + d, j + d, AllLooks())
    decreases hs, 0
  {
    if hs != [] {
      var k: nat :| H.Matches(hs[0], t, i, k, AllLooks()) && H.MatchesSeq(hs[1..], t, k, j, AllLooks());
      SplitSame(t, i, k, j, u, d);
      MatchMoves(hs[0], t, i, k, u, d);
      SeqMoves(hs[1..], t, k, j, u, d);
      var k': nat := k + d;
      assert H.Matches(hs[0], u, i + d, k', AllLooks()) && H.MatchesSeq(hs[1..], u, k', j + d, AllLooks());
    }
  }

  lemma SplitSame(t: Bytes, i: nat, k: nat, j: nat, u: Bytes, d: int)
    requires i <= k <= j <= |t| && 0 <= i + d && j + d <= |u| && u[i + d..j + d] == t[i..j]
    ensures u[i + d..k + d] == t[i..k] && u[k + d..j + d] == t[k..j]
  {
    SliceOfSlice(t, i, k, j);
    SliceOfSlice(u, i + d, k + d, j + d);
  }

  // ------------------------------------------------------------ exact sets

  /** A string of a small class is the folded form of one of its characters. */
  lemma {:induction false} CodePointsOnly(lo: nat, hi: int, s: Bytes) returns (c: H.Scalar)
    requires lo <= hi + 1 && CodePoints(lo, hi).Some? && s in CodePoints(lo, hi).value
    ensures lo <= c <= hi && s == Member(c)
    decreases hi + 1 - lo
  {
    if s == Member(hi) {
      c := hi;
    } else {
      c := CodePointsOnly(lo, hi - 1, s);
    }
  }

  lemma {:induction false} CharMembersOnly(rs: H.CharRanges, s: Bytes) returns (c: H.Scalar)
    requires CharMembers(rs).Some? && s in CharMembers(rs).value
    ensures H.InChars(rs, c) && s == Fold(H.Utf8(c))
  {
    var n := |rs| - 1;
    assert rs[n] in rs;
    if s in CharMembers(rs[..n]).value {
      c := CharMembersOnly(rs[..n], s);
      var r :| r in rs[..n] && r.start <= c <= r.end;
      assert r in rs;
    } else {
      c := CodePointsOnly(rs[n].start, rs[n].end, s);
    }
    MemberIsFoldedText(c);
  }

  lemma {:induction false} LowBytesOnly(lo: nat, hi: int, s: Bytes) returns (b: Byte)
    requires lo <= hi + 1 <= 256 && LowBytes(lo, hi).Some? && s in LowBytes(lo, hi).value
    ensures lo <= b <= hi && s == [FoldByte(b)]
    decreases hi + 1 - lo
  {
    if s == [FoldByte(hi)] {
      b := hi;
    } else {
      b := LowBytesOnly(lo, hi - 1, s);
    }
  }

  lemma {:induction false} ByteMembersOnly(rs: H.ByteRanges, s: Bytes) returns (b: Byte)
    requires ByteMembers(rs).Some? && s in ByteMembers(rs).value
    ensures H.InBytes(rs, b) && s == [FoldByte(b)]
  {
    var n := |rs| - 1;
    assert rs[n] in rs;
    if s in ByteMembers(rs[..n]).value {
      b := ByteMembersOnly(rs[..n], s);
      var r :| r in rs[..n] && r.start <= b <= r.end;
      assert r in rs;
    } else {
      b := LowBytesOnly(rs[n].start, rs[n].end, s);
    }
  }

  /** While a node is tracked exactly nothing else constrains it, and it has
      some string. */
  ghost predicate Tracked(i: Info) {
    i.exact.Some? ==> i.q == All && i.exact.value != []
  }

  /** Simplification keeps an exact set as it is, or drops it. */
  lemma SimplifyExact(i: Info)
    ensures Simplify(i).exact.Some? ==> Simplify(i).exact == i.exact
  {
  }

  lemma SimplifyTracked(i: Info)
    requires Tracked(i)
    ensures Tracked(Simplify(i))
  {
  }

  lemma ConcatTracked(a: Info, b: Info)
    requires Tracked(a) && Tracked(b)
    ensures Tracked(ConcatInfo(a, b))
  {
    var raw := ConcatRaw(a, b);
    RawTracked(a, b);
    SimplifyTracked(raw);
    SimplifyTracked(if raw.exact.Some? && |raw.exact.value| > MAX_SET then Simplify(raw) else raw);
  }

  lemma RawTracked(a: Info, b: Info)
    requires Tracked(a) && Tracked(b)
    ensures Tracked(ConcatRaw(a, b))
  {
    if a.exact.Some? && b.exact.Some? {
      assert IsProduct(a.exact.value[0] + b.exact.value[0], a.exact.value, b.exact.value);
    }
  }

  lemma AlternateTracked(a: Info, b: Info)
    requires Tracked(a) && Tracked(b)
    ensures Tracked(Alternate(a, b))
  {
    if a.exact.Some? && b.exact.Some? {
      assert a.exact.value[0] in Union(a.exact.value, b.exact.value);
    }
  }

  lemma {:induction false} AnalyzeTracked(h: H.Node)
    ensures Tracked(Analyze(h))
    decreases h, 1
  {
    NodeTracked(h);
    SimplifyTracked(NodeInfo(h));
  }

  lemma {:induction false} NodeTracked(h: H.Node)
    ensures Tracked(NodeInfo(h))
    decreases h, 0
  {
    match h {
      case Repetition(_, _, sub) => AnalyzeTracked(sub);
      case Capture(group) => AnalyzeTracked(group);
      case Concat(parts) => ConcatAllTracked(Exactly(true, EMPTY_STRING), parts);
      case Alternation(first, rest) =>
        AnalyzeTracked(first);
        AlternateAllTracked(Analyze(first), rest);
      case _ =>
    }
  }

  lemma {:induction false} ConcatAllTracked(acc: Info, hs: seq<H.Node>)
    requires Tracked(acc)
    ensures Tracked(ConcatAll(acc, hs))
    decreases hs, 0
  {
    if hs != [] {
      AnalyzeTracked(hs[0]);
      ConcatTracked(acc, Analyze(hs[0]));
      ConcatAllTracked(ConcatInfo(acc, Analyze(hs[0])), hs[1..]);
    }
  }

  lemma {:induction false} AlternateAllTracked(acc: Info, hs: seq<H.Node>)
    requires Tracked(acc)
    ensures Tracked(AlternateAll(acc, hs))
    decreases hs, 0
  {
    if hs != [] {
      AnalyzeTracked(hs[0]);
      AlternateTracked(acc, Analyze(hs[0]));
      AlternateAllTracked(Alternate(acc, Analyze(hs[0])), hs[1..]);
    }
  }

  lemma WholeText(t: Bytes)
    ensures t[0..|t|] == t
  {
  }

  lemma DenotedOnce(sub: H.Node, t: Bytes)
    requires Denotes(sub, t)
    ensures Denotes(H.Repetition(1, Some(1), sub), t)
  {
    assert H.MatchesTimes(sub, 0, t, |t|, |t|, AllLooks());
    assert H.MatchesTimes(sub, 1, t, 0, |t|, AllLooks());
  }

  lemma LeafDenoted(h: H.Node, s: Bytes) returns (t: Bytes)
    requires h.Empty? || h.Look? || h.Literal? || h.ClassUnicode? || h.ClassBytes?
    requires NodeInfo(h).exact.Some? && s in NodeInfo(h).exact.value
    ensures Denotes(h, t) && Fold(t) == s
  {
    match h {
      case Empty => t := [];
      case Look(_) => t := [];
      case Literal(lit) =>
        t := lit;
        WholeText(t);
      case ClassUnicode(rs) =>
        var c := CharMembersOnly(rs, s);
        t := H.Utf8(c);
        WholeText(t);
      case ClassBytes(rs) =>
        var b := ByteMembersOnly(rs, s);
        t := [b];
    }
  }

  /** Every exact string is the folded form of a text the node matches. */
  lemma {:induction false} ExactIsDenoted(h: H.Node, s: Bytes) returns (t: Bytes)
    requires Analyze(h).exact.Some? && s in Analyze(h).exact.value
    ensures Denotes(h, t) && Fold(t) == s
    decreases h, 1
  {
    SimplifyExact(NodeInfo(h));
    t := NodeDenoted(h, s);
  }

  lemma {:induction false} NodeDenoted(h: H.Node, s: Bytes) returns (t: Bytes)
    requires NodeInfo(h).exact.Some? && s in NodeInfo(h).exact.value
    ensures Denotes(h, t) && Fold(t) == s
    decreases h, 0
  {
    match h {
      case Repetition(min, max, sub) =>
        t := ExactIsDenoted(sub, s);
        DenotedOnce(sub, t);
      case Capture(group) =>
        t := ExactIsDenoted(group, s);
      case Concat(parts) =>
        var x;
        x, t := ConcatAllDenoted(Exactly(true, EMPTY_STRING), parts, s);
      case Alternation(first, rest) =>
        var k := AlternateAllSource(Analyze(first), rest, s);
        if k == |rest| {
          t := ExactIsDenoted(first, s);
        } else {
          t := ExactIsDenoted(rest[k], s);
        }
      case _ =>
        t := LeafDenoted(h, s);
    }
  }

  lemma ConcatExact(a: Info, b: Info, s: Bytes) returns (x: Bytes, y: Bytes)
    requires ConcatInfo(a, b).exact.Some? && s in ConcatInfo(a, b).exact.value
    ensures a.exact.Some? && x in a.exact.value && b.exact.Some? && y in b.exact.value && s == x + y
  {
    var raw := ConcatRaw(a, b);
    SimplifyExact(raw);
    SimplifyExact(if raw.exact.Some? && |raw.exact.value| > MAX_SET then Simplify(raw) else raw);
    assert IsProduct(s, a.exact.value, b.exact.value);
    x, y :| x in a.exact.value && y in b.exact.value && s == x + y;
  }

  lemma {:induction false} DenotedThen(h: H.Node, hs: seq<H.Node>, v: Bytes, u: Bytes)
    requires hs != [] && h == hs[0]
    requires Denotes(h, v) && H.MatchesSeq(hs[1..], u, 0, |u|, AllLooks())
    ensures H.MatchesSeq(hs, v + u, 0, |v + u|, AllLooks())
  {
    var t := v + u;
    assert t[0..|v|] == v[0..|v|] && t[|v|..|t|] == u[0..|u|];
    MatchMoves(h, v, 0, |v|, t, 0);
    SeqMoves(hs[1..], u, 0, |u|, t, |v|);
  }

  lemma {:induction false} ConcatAllDenoted(acc: Info, hs: seq<H.Node>, s: Bytes) returns (x: Bytes, t: Bytes)
    requires ConcatAll(acc, hs).exact.Some? && s in ConcatAll(acc, hs).exact.value
    ensures acc.exact.Some? && x in acc.exact.value
    ensures s == x + Fold(t) && H.MatchesSeq(hs, t, 0, |t|, AllLooks())
    decreases hs, 0
  {
    if hs == [] {
      x, t := s, [];
    } else {
      var y, u := ConcatAllDenoted(ConcatInfo(acc, Analyze(hs[0])), hs[1..], s);
      x, t := ConcatStep(acc, hs, y, u);
    }
  }

  lemma {:induction false} ConcatStep(acc: Info, hs: seq<H.Node>, y: Bytes, u: Bytes) returns (x: Bytes, t: Bytes)
    requires hs != []
    requires ConcatInfo(acc, Analyze(hs[0])).exact.Some? && y in ConcatInfo(acc, Analyze(hs[0])).exact.value
    requires H.MatchesSeq(hs[1..], u, 0, |u|, AllLooks())
    ensures acc.exact.Some? && x in acc.exact.value
    ensures y + Fold(u) == x + Fold(t) && H.MatchesSeq(hs, t, 0, |t|, AllLooks())
    decreases hs[0], 2
  {
    var z;
    x, z := ConcatExact(acc, Analyze(hs[0]), y);
    var v := ExactIsDenoted(hs[0], z);
    t := v + u;
    FoldAfter(x, z, v, u);
    DenotedThen(hs[0], hs, v, u);
  }

  lemma FoldAfter(x: Bytes, z: Bytes, v: Bytes, u: Bytes)
    requires Fold(v) == z
    ensures x + z + Fold(u) == x + Fold(v + u)
  {
    FoldConcat(v, u);
    assert x + z + Fold(u) == x + (z + Fold(u));
  }

  ghost predicate IsExactly(i: Info, s: Bytes) {
    i.exact.Some? && s in i.exact.value
  }

  lemma AlternateExact(a: Info, b: Info, s: Bytes)
    requires IsExactly(Alternate(a, b), s)
    ensures IsExactly(a, s) || IsExactly(b, s)
  {
  }

  /** Infos put together one after the other. */
  function Folded(f: (Info, Info) -> Info, acc: Info, bs: seq<Info>): Info
    decreases |bs|
  {
    if bs == [] then acc else Folded(f, f(acc, bs[0]), bs[1..])
  }

  function Infos(hs: seq<H.Node>): seq<Info> {
    seq(|hs|, i requires 0 <= i < |hs| => Analyze(hs[i]))
  }

  lemma {:induction false} AlternateAnalyzed(acc: Info, hs: seq<H.Node>)
    ensures AlternateAll(acc, hs) == Folded(Alternate, acc, Infos(hs))
    decreases |hs|
  {
    if hs != [] {
      assert Infos(hs)[0] == Analyze(hs[0]) && Infos(hs)[1..] == Infos(hs[1..]);
      AlternateAnalyzed(Alternate(acc, Analyze(hs[0])), hs[1..]);
    }
  }

  /** `k` tells where `s` comes from: an alternative, or the first one at the end. */
  ghost predicate ComesFrom(acc: Info, bs: seq<Info>, s: Bytes, k: nat) {
    k <= |bs| && if k == |bs| then IsExactly(acc, s) else IsExactly(bs[k], s)
  }

  /** What is exact of the whole comes from one of its parts. */
  lemma {:induction false} FoldedSource(f: (Info, Info) -> Info, acc: Info, bs: seq<Info>, s: Bytes) returns (k: nat)
    requires IsExactly(Folded(f, acc, bs), s)
    requires forall a, b | IsExactly(f(a, b), s) :: IsExactly(a, s) || IsExactly(b, s)
    ensures ComesFrom(acc, bs, s, k)
    decreases |bs|
  {
    if bs == [] {
      k := 0;
    } else {
      k := FoldedSource(f, f(acc, bs[0]), bs[1..], s);
      if k < |bs| - 1 {
        k := k + 1;
      } else {
        k := if IsExactly(acc, s) then |bs| else 0;
      }
    }
  }

  lemma AlternateAllSource(acc: Info, hs: seq<H.Node>, s: Bytes) returns (k: nat)
    requires AlternateAll(acc, hs).exact.Some? && s in AlternateAll(acc, hs).exact.value
    ensures k <= |hs|
    ensures k == |hs| ==> acc.exact.Some? && s in acc.exact.value
    ensures k < |hs| ==> Analyze(hs[k]).exact.Some? && s in Analyze(hs[k]).exact.value
  {
    AlternateAnalyzed(acc, hs);
    forall a, b | IsExactly(Alternate(a, b), s) ensures IsExactly(a, s) || IsExactly(b, s) {
      AlternateExact(a, b, s);
    }
    k := FoldedSource(Alternate, acc, Infos(hs), s);
  }

  /** An exact set is exactly the folded language of its node. */
  lemma {:induction false} ExactIsLanguage(h: H.Node, s: Bytes)
    requires Analyze(h).exact.Some?
    ensures s in Analyze(h).exact.value <==> exists t :: Denotes(h, t) && Fold(t) == s
  {
    if s in Analyze(h).exact.value {
      var t := ExactIsDenoted(h, s);
    }
    if t :| Denotes(h, t) && Fold(t) == s {
      AnalyzeSound(h, t, 0, |t|, AllLooks());
      WholeText(t);
    }
  }

  // ------------------------------------------------------------ the query

  lemma {:induction false} SatMonotone(q: Q, small: set<nat>, big: set<nat>)
    requires small <= big && Sat(q, small)
    ensures Sat(q, big)
  {
    match q {
      case All =>
      case Nothing =>
      case Gram(_) =>
      case And(qs) =>
        forall x | x in qs ensures Sat(x, big) {
          SatMonotone(x, small, big);
        }
      case Or(qs) =>
        var x :| x in qs && Sat(x, small);
        SatMonotone(x, small, big);
    }
  }

  /** A pattern tracked exactly gets the tightest query trigrams allow: it holds
      of a file exactly when the file has every trigram of some text of the
      pattern's language. */
  lemma {:induction false} PlanTightest(h: H.Node, g: set<nat>)
    requires Analyze(h).exact.Some?
    ensures Sat(RawPlan(h), g) <==> exists t :: Denotes(h, t) && Grams(t) <= g
  {
    var i := Analyze(h);
    AnalyzeTracked(h);
    AndQMeans(i.q, TrigramsOf(i.exact.value), g);
    TrigramsOfMeans(i.exact.value, g);
    if s :| s in i.exact.value && Grams(s) <= g {
      var t := ExactIsDenoted(h, s);
      FoldIdempotent(t);
      assert Grams(t) == Grams(s);
    }
    if t :| Denotes(h, t) && Grams(t) <= g {
      RawPlanSound(h, t);
      SatMonotone(RawPlan(h), Grams(t), g);
    }
  }
}
