// The import graph (crates/greeg-index/src/symtab.rs): edges are sorted, equal
// ones merged, and laid out as two compressed sparse rows, one by source and one
// by target, that are exact transposes of each other; then written and read back.

module Graph {
  import opened Bytes
  import opened Trigrams
  import F = Format
  import K = Rank
  import P = Packed

  const NONE := 0xFFFF_FFFF
  const MAX_WEIGHT := 65535

  type Weight = w: int | 0 <= w <= MAX_WEIGHT

  datatype Edge = Edge(from: nat, to: nat, w: Weight)

  predicate PairBefore(a: Edge, b: Edge) {
    a.from < b.from || (a.from == b.from && a.to < b.to)
  }

  predicate EdgeBefore(a: Edge, b: Edge) {
    PairBefore(a, b) || (a.from == b.from && a.to == b.to && a.w < b.w)
  }

  function SaturatingAdd(a: Weight, b: Weight): Weight {
    if a + b > MAX_WEIGHT then MAX_WEIGHT else a + b
  }

  // ------------------------------------------------------------ sorting

  ghost predicate Ordered(es: seq<Edge>) {
    forall i, j | 0 <= i < j < |es| :: !EdgeBefore(es[j], es[i])
  }

  lemma ConsOrdered(e: Edge, es: seq<Edge>)
    requires Ordered(es) && forall i | 0 <= i < |es| :: !EdgeBefore(es[i], e)
    ensures Ordered([e] + es)
  {
  }

  function InsertEdge(es: seq<Edge>, e: Edge): (r: seq<Edge>)
    requires Ordered(es)
    ensures Ordered(r)
    ensures forall x :: x in r <==> x == e || x in es
  {
    if es == [] then [e]
    else if !EdgeBefore(es[0], e) then
      ConsOrdered(e, es);
      [e] + es
    else
      assert es == [es[0]] + es[1..];
      var rest := InsertEdge(es[1..], e);
      assert forall i | 0 <= i < |rest| :: !EdgeBefore(rest[i], es[0]) by {
        forall i | 0 <= i < |rest| ensures !EdgeBefore(rest[i], es[0]) {
          assert rest[i] == e || rest[i] in es[1..];
        }
      }
      ConsOrdered(es[0], rest);
      [es[0]] + rest
  }

  /** `sort_unstable`. */
  function SortEdges(es: seq<Edge>): (r: seq<Edge>)
    ensures Ordered(r)
    ensures forall x :: x in r <==> x in es
  {
    if es == [] then []
    else
      assert es == [es[0]] + es[1..];
      InsertEdge(SortEdges(es[1..]), es[0])
  }

  // ------------------------------------------------------------ merging

  predicate SamePair(a: Edge, b: Edge) {
    a.from == b.from && a.to == b.to
  }

  /** `dedup_by`: a run of edges between the same files becomes one. */
  function MergeRun(last: Edge, es: seq<Edge>): seq<Edge>
    decreases |es|
  {
    if es == [] then [last]
    else if SamePair(last, es[0]) then MergeRun(last.(w := SaturatingAdd(last.w, es[0].w)), es[1..])
    else [last] + MergeRun(es[0], es[1..])
  }

  function MergeEdges(es: seq<Edge>): seq<Edge> {
    if es == [] then [] else MergeRun(es[0], es[1..])
  }

  /** The weights of all edges between two files. */
  function TotalWeight(es: seq<Edge>, f: nat, t: nat): nat {
    if es == [] then 0
    else (if es[0].from == f && es[0].to == t then es[0].w else 0) + TotalWeight(es[1..], f, t)
  }

  ghost predicate Linked(es: seq<Edge>, f: nat, t: nat) {
    exists i :: 0 <= i < |es| && es[i].from == f && es[i].to == t
  }

  ghost predicate PairsAscending(es: seq<Edge>) {
    forall i, j | 0 <= i < j < |es| :: PairBefore(es[i], es[j])
  }

  function Capped(w: nat): nat {
    if w > MAX_WEIGHT then MAX_WEIGHT else w
  }

  /** `m` is `es` with the edges of each pair merged: one edge per pair, in
      order, whose weight is the pair's total, capped. */
  ghost predicate Merges(m: seq<Edge>, es: seq<Edge>) {
    && PairsAscending(m)
    && (forall f: nat, t: nat :: Linked(m, f, t) <==> Linked(es, f, t))
    && (forall i | 0 <= i < |m| :: m[i].w == Capped(TotalWeight(es, m[i].from, m[i].to)))
  }

  lemma LinkedCons(e: Edge, es: seq<Edge>, f: nat, t: nat)
    ensures Linked([e] + es, f, t) <==> (e.from == f && e.to == t) || Linked(es, f, t)
  {
    var all := [e] + es;
    if e.from == f && e.to == t {
      assert all[0] == e;
    }
    if Linked(es, f, t) {
      var i :| 0 <= i < |es| && es[i].from == f && es[i].to == t;
      assert all[i + 1] == es[i];
    }
    if Linked(all, f, t) {
      var i :| 0 <= i < |all| && all[i].from == f && all[i].to == t;
      assert 0 < i ==> es[i - 1] == all[i];
    }
  }

  /** A pair that comes before every edge has no weight among them. */
  lemma {:induction false} NoWeight(es: seq<Edge>, f: nat, t: nat)
    requires !Linked(es, f, t)
    ensures TotalWeight(es, f, t) == 0
  {
    if es != [] {
      assert es == [es[0]] + es[1..];
      LinkedCons(es[0], es[1..], f, t);
      NoWeight(es[1..], f, t);
    }
  }

  lemma {:induction false} SameTotal(es: seq<Edge>, a: Edge, b: Edge, f: nat, t: nat)
    requires SamePair(a, b)
    ensures Capped(TotalWeight([a.(w := SaturatingAdd(a.w, b.w))] + es, f, t)) == Capped(TotalWeight([a, b] + es, f, t))
  {
    var merged := a.(w := SaturatingAdd(a.w, b.w));
    assert ([merged] + es)[1..] == es;
    assert ([a, b] + es)[1..] == [b] + es && ([b] + es)[1..] == es;
  }

  /** `last` is of the first pair, or before it. */
  ghost predicate Leads(last: Edge, es: seq<Edge>) {
    Ordered(es) && forall i | 0 <= i < |es| :: SamePair(last, es[i]) || PairBefore(last, es[i])
  }

  lemma HeadLeads(last: Edge, es: seq<Edge>)
    requires Ordered([last] + es)
    ensures Leads(last, es)
  {
    var all := [last] + es;
    assert forall i | 0 <= i < |es| :: es[i] == all[i + 1] && !EdgeBefore(all[i + 1], all[0]);
  }

  lemma MergeSame(last: Edge, es: seq<Edge>, m: seq<Edge>)
    requires es != [] && SamePair(last, es[0])
    requires Merges(m, [last.(w := SaturatingAdd(last.w, es[0].w))] + es[1..])
    ensures Merges(m, [last] + es)
  {
    var merged, all := last.(w := SaturatingAdd(last.w, es[0].w)), [last] + es;
    assert all == [last, es[0]] + es[1..] && es == [es[0]] + es[1..];
    forall f: nat, t: nat
      ensures Linked(m, f, t) <==> Linked(all, f, t)
      ensures Capped(TotalWeight([merged] + es[1..], f, t)) == Capped(TotalWeight(all, f, t))
    {
      SameTotal(es[1..], last, es[0], f, t);
      LinkedCons(merged, es[1..], f, t);
      LinkedCons(last, es, f, t);
      LinkedCons(es[0], es[1..], f, t);
    }
  }

  lemma {:induction false} MergeRunMeans(last: Edge, es: seq<Edge>)
    requires Leads(last, es)
    ensures Merges(MergeRun(last, es), [last] + es)
    ensures MergeRun(last, es) != [] && SamePair(MergeRun(last, es)[0], last)
    decreases |es|
  {
    if es == [] {
      assert ([last] + es)[1..] == [];
    } else if SamePair(last, es[0]) {
      MergeRunMeans(last.(w := SaturatingAdd(last.w, es[0].w)), es[1..]);
      MergeSame(last, es, MergeRun(last, es));
    } else {
      assert es == [es[0]] + es[1..];
      HeadLeads(es[0], es[1..]);
      MergeRunMeans(es[0], es[1..]);
      MergeApart(last, es, MergeRun(es[0], es[1..]));
    }
  }

  /** An edge before all others keeps its own weight. */
  lemma MergeApart(last: Edge, es: seq<Edge>, m: seq<Edge>)
    requires Merges(m, es) && m != [] && es != [] && PairBefore(last, es[0]) && SamePair(m[0], es[0])
    ensures Merges([last] + m, [last] + es)
  {
    var all, r := [last] + es, [last] + m;
    assert all[1..] == es;
    forall i, j | 0 <= i < j < |r| ensures PairBefore(r[i], r[j]) {
      assert r[j] == m[j - 1];
      assert 0 < j - 1 ==> PairBefore(m[0], m[j - 1]);
      assert 0 < i ==> r[i] == m[i - 1];
    }
    forall f: nat, t: nat ensures Linked(r, f, t) <==> Linked(all, f, t) {
      LinkedCons(last, es, f, t);
      LinkedCons(last, m, f, t);
    }
    assert forall k | 0 <= k < |m| :: r[k + 1] == m[k] && PairBefore(last, m[k]);
    assert !Linked(m, last.from, last.to);
    NoWeight(es, last.from, last.to);
    forall i | 0 <= i < |r| ensures r[i].w == Capped(TotalWeight(all, r[i].from, r[i].to)) {
      if 0 < i {
        assert r[i] == m[i - 1] && PairBefore(r[0], r[i]);
      }
    }
  }

  lemma {:induction false} LinkedUpToOrder(a: seq<Edge>, b: seq<Edge>, f: nat, t: nat)
    requires forall x :: x in a <==> x in b
    ensures Linked(a, f, t) ==> Linked(b, f, t)
  {
    if Linked(a, f, t) {
      var i :| 0 <= i < |a| && a[i].from == f && a[i].to == t;
      assert a[i] in b;
      var j :| 0 <= j < |b| && b[j] == a[i];
    }
  }

  lemma {:induction false} InsertWeight(es: seq<Edge>, e: Edge, f: nat, t: nat)
    requires Ordered(es)
    ensures TotalWeight(InsertEdge(es, e), f, t) == TotalWeight([e] + es, f, t)
  {
    assert ([e] + es)[1..] == es;
    if es != [] && EdgeBefore(es[0], e) {
      InsertWeight(es[1..], e, f, t);
      assert ([e] + es[1..])[1..] == es[1..];
      assert InsertEdge(es, e)[1..] == InsertEdge(es[1..], e);
    }
  }

  lemma {:induction false} SortWeight(es: seq<Edge>, f: nat, t: nat)
    ensures TotalWeight(SortEdges(es), f, t) == TotalWeight(es, f, t)
  {
    if es != [] {
      SortWeight(es[1..], f, t);
      InsertWeight(SortEdges(es[1..]), es[0], f, t);
      assert ([es[0]] + SortEdges(es[1..]))[1..] == SortEdges(es[1..]);
    }
  }

  /** Sorted and merged: one edge per linked pair, carrying its capped total. */
  lemma {:induction false} SortMergeMeans(es: seq<Edge>)
    ensures Merges(MergeEdges(SortEdges(es)), es)
  {
    var sorted := SortEdges(es);
    var m := MergeEdges(sorted);
    if sorted != [] {
      assert sorted == [sorted[0]] + sorted[1..];
      HeadLeads(sorted[0], sorted[1..]);
      MergeRunMeans(sorted[0], sorted[1..]);
    }
    forall f: nat, t: nat ensures Linked(sorted, f, t) <==> Linked(es, f, t) {
      LinkedUpToOrder(sorted, es, f, t);
      LinkedUpToOrder(es, sorted, f, t);
    }
    forall f: nat, t: nat ensures TotalWeight(sorted, f, t) == TotalWeight(es, f, t) {
      SortWeight(es, f, t);
    }
  }

  /** Merging leaves no more edges than there were. */
  lemma {:induction false} InsertLength(es: seq<Edge>, e: Edge)
    requires Ordered(es)
    ensures |InsertEdge(es, e)| == |es| + 1
  {
    if es != [] && EdgeBefore(es[0], e) {
      InsertLength(es[1..], e);
    }
  }

  lemma {:induction false} SortLength(es: seq<Edge>)
    ensures |SortEdges(es)| == |es|
  {
    if es != [] {
      SortLength(es[1..]);
      InsertLength(SortEdges(es[1..]), es[0]);
    }
  }

  lemma {:induction false} MergeShortens(last: Edge, es: seq<Edge>)
    ensures |MergeRun(last, es)| <= |es| + 1
    decreases |es|
  {
    if es != [] {
      MergeShortens(last.(w := SaturatingAdd(last.w, es[0].w)), es[1..]);
      MergeShortens(es[0], es[1..]);
    }
  }

  lemma {:induction false} MergedLength(es: seq<Edge>)
    ensures |MergeEdges(SortEdges(es))| <= |es|
  {
    SortLength(es);
    if es != [] {
      MergeShortens(SortEdges(es)[0], SortEdges(es)[1..]);
    }
  }

  // ------------------------------------------------------------ rows

  function CountOf(ks: seq<nat>, k: nat): nat {
    if ks == [] then 0 else CountOf(ks[..|ks| - 1], k) + if ks[|ks| - 1] == k then 1 else 0
  }

  function CountBelow(ks: seq<nat>, k: nat): nat {
    if k == 0 then 0 else CountBelow(ks, k - 1) + CountOf(ks, k - 1)
  }

  lemma {:induction false} CountAppend(ks: seq<nat>, x: nat, k: nat)
    ensures CountOf(ks + [x], k) == CountOf(ks, k) + if x == k then 1 else 0
  {
    assert (ks + [x])[..|ks|] == ks;
  }

  lemma {:induction false} CountBelowAppend(ks: seq<nat>, x: nat, k: nat)
    ensures CountBelow(ks + [x], k) == CountBelow(ks, k) + if x < k then 1 else 0
  {
    if k > 0 {
      CountBelowAppend(ks, x, k - 1);
      CountAppend(ks, x, k - 1);
    }
  }

  lemma {:induction false} CountBelowAll(ks: seq<nat>, n: nat)
    requires forall i | 0 <= i < |ks| :: ks[i] < n
    ensures CountBelow(ks, n) == |ks|
  {
    if ks == [] {
      CountBelowNone(n);
    } else {
      var m := |ks| - 1;
      CountBelowAll(ks[..m], n);
      assert ks == ks[..m] + [ks[m]];
      CountBelowAppend(ks[..m], ks[m], n);
    }
  }

  lemma {:induction false} CountBelowNone(n: nat)
    ensures CountBelow([], n) == 0
  {
    if n > 0 {
      CountBelowNone(n - 1);
    }
  }

  lemma {:induction false} CountBelowMonotone(ks: seq<nat>, a: nat, b: nat)
    requires a <= b
    ensures CountBelow(ks, a) <= CountBelow(ks, b)
    decreases b
  {
    if a < b {
      CountBelowMonotone(ks, a, b - 1);
    }
  }

  /** The counts of all rows, each one place after its row. */
  ghost predicate Counts(off: seq<nat>, ks: seq<nat>) {
    |off| > 0 && off[0] == 0 && forall k | 0 <= k < |off| :: CountedAt(off, ks, k)
  }

  ghost predicate CountedAt(off: seq<nat>, ks: seq<nat>, k: nat) {
    k > 0 ==> k < |off| && off[k] == CountOf(ks, k - 1)
  }

  /** Summed up to `i`, counts after it. */
  ghost predicate SummedTo(off: seq<nat>, ks: seq<nat>, i: nat) {
    && i < |off|
    && (forall k | 0 <= k <= i :: off[k] == CountBelow(ks, k))
    && (forall k | i < k < |off| :: CountedAt(off, ks, k))
  }

  lemma SumStep(off: seq<nat>, ks: seq<nat>, i: nat)
    requires SummedTo(off, ks, i) && i + 1 < |off|
    ensures SummedTo(off[i + 1 := off[i + 1] + off[i]], ks, i + 1)
  {
    assert CountedAt(off, ks, i + 1);
    var now := off[i + 1 := off[i + 1] + off[i]];
    forall k | i + 1 < k < |now| ensures CountedAt(now, ks, k) {
      assert CountedAt(off, ks, k);
    }
  }

  method CountRows(ks: seq<nat>, n: nat) returns (off: array<nat>)
    requires forall i | 0 <= i < |ks| :: ks[i] < n
    ensures fresh(off) && off.Length == n + 1 && Counts(off[..], ks)
  {
    off := new nat[n + 1](_ => 0);
    for i := 0 to |ks|
      invariant Counts(off[..], ks[..i])
    {
      CountsStep(off[..], ks, i);
      off[ks[i] + 1] := off[ks[i] + 1] + 1;
    }
    assert ks[..|ks|] == ks;
  }

  /** Where each row starts: count, then running sums. */
  method RowOffsets(ks: seq<nat>, n: nat) returns (off: array<nat>)
    requires forall i | 0 <= i < |ks| :: ks[i] < n
    ensures fresh(off) && off.Length == n + 1
    ensures AreOffsets(ks, n, off[..])
  {
    off := CountRows(ks, n);
    assert CountBelow(ks, 0) == 0;
    for i := 0 to n
      invariant SummedTo(off[..], ks, i)
    {
      SumStep(off[..], ks, i);
      off[i + 1] := off[i + 1] + off[i];
    }
  }

  lemma CountsStep(off: seq<nat>, ks: seq<nat>, i: nat)
    requires i < |ks| && ks[i] + 1 < |off| && Counts(off, ks[..i])
    ensures Counts(off[ks[i] + 1 := off[ks[i] + 1] + 1], ks[..i + 1])
  {
    var now := off[ks[i] + 1 := off[ks[i] + 1] + 1];
    assert ks[..i + 1] == ks[..i] + [ks[i]];
    forall k: nat {:trigger CountedAt(now, ks[..i + 1], k)} | k < |now| ensures CountedAt(now, ks[..i + 1], k) {
      assert CountedAt(off, ks[..i], k);
      if k > 0 {
        CountAppend(ks[..i], ks[i], k - 1);
      }
    }
  }

  function Froms(es: seq<Edge>): seq<nat> {
    seq(|es|, i requires 0 <= i < |es| => es[i].from)
  }

  function Tos(es: seq<Edge>): seq<nat> {
    seq(|es|, i requires 0 <= i < |es| => es[i].to)
  }

  /** The sources of the edges into `t`, in edge order. */
  function Sources(es: seq<Edge>, t: nat): (r: seq<nat>)
    ensures |r| == CountOf(Tos(es), t)
  {
    if es == [] then []
    else
      var n := |es| - 1;
      assert Tos(es)[..n] == Tos(es[..n]);
      Sources(es[..n], t) + if es[n].to == t then [es[n].from] else []
  }

  /** Row `k` of a table with these offsets; nothing when they do not fit. */
  function Row(vs: seq<nat>, off: seq<nat>, k: nat): seq<nat> {
    if k + 1 < |off| && off[k] <= off[k + 1] <= |vs| then vs[off[k]..off[k + 1]] else []
  }

  lemma {:induction false} CountPrefix(ks: seq<nat>, i: nat, k: nat)
    requires i <= |ks|
    ensures CountOf(ks[..i], k) <= CountOf(ks, k)
    decreases |ks| - i
  {
    if i < |ks| {
      assert ks[..i + 1] == ks[..i] + [ks[i]];
      CountAppend(ks[..i], ks[i], k);
      CountPrefix(ks, i + 1, k);
    } else {
      assert ks[..i] == ks;
    }
  }

  /** How far row `t` is filled once the first `i` edges are placed. */
  ghost predicate Filled(es: seq<Edge>, i: nat, n: nat, inFrom: seq<nat>, off: seq<nat>, fill: seq<nat>)
    requires i <= |es|
  {
    && |off| == |fill| == n + 1 && |inFrom| == |es|
    && (forall t: nat | t < n :: off[t] <= fill[t] <= |inFrom| && inFrom[off[t]..fill[t]] == Sources(es[..i], t))
  }

  ghost predicate AreOffsets(ks: seq<nat>, n: nat, off: seq<nat>) {
    |off| == n + 1 && forall k | 0 <= k <= n :: off[k] == CountBelow(ks, k)
  }

  lemma RowBounds(es: seq<Edge>, n: nat, off: seq<nat>, x: nat, y: nat)
    requires AreOffsets(Tos(es), n, off) && x < y <= n
    requires forall i | 0 <= i < |es| :: es[i].to < n
    ensures off[x] + CountOf(Tos(es), x) == off[x + 1] <= off[y] <= |es|
  {
    CountBelowAll(Tos(es), n);
    CountBelowMonotone(Tos(es), x + 1, y);
    CountBelowMonotone(Tos(es), y, n);
  }

  /** Placing edge `i` extends the row of its target and leaves the others. */
  lemma FillStep(es: seq<Edge>, i: nat, n: nat, inFrom: seq<nat>, off: seq<nat>, fill: seq<nat>)
    requires i < |es| && forall k | 0 <= k < |es| :: es[k].to < n
    requires AreOffsets(Tos(es), n, off) && Filled(es, i, n, inFrom, off, fill)
    ensures var t, p := es[i].to, fill[es[i].to];
      p < |es| && Filled(es, i + 1, n, inFrom[p := es[i].from], off, fill[t := p + 1])
  {
    var f, t := es[i].from, es[i].to;
    var p := fill[t];
    RowHasPlace(es, i, n, inFrom, off, fill);
    var now, full := inFrom[p := f], fill[t := p + 1];
    forall x: nat | x < n
      ensures off[x] <= full[x] <= |now| && now[off[x]..full[x]] == Sources(es[..i + 1], x)
    {
      if x == t {
        assert now[off[t]..p + 1] == inFrom[off[t]..p] + [f];
      } else {
        RowApart(es, i, n, inFrom, off, fill, x);
        assert now[off[x]..fill[x]] == inFrom[off[x]..fill[x]];
      }
    }
  }

  /** The row of edge `i` has a place left for it. */
  lemma RowHasPlace(es: seq<Edge>, i: nat, n: nat, inFrom: seq<nat>, off: seq<nat>, fill: seq<nat>)
    requires i < |es| && forall k | 0 <= k < |es| :: es[k].to < n
    requires AreOffsets(Tos(es), n, off) && Filled(es, i, n, inFrom, off, fill)
    ensures var t := es[i].to;
      && off[t] <= fill[t] < off[t + 1] <= |es|
      && Sources(es[..i + 1], t) == Sources(es[..i], t) + [es[i].from]
  {
    var t := es[i].to;
    RowBounds(es, n, off, t, t + 1);
    assert Tos(es)[..i + 1] == Tos(es[..i + 1]) && es[..i + 1][..i] == es[..i];
    assert es[..i + 1][i] == es[i];
    assert Sources(es[..i + 1], t) == Sources(es[..i], t) + [es[i].from];
    assert |Sources(es[..i], t)| == fill[t] - off[t];
    CountPrefix(Tos(es), i + 1, t);
  }

  /** The filled part of another row does not reach the place of edge `i`. */
  lemma {:induction false} RowApart(es: seq<Edge>, i: nat, n: nat, inFrom: seq<nat>, off: seq<nat>, fill: seq<nat>,
                                    x: nat)
    requires i < |es| && forall k | 0 <= k < |es| :: es[k].to < n
    requires AreOffsets(Tos(es), n, off) && Filled(es, i, n, inFrom, off, fill)
    requires x < n && x != es[i].to
    ensures fill[x] <= fill[es[i].to] || fill[es[i].to] < off[x]
    ensures Sources(es[..i + 1], x) == Sources(es[..i], x)
  {
    var t := es[i].to;
    RowBounds(es, n, off, x, x + 1);
    assert es[..i + 1][..i] == es[..i];
    assert Tos(es)[..i] == Tos(es[..i]) && Tos(es)[..i + 1] == Tos(es[..i + 1]);
    CountPrefix(Tos(es), i, x);
    CountPrefix(Tos(es), i + 1, t);
    RowBounds(es, n, off, t, t + 1);
    assert |Sources(es[..i + 1], t)| == |Sources(es[..i], t)| + 1;
    if x < t {
      RowBounds(es, n, off, x, t);
    } else {
      RowBounds(es, n, off, t, x);
    }
  }

  method Cloned(a: array<nat>) returns (b: array<nat>)
    ensures fresh(b) && b[..] == a[..]
  {
    b := new nat[a.Length];
    for k := 0 to a.Length
      invariant b[..k] == a[..k]
    {
      b[k] := a[k];
    }
  }

  /** Each edge's source, into the next place of its target's row. */
  method PlaceSources(es: seq<Edge>, n: nat, ghost off: seq<nat>, inFrom: array<nat>, fill: array<nat>)
    requires inFrom != fill && forall i | 0 <= i < |es| :: es[i].from < n && es[i].to < n
    requires AreOffsets(Tos(es), n, off) && Filled(es, 0, n, inFrom[..], off, fill[..])
    requires forall k | 0 <= k < inFrom.Length :: inFrom[k] < n
    modifies inFrom, fill
    ensures Filled(es, |es|, n, inFrom[..], off, fill[..])
    ensures forall k | 0 <= k < inFrom.Length :: inFrom[k] < n
  {
    for i := 0 to |es|
      invariant Filled(es, i, n, inFrom[..], off, fill[..])
      invariant forall k | 0 <= k < inFrom.Length :: inFrom[k] < n
    {
      var f, t := es[i].from, es[i].to;
      FillStep(es, i, n, inFrom[..], off, fill[..]);
      inFrom[fill[t]] := f;
      fill[t] := fill[t] + 1;
    }
  }

  lemma {:induction false} NothingFilled(es: seq<Edge>, n: nat, inFrom: seq<nat>, off: seq<nat>)
    requires AreOffsets(Tos(es), n, off) && |inFrom| == |es| && forall i | 0 <= i < |es| :: es[i].to < n
    ensures Filled(es, 0, n, inFrom, off, off)
  {
    forall t: nat | t < n ensures off[t] <= |es| {
      RowBounds(es, n, off, t, t + 1);
    }
  }

  /** The counting sort by target. */
  method FillSources(es: seq<Edge>, n: nat, inOff: array<nat>) returns (inFrom: array<nat>)
    requires forall i | 0 <= i < |es| :: es[i].from < n && es[i].to < n
    requires AreOffsets(Tos(es), n, inOff[..])
    ensures fresh(inFrom) && inFrom.Length == |es| && forall k | 0 <= k < |es| :: inFrom[k] < n
    ensures forall t | 0 <= t < n :: Row(inFrom[..], inOff[..], t) == Sources(es, t)
  {
    inFrom := new nat[|es|](_ => 0);
    var fill := Cloned(inOff);
    NothingFilled(es, n, inFrom[..], inOff[..]);
    assert es != [] ==> es[0].from < n;
    PlaceSources(es, n, inOff[..], inFrom, fill);
    assert es[..|es|] == es;
    forall t: nat | t < n ensures Row(inFrom[..], inOff[..], t) == Sources(es, t) {
      RowDone(es, n, inFrom[..], inOff[..], fill[..], t);
    }
  }

  lemma {:induction false} RowDone(es: seq<Edge>, n: nat, inFrom: seq<nat>, off: seq<nat>, fill: seq<nat>, t: nat)
    requires AreOffsets(Tos(es), n, off) && forall k | 0 <= k < |es| :: es[k].to < n
    requires es[..|es|] == es && Filled(es, |es|, n, inFrom, off, fill) && t < n
    ensures Row(inFrom, off, t) == Sources(es, t)
  {
    RowBounds(es, n, off, t, t + 1);
    assert |Sources(es, t)| == fill[t] - off[t];
  }

  // ------------------------------------------------------------ rows of a sorted table

  /** The targets of the edges out of `f`, in edge order. */
  function Targets(es: seq<Edge>, f: nat): (r: seq<nat>)
    ensures |r| == CountOf(Froms(es), f)
  {
    if es == [] then []
    else
      var n := |es| - 1;
      assert Froms(es)[..n] == Froms(es[..n]);
      Targets(es[..n], f) + if es[n].from == f then [es[n].to] else []
  }

  lemma {:induction false} AllCounted(ks: seq<nat>, k: nat)
    ensures CountBelow(ks, k) <= |ks|
  {
    if ks == [] {
      CountBelowNone(k);
    } else {
      var m := |ks| - 1;
      assert ks == ks[..m] + [ks[m]];
      CountBelowAppend(ks[..m], ks[m], k);
      AllCounted(ks[..m], k);
    }
  }

  ghost predicate Nondecreasing(ks: seq<nat>) {
    forall i, j | 0 <= i < j < |ks| :: ks[i] <= ks[j]
  }

  /** In an ordered table the keys below `k` come first, and are counted. */
  lemma {:induction false} BelowIsPrefix(ks: seq<nat>, k: nat, i: nat)
    requires Nondecreasing(ks) && i < |ks|
    ensures ks[i] < k <==> i < CountBelow(ks, k)
  {
    var m := |ks| - 1;
    assert ks == ks[..m] + [ks[m]];
    CountBelowAppend(ks[..m], ks[m], k);
    AllCounted(ks[..m], k);
    if ks[m] < k && m > 0 {
      BelowIsPrefix(ks[..m], k, m - 1);
    } else if i < m {
      BelowIsPrefix(ks[..m], k, i);
    }
  }

  lemma FromsInOrder(es: seq<Edge>)
    requires PairsAscending(es)
    ensures Nondecreasing(Froms(es))
  {
    forall i, j | 0 <= i < j < |es| ensures Froms(es)[i] <= Froms(es)[j] {
      assert PairBefore(es[i], es[j]);
    }
  }

  /** The edge at a position leaves `f` exactly when the position is in its row. */
  lemma RowSource(es: seq<Edge>, f: nat, i: nat)
    requires PairsAscending(es) && i < |es|
    ensures es[i].from == f <==> CountBelow(Froms(es), f) <= i < CountBelow(Froms(es), f + 1)
  {
    FromsInOrder(es);
    BelowIsPrefix(Froms(es), f, i);
    BelowIsPrefix(Froms(es), f + 1, i);
  }

  /** The part of a stretch from `a` to `b` that is among the first `p`. */
  function Stretch(vs: seq<nat>, a: nat, b: nat, p: nat): seq<nat>
    requires a <= b <= |vs| && p <= |vs|
  {
    if p <= a then [] else vs[a..if p < b then p else b]
  }

  lemma StretchStep(vs: seq<nat>, a: nat, b: nat, p: nat)
    requires a <= b <= |vs| && p < |vs|
    ensures Stretch(vs, a, b, p + 1) == Stretch(vs, a, b, p) + if a <= p < b then [vs[p]] else []
  {
  }

  /** In source order, the edges out of `f` are one stretch of the table. */
  lemma {:induction false} TargetsOfPrefix(es: seq<Edge>, f: nat, p: nat)
    requires PairsAscending(es) && p <= |es|
    ensures var a, b := CountBelow(Froms(es), f), CountBelow(Froms(es), f + 1);
      a <= b <= |es| && Targets(es[..p], f) == Stretch(Tos(es), a, b, p)
    decreases p
  {
    CountBelowMonotone(Froms(es), f, f + 1);
    AllCounted(Froms(es), f + 1);
    if p > 0 {
      TargetsOfPrefix(es, f, p - 1);
      assert es[..p][..p - 1] == es[..p - 1] && es[..p][p - 1] == es[p - 1];
      RowSource(es, f, p - 1);
      StretchStep(Tos(es), CountBelow(Froms(es), f), CountBelow(Froms(es), f + 1), p - 1);
    }
  }

  lemma TargetsAreRow(es: seq<Edge>, f: nat)
    requires PairsAscending(es)
    ensures var a, b := CountBelow(Froms(es), f), CountBelow(Froms(es), f + 1);
      a <= b <= |es| && Tos(es)[a..b] == Targets(es, f)
  {
    TargetsOfPrefix(es, f, |es|);
    assert es[..|es|] == es;
  }

  lemma {:induction false} TargetsMean(es: seq<Edge>, f: nat, t: nat)
    requires PairsAscending(es)
    ensures t in Targets(es, f) <==> Linked(es, f, t)
    ensures StrictlyAscending(Targets(es, f))
  {
    if es != [] {
      var n := |es| - 1;
      TargetsMean(es[..n], f, t);
      LinkedSnoc(es, f, t);
      if es[n].from == f {
        forall x | x in Targets(es[..n], f) ensures x < es[n].to {
          TargetsMean(es[..n], f, x);
          var i :| 0 <= i < n && es[i].from == f && es[i].to == x;
          assert PairBefore(es[i], es[n]);
        }
        SnocAscending(Targets(es[..n], f), es[n].to);
      }
    }
  }

  lemma {:induction false} SourcesMean(es: seq<Edge>, f: nat, t: nat)
    requires PairsAscending(es)
    ensures f in Sources(es, t) <==> Linked(es, f, t)
    ensures StrictlyAscending(Sources(es, t))
  {
    if es != [] {
      var n := |es| - 1;
      SourcesMean(es[..n], f, t);
      LinkedSnoc(es, f, t);
      if es[n].to == t {
        forall x | x in Sources(es[..n], t) ensures x < es[n].from {
          SourcesMean(es[..n], x, t);
          var i :| 0 <= i < n && es[i].from == x && es[i].to == t;
          assert PairBefore(es[i], es[n]);
        }
        SnocAscending(Sources(es[..n], t), es[n].from);
      }
    }
  }

  lemma SnocAscending(s: seq<nat>, x: nat)
    requires StrictlyAscending(s) && forall y | y in s :: y < x
    ensures StrictlyAscending(s + [x])
  {
    forall i, j | 0 <= i < j < |s| + 1 ensures (s + [x])[i] < (s + [x])[j] {
      assert s[i] in s;
    }
  }

  lemma LinkedSnoc(es: seq<Edge>, f: nat, t: nat)
    requires es != []
    ensures var n := |es| - 1;
      Linked(es, f, t) <==> Linked(es[..n], f, t) || (es[n].from == f && es[n].to == t)
  {
    var n := |es| - 1;
    if Linked(es[..n], f, t) {
      var i :| 0 <= i < n && es[..n][i].from == f && es[..n][i].to == t;
      assert es[i] == es[..n][i];
    }
    if Linked(es, f, t) {
      var i :| 0 <= i < |es| && es[i].from == f && es[i].to == t;
      assert i < n ==> es[..n][i] == es[i];
    }
  }

  // ------------------------------------------------------------ the builders

  /** The graph as it is read: two tables of rows, and a rank for each file. */
  datatype GraphView = GraphView(outOff: seq<nat>, outTo: seq<nat>, outW: seq<nat>, inOff: seq<nat>, inFrom: seq<nat>,
                                 rank: seq<nat>)
  {
    function Out(f: nat): seq<nat> {
      Row(outTo, outOff, f)
    }

    function Incoming(t: nat): seq<nat> {
      Row(inFrom, inOff, t)
    }
  }

  /** `g` is the graph of `es` over `n` files. */
  ghost predicate IsGraph(g: GraphView, es: seq<Edge>, n: nat) {
    && (forall f: nat | f < n :: StrictlyAscending(g.Out(f)) && StrictlyAscending(g.Incoming(f)))
    && (forall f: nat, t: nat | f < n :: t in g.Out(f) <==> Linked(es, f, t))
    && (forall f: nat, t: nat | t < n :: f in g.Incoming(t) <==> Linked(es, f, t))
    && |g.outW| == |g.outTo| && |g.outOff| == n + 1
    && (forall f: nat, i: nat | f < n && g.outOff[f] <= i < g.outOff[f + 1] && i < |g.outTo| ::
          g.outW[i] == Capped(TotalWeight(es, f, g.outTo[i])))
  }

  // ------------------------------------------------------------ the section

  function GraphShapes(n: nat, m: nat): seq<P.Shape> {
    [P.Shape(n + 1, 4), P.Shape(m, 4), P.Shape(m, 2), P.Shape(n + 1, 4), P.Shape(m, 4), P.Shape(n, 4)]
  }

  function GraphTables(g: GraphView): seq<P.Table> {
    [P.Table(g.outOff, 4), P.Table(g.outTo, 4), P.Table(g.outW, 2), P.Table(g.inOff, 4), P.Table(g.inFrom, 4),
     P.Table(g.rank, 4)]
  }

  /** `GraphView::parse`; nothing when the section is cut short. */
  function ParseGraph(b: Bytes): Option<GraphView> {
    if |b| < 16 then None
    else
      var r := P.TakeAll(b, 16, GraphShapes(F.LeValue(b[0..4]), F.LeValue(b[4..8])));
      if r.None? then None
      else Some(GraphView(r.value[0], r.value[1], r.value[2], r.value[3], r.value[4], r.value[5]))
  }

  lemma GraphValues(g: GraphView)
    ensures P.Values(GraphTables(g)) == [g.outOff, g.outTo, g.outW, g.inOff, g.inFrom, g.rank]
  {
  }

  lemma {:induction false} ParsesAs(b: Bytes, g: GraphView, n: nat, m: nat)
    requires |b| >= 16 && F.LeValue(b[0..4]) == n && F.LeValue(b[4..8]) == m
    requires P.TakeAll(b, 16, GraphShapes(n, m)) == Some([g.outOff, g.outTo, g.outW, g.inOff, g.inFrom, g.rank])
    ensures ParseGraph(b) == Some(g)
  {
  }

  /** What was written is what is read. */
  lemma {:induction false} GraphRoundTrip(g: GraphView, n: nat, m: nat)
    requires n < U32 && m < U32 && P.Shapes(GraphTables(g)) == GraphShapes(n, m)
    requires forall i | 0 <= i < |GraphTables(g)| :: P.FitIn(GraphTables(g)[i].vs, GraphTables(g)[i].w)
    ensures ParseGraph(P.Head(n, m) + P.Pack(GraphTables(g))) == Some(g)
  {
    var head, packed := P.Head(n, m), P.Pack(GraphTables(g));
    P.HeadReads(n, m, packed);
    P.PackReads(head, GraphTables(g));
    GraphValues(g);
    ParsesAs(head + packed, g, n, m);
  }

  lemma {:induction false} OffsetsFit(ks: seq<nat>, n: nat, off: seq<nat>)
    requires AreOffsets(ks, n, off) && |ks| < U32
    ensures P.FitIn(off, 4)
  {
    F.Widths();
    forall i | 0 <= i < |off| ensures off[i] < F.Pow256(4) {
      AllCounted(ks, i);
    }
  }

  /** Every number of the section is within its width. */
  lemma {:induction false} GraphFits(g: GraphView, es: seq<Edge>, n: nat)
    requires n < U32 && |es| < U32 && forall i | 0 <= i < |es| :: es[i].from < n && es[i].to < n
    requires AreOffsets(Froms(es), n, g.outOff) && AreOffsets(Tos(es), n, g.inOff)
    requires g.outTo == Tos(es) && g.outW == Weights(es)
    requires |g.inFrom| == |es| && forall k | 0 <= k < |es| :: g.inFrom[k] < n
    requires |g.rank| == n && forall k | 0 <= k < n :: g.rank[k] < U32
    ensures P.Shapes(GraphTables(g)) == GraphShapes(n, |es|)
    ensures forall i | 0 <= i < |GraphTables(g)| :: P.FitIn(GraphTables(g)[i].vs, GraphTables(g)[i].w)
  {
    F.Widths();
    OffsetsFit(Froms(es), n, g.outOff);
    OffsetsFit(Tos(es), n, g.inOff);
  }

  class GraphBuilder {
    const n: u32
    var edges: seq<Edge>

    ghost predicate Valid()
      reads this
    {
      forall i | 0 <= i < |edges| :: edges[i].from < n && edges[i].to < n && edges[i].from != edges[i].to
    }

    constructor (n: u32)
      ensures Valid() && this.n == n && edges == []
    {
      this.n, edges := n, [];
    }

    /** Edges to nowhere and to the file itself are not kept. */
    method Add(from: nat, to: nat, w: Weight)
      requires Valid() && from < n && (to < n || to == NONE)
      modifies this
      ensures Valid() && edges == old(edges) + if from != to && to != NONE then [Edge(from, to, w)] else []
      ensures forall f: nat, t: nat :: Linked(edges, f, t) <==>
        Linked(old(edges), f, t) || (f == from && t == to && from != to && to != NONE)
    {
      if from != to && to != NONE {
        edges := edges + [Edge(from, to, w)];
        forall f: nat, t: nat
          ensures Linked(edges, f, t) <==> Linked(old(edges), f, t) || (f == from && t == to)
        {
          LinkedSnoc(edges, f, t);
          assert edges[..|edges| - 1] == old(edges);
        }
      }
    }

    /** The section written reads back as both tables of the graph, exact transposes
        with each row ascending, and the ranks of its rows, as the words `bits`
        makes of them. */
    method Finish(bits: real -> u32) returns (body: Bytes, rank: seq<real>)
      requires Valid() && |edges| < U32
      ensures ParseGraph(body).Some? && IsGraph(ParseGraph(body).value, edges, n)
      ensures var rows := RowsOf(ParseGraph(body).value, n);
        && K.Fits(rows) && |rank| == n && rank == K.Scaled(K.After(rows, K.Start(rows), K.ROUNDS)) && K.Ranks(rank)
        && ((forall i | 0 <= i < |edges| :: edges[i].w > 0) ==> K.NoneStuck(rows))
      ensures ParseGraph(body).value.rank == Words(rank, bits)
    {
      var es := MergeEdges(SortEdges(edges));
      SortMergeMeans(edges);
      MergedLength(edges);
      MergedInRange(es, edges, n, n);
      var outOff := RowOffsets(Froms(es), n);
      var inOff := RowOffsets(Tos(es), n);
      var inFrom := FillSources(es, n, inOff);
      RowsFit(es, n, outOff[..]);
      RowsGive(es, edges, n, outOff[..]);
      rank := K.PageRank(K.Rows(n, outOff[..], Tos(es), Weights(es)));
      var g := GraphView(outOff[..], Tos(es), Weights(es), inOff[..], inFrom[..], Words(rank, bits));
      body := P.PutAll(n, |es|, GraphTables(g));
      GraphFits(g, es, n);
      GraphRoundTrip(g, n, |es|);
      GraphFromTables(g, es, edges, n);
    }
  }

  function Words(rank: seq<real>, bits: real -> u32): (r: seq<u32>)
    ensures |r| == |rank|
  {
    seq(|rank|, i requires 0 <= i < |rank| => bits(rank[i]))
  }

  /** The rows the ranks are computed from. */
  function RowsOf(g: GraphView, n: nat): K.Rows {
    K.Rows(n, g.outOff, g.outTo, g.outW)
  }

  lemma {:induction false} RowsFit(es: seq<Edge>, n: nat, off: seq<nat>)
    requires AreOffsets(Froms(es), n, off) && forall i | 0 <= i < |es| :: es[i].to < n
    ensures K.Fits(K.Rows(n, off, Tos(es), Weights(es)))
  {
    var rows := K.Rows(n, off, Tos(es), Weights(es));
    forall i: nat | i < n ensures K.RowFits(rows, i) {
      CountBelowMonotone(Froms(es), i, i + 1);
      AllCounted(Froms(es), i + 1);
    }
  }

  function Weights(es: seq<Edge>): seq<Weight> {
    seq(|es|, i requires 0 <= i < |es| => es[i].w)
  }

  lemma MergedInRange(es: seq<Edge>, edges: seq<Edge>, n: nat, ids: nat)
    requires Merges(es, edges) && forall i | 0 <= i < |edges| :: edges[i].from < n && edges[i].to < ids
    ensures forall i | 0 <= i < |es| :: es[i].from < n && es[i].to < ids
  {
    forall i | 0 <= i < |es| ensures es[i].from < n && es[i].to < ids {
      assert Linked(es, es[i].from, es[i].to);
      assert Linked(edges, es[i].from, es[i].to);
    }
  }

  lemma {:induction false} TotalSome(es: seq<Edge>, f: nat, t: nat)
    requires Linked(es, f, t) && forall i | 0 <= i < |es| :: es[i].w > 0
    ensures TotalWeight(es, f, t) > 0
  {
    assert es == [es[0]] + es[1..];
    LinkedCons(es[0], es[1..], f, t);
    if es[0].from != f || es[0].to != t {
      TotalSome(es[1..], f, t);
    }
  }

  /** Where no edge has weight zero, every file with imports gives its rank on. */
  lemma {:induction false} RowsGive(es: seq<Edge>, edges: seq<Edge>, n: nat, off: seq<nat>)
    requires Merges(es, edges) && K.Fits(K.Rows(n, off, Tos(es), Weights(es)))
    ensures (forall i | 0 <= i < |edges| :: edges[i].w > 0) ==> K.NoneStuck(K.Rows(n, off, Tos(es), Weights(es)))
  {
    if forall i | 0 <= i < |edges| :: edges[i].w > 0 {
      forall e | 0 <= e < |es| ensures es[e].w > 0 {
        assert Linked(es, es[e].from, es[e].to);
        TotalSome(edges, es[e].from, es[e].to);
      }
      K.PositiveRows(K.Rows(n, off, Tos(es), Weights(es)));
    }
  }

  lemma {:induction false} TablesGiveRows(g: GraphView, es: seq<Edge>, n: nat, f: nat)
    requires PairsAscending(es) && f < n && g.outTo == Tos(es) && AreOffsets(Froms(es), n, g.outOff)
    ensures g.Out(f) == Targets(es, f)
  {
    TargetsAreRow(es, f);
    RowIs(g.outTo, g.outOff, f, CountBelow(Froms(es), f), CountBelow(Froms(es), f + 1));
  }

  lemma RowIs(vs: seq<nat>, off: seq<nat>, k: nat, a: nat, b: nat)
    requires k + 1 < |off| && off[k] == a <= b == off[k + 1] <= |vs|
    ensures Row(vs, off, k) == vs[a..b]
  {
  }

  lemma {:induction false} GraphFromTables(g: GraphView, es: seq<Edge>, edges: seq<Edge>, n: nat)
    requires Merges(es, edges)
    requires g.outTo == Tos(es) && g.outW == Weights(es)
    requires AreOffsets(Froms(es), n, g.outOff)
    requires forall t: nat | t < n :: Row(g.inFrom, g.inOff, t) == Sources(es, t)
    ensures IsGraph(g, edges, n)
  {
    forall f: nat | f < n ensures StrictlyAscending(g.Out(f)) && StrictlyAscending(g.Incoming(f)) {
      TablesGiveRows(g, es, n, f);
      TargetsMean(es, f, 0);
      SourcesMean(es, 0, f);
    }
    forall f: nat, t: nat | f < n ensures t in g.Out(f) <==> Linked(edges, f, t) {
      TablesGiveRows(g, es, n, f);
      TargetsMean(es, f, t);
    }
    forall f: nat, t: nat | t < n ensures f in g.Incoming(t) <==> Linked(edges, f, t) {
      SourcesMean(es, f, t);
    }
    forall f: nat, i: nat | f < n && g.outOff[f] <= i < g.outOff[f + 1] && i < |g.outTo|
      ensures g.outW[i] == Capped(TotalWeight(edges, f, g.outTo[i]))
    {
      RowSource(es, f, i);
    }
  }
}
