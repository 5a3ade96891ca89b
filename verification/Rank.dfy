// The ranks of the import graph (crates/greeg-index/src/symtab.rs): twenty rounds
// of PageRank over the rows of the graph, scaled so that the greatest rank is one.
// Real numbers stand for the program's single-precision ones.

module Rank {
  import opened Bytes

  const DAMPING: real := 0.85
  const ROUNDS := 20

  /** The rows of `n` files: where each starts, the targets, their weights. */
  datatype Rows = Rows(n: nat, off: seq<nat>, to: seq<nat>, w: seq<nat>)

  ghost predicate Fits(g: Rows) {
    && |g.off| == g.n + 1 && |g.to| == |g.w|
    && (forall i: nat | i < g.n :: RowFits(g, i))
    && (forall e | 0 <= e < |g.to| :: g.to[e] < g.n)
  }

  ghost predicate RowFits(g: Rows, i: nat) {
    i + 1 < |g.off| && g.off[i] <= g.off[i + 1] <= |g.to|
  }

  // ------------------------------------------------------------ sums

  function Sum(xs: seq<real>): real {
    if xs == [] then 0.0 else Sum(xs[..|xs| - 1]) + xs[|xs| - 1]
  }

  lemma {:induction false} SumUpdate(xs: seq<real>, i: nat, x: real)
    requires i < |xs|
    ensures Sum(xs[i := x]) == Sum(xs) - xs[i] + x
  {
    var n := |xs| - 1;
    if i < n {
      SumUpdate(xs[..n], i, x);
      assert xs[i := x][..n] == xs[..n][i := x];
    } else {
      assert xs[i := x][..n] == xs[..n];
    }
  }

  lemma {:induction false} SumSame(xs: seq<real>, x: real)
    requires forall i | 0 <= i < |xs| :: xs[i] == x
    ensures Sum(xs) == |xs| as real * x
  {
    if xs != [] {
      SumSame(xs[..|xs| - 1], x);
    }
  }

  lemma {:induction false} SumPositive(xs: seq<real>)
    requires forall i | 0 <= i < |xs| :: xs[i] > 0.0
    ensures Sum(xs) >= 0.0 && (xs != [] ==> Sum(xs) > 0.0)
  {
    if xs != [] {
      SumPositive(xs[..|xs| - 1]);
    }
  }

  // ------------------------------------------------------------ one round

  function Files(g: Rows): real {
    if g.n > 1 then g.n as real else 1.0
  }

  /** The weights of the edges from `a` up to `b`. */
  function Weight(g: Rows, a: nat, b: nat): nat
    requires a <= b <= |g.w|
  {
    if a == b then 0 else Weight(g, a, b - 1) + g.w[b - 1]
  }

  function RowWeight(g: Rows, i: nat): nat
    requires Fits(g) && i < g.n
  {
    assert RowFits(g, i);
    Weight(g, g.off[i], g.off[i + 1])
  }

  predicate NoRow(g: Rows, i: nat)
    requires i + 1 < |g.off|
  {
    g.off[i] == g.off[i + 1]
  }

  /** The ranks of the first `k` files that import nothing. */
  function Dangling(g: Rows, rank: seq<real>, k: nat): real
    requires k < |g.off| && k <= |rank|
  {
    if k == 0 then 0.0 else Dangling(g, rank, k - 1) + if NoRow(g, k - 1) then rank[k - 1] else 0.0
  }

  function Base(g: Rows, rank: seq<real>): real
    requires Fits(g) && |rank| == g.n
  {
    (1.0 - DAMPING) / Files(g) + DAMPING * Dangling(g, rank, g.n) / Files(g)
  }

  function AtLeast(x: real, least: real): real {
    if x < least then least else x
  }

  /** What a file gives along an edge of weight one. */
  function Share(g: Rows, rank: seq<real>, i: nat): real
    requires Fits(g) && i < g.n == |rank|
  {
    DAMPING * rank[i] / AtLeast(RowWeight(g, i) as real, 0.000000001)
  }

  /** A rank with the share of an edge of weight `w` added. */
  function Added(x: real, share: real, w: nat): real {
    x + share * w as real
  }

  /** One row's shares added to its targets. */
  function Give(g: Rows, next: seq<real>, share: real, a: nat, b: nat): (r: seq<real>)
    requires Fits(g) && |next| == g.n && a <= b <= |g.to|
    ensures |r| == g.n
  {
    if a == b then next
    else
      var r := Give(g, next, share, a, b - 1);
      r[g.to[b - 1] := Added(r[g.to[b - 1]], share, g.w[b - 1])]
  }

  function GiveRows(g: Rows, rank: seq<real>, next: seq<real>, k: nat): (r: seq<real>)
    requires Fits(g) && |next| == |rank| == g.n && k <= g.n
    ensures |r| == g.n
  {
    if k == 0 then next
    else
      assert RowFits(g, k - 1);
      var r := GiveRows(g, rank, next, k - 1);
      if NoRow(g, k - 1) then r else Give(g, r, Share(g, rank, k - 1), g.off[k - 1], g.off[k])
  }

  function Bases(g: Rows, rank: seq<real>): (r: seq<real>)
    requires Fits(g) && |rank| == g.n
    ensures |r| == g.n && forall i | 0 <= i < g.n :: r[i] == Base(g, rank)
  {
    var base := Base(g, rank);
    seq(g.n, _ => base)
  }

  function RoundOf(g: Rows, rank: seq<real>): (r: seq<real>)
    requires Fits(g) && |rank| == g.n
    ensures |r| == g.n
  {
    GiveRows(g, rank, Bases(g, rank), g.n)
  }

  function After(g: Rows, rank: seq<real>, rounds: nat): (r: seq<real>)
    requires Fits(g) && |rank| == g.n
    ensures |r| == g.n
  {
    if rounds == 0 then rank else RoundOf(g, After(g, rank, rounds - 1))
  }

  // ------------------------------------------------------------ what a round keeps

  /** What importers give `t` along the edges from `a` up to `b`. */
  function Flow(g: Rows, share: real, t: nat, a: nat, b: nat): real
    requires a <= b <= |g.to| == |g.w|
  {
    if a == b then 0.0 else Flow(g, share, t, a, b - 1) + if g.to[b - 1] == t then share * g.w[b - 1] as real else 0.0
  }

  function Inflow(g: Rows, rank: seq<real>, t: nat, k: nat): real
    requires Fits(g) && |rank| == g.n && k <= g.n
  {
    if k == 0 then 0.0
    else
      assert RowFits(g, k - 1);
      Inflow(g, rank, t, k - 1)
      + if NoRow(g, k - 1) then 0.0 else Flow(g, Share(g, rank, k - 1), t, g.off[k - 1], g.off[k])
  }

  lemma {:induction false} GiveMeans(g: Rows, next: seq<real>, share: real, a: nat, b: nat, t: nat)
    requires Fits(g) && |next| == g.n && a <= b <= |g.to| && t < g.n
    ensures Give(g, next, share, a, b)[t] == next[t] + Flow(g, share, t, a, b)
    decreases b
  {
    if a < b {
      GiveMeans(g, next, share, a, b - 1, t);
    }
  }

  lemma {:induction false} GiveRowsMeans(g: Rows, rank: seq<real>, next: seq<real>, k: nat, t: nat)
    requires Fits(g) && |next| == |rank| == g.n && k <= g.n && t < g.n
    ensures GiveRows(g, rank, next, k)[t] == next[t] + Inflow(g, rank, t, k)
    decreases k
  {
    if k > 0 {
      assert RowFits(g, k - 1);
      GiveRowsMeans(g, rank, next, k - 1, t);
      if !NoRow(g, k - 1) {
        GiveMeans(g, GiveRows(g, rank, next, k - 1), Share(g, rank, k - 1), g.off[k - 1], g.off[k], t);
      }
    }
  }

  /** A round gives each file the base and the shares of its importers. */
  lemma RoundMeans(g: Rows, rank: seq<real>, t: nat)
    requires Fits(g) && |rank| == g.n && t < g.n
    ensures RoundOf(g, rank)[t] == Base(g, rank) + Inflow(g, rank, t, g.n)
  {
    GiveRowsMeans(g, rank, Bases(g, rank), g.n, t);
  }

  lemma Distribute(x: real, a: nat, b: nat)
    ensures x * a as real + x * b as real == x * (a + b) as real
  {
  }

  /** All a file gives along the edges from `a` up to `b`. */
  function Given(g: Rows, share: real, a: nat, b: nat): real
    requires a <= b <= |g.w|
  {
    if a == b then 0.0 else Given(g, share, a, b - 1) + share * g.w[b - 1] as real
  }

  lemma {:induction false} GivenIs(g: Rows, share: real, a: nat, b: nat)
    requires a <= b <= |g.w|
    ensures Given(g, share, a, b) == share * Weight(g, a, b) as real
    decreases b
  {
    if a < b {
      GivenIs(g, share, a, b - 1);
      Distribute(share, Weight(g, a, b - 1), g.w[b - 1]);
    }
  }

  lemma {:induction false} GiveTotal(g: Rows, next: seq<real>, share: real, a: nat, b: nat)
    requires Fits(g) && |next| == g.n && a <= b <= |g.to|
    ensures Sum(Give(g, next, share, a, b)) == Sum(next) + Given(g, share, a, b)
    decreases b
  {
    if a < b {
      GiveTotal(g, next, share, a, b - 1);
      var r := Give(g, next, share, a, b - 1);
      SumUpdate(r, g.to[b - 1], Added(r[g.to[b - 1]], share, g.w[b - 1]));
    }
  }

  /** The file imports something, and gives none of its rank on. */
  predicate Stuck(g: Rows, i: nat)
    requires Fits(g) && i < g.n
  {
    assert RowFits(g, i);
    !NoRow(g, i) && RowWeight(g, i) == 0
  }

  /** The ranks that the first `k` files lose. */
  function Lost(g: Rows, rank: seq<real>, k: nat): real
    requires Fits(g) && k <= g.n == |rank|
  {
    if k == 0 then 0.0 else Lost(g, rank, k - 1) + if Stuck(g, k - 1) then rank[k - 1] else 0.0
  }

  lemma Divided(x: real, w: nat)
    ensures x / AtLeast(w as real, 0.000000001) * w as real == if w == 0 then 0.0 else x
  {
    if w > 0 {
      assert w as real >= 1.0;
    }
  }

  /** A file gives its damped rank, or nothing. */
  lemma RowTotal(g: Rows, rank: seq<real>, next: seq<real>, i: nat)
    requires Fits(g) && |next| == |rank| == g.n && i < g.n && RowFits(g, i)
    ensures Sum(Give(g, next, Share(g, rank, i), g.off[i], g.off[i + 1])) ==
      Sum(next) + if RowWeight(g, i) == 0 then 0.0 else DAMPING * rank[i]
  {
    GiveTotal(g, next, Share(g, rank, i), g.off[i], g.off[i + 1]);
    GivenIs(g, Share(g, rank, i), g.off[i], g.off[i + 1]);
    Divided(DAMPING * rank[i], RowWeight(g, i));
  }

  lemma {:induction false} RowsTotal(g: Rows, rank: seq<real>, next: seq<real>, k: nat)
    requires Fits(g) && |next| == |rank| == g.n && k <= g.n
    ensures Sum(GiveRows(g, rank, next, k)) ==
      Sum(next) + DAMPING * (Sum(rank[..k]) - Dangling(g, rank, k) - Lost(g, rank, k))
    decreases k
  {
    if k == 0 {
      assert rank[..0] == [];
    } else {
      assert RowFits(g, k - 1);
      assert rank[..k][..k - 1] == rank[..k - 1];
      RowsTotal(g, rank, next, k - 1);
      if !NoRow(g, k - 1) {
        RowTotal(g, rank, GiveRows(g, rank, next, k - 1), k - 1);
      }
    }
  }

  lemma BaseTotal(n: nat, dangling: real)
    requires n > 0
    ensures n as real * ((1.0 - DAMPING) / n as real + DAMPING * dangling / n as real) ==
      1.0 - DAMPING + DAMPING * dangling
  {
  }

  lemma StartTotal(g: Rows, rank: seq<real>)
    requires Fits(g) && |rank| == g.n > 0
    ensures Sum(Bases(g, rank)) == 1.0 - DAMPING + DAMPING * Dangling(g, rank, g.n)
  {
    SumSame(Bases(g, rank), Base(g, rank));
    assert Files(g) == g.n as real;
    BaseTotal(g.n, Dangling(g, rank, g.n));
  }

  /** Rank is lost only where the edges of a file all have weight zero. */
  lemma RoundTotal(g: Rows, rank: seq<real>)
    requires Fits(g) && |rank| == g.n > 0
    ensures Sum(RoundOf(g, rank)) == 1.0 - DAMPING + DAMPING * (Sum(rank) - Lost(g, rank, g.n))
  {
    StartTotal(g, rank);
    RowsTotal(g, rank, Bases(g, rank), g.n);
    assert rank[..g.n] == rank;
  }

  // ------------------------------------------------------------ all rounds

  function Start(g: Rows): seq<real> {
    seq(g.n, _ => 1.0 / Files(g))
  }

  /** Every file that imports something gives its rank on. */
  ghost predicate NoneStuck(g: Rows)
    requires Fits(g)
  {
    forall i: nat | i < g.n :: !Stuck(g, i)
  }

  ghost predicate AllPositive(xs: seq<real>) {
    forall i | 0 <= i < |xs| :: xs[i] > 0.0
  }

  lemma {:induction false} LostSome(g: Rows, rank: seq<real>, k: nat)
    requires Fits(g) && k <= g.n == |rank| && AllPositive(rank)
    ensures Lost(g, rank, k) >= 0.0
    ensures Lost(g, rank, k) == 0.0 <==> forall i: nat | i < k :: !Stuck(g, i)
    decreases k
  {
    if k > 0 {
      LostSome(g, rank, k - 1);
    }
  }

  lemma {:induction false} DanglingSome(g: Rows, rank: seq<real>, k: nat)
    requires k < |g.off| && k <= |rank| && AllPositive(rank)
    ensures Dangling(g, rank, k) >= 0.0
    decreases k
  {
    if k > 0 {
      DanglingSome(g, rank, k - 1);
    }
  }

  lemma ShareSome(x: real, w: real)
    requires x >= 0.0
    ensures x / AtLeast(w, 0.000000001) >= 0.0
  {
  }

  lemma {:induction false} FlowSome(g: Rows, share: real, t: nat, a: nat, b: nat)
    requires a <= b <= |g.to| == |g.w| && share >= 0.0
    ensures Flow(g, share, t, a, b) >= 0.0
    decreases b
  {
    if a < b {
      FlowSome(g, share, t, a, b - 1);
    }
  }

  lemma {:induction false} InflowSome(g: Rows, rank: seq<real>, t: nat, k: nat)
    requires Fits(g) && |rank| == g.n && k <= g.n && AllPositive(rank)
    ensures Inflow(g, rank, t, k) >= 0.0
    decreases k
  {
    if k > 0 {
      assert RowFits(g, k - 1);
      InflowSome(g, rank, t, k - 1);
      ShareSome(DAMPING * rank[k - 1], RowWeight(g, k - 1) as real);
      FlowSome(g, Share(g, rank, k - 1), t, g.off[k - 1], g.off[k]);
    }
  }

  /** The least rank a file can have. */
  function Least(g: Rows): (r: real)
    ensures r > 0.0
  {
    (1.0 - DAMPING) / Files(g)
  }

  ghost predicate AboveLeast(g: Rows, rank: seq<real>) {
    forall i | 0 <= i < |rank| :: rank[i] >= Least(g)
  }

  lemma RoundAbove(g: Rows, rank: seq<real>)
    requires Fits(g) && |rank| == g.n && AllPositive(rank)
    ensures AboveLeast(g, RoundOf(g, rank))
  {
    DanglingSome(g, rank, g.n);
    DividedSome(DAMPING * Dangling(g, rank, g.n), Files(g));
    forall t | 0 <= t < g.n ensures RoundOf(g, rank)[t] >= Least(g) {
      RoundMeans(g, rank, t);
      InflowSome(g, rank, t, g.n);
    }
  }

  lemma DividedSome(x: real, n: real)
    requires x >= 0.0 && n >= 1.0
    ensures x / n >= 0.0
  {
  }

  lemma {:induction false} AfterAbove(g: Rows, k: nat)
    requires Fits(g)
    ensures AboveLeast(g, After(g, Start(g), k))
  {
    if k == 0 {
      StartAbove(Files(g));
    } else {
      AfterAbove(g, k - 1);
      RoundAbove(g, After(g, Start(g), k - 1));
    }
  }

  lemma StartAbove(n: real)
    requires n >= 1.0
    ensures 1.0 / n >= (1.0 - DAMPING) / n
  {
  }

  /** Over any number of rounds the ranks add up to one at most; to exactly one
      after some rounds if and only if no file keeps its rank to itself. */
  lemma {:induction false} TotalIsOne(g: Rows, k: nat)
    requires Fits(g) && g.n > 0
    ensures Sum(After(g, Start(g), k)) <= 1.0
    ensures NoneStuck(g) ==> Sum(After(g, Start(g), k)) == 1.0
    ensures k > 0 && !NoneStuck(g) ==> Sum(After(g, Start(g), k)) < 1.0
  {
    if k == 0 {
      SumSame(Start(g), 1.0 / Files(g));
      Inverse(g.n);
    } else {
      var rank := After(g, Start(g), k - 1);
      TotalIsOne(g, k - 1);
      AfterAbove(g, k - 1);
      LostSome(g, rank, g.n);
      RoundTotal(g, rank);
    }
  }

  lemma Inverse(n: nat)
    requires n > 0
    ensures n as real * (1.0 / n as real) == 1.0
  {
  }

  lemma {:induction false} WeightSome(g: Rows, a: nat, b: nat)
    requires a < b <= |g.w| && forall e | 0 <= e < |g.w| :: g.w[e] > 0
    ensures Weight(g, a, b) > 0
    decreases b
  {
    if a < b - 1 {
      WeightSome(g, a, b - 1);
    }
  }

  lemma PositiveRows(g: Rows)
    requires Fits(g) && forall e | 0 <= e < |g.w| :: g.w[e] > 0
    ensures NoneStuck(g)
  {
    forall i: nat | i < g.n ensures !Stuck(g, i) {
      assert RowFits(g, i);
      if !NoRow(g, i) {
        WeightSome(g, g.off[i], g.off[i + 1]);
      }
    }
  }

  // ------------------------------------------------------------ scaling

  /** The greatest rank, from zero up. */
  function Greatest(xs: seq<real>): (r: real)
    ensures r >= 0.0 && forall i | 0 <= i < |xs| :: xs[i] <= r
    ensures xs != [] && (forall i | 0 <= i < |xs| :: xs[i] > 0.0) ==> r in xs
  {
    if xs == [] then 0.0
    else
      var n := |xs| - 1;
      var r := Greatest(xs[..n]);
      assert xs == xs[..n] + [xs[n]];
      if r < xs[n] then xs[n] else r
  }

  function Scaled(rank: seq<real>): seq<real> {
    var max := AtLeast(Greatest(rank), 0.000000000001);
    seq(|rank|, i requires 0 <= i < |rank| => rank[i] / max)
  }

  lemma LeastIsSeen(n: nat)
    requires 0 < n < U32
    ensures (1.0 - DAMPING) / n as real >= 0.000000000001
  {
    assert n as real <= 4294967296.0;
    assert n as real * 0.000000000001 <= 1.0 - DAMPING;
  }

  lemma Ratio(x: real, max: real)
    requires 0.0 < x <= max
    ensures 0.0 < x / max <= 1.0 && (x == max ==> x / max == 1.0)
  {
  }

  /** Ranks between zero and one, the greatest of them one. */
  ghost predicate Ranks(rank: seq<real>) {
    && (forall i | 0 <= i < |rank| :: 0.0 < rank[i] <= 1.0)
    && (rank != [] ==> exists i :: 0 <= i < |rank| && rank[i] == 1.0)
  }

  lemma {:induction false} ScaledRanks(g: Rows, rank: seq<real>)
    requires |rank| == g.n < U32 && AboveLeast(g, rank)
    ensures Ranks(Scaled(rank))
  {
    if g.n > 0 {
      LeastIsSeen(g.n);
      assert Files(g) == g.n as real && rank[0] >= Least(g);
      var max := Greatest(rank);
      assert max >= 0.000000000001;
      forall i | 0 <= i < |rank| ensures 0.0 < rank[i] / max <= 1.0 && (rank[i] == max ==> rank[i] / max == 1.0) {
        Ratio(rank[i], max);
      }
      var k :| 0 <= k < |rank| && rank[k] == max;
      assert Scaled(rank)[k] == 1.0;
    }
  }

  // ------------------------------------------------------------ the loops

  method OutSums(g: Rows) returns (sums: seq<real>)
    requires Fits(g)
    ensures |sums| == g.n && forall i | 0 <= i < g.n :: sums[i] == RowWeight(g, i) as real
  {
    sums := [];
    for i := 0 to g.n
      invariant |sums| == i && forall j | 0 <= j < i :: sums[j] == RowWeight(g, j) as real
    {
      assert RowFits(g, i);
      var sum := 0.0;
      for e := g.off[i] to g.off[i + 1]
        invariant sum == Weight(g, g.off[i], e) as real
      {
        sum := sum + g.w[e] as real;
      }
      sums := sums + [sum];
    }
  }

  method SumDangling(g: Rows, rank: array<real>) returns (d: real)
    requires Fits(g) && rank.Length == g.n
    ensures d == Dangling(g, rank[..], g.n)
  {
    d := 0.0;
    for i := 0 to g.n
      invariant d == Dangling(g, rank[..], i)
    {
      if g.off[i] == g.off[i + 1] {
        d := d + rank[i];
      }
    }
  }

  method GiveRow(g: Rows, share: real, a: nat, b: nat, next: array<real>)
    requires Fits(g) && next.Length == g.n && a <= b <= |g.to|
    modifies next
    ensures next[..] == Give(g, old(next[..]), share, a, b)
  {
    for e := a to b
      invariant next[..] == Give(g, old(next[..]), share, a, e)
    {
      next[g.to[e]] := Added(next[g.to[e]], share, g.w[e]);
    }
  }

  method FillBase(g: Rows, rank: array<real>, next: array<real>)
    requires Fits(g) && rank.Length == next.Length == g.n && rank != next
    modifies next
    ensures next[..] == Bases(g, rank[..])
  {
    var d := SumDangling(g, rank);
    var base := (1.0 - DAMPING) / Files(g) + DAMPING * d / Files(g);
    for i := 0 to g.n
      invariant forall j | 0 <= j < i :: next[j] == base
    {
      next[i] := base;
    }
  }

  method GiveAll(g: Rows, sums: seq<real>, rank: array<real>, next: array<real>)
    requires Fits(g) && rank.Length == next.Length == g.n && rank != next
    requires |sums| == g.n && forall i | 0 <= i < g.n :: sums[i] == RowWeight(g, i) as real
    modifies next
    ensures next[..] == GiveRows(g, rank[..], old(next[..]), g.n)
  {
    for i := 0 to g.n
      invariant next[..] == GiveRows(g, rank[..], old(next[..]), i)
    {
      assert RowFits(g, i);
      var a, b := g.off[i], g.off[i + 1];
      if a != b {
        assert sums[i] == RowWeight(g, i) as real;
        GiveRow(g, DAMPING * rank[i] / AtLeast(sums[i], 0.000000001), a, b, next);
      }
    }
  }

  /** One round, into the other buffer. */
  method RoundInto(g: Rows, sums: seq<real>, rank: array<real>, next: array<real>)
    requires Fits(g) && rank.Length == next.Length == g.n && rank != next
    requires |sums| == g.n && forall i | 0 <= i < g.n :: sums[i] == RowWeight(g, i) as real
    modifies next
    ensures next[..] == RoundOf(g, rank[..])
  {
    FillBase(g, rank, next);
    GiveAll(g, sums, rank, next);
  }

  method FindGreatest(rank: array<real>) returns (max: real)
    ensures max == Greatest(rank[..])
  {
    max := 0.0;
    for i := 0 to rank.Length
      invariant max == Greatest(rank[..i])
    {
      assert rank[..i + 1][..i] == rank[..i];
      if max < rank[i] {
        max := rank[i];
      }
    }
    assert rank[..rank.Length] == rank[..];
  }

  /** Twenty rounds, the two buffers changing places. */
  method RunRounds(g: Rows) returns (rank: array<real>)
    requires Fits(g)
    ensures fresh(rank) && rank.Length == g.n && rank[..] == After(g, Start(g), ROUNDS)
  {
    var first := 1.0 / Files(g);
    rank := new real[g.n](_ => first);
    var next := new real[g.n](_ => 0.0);
    assert rank[..] == Start(g);
    var sums := OutSums(g);
    for k := 0 to ROUNDS
      invariant rank.Length == next.Length == g.n && rank != next && fresh(rank) && fresh(next)
      invariant rank[..] == After(g, Start(g), k)
    {
      RoundInto(g, sums, rank, next);
      rank, next := next, rank;
    }
  }

  method ScaleAll(rank: array<real>)
    modifies rank
    ensures rank[..] == Scaled(old(rank[..]))
  {
    var max := FindGreatest(rank);
    max := AtLeast(max, 0.000000000001);
    for i := 0 to rank.Length
      invariant forall j | 0 <= j < i :: rank[j] == Scaled(old(rank[..]))[j]
      invariant forall j | i <= j < rank.Length :: rank[j] == old(rank[j])
    {
      rank[i] := rank[i] / max;
    }
  }

  /** The rank vector of a graph: twenty rounds, then scaled. */
  method PageRank(g: Rows) returns (ranks: seq<real>)
    requires Fits(g) && g.n < U32
    ensures ranks == Scaled(After(g, Start(g), ROUNDS))
    ensures |ranks| == g.n && Ranks(ranks)
  {
    var rank := RunRounds(g);
    AfterAbove(g, ROUNDS);
    ScaledRanks(g, rank[..]);
    ScaleAll(rank);
    ranks := rank[..];
  }
}
