// Version chains and import edges across base and deltas
// (crates/greeg-index/src/index.rs): an edited file keeps its edges under its
// newest id, and who imports a file is exactly the converse of what it imports.

module Edges {
  import opened Bytes
  import opened Trigrams
  import opened Versions
  import Graph

  /** The hop after which a chain is given up. */
  const GUARD := 64

  /** Where `hops` steps along `link` lead from `id`, or fewer where it ends. */
  function Chase(link: map<nat, nat>, id: nat, hops: nat): nat
    decreases hops
  {
    if hops == 0 || id !in link then id else Chase(link, link[id], hops - 1)
  }

  /** No step leads on from `id`. */
  predicate AtEnd(link: map<nat, nat>, id: nat) {
    id !in link
  }

  lemma {:induction false} ChaseSnoc(link: map<nat, nat>, id: nat, n: nat)
    ensures var x := Chase(link, id, n); Chase(link, id, n + 1) == if x in link then link[x] else x
    decreases n
  {
    if n > 0 && id in link {
      ChaseSnoc(link, link[id], n - 1);
    }
  }

  /** Steps past the end of a chain lead nowhere. */
  lemma {:induction false} ChaseSettles(link: map<nat, nat>, id: nat, n: nat, m: nat)
    requires AtEnd(link, Chase(link, id, n)) && n <= m
    ensures Chase(link, id, m) == Chase(link, id, n)
    decreases n
  {
    if n > 0 && id in link {
      ChaseSettles(link, link[id], n - 1, m - 1);
    }
  }

  lemma {:induction false} EndStays(link: map<nat, nat>, id: nat, n: nat, m: nat)
    requires !AtEnd(link, Chase(link, id, m)) && n <= m
    ensures !AtEnd(link, Chase(link, id, n))
    decreases n
  {
    if n > 0 && id in link {
      EndStays(link, link[id], n - 1, m - 1);
    }
  }

  // ------------------------------------------------------------ canon and latest

  method Follow(link: map<nat, nat>, start: nat) returns (id: nat)
    ensures id == Chase(link, start, GUARD + 1)
  {
    id := start;
    var guard := 0;
    while id in link
      invariant guard <= GUARD && id == Chase(link, start, guard)
      decreases GUARD - guard
    {
      ChaseSnoc(link, start, guard);
      id := link[id];
      guard := guard + 1;
      if guard > GUARD {
        return;
      }
    }
    ChaseSettles(link, start, guard, GUARD + 1);
  }

  /** The oldest and the newest id of a chain. */
  ghost function Root(ix: Index, id: nat): nat {
    Chase(ix.prev, id, |ix.deltas|)
  }

  ghost function Top(ix: Index, id: nat): nat {
    Chase(ix.next, id, |ix.deltas|)
  }

  /** What `canon` and `latest` give, guard included. */
  ghost function CanonOf(ix: Index, id: nat): nat {
    Chase(ix.prev, id, GUARD + 1)
  }

  ghost function LatestOf(ix: Index, id: nat): nat {
    Chase(ix.next, id, GUARD + 1)
  }

  /** The guard cuts a chain short exactly when it has more steps than that;
      an index of at most 65 deltas has no such chain. */
  method Canon(ix: Index, id: nat) returns (r: nat)
    requires Valid(ix)
    ensures r == CanonOf(ix, id)
    ensures r == Root(ix, id) <==> AtEnd(ix.prev, CanonOf(ix, id))
    ensures |ix.deltas| <= GUARD + 1 ==> r == Root(ix, id)
  {
    r := Follow(ix.prev, id);
    RootEnds(ix, id);
    if |ix.deltas| <= GUARD + 1 {
      ChaseSettles(ix.prev, id, |ix.deltas|, GUARD + 1);
    } else if AtEnd(ix.prev, r) {
      ChaseSettles(ix.prev, id, GUARD + 1, |ix.deltas|);
    }
  }

  method Latest(ix: Index, id: nat) returns (r: nat)
    requires Valid(ix)
    ensures r == LatestOf(ix, id)
    ensures r == Top(ix, id) <==> AtEnd(ix.next, LatestOf(ix, id))
    ensures |ix.deltas| <= GUARD + 1 ==> r == Top(ix, id)
  {
    r := Follow(ix.next, id);
    TopEnds(ix, id);
    if |ix.deltas| <= GUARD + 1 {
      ChaseSettles(ix.next, id, |ix.deltas|, GUARD + 1);
    } else if AtEnd(ix.next, r) {
      ChaseSettles(ix.next, id, GUARD + 1, |ix.deltas|);
    }
  }

  /** Below the last delta a chain does not see it. */
  lemma {:induction false} ChaseBelow(base: seq<Row>, ds: seq<Delta>, id: nat, n: nat)
    requires GoodDeltas(base, ds) && ds != [] && id < ds[|ds| - 1].firstId
    ensures Chase(PrevAll(ds), id, n) == Chase(PrevAll(ds[..|ds| - 1]), id, n) < ds[|ds| - 1].firstId
  {
    var front := ds[..|ds| - 1];
    LastFollows(base, ds);
    if n > 0 && id in PrevAll(ds) {
      PrevOfLater(base, ds, id);
      PrevMeans(base, front, id);
      ChaseBelow(base, ds, PrevAll(ds)[id], n - 1);
    }
  }

  lemma PrevOfLater(base: seq<Row>, ds: seq<Delta>, id: nat)
    requires GoodDeltas(base, ds) && ds != [] && id < ds[|ds| - 1].firstId
    ensures id !in PrevOf(ds[|ds| - 1])
  {
    PrevUpToMeans(ds[|ds| - 1], |ds[|ds| - 1].prev|, id);
  }

  /** Every step back leaves a segment, so a chain has as many steps at most as
      there are deltas. */
  lemma {:induction false} ChainShort(base: seq<Row>, ds: seq<Delta>, id: nat)
    requires GoodDeltas(base, ds)
    ensures AtEnd(PrevAll(ds), Chase(PrevAll(ds), id, |ds|))
    decreases |ds|
  {
    if ds != [] {
      var d, front := ds[|ds| - 1], ds[..|ds| - 1];
      LastFollows(base, ds);
      if id in PrevOf(d) {
        PrevOfMeans(base, front, d, id);
        EndBelow(base, ds, PrevAll(ds)[id]);
      } else if id in PrevAll(front) {
        PrevMeans(base, front, id);
        EndBelow(base, ds, id);
        ChaseSettles(PrevAll(ds), id, |ds| - 1, |ds|);
      }
    }
  }

  lemma {:induction false} EndBelow(base: seq<Row>, ds: seq<Delta>, id: nat)
    requires GoodDeltas(base, ds) && ds != [] && id < ds[|ds| - 1].firstId
    ensures AtEnd(PrevAll(ds), Chase(PrevAll(ds), id, |ds| - 1))
    decreases |ds|, 0
  {
    var front := ds[..|ds| - 1];
    LastFollows(base, ds);
    ChainShort(base, front, id);
    ChaseBelow(base, ds, id, |ds| - 1);
    PrevOfLater(base, ds, Chase(PrevAll(front), id, |front|));
  }

  lemma RootEnds(ix: Index, id: nat)
    requires Valid(ix)
    ensures AtEnd(ix.prev, Root(ix, id))
  {
    ChainShort(ix.base, ix.deltas, id);
  }

  /** A chain walked forward and back again. */
  lemma {:induction false} BackAgain(prev: map<nat, nat>, next: map<nat, nat>, id: nat, n: nat)
    requires Inverse(prev, next) && (n > 0 ==> !AtEnd(next, Chase(next, id, n - 1)))
    ensures Chase(prev, Chase(next, id, n), n) == id
  {
    if n > 0 {
      if n > 1 {
        EndStays(next, id, n - 2, n - 1);
      }
      ChaseSnoc(next, id, n - 1);
      BackAgain(prev, next, id, n - 1);
    }
  }

  /** A longer chain forward would make the chain back from its end too long. */
  lemma TopEnds(ix: Index, id: nat)
    requires Valid(ix)
    ensures AtEnd(ix.next, Top(ix, id))
  {
    var n := |ix.deltas|;
    if !AtEnd(ix.next, Chase(ix.next, id, n)) {
      EndStays(ix.next, id, 0, n);
      ForwardFrom(ix, id, n);
      BackAgain(ix.prev, ix.next, ix.next[id], n);
      RootEnds(ix, Chase(ix.next, id, n + 1));
    }
  }

  lemma ForwardFrom(ix: Index, id: nat, n: nat)
    requires id in ix.next && !AtEnd(ix.next, Chase(ix.next, id, n))
    ensures Chase(ix.next, id, n + 1) == Chase(ix.next, ix.next[id], n)
    ensures n > 0 ==> !AtEnd(ix.next, Chase(ix.next, ix.next[id], n - 1))
  {
  }

  // ------------------------------------------------------------ one chain, one file

  lemma RootOfNext(ix: Index, id: nat)
    requires Valid(ix) && id in ix.next
    ensures Root(ix, ix.next[id]) == Root(ix, id)
  {
    RootEnds(ix, id);
    RootEnds(ix, ix.next[id]);
    ChaseSettles(ix.prev, ix.next[id], |ix.deltas|, |ix.deltas| + 1);
  }

  lemma TopOfPrev(ix: Index, id: nat)
    requires Valid(ix) && id in ix.prev
    ensures Top(ix, ix.prev[id]) == Top(ix, id)
  {
    TopEnds(ix, id);
    TopEnds(ix, ix.prev[id]);
    ChaseSettles(ix.next, ix.prev[id], |ix.deltas|, |ix.deltas| + 1);
  }

  lemma {:induction false} RootAlong(ix: Index, id: nat, n: nat)
    requires Valid(ix)
    ensures Root(ix, Chase(ix.next, id, n)) == Root(ix, id)
  {
    if n > 0 {
      RootAlong(ix, id, n - 1);
      ChaseSnoc(ix.next, id, n - 1);
      if Chase(ix.next, id, n - 1) in ix.next {
        RootOfNext(ix, Chase(ix.next, id, n - 1));
      }
    }
  }

  lemma {:induction false} TopAlong(ix: Index, id: nat, n: nat)
    requires Valid(ix)
    ensures Top(ix, Chase(ix.prev, id, n)) == Top(ix, id)
  {
    if n > 0 {
      TopAlong(ix, id, n - 1);
      ChaseSnoc(ix.prev, id, n - 1);
      if Chase(ix.prev, id, n - 1) in ix.prev {
        TopOfPrev(ix, Chase(ix.prev, id, n - 1));
      }
    }
  }

  lemma LiveIsTop(ix: Index, id: nat)
    requires Valid(ix) && IsLive(ix, id)
    ensures AtEnd(ix.next, id) && Top(ix, id) == id
  {
    if id in ix.next {
      PrevMeans(ix.base, ix.deltas, ix.next[id]);
    }
  }

  /** A live id is the newest version of exactly the ids whose oldest version it
      shares. */
  lemma SameFile(ix: Index, id: nat, live: nat)
    requires Valid(ix) && IsLive(ix, live)
    ensures Top(ix, id) == live <==> Root(ix, id) == Root(ix, live)
  {
    LiveIsTop(ix, live);
    RootAlong(ix, id, |ix.deltas|);
    TopAlong(ix, id, |ix.deltas|);
    TopAlong(ix, live, |ix.deltas|);
  }

  lemma BaseIsRoot(ix: Index, id: nat)
    requires Valid(ix) && id < |ix.base|
    ensures id !in ix.prev && Root(ix, id) == id
  {
    BaseBefore(ix.base, ix.deltas, id);
  }

  lemma {:induction false} BaseBefore(base: seq<Row>, ds: seq<Delta>, id: nat)
    requires GoodDeltas(base, ds) && id < |base|
    ensures id !in PrevAll(ds)
  {
    if ds != [] {
      LastFollows(base, ds);
      RowsPrefix(base, ds[..|ds| - 1], 0);
      BaseBefore(base, ds[..|ds| - 1], id);
      PrevOfLater(base, ds, id);
    }
  }

  // ------------------------------------------------------------ edges

  ghost predicate DeltaEdge(d: Delta, from: nat, to: nat) {
    d.firstId <= from < d.firstId + |d.outs| && to in d.outs[from - d.firstId]
  }

  /** The segment of `from` recorded that it imports `to`. */
  ghost predicate Imports(ix: Index, g: Graph.GraphView, from: nat, to: nat) {
    if from < |ix.base| then to in g.Out(from)
    else exists n: nat :: n < |ix.deltas| && DeltaEdge(ix.deltas[n], from, to)
  }

  /** `to` is the live newest version of something `from` imports. */
  ghost predicate Reaches(ix: Index, g: Graph.GraphView, from: nat, to: nat) {
    IsLive(ix, to) && exists t: nat :: Imports(ix, g, from, t) && Top(ix, t) == to
  }

  ghost predicate DeltaImporter(ix: Index, from: nat, root: nat, n: nat)
    requires n < |ix.deltas|
  {
    exists t: nat :: DeltaEdge(ix.deltas[n], from, t) && Root(ix, t) == root
  }

  /** `from` is live and its segment recorded an edge to some version of `to`. */
  ghost predicate Importer(ix: Index, g: Graph.GraphView, from: nat, to: nat) {
    var root := Root(ix, to);
    && IsLive(ix, from)
    && ((root < |ix.base| && from in g.Incoming(root))
        || exists n: nat :: n < |ix.deltas| && DeltaImporter(ix, from, root, n))
  }

  /** A base graph over the files of the base. */
  ghost predicate BaseGraph(ix: Index, g: Graph.GraphView, es: seq<Graph.Edge>) {
    && Graph.IsGraph(g, es, |ix.base|)
    && forall i | 0 <= i < |es| :: es[i].from < |ix.base| && es[i].to < |ix.base|
  }

  lemma BaseTranspose(ix: Index, g: Graph.GraphView, es: seq<Graph.Edge>, f: nat, t: nat)
    requires BaseGraph(ix, g, es)
    ensures f < |ix.base| && t in g.Out(f) ==> t < |ix.base|
    ensures t < |ix.base| && f in g.Incoming(t) ==> f < |ix.base|
    ensures f < |ix.base| && t < |ix.base| ==> (t in g.Out(f) <==> f in g.Incoming(t))
  {
  }

  /** Segments do not share ids. */
  lemma SegmentsApart(ix: Index, n: nat, m: nat)
    requires Contiguous(ix.base, ix.deltas) && n < m < |ix.deltas|
    ensures |ix.base| <= ix.deltas[n].firstId
    ensures ix.deltas[n].firstId + |ix.deltas[n].rows| <= ix.deltas[m].firstId
  {
    var ds := ix.deltas;
    RowsSnoc(ix.base, ds, n);
    RowsPrefix(ix.base, ds[..n], 0);
    RowsPrefix(ix.base, ds[..m], n + 1);
    assert ds[..m][..n + 1] == ds[..n + 1];
  }

  lemma DeltaAfterBase(ix: Index, n: nat)
    requires Contiguous(ix.base, ix.deltas) && n < |ix.deltas|
    ensures |ix.base| <= ix.deltas[n].firstId
  {
    RowsPrefix(ix.base, ix.deltas[..n], 0);
  }

  lemma ImporterReaches(ix: Index, g: Graph.GraphView, es: seq<Graph.Edge>, a: nat, b: nat)
    requires Valid(ix) && BaseGraph(ix, g, es)
    requires IsLive(ix, b) && Importer(ix, g, a, b)
    ensures Reaches(ix, g, a, b)
  {
    var root := Root(ix, b);
    if root < |ix.base| && a in g.Incoming(root) {
      BaseTranspose(ix, g, es, a, root);
      BaseIsRoot(ix, root);
      SameFile(ix, root, b);
      assert Imports(ix, g, a, root) && Top(ix, root) == b;
    } else {
      var n: nat :| n < |ix.deltas| && DeltaImporter(ix, a, root, n);
      var t: nat :| DeltaEdge(ix.deltas[n], a, t) && Root(ix, t) == root;
      DeltaAfterBase(ix, n);
      SameFile(ix, t, b);
      assert Imports(ix, g, a, t) && Top(ix, t) == b;
    }
  }

  /** What a file imports and who imports it are converse relations over the
      live files, whatever was edited since the build. */
  lemma EdgesAreDual(ix: Index, g: Graph.GraphView, es: seq<Graph.Edge>, a: nat, b: nat)
    requires Valid(ix) && BaseGraph(ix, g, es)
    requires IsLive(ix, a) && IsLive(ix, b)
    ensures Reaches(ix, g, a, b) <==> Importer(ix, g, a, b)
  {
    var root := Root(ix, b);
    if Importer(ix, g, a, b) {
      ImporterReaches(ix, g, es, a, b);
    }
    if Reaches(ix, g, a, b) {
      var t: nat :| Imports(ix, g, a, t) && Top(ix, t) == b;
      SameFile(ix, t, b);
      BaseTranspose(ix, g, es, a, t);
      if a < |ix.base| {
        BaseIsRoot(ix, t);
      } else {
        var n: nat :| n < |ix.deltas| && DeltaEdge(ix.deltas[n], a, t);
        assert DeltaImporter(ix, a, root, n);
      }
    }
  }

  lemma {:induction false} PathAlong(ix: Index, id: nat, n: nat)
    requires Valid(ix) && id < |AllRows(ix)|
    ensures Chase(ix.prev, id, n) < |AllRows(ix)|
    ensures AllRows(ix)[Chase(ix.prev, id, n)].path == AllRows(ix)[id].path
    decreases n
  {
    if n > 0 && id in ix.prev {
      PrevMeans(ix.base, ix.deltas, id);
      PathAlong(ix, ix.prev[id], n - 1);
    }
  }

  /** An edge leads to the path that was imported, through every edit since. */
  lemma EdgesKeepPaths(ix: Index, g: Graph.GraphView, t: nat, to: nat)
    requires Valid(ix) && t < |AllRows(ix)| && IsLive(ix, to) && Top(ix, t) == to
    ensures AllRows(ix)[to].path == AllRows(ix)[t].path
  {
    SameFile(ix, t, to);
    PathAlong(ix, t, |ix.deltas|);
    PathAlong(ix, to, |ix.deltas|);
  }

  // ------------------------------------------------------------ the queries

  method RawEdges(ix: Index, g: Graph.GraphView, id: nat) returns (raw: seq<nat>)
    requires Valid(ix)
    ensures forall t: nat :: t in raw <==> Imports(ix, g, id, t)
    ensures ix.deltas == [] && id < |ix.base| ==> raw == g.Out(id)
    ensures ix.deltas == [] && id >= |ix.base| ==> raw == []
  {
    if id < |ix.base| {
      return g.Out(id);
    }
    var seg := SegmentOf(ix, id);
    match seg
    case None =>
      raw := [];
      forall t: nat ensures !Imports(ix, g, id, t) {
        NoSegment(ix, g, id, t);
      }
    case Some(s) =>
      var d := ix.deltas[s - 1];
      DeltaInRange(ix, s - 1);
      raw := d.outs[id - d.firstId];
      forall t: nat ensures t in raw <==> Imports(ix, g, id, t) {
        OnlySegment(ix, g, s - 1, id, t);
      }
  }

  lemma NoSegment(ix: Index, g: Graph.GraphView, id: nat, t: nat)
    requires Valid(ix) && id >= |AllRows(ix)| && id >= |ix.base|
    ensures !Imports(ix, g, id, t)
  {
    forall n: nat | n < |ix.deltas| ensures !DeltaEdge(ix.deltas[n], id, t) {
      DeltaInRange(ix, n);
    }
  }

  /** An id of one delta has no edges in another. */
  lemma OnlySegment(ix: Index, g: Graph.GraphView, k: nat, id: nat, t: nat)
    requires Valid(ix) && k < |ix.deltas| && id >= |ix.base| && InDelta(ix, k, id)
    ensures Imports(ix, g, id, t) <==> DeltaEdge(ix.deltas[k], id, t)
  {
    DeltaInRange(ix, k);
    forall n: nat | n < |ix.deltas| && n != k ensures !DeltaEdge(ix.deltas[n], id, t) {
      DeltaInRange(ix, n);
      if n < k {
        SegmentsApart(ix, n, k);
      } else {
        SegmentsApart(ix, k, n);
      }
    }
  }

  lemma DeltaInRange(ix: Index, n: nat)
    requires Valid(ix) && n < |ix.deltas|
    ensures |ix.deltas[n].outs| == |ix.deltas[n].rows|
    ensures ix.deltas[n].firstId + |ix.deltas[n].rows| <= |AllRows(ix)|
  {
    assert Follows(ix.base, ix.deltas[..n], ix.deltas[n]);
    RowsSnoc(ix.base, ix.deltas, n);
    RowsPrefix(ix.base, ix.deltas, n + 1);
  }

  /** What `out_edges` lists: the guard may lose an edge, never invent one. */
  ghost predicate Listed(ix: Index, g: Graph.GraphView, from: nat, to: nat) {
    IsLive(ix, to) && exists t: nat :: Imports(ix, g, from, t) && LatestOf(ix, t) == to
  }

  lemma ListedReaches(ix: Index, g: Graph.GraphView, from: nat, to: nat)
    requires Valid(ix)
    ensures Listed(ix, g, from, to) ==> Reaches(ix, g, from, to)
    ensures |ix.deltas| <= GUARD + 1 ==> (Listed(ix, g, from, to) <==> Reaches(ix, g, from, to))
  {
    forall t: nat
      ensures |ix.deltas| <= GUARD + 1 ==> LatestOf(ix, t) == Top(ix, t)
      ensures LatestOf(ix, t) == to && IsLive(ix, to) ==> Top(ix, t) == to
    {
      LatestIsTop(ix, t, to);
    }
  }

  lemma LatestIsTop(ix: Index, t: nat, to: nat)
    requires Valid(ix)
    ensures |ix.deltas| <= GUARD + 1 ==> LatestOf(ix, t) == Top(ix, t)
    ensures LatestOf(ix, t) == to && IsLive(ix, to) ==> Top(ix, t) == to
  {
    TopEnds(ix, t);
    if |ix.deltas| <= GUARD + 1 {
      ChaseSettles(ix.next, t, |ix.deltas|, GUARD + 1);
    } else if LatestOf(ix, t) == to && IsLive(ix, to) {
      LiveIsTop(ix, to);
      ChaseSettles(ix.next, t, GUARD + 1, |ix.deltas|);
    }
  }

  /** Live files `id` imports. */
  method OutEdges(ix: Index, g: Graph.GraphView, ghost es: seq<Graph.Edge>, id: nat) returns (v: seq<nat>)
    requires Valid(ix) && BaseGraph(ix, g, es)
    ensures StrictlyAscending(v)
    ensures forall to: nat :: to in v <==> Listed(ix, g, id, to)
    ensures forall to: nat | to in v :: Reaches(ix, g, id, to)
    ensures |ix.deltas| <= GUARD + 1 ==> forall to: nat :: to in v <==> Reaches(ix, g, id, to)
  {
    forall to: nat
      ensures Listed(ix, g, id, to) ==> Reaches(ix, g, id, to)
      ensures |ix.deltas| <= GUARD + 1 ==> (Listed(ix, g, id, to) <==> Reaches(ix, g, id, to))
    {
      ListedReaches(ix, g, id, to);
    }
    var raw := RawEdges(ix, g, id);
    if ix.deltas == [] {
      forall t: nat | t in raw ensures IsLive(ix, t) && Top(ix, t) == t {
        BaseTranspose(ix, g, es, id, t);
      }
      return raw;
    }
    v := LiveLatest(ix, raw);
    forall to: nat ensures to in v <==> Listed(ix, g, id, to) {
      assert forall k | 0 <= k < |raw| :: raw[k] in raw;
    }
  }

  method LiveLatest(ix: Index, raw: seq<nat>) returns (v: seq<nat>)
    requires Valid(ix)
    ensures StrictlyAscending(v)
    ensures forall to: nat :: to in v <==> IsLive(ix, to) && exists k :: 0 <= k < |raw| && LatestOf(ix, raw[k]) == to
  {
    var out: seq<nat> := [];
    for i := 0 to |raw|
      invariant forall to: nat :: to in out <==> IsLive(ix, to) && exists k :: 0 <= k < i && LatestOf(ix, raw[k]) == to
    {
      var t := Latest(ix, raw[i]);
      var live := Live(ix, t);
      if live {
        out := out + [t];
      }
    }
    v := SortDedup(out);
    assert forall to: nat :: to in v <==> to in out;
  }

  method Live(ix: Index, id: nat) returns (b: bool)
    requires Valid(ix)
    ensures b <==> IsLive(ix, id)
  {
    var seg := SegmentOf(ix, id);
    b := id !in ix.tomb && seg.Some?;
  }

  ghost predicate GuardedDelta(ix: Index, from: nat, root: nat, n: nat)
    requires n < |ix.deltas|
  {
    exists t: nat :: DeltaEdge(ix.deltas[n], from, t) && CanonOf(ix, t) == root
  }

  /** What `in_edges` lists, both ends through the guard. */
  ghost predicate ListedIn(ix: Index, g: Graph.GraphView, from: nat, to: nat) {
    var root := CanonOf(ix, to);
    && IsLive(ix, from)
    && ((root < |ix.base| && from in g.Incoming(root))
        || exists n: nat :: n < |ix.deltas| && GuardedDelta(ix, from, root, n))
  }

  lemma ListedInIsImporter(ix: Index, g: Graph.GraphView, from: nat, to: nat)
    requires Valid(ix) && |ix.deltas| <= GUARD + 1
    ensures ListedIn(ix, g, from, to) <==> Importer(ix, g, from, to)
  {
    forall t: nat ensures CanonOf(ix, t) == Root(ix, t) {
      RootEnds(ix, t);
      ChaseSettles(ix.prev, t, |ix.deltas|, GUARD + 1);
    }
    assert forall n: nat | n < |ix.deltas| ::
        GuardedDelta(ix, from, Root(ix, to), n) <==> DeltaImporter(ix, from, Root(ix, to), n);
  }

  /** Live files importing `id`. */
  method InEdges(ix: Index, g: Graph.GraphView, ghost es: seq<Graph.Edge>, id: nat) returns (v: seq<nat>)
    requires Valid(ix) && BaseGraph(ix, g, es)
    ensures StrictlyAscending(v)
    ensures forall from: nat :: from in v <==> ListedIn(ix, g, from, id)
    ensures |ix.deltas| <= GUARD + 1 ==> forall from: nat :: from in v <==> Importer(ix, g, from, id)
  {
    if |ix.deltas| <= GUARD + 1 {
      forall from: nat ensures ListedIn(ix, g, from, id) <==> Importer(ix, g, from, id) {
        ListedInIsImporter(ix, g, from, id);
      }
    }
    var root := Canon(ix, id);
    var baseIn: seq<nat> := [];
    if root < |ix.base| {
      baseIn := g.Incoming(root);
    }
    if ix.deltas == [] {
      forall f: nat | f in baseIn ensures IsLive(ix, f) {
        BaseTranspose(ix, g, es, f, root);
      }
      return baseIn;
    }
    var out := LiveOnes(ix, baseIn);
    out := AddDeltaImporters(ix, root, out);
    v := SortDedup(out);
    forall f: nat ensures f in v <==> ListedIn(ix, g, f, id) {
      assert f in v <==> f in out;
    }
  }

  method LiveOnes(ix: Index, ids: seq<nat>) returns (out: seq<nat>)
    requires Valid(ix)
    ensures forall f: nat :: f in out <==> IsLive(ix, f) && f in ids
  {
    out := [];
    for i := 0 to |ids|
      invariant forall f: nat :: f in out <==> IsLive(ix, f) && f in ids[..i]
    {
      assert ids[..i + 1] == ids[..i] + [ids[i]];
      var live := Live(ix, ids[i]);
      if live {
        out := out + [ids[i]];
      }
    }
    assert ids[..|ids|] == ids;
  }

  method AddDeltaImporters(ix: Index, root: nat, fromBase: seq<nat>) returns (out: seq<nat>)
    requires Valid(ix)
    ensures forall f: nat :: f in out <==>
      f in fromBase || (IsLive(ix, f) && exists k: nat :: k < |ix.deltas| && GuardedDelta(ix, f, root, k))
  {
    out := fromBase;
    for n := 0 to |ix.deltas|
      invariant forall f: nat :: f in out <==>
        f in fromBase || (IsLive(ix, f) && exists k: nat :: k < n && GuardedDelta(ix, f, root, k))
    {
      var more := DeltaImporters(ix, n, root);
      out := out + more;
    }
  }

  ghost predicate EdgeUpTo(ix: Index, d: Delta, from: nat, root: nat, local: nat, k: nat) {
    exists l: nat, j: nat :: EdgeAt(ix, d, l, j, root) && from == d.firstId + l && (l < local || (l == local && j < k))
  }

  ghost predicate EdgeAt(ix: Index, d: Delta, l: nat, j: nat, root: nat) {
    l < |d.outs| && j < |d.outs[l]| && CanonOf(ix, d.outs[l][j]) == root
  }

  method DeltaImporters(ix: Index, n: nat, root: nat) returns (out: seq<nat>)
    requires Valid(ix) && n < |ix.deltas|
    ensures forall f: nat :: f in out <==> IsLive(ix, f) && GuardedDelta(ix, f, root, n)
  {
    var d := ix.deltas[n];
    out := [];
    for local := 0 to |d.outs|
      invariant forall f: nat :: f in out <==> IsLive(ix, f) && EdgeUpTo(ix, d, f, root, local, 0)
    {
      for k := 0 to |d.outs[local]|
        invariant forall f: nat :: f in out <==> IsLive(ix, f) && EdgeUpTo(ix, d, f, root, local, k)
      {
        var c := Canon(ix, d.outs[local][k]);
        var live := Live(ix, d.firstId + local);
        EdgeStep(ix, d, root, local, k);
        if c == root && live {
          out := out + [d.firstId + local];
        }
      }
      EdgeRow(ix, d, root, local);
    }
    forall f: nat ensures EdgeUpTo(ix, d, f, root, |d.outs|, 0) <==> GuardedDelta(ix, f, root, n) {
      EdgesAll(ix, n, root, f);
    }
  }

  lemma EdgeStep(ix: Index, d: Delta, root: nat, local: nat, k: nat)
    requires local < |d.outs| && k < |d.outs[local]|
    ensures forall f: nat :: EdgeUpTo(ix, d, f, root, local, k + 1) <==>
      EdgeUpTo(ix, d, f, root, local, k) || (f == d.firstId + local && EdgeAt(ix, d, local, k, root))
  {
    forall f: nat | EdgeUpTo(ix, d, f, root, local, k + 1)
      ensures EdgeUpTo(ix, d, f, root, local, k) || (f == d.firstId + local && EdgeAt(ix, d, local, k, root))
    {
      var l: nat, j: nat :| EdgeAt(ix, d, l, j, root) && f == d.firstId + l && (l < local || (l == local && j < k + 1));
    }
  }

  lemma EdgeRow(ix: Index, d: Delta, root: nat, local: nat)
    requires local < |d.outs|
    ensures forall f: nat :: EdgeUpTo(ix, d, f, root, local + 1, 0) <==> EdgeUpTo(ix, d, f, root, local, |d.outs[local]|)
  {
  }

  lemma EdgesAll(ix: Index, n: nat, root: nat, f: nat)
    requires n < |ix.deltas|
    ensures EdgeUpTo(ix, ix.deltas[n], f, root, |ix.deltas[n].outs|, 0) <==> GuardedDelta(ix, f, root, n)
  {
    var d := ix.deltas[n];
    if EdgeUpTo(ix, d, f, root, |d.outs|, 0) {
      var l: nat, j: nat :| EdgeAt(ix, d, l, j, root) && f == d.firstId + l;
      assert DeltaEdge(d, f, d.outs[l][j]);
    }
    if GuardedDelta(ix, f, root, n) {
      var t: nat :| DeltaEdge(d, f, t) && CanonOf(ix, t) == root;
      var j: nat :| j < |d.outs[f - d.firstId]| && d.outs[f - d.firstId][j] == t;
      assert EdgeAt(ix, d, f - d.firstId, j, root);
    }
  }
}
