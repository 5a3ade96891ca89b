// The import edges a delta stores (crates/greeg-index/src/symtab.rs): rows of
// targets, and the id each file supersedes, as one padded section. Whatever is
// written reads back as exactly the edges recorded, and a section that is read at
// all has rows within its table.

module DeltaGraph {
  import opened Bytes
  import opened Graph
  import opened Trigrams
  import E = Edges
  import F = Format
  import P = Packed
  import V = Versions

  // ------------------------------------------------------------ the view

  predicate InOrder(off: seq<nat>) {
    forall i | 0 <= i < |off| - 1 :: off[i] <= off[i + 1]
  }

  lemma {:induction false} OffsetsBelow(off: seq<nat>, i: nat, j: nat)
    requires InOrder(off) && i <= j < |off|
    ensures off[i] <= off[j]
    decreases j
  {
    if i < j {
      OffsetsBelow(off, i, j - 1);
    }
  }

  datatype DeltaView = DeltaView(n: nat, prev: seq<nat>, outOff: seq<nat>, outTo: seq<nat>, outW: seq<nat>)
  {
    /** Every row lies within the table. */
    predicate Fits() {
      && |prev| == n && |outOff| == n + 1 && |outW| == |outTo|
      && outOff[n] == |outTo| && InOrder(outOff)
    }

    function Prev(local: nat): nat {
      if local < |prev| then prev[local] else NONE
    }

    /** Absolute ids imported by a file of the delta. */
    function Out(local: nat): seq<nat>
      requires Fits()
    {
      if local + 1 >= |outOff| then []
      else
        OffsetsBelow(outOff, local + 1, n);
        outTo[outOff[local]..outOff[local + 1]]
    }
  }

  // ------------------------------------------------------------ reading

  datatype Parsed = Ok(view: DeltaView) | Err(what: string)

  function DeltaShapes(n: nat, m: nat): seq<P.Shape> {
    [P.Shape(n, 4), P.Shape(n + 1, 4), P.Shape(m, 4), P.Shape(m, 2)]
  }

  /** `DeltaGraphView::parse`. */
  function Parse(b: Bytes): (r: Parsed)
    ensures r.Ok? ==> r.view.Fits()
  {
    if |b| < 16 then Err("short delta graph section")
    else ParseTables(b, F.LeValue(b[0..4]), F.LeValue(b[4..8]))
  }

  function ParseTables(b: Bytes, n: nat, m: nat): (r: Parsed)
    ensures r.Ok? ==> r.view.Fits() && r.view.n == n
  {
    var r := P.TakeAll(b, 16, DeltaShapes(n, m));
    if r.None? then Err("array truncated")
    else
      var v := DeltaView(n, r.value[0], r.value[1], r.value[2], r.value[3]);
      if v.outOff[n] == m && InOrder(v.outOff) then Ok(v) else Err("delta graph offsets corrupt")
  }

  // ------------------------------------------------------------ writing

  function TablesOf(v: DeltaView): seq<P.Table> {
    [P.Table(v.prev, 4), P.Table(v.outOff, 4), P.Table(v.outTo, 4), P.Table(v.outW, 2)]
  }

  ghost predicate FitAll(ts: seq<P.Table>) {
    forall i | 0 <= i < |ts| :: P.FitIn(ts[i].vs, ts[i].w)
  }

  lemma TablesAre(v: DeltaView)
    requires v.Fits()
    ensures P.Shapes(TablesOf(v)) == DeltaShapes(v.n, |v.outTo|)
    ensures P.Values(TablesOf(v)) == [v.prev, v.outOff, v.outTo, v.outW]
  {
  }

  lemma {:induction false} ParsesAs(b: Bytes, v: DeltaView)
    requires v.Fits()
    requires P.TakeAll(b, 16, DeltaShapes(v.n, |v.outTo|)) == Some([v.prev, v.outOff, v.outTo, v.outW])
    ensures ParseTables(b, v.n, |v.outTo|) == Ok(v)
  {
  }

  /** What was written is what is read. */
  lemma {:induction false} SectionRoundTrip(v: DeltaView)
    requires v.Fits() && v.n < U32 && |v.outTo| < U32 && FitAll(TablesOf(v))
    ensures Parse(P.Head(v.n, |v.outTo|) + P.Pack(TablesOf(v))) == Ok(v)
  {
    var head, packed := P.Head(v.n, |v.outTo|), P.Pack(TablesOf(v));
    P.HeadReads(v.n, |v.outTo|, packed);
    P.PackReads(head, TablesOf(v));
    TablesAre(v);
    ParsesAs(head + packed, v);
  }

  // ------------------------------------------------------------ the builder

  /** The view holds exactly these edges and superseded ids, each edge once with
      its capped total weight. */
  ghost predicate Records(v: DeltaView, n: nat, prev: seq<nat>, es: seq<Edge>) {
    && v.Fits() && v.n == n && v.prev == prev
    && (forall f: nat | f < n :: StrictlyAscending(v.Out(f)))
    && (forall f: nat, t: nat | f < n :: t in v.Out(f) <==> Linked(es, f, t))
    && (forall f: nat, i: nat | f < n && v.outOff[f] <= i < v.outOff[f + 1] && i < |v.outTo| ::
          v.outW[i] == Capped(TotalWeight(es, f, v.outTo[i])))
  }

  /** The tables of some sorted, merged edges. */
  ghost predicate Tabled(v: DeltaView, n: nat, prev: seq<nat>, es: seq<Edge>) {
    && v.n == n && v.prev == prev && |prev| == n
    && AreOffsets(Froms(es), n, v.outOff) && v.outTo == Tos(es) && v.outW == Weights(es)
  }

  lemma {:induction false} OffsetsInOrder(es: seq<Edge>, n: nat, off: seq<nat>)
    requires AreOffsets(Froms(es), n, off) && forall i | 0 <= i < |es| :: es[i].from < n
    ensures InOrder(off) && off[n] == |es| && forall i | 0 <= i <= n :: off[i] <= |es|
  {
    CountBelowAll(Froms(es), n);
    forall i | 0 <= i <= n ensures off[i] <= |es| {
      CountBelowMonotone(Froms(es), i, n);
    }
    forall i | 0 <= i < |off| - 1 ensures off[i] <= off[i + 1] {
      CountBelowMonotone(Froms(es), i, i + 1);
    }
  }

  lemma {:induction false} RowIsTargets(v: DeltaView, n: nat, prev: seq<nat>, es: seq<Edge>, f: nat)
    requires v.Fits() && Tabled(v, n, prev, es) && PairsAscending(es) && f < n
    ensures v.Out(f) == Targets(es, f)
  {
    TargetsAreRow(es, f);
  }

  lemma {:induction false} TablesRecord(v: DeltaView, n: nat, prev: seq<nat>, es: seq<Edge>, edges: seq<Edge>)
    requires v.Fits() && Tabled(v, n, prev, es) && Merges(es, edges)
    ensures Records(v, n, prev, edges)
  {
    forall f: nat | f < n ensures StrictlyAscending(v.Out(f)) {
      RowIsTargets(v, n, prev, es, f);
      TargetsMean(es, f, 0);
    }
    forall f: nat, t: nat | f < n ensures t in v.Out(f) <==> Linked(edges, f, t) {
      RowIsTargets(v, n, prev, es, f);
      TargetsMean(es, f, t);
    }
    forall f: nat, i: nat | f < n && v.outOff[f] <= i < v.outOff[f + 1] && i < |v.outTo|
      ensures v.outW[i] == Capped(TotalWeight(edges, f, v.outTo[i]))
    {
      RowSource(es, f, i);
    }
  }

  /** An edge the builder keeps. */
  predicate Kept(n: nat, from: nat, to: nat) {
    to != NONE && from < n
  }

  class DeltaGraphBuilder {
    const n: u32
    var prev: seq<u32>
    var edges: seq<Edge>

    ghost predicate Valid()
      reads this
    {
      |prev| == n && forall i | 0 <= i < |edges| :: edges[i].from < n && edges[i].to < U32
    }

    constructor (n: u32)
      ensures Valid() && this.n == n && edges == [] && prev == seq(n, _ => NONE)
    {
      this.n, edges, prev := n, [], seq(n, _ => NONE);
    }

    /** A file that is not of this delta is passed over. */
    method SetPrev(local: nat, id: u32)
      requires Valid()
      modifies this`prev
      ensures Valid() && prev == if local < n then old(prev)[local := id] else old(prev)
    {
      if local < |prev| {
        prev := prev[local := id];
      }
    }

    /** `from` is a file of the delta, `to` an id of the index. */
    method Add(from: nat, to: u32, w: Weight)
      requires Valid()
      modifies this`edges
      ensures Valid() && edges == old(edges) + if Kept(n, from, to) then [Edge(from, to, w)] else []
    {
      if to != NONE && from < n {
        edges := edges + [Edge(from, to, w)];
      }
    }

    /** The section written, at most 2^32 - 1 edges of it, reads back as the edges and links recorded. */
    method Finish() returns (body: Bytes)
      requires Valid() && |edges| < U32
      ensures Parse(body).Ok? && Records(Parse(body).view, n, prev, edges)
    {
      var es := MergeEdges(SortEdges(edges));
      SortMergeMeans(edges);
      MergedLength(edges);
      MergedInRange(es, edges, n, U32);
      var outOff := RowOffsets(Froms(es), n);
      var v := DeltaView(n, prev, outOff[..], Tos(es), Weights(es));
      body := P.PutAll(n, |es|, TablesOf(v));
      WrittenReads(v, n, prev, es, edges);
    }
  }

  lemma {:induction false} WrittenReads(v: DeltaView, n: nat, prev: seq<u32>, es: seq<Edge>, edges: seq<Edge>)
    requires Tabled(v, n, prev, es) && Merges(es, edges) && n < U32 && |es| < U32
    requires forall i | 0 <= i < |es| :: es[i].from < n && es[i].to < U32
    ensures Parse(P.Head(n, |es|) + P.Pack(TablesOf(v))) == Ok(v) && Records(v, n, prev, edges)
  {
    OffsetsInOrder(es, n, v.outOff);
    TablesRecord(v, n, prev, es, edges);
    F.Widths();
    SectionRoundTrip(v);
  }

  // ------------------------------------------------------------ one delta, stored

  function StoredId(prev: Option<nat>): u32
    requires prev.Some? ==> prev.value < NONE
  {
    if prev.Some? then prev.value else NONE
  }

  function ReadId(id: nat): Option<nat> {
    if id == NONE then None else Some(id)
  }

  function EdgeCount(outs: seq<seq<nat>>): nat {
    if outs == [] then 0 else EdgeCount(outs[..|outs| - 1]) + |outs[|outs| - 1]|
  }

  /** Ids that are not the reserved one, and fewer edges than an offset can say. */
  ghost predicate Storable(d: V.Delta) {
    && |d.prev| == |d.outs| == |d.rows| < U32 && EdgeCount(d.outs) < U32
    && (forall i | 0 <= i < |d.prev| && d.prev[i].Some? :: d.prev[i].value < NONE)
    && (forall i, k | 0 <= i < |d.outs| && 0 <= k < |d.outs[i]| :: d.outs[i][k] < NONE)
  }

  /** The first `i` files' targets, and the first `k` of the next file's. */
  ghost predicate Given(outs: seq<seq<nat>>, i: nat, k: nat, f: nat, t: nat) {
    f < |outs| && ((f < i && t in outs[f]) || (f == i && k <= |outs[i]| && t in outs[i][..k]))
  }

  /** The links, as `build_delta` sets them. */
  method SetLinks(b: DeltaGraphBuilder, d: V.Delta)
    requires b.Valid() && b.n == |d.prev| && Storable(d)
    modifies b`prev
    ensures b.Valid() && forall i: nat | i < b.n :: b.prev[i] == StoredId(d.prev[i])
  {
    for i := 0 to |d.prev|
      invariant b.Valid() && forall j: nat | j < i :: b.prev[j] == StoredId(d.prev[j])
    {
      b.SetPrev(i, StoredId(d.prev[i]));
    }
  }

  lemma GivenStep(outs: seq<seq<nat>>, i: nat, k: nat, es: seq<Edge>, e: Edge)
    requires i < |outs| && k < |outs[i]| && e.from == i && e.to == outs[i][k]
    requires forall f: nat, t: nat :: Linked(es, f, t) <==> Given(outs, i, k, f, t)
    ensures forall f: nat, t: nat :: Linked(es + [e], f, t) <==> Given(outs, i, k + 1, f, t)
  {
    assert outs[i][..k + 1] == outs[i][..k] + [outs[i][k]];
    forall f: nat, t: nat ensures Linked(es + [e], f, t) <==> Given(outs, i, k + 1, f, t) {
      LinkedSnoc(es + [e], f, t);
      assert (es + [e])[..|es|] == es;
    }
  }

  lemma GivenRow(outs: seq<seq<nat>>, i: nat, f: nat, t: nat)
    requires i < |outs|
    ensures Given(outs, i, |outs[i]|, f, t) <==> Given(outs, i + 1, 0, f, t)
  {
    assert outs[i][..|outs[i]|] == outs[i];
  }

  /** The edges, file after file. */
  method AddEdges(b: DeltaGraphBuilder, d: V.Delta, weight: (nat, nat) -> Weight)
    requires b.Valid() && b.n == |d.outs| && b.edges == [] && Storable(d)
    modifies b`edges
    ensures b.Valid() && |b.edges| == EdgeCount(d.outs)
    ensures forall f: nat, t: nat :: Linked(b.edges, f, t) <==> f < |d.outs| && t in d.outs[f]
  {
    for i := 0 to |d.outs|
      invariant b.Valid() && |b.edges| == EdgeCount(d.outs[..i])
      invariant forall f: nat, t: nat :: Linked(b.edges, f, t) <==> Given(d.outs, i, 0, f, t)
    {
      for k := 0 to |d.outs[i]|
        invariant b.Valid() && |b.edges| == EdgeCount(d.outs[..i]) + k
        invariant forall f: nat, t: nat :: Linked(b.edges, f, t) <==> Given(d.outs, i, k, f, t)
      {
        GivenStep(d.outs, i, k, b.edges, Edge(i, d.outs[i][k], weight(i, k)));
        b.Add(i, d.outs[i][k], weight(i, k));
      }
      assert d.outs[..i + 1][..i] == d.outs[..i];
      forall f: nat, t: nat ensures Given(d.outs, i, |d.outs[i]|, f, t) <==> Given(d.outs, i + 1, 0, f, t) {
        GivenRow(d.outs, i, f, t);
      }
    }
    assert d.outs[..|d.outs|] == d.outs;
  }

  /** The same delta with each file's targets sorted, each once. */
  ghost predicate SameEdges(d: V.Delta, r: V.Delta) {
    && r == d.(outs := r.outs) && |r.outs| == |d.outs|
    && (forall i | 0 <= i < |d.outs| :: StrictlyAscending(r.outs[i]))
    && (forall i, t | 0 <= i < |d.outs| :: t in r.outs[i] <==> t in d.outs[i])
  }

  /** A delta as `parse_delta` finds it: the rest of it, and the graph section. */
  function WithGraph(d: V.Delta, v: DeltaView): V.Delta
    requires v.Fits()
  {
    d.(prev := seq(|d.rows|, i requires 0 <= i => ReadId(v.Prev(i))),
       outs := seq(|d.rows|, i requires 0 <= i => v.Out(i)))
  }

  /** The graph part of `parse_delta`: a delta without the section has no links
      and no edges; one of another number of files is refused. */
  function ReadGraph(d: V.Delta, body: Bytes): Option<V.Delta> {
    if body == [] then Some(d.(prev := seq(|d.rows|, _ => None), outs := seq(|d.rows|, _ => [])))
    else
      var r := Parse(body);
      if r.Ok? && r.view.n == |d.rows| then Some(WithGraph(d, r.view)) else None
  }

  lemma GraphIsSame(d: V.Delta, v: DeltaView, prev: seq<nat>, es: seq<Edge>)
    requires Storable(d) && Records(v, |d.rows|, prev, es)
    requires |prev| == |d.rows| && forall i: nat | i < |prev| :: prev[i] == StoredId(d.prev[i])
    requires forall f: nat, t: nat :: Linked(es, f, t) <==> f < |d.outs| && t in d.outs[f]
    ensures SameEdges(d, WithGraph(d, v))
  {
    assert WithGraph(d, v).prev == d.prev;
  }

  /** A delta's graph written and read back. */
  method StoreGraph(d: V.Delta, weight: (nat, nat) -> Weight) returns (r: Option<V.Delta>)
    requires Storable(d)
    ensures r.Some? && SameEdges(d, r.value)
  {
    var b := new DeltaGraphBuilder(|d.rows|);
    SetLinks(b, d);
    AddEdges(b, d, weight);
    var body := b.Finish();
    GraphIsSame(d, Parse(body).view, b.prev, b.edges);
    r := ReadGraph(d, body);
  }

  // ------------------------------------------------------------ every delta, stored

  ghost predicate SameDeltas(ds: seq<V.Delta>, rs: seq<V.Delta>) {
    |ds| == |rs| && forall n | 0 <= n < |ds| :: SameEdges(ds[n], rs[n])
  }

  lemma {:induction false} SameSegments(base: seq<V.Row>, ds: seq<V.Delta>, rs: seq<V.Delta>)
    requires SameDeltas(ds, rs)
    ensures V.Rows(base, rs) == V.Rows(base, ds)
    ensures V.TombAll(rs) == V.TombAll(ds) && V.PrevAll(rs) == V.PrevAll(ds)
    decreases |ds|
  {
    if ds != [] {
      var n := |ds| - 1;
      SameSegments(base, ds[..n], rs[..n]);
      assert SameEdges(ds[n], rs[n]);
      SameLinks(ds[n], rs[n], |ds[n].prev|);
    }
  }

  lemma {:induction false} SameLinks(d: V.Delta, r: V.Delta, local: nat)
    requires SameEdges(d, r) && local <= |d.prev|
    ensures V.PrevUpTo(r, local) == V.PrevUpTo(d, local)
  {
    if local > 0 {
      SameLinks(d, r, local - 1);
    }
  }

  lemma {:induction false} SameFollows(base: seq<V.Row>, ds: seq<V.Delta>, rs: seq<V.Delta>, d: V.Delta, r: V.Delta)
    requires SameDeltas(ds, rs) && SameEdges(d, r) && V.Follows(base, ds, d)
    ensures V.Follows(base, rs, r)
  {
    SameSegments(base, ds, rs);
    forall id | id in r.tomb ensures V.LiveBefore(base, rs, id) {
      assert V.LiveBefore(base, ds, id);
    }
    forall i: nat | i < |r.prev| ensures V.SupersedesOwn(base, rs, r, i) {
      assert V.SupersedesOwn(base, ds, d, i);
    }
    forall i, k | 0 <= i < |r.outs| && 0 <= k < |r.outs[i]|
      ensures r.outs[i][k] < |V.Rows(base, rs)| + |r.rows|
    {
      assert r.outs[i][k] in d.outs[i];
    }
  }

  /** The index with every delta's graph read back is as good as before. */
  lemma {:induction false} SameValid(ix: V.Index, rs: seq<V.Delta>)
    requires V.Valid(ix) && SameDeltas(ix.deltas, rs)
    ensures V.Valid(ix.(deltas := rs)) && V.AllRows(ix.(deltas := rs)) == V.AllRows(ix)
  {
    var ds := ix.deltas;
    SameSegments(ix.base, ds, rs);
    forall n | 0 <= n < |rs| ensures V.Follows(ix.base, rs[..n], rs[n]) {
      assert V.Follows(ix.base, ds[..n], ds[n]) && SameEdges(ds[n], rs[n]);
      SameFollows(ix.base, ds[..n], rs[..n], ds[n], rs[n]);
    }
    V.GoodIsContiguous(ix.base, rs);
    forall a: nat, b: nat | V.LiveBefore(ix.base, rs, a) && V.LiveBefore(ix.base, rs, b)
        && V.Rows(ix.base, rs)[a].path == V.Rows(ix.base, rs)[b].path
      ensures a == b
    {
      assert V.LiveBefore(ix.base, ds, a) && V.LiveBefore(ix.base, ds, b);
    }
  }

  /** The same index with other edge lists. */
  ghost predicate SameIndex(ix: V.Index, now: V.Index) {
    && now == ix.(deltas := now.deltas) && SameDeltas(ix.deltas, now.deltas)
    && V.AllRows(now) == V.AllRows(ix)
  }

  lemma SameImports(ix: V.Index, now: V.Index, g: GraphView, from: nat, to: nat)
    requires SameIndex(ix, now)
    ensures E.Imports(now, g, from, to) <==> E.Imports(ix, g, from, to)
  {
    forall n: nat | n < |ix.deltas|
      ensures E.DeltaEdge(now.deltas[n], from, to) <==> E.DeltaEdge(ix.deltas[n], from, to)
    {
      assert SameEdges(ix.deltas[n], now.deltas[n]);
    }
  }

  lemma SameListed(ix: V.Index, now: V.Index, g: GraphView, from: nat, to: nat)
    requires SameIndex(ix, now)
    ensures E.Listed(now, g, from, to) <==> E.Listed(ix, g, from, to)
  {
    forall t: nat ensures E.Imports(now, g, from, t) <==> E.Imports(ix, g, from, t) {
      SameImports(ix, now, g, from, t);
    }
    assert forall t: nat :: E.LatestOf(now, t) == E.LatestOf(ix, t);
  }

  lemma SameGuarded(ix: V.Index, now: V.Index, from: nat, root: nat, n: nat)
    requires SameIndex(ix, now) && n < |ix.deltas|
    ensures E.GuardedDelta(now, from, root, n) <==> E.GuardedDelta(ix, from, root, n)
  {
    assert SameEdges(ix.deltas[n], now.deltas[n]);
    forall t: nat
      ensures E.DeltaEdge(now.deltas[n], from, t) <==> E.DeltaEdge(ix.deltas[n], from, t)
      ensures E.CanonOf(now, t) == E.CanonOf(ix, t)
    {
    }
  }

  lemma SameListedIn(ix: V.Index, now: V.Index, g: GraphView, from: nat, to: nat)
    requires SameIndex(ix, now)
    ensures E.ListedIn(now, g, from, to) <==> E.ListedIn(ix, g, from, to)
  {
    var root := E.CanonOf(ix, to);
    forall n: nat | n < |ix.deltas| ensures E.GuardedDelta(now, from, root, n) <==> E.GuardedDelta(ix, from, root, n) {
      SameGuarded(ix, now, from, root, n);
    }
  }

  method StoreGraphs(ds: seq<V.Delta>, weight: (nat, nat) -> Weight) returns (rs: seq<V.Delta>)
    requires forall n | 0 <= n < |ds| :: Storable(ds[n])
    ensures SameDeltas(ds, rs)
  {
    rs := [];
    for n := 0 to |ds|
      invariant |rs| == n && forall j | 0 <= j < n :: SameEdges(ds[j], rs[j])
    {
      var r := StoreGraph(ds[n], weight);
      rs := rs + [r.value];
    }
  }

  /** Ids stay below the reserved one, and a delta has fewer than 2^32 edges. */
  ghost predicate InWidths(ix: V.Index) {
    |V.AllRows(ix)| < NONE && forall n | 0 <= n < |ix.deltas| :: EdgeCount(ix.deltas[n].outs) < U32
  }

  lemma ValidIsStorable(ix: V.Index, n: nat)
    requires V.Valid(ix) && InWidths(ix) && n < |ix.deltas|
    ensures Storable(ix.deltas[n])
  {
    var d := ix.deltas[n];
    assert V.Follows(ix.base, ix.deltas[..n], d);
    E.DeltaInRange(ix, n);
    forall i | 0 <= i < |d.prev| && d.prev[i].Some? ensures d.prev[i].value < NONE {
      assert V.SupersedesOwn(ix.base, ix.deltas[..n], d, i);
    }
  }

  /** The two queries over deltas whose graphs were written and read back give what
      the edges recorded say. */
  method AnswersFromDisk(ix: V.Index, g: GraphView, ghost es: seq<Edge>, id: nat, weight: (nat, nat) -> Weight)
    returns (outs: seq<nat>, ins: seq<nat>)
    requires V.Valid(ix) && E.BaseGraph(ix, g, es) && InWidths(ix)
    ensures StrictlyAscending(outs) && forall to: nat :: to in outs <==> E.Listed(ix, g, id, to)
    ensures StrictlyAscending(ins) && forall from: nat :: from in ins <==> E.ListedIn(ix, g, from, id)
  {
    forall n | 0 <= n < |ix.deltas| ensures Storable(ix.deltas[n]) {
      ValidIsStorable(ix, n);
    }
    var rs := StoreGraphs(ix.deltas, weight);
    var now := ix.(deltas := rs);
    SameValid(ix, rs);
    forall f: nat, t: nat
      ensures E.Listed(now, g, f, t) <==> E.Listed(ix, g, f, t)
      ensures E.ListedIn(now, g, f, t) <==> E.ListedIn(ix, g, f, t)
    {
      SameListed(ix, now, g, f, t);
      SameListedIn(ix, now, g, f, t);
    }
    outs := E.OutEdges(now, g, es, id);
    ins := E.InEdges(now, g, es, id);
  }
}
