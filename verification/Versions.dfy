// The index as base, deltas and superseded ids (crates/greeg-index/src/
// fresh.rs, build.rs, index.rs): every edit appends a segment and retires ids.
// The live view stays what a single table with the edits made would say, and
// the chain of a file's versions runs from its first id to its live one.

module Versions {
  import opened Bytes
  import opened Trigrams

  /** A tracked file: its path and what was indexed of it. */
  datatype Row = Row(path: Bytes, content: Bytes)

  /** A delta segment: its first id, its files, the id each of them supersedes,
      the files each of them imports, and every id it retires. */
  datatype Delta = Delta(firstId: nat, rows: seq<Row>, prev: seq<Option<nat>>, outs: seq<seq<nat>>, tomb: set<nat>)

  /** What a freshness check found. */
  datatype Changes = Changes(modified: seq<(nat, Row)>, deleted: seq<nat>, added: seq<Row>)

  /** An opened index. */
  datatype Index = Index(base: seq<Row>, deltas: seq<Delta>, tomb: set<nat>, prev: map<nat, nat>, next: map<nat, nat>)

  // ------------------------------------------------------------ ids

  function Rows(base: seq<Row>, ds: seq<Delta>): (r: seq<Row>) {
    if ds == [] then base else Rows(base, ds[..|ds| - 1]) + ds[|ds| - 1].rows
  }

  /** Every row of the index; a file's id is its position. */
  function AllRows(ix: Index): seq<Row> {
    Rows(ix.base, ix.deltas)
  }

  /** Next free file id for a new delta. */
  function NextId(ix: Index): nat {
    if ix.deltas == [] then |ix.base|
    else ix.deltas[|ix.deltas| - 1].firstId + |ix.deltas[|ix.deltas| - 1].rows|
  }

  /** Each delta starts where the segments before it end. */
  ghost predicate Contiguous(base: seq<Row>, ds: seq<Delta>) {
    forall n | 0 <= n < |ds| :: ds[n].firstId == |Rows(base, ds[..n])|
  }

  lemma {:induction false} RowsSnoc(base: seq<Row>, ds: seq<Delta>, n: nat)
    requires n < |ds|
    ensures Rows(base, ds[..n + 1]) == Rows(base, ds[..n]) + ds[n].rows
  {
    assert ds[..n + 1][..n] == ds[..n];
  }

  lemma {:induction false} RowsPrefix(base: seq<Row>, ds: seq<Delta>, n: nat)
    requires n <= |ds|
    ensures Rows(base, ds[..n]) <= Rows(base, ds)
    decreases |ds| - n
  {
    if n < |ds| {
      RowsSnoc(base, ds, n);
      RowsPrefix(base, ds, n + 1);
    } else {
      assert ds[..n] == ds;
    }
  }

  lemma NextIdIsEnd(ix: Index)
    requires Contiguous(ix.base, ix.deltas)
    ensures NextId(ix) == |AllRows(ix)|
  {
  }

  predicate IsLive(ix: Index, id: nat) {
    id !in ix.tomb && id < |AllRows(ix)|
  }

  /** `id` is a file of delta `n + 1`. */
  ghost predicate InDelta(ix: Index, n: nat, id: nat)
    requires n < |ix.deltas|
  {
    var d := ix.deltas[n];
    d.firstId <= id < d.firstId + |d.rows| && id < |AllRows(ix)| && AllRows(ix)[id] == d.rows[id - d.firstId]
  }

  lemma DeltaHolds(ix: Index, n: nat, id: nat)
    requires Contiguous(ix.base, ix.deltas) && n < |ix.deltas|
    requires ix.deltas[n].firstId <= id < ix.deltas[n].firstId + |ix.deltas[n].rows|
    ensures InDelta(ix, n, id)
  {
    RowsSnoc(ix.base, ix.deltas, n);
    RowsPrefix(ix.base, ix.deltas, n + 1);
  }

  /** The segment of an id: 0 for the base, `n` for delta `n`. */
  method SegmentOf(ix: Index, id: nat) returns (seg: Option<nat>)
    requires Contiguous(ix.base, ix.deltas)
    ensures seg.Some? <==> id < |AllRows(ix)|
    ensures seg == Some(0) <==> id < |ix.base|
    ensures seg.Some? && seg.value > 0 ==> seg.value <= |ix.deltas| && InDelta(ix, seg.value - 1, id)
  {
    RowsPrefix(ix.base, ix.deltas, 0);
    if id < |ix.base| {
      return Some(0);
    }
    for n := 0 to |ix.deltas|
      invariant id >= |Rows(ix.base, ix.deltas[..n])|
    {
      RowsSnoc(ix.base, ix.deltas, n);
      var d := ix.deltas[n];
      if d.firstId <= id < d.firstId + |d.rows| {
        DeltaHolds(ix, n, id);
        return Some(n + 1);
      }
    }
    assert ix.deltas[..|ix.deltas|] == ix.deltas;
    seg := None;
  }

  // ------------------------------------------------------------ opening

  /** The links of older deltas, and of a delta's first `local` files. */
  function PartLinks(prevIn: map<nat, nat>, d: Delta, local: nat): map<nat, nat>
    requires local <= |d.prev|
  {
    if local == 0 then prevIn
    else
      var older := PartLinks(prevIn, d, local - 1);
      if d.prev[local - 1].Some? then older[d.firstId + local - 1 := d.prev[local - 1].value] else older
  }

  /** The same links turned round, the last one for an id standing. */
  function PartNext(nextIn: map<nat, nat>, d: Delta, local: nat): map<nat, nat>
    requires local <= |d.prev|
  {
    if local == 0 then nextIn
    else
      var older := PartNext(nextIn, d, local - 1);
      if d.prev[local - 1].Some? then older[d.prev[local - 1].value := d.firstId + local - 1] else older
  }

  /** File `id` of the delta supersedes another. */
  predicate Superseding(d: Delta, id: nat) {
    d.firstId <= id < d.firstId + |d.prev| && d.prev[id - d.firstId].Some?
  }

  /** What a delta's first `local` files supersede. */
  function PrevUpTo(d: Delta, local: nat): map<nat, nat>
    requires local <= |d.prev|
  {
    if local == 0 then map[]
    else
      var older := PrevUpTo(d, local - 1);
      if d.prev[local - 1].Some? then older[d.firstId + local - 1 := d.prev[local - 1].value] else older
  }

  function PrevOf(d: Delta): map<nat, nat> {
    PrevUpTo(d, |d.prev|)
  }

  lemma {:induction false} PrevUpToMeans(d: Delta, local: nat, id: nat)
    requires local <= |d.prev|
    ensures id in PrevUpTo(d, local) <==> id < d.firstId + local && Superseding(d, id)
    ensures id in PrevUpTo(d, local) ==> PrevUpTo(d, local)[id] == d.prev[id - d.firstId].value
    decreases local
  {
    if local > 0 {
      PrevUpToMeans(d, local - 1, id);
    }
  }

  function PrevAll(ds: seq<Delta>): map<nat, nat> {
    if ds == [] then map[] else PrevAll(ds[..|ds| - 1]) + PrevOf(ds[|ds| - 1])
  }

  function TombAll(ds: seq<Delta>): set<nat> {
    if ds == [] then {} else TombAll(ds[..|ds| - 1]) + ds[|ds| - 1].tomb
  }

  /** `next` is `prev` turned round: what was superseded, to what replaced it. */
  ghost predicate Inverse(prev: map<nat, nat>, next: map<nat, nat>) {
    && (forall id | id in prev :: prev[id] in next && next[prev[id]] == id)
    && (forall was | was in next :: next[was] in prev && prev[next[was]] == was)
  }

  /** What an index records of its own deltas. */
  ghost predicate Opened(ix: Index) {
    && Contiguous(ix.base, ix.deltas)
    && ix.tomb == TombAll(ix.deltas)
    && ix.prev == PrevAll(ix.deltas) && Inverse(ix.prev, ix.next)
  }

  // ------------------------------------------------------------ well-formed histories

  /** The index as it stood before delta `n + 1`. */
  ghost predicate LiveBefore(base: seq<Row>, ds: seq<Delta>, id: nat) {
    id < |Rows(base, ds)| && id !in TombAll(ds)
  }

  ghost predicate RetiresLive(base: seq<Row>, ds: seq<Delta>, d: Delta) {
    forall id | id in d.tomb :: LiveBefore(base, ds, id)
  }

  /** File `i` of the delta supersedes nothing, or a retired version of its path. */
  ghost predicate SupersedesOwn(base: seq<Row>, ds: seq<Delta>, d: Delta, i: nat) {
    i < |d.prev| == |d.rows| && d.prev[i].Some? ==>
      && d.prev[i].value in d.tomb && d.prev[i].value < |Rows(base, ds)|
      && Rows(base, ds)[d.prev[i].value].path == d.rows[i].path
  }

  ghost predicate NoneTwice(prev: seq<Option<nat>>) {
    forall i, j | 0 <= i < j < |prev| && prev[i].Some? && prev[j].Some? :: prev[i].value != prev[j].value
  }

  ghost predicate ImportsKnown(base: seq<Row>, ds: seq<Delta>, d: Delta) {
    forall i, k | 0 <= i < |d.outs| && 0 <= k < |d.outs[i]| :: d.outs[i][k] < |Rows(base, ds)| + |d.rows|
  }

  /** A delta computed against an index with these segments: it retires live ids
      only, each file version it supersedes is retired and has the same path,
      and none is superseded twice. */
  ghost predicate Follows(base: seq<Row>, ds: seq<Delta>, d: Delta) {
    && d.firstId == |Rows(base, ds)| && |d.prev| == |d.rows| == |d.outs|
    && RetiresLive(base, ds, d)
    && (forall i: nat | i < |d.prev| :: SupersedesOwn(base, ds, d, i))
    && NoneTwice(d.prev)
    && ImportsKnown(base, ds, d)
  }

  ghost predicate GoodDeltas(base: seq<Row>, ds: seq<Delta>) {
    forall n {:trigger Follows(base, ds[..n], ds[n])} | 0 <= n < |ds| :: Follows(base, ds[..n], ds[n])
  }

  /** No two live ids name the same path. */
  ghost predicate OnePerPath(base: seq<Row>, ds: seq<Delta>) {
    forall a: nat, b: nat | LiveBefore(base, ds, a) && LiveBefore(base, ds, b)
      && Rows(base, ds)[a].path == Rows(base, ds)[b].path :: a == b
  }

  ghost predicate Valid(ix: Index) {
    && GoodDeltas(ix.base, ix.deltas)
    && OnePerPath(ix.base, ix.deltas)
    && Opened(ix)
  }

  lemma GoodIsContiguous(base: seq<Row>, ds: seq<Delta>)
    requires GoodDeltas(base, ds)
    ensures Contiguous(base, ds)
  {
    forall n | 0 <= n < |ds| ensures ds[n].firstId == |Rows(base, ds[..n])| {
      assert Follows(base, ds[..n], ds[n]);
    }
  }

  lemma GoodPrefix(base: seq<Row>, ds: seq<Delta>, n: nat)
    requires GoodDeltas(base, ds) && n <= |ds|
    ensures GoodDeltas(base, ds[..n])
  {
    forall k | 0 <= k < n ensures Follows(base, ds[..n][..k], ds[..n][k]) {
      assert ds[..n][..k] == ds[..k];
      assert Follows(base, ds[..k], ds[k]);
    }
  }

  lemma GoodSnoc(base: seq<Row>, ds: seq<Delta>, d: Delta)
    requires GoodDeltas(base, ds) && Follows(base, ds, d)
    ensures GoodDeltas(base, ds + [d])
  {
    var all := ds + [d];
    forall n | 0 <= n < |all| ensures Follows(base, all[..n], all[n]) {
      if n < |ds| {
        assert all[..n] == ds[..n];
        assert Follows(base, ds[..n], ds[n]);
      } else {
        assert all[..n] == ds;
      }
    }
  }

  lemma {:induction false} PrevOfMeans(base: seq<Row>, ds: seq<Delta>, d: Delta, id: nat)
    requires Follows(base, ds, d) && id in PrevOf(d)
    ensures d.firstId <= id < d.firstId + |d.rows| && d.prev[id - d.firstId] == Some(PrevOf(d)[id])
    ensures PrevOf(d)[id] in d.tomb && PrevOf(d)[id] < d.firstId && LiveBefore(base, ds, PrevOf(d)[id])
    ensures Rows(base, ds)[PrevOf(d)[id]].path == d.rows[id - d.firstId].path
  {
    PrevUpToMeans(d, |d.prev|, id);
    assert SupersedesOwn(base, ds, d, id - d.firstId);
  }

  lemma LastFollows(base: seq<Row>, ds: seq<Delta>)
    requires GoodDeltas(base, ds) && ds != []
    ensures Follows(base, ds[..|ds| - 1], ds[|ds| - 1]) && GoodDeltas(base, ds[..|ds| - 1])
  {
    GoodPrefix(base, ds, |ds| - 1);
  }

  /** Superseded ids are retired; a version always comes after the one it
      supersedes, in a later segment, under the same path. */
  lemma {:induction false} PrevMeans(base: seq<Row>, ds: seq<Delta>, id: nat)
    requires GoodDeltas(base, ds) && id in PrevAll(ds)
    ensures var was := PrevAll(ds)[id];
      && was < id < |Rows(base, ds)| && was in TombAll(ds)
      && Rows(base, ds)[was].path == Rows(base, ds)[id].path
  {
    var n := |ds| - 1;
    LastFollows(base, ds);
    if id in PrevOf(ds[n]) {
      PrevOfMeans(base, ds[..n], ds[n], id);
    } else {
      PrevMeans(base, ds[..n], id);
    }
  }

  lemma {:induction false} TombInRange(base: seq<Row>, ds: seq<Delta>, id: nat)
    requires GoodDeltas(base, ds) && id in TombAll(ds)
    ensures id < |Rows(base, ds)|
  {
    var n := |ds| - 1;
    assert Follows(base, ds[..n], ds[n]);
    GoodPrefix(base, ds, n);
    if id in ds[n].tomb {
      assert LiveBefore(base, ds[..n], id);
    } else {
      TombInRange(base, ds[..n], id);
    }
  }

  /** What an older delta superseded was no longer live for a newer one. */
  lemma {:induction false} OlderApart(base: seq<Row>, ds: seq<Delta>, d: Delta, a: nat, b: nat)
    requires GoodDeltas(base, ds) && Follows(base, ds, d)
    requires a in PrevAll(ds) && b in PrevOf(d)
    ensures PrevAll(ds)[a] != PrevOf(d)[b] && a < d.firstId <= b
  {
    PrevMeans(base, ds, a);
    PrevOfMeans(base, ds, d, b);
  }

  /** No id is superseded twice. */
  lemma {:induction false} PrevInjective(base: seq<Row>, ds: seq<Delta>, a: nat, b: nat)
    requires GoodDeltas(base, ds) && a in PrevAll(ds) && b in PrevAll(ds) && PrevAll(ds)[a] == PrevAll(ds)[b]
    ensures a == b
  {
    var n := |ds| - 1;
    var d := ds[n];
    LastFollows(base, ds);
    if a in PrevOf(d) && b in PrevOf(d) {
      PrevOfMeans(base, ds[..n], d, a);
      PrevOfMeans(base, ds[..n], d, b);
    } else if a in PrevOf(d) {
      OlderApart(base, ds[..n], d, b, a);
    } else if b in PrevOf(d) {
      OlderApart(base, ds[..n], d, a, b);
    } else {
      PrevInjective(base, ds[..n], a, b);
    }
  }

  lemma {:induction false} ContiguousStep(base: seq<Row>, ds: seq<Delta>, n: nat)
    requires n < |ds| && Contiguous(base, ds[..n])
    ensures Contiguous(base, ds[..n + 1]) <==> ds[n].firstId == |Rows(base, ds[..n])|
    ensures Contiguous(base, ds) ==> ds[n].firstId == |Rows(base, ds[..n])|
  {
    assert forall k: nat | k <= n :: ds[..n + 1][..k] == ds[..k];
    assert forall k: nat | k < n :: ds[..n][..k] == ds[..k];
  }

  /** `open_snapshot` over the deltas the manifest names: ids must be
      contiguous, superseded ids and version links are gathered. */
  method Open(base: seq<Row>, ds: seq<Delta>) returns (r: Option<Index>)
    ensures r.Some? <==> Contiguous(base, ds)
    ensures r.Some? ==> r.value.base == base && r.value.deltas == ds
    ensures r.Some? && GoodDeltas(base, ds) ==> Opened(r.value)
  {
    var next := |base|;
    var tomb: set<nat> := {};
    var prevMap: map<nat, nat>, nextMap: map<nat, nat> := map[], map[];
    ghost var good := GoodDeltas(base, ds);
    for n := 0 to |ds|
      invariant Contiguous(base, ds[..n]) && next == |Rows(base, ds[..n])|
      invariant tomb == TombAll(ds[..n])
      invariant prevMap == PrevAll(ds[..n])
      invariant good ==> Inverse(prevMap, nextMap)
    {
      ContiguousStep(base, ds, n);
      if ds[n].firstId != next {
        return None;
      }
      RowsSnoc(base, ds, n);
      TombSnoc(ds, n);
      next := ds[n].firstId + |ds[n].rows|;
      tomb := tomb + ds[n].tomb;
      ghost var prevWas, nextWas := prevMap, nextMap;
      prevMap, nextMap := LinkDelta(ds[n], prevMap, nextMap);
      if good {
        DeltaInverse(base, ds, n, prevWas, nextWas);
      }
    }
    assert ds[..|ds|] == ds;
    r := Some(Index(base, ds, tomb, prevMap, nextMap));
  }

  lemma TombSnoc(ds: seq<Delta>, n: nat)
    requires n < |ds|
    ensures TombAll(ds[..n + 1]) == TombAll(ds[..n]) + ds[n].tomb
    ensures PrevAll(ds[..n + 1]) == PrevAll(ds[..n]) + PrevOf(ds[n])
  {
    assert ds[..n + 1][..n] == ds[..n];
  }

  lemma InverseAdd(prev: map<nat, nat>, next: map<nat, nat>, id: nat, was: nat)
    requires Inverse(prev, next) && id !in prev && forall x | x in prev :: prev[x] != was
    ensures Inverse(prev[id := was], next[was := id])
  {
  }

  method LinkDelta(d: Delta, prevIn: map<nat, nat>, nextIn: map<nat, nat>)
    returns (prevMap: map<nat, nat>, nextMap: map<nat, nat>)
    ensures prevMap == prevIn + PrevOf(d) && nextMap == PartNext(nextIn, d, |d.prev|)
  {
    prevMap, nextMap := prevIn, nextIn;
    for local := 0 to |d.prev|
      invariant prevMap == PartLinks(prevIn, d, local) && nextMap == PartNext(nextIn, d, local)
    {
      if d.prev[local].Some? {
        prevMap := prevMap[d.firstId + local := d.prev[local].value];
        nextMap := nextMap[d.prev[local].value := d.firstId + local];
      }
    }
    LinksArePrev(d, |d.prev|, prevIn);
  }

  lemma {:induction false} AddLink(base: seq<Row>, ds: seq<Delta>, n: nat, local: nat, prevMap: map<nat, nat>,
                                   nextMap: map<nat, nat>)
    requires n < |ds| && GoodDeltas(base, ds) && Inverse(prevMap, nextMap)
    requires local < |ds[n].prev| && ds[n].prev[local].Some?
    requires prevMap == PrevAll(ds[..n]) + PrevUpTo(ds[n], local)
    ensures var id, was := ds[n].firstId + local, ds[n].prev[local].value;
      Inverse(prevMap[id := was], nextMap[was := id])
  {
    FreshLink(base, ds[..n], ds, n, local, prevMap);
    InverseAdd(prevMap, nextMap, ds[n].firstId + local, ds[n].prev[local].value);
  }

  /** The maps after one more file, if they were inverse before it. */
  lemma {:induction false} LinkKeeps(base: seq<Row>, ds: seq<Delta>, n: nat, local: nat, p: map<nat, nat>,
                                     x: map<nat, nat>, nowP: map<nat, nat>, nowX: map<nat, nat>)
    requires n < |ds| && GoodDeltas(base, ds) && Inverse(p, x) && local < |ds[n].prev|
    requires p == PartLinks(PrevAll(ds[..n]), ds[n], local)
    requires var last, id := ds[n].prev[local], ds[n].firstId + local;
      if last.Some? then nowP == p[id := last.value] && nowX == x[last.value := id] else nowP == p && nowX == x
    ensures Inverse(nowP, nowX)
  {
    if ds[n].prev[local].Some? {
      LinksArePrev(ds[n], local, PrevAll(ds[..n]));
      AddLink(base, ds, n, local, p, x);
    }
  }

  /** A well-formed delta keeps the two maps inverse. */
  lemma {:induction false} LinksInverse(base: seq<Row>, ds: seq<Delta>, n: nat, local: nat,
                                        prevIn: map<nat, nat>, nextIn: map<nat, nat>)
    requires n < |ds| && GoodDeltas(base, ds) && prevIn == PrevAll(ds[..n]) && Inverse(prevIn, nextIn)
    requires local <= |ds[n].prev|
    ensures Inverse(PartLinks(prevIn, ds[n], local), PartNext(nextIn, ds[n], local))
    decreases local
  {
    if local > 0 {
      LinksInverse(base, ds, n, local - 1, prevIn, nextIn);
      LinkKeeps(base, ds, n, local - 1, PartLinks(prevIn, ds[n], local - 1), PartNext(nextIn, ds[n], local - 1),
                PartLinks(prevIn, ds[n], local), PartNext(nextIn, ds[n], local));
    }
  }

  lemma {:induction false} DeltaInverse(base: seq<Row>, ds: seq<Delta>, n: nat, prevIn: map<nat, nat>,
                                        nextIn: map<nat, nat>)
    requires n < |ds| && GoodDeltas(base, ds) && prevIn == PrevAll(ds[..n]) && Inverse(prevIn, nextIn)
    ensures Inverse(prevIn + PrevOf(ds[n]), PartNext(nextIn, ds[n], |ds[n].prev|))
  {
    LinksInverse(base, ds, n, |ds[n].prev|, prevIn, nextIn);
    LinksArePrev(ds[n], |ds[n].prev|, prevIn);
  }

  lemma UpdateUnion(a: map<nat, nat>, b: map<nat, nat>, id: nat, was: nat)
    ensures (a + b)[id := was] == a + b[id := was]
  {
  }

  /** A delta's links come on top of older ones. */
  lemma {:induction false} LinksArePrev(d: Delta, local: nat, prevIn: map<nat, nat>)
    requires local <= |d.prev|
    ensures PartLinks(prevIn, d, local) == prevIn + PrevUpTo(d, local)
    decreases local
  {
    if local > 0 {
      LinksArePrev(d, local - 1, prevIn);
      if d.prev[local - 1].Some? {
        UpdateUnion(prevIn, PrevUpTo(d, local - 1), d.firstId + local - 1, d.prev[local - 1].value);
      }
    }
  }

  lemma {:induction false} FreshInPart(d: Delta, local: nat, id: nat)
    requires NoneTwice(d.prev) && local < |d.prev| && d.prev[local].Some? && id in PrevUpTo(d, local)
    ensures id < d.firstId + local && PrevUpTo(d, local)[id] != d.prev[local].value
  {
    PrevUpToMeans(d, local, id);
  }

  lemma {:induction false} FreshFromOlder(base: seq<Row>, ds: seq<Delta>, d: Delta, local: nat, id: nat)
    requires GoodDeltas(base, ds) && Follows(base, ds, d)
    requires local < |d.prev| && d.prev[local].Some? && id in PrevAll(ds)
    ensures id < d.firstId && PrevAll(ds)[id] != d.prev[local].value
  {
    PrevUpToMeans(d, |d.prev|, d.firstId + local);
    OlderApart(base, ds, d, id, d.firstId + local);
  }

  /** A link being added is new on both sides. */
  lemma {:induction false} FreshLink(base: seq<Row>, before: seq<Delta>, ds: seq<Delta>, n: nat, local: nat,
                                     prevMap: map<nat, nat>)
    requires n < |ds| && GoodDeltas(base, ds) && before == ds[..n]
    requires local < |ds[n].prev| && ds[n].prev[local].Some?
    requires prevMap == PrevAll(before) + PrevUpTo(ds[n], local)
    ensures ds[n].firstId + local !in prevMap
    ensures forall id | id in prevMap :: prevMap[id] != ds[n].prev[local].value
  {
    var d := ds[n];
    assert Follows(base, before, d);
    GoodPrefix(base, ds, n);
    forall id | id in prevMap ensures id < d.firstId + local && prevMap[id] != d.prev[local].value {
      if id in PrevUpTo(d, local) {
        FreshInPart(d, local, id);
      } else {
        FreshFromOlder(base, before, d, local, id);
      }
    }
  }

  // ------------------------------------------------------------ applying changes

  function ModifiedIds(ch: Changes): seq<nat> {
    seq(|ch.modified|, i requires 0 <= i < |ch.modified| => ch.modified[i].0)
  }

  function ModifiedRows(ch: Changes): seq<Row> {
    seq(|ch.modified|, i requires 0 <= i < |ch.modified| => ch.modified[i].1)
  }

  function Retired(ch: Changes): set<nat> {
    IdSet(ModifiedIds(ch)) + IdSet(ch.deleted)
  }

  function PrevIds(ch: Changes): seq<Option<nat>> {
    seq(|ch.modified|, i requires 0 <= i < |ch.modified| => Some(ch.modified[i].0)) + seq(|ch.added|, _ => None)
  }

  /** The delta of some changes, given what its files import. */
  function DeltaOf(firstId: nat, ch: Changes, outs: seq<seq<nat>>): Delta {
    Delta(firstId, ModifiedRows(ch) + ch.added, PrevIds(ch), outs, Retired(ch))
  }

  /** What `apply` builds before it takes the lock. */
  method MakeDelta(ix: Index, ch: Changes, outs: seq<seq<nat>>) returns (d: Delta)
    requires Contiguous(ix.base, ix.deltas)
    ensures d == DeltaOf(|AllRows(ix)|, ch, outs)
  {
    NextIdIsEnd(ix);
    var files: seq<Row>, prev: seq<Option<nat>>, tomb: set<nat> := [], [], {};
    for i := 0 to |ch.modified|
      invariant files == ModifiedRows(ch)[..i]
      invariant |prev| == i && forall k | 0 <= k < i :: prev[k] == Some(ch.modified[k].0)
      invariant tomb == IdSet(ModifiedIds(ch)[..i])
    {
      assert ModifiedIds(ch)[..i + 1] == ModifiedIds(ch)[..i] + [ch.modified[i].0];
      tomb := tomb + {ch.modified[i].0};
      prev := prev + [Some(ch.modified[i].0)];
      files := files + [ch.modified[i].1];
    }
    assert ModifiedIds(ch)[..|ch.modified|] == ModifiedIds(ch);
    for i := 0 to |ch.deleted|
      invariant tomb == IdSet(ModifiedIds(ch)) + IdSet(ch.deleted[..i])
    {
      assert ch.deleted[..i + 1] == ch.deleted[..i] + [ch.deleted[i]];
      tomb := tomb + {ch.deleted[i]};
    }
    assert ch.deleted[..|ch.deleted|] == ch.deleted;
    ghost var links := prev;
    for i := 0 to |ch.added|
      invariant files == ModifiedRows(ch) + ch.added[..i]
      invariant prev == links + seq(i, _ => None)
    {
      prev := prev + [None];
      files := files + [ch.added[i]];
    }
    assert ch.added[..|ch.added|] == ch.added;
    d := Delta(NextId(ix), files, prev, outs, tomb);
  }

  ghost predicate NoRepeats(ids: seq<nat>) {
    forall i, j | 0 <= i < j < |ids| :: ids[i] != ids[j]
  }

  /** Changes to live files, each named once, and files at paths of their own. */
  ghost predicate GoodChanges(base: seq<Row>, ds: seq<Delta>, ch: Changes) {
    && NoRepeats(ModifiedIds(ch))
    && (forall id | id in Retired(ch) :: LiveBefore(base, ds, id))
    && (forall i | 0 <= i < |ch.modified| :: ch.modified[i].0 !in ch.deleted)
    && (forall i | 0 <= i < |ch.modified| :: SamePath(base, ds, ch.modified[i]))
    && (forall i, j | 0 <= i < j < |ch.added| :: ch.added[i].path != ch.added[j].path)
    && (forall i, id: nat | 0 <= i < |ch.added| && LiveBefore(base, ds, id) && id !in ch.deleted ::
          ch.added[i].path != Rows(base, ds)[id].path)
  }

  ghost predicate SamePath(base: seq<Row>, ds: seq<Delta>, m: (nat, Row)) {
    m.0 < |Rows(base, ds)| && Rows(base, ds)[m.0].path == m.1.path
  }

  ghost predicate GoodOuts(base: seq<Row>, ds: seq<Delta>, ch: Changes, outs: seq<seq<nat>>) {
    && |outs| == |ch.modified| + |ch.added|
    && forall i, k | 0 <= i < |outs| && 0 <= k < |outs[i]| :: outs[i][k] < |Rows(base, ds)| + |outs|
  }

  lemma {:induction false} ApplyFollows(base: seq<Row>, ds: seq<Delta>, ch: Changes, outs: seq<seq<nat>>)
    requires GoodChanges(base, ds, ch) && GoodOuts(base, ds, ch, outs)
    ensures Follows(base, ds, DeltaOf(|Rows(base, ds)|, ch, outs))
  {
    var d := DeltaOf(|Rows(base, ds)|, ch, outs);
    forall i: nat | i < |d.prev| ensures SupersedesOwn(base, ds, d, i) {
      if i < |ch.modified| {
        assert ModifiedIds(ch)[i] == ch.modified[i].0;
        assert ch.modified[i].0 in Retired(ch) && SamePath(base, ds, ch.modified[i]);
      }
    }
    forall i, j | 0 <= i < j < |d.prev| && d.prev[i].Some? && d.prev[j].Some?
      ensures d.prev[i].value != d.prev[j].value
    {
      assert ModifiedIds(ch)[i] != ModifiedIds(ch)[j];
    }
  }

  // ------------------------------------------------------------ the live view

  /** `row` is what the index tracks at `row.path`. */
  ghost predicate InView(base: seq<Row>, ds: seq<Delta>, row: Row) {
    exists id: nat :: LiveBefore(base, ds, id) && Rows(base, ds)[id] == row
  }

  /** The path of a changed or deleted file. */
  ghost predicate Touched(base: seq<Row>, ds: seq<Delta>, ch: Changes, path: Bytes) {
    exists id :: id in Retired(ch) && id < |Rows(base, ds)| && Rows(base, ds)[id].path == path
  }

  /** After a delta: its own files, and the live ones it did not retire. */
  lemma {:induction false} LiveAfter(base: seq<Row>, ds: seq<Delta>, d: Delta, id: nat)
    requires GoodDeltas(base, ds) && Follows(base, ds, d)
    ensures Rows(base, ds + [d]) == Rows(base, ds) + d.rows
    ensures TombAll(ds + [d]) == TombAll(ds) + d.tomb
    ensures LiveBefore(base, ds + [d], id) <==>
      (LiveBefore(base, ds, id) && id !in d.tomb) || d.firstId <= id < d.firstId + |d.rows|
  {
    assert (ds + [d])[..|ds|] == ds;
    if id in TombAll(ds) {
      TombInRange(base, ds, id);
    }
  }

  /** Two files of the index after a delta are not at one path. */
  lemma {:induction false} PairApart(base: seq<Row>, ds: seq<Delta>, ch: Changes, d: Delta, a: nat, b: nat)
    requires OnePerPath(base, ds) && GoodChanges(base, ds, ch)
    requires d.rows == ModifiedRows(ch) + ch.added && d.tomb == Retired(ch)
    requires a < b < |Rows(base, ds)| + |d.rows|
    requires a < |Rows(base, ds)| ==> LiveBefore(base, ds, a) && a !in d.tomb
    requires b < |Rows(base, ds)| ==> LiveBefore(base, ds, b)
    ensures (Rows(base, ds) + d.rows)[a].path != (Rows(base, ds) + d.rows)[b].path
  {
    var rows := Rows(base, ds);
    if b < |rows| {
    } else if a < |rows| {
      NewPath(base, ds, ch, a, b - |rows|);
    } else {
      NewPathsApart(base, ds, ch, a - |rows|, b - |rows|);
    }
  }

  lemma {:induction false} OnePerPathAfter(base: seq<Row>, ds: seq<Delta>, ch: Changes, outs: seq<seq<nat>>)
    requires GoodDeltas(base, ds) && OnePerPath(base, ds)
    requires GoodChanges(base, ds, ch) && GoodOuts(base, ds, ch, outs)
    ensures OnePerPath(base, ds + [DeltaOf(|Rows(base, ds)|, ch, outs)])
  {
    ApplyFollows(base, ds, ch, outs);
    var d := DeltaOf(|Rows(base, ds)|, ch, outs);
    forall a: nat, b: nat | a < b && LiveBefore(base, ds + [d], a) && LiveBefore(base, ds + [d], b)
      ensures Rows(base, ds + [d])[a].path != Rows(base, ds + [d])[b].path
    {
      LiveAfter(base, ds, d, a);
      LiveAfter(base, ds, d, b);
      PairApart(base, ds, ch, d, a, b);
    }
  }

  /** A file of the delta is not at the path of a file that stays live. */
  lemma {:induction false} NewPath(base: seq<Row>, ds: seq<Delta>, ch: Changes, id: nat, i: nat)
    requires OnePerPath(base, ds) && GoodChanges(base, ds, ch) && LiveBefore(base, ds, id) && id !in Retired(ch)
    requires i < |ch.modified| + |ch.added|
    ensures (ModifiedRows(ch) + ch.added)[i].path != Rows(base, ds)[id].path
  {
    if i < |ch.modified| {
      assert SamePath(base, ds, ch.modified[i]) && ModifiedIds(ch)[i] in Retired(ch);
    } else {
      assert ch.added[i - |ch.modified|].path != Rows(base, ds)[id].path;
    }
  }

  lemma NewPathsApart(base: seq<Row>, ds: seq<Delta>, ch: Changes, i: nat, j: nat)
    requires OnePerPath(base, ds) && GoodChanges(base, ds, ch)
    requires i < j < |ch.modified| + |ch.added|
    ensures (ModifiedRows(ch) + ch.added)[i].path != (ModifiedRows(ch) + ch.added)[j].path
  {
    var n := |ch.modified|;
    if i < n {
      assert SamePath(base, ds, ch.modified[i]) && ModifiedIds(ch)[i] in Retired(ch);
      if j < n {
        assert SamePath(base, ds, ch.modified[j]) && ModifiedIds(ch)[j] in Retired(ch);
        assert ModifiedIds(ch)[i] != ModifiedIds(ch)[j];
      } else {
        assert ch.added[j - n].path != Rows(base, ds)[ch.modified[i].0].path;
      }
    }
  }

  /** A row of the view after a delta is one of its own, or stayed. */
  lemma {:induction false} AfterFrom(base: seq<Row>, ds: seq<Delta>, ch: Changes, d: Delta, id: nat)
    requires GoodDeltas(base, ds) && OnePerPath(base, ds) && GoodChanges(base, ds, ch) && Follows(base, ds, d)
    requires d.rows == ModifiedRows(ch) + ch.added && d.tomb == Retired(ch)
    requires LiveBefore(base, ds + [d], id)
    ensures var row := Rows(base, ds + [d])[id];
      (InView(base, ds, row) && !Touched(base, ds, ch, row.path)) || row in ModifiedRows(ch) || row in ch.added
  {
    LiveAfter(base, ds, d, id);
    var rows := Rows(base, ds);
    if id < |rows| {
      assert forall r: nat | r in Retired(ch) && r < |rows| && rows[r].path == rows[id].path :: LiveBefore(base, ds, r);
      assert InView(base, ds, rows[id]);
    } else {
      assert d.rows[id - |rows|] in d.rows;
    }
  }

  /** A row that stays, or is the delta's own, is in the view after it. */
  lemma IntoAfter(base: seq<Row>, ds: seq<Delta>, ch: Changes, d: Delta, row: Row)
    requires GoodDeltas(base, ds) && Follows(base, ds, d)
    requires d.rows == ModifiedRows(ch) + ch.added && d.tomb == Retired(ch)
    requires (InView(base, ds, row) && !Touched(base, ds, ch, row.path)) || row in d.rows
    ensures InView(base, ds + [d], row)
  {
    var rows, all := Rows(base, ds), ds + [d];
    if row in d.rows {
      var i :| 0 <= i < |d.rows| && d.rows[i] == row;
      LiveAfter(base, ds, d, |rows| + i);
      assert Rows(base, all)[|rows| + i] == row;
    } else {
      var id: nat :| LiveBefore(base, ds, id) && rows[id] == row;
      LiveAfter(base, ds, d, id);
      assert Rows(base, all)[id] == row;
    }
  }

  /** The view after a delta is the view before with the changes made. */
  lemma {:induction false} ViewAfter(base: seq<Row>, ds: seq<Delta>, ch: Changes, outs: seq<seq<nat>>, row: Row)
    requires GoodDeltas(base, ds) && OnePerPath(base, ds)
    requires GoodChanges(base, ds, ch) && GoodOuts(base, ds, ch, outs)
    ensures InView(base, ds + [DeltaOf(|Rows(base, ds)|, ch, outs)], row) <==>
      (InView(base, ds, row) && !Touched(base, ds, ch, row.path)) || row in ModifiedRows(ch) || row in ch.added
  {
    ApplyFollows(base, ds, ch, outs);
    var d := DeltaOf(|Rows(base, ds)|, ch, outs);
    if InView(base, ds + [d], row) {
      var id: nat :| LiveBefore(base, ds + [d], id) && Rows(base, ds + [d])[id] == row;
      AfterFrom(base, ds, ch, d, id);
    }
    if (InView(base, ds, row) && !Touched(base, ds, ch, row.path)) || row in d.rows {
      IntoAfter(base, ds, ch, d, row);
    }
  }

  // ------------------------------------------------------------ histories

  /** A plain table from path to contents. */
  type Table = map<Bytes, Bytes>

  function Upsert(t: Table, rows: seq<Row>): Table {
    if rows == [] then t else Upsert(t, rows[..|rows| - 1])[rows[|rows| - 1].path := rows[|rows| - 1].content]
  }

  function PathsOf(rows: seq<Row>, ids: seq<nat>): set<Bytes> {
    set id | id in ids && id < |rows| :: rows[id].path
  }

  /** One round of edits made to a plain table. */
  function TableAfter(rows: seq<Row>, t: Table, ch: Changes): Table {
    Upsert(Upsert(t - PathsOf(rows, ch.deleted), ModifiedRows(ch)), ch.added)
  }

  datatype Round = Round(ch: Changes, outs: seq<seq<nat>>)

  /** The deltas of a history of rounds. */
  function History(base: seq<Row>, rs: seq<Round>): seq<Delta> {
    if rs == [] then []
    else
      var n := |rs| - 1;
      var ds := History(base, rs[..n]);
      ds + [DeltaOf(|Rows(base, ds)|, rs[n].ch, rs[n].outs)]
  }

  ghost predicate GoodHistory(base: seq<Row>, rs: seq<Round>) {
    rs != [] ==>
      var n := |rs| - 1;
      var ds := History(base, rs[..n]);
      && GoodHistory(base, rs[..n])
      && GoodChanges(base, ds, rs[n].ch) && GoodOuts(base, ds, rs[n].ch, rs[n].outs)
  }

  /** The same rounds made to the table of the base. */
  function Replayed(base: seq<Row>, rs: seq<Round>): Table {
    if rs == [] then Upsert(map[], base)
    else
      var n := |rs| - 1;
      TableAfter(Rows(base, History(base, rs[..n])), Replayed(base, rs[..n]), rs[n].ch)
  }

  lemma {:induction false} UpsertMeans(t: Table, rows: seq<Row>, row: Row)
    requires forall i, j | 0 <= i < j < |rows| :: rows[i].path != rows[j].path
    ensures (row.path in Upsert(t, rows) && Upsert(t, rows)[row.path] == row.content) <==>
      row in rows || ((forall r | r in rows :: r.path != row.path) && row.path in t && t[row.path] == row.content)
  {
    if rows != [] {
      var n := |rows| - 1;
      assert rows == rows[..n] + [rows[n]];
      UpsertMeans(t, rows[..n], row);
      assert forall r | r in rows[..n] :: r.path != rows[n].path;
    }
  }

  lemma {:induction false} HistoryGood(base: seq<Row>, rs: seq<Round>)
    requires GoodHistory(base, rs) && OnePerPath(base, [])
    ensures GoodDeltas(base, History(base, rs)) && OnePerPath(base, History(base, rs))
    ensures |History(base, rs)| == |rs|
  {
    if rs != [] {
      var n := |rs| - 1;
      var ds := History(base, rs[..n]);
      HistoryGood(base, rs[..n]);
      ApplyFollows(base, ds, rs[n].ch, rs[n].outs);
      GoodSnoc(base, ds, DeltaOf(|Rows(base, ds)|, rs[n].ch, rs[n].outs));
      OnePerPathAfter(base, ds, rs[n].ch, rs[n].outs);
    }
  }

  /** Whatever rounds of edits were applied, the index opens, and is well formed. */
  method Reopen(base: seq<Row>, ds: seq<Delta>, ghost rs: seq<Round>) returns (r: Option<Index>)
    requires GoodHistory(base, rs) && OnePerPath(base, []) && ds == History(base, rs)
    ensures r.Some? && Valid(r.value) && r.value.base == base && r.value.deltas == ds
  {
    HistoryGood(base, rs);
    GoodIsContiguous(base, ds);
    r := Open(base, ds);
  }

  lemma ModifiedPathsApart(base: seq<Row>, ds: seq<Delta>, ch: Changes)
    requires OnePerPath(base, ds) && GoodChanges(base, ds, ch)
    ensures forall i, j | 0 <= i < j < |ch.modified| :: ModifiedRows(ch)[i].path != ModifiedRows(ch)[j].path
  {
    forall i, j | 0 <= i < j < |ch.modified| ensures ModifiedRows(ch)[i].path != ModifiedRows(ch)[j].path {
      NewPathsApart(base, ds, ch, i, j);
    }
  }

  /** Touched paths are those of modified rows and of deleted files. */
  lemma {:induction false} TouchedMeans(base: seq<Row>, ds: seq<Delta>, ch: Changes, path: Bytes)
    requires GoodChanges(base, ds, ch)
    ensures Touched(base, ds, ch, path) <==>
      (exists r | r in ModifiedRows(ch) :: r.path == path) || path in PathsOf(Rows(base, ds), ch.deleted)
  {
    if r :| r in ModifiedRows(ch) && r.path == path {
      var i :| 0 <= i < |ch.modified| && ModifiedRows(ch)[i] == r;
      assert SamePath(base, ds, ch.modified[i]) && ModifiedIds(ch)[i] in Retired(ch);
    }
    if Touched(base, ds, ch, path) {
      var id :| id in Retired(ch) && id < |Rows(base, ds)| && Rows(base, ds)[id].path == path;
      if id in ModifiedIds(ch) {
        var i :| 0 <= i < |ch.modified| && ModifiedIds(ch)[i] == id;
        assert SamePath(base, ds, ch.modified[i]) && ModifiedRows(ch)[i] in ModifiedRows(ch);
      }
    }
  }

  /** Over every history the live view is what one table with every edit made
      would say. */
  lemma {:induction false} ViewIsTable(base: seq<Row>, rs: seq<Round>, row: Row)
    requires GoodHistory(base, rs) && OnePerPath(base, [])
    ensures InView(base, History(base, rs), row) <==>
      row.path in Replayed(base, rs) && Replayed(base, rs)[row.path] == row.content
  {
    if rs == [] {
      forall i, j | 0 <= i < j < |base| ensures base[i].path != base[j].path {
        assert LiveBefore(base, [], i) && LiveBefore(base, [], j);
      }
      UpsertMeans(map[], base, row);
      if row in base {
        var i :| 0 <= i < |base| && base[i] == row;
        assert LiveBefore(base, [], i);
      }
    } else {
      var n := |rs| - 1;
      var ds, ch := History(base, rs[..n]), rs[n].ch;
      HistoryGood(base, rs[..n]);
      ViewIsTable(base, rs[..n], row);
      ViewAfter(base, ds, ch, rs[n].outs, row);
      RoundOnTable(base, ds, ch, Replayed(base, rs[..n]), row);
    }
  }

  lemma {:induction false} RoundOnTable(base: seq<Row>, ds: seq<Delta>, ch: Changes, t: Table, row: Row)
    requires OnePerPath(base, ds) && GoodChanges(base, ds, ch)
    requires InView(base, ds, row) <==> row.path in t && t[row.path] == row.content
    ensures var after := TableAfter(Rows(base, ds), t, ch);
      (row.path in after && after[row.path] == row.content) <==>
        (InView(base, ds, row) && !Touched(base, ds, ch, row.path)) || row in ModifiedRows(ch) || row in ch.added
  {
    var rows := Rows(base, ds);
    ModifiedPathsApart(base, ds, ch);
    var kept := t - PathsOf(rows, ch.deleted);
    UpsertMeans(kept, ModifiedRows(ch), row);
    UpsertMeans(Upsert(kept, ModifiedRows(ch)), ch.added, row);
    TouchedMeans(base, ds, ch, row.path);
    if r :| r in ch.added && r.path == row.path && row !in ch.added {
      AddedPathIsNew(base, ds, ch, r, row);
    }
  }

  /** At an added path nothing else stays or is modified. */
  lemma AddedPathIsNew(base: seq<Row>, ds: seq<Delta>, ch: Changes, r: Row, row: Row)
    requires OnePerPath(base, ds) && GoodChanges(base, ds, ch) && r in ch.added && r.path == row.path
    ensures row !in ModifiedRows(ch)
    ensures InView(base, ds, row) ==> Touched(base, ds, ch, row.path)
  {
    var k: nat :| k < |ch.added| && ch.added[k] == r;
    forall i: nat | i < |ch.modified| ensures ModifiedRows(ch)[i].path != r.path {
      NewPathsApart(base, ds, ch, i, |ch.modified| + k);
    }
    forall id: nat | LiveBefore(base, ds, id) && id !in Retired(ch) ensures Rows(base, ds)[id].path != r.path {
      NewPath(base, ds, ch, id, |ch.modified| + k);
    }
  }
}
