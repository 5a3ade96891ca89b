// The index from end to end (crates/greeg-index/src/build.rs, fresh.rs,
// index.rs): files are extracted, their postings built, written and read back,
// and after any history of edits a search misses no file that a scan of the
// edited tree would report.

module Whole {
  import opened Bytes
  import opened Trigrams
  import opened Candidates
  import B = Postings
  import F = Format
  import H = Hir
  import K = Sink
  import P = Plan
  import PS = PlanSound
  import S = Segment
  import V = Versions

  /** What the path and the bytes of a file make of it: above the size cap, an
      ignore file that is only tracked, or binary. */
  datatype Class = Class(huge: bool, hidden: bool, binary: bool)

  predicate Searched(c: Class) {
    !c.huge && !c.hidden && !c.binary
  }

  /** What extraction records of a file. */
  function FactsOf(classify: V.Row -> Class, row: V.Row): FileFacts {
    var c := classify(row);
    FileFacts(if Searched(c) then Grams(row.content) else {}, c.huge, c.hidden)
  }

  function Facts(classify: V.Row -> Class, rows: seq<V.Row>): seq<FileFacts> {
    seq(|rows|, i requires 0 <= i < |rows| => FactsOf(classify, rows[i]))
  }

  // ------------------------------------------------------------ extraction

  lemma GramsInRange(text: Bytes, key: nat)
    requires key in Grams(text)
    ensures key < KEYS
  {
  }

  /** `extract_file`: the trigrams of one file, folded and deduplicated. */
  method Extract(d: Dedup, classify: V.Row -> Class, row: V.Row) returns (keys: seq<u32>)
    requires d.Valid()
    modifies d, d.bits
    ensures d.Valid()
    ensures StrictlyAscending(keys)
    ensures forall key: u32 :: key in keys <==> key in FactsOf(classify, row).grams
  {
    if !Searched(classify(row)) {
      return [];
    }
    var buf := new Byte[|row.content|](i requires 0 <= i < |row.content| => row.content[i]);
    assert buf[..] == row.content;
    FoldBuf(buf);
    var found := d.Extract(buf[..]);
    forall i | 0 <= i < |found| ensures found[i] < KEYS {
      assert found[i] in found;
      GramsInRange(row.content, found[i]);
    }
    keys := found;
  }

  /** The pairs of the files from `first` on. */
  ghost function PairsFrom(first: nat, files: seq<FileFacts>): B.Pairs<u32> {
    iset key: u32, id: nat | HoldsAt(first, files, key, id) :: (key, id)
  }

  /** The keys of each file, under its id. */
  ghost predicate Extracted(keyed: seq<B.FileKeys<u32>>, first: nat, files: seq<FileFacts>) {
    && |keyed| == |files|
    && (forall i | 0 <= i < |keyed| :: keyed[i].file == first + i && StrictlyAscending(keyed[i].keys))
    && (forall i, key: u32 | 0 <= i < |keyed| :: key in keyed[i].keys <==> key in files[i].grams)
  }

  method ExtractAll(classify: V.Row -> Class, first: nat, rows: seq<V.Row>) returns (keyed: seq<B.FileKeys<u32>>)
    ensures Extracted(keyed, first, Facts(classify, rows))
  {
    var d := new Dedup();
    keyed := [];
    for i := 0 to |rows|
      invariant d.Valid() && fresh(d) && fresh(d.bits)
      invariant |keyed| == i
      invariant forall j | 0 <= j < i :: keyed[j].file == first + j && StrictlyAscending(keyed[j].keys)
      invariant forall j, key: u32 | 0 <= j < i :: key in keyed[j].keys <==> key in FactsOf(classify, rows[j]).grams
    {
      var keys := Extract(d, classify, rows[i]);
      keyed := keyed + [B.FileKeys(first + i, keys)];
    }
  }

  lemma PairsAreKeys(keyed: seq<B.FileKeys<u32>>, first: nat, files: seq<FileFacts>, key: u32, id: nat)
    requires Extracted(keyed, first, files)
    ensures (key, id) in PairsFrom(first, files) <==> B.ChunkHas(keyed, key, id)
  {
    if HoldsAt(first, files, key, id) {
      assert keyed[id - first].file == id && key in keyed[id - first].keys;
    }
  }

  lemma FactsHavePairs(classify: V.Row -> Class, first: nat, rows: seq<V.Row>)
    ensures PairsOf(PairsFrom(first, Facts(classify, rows)), first, Facts(classify, rows))
    ensures forall f | f in Facts(classify, rows) && f.hidden :: f.grams == {}
  {
    var files := Facts(classify, rows);
    forall i, key | 0 <= i < |files| && key in files[i].grams ensures key < KEYS {
      GramsInRange(rows[i].content, key);
    }
  }

  // ------------------------------------------------------------ one segment written

  /** The largest encoded list of 32-bit ids. */
  const LIST_MAX := 0x80_0000_0000

  /** A codec that reads back what it wrote, in bounded space. */
  ghost predicate GoodCodec(c: S.Codec) {
    S.Faithful(c) && forall ids: set<nat> | (forall id | id in ids :: id < U32) :: |c.enc(ids)| <= LIST_MAX
  }

  lemma {:induction false} FewKeys(ks: seq<nat>, bound: nat)
    requires StrictlyAscending(ks) && forall i | 0 <= i < |ks| :: ks[i] < bound
    ensures |ks| <= bound
  {
    if ks != [] {
      FewKeys(ks[..|ks| - 1], ks[|ks| - 1]);
    }
  }

  lemma {:induction false} ListsBounded(es: seq<F.Entry>)
    requires forall i | 0 <= i < |es| :: |es[i].list| <= LIST_MAX
    ensures |F.Lists(es)| <= |es| * LIST_MAX
  {
    if es != [] {
      ListsBounded(es[..|es| - 1]);
    }
  }

  /** The section of a segment's entries is within what its format can say. */
  lemma {:induction false} EntriesFit(c: S.Codec, es: seq<F.Entry>, first: nat, files: seq<FileFacts>)
    requires GoodCodec(c) && EntriesOf(c, es, first, files) && first + |files| < U32
    requires forall i, key | 0 <= i < |files| && key in files[i].grams :: key < KEYS
    ensures |es| < U32 && |F.Lists(es)| < U64
  {
    var keys := F.Keys(es);
    forall i | 0 <= i < |keys| ensures keys[i] < KEYS {
      assert keys[i] in keys;
      assert SomeHolds(files, keys[i]);
    }
    FewKeys(keys, KEYS);
    forall i | 0 <= i < |es| ensures |es[i].list| <= LIST_MAX {
      assert forall id | id in Holders(first, files, es[i].key) :: id < U32;
    }
    ListsBounded(es);
  }

  /** Write the postings of some files and read the segment back. */
  method WriteSegment(c: S.Codec, first: nat, rows: seq<V.Row>, classify: V.Row -> Class, out: B.Entries<u32>)
    returns (s: S.Segment)
    requires GoodCodec(c) && first + |rows| < U32
    requires B.ArePostings(K.GRAM_KEYS, out, PairsFrom(first, Facts(classify, rows)))
    ensures s.firstId == first && Describes(c, s, Facts(classify, rows)) && Undamaged(c, s)
  {
    ghost var files := Facts(classify, rows);
    FactsHavePairs(classify, first, rows);
    PostingsMakeEntries(c, out, first, files, PairsFrom(first, files));
    var es := Serialized(c, out);
    EntriesFit(c, es, first, files);
    BuiltSegment(c, es, first, files);
    var body := F.SerializeGramsLoop(es);
    var facts := Facts(classify, rows);
    s := S.Segment(first, |rows|, F.ParseGrams(body).view, HugeIds(first, facts), HiddenIds(first, facts));
  }

  // ------------------------------------------------------------ the base and a delta

  const MERGE_BATCH := 4096
  const MIN_BUDGET := 0x1_0000

  /** `par_chunks`. */
  function Chunked<T>(xs: seq<T>, chunk: nat): seq<seq<T>>
    requires chunk > 0
  {
    if xs == [] then [] else if |xs| <= chunk then [xs] else [xs[..chunk]] + Chunked(xs[chunk..], chunk)
  }

  ghost predicate SomeChunkHas(chunks: seq<seq<B.FileKeys<u32>>>, key: u32, id: nat) {
    exists n :: 0 <= n < |chunks| && B.ChunkHas(chunks[n], key, id)
  }

  lemma ConsChunk(chunk: seq<B.FileKeys<u32>>, chunks: seq<seq<B.FileKeys<u32>>>, key: u32, id: nat)
    ensures SomeChunkHas([chunk] + chunks, key, id) <==> B.ChunkHas(chunk, key, id) || SomeChunkHas(chunks, key, id)
  {
    var all := [chunk] + chunks;
    if B.ChunkHas(chunk, key, id) {
      assert all[0] == chunk;
    }
    if SomeChunkHas(chunks, key, id) {
      var n :| 0 <= n < |chunks| && B.ChunkHas(chunks[n], key, id);
      assert all[n + 1] == chunks[n];
    }
  }

  lemma SplitHas(xs: seq<B.FileKeys<u32>>, n: nat, key: u32, id: nat)
    requires n <= |xs|
    ensures B.ChunkHas(xs, key, id) <==> B.ChunkHas(xs[..n], key, id) || B.ChunkHas(xs[n..], key, id)
  {
    if B.ChunkHas(xs, key, id) {
      var i :| 0 <= i < |xs| && xs[i].file == id && key in xs[i].keys;
      assert if i < n then xs[..n][i] == xs[i] else xs[n..][i - n] == xs[i];
    }
    if B.ChunkHas(xs[n..], key, id) {
      var i :| 0 <= i < |xs[n..]| && xs[n..][i].file == id && key in xs[n..][i].keys;
      assert xs[n + i] == xs[n..][i];
    }
  }

  lemma {:induction false} ChunkedHas(xs: seq<B.FileKeys<u32>>, chunk: nat, key: u32, id: nat)
    requires chunk > 0
    ensures SomeChunkHas(Chunked(xs, chunk), key, id) <==> B.ChunkHas(xs, key, id)
    decreases |xs|
  {
    if xs == [] {
    } else if |xs| <= chunk {
      ConsChunk(xs, [], key, id);
      assert [xs] + [] == [xs];
    } else {
      ChunkedHas(xs[chunk..], chunk, key, id);
      ConsChunk(xs[..chunk], Chunked(xs[chunk..], chunk), key, id);
      SplitHas(xs, chunk, key, id);
    }
  }

  lemma {:induction false} ChunkedFiles(xs: seq<B.FileKeys<u32>>, chunk: nat, n: nat, i: nat)
    requires chunk > 0 && n < |Chunked(xs, chunk)| && i < |Chunked(xs, chunk)[n]|
    ensures Chunked(xs, chunk)[n][i] in xs
    decreases |xs|
  {
    if |xs| > chunk && n > 0 {
      ChunkedFiles(xs[chunk..], chunk, n - 1, i);
    }
  }

  /** Phase 1's trigram postings: chunks of files, a budget for each, the merge. */
  method BuildBase(c: S.Codec, classify: V.Row -> Class, rows: seq<V.Row>, threads: nat, budget: nat)
    returns (s: S.Segment)
    requires GoodCodec(c) && |rows| < U32
    ensures s.firstId == 0 && Describes(c, s, Facts(classify, rows)) && Undamaged(c, s)
  {
    var parts := if threads == 0 then 1 else threads * 4;
    var perChunk := if budget / parts > MIN_BUDGET then budget / parts else MIN_BUDGET;
    var ceiling := (|rows| + parts - 1) / parts;
    var chunk := if ceiling > 1 then ceiling else 1;
    var keyed := ExtractAll(classify, 0, rows);
    var chunks: seq<seq<B.FileKeys<u32>>> := Chunked(keyed, chunk);
    ghost var files := Facts(classify, rows);
    forall n, i | 0 <= n < |chunks| && 0 <= i < |chunks[n]| ensures chunks[n][i].file < U32 {
      ChunkedFiles(keyed, chunk, n, i);
    }
    forall key: u32, id: nat ensures (key, id) in PairsFrom(0, files) <==> SomeChunkHas(chunks, key, id) {
      PairsAreKeys(keyed, 0, files, key, id);
      ChunkedHas(keyed, chunk, key, id);
    }
    K.KeysLawful();
    var out := B.BuildPostings(K.GRAM_KEYS, chunks, seq(|chunks|, _ => perChunk), MERGE_BATCH, PairsFrom(0, files));
    s := WriteSegment(c, 0, rows, classify, out);
  }

  /** Every list is ascending, each id once: what `from_sorted_iter` insists on. */
  ghost predicate Ascends(slots: map<u32, K.Slot>) {
    forall key | key in slots :: StrictlyAscending(slots[key].files)
  }

  /** Files in the order of their ids, the trigrams of each listed once. */
  ghost predicate InOrder(keyed: seq<B.FileKeys<u32>>) {
    && (forall i, j | 0 <= i < j < |keyed| :: keyed[i].file < keyed[j].file)
    && (forall i | 0 <= i < |keyed| :: keyed[i].file < U32 && StrictlyAscending(keyed[i].keys))
  }

  /** `entry(g).or_default().push(id)`, for every trigram of every file: the lists
      come out sorted and without repeats. */
  method CollectDelta(keyed: seq<B.FileKeys<u32>>) returns (slots: map<u32, K.Slot>)
    requires InOrder(keyed)
    ensures K.GoodSlots(slots) && Ascends(slots)
    ensures forall key: u32, id: nat :: K.SlotsHold(slots, key, id) <==> B.ChunkHas(keyed, key, id)
  {
    slots := map[];
    for i := 0 to |keyed|
      invariant K.GoodSlots(slots) && Ascends(slots)
      invariant forall key: u32, id: nat :: K.SlotsHold(slots, key, id) <==> B.ChunkHas(keyed[..i], key, id)
    {
      var e := keyed[i];
      ghost var before := slots;
      OlderIds(keyed, i, slots);
      for j := 0 to |e.keys|
        invariant K.GoodSlots(slots) && Ascends(slots)
        invariant forall key: u32, id: nat :: K.SlotsHold(slots, key, id) <==>
          K.SlotsHold(before, key, id) || (id == e.file && key in e.keys[..j])
      {
        assert e.keys[..j + 1] == e.keys[..j] + [e.keys[j]];
        NewestId(before, slots, e, j);
        slots := PushId(slots, e.keys[j], e.file);
      }
      assert e.keys[..|e.keys|] == e.keys;
      B.ChunkSnoc(keyed, i);
    }
    assert keyed[..|keyed|] == keyed;
  }

  /** All ids so far are below `id`. */
  ghost predicate Older(slots: map<u32, K.Slot>, id: nat) {
    forall key: u32, x: nat | K.SlotsHold(slots, key, x) :: x < id
  }

  lemma OlderIds(keyed: seq<B.FileKeys<u32>>, i: nat, slots: map<u32, K.Slot>)
    requires InOrder(keyed) && i < |keyed|
    requires forall key: u32, id: nat :: K.SlotsHold(slots, key, id) <==> B.ChunkHas(keyed[..i], key, id)
    ensures Older(slots, keyed[i].file)
  {
  }

  ghost predicate Newest(slots: map<u32, K.Slot>, key: u32, id: nat) {
    key in slots ==> forall x | x in slots[key].files :: x < id
  }

  lemma NewestId(before: map<u32, K.Slot>, slots: map<u32, K.Slot>, e: B.FileKeys<u32>, j: nat)
    requires Older(before, e.file) && j < |e.keys| && StrictlyAscending(e.keys)
    requires forall key: u32, id: nat :: K.SlotsHold(slots, key, id) <==>
      K.SlotsHold(before, key, id) || (id == e.file && key in e.keys[..j])
    ensures Newest(slots, e.keys[j], e.file)
  {
    var key := e.keys[j];
    if key in slots {
      forall x | x in slots[key].files ensures x < e.file {
        assert K.SlotsHold(slots, key, x);
      }
    }
  }

  function PushId(slots: map<u32, K.Slot>, key: u32, id: nat): (r: map<u32, K.Slot>)
    requires id < U32 && K.GoodSlots(slots) && Ascends(slots) && Newest(slots, key, id)
    ensures K.GoodSlots(r) && Ascends(r)
    ensures forall k: u32, f: nat :: K.SlotsHold(r, k, f) <==> K.SlotsHold(slots, k, f) || (k == key && f == id)
  {
    if key in slots then
      AppendId(slots[key].files, id);
      slots[key := K.Slot(slots[key].files + [id], 0)]
    else slots[key := K.Slot([id], 0)]
  }

  lemma AppendId(ids: seq<nat>, id: nat)
    requires StrictlyAscending(ids) && forall x | x in ids :: x < id
    ensures StrictlyAscending(ids + [id])
  {
    assert forall i | 0 <= i < |ids| :: ids[i] in ids;
  }

  /** The entries of a delta: keys sorted, each with its list as it was pushed. */
  method DeltaEntries(slots: map<u32, K.Slot>, ghost pairs: B.Pairs<u32>) returns (out: B.Entries<u32>)
    requires K.GoodSlots(slots) && Ascends(slots)
    requires forall key: u32, id: nat :: (key, id) in pairs <==> K.SlotsHold(slots, key, id)
    ensures B.ArePostings(K.GRAM_KEYS, out, pairs)
  {
    K.KeysLawful();
    var keys := K.SortedKeys(K.GRAM_KEYS, slots.Keys);
    out := [];
    for i := 0 to |keys|
      invariant |out| == i && forall j | 0 <= j < i :: B.EntryOfSlot(slots, keys[j], out[j])
    {
      assert keys[i] in slots.Keys;
      out := out + [(keys[i], slots[keys[i]].files)];
    }
    B.SlotEntries(K.GRAM_KEYS, slots, keys, out, pairs);
  }

  /** `build_delta`: the files of one edit burst, their postings in one map. */
  method BuildDelta(c: S.Codec, classify: V.Row -> Class, first: nat, rows: seq<V.Row>) returns (s: S.Segment)
    requires GoodCodec(c) && first + |rows| < U32
    ensures s.firstId == first && Describes(c, s, Facts(classify, rows)) && Undamaged(c, s)
  {
    var keyed := ExtractAll(classify, first, rows);
    ghost var files := Facts(classify, rows);
    var slots := CollectDelta(keyed);
    forall key: u32, id: nat ensures (key, id) in PairsFrom(first, files) <==> K.SlotsHold(slots, key, id) {
      PairsAreKeys(keyed, first, files, key, id);
    }
    var out := DeltaEntries(slots, PairsFrom(first, files));
    s := WriteSegment(c, first, rows, classify, out);
  }

  // ------------------------------------------------------------ the index of a history

  ghost function SegmentRows(base: seq<V.Row>, ds: seq<V.Delta>, n: nat): seq<V.Row>
    requires n <= |ds|
  {
    if n == 0 then base else ds[n - 1].rows
  }

  ghost function FirstId(ds: seq<V.Delta>, n: nat): nat
    requires n <= |ds|
  {
    if n == 0 then 0 else ds[n - 1].firstId
  }

  /** `ix` is the base and the deltas as they were written and read back. */
  ghost predicate Stored(c: S.Codec, classify: V.Row -> Class, ix: Index, base: seq<V.Row>, ds: seq<V.Delta>) {
    && |ix.deltas| == |ds| && ix.tomb == V.TombAll(ds)
    && forall n: nat | n <= |ds| :: StoredAt(c, classify, ix, base, ds, n)
  }

  ghost predicate StoredAt(c: S.Codec, classify: V.Row -> Class, ix: Index, base: seq<V.Row>, ds: seq<V.Delta>, n: nat)
    requires |ix.deltas| == |ds| && n <= |ds|
  {
    SegmentAt(ix, n).firstId == FirstId(ds, n)
    && Describes(c, SegmentAt(ix, n), Facts(classify, SegmentRows(base, ds, n)))
  }

  lemma {:induction false} BaseFits(base: seq<V.Row>, ds: seq<V.Delta>)
    ensures |base| <= |V.Rows(base, ds)|
  {
    V.RowsPrefix(base, ds, 0);
    assert ds[..0] == [];
  }

  lemma {:induction false} DeltaFits(base: seq<V.Row>, ds: seq<V.Delta>, n: nat)
    requires V.Contiguous(base, ds) && n < |ds|
    ensures ds[n].firstId + |ds[n].rows| <= |V.Rows(base, ds)|
  {
    V.RowsSnoc(base, ds, n);
    V.RowsPrefix(base, ds, n + 1);
  }

  ghost predicate DeltaStored(c: S.Codec, classify: V.Row -> Class, s: S.Segment, d: V.Delta) {
    s.firstId == d.firstId && Describes(c, s, Facts(classify, d.rows))
  }

  lemma {:induction false} AllStored(c: S.Codec, classify: V.Row -> Class, ix: Index, base: seq<V.Row>,
                                     ds: seq<V.Delta>)
    requires |ix.deltas| == |ds| && ix.tomb == V.TombAll(ds)
    requires ix.base.firstId == 0 && Describes(c, ix.base, Facts(classify, base))
    requires forall k | 0 <= k < |ds| :: DeltaStored(c, classify, ix.deltas[k], ds[k])
    ensures Stored(c, classify, ix, base, ds)
  {
    forall n: nat | n <= |ds| ensures StoredAt(c, classify, ix, base, ds, n) {
      if n > 0 {
        assert DeltaStored(c, classify, ix.deltas[n - 1], ds[n - 1]);
      }
    }
  }

  method StoreDeltas(c: S.Codec, classify: V.Row -> Class, ghost base: seq<V.Row>, ds: seq<V.Delta>)
    returns (segments: seq<S.Segment>)
    requires GoodCodec(c) && V.Contiguous(base, ds) && |V.Rows(base, ds)| < U32
    ensures |segments| == |ds| && forall k | 0 <= k < |ds| :: DeltaStored(c, classify, segments[k], ds[k])
  {
    segments := [];
    for n := 0 to |ds|
      invariant |segments| == n && forall k | 0 <= k < n :: DeltaStored(c, classify, segments[k], ds[k])
    {
      DeltaFits(base, ds, n);
      var s := BuildDelta(c, classify, ds[n].firstId, ds[n].rows);
      segments := segments + [s];
    }
  }

  /** Every id some delta retires. */
  method GatherTomb(ds: seq<V.Delta>) returns (tomb: set<nat>)
    ensures tomb == V.TombAll(ds)
  {
    tomb := {};
    for n := 0 to |ds|
      invariant tomb == V.TombAll(ds[..n])
    {
      V.TombSnoc(ds, n);
      tomb := tomb + ds[n].tomb;
    }
    assert ds[..|ds|] == ds;
  }

  /** Every segment written and read back. */
  method Store(c: S.Codec, classify: V.Row -> Class, base: seq<V.Row>, ds: seq<V.Delta>, threads: nat, budget: nat)
    returns (ix: Index)
    requires GoodCodec(c) && V.Contiguous(base, ds) && |V.Rows(base, ds)| < U32
    ensures Stored(c, classify, ix, base, ds)
  {
    BaseFits(base, ds);
    var b := BuildBase(c, classify, base, threads, budget);
    var segments := StoreDeltas(c, classify, base, ds);
    var tomb := GatherTomb(ds);
    ix := Index(b, segments, tomb);
    AllStored(c, classify, ix, base, ds);
  }

  /** Where a row is stored. */
  lemma {:induction false} RowAt(base: seq<V.Row>, ds: seq<V.Delta>, id: nat) returns (n: nat, i: nat)
    requires V.Contiguous(base, ds) && id < |V.Rows(base, ds)|
    ensures n <= |ds| && i < |SegmentRows(base, ds, n)|
    ensures FirstId(ds, n) + i == id && SegmentRows(base, ds, n)[i] == V.Rows(base, ds)[id]
    decreases |ds|
  {
    if ds == [] {
      n, i := 0, id;
    } else {
      var k := |ds| - 1;
      assert ds[k].firstId == |V.Rows(base, ds[..k])|;
      if id < |V.Rows(base, ds[..k])| {
        assert forall m | 0 <= m < k :: ds[..k][..m] == ds[..m];
        n, i := RowAt(base, ds[..k], id);
      } else {
        n, i := k + 1, id - ds[k].firstId;
      }
    }
  }

  lemma {:induction false} StoredInRange(base: seq<V.Row>, ds: seq<V.Delta>, n: nat, i: nat)
    requires V.Contiguous(base, ds) && n <= |ds| && i < |SegmentRows(base, ds, n)|
    ensures FirstId(ds, n) + i < |V.Rows(base, ds)|
  {
    V.RowsPrefix(base, ds, n);
    if n > 0 {
      V.RowsSnoc(base, ds, n - 1);
    } else {
      assert ds[..0] == [];
    }
  }

  /** A scan of the file would report it: it is too large to index, or searched
      and holds a match. */
  ghost predicate Hit(classify: V.Row -> Class, h: H.Node, row: V.Row) {
    classify(row).huge || (Searched(classify(row)) && PS.Found(h, row.content))
  }

  /** `id` is the live file of this row, and found. */
  ghost predicate FoundAs(base: seq<V.Row>, ds: seq<V.Delta>, found: set<nat>, row: V.Row, id: nat) {
    id in found && V.LiveBefore(base, ds, id) && V.Rows(base, ds)[id] == row
  }

  lemma {:induction false} HitIsAsked(classify: V.Row -> Class, h: H.Node, row: V.Row, q: P.Q)
    requires Hit(classify, h, row) && forall t | PS.Found(h, t) :: P.Sat(q, Grams(t))
    ensures Asked(q, FactsOf(classify, row))
  {
  }

  /** The segment of a live row, as a search sees it. */
  lemma {:induction false} StoredFacts(c: S.Codec, classify: V.Row -> Class, ix: Index, base: seq<V.Row>,
                                       ds: seq<V.Delta>, id: nat) returns (n: nat, files: seq<FileFacts>, i: nat)
    requires V.Contiguous(base, ds) && Stored(c, classify, ix, base, ds) && id < |V.Rows(base, ds)|
    ensures n <= |ix.deltas| && Describes(c, SegmentAt(ix, n), files) && SegmentAt(ix, n).firstId + i == id
    ensures i < |files| && files[i] == FactsOf(classify, V.Rows(base, ds)[id])
  {
    n, i := RowAt(base, ds, id);
    assert StoredAt(c, classify, ix, base, ds, n);
    files := Facts(classify, SegmentRows(base, ds, n));
  }

  lemma {:induction false} LiveIsFound(c: S.Codec, classify: V.Row -> Class, ix: Index, base: seq<V.Row>,
                                       ds: seq<V.Delta>, q: P.Q, id: nat)
    requires V.Contiguous(base, ds) && Stored(c, classify, ix, base, ds) && V.LiveBefore(base, ds, id)
    requires Asked(q, FactsOf(classify, V.Rows(base, ds)[id]))
    ensures id in CandidatesOf(c, ix, q)
  {
    var n, files, i := StoredFacts(c, classify, ix, base, ds, id);
    CandidatesComplete(c, ix, q, n, files, i);
  }

  lemma FoundIsLive(c: S.Codec, classify: V.Row -> Class, ix: Index, base: seq<V.Row>, ds: seq<V.Delta>, q: P.Q,
                    id: nat)
    requires V.Contiguous(base, ds) && Stored(c, classify, ix, base, ds) && id in CandidatesOf(c, ix, q)
    ensures V.LiveBefore(base, ds, id)
  {
    var facts := seq(|ds| + 1, n requires 0 <= n <= |ds| => Facts(classify, SegmentRows(base, ds, n)));
    forall k | 0 <= k < |facts| ensures Describes(c, SegmentAt(ix, k), facts[k]) {
      assert StoredAt(c, classify, ix, base, ds, k);
    }
    var n := CandidatesOwned(c, ix, q, facts, id);
    assert StoredAt(c, classify, ix, base, ds, n);
    StoredInRange(base, ds, n, id - FirstId(ds, n));
  }

  /** Searching the index after any history of edits finds every file a scan of the
      edited tree would report, and nothing but live files. */
  method SearchHistory(c: S.Codec, ghost classify: V.Row -> Class, ix: Index, h: H.Node,
                       ghost base: seq<V.Row>, ghost rs: seq<V.Round>) returns (found: set<nat>)
    requires V.GoodHistory(base, rs) && V.OnePerPath(base, [])
    requires Stored(c, classify, ix, base, V.History(base, rs))
    ensures forall row: V.Row | row.path in V.Replayed(base, rs) && V.Replayed(base, rs)[row.path] == row.content
        && Hit(classify, h, row) ::
        exists id :: FoundAs(base, V.History(base, rs), found, row, id)
    ensures forall id | id in found :: V.LiveBefore(base, V.History(base, rs), id)
  {
    ghost var ds := V.History(base, rs);
    V.HistoryGood(base, rs);
    V.GoodIsContiguous(base, ds);
    var q := PS.MakePlan(h);
    forall n: nat | n <= |ds| ensures StrictlyAscending(SegmentAt(ix, n).grams.keys) {
      assert StoredAt(c, classify, ix, base, ds, n);
    }
    assert SegmentAt(ix, 0) == ix.base && forall k | 0 <= k < |ix.deltas| :: SegmentAt(ix, k + 1) == ix.deltas[k];
    found := FindCandidates(c, ix, q);
    forall row: V.Row | row.path in V.Replayed(base, rs) && V.Replayed(base, rs)[row.path] == row.content
        && Hit(classify, h, row)
      ensures exists id :: FoundAs(base, ds, found, row, id)
    {
      V.ViewIsTable(base, rs, row);
      var id: nat :| V.LiveBefore(base, ds, id) && V.Rows(base, ds)[id] == row;
      HitIsAsked(classify, h, row, q);
      LiveIsFound(c, classify, ix, base, ds, q, id);
      assert FoundAs(base, ds, found, row, id);
    }
    forall id | id in found ensures V.LiveBefore(base, ds, id) {
      FoundIsLive(c, classify, ix, base, ds, q, id);
    }
  }
}
