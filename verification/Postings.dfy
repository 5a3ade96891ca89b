// A build's postings from end to end (crates/greeg-index/src/external.rs,
// `entries_of` in build.rs): workers accumulate and spill, their parts are
// collected, and the entries come out of memory or out of the merge. Either
// way they are the one list that lists what was pushed.

module Postings {
  import opened Bytes
  import opened Trigrams
  import opened Spill
  import opened Sink
  import opened Merge

  type Entries<K> = seq<(K, FileIds)>

  /** The (key, file) pairs of some pushes. */
  type Pairs<!K(==)> = iset<(K, nat)>

  ghost predicate Lists<K(!new)>(out: Entries<K>, k: K, f: nat) {
    exists j :: 0 <= j < |out| && out[j].0 == k && f in out[j].1
  }

  ghost predicate EntriesAscending<K(!new)>(c: KeyCodec<K>, out: Entries<K>) {
    forall i, j | 0 <= i < j < |out| :: c.lt(out[i].0, out[j].0)
  }

  /** Every distinct key once, ascending, with its file ids ascending. */
  ghost predicate ArePostings<K(!new)>(c: KeyCodec<K>, out: Entries<K>, pairs: Pairs<K>) {
    && EntriesAscending(c, out)
    && (forall j | 0 <= j < |out| :: out[j].1 != [])
    && (forall k: K, f: nat :: (k, f) in pairs <==> Lists(out, k, f))
  }

  // ------------------------------------------------------------ uniqueness

  lemma LastId(a: FileIds, f: nat)
    requires a != []
    ensures f in a ==> f <= a[|a| - 1]
    ensures f in a[..|a| - 1] <==> f in a && f != a[|a| - 1]
  {
    assert a == a[..|a| - 1] + [a[|a| - 1]];
  }

  lemma {:induction false} SameIds(a: FileIds, b: FileIds)
    requires forall f :: f in a <==> f in b
    ensures a == b
  {
    assert (a != [] ==> a[0] in b) && (b != [] ==> b[0] in a);
    if a != [] {
      var n, m := |a| - 1, |b| - 1;
      LastId(b, a[n]);
      LastId(a, b[m]);
      assert a[n] == b[m];
      forall f: nat ensures f in a[..n] <==> f in b[..m] {
        LastId(a, f);
        LastId(b, f);
      }
      SameIds(a[..n], b[..m]);
      assert a == a[..n] + [a[n]] && b == b[..m] + [b[m]];
    }
  }

  lemma LtStrict<K(!new)>(c: KeyCodec<K>, a: K, b: K)
    requires Lawful(c) && c.lt(a, b)
    ensures a != b && !c.lt(b, a)
  {
    LessAsymmetric(c.write(a), c.write(b));
  }

  /** The key of an entry is listed by that entry alone. */
  lemma ListedOnce<K(!new)>(c: KeyCodec<K>, out: Entries<K>, j: nat, f: nat)
    requires Lawful(c) && EntriesAscending(c, out) && j < |out|
    ensures Lists(out, out[j].0, f) <==> f in out[j].1
  {
    if Lists(out, out[j].0, f) {
      var i :| 0 <= i < |out| && out[i].0 == out[j].0 && f in out[i].1;
      if i < j {
        LtStrict(c, out[i].0, out[j].0);
      } else if j < i {
        LtStrict(c, out[j].0, out[i].0);
      }
    }
  }

  lemma SomeEntry<K(!new)>(c: KeyCodec<K>, a: Entries<K>, b: Entries<K>, pairs: Pairs<K>, i: nat) returns (j: nat)
    requires ArePostings(c, a, pairs) && ArePostings(c, b, pairs) && i < |a|
    ensures j < |b| && b[j].0 == a[i].0
  {
    var f := a[i].1[0];
    assert Lists(a, a[i].0, f);
    assert (a[i].0, f) in pairs;
    j :| 0 <= j < |b| && b[j].0 == a[i].0 && f in b[j].1;
  }

  lemma LastKeySame<K(!new)>(c: KeyCodec<K>, a: Entries<K>, b: Entries<K>, pairs: Pairs<K>)
    requires Lawful(c) && ArePostings(c, a, pairs) && ArePostings(c, b, pairs) && a != []
    ensures b != [] && a[|a| - 1] == b[|b| - 1]
  {
    var n := |a| - 1;
    var j := SomeEntry(c, a, b, pairs, n);
    var m := |b| - 1;
    var i := SomeEntry(c, b, a, pairs, m);
    if j < m && i < n {
      LtStrict(c, b[j].0, b[m].0);
      assert false;
    }
    assert a[n].0 == b[m].0;
    forall f ensures f in a[n].1 <==> f in b[m].1 {
      ListedOnce(c, a, n, f);
      ListedOnce(c, b, m, f);
    }
    SameIds(a[n].1, b[m].1);
  }

  lemma WithoutLast<K(!new)>(c: KeyCodec<K>, a: Entries<K>, pairs: Pairs<K>)
    requires Lawful(c) && ArePostings(c, a, pairs) && a != []
    ensures ArePostings(c, a[..|a| - 1], iset p | p in pairs && p.0 != a[|a| - 1].0)
  {
    var n := |a| - 1;
    var init, fewer := a[..n], iset p | p in pairs && p.0 != a[n].0;
    forall k: K, f: nat ensures (k, f) in fewer <==> Lists(init, k, f) {
      if (k, f) in fewer {
        var j :| 0 <= j < |a| && a[j].0 == k && f in a[j].1;
        assert init[j] == a[j];
      }
      if Lists(init, k, f) {
        var j :| 0 <= j < |init| && init[j].0 == k && f in init[j].1;
        assert a[j] == init[j];
        LtStrict(c, a[j].0, a[n].0);
      }
    }
  }

  /** What was pushed determines the entries. */
  lemma {:induction false} PostingsUnique<K(!new)>(c: KeyCodec<K>, a: Entries<K>, b: Entries<K>, pairs: Pairs<K>)
    requires Lawful(c) && ArePostings(c, a, pairs) && ArePostings(c, b, pairs)
    ensures a == b
    decreases |a|
  {
    if a == [] {
      if b != [] {
        LastKeySame(c, b, a, pairs);
      }
    } else {
      LastKeySame(c, a, b, pairs);
      WithoutLast(c, a, pairs);
      WithoutLast(c, b, pairs);
      PostingsUnique(c, a[..|a| - 1], b[..|b| - 1], iset p | p in pairs && p.0 != a[|a| - 1].0);
      assert a == a[..|a| - 1] + [a[|a| - 1]] && b == b[..|b| - 1] + [b[|b| - 1]];
    }
  }

  // ------------------------------------------------------------ out of segments

  /** Every key was written from a key of this type. */
  ghost predicate KeysOfType<K(!new)>(c: KeyCodec<K>, segments: seq<Bytes>) {
    forall key: Bytes, f: nat | SegmentsHold(segments, key, f) :: c.write(c.read(key)) == key
  }

  ghost predicate GoodSegments<K(!new)>(c: KeyCodec<K>, segments: seq<Bytes>) {
    (forall i | 0 <= i < |segments| :: GoodSegment(segments[i])) && KeysOfType(c, segments)
  }

  ghost predicate ReadableSegments<K(!new)>(c: KeyCodec<K>, segments: seq<Bytes>) {
    (forall i | 0 <= i < |segments| :: Readable(segments[i])) && KeysOfType(c, segments)
  }

  ghost predicate Undamaged(segments: seq<Bytes>) {
    forall i | 0 <= i < |segments| :: EndOf(segments[i]).Clean?
  }

  ghost predicate AllClean(ends: seq<Ending>) {
    forall i | 0 <= i < |ends| :: ends[i].Clean?
  }

  /** A damaged segment has not been read to its damage. */
  ghost predicate Pending(rest: seq<seq<Record>>, ends: seq<Ending>) {
    |rest| == |ends| && forall i | 0 <= i < |rest| && !ends[i].Clean? :: rest[i] != []
  }

  lemma GoodIsWhole<K(!new)>(c: KeyCodec<K>, segments: seq<Bytes>)
    requires GoodSegments(c, segments)
    ensures ReadableSegments(c, segments) && Undamaged(segments)
  {
    forall i | 0 <= i < |segments| ensures Readable(segments[i]) && EndOf(segments[i]) == Clean {
      GoodIsReadable(segments[i]);
    }
  }

  const MERGE_READ_BUDGET := 0x40_0000
  const MIN_SEGMENT_BUF := 0x4000

  /** `Merger::open`: a segment damaged from the start is an error. */
  method OpenMerger(segments: seq<Bytes>) returns (ok: bool, m: Merger)
    requires forall i | 0 <= i < |segments| :: Readable(segments[i])
    ensures fresh(m) && fresh(set r | r in m.readers) && m.Valid()
    ensures !ok ==> !Undamaged(segments)
    ensures ok ==> Pending(m.rest, m.ends) && (AllClean(m.ends) <==> Undamaged(segments))
    ensures ok ==> forall key: Bytes, f: nat :: RestHas(m.rest, key, f) <==> SegmentsHold(segments, key, f)
  {
    var share := MERGE_READ_BUDGET / (if |segments| > 1 then |segments| else 1);
    var capacity := if share > MIN_SEGMENT_BUF then share else MIN_SEGMENT_BUF;
    m := new Merger();
    ghost var all := segments;
    for i := 0 to |segments|
      invariant fresh(m) && fresh(set r | r in m.readers) && m.Valid()
      invariant Opened(m.rest, m.ends, segments[..i])
    {
      ghost var rest, ends := m.rest, m.ends;
      var added := m.Add(segments[i], capacity);
      if !added {
        assert !EndOf(segments[i]).Clean?;
        return false, m;
      }
      OpenedOne(rest, ends, segments, i, m.rest, m.ends);
    }
    assert segments[..|segments|] == segments;
    ok := true;
  }

  /** What the readers of some opened segments have to give. */
  ghost predicate Opened(rest: seq<seq<Record>>, ends: seq<Ending>, segments: seq<Bytes>) {
    && Pending(rest, ends) && (AllClean(ends) <==> Undamaged(segments))
    && forall key: Bytes, f: nat :: RestHas(rest, key, f) <==> SegmentsHold(segments, key, f)
  }

  lemma OpenedOne(rest: seq<seq<Record>>, ends: seq<Ending>, segments: seq<Bytes>, i: nat,
                  rest': seq<seq<Record>>, ends': seq<Ending>)
    requires i < |segments| && Opened(rest, ends, segments[..i])
    requires RecordsOf(segments[i]) != [] || EndOf(segments[i]).Clean?
    requires rest' == rest + if RecordsOf(segments[i]) == [] then [] else [RecordsOf(segments[i])]
    requires ends' == ends + if RecordsOf(segments[i]) == [] then [] else [EndOf(segments[i])]
    ensures Opened(rest', ends', segments[..i + 1])
  {
    var before, rs, end := segments[..i], RecordsOf(segments[i]), EndOf(segments[i]);
    assert segments[..i + 1] == before + [segments[i]];
    SegmentsSnoc(before, segments[i]);
    UndamagedSnoc(before, segments[i]);
    if rs == [] {
      assert rest' == rest && ends' == ends;
      assert forall key: Bytes, f: nat :: !HasPair(rs, key, f);
    } else {
      RestSnoc(rest, rs);
      CleanSnoc(ends, end);
    }
  }

  lemma {:induction false} UndamagedSnoc(segments: seq<Bytes>, s: Bytes)
    ensures Undamaged(segments + [s]) <==> Undamaged(segments) && EndOf(s).Clean?
  {
    var all := segments + [s];
    assert all[|segments|] == s && forall i | 0 <= i < |segments| :: all[i] == segments[i];
  }

  lemma CleanSnoc(ends: seq<Ending>, end: Ending)
    ensures AllClean(ends + [end]) <==> AllClean(ends) && end.Clean?
  {
    var all := ends + [end];
    assert all[|ends|] == end && forall i | 0 <= i < |ends| :: all[i] == ends[i];
  }

  /** Unless some reader broke, a damaged segment still has records. */
  lemma StaysPending(was: seq<seq<Record>>, now: seq<seq<Record>>, ends: seq<Ending>, key: Bytes)
    requires Pending(was, ends) && AllPast(was, now, key) && !(exists i :: BreaksFirst(was, ends, i))
    requires forall i | 0 <= i < |ends| :: !ends[i].OutOfOrder?
    ensures Pending(now, ends)
  {
    assert forall j | 0 <= j < |was| :: Moved(was[j], now[j], key) && NotBefore(was[j], key);
    forall i: nat | i < |now| && !ends[i].Clean? ensures now[i] != [] {
      assert now[i] != was[i] ==> was[i][0].key == key && !BreaksFirst(was, ends, i);
    }
  }

  ghost predicate RestBeyond<K(!new)>(c: KeyCodec<K>, out: Entries<K>, rest: seq<seq<Record>>) {
    forall j, key: Bytes, f: nat | 0 <= j < |out| && RestHas(rest, key, f) :: Less(c.write(out[j].0), key)
  }

  /** `out` and what is left of the segments make up the whole. */
  ghost predicate Progress<K(!new)>(c: KeyCodec<K>, out: Entries<K>, rest: seq<seq<Record>>, segments: seq<Bytes>) {
    && EntriesAscending(c, out) && RestBeyond(c, out, rest)
    && (forall j | 0 <= j < |out| :: out[j].1 != [])
    && (forall key: Bytes, f: nat | RestHas(rest, key, f) :: c.write(c.read(key)) == key)
    && (forall k: K, f: nat :: SegmentsHold(segments, c.write(k), f) <==> Lists(out, k, f) || RestHas(rest, c.write(k), f))
  }

  lemma ProgressStep<K(!new)>(c: KeyCodec<K>, out: Entries<K>, was: seq<seq<Record>>, now: seq<seq<Record>>,
                             segments: seq<Bytes>, key: Bytes, files: FileIds)
    requires Lawful(c) && Progress(c, out, was, segments)
    requires files != [] && Takes(was, now, key, files)
    ensures Progress(c, out + [(c.read(key), files)], now, segments)
  {
    var k := c.read(key);
    var all := out + [(k, files)];
    assert RestHas(was, key, files[0]);
    assert c.write(k) == key;
    forall x: K, f: nat
      ensures SegmentsHold(segments, c.write(x), f) <==> Lists(all, x, f) || RestHas(now, c.write(x), f)
    {
      ListsSnoc(out, k, files, x, f);
      assert c.read(c.write(x)) == x;
    }
    forall j, y: Bytes, f: nat | 0 <= j < |all| && RestHas(now, y, f) ensures Less(c.write(all[j].0), y) {
      if j < |out| {
        assert RestHas(was, y, f);
      }
    }
  }

  lemma ListsSnoc<K(!new)>(out: Entries<K>, k: K, files: FileIds, x: K, f: nat)
    ensures Lists(out + [(k, files)], x, f) <==> Lists(out, x, f) || (x == k && f in files)
  {
    var all := out + [(k, files)];
    if Lists(out, x, f) {
      var j :| 0 <= j < |out| && out[j].0 == x && f in out[j].1;
      assert all[j] == out[j];
    }
    if x == k && f in files {
      assert all[|out|] == (k, files);
    }
    if Lists(all, x, f) {
      var j :| 0 <= j < |all| && all[j].0 == x && f in all[j].1;
      assert j < |out| ==> all[j] == out[j];
    }
  }

  function Flatten<T>(batches: seq<seq<T>>): seq<T> {
    if batches == [] then [] else Flatten(batches[..|batches| - 1]) + batches[|batches| - 1]
  }

  lemma {:induction false} FlattenSnoc<T>(batches: seq<seq<T>>, b: seq<T>)
    ensures Flatten(batches + [b]) == Flatten(batches) + b
  {
    assert (batches + [b])[..|batches|] == batches;
  }

  ghost predicate GoodBatches<T>(batches: seq<seq<T>>, batch: nat) {
    forall b | b in batches :: b != [] && (batch > 0 ==> |b| <= batch)
  }

  /** One more entry; a full batch is handed over. */
  method PushEntry<T>(batches: seq<seq<T>>, acc: seq<T>, e: T, batch: nat) returns (now: seq<seq<T>>, left: seq<T>)
    requires GoodBatches(batches, batch) && (batch > 0 ==> |acc| < batch)
    ensures GoodBatches(now, batch) && (batch > 0 ==> |left| < batch)
    ensures Flatten(now) + left == Flatten(batches) + acc + [e]
  {
    now, left := batches, acc + [e];
    Regroup(Flatten(batches), acc, [e]);
    if |left| == batch {
      FlattenSnoc(batches, left);
      now, left := batches + [left], [];
    }
  }

  /** What is left is the last batch. */
  method LastBatch<T>(batches: seq<seq<T>>, acc: seq<T>, batch: nat) returns (all: seq<seq<T>>)
    requires GoodBatches(batches, batch) && (batch > 0 ==> |acc| < batch)
    ensures GoodBatches(all, batch) && Flatten(all) == Flatten(batches) + acc
  {
    FlattenSnoc(batches, acc);
    if acc == [] {
      assert Flatten(batches) + acc == Flatten(batches);
      return batches;
    }
    all := batches + [acc];
  }

  /** The state of the merge after some entries. */
  ghost predicate Merging<K(!new)>(c: KeyCodec<K>, out: Entries<K>, rest: seq<seq<Record>>, ends: seq<Ending>,
                                  segments: seq<Bytes>)
  {
    && Progress(c, out, rest, segments)
    && Pending(rest, ends) && (AllClean(ends) <==> Undamaged(segments))
  }

  lemma MergingStep<K(!new)>(c: KeyCodec<K>, out: Entries<K>, was: seq<seq<Record>>, now: seq<seq<Record>>,
                            ends: seq<Ending>, segments: seq<Bytes>, key: Bytes, files: FileIds)
    requires Lawful(c) && Merging(c, out, was, ends, segments)
    requires files != [] && Takes(was, now, key, files) && AllPast(was, now, key)
    requires !(exists i :: BreaksFirst(was, ends, i)) && forall i | 0 <= i < |ends| :: !ends[i].OutOfOrder?
    ensures Merging(c, out + [(c.read(key), files)], now, ends, segments)
  {
    StaysPending(was, now, ends, key);
    ProgressStep(c, out, was, now, segments, key, files);
  }

  lemma Broke(rest: seq<seq<Record>>, ends: seq<Ending>)
    requires exists i :: BreaksFirst(rest, ends, i)
    ensures !AllClean(ends)
  {
  }

  lemma MergedAll<K(!new)>(c: KeyCodec<K>, out: Entries<K>, rest: seq<seq<Record>>, ends: seq<Ending>,
                          segments: seq<Bytes>, pairs: Pairs<K>)
    requires Merging(c, out, rest, ends, segments) && NothingLeft(rest)
    requires forall k: K, f: nat :: (k, f) in pairs <==> SegmentsHold(segments, c.write(k), f)
    ensures Undamaged(segments) && ArePostings(c, out, pairs)
  {
    assert forall key: Bytes, f: nat :: !RestHas(rest, key, f);
  }

  /** The next entry of the merge. */
  method NextEntry<K(==, !new)>(c: KeyCodec<K>, m: Merger, ghost out: Entries<K>, ghost segments: seq<Bytes>)
    returns (e: Taken)
    requires Lawful(c) && m.Valid() && Merging(c, out, m.rest, m.ends, segments)
    modifies m, m.readers
    ensures m.Valid() && m.readers == old(m.readers)
    ensures e.Drained? ==> NothingLeft(m.rest) && Merging(c, out, m.rest, m.ends, segments)
    ensures e.Drained? ==> m.rest == old(m.rest)
    ensures e.Broken? ==> !Undamaged(segments)
    ensures e.Key? ==> Merging(c, out + [(c.read(e.key), e.files)], m.rest, m.ends, segments)
    ensures e.Key? ==> Remaining(m.rest) < Remaining(old(m.rest))
  {
    ghost var was := m.rest;
    e := m.NextKey();
    if e.Broken? {
      Broke(was, m.ends);
    }
    if e.Key? {
      m.InOrder();
      MergingStep(c, out, was, m.rest, m.ends, segments, e.key, e.files);
    }
  }

  /** Entries in batches, the last one short, until the segments are drained or
      one proves damaged. */
  method MergeAll<K(==, !new)>(c: KeyCodec<K>, m: Merger, batch: nat, ghost segments: seq<Bytes>)
    returns (ok: bool, batches: seq<Entries<K>>, acc: Entries<K>, ghost out: Entries<K>)
    requires Lawful(c) && m.Valid() && Merging(c, [], m.rest, m.ends, segments)
    modifies m, m.readers
    ensures ok ==> out == Flatten(batches) + acc && GoodBatches(batches, batch) && (batch > 0 ==> |acc| < batch)
    ensures ok ==> NothingLeft(m.rest) && Merging(c, out, m.rest, m.ends, segments)
    ensures !ok ==> !Undamaged(segments)
  {
    batches, acc, out, ok := [], [], [], true;
    var going := true;
    while going
      invariant m.Valid() && m.readers == old(m.readers)
      invariant out == Flatten(batches) + acc && GoodBatches(batches, batch) && (batch > 0 ==> |acc| < batch)
      invariant Merging(c, out, m.rest, m.ends, segments)
      invariant !going ==> NothingLeft(m.rest)
      decreases Remaining(m.rest), going
    {
      var e := NextEntry(c, m, out, segments);
      if e.Broken? {
        ok := false;
        return;
      }
      if e.Key? {
        batches, acc := PushEntry(batches, acc, (c.read(e.key), e.files), batch);
        out := out + [(c.read(e.key), e.files)];
      } else {
        going := false;
      }
    }
  }

  /** `stream_batches`: the merge, handed over `batch` entries at a time; an error
      exactly when some segment is damaged. */
  method StreamBatches<K(==, !new)>(c: KeyCodec<K>, segments: seq<Bytes>, batch: nat, ghost pairs: Pairs<K>)
    returns (r: Option<seq<Entries<K>>>)
    requires Lawful(c) && ReadableSegments(c, segments)
    requires forall k: K, f: nat :: (k, f) in pairs <==> SegmentsHold(segments, c.write(k), f)
    ensures r.Some? <==> Undamaged(segments)
    ensures r.Some? ==> ArePostings(c, Flatten(r.value), pairs) && GoodBatches(r.value, batch)
  {
    var ready, m := OpenMerger(segments);
    if !ready {
      return None;
    }
    StartMerging(c, m.rest, m.ends, segments);
    var ok, batches, acc, out := MergeAll(c, m, batch, segments);
    if !ok {
      return None;
    }
    MergedAll(c, out, m.rest, m.ends, segments, pairs);
    var all := LastBatch(batches, acc, batch);
    r := Some(all);
  }

  lemma StartMerging<K(!new)>(c: KeyCodec<K>, rest: seq<seq<Record>>, ends: seq<Ending>, segments: seq<Bytes>)
    requires ReadableSegments(c, segments) && Pending(rest, ends) && (AllClean(ends) <==> Undamaged(segments))
    requires forall key: Bytes, f: nat :: RestHas(rest, key, f) <==> SegmentsHold(segments, key, f)
    ensures Merging(c, [], rest, ends, segments)
  {
  }

  /** The entries of undamaged segments. */
  method MergeSegments<K(==, !new)>(c: KeyCodec<K>, segments: seq<Bytes>, batch: nat, ghost pairs: Pairs<K>)
    returns (out: Entries<K>)
    requires Lawful(c) && GoodSegments(c, segments)
    requires forall k: K, f: nat :: (k, f) in pairs <==> SegmentsHold(segments, c.write(k), f)
    ensures ArePostings(c, out, pairs)
  {
    GoodIsWhole(c, segments);
    var batches := StreamBatches(c, segments, batch, pairs);
    out := Flatten(batches.value);
  }

  // ------------------------------------------------------------ out of memory

  ghost predicate MapsHold<K(!new)>(maps: seq<map<K, Slot>>, k: K, f: nat) {
    exists i :: 0 <= i < |maps| && SlotsHold(maps[i], k, f)
  }

  /** Appending one worker's lists to another's. */
  function Appended<K(!new)>(a: map<K, Slot>, b: map<K, Slot>): (r: map<K, Slot>)
    ensures forall k: K, f: nat :: SlotsHold(r, k, f) <==> SlotsHold(a, k, f) || SlotsHold(b, k, f)
    ensures GoodSlots(a) && GoodSlots(b) ==> GoodSlots(r)
  {
    map k | k in a.Keys + b.Keys ::
      if k !in b then a[k] else if k !in a then b[k] else Slot(a[k].files + b[k].files, a[k].capacity)
  }

  function InsertBySize<K(!new)>(maps: seq<map<K, Slot>>, m: map<K, Slot>): (r: seq<map<K, Slot>>)
    ensures multiset(r) == multiset(maps) + multiset{m}
  {
    if maps == [] || |maps[0]| <= |m| then [m] + maps
    else
      assert maps == [maps[0]] + maps[1..];
      [maps[0]] + InsertBySize(maps[1..], m)
  }

  /** A stable sort, largest map first. */
  function LargestFirst<K(!new)>(maps: seq<map<K, Slot>>): (r: seq<map<K, Slot>>)
    ensures multiset(r) == multiset(maps)
  {
    if maps == [] then []
    else
      assert maps == [maps[0]] + maps[1..];
      InsertBySize(LargestFirst(maps[1..]), maps[0])
  }

  lemma HoldUpToOrder<K(!new)>(a: seq<map<K, Slot>>, b: seq<map<K, Slot>>, k: K, f: nat)
    requires multiset(a) == multiset(b)
    ensures MapsHold(a, k, f) ==> MapsHold(b, k, f)
    ensures (forall m | m in a :: GoodSlots(m)) ==> forall m | m in b :: GoodSlots(m)
  {
    assert forall m :: m in a <==> m in multiset(a);
    assert forall m :: m in b <==> m in multiset(b);
    if MapsHold(a, k, f) {
      var i :| 0 <= i < |a| && SlotsHold(a[i], k, f);
      assert a[i] in b;
    }
  }

  lemma MapsHoldSnoc<K(!new)>(maps: seq<map<K, Slot>>, n: nat, k: K, f: nat)
    requires n < |maps|
    ensures MapsHold(maps[..n + 1], k, f) <==> MapsHold(maps[..n], k, f) || SlotsHold(maps[n], k, f)
  {
    if MapsHold(maps[..n], k, f) {
      var i :| 0 <= i < n && SlotsHold(maps[..n][i], k, f);
      assert maps[..n + 1][i] == maps[..n][i];
    }
    if SlotsHold(maps[n], k, f) {
      assert maps[..n + 1][n] == maps[n];
    }
    if MapsHold(maps[..n + 1], k, f) {
      var i :| 0 <= i < n + 1 && SlotsHold(maps[..n + 1][i], k, f);
      assert i < n ==> maps[..n][i] == maps[..n + 1][i];
    }
  }

  /** The worker maps in one: the smallest, with the others appended to it. */
  method MergeMaps<K(!new)>(maps: seq<map<K, Slot>>) returns (merged: map<K, Slot>)
    requires forall m | m in maps :: GoodSlots(m)
    ensures GoodSlots(merged)
    ensures forall k: K, f: nat :: SlotsHold(merged, k, f) <==> MapsHold(maps, k, f)
  {
    var sorted := LargestFirst(maps);
    forall k: K, f: nat
      ensures MapsHold(maps, k, f) <==> MapsHold(sorted, k, f)
    {
      HoldUpToOrder(maps, sorted, k, f);
      HoldUpToOrder(sorted, maps, k, f);
    }
    assert forall m | m in sorted :: GoodSlots(m) by {
      assert forall m :: m in sorted <==> m in multiset(sorted);
      assert forall m :: m in maps <==> m in multiset(maps);
    }
    if sorted == [] {
      return map[];
    }
    var last := |sorted| - 1;
    merged := sorted[last];
    assert sorted[last] in sorted;
    for n := 0 to last
      invariant GoodSlots(merged)
      invariant forall k: K, f: nat :: SlotsHold(merged, k, f) <==> MapsHold(sorted[..n], k, f) || SlotsHold(sorted[last], k, f)
    {
      assert sorted[n] in sorted;
      forall k: K, f: nat
        ensures MapsHold(sorted[..n + 1], k, f) <==> MapsHold(sorted[..n], k, f) || SlotsHold(sorted[n], k, f)
      {
        MapsHoldSnoc(sorted, n, k, f);
      }
      merged := Appended(merged, sorted[n]);
    }
    forall k: K, f: nat
      ensures MapsHold(sorted, k, f) <==> MapsHold(sorted[..last], k, f) || SlotsHold(sorted[last], k, f)
    {
      assert sorted[..last + 1] == sorted;
      MapsHoldSnoc(sorted, last, k, f);
    }
  }

  /** The in-memory path: sorted keys, each with its list sorted. */
  method FromMemory<K(==, !new)>(c: KeyCodec<K>, maps: seq<map<K, Slot>>, ghost pairs: Pairs<K>)
    returns (out: Entries<K>)
    requires Lawful(c) && forall m | m in maps :: GoodSlots(m)
    requires forall k: K, f: nat :: (k, f) in pairs <==> MapsHold(maps, k, f)
    ensures ArePostings(c, out, pairs)
  {
    var merged := MergeMaps(maps);
    var ks := SortedKeys(c, merged.Keys);
    out := [];
    for i := 0 to |ks|
      invariant |out| == i
      invariant forall j | 0 <= j < i :: EntryOfSlot(merged, ks[j], out[j])
    {
      assert ks[i] in merged.Keys;
      out := out + [(ks[i], SortDedup(merged[ks[i]].files))];
    }
    SlotEntries(c, merged, ks, out, pairs);
  }

  ghost predicate EntryOfSlot<K(!new)>(slots: map<K, Slot>, k: K, e: (K, FileIds)) {
    k in slots && e.0 == k && forall f :: f in e.1 <==> f in slots[k].files
  }

  lemma SlotEntries<K(!new)>(c: KeyCodec<K>, slots: map<K, Slot>, ks: seq<K>, out: Entries<K>, pairs: Pairs<K>)
    requires GoodSlots(slots) && KeysAscending(c, ks) && |out| == |ks|
    requires forall k :: k in ks <==> k in slots
    requires forall j | 0 <= j < |ks| :: EntryOfSlot(slots, ks[j], out[j])
    requires forall k: K, f: nat :: (k, f) in pairs <==> SlotsHold(slots, k, f)
    ensures ArePostings(c, out, pairs)
  {
    forall j | 0 <= j < |out| ensures out[j].1 != [] && out[j].0 == ks[j] {
      assert EntryOfSlot(slots, ks[j], out[j]);
      assert slots[ks[j]].files[0] in out[j].1;
    }
    forall k: K, f: nat ensures (k, f) in pairs <==> Lists(out, k, f) {
      if SlotsHold(slots, k, f) {
        assert k in ks;
        var j :| 0 <= j < |ks| && ks[j] == k;
        assert EntryOfSlot(slots, ks[j], out[j]);
      }
      if Lists(out, k, f) {
        var j :| 0 <= j < |out| && out[j].0 == k && f in out[j].1;
        assert EntryOfSlot(slots, ks[j], out[j]);
      }
    }
  }

  // ------------------------------------------------------------ the build

  /** The keys of one file, as a worker pushes them. */
  datatype FileKeys<K> = FileKeys(file: nat, keys: seq<K>)

  ghost predicate ChunkHas<K(!new)>(chunk: seq<FileKeys<K>>, k: K, f: nat) {
    exists i :: 0 <= i < |chunk| && chunk[i].file == f && k in chunk[i].keys
  }

  ghost predicate GoodPart<K(!new)>(c: KeyCodec<K>, p: Part<K>) {
    match p
    case Memory(slots) => GoodSlots(slots)
    case Segments(files) => GoodSegments(c, files)
  }

  ghost predicate PartHolds<K(!new)>(c: KeyCodec<K>, p: Part<K>, k: K, f: nat) {
    match p
    case Memory(slots) => SlotsHold(slots, k, f)
    case Segments(files) => SegmentsHold(files, c.write(k), f)
  }

  /** One worker over its chunk of files, spilling only between files. */
  method Worker<K(==, !new)>(c: KeyCodec<K>, budget: nat, chunk: seq<FileKeys<K>>) returns (part: Part<K>)
    requires Lawful(c) && forall i | 0 <= i < |chunk| :: chunk[i].file < U32
    ensures GoodPart(c, part)
    ensures forall k: K, f: nat :: PartHolds(c, part, k, f) <==> ChunkHas(chunk, k, f)
  {
    var sink := new Sink(c, budget);
    for i := 0 to |chunk|
      invariant fresh(sink) && sink.Valid() && sink.codec == c
      invariant forall k: K, f: nat :: (k, f) in sink.pushed <==> ChunkHas(chunk[..i], k, f)
    {
      ghost var before := sink.pushed;
      var e := chunk[i];
      for j := 0 to |e.keys|
        invariant fresh(sink) && sink.Valid() && sink.codec == c
        invariant forall k: K, f: nat :: (k, f) in sink.pushed <==> (k, f) in before || (f == e.file && k in e.keys[..j])
      {
        assert e.keys[..j + 1] == e.keys[..j] + [e.keys[j]];
        sink.Push(e.keys[j], e.file);
      }
      assert e.keys[..|e.keys|] == e.keys;
      ChunkSnoc(chunk, i);
      sink.SpillIfFull();
    }
    assert chunk[..|chunk|] == chunk;
    part := sink.Finish();
    if part.Segments? {
      assert forall k: K, f: nat :: !SlotsHold(sink.slots, k, f);
    } else {
      assert forall key: Bytes, f: nat :: !SegmentsHold(sink.segments, key, f);
    }
  }

  lemma ChunkSnoc<K(!new)>(chunk: seq<FileKeys<K>>, n: nat)
    requires n < |chunk|
    ensures forall k: K, f: nat :: ChunkHas(chunk[..n + 1], k, f) <==>
      ChunkHas(chunk[..n], k, f) || (f == chunk[n].file && k in chunk[n].keys)
  {
    forall k: K, f: nat
      ensures ChunkHas(chunk[..n + 1], k, f) <==> ChunkHas(chunk[..n], k, f) || (f == chunk[n].file && k in chunk[n].keys)
    {
      if ChunkHas(chunk[..n], k, f) {
        var i :| 0 <= i < n && chunk[..n][i].file == f && k in chunk[..n][i].keys;
        assert chunk[..n + 1][i] == chunk[..n][i];
      }
      if f == chunk[n].file && k in chunk[n].keys {
        assert chunk[..n + 1][n] == chunk[n];
      }
      if ChunkHas(chunk[..n + 1], k, f) {
        var i :| 0 <= i < n + 1 && chunk[..n + 1][i].file == f && k in chunk[..n + 1][i].keys;
        assert i < n ==> chunk[..n][i] == chunk[..n + 1][i];
      }
    }
  }

  ghost predicate PartsHold<K(!new)>(c: KeyCodec<K>, parts: seq<Part<K>>, k: K, f: nat) {
    exists i :: 0 <= i < |parts| && PartHolds(c, parts[i], k, f)
  }

  lemma PartsSnoc<K(!new)>(c: KeyCodec<K>, parts: seq<Part<K>>, p: Part<K>)
    ensures forall k: K, f: nat :: PartsHold(c, parts + [p], k, f) <==> PartsHold(c, parts, k, f) || PartHolds(c, p, k, f)
  {
    var all := parts + [p];
    forall k: K, f: nat
      ensures PartsHold(c, all, k, f) <==> PartsHold(c, parts, k, f) || PartHolds(c, p, k, f)
    {
      if PartsHold(c, parts, k, f) {
        var i :| 0 <= i < |parts| && PartHolds(c, parts[i], k, f);
        assert all[i] == parts[i];
      }
      if PartHolds(c, p, k, f) {
        assert all[|parts|] == p;
      }
      if PartsHold(c, all, k, f) {
        var i :| 0 <= i < |all| && PartHolds(c, all[i], k, f);
        assert i < |parts| ==> all[i] == parts[i];
      }
    }
  }

  lemma SegmentsJoin(a: seq<Bytes>, b: seq<Bytes>)
    ensures forall key: Bytes, f: nat ::
      SegmentsHold(a + b, key, f) <==> SegmentsHold(a, key, f) || SegmentsHold(b, key, f)
  {
    var all := a + b;
    forall key: Bytes, f: nat
      ensures SegmentsHold(all, key, f) <==> SegmentsHold(a, key, f) || SegmentsHold(b, key, f)
    {
      if SegmentsHold(a, key, f) {
        var i :| 0 <= i < |a| && HasPair(RecordsOf(a[i]), key, f);
        assert all[i] == a[i];
      }
      if SegmentsHold(b, key, f) {
        var i :| 0 <= i < |b| && HasPair(RecordsOf(b[i]), key, f);
        assert all[|a| + i] == b[i];
      }
      if SegmentsHold(all, key, f) {
        var i :| 0 <= i < |all| && HasPair(RecordsOf(all[i]), key, f);
        assert if i < |a| then all[i] == a[i] else all[i] == b[i - |a|];
      }
    }
  }

  /** The segments of one part; a map that was never spilled is written out. */
  method PartSegments<K(==, !new)>(c: KeyCodec<K>, p: Part<K>) returns (segments: seq<Bytes>)
    requires Lawful(c) && GoodPart(c, p)
    ensures GoodSegments(c, segments)
    ensures forall k: K, f: nat :: SegmentsHold(segments, c.write(k), f) <==> PartHolds(c, p, k, f)
  {
    match p {
      case Segments(files) =>
        segments := files;
      case Memory(slots) =>
        if slots == map[] {
          segments := [];
        } else {
          var contents := Serialize(c, slots);
          segments := [contents];
          SegmentsSnoc([], contents);
          assert [] + [contents] == segments;
        }
    }
  }

  lemma AllMemoryHold<K(!new)>(c: KeyCodec<K>, parts: seq<Part<K>>, maps: seq<map<K, Slot>>)
    requires |maps| == |parts| && forall i | 0 <= i < |parts| :: parts[i].Memory? && maps[i] == parts[i].slots
    ensures forall k: K, f: nat :: PartsHold(c, parts, k, f) <==> MapsHold(maps, k, f)
  {
    forall k: K, f: nat ensures PartsHold(c, parts, k, f) <==> MapsHold(maps, k, f) {
      if MapsHold(maps, k, f) {
        var i :| 0 <= i < |maps| && SlotsHold(maps[i], k, f);
        assert PartHolds(c, parts[i], k, f);
      }
      if PartsHold(c, parts, k, f) {
        var i :| 0 <= i < |parts| && PartHolds(c, parts[i], k, f);
        assert SlotsHold(maps[i], k, f);
      }
    }
  }

  /** `collect` and `entries_of`: in memory when no worker spilled, otherwise
      merged from everyone's segments. */
  method EntriesOf<K(==, !new)>(c: KeyCodec<K>, parts: seq<Part<K>>, batch: nat, ghost pairs: Pairs<K>)
    returns (out: Entries<K>)
    requires Lawful(c) && forall i | 0 <= i < |parts| :: GoodPart(c, parts[i])
    requires forall k: K, f: nat :: (k, f) in pairs <==> PartsHold(c, parts, k, f)
    ensures ArePostings(c, out, pairs)
  {
    if forall i | 0 <= i < |parts| :: parts[i].Memory? {
      var maps := seq(|parts|, i requires 0 <= i < |parts| => parts[i].slots);
      AllMemoryHold(c, parts, maps);
      assert forall i | 0 <= i < |parts| :: GoodPart(c, parts[i]);
      out := FromMemory(c, maps, pairs);
    } else {
      var segments: seq<Bytes> := [];
      for i := 0 to |parts|
        invariant GoodSegments(c, segments)
        invariant forall k: K, f: nat :: SegmentsHold(segments, c.write(k), f) <==> PartsHold(c, parts[..i], k, f)
      {
        var more := PartSegments(c, parts[i]);
        SegmentsJoin(segments, more);
        assert parts[..i + 1] == parts[..i] + [parts[i]];
        PartsSnoc(c, parts[..i], parts[i]);
        segments := segments + more;
      }
      assert parts[..|parts|] == parts;
      out := MergeSegments(c, segments, batch, pairs);
    }
  }

  /** The postings of a whole build, for any split into chunks and any budgets. */
  method BuildPostings<K(==, !new)>(c: KeyCodec<K>, chunks: seq<seq<FileKeys<K>>>, budgets: seq<nat>, batch: nat,
                                   ghost pairs: Pairs<K>) returns (out: Entries<K>)
    requires Lawful(c) && |budgets| == |chunks|
    requires forall n, i | 0 <= n < |chunks| && 0 <= i < |chunks[n]| :: chunks[n][i].file < U32
    requires forall k: K, f: nat :: (k, f) in pairs <==> exists n :: 0 <= n < |chunks| && ChunkHas(chunks[n], k, f)
    ensures ArePostings(c, out, pairs)
  {
    var parts: seq<Part<K>> := [];
    for n := 0 to |chunks|
      invariant |parts| == n && forall i | 0 <= i < n :: PartOf(c, parts[i], chunks[i])
    {
      var part := Worker(c, budgets[n], chunks[n]);
      assert PartOf(c, part, chunks[n]);
      parts := parts + [part];
    }
    forall k: K, f: nat ensures (k, f) in pairs <==> PartsHold(c, parts, k, f) {
      PartsOfChunks(c, parts, chunks, k, f);
    }
    out := EntriesOf(c, parts, batch, pairs);
  }

  /** A part holding exactly the pairs of a chunk. */
  ghost predicate PartOf<K(!new)>(c: KeyCodec<K>, part: Part<K>, chunk: seq<FileKeys<K>>) {
    GoodPart(c, part) && forall k: K, f: nat :: PartHolds(c, part, k, f) <==> ChunkHas(chunk, k, f)
  }

  lemma PartsOfChunks<K(!new)>(c: KeyCodec<K>, parts: seq<Part<K>>, chunks: seq<seq<FileKeys<K>>>, k: K, f: nat)
    requires |parts| == |chunks| && forall i | 0 <= i < |parts| :: PartOf(c, parts[i], chunks[i])
    ensures PartsHold(c, parts, k, f) <==> exists n :: 0 <= n < |chunks| && ChunkHas(chunks[n], k, f)
  {
    if n :| 0 <= n < |chunks| && ChunkHas(chunks[n], k, f) {
      assert PartOf(c, parts[n], chunks[n]);
    }
    if PartsHold(c, parts, k, f) {
      var i :| 0 <= i < |parts| && PartHolds(c, parts[i], k, f);
      assert PartOf(c, parts[i], chunks[i]);
    }
  }
}
