// One worker's posting accumulator (crates/greeg-index/src/external.rs): a map
// held up to a byte budget, spilled to sorted segments when the budget is
// reached. Whatever is pushed is kept, in the map or in a segment, until the
// worker hands it over.

module Sink {
  import opened Bytes
  import opened Trigrams
  import opened Spill

  /** A posting key: how it is written, read back, ordered and charged for. */
  datatype KeyCodec<!K> = KeyCodec(write: K -> Bytes, read: Bytes -> K, lt: (K, K) -> bool, heapBytes: K -> nat)

  ghost predicate Lawful<K(!new)>(c: KeyCodec<K>) {
    && (forall k: K :: c.read(c.write(k)) == k && |c.write(k)| < U64)
    && (forall a: K, b: K :: c.lt(a, b) <==> Less(c.write(a), c.write(b)))
  }

  // ------------------------------------------------------------ the two key types

  function BigEndian(k: u32): Bytes {
    [k / 0x100_0000, k / 0x1_0000 % 0x100, k / 0x100 % 0x100, k % 0x100]
  }

  function FromBigEndian(b: Bytes): u32 {
    if |b| == 4 then
      var d0: int, d1: int, d2: int, d3: int := b[0], b[1], b[2], b[3];
      d0 * 0x100_0000 + d1 * 0x1_0000 + d2 * 0x100 + d3
    else 0
  }

  lemma {:induction false} LessOfFour(x: Bytes, y: Bytes)
    requires |x| == |y| == 4
    ensures Less(x, y) <==>
      x[0] < y[0] || (x[0] == y[0] && (x[1] < y[1] || (x[1] == y[1] && (x[2] < y[2] || (x[2] == y[2] && x[3] < y[3])))))
  {
    assert x[1..][1..] == x[2..] && x[2..][1..] == x[3..] && x[3..][1..] == [];
    assert y[1..][1..] == y[2..] && y[2..][1..] == y[3..] && y[3..][1..] == [];
    assert Less(x[3..], y[3..]) <==> x[3] < y[3];
    assert Less(x[2..], y[2..]) <==> x[2] < y[2] || (x[2] == y[2] && Less(x[3..], y[3..]));
    assert Less(x[1..], y[1..]) <==> x[1] < y[1] || (x[1] == y[1] && Less(x[2..], y[2..]));
  }

  lemma Digits(v: u32)
    ensures v == v / 0x100_0000 * 0x100_0000 + v / 0x1_0000 % 0x100 * 0x1_0000 + v / 0x100 % 0x100 * 0x100 + v % 0x100
  {
    assert v / 0x100 / 0x100 == v / 0x1_0000 && v / 0x1_0000 / 0x100 == v / 0x100_0000;
  }

  /** Byte order of the stored key is the order of the numbers. */
  lemma BigEndianOrder(a: u32, b: u32)
    ensures a < b <==> Less(BigEndian(a), BigEndian(b))
    ensures FromBigEndian(BigEndian(a)) == a
  {
    Digits(a);
    Digits(b);
    LessOfFour(BigEndian(a), BigEndian(b));
  }

  /** Trigram keys: four bytes, most significant first. */
  const GRAM_KEYS: KeyCodec<u32> :=
    KeyCodec((k: u32) => BigEndian(k), (b: Bytes) => FromBigEndian(b), (a: u32, b: u32) => a < b, (k: u32) => 36)

  type Word = w: Bytes | |w| < U64

  function WordBytes(w: Word): Bytes {
    w
  }

  function WordOf(b: Bytes): Word {
    if |b| < U64 then b else []
  }

  predicate WordBefore(a: Word, b: Word) {
    Less(a, b)
  }

  function WordCost(w: Word): nat {
    |w| + 56
  }

  /** Word keys: their own bytes. */
  const WORD_KEYS: KeyCodec<Word> := KeyCodec<Word>.KeyCodec(WordBytes, WordOf, WordBefore, WordCost)

  lemma KeysLawful()
    ensures Lawful(GRAM_KEYS) && Lawful(WORD_KEYS)
  {
    forall a: u32, b: u32
      ensures GRAM_KEYS.lt(a, b) <==> Less(GRAM_KEYS.write(a), GRAM_KEYS.write(b))
    {
      BigEndianOrder(a, b);
    }
    forall k: u32 ensures GRAM_KEYS.read(GRAM_KEYS.write(k)) == k {
      BigEndianOrder(k, k);
    }
  }

  // ------------------------------------------------------------ sorted keys

  ghost predicate KeysAscending<K(!new)>(c: KeyCodec<K>, ks: seq<K>) {
    forall i, j | 0 <= i < j < |ks| :: c.lt(ks[i], ks[j])
  }

  function InsertInOrder<K(!new)>(c: KeyCodec<K>, ks: seq<K>, k: K): (r: seq<K>)
    requires Lawful(c) && KeysAscending(c, ks) && k !in ks
    ensures KeysAscending(c, r)
    ensures forall x :: x in r <==> x == k || x in ks
  {
    if ks == [] then [k]
    else if c.lt(k, ks[0]) then
      forall j | 0 <= j < |ks| ensures c.lt(k, ks[j]) {
        if 0 < j {
          LessTransitive(c.write(k), c.write(ks[0]), c.write(ks[j]));
        }
      }
      [k] + ks
    else
      var rest := InsertInOrder(c, ks[1..], k);
      assert ks == [ks[0]] + ks[1..];
      assert c.lt(ks[0], k) by {
        LessTotal(c.write(k), c.write(ks[0]));
        assert c.read(c.write(k)) == k && c.read(c.write(ks[0])) == ks[0];
      }
      assert forall x | x in ks[1..] :: c.lt(ks[0], x);
      [ks[0]] + rest
  }

  /** `keys().collect()` and `sort_unstable`. */
  method SortedKeys<K(==, !new)>(c: KeyCodec<K>, keys: set<K>) returns (ks: seq<K>)
    requires Lawful(c)
    ensures KeysAscending(c, ks)
    ensures forall x :: x in ks <==> x in keys
  {
    ks := [];
    var left := keys;
    while left != {}
      invariant left <= keys && KeysAscending(c, ks)
      invariant forall x :: x in ks <==> x in keys && x !in left
      decreases left
    {
      var k :| k in left;
      ks := InsertInOrder(c, ks, k);
      left := left - {k};
    }
  }

  // ------------------------------------------------------------ segments

  ghost predicate HasPair(rs: seq<Record>, key: Bytes, file: nat) {
    exists i :: 0 <= i < |rs| && rs[i].key == key && file in rs[i].files
  }

  ghost predicate RecordsAscending(rs: seq<Record>) {
    forall i, j | 0 <= i < j < |rs| :: Less(rs[i].key, rs[j].key)
  }

  /** Records a spill writes: well formed, keys ascending, no list empty. */
  ghost predicate GoodRecords(rs: seq<Record>) {
    && (forall i | 0 <= i < |rs| :: WellFormed(rs[i]) && rs[i].files != [])
    && RecordsAscending(rs)
  }

  /** A segment file is just its records. */
  ghost predicate GoodSegment(s: Bytes) {
    GoodRecords(RecordsOf(s)) && s == EncodeRecords(RecordsOf(s))
  }

  /** A segment file whose records are in order as far as they can be read. */
  ghost predicate Readable(s: Bytes) {
    GoodRecords(RecordsOf(s)) && EndOf(s) != OutOfOrder
  }

  lemma {:induction false} GoodIsReadable(s: Bytes)
    requires GoodSegment(s)
    ensures Readable(s) && EndOf(s) == Clean
  {
    SegmentRoundTrip(RecordsOf(s));
  }

  ghost predicate SegmentsHold(segments: seq<Bytes>, key: Bytes, file: nat) {
    exists i :: 0 <= i < |segments| && HasPair(RecordsOf(segments[i]), key, file)
  }

  lemma {:induction false} EncodeSnoc(rs: seq<Record>, r: Record)
    ensures EncodeRecords(rs + [r]) == EncodeRecords(rs) + EncodeRecord(r)
    decreases |rs|
  {
    if rs == [] {
      assert [r][1..] == [];
      assert EncodeRecords([r]) == EncodeRecord(r) + EncodeRecords([]);
    } else {
      assert (rs + [r])[1..] == rs[1..] + [r];
      EncodeSnoc(rs[1..], r);
      Regroup(EncodeRecord(rs[0]), EncodeRecords(rs[1..]), EncodeRecord(r));
    }
  }

  lemma {:induction false} FewIds(files: FileIds, n: nat)
    requires forall i | 0 <= i < |files| :: files[i] < n
    ensures |files| <= n
  {
    if files != [] {
      FewIds(files[..|files| - 1], files[|files| - 1]);
    }
  }

  /** One record, ids as differences. */
  method WriteRecord(key: Bytes, files: FileIds) returns (rec: Bytes)
    ensures rec == EncodeRecord(Record(key, files))
  {
    rec := PutVarint([], |key|);
    rec := rec + key;
    rec := PutVarint(rec, |files|);
    ghost var head := rec;
    var prev: nat := 0;
    assert files[0..] == files;
    assert [] + Varint(|key|) == Varint(|key|);
    for i := 0 to |files|
      invariant 0 < i ==> prev == files[i - 1]
      invariant rec + Deltas(files[i..], prev, i == 0) == head + Deltas(files, 0, true)
    {
      assert files[i..][0] == files[i] && files[i..][1..] == files[i + 1..];
      var d := if i == 0 then files[i] else files[i] - prev;
      Regroup(rec, Varint(d), Deltas(files[i + 1..], files[i], false));
      rec := PutVarint(rec, d);
      prev := files[i];
    }
    assert rec + [] == rec;
  }

  // ------------------------------------------------------------ spilling


  /** A list of file ids and the capacity of its vector. */
  datatype Slot = Slot(files: seq<nat>, capacity: nat)

  datatype Part<K(!new)> = Memory(slots: map<K, Slot>) | Segments(files: seq<Bytes>)

  ghost predicate SlotsHold<K(!new)>(slots: map<K, Slot>, k: K, f: nat) {
    k in slots && f in slots[k].files
  }

  ghost predicate GoodSlots<K(!new)>(slots: map<K, Slot>) {
    forall k | k in slots :: slots[k].files != [] && forall i | 0 <= i < |slots[k].files| :: slots[k].files[i] < U32
  }

  /** `r` is the record a spill writes for the slot of `k`. */
  ghost predicate RecordOfSlot<K(!new)>(c: KeyCodec<K>, slots: map<K, Slot>, k: K, r: Record) {
    k in slots && r.key == c.write(k) && forall f :: f in r.files <==> f in slots[k].files
  }

  lemma SlotsToRecords<K(!new)>(c: KeyCodec<K>, slots: map<K, Slot>, ks: seq<K>, rs: seq<Record>)
    requires Lawful(c) && GoodSlots(slots) && KeysAscending(c, ks) && |rs| == |ks|
    requires forall k :: k in ks <==> k in slots
    requires forall j | 0 <= j < |ks| :: RecordOfSlot(c, slots, ks[j], rs[j])
    ensures GoodRecords(rs)
    ensures forall k, f :: HasPair(rs, c.write(k), f) <==> SlotsHold(slots, k, f)
    ensures forall key, f | HasPair(rs, key, f) :: c.write(c.read(key)) == key
  {
    forall i | 0 <= i < |rs| ensures WellFormed(rs[i]) && rs[i].files != [] {
      assert RecordOfSlot(c, slots, ks[i], rs[i]);
      var files := slots[ks[i]].files;
      assert files[0] in rs[i].files;
      forall j | 0 <= j < |rs[i].files| ensures rs[i].files[j] < U32 {
        assert rs[i].files[j] in files;
      }
      FewIds(rs[i].files, U32);
    }
    forall k, f ensures HasPair(rs, c.write(k), f) <==> SlotsHold(slots, k, f) {
      if HasPair(rs, c.write(k), f) {
        var i :| 0 <= i < |rs| && rs[i].key == c.write(k) && f in rs[i].files;
        assert RecordOfSlot(c, slots, ks[i], rs[i]);
        assert c.read(c.write(ks[i])) == ks[i] && c.read(c.write(k)) == k;
      }
      if SlotsHold(slots, k, f) {
        assert k in ks;
        var i :| 0 <= i < |ks| && ks[i] == k;
        assert RecordOfSlot(c, slots, ks[i], rs[i]);
      }
    }
  }

  lemma {:induction false} SegmentsSnoc(segments: seq<Bytes>, s: Bytes)
    ensures forall key, f ::
      SegmentsHold(segments + [s], key, f) <==> SegmentsHold(segments, key, f) || HasPair(RecordsOf(s), key, f)
  {
    var all := segments + [s];
    forall key, f
      ensures SegmentsHold(all, key, f) <==> SegmentsHold(segments, key, f) || HasPair(RecordsOf(s), key, f)
    {
      if SegmentsHold(segments, key, f) {
        var i :| 0 <= i < |segments| && HasPair(RecordsOf(segments[i]), key, f);
        assert all[i] == segments[i];
      }
      if HasPair(RecordsOf(s), key, f) {
        assert all[|segments|] == s;
      }
      if SegmentsHold(all, key, f) {
        var i :| 0 <= i < |all| && HasPair(RecordsOf(all[i]), key, f);
        assert i < |segments| ==> all[i] == segments[i];
      }
    }
  }

  /** The contents of the segment a spill writes. */
  method Serialize<K(==, !new)>(c: KeyCodec<K>, slots: map<K, Slot>) returns (contents: Bytes)
    requires Lawful(c) && GoodSlots(slots)
    ensures GoodSegment(contents)
    ensures forall k: K, f: nat :: HasPair(RecordsOf(contents), c.write(k), f) <==> SlotsHold(slots, k, f)
    ensures forall key: Bytes, f: nat | HasPair(RecordsOf(contents), key, f) :: c.write(c.read(key)) == key
  {
    var ks := SortedKeys(c, slots.Keys);
    contents := [];
    ghost var rs: seq<Record> := [];
    for i := 0 to |ks|
      invariant |rs| == i && contents == EncodeRecords(rs)
      invariant forall j | 0 <= j < i :: RecordOfSlot(c, slots, ks[j], rs[j])
    {
      assert ks[i] in slots.Keys;
      var ids := SortDedup(slots[ks[i]].files);
      var rec := WriteRecord(c.write(ks[i]), ids);
      ghost var r := Record(c.write(ks[i]), ids);
      EncodeSnoc(rs, r);
      contents := contents + rec;
      rs := rs + [r];
    }
    SlotsToRecords(c, slots, ks, rs);
    SegmentRoundTrip(rs);
  }

  // ------------------------------------------------------------ the sink

  class Sink<K(==, !new)> {
    const codec: KeyCodec<K>
    const budget: nat
    var slots: map<K, Slot>
    var bytes: nat
    var segments: seq<Bytes>
    /** Every (key, file) pushed so far. */
    ghost var pushed: iset<(K, nat)>

    ghost predicate Valid()
      reads this
    {
      && Lawful(codec) && GoodSlots(slots)
      && (forall i | 0 <= i < |segments| :: GoodSegment(segments[i]))
      && (forall k: K, f: nat :: (k, f) in pushed <==> SlotsHold(slots, k, f) || SegmentsHold(segments, codec.write(k), f))
      && (forall key: Bytes, f: nat | SegmentsHold(segments, key, f) :: codec.write(codec.read(key)) == key)
    }

    constructor (codec: KeyCodec<K>, budget: nat)
      requires Lawful(codec)
      ensures Valid() && this.codec == codec && pushed == iset{} && segments == []
    {
      this.codec, this.budget := codec, budget;
      slots, bytes, segments, pushed := map[], 0, [], iset{};
    }

    /** Record that `file` holds `key`; the id last pushed for a key is not
        pushed again. */
    method Push(key: K, file: nat)
      requires Valid() && file < U32
      modifies this
      ensures Valid() && segments == old(segments)
      ensures pushed == old(pushed) + iset{(key, file)}
    {
      if key in slots {
        var slot := slots[key];
        if slot.files[|slot.files| - 1] != file {
          var capacity := slot.capacity;
          if |slot.files| == slot.capacity {
            bytes := bytes + 4 * (if slot.capacity > 1 then slot.capacity else 1);
            capacity := if 2 * slot.capacity > 4 then 2 * slot.capacity else 4;
          }
          slots := slots[key := Slot(slot.files + [file], capacity)];
        }
      } else {
        bytes := bytes + codec.heapBytes(key) + 16;
        slots := slots[key := Slot([file], 4)];
      }
      pushed := pushed + iset{(key, file)};
    }

    /** Only ever called between files. */
    method SpillIfFull()
      requires Valid()
      modifies this
      ensures Valid() && pushed == old(pushed)
    {
      if bytes >= budget {
        WriteOut();
      }
    }

    /** `spill`: the map's records, sorted by key, become a segment. */
    method WriteOut()
      requires Valid()
      modifies this
      ensures Valid() && pushed == old(pushed)
      ensures slots == map[]
      ensures |segments| >= |old(segments)|
      ensures old(slots) != map[] ==> |segments| == |old(segments)| + 1
    {
      if slots == map[] {
        return;
      }
      var contents := Serialize(codec, slots);
      SegmentsSnoc(segments, contents);
      segments := segments + [contents];
      slots := map[];
      bytes := 0;
    }

    /** The map of a worker that never spilled; otherwise all its segments. */
    method Finish() returns (part: Part<K>)
      requires Valid()
      modifies this
      ensures Valid() && pushed == old(pushed)
      ensures part.Memory? ==> part.slots == slots && segments == []
      ensures part.Segments? ==> part.files == segments && slots == map[]
    {
      if segments == [] {
        return Memory(slots);
      }
      WriteOut();
      part := Segments(segments);
    }
  }
}
