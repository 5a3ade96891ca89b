// Segment files cut short (crates/greeg-index/src/external.rs): what the reader
// makes of any prefix of a segment that was written, and so exactly which cuts the
// merge reports as an error.

module Cuts {
  import opened Bytes
  import opened Trigrams
  import opened Spill
  import opened Sink
  import P = Postings

  lemma TakeJoin(a: Bytes, b: Bytes, n: nat)
    requires n <= |a| + |b|
    ensures (a + b)[..n] == if n < |a| then a[..n] else a + b[..n - |a|]
  {
  }

  // ------------------------------------------------------------ one record

  /** A varint cut short reads as the end of the file. */
  lemma {:induction false} CutVarint(x: nat, n: nat, shift: nat, v: nat)
    requires n < |Varint(x)| && v + x * Pow2(shift) < U64
    ensures VarintAt(Varint(x)[..n], shift, v) == AtEnd
    decreases n
  {
    if n > 0 {
      var b: Byte := x % 128 + 128;
      Split128(x, Pow2(shift));
      RoomLeft(x, shift);
      Pow2Seven(shift);
      assert b % 128 == x % 128;
      TakeJoin([b], Varint(x / 128), n);
      VarintStep(b, Varint(x / 128)[..n - 1], shift, v);
      CutVarint(x / 128, n - 1, shift + 7, v + x % 128 * Pow2(shift));
    }
  }

  lemma {:induction false} CutIds(files: FileIds, prev: nat, first: bool, n: nat)
    requires files != [] && !first ==> prev <= files[0]
    requires forall i | 0 <= i < |files| :: files[i] < U32
    requires n < |Deltas(files, prev, first)|
    ensures ReadIds(Deltas(files, prev, first)[..n], |files|, prev, first) == BadIds
    decreases |files|
  {
    var d := if first then files[0] else files[0] - prev;
    var more := Deltas(files[1..], files[0], false);
    TakeJoin(Varint(d), more, n);
    if n < |Varint(d)| {
      CutVarint(d, n, 0, 0);
    } else {
      CutIds(files[1..], files[0], false, n - |Varint(d)|);
      IdsStep(d, more[..n - |Varint(d)|], |files|, prev, first, files[0]);
    }
  }

  /** A record cut short: inside the length of its key it reads as a clean end,
      anywhere else as damage. */
  lemma CutRecord(r: Record, n: nat)
    requires WellFormed(r) && n < |EncodeRecord(r)|
    ensures ReadRecord(EncodeRecord(r)[..n]) == if n < |Varint(|r.key|)| then NoRecord else Corrupt
  {
    var head, count, ids := Varint(|r.key|), Varint(|r.files|), Deltas(r.files, 0, true);
    assert EncodeRecord(r) == head + (r.key + (count + ids));
    TakeJoin(head, r.key + (count + ids), n);
    if n < |head| {
      CutVarint(|r.key|, n, 0, 0);
    } else {
      var t := (r.key + (count + ids))[..n - |head|];
      assert EncodeRecord(r)[..n] == head + t;
      VarintRoundTrip(|r.key|, t);
      if |t| >= |r.key| {
        CutCount(r, t, |t| - |r.key|);
      }
    }
  }

  lemma CutCount(r: Record, t: Bytes, m: nat)
    requires WellFormed(r) && m < |Varint(|r.files|) + Deltas(r.files, 0, true)|
    requires t == (r.key + (Varint(|r.files|) + Deltas(r.files, 0, true)))[..|r.key| + m]
    ensures match VarintAt(t[|r.key|..], 0, 0)
      case Value(k, u) => ReadIds(u, k, 0, true) == BadIds
      case _ => true
  {
    var count, ids := Varint(|r.files|), Deltas(r.files, 0, true);
    assert t[|r.key|..] == (count + ids)[..m];
    TakeJoin(count, ids, m);
    if m < |count| {
      CutVarint(|r.files|, m, 0, 0);
    } else {
      assert t[|r.key|..] == count + ids[..m - |count|];
      VarintRoundTrip(|r.files|, ids[..m - |count|]);
      CutIds(r.files, 0, true, m - |count|);
    }
  }

  // ------------------------------------------------------------ one segment

  ghost predicate AllWellFormed(rs: seq<Record>) {
    forall i | 0 <= i < |rs| :: WellFormed(rs[i])
  }

  /** How many records are whole in the first `n` bytes. */
  function WholeRecords(rs: seq<Record>, n: nat): (k: nat)
    ensures k <= |rs|
  {
    if rs == [] || n < |EncodeRecord(rs[0])| then 0 else 1 + WholeRecords(rs[1..], n - |EncodeRecord(rs[0])|)
  }

  /** How many bytes of the next record are left after those. */
  function Into(rs: seq<Record>, n: nat): nat {
    if rs == [] || n < |EncodeRecord(rs[0])| then n else Into(rs[1..], n - |EncodeRecord(rs[0])|)
  }

  lemma {:induction false} WholeMeans(rs: seq<Record>, n: nat)
    ensures var k := WholeRecords(rs, n);
      n == |EncodeRecords(rs[..k])| + Into(rs, n) && (k < |rs| ==> Into(rs, n) < |EncodeRecord(rs[k])|)
  {
    var k := WholeRecords(rs, n);
    if k > 0 {
      WholeMeans(rs[1..], n - |EncodeRecord(rs[0])|);
      assert rs[..k][1..] == rs[1..][..k - 1];
    }
  }

  /** The cut is inside a record and past the length of its key. */
  predicate Noticed(rs: seq<Record>, n: nat) {
    var k := WholeRecords(rs, n);
    k < |rs| && Into(rs, n) >= |Varint(|rs[k].key|)|
  }

  lemma CutFirst(r: Record, rest: Bytes, n: nat)
    requires WellFormed(r) && n < |EncodeRecord(r)|
    ensures RecordsOf((EncodeRecord(r) + rest)[..n]) == []
    ensures EndOf((EncodeRecord(r) + rest)[..n]) == if n >= |Varint(|r.key|)| then Damaged else Clean
  {
    TakeJoin(EncodeRecord(r), rest, n);
    CutRecord(r, n);
  }

  lemma CutLater(r: Record, rest: Bytes, n: nat)
    requires WellFormed(r) && |EncodeRecord(r)| <= n <= |EncodeRecord(r)| + |rest|
    ensures var later := rest[..n - |EncodeRecord(r)|];
      RecordsOf((EncodeRecord(r) + rest)[..n]) == [r] + RecordsOf(later)
      && EndOf((EncodeRecord(r) + rest)[..n]) == EndOf(later)
  {
    TakeJoin(EncodeRecord(r), rest, n);
    FirstRead(r, rest[..n - |EncodeRecord(r)|]);
  }

  /** A cut segment gives its whole records, and ends as damaged exactly when the cut
      is noticed: one at the end of a record, or inside the length of a key, passes
      for a shorter segment. */
  lemma {:induction false} CutSegment(rs: seq<Record>, n: nat)
    requires AllWellFormed(rs) && n <= |EncodeRecords(rs)|
    ensures RecordsOf(EncodeRecords(rs)[..n]) == rs[..WholeRecords(rs, n)]
    ensures EndOf(EncodeRecords(rs)[..n]) == if Noticed(rs, n) then Damaged else Clean
  {
    if rs == [] {
    } else if n < |EncodeRecord(rs[0])| {
      CutFirst(rs[0], EncodeRecords(rs[1..]), n);
    } else {
      var m := n - |EncodeRecord(rs[0])|;
      CutLater(rs[0], EncodeRecords(rs[1..]), n);
      CutSegment(rs[1..], m);
      OneMore(rs, n, m);
    }
  }

  lemma OneMore(rs: seq<Record>, n: nat, m: nat)
    requires rs != [] && n == |EncodeRecord(rs[0])| + m
    ensures WholeRecords(rs, n) == 1 + WholeRecords(rs[1..], m) && (Noticed(rs, n) <==> Noticed(rs[1..], m))
    ensures rs[..WholeRecords(rs, n)] == [rs[0]] + rs[1..][..WholeRecords(rs[1..], m)]
  {
  }

  lemma {:induction false} Grows(rs: seq<Record>, a: nat, b: nat)
    requires a <= b <= |rs|
    ensures |EncodeRecords(rs[..a])| <= |EncodeRecords(rs[..b])|
    ensures a < b ==> |EncodeRecords(rs[..a])| + |EncodeRecord(rs[a])| <= |EncodeRecords(rs[..b])|
    decreases b
  {
    if a < b {
      EncodeSnoc(rs[..b - 1], rs[b - 1]);
      assert rs[..b] == rs[..b - 1] + [rs[b - 1]];
      Grows(rs, a, b - 1);
    }
  }

  /** Where every key has a length of one byte, as trigrams and words below 128 bytes
      do, only a cut at the end of a record passes. */
  lemma ShortKeys(rs: seq<Record>, n: nat)
    requires forall i | 0 <= i < |rs| :: |rs[i].key| < 0x80
    requires n <= |EncodeRecords(rs)|
    ensures Noticed(rs, n) <==> forall k: nat | k <= |rs| :: n != |EncodeRecords(rs[..k])|
  {
    var w := WholeRecords(rs, n);
    WholeMeans(rs, n);
    forall k: nat | k <= |rs| ensures n == |EncodeRecords(rs[..k])| ==> !Noticed(rs, n) {
      if k < w {
        Grows(rs, k, w);
      } else if w < k {
        Grows(rs, w, k);
      }
    }
    assert rs[..|rs|] == rs;
  }

  // ------------------------------------------------------------ the merge of cut segments

  lemma CutGood(s: Bytes, n: nat)
    requires GoodSegment(s) && n <= |s|
    ensures Readable(s[..n])
    ensures RecordsOf(s[..n]) == RecordsOf(s)[..WholeRecords(RecordsOf(s), n)]
    ensures EndOf(s[..n]).Clean? <==> !Noticed(RecordsOf(s), n)
  {
    CutSegment(RecordsOf(s), n);
  }

  /** The first `ns[i]` bytes of every segment. */
  function CutAll(segments: seq<Bytes>, ns: seq<nat>): seq<Bytes>
    requires |ns| == |segments| && forall i | 0 <= i < |ns| :: ns[i] <= |segments[i]|
  {
    seq(|segments|, i requires 0 <= i < |segments| => segments[i][..ns[i]])
  }

  /** The pair is in a whole record of some cut segment. */
  ghost predicate WholeHold(segments: seq<Bytes>, ns: seq<nat>, key: Bytes, f: nat)
    requires |ns| == |segments|
  {
    exists i :: 0 <= i < |segments|
      && HasPair(RecordsOf(segments[i])[..WholeRecords(RecordsOf(segments[i]), ns[i])], key, f)
  }

  lemma CutsHold(segments: seq<Bytes>, ns: seq<nat>, key: Bytes, f: nat)
    requires |ns| == |segments| && forall i | 0 <= i < |ns| :: ns[i] <= |segments[i]| && GoodSegment(segments[i])
    ensures SegmentsHold(CutAll(segments, ns), key, f) <==> WholeHold(segments, ns, key, f)
    ensures SegmentsHold(CutAll(segments, ns), key, f) ==> SegmentsHold(segments, key, f)
  {
    var cuts := CutAll(segments, ns);
    forall i | 0 <= i < |segments|
      ensures RecordsOf(cuts[i]) == RecordsOf(segments[i])[..WholeRecords(RecordsOf(segments[i]), ns[i])]
    {
      CutGood(segments[i], ns[i]);
    }
    if i :| 0 <= i < |cuts| && HasPair(RecordsOf(cuts[i]), key, f) {
      var j :| 0 <= j < |RecordsOf(cuts[i])| && RecordsOf(cuts[i])[j].key == key && f in RecordsOf(cuts[i])[j].files;
      assert RecordsOf(segments[i])[j].key == key;
    }
  }

  /** So `stream_batches` of segments cut short is an error exactly when some cut is
      noticed, and otherwise merges the records that are whole. */
  lemma CutsMerge<K(!new)>(c: KeyCodec<K>, segments: seq<Bytes>, ns: seq<nat>)
    requires P.GoodSegments(c, segments)
    requires |ns| == |segments| && forall i | 0 <= i < |ns| :: ns[i] <= |segments[i]|
    ensures P.ReadableSegments(c, CutAll(segments, ns))
    ensures P.Undamaged(CutAll(segments, ns)) <==> forall i | 0 <= i < |ns| :: !Noticed(RecordsOf(segments[i]), ns[i])
    ensures forall key: Bytes, f: nat :: SegmentsHold(CutAll(segments, ns), key, f) <==> WholeHold(segments, ns, key, f)
  {
    var cuts := CutAll(segments, ns);
    forall i | 0 <= i < |segments|
      ensures Readable(cuts[i]) && (EndOf(cuts[i]).Clean? <==> !Noticed(RecordsOf(segments[i]), ns[i]))
    {
      CutGood(segments[i], ns[i]);
    }
    forall key: Bytes, f: nat
      ensures SegmentsHold(cuts, key, f) <==> WholeHold(segments, ns, key, f)
      ensures SegmentsHold(cuts, key, f) ==> SegmentsHold(segments, key, f)
    {
      CutsHold(segments, ns, key, f);
    }
  }
}
