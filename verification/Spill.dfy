// The spill format of the bounded-memory build (crates/greeg-index/src/
// external.rs): variable-length integers (unsigned LEB128, section 7.6 of
// DWARF 5), records of a key and its file ids, and the buffered reader that
// takes them back from a file that may answer reads short.

module Spill {
  import opened Bytes
  import opened Trigrams

  function Pow2(n: nat): (p: nat)
    ensures p >= 1
  {
    if n == 0 then 1 else 2 * Pow2(n - 1)
  }

  lemma {:induction false} Pow2Monotone(a: nat, b: nat)
    requires a <= b
    ensures Pow2(a) <= Pow2(b)
    decreases b
  {
    if a < b {
      Pow2Monotone(a, b - 1);
    }
  }

  lemma Pow2Seven(n: nat)
    ensures Pow2(n + 7) == 128 * Pow2(n)
  {
    assert Pow2(n + 1) == 2 * Pow2(n);
    assert Pow2(n + 2) == 2 * Pow2(n + 1) && Pow2(n + 3) == 2 * Pow2(n + 2);
    assert Pow2(n + 4) == 2 * Pow2(n + 3) && Pow2(n + 5) == 2 * Pow2(n + 4);
    assert Pow2(n + 6) == 2 * Pow2(n + 5) && Pow2(n + 7) == 2 * Pow2(n + 6);
  }

  // ------------------------------------------------------------ varints

  /** `put_varint`: seven bits a byte, low bits first, the top bit set on all
      but the last. */
  function Varint(v: nat): (r: Bytes)
    ensures r != []
  {
    if v >= 0x80 then [v % 0x80 + 0x80] + Varint(v / 0x80) else [v]
  }

  method PutVarint(out: Bytes, value: nat) returns (r: Bytes)
    ensures r == out + Varint(value)
  {
    r := out;
    var v := value;
    while v >= 0x80
      invariant r + Varint(v) == out + Varint(value)
    {
      ghost var before := r;
      r := r + [v % 0x80 + 0x80];
      assert before + ([v % 0x80 + 0x80] + Varint(v / 0x80)) == r + Varint(v / 0x80);
      v := v / 0x80;
    }
    r := r + [v];
  }

  datatype VarintRead = AtEnd | TooLong | Value(v: nat, tail: Bytes)

  /** Seven more bits taken into a 64-bit value. */
  function Gathered(v: nat, b: Byte, shift: nat): nat {
    (v + b % 0x80 * Pow2(shift)) % U64
  }

  /** A varint read from `s` with `v` already taken from the bits below `shift`;
      bits shifted past the 64th are lost. A stream that ends inside one reads
      as ended. */
  function VarintAt(s: Bytes, shift: nat, v: nat): VarintRead {
    if s == [] then AtEnd
    else
      var w := Gathered(v, s[0], shift);
      if s[0] < 0x80 then Value(w, s[1..])
      else if shift + 7 >= 64 then TooLong
      else VarintAt(s[1..], shift + 7, w)
  }

  lemma Split128(x: nat, p: nat)
    ensures x % 128 * p + x / 128 * (128 * p) == x * p
    ensures x % 128 * p >= 0 && x / 128 * (128 * p) >= 0
  {
    assert x == x % 128 + x / 128 * 128;
  }

  /** A value with more bits to come leaves room for another seven. */
  lemma {:induction false} RoomLeft(x: nat, shift: nat)
    requires x >= 128 && x * Pow2(shift) < U64
    ensures shift + 7 < 64
  {
    var p := Pow2(shift);
    assert x * p == 128 * p + (x - 128) * p && (x - 128) * p >= 0;
    Pow2Seven(shift);
    if shift + 7 >= 64 {
      Pow2Monotone(64, shift + 7);
      SixtyFour(0);
    }
  }

  lemma SixtyFour(k: nat)
    requires k == 0
    ensures Pow2(k + 64) == U64
  {
    Pow2Seven(k);
    Pow2Seven(k + 7);
    Pow2Seven(k + 14);
    Pow2Seven(k + 21);
    Pow2Seven(k + 28);
    Pow2Seven(k + 35);
    Pow2Seven(k + 42);
    Pow2Seven(k + 49);
    Pow2Seven(k + 56);
    assert Pow2(k + 64) == 2 * Pow2(k + 63);
  }

  lemma {:induction false} VarintStep(b: Byte, rest: Bytes, shift: nat, v: nat)
    requires v + b % 0x80 * Pow2(shift) < U64
    ensures b < 0x80 ==> VarintAt([b] + rest, shift, v) == Value(v + b * Pow2(shift), rest)
    ensures b >= 0x80 && shift + 7 < 64 ==>
      VarintAt([b] + rest, shift, v) == VarintAt(rest, shift + 7, v + b % 0x80 * Pow2(shift))
  {
    assert ([b] + rest)[1..] == rest;
    NothingLost(b, shift, v);
  }

  lemma {:induction false} NothingLost(b: Byte, shift: nat, v: nat)
    requires v + b % 0x80 * Pow2(shift) < U64
    ensures Gathered(v, b, shift) == v + b % 0x80 * Pow2(shift)
    ensures b < 0x80 ==> Gathered(v, b, shift) == v + b * Pow2(shift)
  {
    ModSmall(v + b % 0x80 * Pow2(shift), U64);
  }

  lemma {:induction false} VarintFrom(x: nat, tail: Bytes, shift: nat, v: nat)
    requires v + x * Pow2(shift) < U64
    ensures VarintAt(Varint(x) + tail, shift, v) == Value(v + x * Pow2(shift), tail)
  {
    Split128(x, Pow2(shift));
    if x < 0x80 {
      assert x % 128 == x;
      VarintStep(x, tail, shift, v);
    } else {
      RoomLeft(x, shift);
      Pow2Seven(shift);
      var b: Byte := x % 128 + 128;
      assert b % 128 == x % 128;
      VarintStep(b, Varint(x / 128) + tail, shift, v);
      assert Varint(x) + tail == [b] + (Varint(x / 128) + tail);
      VarintFrom(x / 128, tail, shift + 7, v + x % 128 * Pow2(shift));
    }
  }

  /** Every u64 reads back as it was written, whatever follows it. */
  lemma {:induction false} VarintRoundTrip(x: nat, tail: Bytes)
    requires x < U64
    ensures VarintAt(Varint(x) + tail, 0, 0) == Value(x, tail)
  {
    VarintFrom(x, tail, 0, 0);
  }

  // ------------------------------------------------------------ records

  /** File ids, ascending and each once. */
  type FileIds = s: seq<nat> | StrictlyAscending(s) witness []

  /** A key and the ids of the files that hold it. */
  datatype Record = Record(key: Bytes, files: FileIds)

  function Deltas(files: FileIds, prev: nat, first: bool): Bytes
    requires files != [] && !first ==> prev <= files[0]
    decreases |files|
  {
    if files == [] then []
    else Varint(if first then files[0] else files[0] - prev) + Deltas(files[1..], files[0], false)
  }

  ghost predicate WellFormed(r: Record) {
    && |r.key| < U64 && |r.files| < U64
    && forall i | 0 <= i < |r.files| :: r.files[i] < U32
  }

  function EncodeRecord(r: Record): (b: Bytes)
    ensures b != []
  {
    Varint(|r.key|) + r.key + Varint(|r.files|) + Deltas(r.files, 0, true)
  }

  function EncodeRecords(rs: seq<Record>): Bytes {
    if rs == [] then [] else EncodeRecord(rs[0]) + EncodeRecords(rs[1..])
  }

  datatype RecordRead = NoRecord | Corrupt | Next(key: Bytes, files: seq<nat>, tail: Bytes)
  datatype IdsRead = BadIds | Ids(files: seq<nat>, tail: Bytes)

  /** `n` ids as they are stored: the first as it is, the others as the
      difference to the one before. */
  function ReadIds(s: Bytes, n: nat, prev: nat, first: bool): IdsRead
    decreases n
  {
    if n == 0 then Ids([], s)
    else
      match VarintAt(s, 0, 0)
      case AtEnd => BadIds
      case TooLong => BadIds
      case Value(v, tail) =>
        var id := if first then v % U32 else (prev + v % U32) % U32;
        match ReadIds(tail, n - 1, id, false)
        case BadIds => BadIds
        case Ids(files, rest) => Ids([id] + files, rest)
  }

  function ReadRecord(s: Bytes): RecordRead {
    match VarintAt(s, 0, 0)
    case AtEnd => NoRecord
    case TooLong => Corrupt
    case Value(klen, t) =>
      if |t| < klen then Corrupt
      else
        match VarintAt(t[klen..], 0, 0)
        case AtEnd => Corrupt
        case TooLong => Corrupt
        case Value(n, u) =>
          match ReadIds(u, n, 0, true)
          case BadIds => Corrupt
          case Ids(files, tail) => Next(t[..klen], files, tail)
  }

  lemma {:induction false} IdsStep(d: nat, rest: Bytes, n: nat, prev: nat, first: bool, id: nat)
    requires n > 0 && d < U32 && id < U32 && id == if first then d else prev + d
    ensures ReadIds(Varint(d) + rest, n, prev, first) ==
      match ReadIds(rest, n - 1, id, false)
      case BadIds => BadIds
      case Ids(files, tail) => Ids([id] + files, tail)
  {
    VarintRoundTrip(d, rest);
    ModSmall(d, U32);
    ModSmall(id, U32);
  }

  lemma ModSmall(x: nat, m: nat)
    requires x < m
    ensures x % m == x
  {
  }

  lemma {:induction false} IdsRoundTrip(files: FileIds, prev: nat, first: bool, tail: Bytes)
    requires files != [] && !first ==> prev <= files[0]
    requires forall i | 0 <= i < |files| :: files[i] < U32
    ensures ReadIds(Deltas(files, prev, first) + tail, |files|, prev, first) == Ids(files, tail)
    decreases |files|
  {
    if files == [] {
      assert [] + tail == tail;
    } else {
      var d := if first then files[0] else files[0] - prev;
      var more := Deltas(files[1..], files[0], false);
      IdsRoundTrip(files[1..], files[0], false, tail);
      IdsStep(d, more + tail, |files|, prev, first, files[0]);
      Regroup(Varint(d), more, tail);
      assert files == [files[0]] + files[1..];
    }
  }

  /** A record written is the record read, and reading stops where it ended. */
  lemma RecordRoundTrip(r: Record, tail: Bytes)
    requires WellFormed(r)
    ensures ReadRecord(EncodeRecord(r) + tail) == Next(r.key, r.files, tail)
  {
    var ids := Deltas(r.files, 0, true) + tail;
    var count := Varint(|r.files|) + ids;
    assert EncodeRecord(r) + tail == Varint(|r.key|) + (r.key + count);
    VarintRoundTrip(|r.key|, r.key + count);
    assert (r.key + count)[|r.key|..] == count && (r.key + count)[..|r.key|] == r.key;
    VarintRoundTrip(|r.files|, ids);
    IdsRoundTrip(r.files, 0, true, tail);
  }

  lemma Cut(a: Bytes, b: Bytes)
    ensures (a + b)[..|a|] == a && (a + b)[|a|..] == b
  {
  }

  // ------------------------------------------------------------ segments

  lemma {:induction false} IdsShorter(s: Bytes, n: nat, prev: nat, first: bool)
    ensures ReadIds(s, n, prev, first).Ids? ==> |ReadIds(s, n, prev, first).tail| <= |s|
    decreases n
  {
    if n > 0 {
      VarintShorter(s, 0, 0);
      var read := VarintAt(s, 0, 0);
      if read.Value? {
        var id := if first then read.v % U32 else (prev + read.v % U32) % U32;
        IdsShorter(read.tail, n - 1, id, false);
      }
    }
  }

  lemma {:induction false} VarintShorter(s: Bytes, shift: nat, v: nat)
    ensures VarintAt(s, shift, v).Value? ==> |VarintAt(s, shift, v).tail| < |s|
  {
    if s != [] && s[0] >= 0x80 && shift + 7 < 64 {
      VarintShorter(s[1..], shift + 7, (v + s[0] % 0x80 * Pow2(shift)) % U64);
    }
  }

  lemma RecordShorter(s: Bytes)
    ensures ReadRecord(s).Next? ==> |ReadRecord(s).tail| < |s|
  {
    VarintShorter(s, 0, 0);
    var read := VarintAt(s, 0, 0);
    if read.Value? && |read.tail| >= read.v {
      var more := read.tail[read.v..];
      VarintShorter(more, 0, 0);
      if VarintAt(more, 0, 0).Value? {
        IdsShorter(VarintAt(more, 0, 0).tail, VarintAt(more, 0, 0).v, 0, true);
      }
    }
  }

  /** The records of a segment file, up to its end or its first damage. */
  function RecordsOf(s: Bytes): seq<Record>
    decreases |s|
  {
    match ReadRecord(s)
    case NoRecord => []
    case Corrupt => []
    case Next(key, files, tail) =>
      RecordShorter(s);
      if StrictlyAscending(files) then [Record(key, files)] + RecordsOf(tail) else []
  }

  /** How the reading of a segment file ends. */
  datatype Ending = Clean | Damaged | OutOfOrder

  function EndOf(s: Bytes): Ending
    decreases |s|
  {
    match ReadRecord(s)
    case NoRecord => Clean
    case Corrupt => Damaged
    case Next(key, files, tail) =>
      RecordShorter(s);
      if StrictlyAscending(files) then EndOf(tail) else OutOfOrder
  }

  lemma {:induction false} FirstRead(r: Record, rest: Bytes)
    requires WellFormed(r)
    ensures RecordsOf(EncodeRecord(r) + rest) == [r] + RecordsOf(rest)
    ensures EndOf(EncodeRecord(r) + rest) == EndOf(rest)
  {
    RecordRoundTrip(r, rest);
  }

  /** A segment reads back as the records it was written from. */
  lemma {:induction false} SegmentRoundTrip(rs: seq<Record>)
    requires forall i | 0 <= i < |rs| :: WellFormed(rs[i])
    ensures RecordsOf(EncodeRecords(rs)) == rs && EndOf(EncodeRecords(rs)) == Clean
  {
    if rs != [] {
      FirstRead(rs[0], EncodeRecords(rs[1..]));
      SegmentRoundTrip(rs[1..]);
      assert rs == [rs[0]] + rs[1..];
    }
  }

  // ------------------------------------------------------------ the reader

  datatype Got = End | Bad | Got(v: nat)
  datatype Step = Finished | Failed | Advanced

  lemma TakePart(buf: Bytes, pos: nat, take: nat, len: nat, file: Bytes)
    requires pos + take <= len <= |buf|
    ensures buf[pos..len] + file == buf[pos..pos + take] + (buf[pos + take..len] + file)
  {
    assert buf[pos..len] == buf[pos..pos + take] + buf[pos + take..len];
  }

  class Reader {
    /** What the file still holds. */
    var file: Bytes
    var buf: Bytes
    var pos: nat
    var len: nat
    var eof: bool
    var key: Bytes
    var files: seq<nat>

    ghost predicate Valid()
      reads this
    {
      pos <= len <= |buf| && |buf| > 0 && (eof ==> file == [])
    }

    /** The unread bytes: those in the buffer, then the rest of the file. */
    ghost function Stream(): Bytes
      reads this
      requires Valid()
    {
      buf[pos..len] + file
    }

    constructor (contents: Bytes, capacity: nat)
      requires capacity > 0
      ensures Valid() && Stream() == contents
    {
      file, buf := contents, seq(capacity, _ => 0);
      pos, len, eof := 0, 0, false;
      key, files := [], [];
    }

    /** A read of at most `max` bytes: any non-empty part of what is left, and
        nothing only at the end. */
    method ReadSome(max: nat) returns (chunk: Bytes)
      requires max > 0
      modifies this`file
      ensures chunk + file == old(file) && |chunk| <= max
      ensures chunk == [] <==> old(file) == []
    {
      var most := Min(max, |file|);
      var n: nat :| n <= most && (n == 0 <==> most == 0);
      chunk, file := file[..n], file[n..];
    }

    /** `fill`: move the unread bytes to the front, grow a full buffer, read. */
    method Fill()
      requires Valid()
      modifies this
      ensures Valid() && Stream() == old(Stream())
      ensures key == old(key) && files == old(files)
      ensures len - pos > old(len - pos) || (eof && len - pos == old(len - pos))
    {
      ghost var unread := buf[pos..len];
      if pos > 0 {
        buf := buf[pos..len] + buf[len - pos..];
        len := len - pos;
        pos := 0;
      }
      assert buf[pos..len] == unread;
      if len == |buf| {
        buf := buf + seq(|buf|, _ => 0);
      }
      var chunk := ReadSome(|buf| - len);
      if |chunk| == 0 {
        eof := true;
      }
      buf := buf[..len] + chunk + buf[len + |chunk|..];
      len := len + |chunk|;
      assert buf[pos..len] == unread + chunk;
    }

    method ReadVarint() returns (r: Got)
      requires Valid()
      modifies this
      ensures Valid() && key == old(key) && files == old(files)
      ensures match VarintAt(old(Stream()), 0, 0)
        case AtEnd => r == End
        case TooLong => r == Bad
        case Value(v, tail) => r == Got(v) && Stream() == tail
    {
      var v: nat, shift: nat := 0, 0;
      while true
        invariant Valid() && key == old(key) && files == old(files)
        invariant VarintAt(Stream(), shift, v) == VarintAt(old(Stream()), 0, 0)
        decreases |Stream()|, if pos < len then 0 else 1
      {
        if pos == len {
          if eof {
            return End;
          }
          Fill();
          if pos == len && eof {
            return End;
          }
          continue;
        }
        ghost var before := Stream();
        var b := buf[pos];
        pos := pos + 1;
        assert before[0] == b && before[1..] == Stream();
        v := (v + b % 0x80 * Pow2(shift)) % U64;
        if b < 0x80 {
          return Got(v);
        }
        shift := shift + 7;
        if shift >= 64 {
          return Bad;
        }
      }
    }

    /** At most `left` bytes, from the buffer; none only at the end of the file. */
    method TakeSome(left: nat) returns (chunk: Bytes)
      requires Valid() && left > 0
      modifies this
      ensures Valid() && key == old(key) && files == old(files)
      ensures chunk + Stream() == old(Stream()) && |chunk| <= left
      ensures chunk == [] <==> old(Stream()) == []
    {
      if pos == len {
        Fill();
        if pos >= len {
          return [];
        }
      }
      var take := Min(left, len - pos);
      TakePart(buf, pos, take, len, file);
      chunk := buf[pos..pos + take];
      pos := pos + take;
    }

    /** Exactly `n` bytes, however many reads they take. */
    method Take(n: nat) returns (ok: bool, out: Bytes)
      requires Valid()
      modifies this
      ensures Valid() && key == old(key) && files == old(files)
      ensures ok <==> n <= |old(Stream())|
      ensures ok ==> out == old(Stream())[..n] && Stream() == old(Stream())[n..]
    {
      out := [];
      ghost var start := Stream();
      var left: nat := n;
      while left > 0
        invariant Valid() && key == old(key) && files == old(files)
        invariant left <= n && |out| == n - left
        invariant out + Stream() == start
      {
        var chunk := TakeSome(left);
        if chunk == [] {
          return false, out;
        }
        Regroup(out, chunk, Stream());
        out := out + chunk;
        left := left - |chunk|;
      }
      ok := true;
      Cut(out, Stream());
    }

    /** `advance`: the next record into `key` and `files`. */
    method Advance() returns (r: Step)
      requires Valid()
      modifies this
      ensures Valid()
      ensures match ReadRecord(old(Stream()))
        case NoRecord => r == Finished
        case Corrupt => r == Failed
        case Next(k, ids, tail) => r == Advanced && key == k && files == ids && Stream() == tail
    {
      var klen := ReadVarint();
      if !klen.Got? {
        return if klen.End? then Finished else Failed;
      }
      var ok, k := Take(klen.v);
      if !ok {
        return Failed;
      }
      key := k;
      var n := ReadVarint();
      if !n.Got? {
        return Failed;
      }
      r := TakeIds(n.v);
    }

    method TakeIds(n: nat) returns (r: Step)
      requires Valid()
      modifies this
      ensures Valid() && key == old(key)
      ensures match ReadIds(old(Stream()), n, 0, true)
        case BadIds => r == Failed
        case Ids(ids, tail) => r == Advanced && files == ids && Stream() == tail
    {
      files := [];
      var prev: nat := 0;
      var i: nat := 0;
      ghost var start := Stream();
      while i < n
        invariant Valid() && key == old(key) && i <= n
        invariant match ReadIds(Stream(), n - i, prev, i == 0)
          case BadIds => ReadIds(start, n, 0, true).BadIds?
          case Ids(ids, tail) => ReadIds(start, n, 0, true) == Ids(files + ids, tail)
      {
        var d := ReadVarint();
        if !d.Got? {
          return Failed;
        }
        var id := if i == 0 then d.v % U32 else (prev + d.v % U32) % U32;
        ghost var before := files;
        files := files + [id];
        assert forall ids: seq<nat> :: before + ([id] + ids) == files + ids;
        prev := id;
        i := i + 1;
      }
      assert files + [] == files;
      r := Advanced;
    }
  }
}
