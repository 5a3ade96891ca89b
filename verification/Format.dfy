// The serialized gram section (crates/greeg-index/src/format.rs): little-endian
// keys, counts and offsets, then the posting lists; read back by slicing, and
// looked up by binary search.

module Format {
  import opened Bytes
  import opened Trigrams

  // ------------------------------------------------------------ little endian

  function Pow256(n: nat): (p: nat)
    ensures p >= 1
  {
    if n == 0 then 1 else 256 * Pow256(n - 1)
  }

  /** The low `n` bytes of `v`, least significant first. */
  function Le(v: nat, n: nat): (r: Bytes)
    ensures |r| == n
    decreases v, n
  {
    if n == 0 then [] else [v % 256] + Le(v / 256, n - 1)
  }

  function LeValue(b: Bytes): nat {
    if b == [] then 0 else b[0] + 256 * LeValue(b[1..])
  }

  lemma {:induction false} LeRoundTrip(v: nat, n: nat)
    requires v < Pow256(n)
    ensures LeValue(Le(v, n)) == v
  {
    if n > 0 {
      assert v / 256 < Pow256(n - 1);
      LeRoundTrip(v / 256, n - 1);
      assert Le(v, n)[1..] == Le(v / 256, n - 1);
    }
  }

  lemma Widths()
    ensures Pow256(2) == 0x1_0000 && Pow256(4) == U32 && Pow256(8) == U64
  {
    assert Pow256(2) == 0x1_0000;
    assert Pow256(4) == U32;
    assert Pow256(6) == 0x1_0000_0000_0000;
  }

  /** Numbers of `w` bytes each, one after the other. */
  function EncodeAll(vs: seq<nat>, w: nat): (r: Bytes)
    ensures |r| == |vs| * w
  {
    if vs == [] then []
    else
      var n := |vs| - 1;
      assert |vs| * w == n * w + w;
      EncodeAll(vs[..n], w) + Le(vs[n], w)
  }

  function DecodeAll(b: Bytes, n: nat, w: nat): (r: seq<nat>)
    requires |b| == n * w
    ensures |r| == n
    decreases n
  {
    if n == 0 then []
    else
      assert n * w == (n - 1) * w + w && (n - 1) * w >= 0;
      var cut := |b| - w;
      DecodeAll(b[..cut], n - 1, w) + [LeValue(b[cut..])]
  }

  lemma DecodeSnoc(b: Bytes, tail: Bytes, n: nat, w: nat)
    requires |b| == n * w && |tail| == w
    ensures |b + tail| == (n + 1) * w && DecodeAll(b + tail, n + 1, w) == DecodeAll(b, n, w) + [LeValue(tail)]
  {
    assert (n + 1) * w == n * w + w;
    assert (b + tail)[..|b|] == b && (b + tail)[|b|..] == tail;
  }

  lemma {:induction false} DecodeEncoded(vs: seq<nat>, w: nat)
    requires forall i | 0 <= i < |vs| :: vs[i] < Pow256(w)
    ensures DecodeAll(EncodeAll(vs, w), |vs|, w) == vs
  {
    if vs != [] {
      var n := |vs| - 1;
      DecodeEncoded(vs[..n], w);
      assert |EncodeAll(vs[..n], w)| == n * w;
      DecodeSnoc(EncodeAll(vs[..n], w), Le(vs[n], w), n, w);
      LeRoundTrip(vs[n], w);
      assert EncodeAll(vs, w) == EncodeAll(vs[..n], w) + Le(vs[n], w);
      assert vs == vs[..n] + [vs[n]];
    }
  }

  // ------------------------------------------------------------ the section

  /** One gram: its key, how many files hold it, and their serialized list. */
  datatype Entry = Entry(key: u32, count: u32, list: Bytes)

  function Keys(es: seq<Entry>): seq<nat> {
    seq(|es|, i requires 0 <= i < |es| => es[i].key)
  }

  function Counts(es: seq<Entry>): seq<nat> {
    seq(|es|, i requires 0 <= i < |es| => es[i].count)
  }

  function Lists(es: seq<Entry>): Bytes {
    if es == [] then [] else Lists(es[..|es| - 1]) + es[|es| - 1].list
  }

  /** Where each list starts, and where the last one ends. */
  function Offsets(es: seq<Entry>): (r: seq<nat>)
    ensures |r| == |es| + 1 && r[|es|] == |Lists(es)|
  {
    if es == [] then [0] else Offsets(es[..|es| - 1]) + [|Lists(es)|]
  }

  function Pad8(b: Bytes): Bytes {
    b + seq((8 - |b| % 8) % 8, _ => 0)
  }

  /** The header: the entry count, a reserved word, the length of the lists. */
  function Head(n: nat, len: nat): (r: Bytes)
    ensures |r| == 16
  {
    Le(n, 4) + Le(0, 4) + Le(len, 8)
  }

  function Tables(es: seq<Entry>): (r: Bytes)
    ensures |r| == 8 * |es|
  {
    EncodeAll(Keys(es), 4) + EncodeAll(Counts(es), 4)
  }

  function SerializeGrams(es: seq<Entry>): Bytes {
    Pad8(Head(|es|, |Lists(es)|) + Tables(es) + EncodeAll(Offsets(es), 8) + Lists(es))
  }

  lemma {:induction false} SnocEncode(vs: seq<nat>, v: nat, w: nat)
    ensures EncodeAll(vs + [v], w) == EncodeAll(vs, w) + Le(v, w)
  {
    assert (vs + [v])[..|vs|] == vs;
  }

  /** One table of numbers, appended in turn. */
  method AppendAll(vs: seq<nat>, w: nat, before: Bytes) returns (body: Bytes)
    ensures body == before + EncodeAll(vs, w)
  {
    body := before;
    for i := 0 to |vs|
      invariant body == before + EncodeAll(vs[..i], w)
    {
      SnocEncode(vs[..i], vs[i], w);
      assert vs[..i + 1] == vs[..i] + [vs[i]];
      body := body + Le(vs[i], w);
    }
    assert vs[..|vs|] == vs;
  }

  method AppendLists(es: seq<Entry>, before: Bytes) returns (body: Bytes)
    ensures body == before + Lists(es)
  {
    body := before;
    for i := 0 to |es|
      invariant body == before + Lists(es[..i])
    {
      assert es[..i + 1][..i] == es[..i];
      body := body + es[i].list;
    }
    assert es[..|es|] == es;
  }

  method PadLoop(before: Bytes) returns (body: Bytes)
    ensures body == Pad8(before)
  {
    body := before;
    while |body| % 8 != 0
      invariant Pad8(body) == Pad8(before)
      decreases (8 - |body| % 8) % 8
    {
      PadStep(body);
      body := body + [0];
    }
  }

  method ListsLength(es: seq<Entry>) returns (n: nat)
    ensures n == |Lists(es)|
  {
    n := 0;
    for i := 0 to |es|
      invariant n == |Lists(es[..i])|
    {
      assert es[..i + 1][..i] == es[..i];
      n := n + |es[i].list|;
    }
    assert es[..|es|] == es;
  }

  /** `serialize_grams`: one pass per table, then the lists, then padding. */
  method SerializeGramsLoop(es: seq<Entry>) returns (body: Bytes)
    ensures body == SerializeGrams(es)
  {
    var postingsLen := ListsLength(es);
    body := Head(|es|, postingsLen);
    ghost var head := body;
    body := AppendAll(Keys(es), 4, body);
    body := AppendAll(Counts(es), 4, body);
    Regroup(head, EncodeAll(Keys(es), 4), EncodeAll(Counts(es), 4));
    body := AppendOffsets(es, body);
    body := AppendLists(es, body);
    body := PadLoop(body);
  }

  lemma PadStep(b: Bytes)
    requires |b| % 8 != 0
    ensures Pad8(b + [0]) == Pad8(b) && (8 - |b + [0]| % 8) % 8 + 1 == (8 - |b| % 8) % 8
  {
  }

  lemma OffsetsStep(es: seq<Entry>, i: nat)
    requires i < |es|
    ensures Offsets(es[..i + 1]) == Offsets(es[..i]) + [|Lists(es[..i + 1])|]
    ensures |Lists(es[..i + 1])| == |Lists(es[..i])| + |es[i].list|
  {
    assert es[..i + 1][..i] == es[..i];
  }

  method AppendOffsets(es: seq<Entry>, before: Bytes) returns (body: Bytes)
    ensures body == before + EncodeAll(Offsets(es), 8)
  {
    body := before;
    var off := 0;
    ghost var done: seq<nat> := [];
    for i := 0 to |es|
      invariant off == |Lists(es[..i])|
      invariant done + [off] == Offsets(es[..i])
      invariant body == before + EncodeAll(done, 8)
    {
      OffsetsStep(es, i);
      SnocEncode(done, off, 8);
      Regroup(before, EncodeAll(done, 8), Le(off, 8));
      body := body + Le(off, 8);
      done := done + [off];
      off := off + |es[i].list|;
    }
    assert es[..|es|] == es;
    SnocEncode(done, off, 8);
    Regroup(before, EncodeAll(done, 8), Le(off, 8));
    body := body + Le(off, 8);
  }

  // ------------------------------------------------------------ reading back

  datatype GramsView = GramsView(keys: seq<nat>, counts: seq<nat>, offsets: seq<nat>, postings: Bytes)
  {
    /** Documents holding the gram at `i`; 0 past the end. */
    function Count(i: nat): nat {
      if i < |counts| then counts[i] else 0
    }

    /** The serialized list at `i`; empty when the offsets do not fit. */
    function PostingBytes(i: nat): Bytes {
      if i + 2 <= |offsets| && offsets[i] <= offsets[i + 1] <= |postings|
      then postings[offsets[i]..offsets[i + 1]]
      else []
    }

    /** Binary search for `key`. */
    method Find(key: nat) returns (r: Option<nat>)
      ensures r.Some? ==> r.value < |keys| && keys[r.value] == key
      ensures StrictlyAscending(keys) && key in keys ==> r.Some?
    {
      var lo, hi := 0, |keys|;
      while lo < hi
        invariant 0 <= lo <= hi <= |keys|
        invariant StrictlyAscending(keys) ==> forall i | 0 <= i < |keys| && keys[i] == key :: lo <= i < hi
      {
        var mid := (lo + hi) / 2;
        if keys[mid] < key {
          lo := mid + 1;
        } else if keys[mid] > key {
          hi := mid;
        } else {
          return Some(mid);
        }
      }
      r := None;
    }
  }

  datatype Parsed = Ok(view: GramsView) | Err(what: string)

  function ParseGrams(body: Bytes): Parsed {
    if |body| < 16 then Err("short grams section")
    else ParseTables(body, LeValue(body[0..4]), LeValue(body[8..16]))
  }

  function ParseTables(body: Bytes, n: nat, len: nat): Parsed
    requires |body| >= 16
  {
    var counts := 16 + n * 4;
    var offsets := counts + n * 4;
    var lists := offsets + (n + 1) * 8;
    if |body| < counts then Err("keys")
    else if |body| < offsets then Err("counts")
    else if |body| < lists then Err("offsets")
    else if |body| < lists + len then Err("postings")
    else Ok(Decoded(n, body[16..counts], body[counts..offsets], body[offsets..lists], body[lists..lists + len]))
  }

  /** A view over tables of `n` entries. */
  function Decoded(n: nat, keys: Bytes, counts: Bytes, offsets: Bytes, lists: Bytes): GramsView
    requires |keys| == n * 4 && |counts| == n * 4 && |offsets| == (n + 1) * 8
  {
    GramsView(DecodeAll(keys, n, 4), DecodeAll(counts, n, 4), DecodeAll(offsets, n + 1, 8), lists)
  }

  lemma {:induction false} OffsetsFit(es: seq<Entry>, o: nat)
    requires o in Offsets(es)
    ensures o <= |Lists(es)|
  {
    if es != [] && o in Offsets(es[..|es| - 1]) {
      OffsetsFit(es[..|es| - 1], o);
    }
  }

  /** The part that lies after `a` and before the rest. */
  lemma Cut(a: Bytes, b: Bytes, c: Bytes)
    ensures (a + b + c)[|a|..|a| + |b|] == b
  {
  }

  lemma FourParts(a: Bytes, b: Bytes, c: Bytes, d: Bytes, pad: Bytes)
    ensures var body := a + b + c + d + pad;
      && body[..|a|] == a
      && body[|a|..|a| + |b|] == b
      && body[|a| + |b|..|a| + |b| + |c|] == c
      && body[|a| + |b| + |c|..|a| + |b| + |c| + |d|] == d
  {
    assert a + b + c + d + pad == a + b + (c + d + pad);
    Cut(a, b, c + d + pad);
    assert a + b + c + d + pad == (a + b) + c + (d + pad);
    Cut(a + b, c, d + pad);
    Cut(a + b + c, d, pad);
  }

  /** `body` is a section of `n` entries with these parts. */
  ghost predicate Holds(body: Bytes, n: nat, head: Bytes, tables: Bytes, offsets: Bytes, lists: Bytes) {
    && |body| >= 24 + n * 16 + |lists|
    && body[..16] == head
    && body[16..16 + n * 8] == tables
    && body[16 + n * 8..24 + n * 16] == offsets
    && body[24 + n * 16..24 + n * 16 + |lists|] == lists
  }

  lemma PaddedParts(n: nat, head: Bytes, tables: Bytes, offsets: Bytes, lists: Bytes)
    requires |head| == 16 && |tables| == n * 8 && |offsets| == n * 8 + 8
    ensures Holds(Pad8(head + tables + offsets + lists), n, head, tables, offsets, lists)
  {
    var main := head + tables + offsets + lists;
    FourParts(head, tables, offsets, lists, seq((8 - |main| % 8) % 8, _ => 0));
  }

  /** Where each part of the section starts. */
  lemma {:induction false} SectionParts(es: seq<Entry>)
    ensures Holds(SerializeGrams(es), |es|, Head(|es|, |Lists(es)|), Tables(es), EncodeAll(Offsets(es), 8), Lists(es))
  {
    PaddedParts(|es|, Head(|es|, |Lists(es)|), Tables(es), EncodeAll(Offsets(es), 8), Lists(es));
  }

  lemma ThreeParts(a: Bytes, b: Bytes, c: Bytes)
    requires |a| == 4 && |b| == 4 && |c| == 8
    ensures (a + b + c)[0..4] == a && (a + b + c)[8..16] == c
  {
  }

  lemma HeadParts(n: nat, len: nat)
    requires n < U32 && len < U64
    ensures LeValue(Head(n, len)[0..4]) == n && LeValue(Head(n, len)[8..16]) == len
  {
    Widths();
    LeRoundTrip(n, 4);
    LeRoundTrip(len, 8);
    ThreeParts(Le(n, 4), Le(0, 4), Le(len, 8));
  }

  lemma {:induction false} TableParts(es: seq<Entry>)
    ensures DecodeAll(Tables(es)[..4 * |es|], |es|, 4) == Keys(es)
    ensures DecodeAll(Tables(es)[4 * |es|..], |es|, 4) == Counts(es)
  {
    Widths();
    assert Tables(es)[..4 * |es|] == EncodeAll(Keys(es), 4);
    assert Tables(es)[4 * |es|..] == EncodeAll(Counts(es), 4);
    DecodeEncoded(Keys(es), 4);
    DecodeEncoded(Counts(es), 4);
  }

  lemma {:induction false} OffsetsPart(es: seq<Entry>)
    requires |Lists(es)| < U64
    ensures DecodeAll(EncodeAll(Offsets(es), 8), |es| + 1, 8) == Offsets(es)
  {
    Widths();
    forall i | 0 <= i < |Offsets(es)| ensures Offsets(es)[i] < U64 {
      OffsetsFit(es, Offsets(es)[i]);
    }
    DecodeEncoded(Offsets(es), 8);
  }

  lemma TableSlices(body: Bytes, n: nat, head: Bytes, tables: Bytes, offsets: Bytes, lists: Bytes)
    requires Holds(body, n, head, tables, offsets, lists)
    requires |tables| == n * 8 && |offsets| == (n + 1) * 8
    ensures |body| >= 24 + n * 16 + |lists|
    ensures body[16..16 + n * 4] == tables[..4 * n] && body[16 + n * 4..16 + n * 8] == tables[4 * n..]
    ensures body[16 + n * 8..24 + n * 16] == offsets && body[24 + n * 16..24 + n * 16 + |lists|] == lists
  {
    SliceOfSlice(body, 16, 16 + n * 4, 16 + n * 8);
  }

  lemma ParsedTables(body: Bytes, n: nat, len: nat)
    requires |body| >= 24 + n * 16 + len
    ensures ParseTables(body, n, len) ==
      Ok(Decoded(n, body[16..16 + n * 4], body[16 + n * 4..16 + n * 8], body[16 + n * 8..24 + n * 16],
                 body[24 + n * 16..24 + n * 16 + len]))
  {
  }

  lemma TablesReadBack(body: Bytes, n: nat, head: Bytes, tables: Bytes, offsets: Bytes, lists: Bytes)
    requires Holds(body, n, head, tables, offsets, lists)
    requires |tables| == n * 8 && |offsets| == (n + 1) * 8
    ensures ParseTables(body, n, |lists|) == Ok(Decoded(n, tables[..4 * n], tables[4 * n..], offsets, lists))
  {
    TableSlices(body, n, head, tables, offsets, lists);
    ParsedTables(body, n, |lists|);
  }

  /** What was written is what is read. */
  lemma {:induction false} SectionRoundTrip(es: seq<Entry>)
    requires |es| < U32 && |Lists(es)| < U64
    ensures ParseGrams(SerializeGrams(es)) == Ok(GramsView(Keys(es), Counts(es), Offsets(es), Lists(es)))
  {
    SectionParts(es);
    var body, head := SerializeGrams(es), Head(|es|, |Lists(es)|);
    HeadParts(|es|, |Lists(es)|);
    assert body[0..4] == head[0..4] && body[8..16] == head[8..16] by {
      assert head == body[..16];
    }
    TableParts(es);
    OffsetsPart(es);
    TablesReadBack(body, |es|, head, Tables(es), EncodeAll(Offsets(es), 8), Lists(es));
  }

  lemma {:induction false} ListAt(es: seq<Entry>, i: nat)
    requires i < |es|
    ensures Offsets(es)[i] <= Offsets(es)[i + 1] <= |Lists(es)|
    ensures Lists(es)[Offsets(es)[i]..Offsets(es)[i + 1]] == es[i].list
  {
    var n := |es| - 1;
    var before := Lists(es[..n]);
    if i < n {
      ListAt(es[..n], i);
      assert Lists(es)[..|before|] == before;
    }
  }

  /** Each entry of the table reads back at its own position. */
  lemma {:induction false} EntryReadsBack(es: seq<Entry>, i: nat)
    requires |es| < U32 && |Lists(es)| < U64 && i < |es|
    ensures ParseGrams(SerializeGrams(es)).Ok?
    ensures var v := ParseGrams(SerializeGrams(es)).view;
      |v.keys| == |es| && v.keys[i] == es[i].key && v.Count(i) == es[i].count && v.PostingBytes(i) == es[i].list
  {
    SectionRoundTrip(es);
    ListAt(es, i);
  }
}
