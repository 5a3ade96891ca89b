// Tables of numbers one after the other, each padded to eight bytes, behind a
// header of two counts (crates/greeg-index/src/symtab.rs): the form of the graph
// sections. What was packed reads back, whatever follows it.

module Packed {
  import opened Bytes
  import opened Format

  /** Bytes a number takes. */
  type Width = w: nat | w == 2 || w == 4 witness 2

  datatype Table = Table(vs: seq<nat>, w: Width)
  datatype Shape = Shape(n: nat, w: Width)

  function Shapes(ts: seq<Table>): seq<Shape> {
    seq(|ts|, i requires 0 <= i < |ts| => Shape(|ts[i].vs|, ts[i].w))
  }

  function Values(ts: seq<Table>): seq<seq<nat>> {
    seq(|ts|, i requires 0 <= i < |ts| => ts[i].vs)
  }

  ghost predicate FitIn(vs: seq<nat>, w: Width) {
    forall i | 0 <= i < |vs| :: vs[i] < Pow256(w)
  }

  // ------------------------------------------------------------ writing

  function Padded(t: Table): Bytes {
    Pad8(EncodeAll(t.vs, t.w))
  }

  function Pack(ts: seq<Table>): Bytes {
    if ts == [] then [] else Padded(ts[0]) + Pack(ts[1..])
  }

  /** The header: two counts, and two reserved words. */
  function Head(n: nat, m: nat): (r: Bytes)
    ensures |r| == 16
  {
    Le(n, 4) + Le(m, 4) + Le(0, 4) + Le(0, 4)
  }

  lemma PaddedLength(n: nat)
    ensures n + (8 - n % 8) % 8 == (n + 7) / 8 * 8
  {
  }

  lemma PaddingAfter(a: nat, n: nat)
    requires a % 8 == 0
    ensures (a + n) % 8 == n % 8
  {
  }

  lemma SamePad(before: Bytes, e: Bytes)
    requires |before + e| % 8 == |e| % 8
    ensures Pad8(before + e) == before + Pad8(e)
  {
  }

  lemma PadLength(b: Bytes)
    ensures |Pad8(b)| == (|b| + 7) / 8 * 8
  {
    PaddedLength(|b|);
  }

  lemma {:induction false} PadAfter(before: Bytes, e: Bytes)
    requires |before| % 8 == 0
    ensures Pad8(before + e) == before + Pad8(e)
    ensures |before + Pad8(e)| % 8 == 0 && |before + Pad8(e)| == (|before| + |e| + 7) / 8 * 8
  {
    PaddingAfter(|before|, |e|);
    SamePad(before, e);
    PadLength(before + e);
  }

  /** `put_u32s`, and the same for 16-bit numbers. */
  method Put(before: Bytes, t: Table) returns (body: Bytes)
    requires |before| % 8 == 0
    ensures body == before + Padded(t) && |body| % 8 == 0
  {
    body := AppendAll(t.vs, t.w, before);
    body := PadLoop(body);
    PadAfter(before, EncodeAll(t.vs, t.w));
  }

  lemma {:induction false} PackStep(head: Bytes, ts: seq<Table>, i: nat)
    requires i < |ts|
    ensures head + Pack(ts[..i]) + Padded(ts[i]) == head + Pack(ts[..i + 1])
    decreases |ts|
  {
    if i == 0 {
      assert ts[..1][1..] == [] && ts[..0] == [];
    } else {
      assert ts[..i][1..] == ts[1..][..i - 1] && ts[..i + 1][1..] == ts[1..][..i];
      PackStep(head + Padded(ts[0]), ts[1..], i - 1);
      Regroup(head, Padded(ts[0]), Pack(ts[1..][..i - 1]));
      Regroup(head, Padded(ts[0]), Pack(ts[1..][..i]));
    }
  }

  /** A whole section, table after table. */
  method PutAll(n: nat, m: nat, ts: seq<Table>) returns (body: Bytes)
    ensures body == Head(n, m) + Pack(ts)
  {
    body := Head(n, m);
    for i := 0 to |ts|
      invariant |body| % 8 == 0 && body == Head(n, m) + Pack(ts[..i])
    {
      PackStep(Head(n, m), ts, i);
      body := Put(body, ts[i]);
    }
    assert ts[..|ts|] == ts;
  }

  // ------------------------------------------------------------ reading

  /** `n` numbers at `off`, if the section holds them. */
  function Take(b: Bytes, off: nat, s: Shape): (r: Option<seq<nat>>)
    ensures r.Some? ==> |r.value| == s.n
  {
    if off + s.n * s.w <= |b| then Some(DecodeAll(b[off..off + s.n * s.w], s.n, s.w)) else None
  }

  /** The next multiple of eight past them. */
  function After(off: nat, s: Shape): nat {
    (off + s.n * s.w + 7) / 8 * 8
  }

  /** `take_u32s` and `take_bytes`, one table after the other. */
  function TakeAll(b: Bytes, off: nat, ss: seq<Shape>): (r: Option<seq<seq<nat>>>)
    ensures r.Some? ==> |r.value| == |ss| && forall i | 0 <= i < |ss| :: |r.value[i]| == ss[i].n
    decreases |ss|
  {
    if ss == [] then Some([])
    else
      var first := Take(b, off, ss[0]);
      var rest := TakeAll(b, After(off, ss[0]), ss[1..]);
      if first.Some? && rest.Some? then Some([first.value] + rest.value) else None
  }

  lemma EncodedWithin(before: Bytes, e: Bytes, rest: Bytes)
    ensures |before| + |e| <= |before + Pad8(e) + rest|
    ensures (before + Pad8(e) + rest)[|before|..|before| + |e|] == e
  {
  }

  lemma {:induction false} TakeAt(b: Bytes, off: nat, t: Table)
    requires var n := |t.vs| * t.w; off + n <= |b| && b[off..off + n] == EncodeAll(t.vs, t.w)
    requires FitIn(t.vs, t.w)
    ensures Take(b, off, Shape(|t.vs|, t.w)) == Some(t.vs)
  {
    DecodeEncoded(t.vs, t.w);
  }

  /** A padded table reads back where it was put. */
  lemma {:induction false} TakePadded(before: Bytes, t: Table, rest: Bytes)
    requires |before| % 8 == 0 && FitIn(t.vs, t.w)
    ensures Take(before + Padded(t) + rest, |before|, Shape(|t.vs|, t.w)) == Some(t.vs)
    ensures After(|before|, Shape(|t.vs|, t.w)) == |before + Padded(t)| && |before + Padded(t)| % 8 == 0
  {
    PadAfter(before, EncodeAll(t.vs, t.w));
    EncodedWithin(before, EncodeAll(t.vs, t.w), rest);
    TakeAt(before + Padded(t) + rest, |before|, t);
  }

  /** What was packed is what is taken. */
  lemma {:induction false} PackReads(before: Bytes, ts: seq<Table>)
    requires |before| % 8 == 0 && forall i | 0 <= i < |ts| :: FitIn(ts[i].vs, ts[i].w)
    ensures TakeAll(before + Pack(ts), |before|, Shapes(ts)) == Some(Values(ts))
    decreases |ts|
  {
    if ts != [] {
      TakePadded(before, ts[0], Pack(ts[1..]));
      Regroup(before, Padded(ts[0]), Pack(ts[1..]));
      PackReads(before + Padded(ts[0]), ts[1..]);
      assert Shapes(ts)[1..] == Shapes(ts[1..]);
      assert Values(ts) == [ts[0].vs] + Values(ts[1..]);
    }
  }

  lemma FirstWords(a: Bytes, b: Bytes, c: Bytes)
    requires |a| == |b| == 4
    ensures (a + b + c)[0..4] == a && (a + b + c)[4..8] == b
  {
  }

  lemma {:induction false} HeadReads(n: nat, m: nat, rest: Bytes)
    requires n < U32 && m < U32
    ensures var b := Head(n, m) + rest; LeValue(b[0..4]) == n && LeValue(b[4..8]) == m
  {
    Widths();
    var tail := Le(0, 4) + Le(0, 4) + rest;
    assert Head(n, m) + rest == Le(n, 4) + Le(m, 4) + tail;
    FirstWords(Le(n, 4), Le(m, 4), tail);
    LeRoundTrip(n, 4);
    LeRoundTrip(m, 4);
  }
}
