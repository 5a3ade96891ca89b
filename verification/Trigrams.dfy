// Trigrams (crates/greeg-index/src/gram.rs): ASCII case folding, the 24-bit
// key of three bytes, the trigrams a text and a literal hold, and the per-file
// extractor with its reusable bitset.

module Trigrams {
  import opened Bytes

  // ------------------------------------------------------------ folding

  /** ASCII upper case to lower case; every other byte as it is. */
  function FoldByte(b: Byte): (r: Byte)
    ensures r == NEWLINE <==> b == NEWLINE
    ensures b >= 128 ==> r == b
    ensures !(65 <= r <= 90)
  {
    if 65 <= b <= 90 then b + 32 else b
  }

  function Fold(s: Bytes): (r: Bytes)
    ensures |r| == |s|
    ensures forall i | 0 <= i < |s| :: r[i] == FoldByte(s[i])
  {
    seq(|s|, i requires 0 <= i < |s| => FoldByte(s[i]))
  }

  lemma FoldConcat(a: Bytes, b: Bytes)
    ensures Fold(a + b) == Fold(a) + Fold(b)
  {
  }

  lemma FoldIdempotent(s: Bytes)
    ensures Fold(Fold(s)) == Fold(s)
  {
    assert forall b: Byte :: FoldByte(FoldByte(b)) == FoldByte(b);
  }

  /** `fold_buf` folds the buffer in place. */
  method FoldBuf(buf: array<Byte>)
    modifies buf
    ensures buf[..] == Fold(old(buf[..]))
  {
    for i := 0 to buf.Length
      invariant forall k | 0 <= k < i :: buf[k] == FoldByte(old(buf[k]))
      invariant forall k | i <= k < buf.Length :: buf[k] == old(buf[k])
    {
      if 65 <= buf[i] <= 90 {
        buf[i] := buf[i] + 32;
      }
    }
  }

  // ------------------------------------------------------------ keys

  const KEYS := 0x100_0000

  /** The big-endian 24-bit key of three bytes. */
  function Key3(a: Byte, b: Byte, c: Byte): (k: nat)
    ensures k < KEYS
  {
    a * 65536 + b * 256 + c
  }

  lemma Key3Injective(a: Byte, b: Byte, c: Byte, x: Byte, y: Byte, z: Byte)
    requires Key3(a, b, c) == Key3(x, y, z)
    ensures a == x && b == y && c == z
  {
  }

  /** A window of three bytes starts at `i` and holds no line terminator. */
  predicate IsWindow(s: Bytes, i: int) {
    0 <= i && i + 2 < |s| && s[i] != NEWLINE && s[i + 1] != NEWLINE && s[i + 2] != NEWLINE
  }

  function KeyAt(s: Bytes, i: int): nat
    requires 0 <= i && i + 2 < |s|
  {
    Key3(s[i], s[i + 1], s[i + 2])
  }

  /** The trigrams of a folded text: every window that spans no line terminator. */
  function Windows(s: Bytes): set<nat> {
    set i | 0 <= i < |s| && IsWindow(s, i) :: KeyAt(s, i)
  }

  /** The trigrams the index records for a file holding `text`. */
  function Grams(text: Bytes): set<nat> {
    Windows(Fold(text))
  }

  /** A stretch of a text has no trigram the text does not have. */
  lemma WindowsOfPart(s: Bytes, lo: nat, hi: nat)
    requires lo <= hi <= |s|
    ensures Windows(s[lo..hi]) <= Windows(s)
  {
    forall k | k in Windows(s[lo..hi]) ensures k in Windows(s) {
      var i :| 0 <= i < |s[lo..hi]| && IsWindow(s[lo..hi], i) && KeyAt(s[lo..hi], i) == k;
      assert IsWindow(s, lo + i) && KeyAt(s, lo + i) == k;
    }
  }

  // ------------------------------------------------------------ sorted key lists

  predicate StrictlyAscending(s: seq<int>) {
    forall i, j | 0 <= i < j < |s| :: s[i] < s[j]
  }

  /** `sort_unstable` then `dedup`, one element at a time. */
  function InsertKey(s: seq<nat>, k: nat): (r: seq<nat>)
    requires StrictlyAscending(s)
    ensures StrictlyAscending(r)
    ensures forall y :: y in r <==> y == k || y in s
  {
    if s == [] then [k]
    else if s[0] == k then s
    else if k < s[0] then [k] + s
    else
      var rest := InsertKey(s[1..], k);
      assert forall y | y in rest :: s[0] < y;
      assert s == [s[0]] + s[1..];
      ConsKey(s[0], rest);
      [s[0]] + rest
  }

  function SortDedup(s: seq<nat>): (r: seq<nat>)
    ensures StrictlyAscending(r)
    ensures forall y :: y in r <==> y in s
  {
    if s == [] then [] else InsertKey(SortDedup(s[1..]), s[0])
  }

  ghost predicate Distinct(s: seq<nat>) {
    forall i, j | 0 <= i < j < |s| :: s[i] != s[j]
  }

  lemma ConsKey(k: nat, s: seq<nat>)
    requires StrictlyAscending(s)
    requires forall y | y in s :: k < y
    ensures StrictlyAscending([k] + s)
  {
    forall i, j | 0 <= i < j < |s| + 1 ensures ([k] + s)[i] < ([k] + s)[j] {
      assert s[j - 1] in s;
    }
  }

  /** Insertion that keeps duplicates; a key not yet there keeps the order strict. */
  function InsertSorted(s: seq<nat>, k: nat): (r: seq<nat>)
    ensures forall y :: y in r <==> y == k || y in s
    ensures |r| == |s| + 1
    ensures StrictlyAscending(s) && k !in s ==> StrictlyAscending(r)
  {
    if s == [] || k <= s[0] then [k] + s
    else
      assert s == [s[0]] + s[1..];
      var rest := InsertSorted(s[1..], k);
      assert StrictlyAscending(s) && k !in s ==> StrictlyAscending([s[0]] + rest) by {
        if StrictlyAscending(s) && k !in s {
          forall y | y in rest ensures s[0] < y {
            assert y == k || y in s[1..];
          }
          ConsKey(s[0], rest);
        }
      }
      [s[0]] + rest
  }

  /** `sort_unstable`. */
  function SortKeys(s: seq<nat>): (r: seq<nat>)
    ensures |r| == |s|
    ensures forall y :: y in r <==> y in s
    ensures Distinct(s) ==> StrictlyAscending(r)
  {
    if s == [] then [] else InsertSorted(SortKeys(s[1..]), s[0])
  }

  // ------------------------------------------------------------ literals

  /** Index of the first line terminator, or the length when there is none. */
  function LineEnd(s: Bytes): (n: nat)
    ensures n <= |s|
    ensures n < |s| ==> s[n] == NEWLINE
    ensures forall i | 0 <= i < n :: s[i] != NEWLINE
  {
    if s == [] || s[0] == NEWLINE then 0 else 1 + LineEnd(s[1..])
  }

  /** `lit.split('\n')`. */
  function Split(s: Bytes): (pieces: seq<Bytes>)
    ensures pieces != []
    decreases |s|
  {
    var n := LineEnd(s);
    if n == |s| then [s] else [s[..n]] + Split(s[n + 1..])
  }

  function PieceKeys(piece: Bytes): (r: seq<nat>)
    ensures StrictlyAscending(r)
  {
    if |piece| < 3 then []
    else SortDedup(seq(|piece| - 2, i requires 0 <= i < |piece| - 2 => KeyAt(Fold(piece), i)))
  }

  /** One group of keys for every piece of three bytes or more, in order. */
  function GroupsOf(pieces: seq<Bytes>): seq<seq<nat>> {
    if pieces == [] then []
    else (if |pieces[0]| < 3 then [] else [PieceKeys(pieces[0])]) + GroupsOf(pieces[1..])
  }

  function LiteralKeys(lit: Bytes): seq<seq<nat>> {
    GroupsOf(Split(lit))
  }

  ghost predicate InSome(k: nat, groups: seq<seq<nat>>) {
    exists g | g in groups :: k in g
  }

  lemma PieceKeysAreWindows(piece: Bytes, k: nat)
    requires forall i | 0 <= i < |piece| :: piece[i] != NEWLINE
    ensures k in PieceKeys(piece) <==> k in Grams(piece)
  {
    if |piece| >= 3 {
      var f := Fold(piece);
      var ks := seq(|piece| - 2, i requires 0 <= i < |piece| - 2 => KeyAt(f, i));
      if k in ks {
        var i :| 0 <= i < |ks| && ks[i] == k;
        assert IsWindow(f, i);
      }
      if k in Grams(piece) {
        var i :| 0 <= i < |f| && IsWindow(f, i) && KeyAt(f, i) == k;
        assert ks[i] == k;
      }
    }
  }

  /** The windows of a text are those of its first line and of the rest. */
  lemma WindowsSplitAtLine(s: Bytes, n: nat, k: nat)
    requires n < |s| && s[n] == NEWLINE
    ensures k in Windows(s) <==> k in Windows(s[..n]) || k in Windows(s[n + 1..])
  {
    WindowsOfPart(s, 0, n);
    WindowsOfPart(s, n + 1, |s|);
    assert s[..n] == s[0..n] && s[n + 1..] == s[n + 1..|s|];
    if k in Windows(s) {
      var i :| 0 <= i < |s| && IsWindow(s, i) && KeyAt(s, i) == k;
      if i < n {
        assert i + 2 < n;
        assert IsWindow(s[..n], i) && KeyAt(s[..n], i) == k;
      } else {
        var t := s[n + 1..];
        assert IsWindow(t, i - (n + 1)) && KeyAt(t, i - (n + 1)) == k;
      }
    }
  }

  lemma InSomeCons(k: nat, g: seq<nat>, gs: seq<seq<nat>>)
    ensures InSome(k, [g] + gs) <==> k in g || InSome(k, gs)
  {
    if k in g {
      assert g in [g] + gs;
    }
    if InSome(k, gs) {
      var h :| h in gs && k in h;
      assert h in [g] + gs;
    }
  }

  lemma {:induction false} GroupsCons(piece: Bytes, rest: seq<Bytes>)
    ensures GroupsOf([piece] + rest) == (if |piece| < 3 then [] else [PieceKeys(piece)]) + GroupsOf(rest)
  {
    assert ([piece] + rest)[0] == piece && ([piece] + rest)[1..] == rest;
  }

  lemma {:induction false} SplitFirst(lit: Bytes, n: nat)
    requires n == LineEnd(lit) < |lit|
    ensures Split(lit) == [lit[..n]] + Split(lit[n + 1..])
  {
  }

  lemma {:induction false} LiteralSplits(lit: Bytes, n: nat)
    requires n == LineEnd(lit) < |lit|
    ensures LiteralKeys(lit) == (if n < 3 then [] else [PieceKeys(lit[..n])]) + LiteralKeys(lit[n + 1..])
  {
    var first, rest := lit[..n], Split(lit[n + 1..]);
    GroupsCons(first, rest);
    SplitFirst(lit, n);
    assert |first| == n;
  }

  lemma GramsSplit(lit: Bytes, n: nat, k: nat)
    requires n < |lit| && lit[n] == NEWLINE
    ensures k in Grams(lit) <==> k in Grams(lit[..n]) || k in Grams(lit[n + 1..])
  {
    WindowsSplitAtLine(Fold(lit), n, k);
    assert Fold(lit)[..n] == Fold(lit[..n]) && Fold(lit)[n + 1..] == Fold(lit[n + 1..]);
  }

  lemma OneGroup(piece: Bytes)
    ensures GroupsOf([piece]) == if |piece| < 3 then [] else [PieceKeys(piece)]
  {
    var head := if |piece| < 3 then [] else [PieceKeys(piece)];
    assert [piece][0] == piece && [piece][1..] == [];
    assert GroupsOf([piece]) == head + GroupsOf([]);
    assert head + [] == head;
  }

  lemma {:induction false} WholeLine(lit: Bytes, k: nat)
    requires LineEnd(lit) == |lit|
    ensures InSome(k, LiteralKeys(lit)) <==> k in PieceKeys(lit)
  {
    OneGroup(lit);
    if k in PieceKeys(lit) {
      assert PieceKeys(lit) in LiteralKeys(lit);
    }
  }

  /** The groups of a literal hold exactly the trigrams every text holding the
      literal has, whatever the case of its letters. */
  lemma {:induction false} LiteralKeysAreWindows(lit: Bytes, k: nat)
    ensures InSome(k, LiteralKeys(lit)) <==> k in Grams(lit)
    decreases |lit|
  {
    var n := LineEnd(lit);
    PieceKeysAreWindows(lit[..n], k);
    if n == |lit| {
      WholeLine(lit, k);
      assert lit[..n] == lit;
    } else {
      LiteralKeysAreWindows(lit[n + 1..], k);
      LiteralSplits(lit, n);
      GramsSplit(lit, n, k);
      if n < 3 {
        assert [] + LiteralKeys(lit[n + 1..]) == LiteralKeys(lit[n + 1..]);
      } else {
        InSomeCons(k, PieceKeys(lit[..n]), LiteralKeys(lit[n + 1..]));
      }
    }
  }

  // ------------------------------------------------------------ extraction

  /** The extractor: one bit per key in words of 64, and the words in use. A
      word is modelled by the set of the bits set in it. */
  class Dedup {
    const bits: array<set<nat>>
    var touched: seq<nat>

    ghost predicate Valid()
      reads this, bits
    {
      bits.Length == KEYS / 64 && touched == [] && forall w | 0 <= w < bits.Length :: bits[w] == {}
    }

    constructor ()
      ensures Valid() && fresh(bits)
    {
      bits := new set<nat>[KEYS / 64](_ => {});
      touched := [];
    }

    /** The keys marked while a buffer is scanned are those of the windows
        that start before `n`, each listed once. */
    ghost predicate Marked(buf: Bytes, n: int, out: seq<nat>)
      reads this, bits
    {
      && bits.Length == KEYS / 64
      && (forall w, b | 0 <= w < bits.Length && b in bits[w] :: b < 64)
      && (forall k: nat | k < KEYS :: k % 64 in bits[k / 64] <==> k in out)
      && Distinct(out)
      && (forall k | k in out :: k < KEYS && k in Windows(buf))
      && (forall i | 0 <= i < n && IsWindow(buf, i) :: KeyAt(buf, i) in out)
      && (forall w | 0 <= w < bits.Length && bits[w] != {} :: w in touched)
      && (forall w | w in touched :: w < bits.Length)
    }

    /** The trigrams of a folded buffer, ascending and each once; the bitset
        is left as it was found, so every call starts afresh. */
    method Extract(buf: Bytes) returns (out: seq<nat>)
      requires Valid()
      modifies this, bits
      ensures Valid()
      ensures StrictlyAscending(out)
      ensures forall k :: k in out <==> k in Windows(buf)
    {
      out := [];
      var n := |buf|;
      if n < 3 {
        return;
      }
      var i := 0;
      while i + 2 < n
        invariant 0 <= i
        invariant Marked(buf, i, out)
      {
        var a, b, c := buf[i], buf[i + 1], buf[i + 2];
        if c == NEWLINE {
          i := i + 3;
          continue;
        }
        if b == NEWLINE {
          i := i + 2;
          continue;
        }
        if a == NEWLINE {
          i := i + 1;
          continue;
        }
        assert IsWindow(buf, i);
        out := Mark(buf, i, out);
        i := i + 1;
      }
      Clear();
      out := SortKeys(out);
    }

    method Mark(buf: Bytes, i: nat, before: seq<nat>) returns (out: seq<nat>)
      requires IsWindow(buf, i)
      requires Marked(buf, i, before)
      modifies this, bits
      ensures Marked(buf, i + 1, out)
    {
      out := before;
      var key := Key3(buf[i], buf[i + 1], buf[i + 2]);
      var w, m := key / 64, key % 64;
      assert key in Windows(buf);
      if m !in bits[w] {
        if bits[w] == {} {
          touched := touched + [w];
        }
        bits[w] := bits[w] + {m};
        out := out + [key];
      }
    }

    /** Only the touched words are cleared. */
    method Clear()
      requires bits.Length == KEYS / 64
      requires forall w | 0 <= w < bits.Length && bits[w] != {} :: w in touched
      requires forall w | w in touched :: w < bits.Length
      modifies this, bits
      ensures Valid()
    {
      for j := 0 to |touched|
        invariant touched == old(touched)
        invariant forall w | 0 <= w < bits.Length && bits[w] != {} :: w in touched[j..]
      {
        assert touched[j] in touched && touched[j..] == [touched[j]] + touched[j + 1..];
        bits[touched[j]] := {};
      }
      touched := [];
    }
  }
}
