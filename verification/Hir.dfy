// The regex tree the planner walks (the HIR of the regex-syntax crate) and
// what it matches: a relation between a text and two positions in it.
// Look-arounds are arbitrary zero-width conditions on a position.

module Hir {
  import opened Bytes

  /** A Unicode scalar value: every code point but the surrogates. */
  type Scalar = c: int | 0 <= c <= 0x10FFFF && !(0xD800 <= c <= 0xDFFF)

  predicate IsScalar(c: int) {
    0 <= c <= 0x10FFFF && !(0xD800 <= c <= 0xDFFF)
  }

  datatype CharRange = CharRange(start: Scalar, end: Scalar)
  datatype ByteRange = ByteRange(start: Byte, end: Byte)

  /** A class lists its ranges with their ends in order. */
  type CharRanges = rs: seq<CharRange> | forall r | r in rs :: r.start <= r.end
  type ByteRanges = rs: seq<ByteRange> | forall r | r in rs :: r.start <= r.end

  datatype Node =
    | Empty
    | Look(look: nat)
    | Literal(lit: Bytes)
    | ClassUnicode(chars: CharRanges)
    | ClassBytes(bytes: ByteRanges)
    | Repetition(min: nat, max: Option<nat>, sub: Node)
    | Capture(group: Node)
    | Concat(parts: seq<Node>)
    | Alternation(first: Node, rest: seq<Node>)

  function Utf8(c: Scalar): (r: Bytes)
    ensures r != []
    ensures c < 128 ==> r == [c]
    ensures c >= 128 ==> forall b | b in r :: b >= 128
  {
    if c < 0x80 then [c]
    else if c < 0x800 then [0xC0 + c / 64, 0x80 + c % 64]
    else if c < 0x10000 then [0xE0 + c / 4096, 0x80 + c / 64 % 64, 0x80 + c % 64]
    else [0xF0 + c / 262144, 0x80 + c / 4096 % 64, 0x80 + c / 64 % 64, 0x80 + c % 64]
  }

  /** Which look-arounds hold where, in one text. */
  type Looks = (nat, nat) -> bool

  ghost predicate InChars(rs: CharRanges, c: int) {
    exists r | r in rs :: r.start <= c <= r.end
  }

  ghost predicate InBytes(rs: ByteRanges, b: int) {
    exists r | r in rs :: r.start <= b <= r.end
  }

  /** `h` matches `t[i..j]`. */
  ghost predicate Matches(h: Node, t: Bytes, i: nat, j: nat, looks: Looks)
    decreases h, 0
  {
    i <= j <= |t| &&
    match h {
      case Empty => i == j
      case Look(look) => i == j && looks(look, i)
      case Literal(lit) => t[i..j] == lit
      case ClassUnicode(rs) => exists c: Scalar :: InChars(rs, c) && t[i..j] == Utf8(c)
      case ClassBytes(rs) => j == i + 1 && InBytes(rs, t[i])
      case Repetition(min, max, sub) =>
        exists n: nat :: min <= n && (max.Some? ==> n <= max.value) && MatchesTimes(sub, n, t, i, j, looks)
      case Capture(group) => Matches(group, t, i, j, looks)
      case Concat(parts) => MatchesSeq(parts, t, i, j, looks)
      case Alternation(first, rest) =>
        Matches(first, t, i, j, looks) || exists k :: 0 <= k < |rest| && Matches(rest[k], t, i, j, looks)
    }
  }

  /** `n` consecutive matches of `h`. */
  ghost predicate MatchesTimes(h: Node, n: nat, t: Bytes, i: nat, j: nat, looks: Looks)
    decreases h, n + 1
  {
    i <= j <= |t| &&
    if n == 0 then i == j
    else exists k: nat :: Matches(h, t, i, k, looks) && MatchesTimes(h, n - 1, t, k, j, looks)
  }

  /** Consecutive matches of each of `hs`. */
  ghost predicate MatchesSeq(hs: seq<Node>, t: Bytes, i: nat, j: nat, looks: Looks)
    decreases hs, 0
  {
    i <= j <= |t| &&
    if hs == [] then i == j
    else exists k: nat :: Matches(hs[0], t, i, k, looks) && MatchesSeq(hs[1..], t, k, j, looks)
  }
}
