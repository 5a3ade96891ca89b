// Query evaluation (crates/greeg-index/src/index.rs): a plan against one
// segment's posting lists, and the candidates of a whole index. The roaring
// format of a posting list is a codec that reads back what it wrote.

module Segment {
  import opened Bytes
  import opened Trigrams
  import F = Format
  import P = Plan

  datatype Codec = Codec(enc: set<nat> -> Bytes, dec: Bytes -> Option<set<nat>>)

  ghost predicate Faithful(c: Codec) {
    forall ids: set<nat> :: c.dec(c.enc(ids)) == Some(ids)
  }

  datatype Segment = Segment(firstId: nat, nFiles: nat, grams: F.GramsView, huge: set<nat>, hidden: set<nat>)

  predicate Owns(s: Segment, id: nat) {
    s.firstId <= id < s.firstId + s.nFiles
  }

  /** Every searchable id of a segment. */
  function All(s: Segment): set<nat> {
    (set id | s.firstId <= id < s.firstId + s.nFiles && Owns(s, id)) - s.hidden
  }

  // ------------------------------------------------------------ posting lists

  function Position(keys: seq<nat>, key: nat): (r: Option<nat>)
    ensures r.Some? <==> key in keys
    ensures r.Some? ==> r.value < |keys| && keys[r.value] == key
  {
    if keys == [] then None
    else if keys[|keys| - 1] == key then Some(|keys| - 1)
    else
      assert keys == keys[..|keys| - 1] + [keys[|keys| - 1]];
      Position(keys[..|keys| - 1], key)
  }

  /** The list of a key; a list that does not decode reads as every file. */
  function PostingOf(c: Codec, s: Segment, key: nat): Option<(nat, set<nat>)> {
    match Position(s.grams.keys, key)
    case None => None
    case Some(i) =>
      match c.dec(s.grams.PostingBytes(i))
      case Some(ids) => Some((s.grams.Count(i), ids))
      case None => Some((s.nFiles, All(s)))
  }

  method FindKey(s: Segment, key: nat) returns (r: Option<nat>)
    requires StrictlyAscending(s.grams.keys)
    ensures r == Position(s.grams.keys, key)
  {
    r := s.grams.Find(key);
    if r.Some? && Position(s.grams.keys, key).Some? {
      assert r.value == Position(s.grams.keys, key).value;
    }
  }

  method Posting(c: Codec, s: Segment, key: nat) returns (r: Option<(nat, set<nat>)>)
    requires StrictlyAscending(s.grams.keys)
    ensures r == PostingOf(c, s, key)
  {
    var at := FindKey(s, key);
    if at.None? {
      return None;
    }
    var ids := c.dec(s.grams.PostingBytes(at.value));
    match ids {
      case Some(found) => r := Some((s.grams.Count(at.value), found));
      case None => r := Some((s.nFiles, All(s)));
    }
  }

  // ------------------------------------------------------------ conjunctions

  /** A trigram of a conjunction: how many files hold it, and its key. */
  type Ranked = (nat, nat)

  predicate RankedBefore(a: Ranked, b: Ranked) {
    a.0 < b.0 || (a.0 == b.0 && a.1 < b.1)
  }

  function InsertRanked(x: Ranked, xs: seq<Ranked>): (r: seq<Ranked>)
    ensures multiset(r) == multiset(xs) + multiset{x}
  {
    if xs == [] || !RankedBefore(xs[0], x) then [x] + xs
    else
      assert xs == [xs[0]] + xs[1..];
      [xs[0]] + InsertRanked(x, xs[1..])
  }

  /** `sort_unstable` on (count, key). */
  function SortRanked(xs: seq<Ranked>): (r: seq<Ranked>)
    ensures multiset(r) == multiset(xs)
  {
    if xs == [] then []
    else
      assert xs == [xs[0]] + xs[1..];
      InsertRanked(xs[0], SortRanked(xs[1..]))
  }

  predicate AllPresent(s: Segment, qs: seq<P.Q>) {
    forall x | x in qs && x.Gram? :: x.key in s.grams.keys
  }

  function RankedGrams(s: Segment, qs: seq<P.Q>): seq<Ranked>
    requires AllPresent(s, qs)
  {
    if qs == [] then []
    else
      assert qs == [qs[0]] + qs[1..];
      (if qs[0].Gram? then [(s.grams.Count(Position(s.grams.keys, qs[0].key).value), qs[0].key)] else [])
      + RankedGrams(s, qs[1..])
  }

  function Subqueries(qs: seq<P.Q>): (r: seq<P.Q>)
    ensures forall x :: x in r <==> x in qs && !x.Gram?
  {
    if qs == [] then []
    else
      assert qs == [qs[0]] + qs[1..];
      (if qs[0].Gram? then [] else [qs[0]]) + Subqueries(qs[1..])
  }

  const MAX_LISTS := 6

  /** The lists intersected, from the `n`th rarest on: at most six, and after
      the first only those held by at most half the files. */
  function Kept(lists: seq<Ranked>, n: nat, total: nat): seq<Ranked>
    requires n <= |lists|
    decreases |lists| - n
  {
    if n == |lists| || n >= MAX_LISTS || (n > 0 && lists[n].0 * 2 > total) then []
    else [lists[n]] + Kept(lists, n + 1, total)
  }

  /** Intersection, where no set means no constraint yet. */
  function Meet(a: Option<set<nat>>, b: Option<set<nat>>): Option<set<nat>> {
    if a.None? then b else if b.None? then a else Some(a.value * b.value)
  }

  function MeetLists(c: Codec, s: Segment, acc: Option<set<nat>>, kept: seq<Ranked>): Option<set<nat>>
    requires forall x | x in kept :: x.1 in s.grams.keys
    decreases |kept|
  {
    if kept == [] then acc
    else MeetLists(c, s, Meet(acc, Some(PostingOf(c, s, kept[0].1).value.1)), kept[1..])
  }

  lemma {:induction false} KeptPresent(s: Segment, qs: seq<P.Q>)
    requires AllPresent(s, qs)
    ensures forall x | x in Kept(SortRanked(RankedGrams(s, qs)), 0, Total(s)) :: P.Gram(x.1) in qs
    ensures forall x | x in RankedGrams(s, qs) :: P.Gram(x.1) in qs
  {
    var lists := RankedGrams(s, qs);
    forall x | x in lists ensures P.Gram(x.1) in qs {
      RankedFrom(s, qs, x);
    }
    forall x | x in Kept(SortRanked(lists), 0, Total(s)) ensures P.Gram(x.1) in qs {
      KeptFrom(SortRanked(lists), 0, Total(s), x);
      assert x in multiset(lists);
    }
  }

  lemma {:induction false} RankedFrom(s: Segment, qs: seq<P.Q>, x: Ranked)
    requires AllPresent(s, qs) && x in RankedGrams(s, qs)
    ensures P.Gram(x.1) in qs
  {
    assert qs == [qs[0]] + qs[1..];
    if x in RankedGrams(s, qs[1..]) {
      RankedFrom(s, qs[1..], x);
    }
  }

  lemma {:induction false} KeptFrom(lists: seq<Ranked>, n: nat, total: nat, x: Ranked)
    requires n <= |lists| && x in Kept(lists, n, total)
    ensures x in lists
    decreases |lists| - n
  {
    if x != lists[n] {
      KeptFrom(lists, n + 1, total, x);
    }
  }

  function Total(s: Segment): nat {
    if s.nFiles > 1 then s.nFiles else 1
  }

  // ------------------------------------------------------------ evaluation

  /** The ids a plan leaves in a segment; no set when it leaves every file. */
  function EvalSpec(c: Codec, s: Segment, q: P.Q): Option<set<nat>>
    decreases q, 1
  {
    match q
    case All => None
    case Nothing => Some({})
    case Gram(key) => if key in s.grams.keys then Some(PostingOf(c, s, key).value.1) else Some({})
    case And(qs) =>
      if !AllPresent(s, qs) then Some({})
      else
        KeptPresent(s, qs);
        MeetSubs(c, s, MeetLists(c, s, None, Kept(SortRanked(RankedGrams(s, qs)), 0, Total(s))), qs)
    case Or(qs) => Join(c, s, {}, qs)
  }

  function MeetSubs(c: Codec, s: Segment, acc: Option<set<nat>>, qs: seq<P.Q>): Option<set<nat>>
    decreases qs, 0
  {
    if qs == [] then acc
    else if qs[0].Gram? then MeetSubs(c, s, acc, qs[1..])
    else MeetSubs(c, s, Meet(acc, EvalSpec(c, s, qs[0])), qs[1..])
  }

  function Join(c: Codec, s: Segment, acc: set<nat>, qs: seq<P.Q>): Option<set<nat>>
    decreases qs, 0
  {
    if qs == [] then Some(acc)
    else
      var r := EvalSpec(c, s, qs[0]);
      if r.None? then None else Join(c, s, acc + r.value, qs[1..])
  }

  /** `Segment::eval`. */
  method Eval(c: Codec, s: Segment, q: P.Q) returns (r: Option<set<nat>>)
    requires StrictlyAscending(s.grams.keys)
    ensures r == EvalSpec(c, s, q)
    decreases q, 1
  {
    match q {
      case All => r := None;
      case Nothing => r := Some({});
      case Gram(key) =>
        var p := Posting(c, s, key);
        r := if p.Some? then Some(p.value.1) else Some({});
      case And(v) =>
        r := EvalAnd(c, s, v, q);
      case Or(v) =>
        var acc: set<nat> := {};
        for i := 0 to |v|
          invariant Join(c, s, acc, v[i..]) == Join(c, s, {}, v)
        {
          assert v[i..][0] == v[i] && v[i..][1..] == v[i + 1..];
          var x := Eval(c, s, v[i]);
          if x.None? {
            return None;
          }
          acc := acc + x.value;
        }
        r := Some(acc);
    }
  }

  method EvalAnd(c: Codec, s: Segment, v: seq<P.Q>, ghost q: P.Q) returns (r: Option<set<nat>>)
    requires StrictlyAscending(s.grams.keys) && q == P.And(v)
    ensures r == EvalSpec(c, s, q)
    decreases q, 0
  {
    var lists: seq<Ranked> := [];
    for i := 0 to |v|
      invariant AllPresent(s, v[..i]) && lists == RankedGrams(s, v[..i])
    {
      assert v[..i + 1] == v[..i] + [v[i]];
      match v[i] {
        case Gram(key) =>
          var at := FindKey(s, key);
          if at.None? {
            assert v[i] in v;
            return Some({});
          }
          RankedSnoc(s, v[..i], v[i]);
          lists := lists + [(s.grams.Count(at.value), key)];
        case _ =>
          RankedSnoc(s, v[..i], v[i]);
      }
    }
    assert v[..|v|] == v;
    KeptPresent(s, v);
    var sorted := SortRanked(lists);
    var acc := IntersectLists(c, s, sorted, v);
    if acc.Some? && acc.value == {} {
      MeetSubsEmpty(c, s, v);
      return acc;
    }
    for i := 0 to |v|
      invariant MeetSubs(c, s, acc, v[i..]) == EvalSpec(c, s, q)
    {
      assert v[i..][0] == v[i] && v[i..][1..] == v[i + 1..];
      if !v[i].Gram? {
        var x := Eval(c, s, v[i]);
        if x.Some? {
          acc := if acc.None? then x else Some(acc.value * x.value);
        }
      }
    }
    r := acc;
  }

  /** The loop over the rarest lists, with its two cut-offs and its early end. */
  method IntersectLists(c: Codec, s: Segment, sorted: seq<Ranked>, ghost v: seq<P.Q>) returns (acc: Option<set<nat>>)
    requires StrictlyAscending(s.grams.keys) && AllPresent(s, v)
    requires sorted == SortRanked(RankedGrams(s, v))
    requires forall x | x in Kept(sorted, 0, Total(s)) :: P.Gram(x.1) in v
    ensures acc == MeetLists(c, s, None, Kept(sorted, 0, Total(s)))
  {
    acc := None;
    var n := 0;
    while n < |sorted|
      invariant n <= |sorted|
      invariant forall x | x in Kept(sorted, n, Total(s)) :: x.1 in s.grams.keys
      invariant MeetLists(c, s, acc, Kept(sorted, n, Total(s))) == MeetLists(c, s, None, Kept(sorted, 0, Total(s)))
    {
      if n >= MAX_LISTS || (n > 0 && sorted[n].0 * 2 > Total(s)) {
        return;
      }
      assert Kept(sorted, n, Total(s)) == [sorted[n]] + Kept(sorted, n + 1, Total(s));
      assert (sorted[n].1 in s.grams.keys) && Kept(sorted, n, Total(s))[1..] == Kept(sorted, n + 1, Total(s));
      var p := Posting(c, s, sorted[n].1);
      acc := if acc.None? then Some(p.value.1) else Some(acc.value * p.value.1);
      n := n + 1;
      if acc.value == {} {
        MeetListsEmpty(c, s, Kept(sorted, n, Total(s)));
        return;
      }
    }
  }

  lemma {:induction false} RankedSnoc(s: Segment, qs: seq<P.Q>, x: P.Q)
    requires AllPresent(s, qs + [x])
    ensures AllPresent(s, qs)
    ensures RankedGrams(s, qs + [x]) ==
      RankedGrams(s, qs) + if x.Gram? then [(s.grams.Count(Position(s.grams.keys, x.key).value), x.key)] else []
  {
    assert forall y | y in qs :: y in qs + [x];
    if qs != [] {
      assert (qs + [x])[1..] == qs[1..] + [x];
      assert forall y | y in qs[1..] + [x] :: y in qs + [x];
      RankedSnoc(s, qs[1..], x);
    } else {
      assert ([x])[1..] == [];
      assert RankedGrams(s, [x][1..]) == [];
    }
  }

  lemma MeetEmpty(x: Option<set<nat>>)
    ensures Meet(Some({}), x) == Some({})
  {
    if x.Some? {
      assert {} * x.value == {};
    }
  }

  lemma {:induction false} MeetListsEmpty(c: Codec, s: Segment, kept: seq<Ranked>)
    requires forall x | x in kept :: x.1 in s.grams.keys
    ensures MeetLists(c, s, Some({}), kept) == Some({})
  {
    if kept != [] {
      MeetListsEmpty(c, s, kept[1..]);
      MeetEmpty(Some(PostingOf(c, s, kept[0].1).value.1));
    }
  }

  lemma {:induction false} MeetSubsEmpty(c: Codec, s: Segment, qs: seq<P.Q>)
    ensures MeetSubs(c, s, Some({}), qs) == Some({})
    decreases |qs|
  {
    if qs != [] {
      MeetSubsEmpty(c, s, qs[1..]);
      if !qs[0].Gram? {
        MeetEmpty(EvalSpec(c, s, qs[0]));
      }
    }
  }
}
