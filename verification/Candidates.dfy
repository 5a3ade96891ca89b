// The candidates of a query over a whole index: no file a scan would report is
// ever missing, whatever the evaluator skipped and whichever lists were damaged.

module Candidates {
  import opened Bytes
  import opened Trigrams
  import opened Segment
  import B = Postings
  import F = Format
  import H = Hir
  import P = Plan
  import PS = PlanSound
  import K = Sink
  import Spill

  /** What a build recorded of one file: its trigrams, whether it is above the
      size cap, and whether it is only tracked (an ignore file). */
  datatype FileFacts = FileFacts(grams: set<nat>, huge: bool, hidden: bool)

  predicate HoldsAt(first: nat, files: seq<FileFacts>, key: nat, id: nat) {
    first <= id < first + |files| && key in files[id - first].grams
  }

  predicate HugeAt(first: nat, files: seq<FileFacts>, id: nat) {
    first <= id < first + |files| && files[id - first].huge
  }

  predicate HiddenAt(first: nat, files: seq<FileFacts>, id: nat) {
    first <= id < first + |files| && files[id - first].hidden
  }

  /** The files of a segment that hold a trigram. */
  function Holders(first: nat, files: seq<FileFacts>, key: nat): set<nat> {
    set id | first <= id < first + |files| && HoldsAt(first, files, key, id)
  }

  function HugeIds(first: nat, files: seq<FileFacts>): set<nat> {
    set id | first <= id < first + |files| && HugeAt(first, files, id)
  }

  function HiddenIds(first: nat, files: seq<FileFacts>): set<nat> {
    set id | first <= id < first + |files| && HiddenAt(first, files, id)
  }

  ghost predicate SomeHolds(files: seq<FileFacts>, key: nat) {
    exists i :: 0 <= i < |files| && key in files[i].grams
  }

  /** `s` is the segment of `files`: each list is the files holding its trigram,
      or no longer decodes; tracked-only files have no trigrams. */
  ghost predicate Describes(c: Codec, s: Segment, files: seq<FileFacts>) {
    && s.nFiles == |files|
    && s.huge == HugeIds(s.firstId, files) && s.hidden == HiddenIds(s.firstId, files)
    && (forall f | f in files && f.hidden :: f.grams == {})
    && StrictlyAscending(s.grams.keys) && |s.grams.counts| == |s.grams.keys|
    && (forall key: nat :: key in s.grams.keys <==> SomeHolds(files, key))
    && (forall k | 0 <= k < |s.grams.keys| ::
          c.dec(s.grams.PostingBytes(k)) in {None, Some(Holders(s.firstId, files, s.grams.keys[k]))})
  }

  /** Every list still decodes. */
  ghost predicate Undamaged(c: Codec, s: Segment) {
    forall k | 0 <= k < |s.grams.keys| :: c.dec(s.grams.PostingBytes(k)).Some?
  }

  // ------------------------------------------------------------ built segments

  /** The entries a build serializes for `files`: one per trigram some file
      holds, ascending, each with the encoded set of its files. */
  ghost predicate EntriesOf(c: Codec, es: seq<F.Entry>, first: nat, files: seq<FileFacts>) {
    && StrictlyAscending(F.Keys(es))
    && (forall key: nat :: key in F.Keys(es) <==> SomeHolds(files, key))
    && (forall k | 0 <= k < |es| ::
          es[k].list == c.enc(Holders(first, files, es[k].key)) && es[k].count == |Holders(first, files, es[k].key)|)
  }

  lemma {:induction false} IdCount(ids: Spill.FileIds)
    ensures |IdSet(ids)| == |ids|
  {
    if ids != [] {
      var n := |ids| - 1;
      assert ids == ids[..n] + [ids[n]];
      assert forall f | f in ids[..n] :: f < ids[n];
      IdCount(ids[..n]);
      assert IdSet(ids) == IdSet(ids[..n]) + {ids[n]};
    }
  }

  /** `posting_bytes` over a build's entries: the count and the encoded set. */
  function Serialized(c: Codec, out: B.Entries<u32>): seq<F.Entry>
    requires forall j | 0 <= j < |out| :: |out[j].1| < U32
  {
    seq(|out|, j requires 0 <= j < |out| => F.Entry(out[j].0, |out[j].1|, c.enc(IdSet(out[j].1))))
  }

  /** `pairs` are the (trigram, file) pairs of `files`. */
  ghost predicate PairsOf(pairs: B.Pairs<u32>, first: nat, files: seq<FileFacts>) {
    && (forall i, key | 0 <= i < |files| && key in files[i].grams :: key < KEYS)
    && (forall key: u32, id: nat :: (key, id) in pairs <==> HoldsAt(first, files, key, id))
  }

  lemma EntryIds(out: B.Entries<u32>, first: nat, files: seq<FileFacts>, pairs: B.Pairs<u32>, j: nat)
    requires B.ArePostings(K.GRAM_KEYS, out, pairs) && PairsOf(pairs, first, files) && j < |out|
    ensures IdSet(out[j].1) == Holders(first, files, out[j].0)
    ensures |out[j].1| == |Holders(first, files, out[j].0)| <= first + |files|
  {
    K.KeysLawful();
    forall id: nat ensures id in out[j].1 <==> HoldsAt(first, files, out[j].0, id) {
      B.ListedOnce(K.GRAM_KEYS, out, j, id);
    }
    assert forall i | 0 <= i < |out[j].1| :: out[j].1[i] in out[j].1;
    K.FewIds(out[j].1, first + |files|);
    IdCount(out[j].1);
    assert IdSet(out[j].1) == Holders(first, files, out[j].0);
  }

  lemma KeyListed(out: B.Entries<u32>, first: nat, files: seq<FileFacts>, pairs: B.Pairs<u32>, key: nat)
    requires B.ArePostings(K.GRAM_KEYS, out, pairs) && PairsOf(pairs, first, files)
    ensures (exists j :: 0 <= j < |out| && out[j].0 == key) <==> SomeHolds(files, key)
  {
    if j :| 0 <= j < |out| && out[j].0 == key {
      var id := out[j].1[0];
      assert B.Lists(out, out[j].0, id);
      assert HoldsAt(first, files, key, id);
    }
    if SomeHolds(files, key) {
      var i :| 0 <= i < |files| && key in files[i].grams;
      var k: u32 := key;
      assert HoldsAt(first, files, k, first + i);
      assert B.Lists(out, k, first + i);
    }
  }

  lemma SerializedKeys(c: Codec, out: B.Entries<u32>, key: nat)
    requires forall j | 0 <= j < |out| :: |out[j].1| < U32
    ensures |F.Keys(Serialized(c, out))| == |out|
    ensures forall j | 0 <= j < |out| :: F.Keys(Serialized(c, out))[j] == out[j].0
    ensures key in F.Keys(Serialized(c, out)) <==> exists j :: 0 <= j < |out| && out[j].0 == key
  {
    var keys := F.Keys(Serialized(c, out));
    if j :| 0 <= j < |out| && out[j].0 == key {
      assert keys[j] == key;
    }
  }

  lemma SerializedAscending(c: Codec, out: B.Entries<u32>)
    requires B.EntriesAscending(K.GRAM_KEYS, out) && forall j | 0 <= j < |out| :: |out[j].1| < U32
    ensures StrictlyAscending(F.Keys(Serialized(c, out)))
  {
    SerializedKeys(c, out, 0);
    forall i, j | 0 <= i < j < |out| ensures out[i].0 < out[j].0 {
      assert K.GRAM_KEYS.lt(out[i].0, out[j].0);
    }
  }

  /** The postings of the (trigram, file) pairs of `files` are the entries their
      segment needs. */
  lemma PostingsMakeEntries(c: Codec, out: B.Entries<u32>, first: nat, files: seq<FileFacts>, pairs: B.Pairs<u32>)
    requires B.ArePostings(K.GRAM_KEYS, out, pairs) && PairsOf(pairs, first, files) && first + |files| < U32
    ensures forall j | 0 <= j < |out| :: |out[j].1| < U32
    ensures EntriesOf(c, Serialized(c, out), first, files)
  {
    forall j | 0 <= j < |out|
      ensures IdSet(out[j].1) == Holders(first, files, out[j].0)
      ensures |out[j].1| == |Holders(first, files, out[j].0)| < U32
    {
      EntryIds(out, first, files, pairs, j);
    }
    SerializedAscending(c, out);
    forall key: nat ensures key in F.Keys(Serialized(c, out)) <==> SomeHolds(files, key) {
      SerializedKeys(c, out, key);
      KeyListed(out, first, files, pairs, key);
    }
  }

  /** Written and read back, a segment describes its files exactly. */
  lemma {:induction false} BuiltSegment(c: Codec, es: seq<F.Entry>, first: nat, files: seq<FileFacts>)
    requires Faithful(c) && EntriesOf(c, es, first, files)
    requires forall f | f in files && f.hidden :: f.grams == {}
    requires |es| < U32 && |F.Lists(es)| < U64
    ensures F.ParseGrams(F.SerializeGrams(es)).Ok?
    ensures var s := Segment(first, |files|, F.ParseGrams(F.SerializeGrams(es)).view,
                             HugeIds(first, files), HiddenIds(first, files));
      Describes(c, s, files) && Undamaged(c, s)
  {
    F.SectionRoundTrip(es);
    var view := F.ParseGrams(F.SerializeGrams(es)).view;
    forall k | 0 <= k < |view.keys|
      ensures c.dec(view.PostingBytes(k)) == Some(Holders(first, files, view.keys[k]))
    {
      F.EntryReadsBack(es, k);
    }
  }

  // ------------------------------------------------------------ one segment

  /** `id` is left by a result, where no set leaves every file. */
  predicate Leaves(r: Option<set<nat>>, id: nat) {
    r.Some? ==> id in r.value
  }

  lemma PostingHolds(c: Codec, s: Segment, files: seq<FileFacts>, key: nat, i: nat)
    requires Describes(c, s, files) && i < |files| && key in files[i].grams
    ensures key in s.grams.keys && s.firstId + i in PostingOf(c, s, key).value.1
  {
    assert SomeHolds(files, key);
    assert files[i] in files;
  }

  lemma {:induction false} MeetListsHolds(c: Codec, s: Segment, files: seq<FileFacts>, acc: Option<set<nat>>,
                                         kept: seq<Ranked>, i: nat)
    requires Describes(c, s, files) && i < |files| && Leaves(acc, s.firstId + i)
    requires forall x | x in kept :: x.1 in files[i].grams && x.1 in s.grams.keys
    ensures Leaves(MeetLists(c, s, acc, kept), s.firstId + i)
    decreases |kept|
  {
    if kept != [] {
      PostingHolds(c, s, files, kept[0].1, i);
      MeetListsHolds(c, s, files, Meet(acc, Some(PostingOf(c, s, kept[0].1).value.1)), kept[1..], i);
    }
  }

  /** A file that satisfies the query is never left out of its segment. */
  lemma {:induction false} EvalKeeps(c: Codec, s: Segment, files: seq<FileFacts>, q: P.Q, i: nat)
    requires Describes(c, s, files) && i < |files| && P.Sat(q, files[i].grams)
    ensures Leaves(EvalSpec(c, s, q), s.firstId + i)
    decreases q, 1
  {
    match q {
      case All =>
      case Nothing =>
      case Gram(key) => PostingHolds(c, s, files, key, i);
      case And(qs) =>
        forall x | x in qs && x.Gram? ensures x.key in s.grams.keys && x.key in files[i].grams {
          assert P.Sat(x, files[i].grams);
          PostingHolds(c, s, files, x.key, i);
        }
        KeptPresent(s, qs);
        var kept := Kept(SortRanked(RankedGrams(s, qs)), 0, Total(s));
        MeetListsHolds(c, s, files, None, kept, i);
        SubsKeep(c, s, files, MeetLists(c, s, None, kept), qs, i);
      case Or(qs) =>
        JoinKeeps(c, s, files, {}, qs, i);
    }
  }

  lemma {:induction false} SubsKeep(c: Codec, s: Segment, files: seq<FileFacts>, acc: Option<set<nat>>,
                                   qs: seq<P.Q>, i: nat)
    requires Describes(c, s, files) && i < |files| && Leaves(acc, s.firstId + i)
    requires forall x | x in qs :: P.Sat(x, files[i].grams)
    ensures Leaves(MeetSubs(c, s, acc, qs), s.firstId + i)
    decreases qs, 0
  {
    if qs != [] {
      if qs[0].Gram? {
        SubsKeep(c, s, files, acc, qs[1..], i);
      } else {
        EvalKeeps(c, s, files, qs[0], i);
        SubsKeep(c, s, files, Meet(acc, EvalSpec(c, s, qs[0])), qs[1..], i);
      }
    }
  }

  lemma {:induction false} JoinKeeps(c: Codec, s: Segment, files: seq<FileFacts>, acc: set<nat>,
                                    qs: seq<P.Q>, i: nat)
    requires Describes(c, s, files) && i < |files|
    requires s.firstId + i in acc || exists x | x in qs :: P.Sat(x, files[i].grams)
    ensures Leaves(Join(c, s, acc, qs), s.firstId + i)
    decreases qs, 0
  {
    if qs != [] {
      assert qs == [qs[0]] + qs[1..];
      var r := EvalSpec(c, s, qs[0]);
      if P.Sat(qs[0], files[i].grams) {
        EvalKeeps(c, s, files, qs[0], i);
      }
      if r.Some? {
        JoinKeeps(c, s, files, acc + r.value, qs[1..], i);
      }
    }
  }

  // ------------------------------------------------------------ only a segment's own ids

  ghost predicate Owned(s: Segment, r: Option<set<nat>>) {
    r.Some? ==> forall id | id in r.value :: Owns(s, id)
  }

  lemma PostingOwned(c: Codec, s: Segment, files: seq<FileFacts>, key: nat)
    requires Describes(c, s, files) && key in s.grams.keys
    ensures Owned(s, Some(PostingOf(c, s, key).value.1))
  {
  }

  lemma {:induction false} MeetListsOwned(c: Codec, s: Segment, files: seq<FileFacts>, acc: Option<set<nat>>,
                                         kept: seq<Ranked>)
    requires Describes(c, s, files) && Owned(s, acc)
    requires forall x | x in kept :: x.1 in s.grams.keys
    ensures Owned(s, MeetLists(c, s, acc, kept))
    decreases |kept|
  {
    if kept != [] {
      PostingOwned(c, s, files, kept[0].1);
      MeetListsOwned(c, s, files, Meet(acc, Some(PostingOf(c, s, kept[0].1).value.1)), kept[1..]);
    }
  }

  /** A segment answers with its own files only. */
  lemma {:induction false} EvalOwned(c: Codec, s: Segment, files: seq<FileFacts>, q: P.Q)
    requires Describes(c, s, files)
    ensures Owned(s, EvalSpec(c, s, q))
    decreases q, 1
  {
    match q {
      case All =>
      case Nothing =>
      case Gram(key) =>
        if key in s.grams.keys {
          PostingOwned(c, s, files, key);
        }
      case And(qs) =>
        if AllPresent(s, qs) {
          KeptPresent(s, qs);
          var kept := Kept(SortRanked(RankedGrams(s, qs)), 0, Total(s));
          MeetListsOwned(c, s, files, None, kept);
          SubsOwned(c, s, files, MeetLists(c, s, None, kept), qs);
        }
      case Or(qs) =>
        JoinOwned(c, s, files, {}, qs);
    }
  }

  lemma {:induction false} SubsOwned(c: Codec, s: Segment, files: seq<FileFacts>, acc: Option<set<nat>>, qs: seq<P.Q>)
    requires Describes(c, s, files) && Owned(s, acc)
    ensures Owned(s, MeetSubs(c, s, acc, qs))
    decreases qs, 0
  {
    if qs != [] {
      if qs[0].Gram? {
        SubsOwned(c, s, files, acc, qs[1..]);
      } else {
        EvalOwned(c, s, files, qs[0]);
        SubsOwned(c, s, files, Meet(acc, EvalSpec(c, s, qs[0])), qs[1..]);
      }
    }
  }

  lemma {:induction false} JoinOwned(c: Codec, s: Segment, files: seq<FileFacts>, acc: set<nat>, qs: seq<P.Q>)
    requires Describes(c, s, files) && Owned(s, Some(acc))
    ensures Owned(s, Join(c, s, acc, qs))
    decreases qs, 0
  {
    if qs != [] {
      EvalOwned(c, s, files, qs[0]);
      var r := EvalSpec(c, s, qs[0]);
      if r.Some? {
        JoinOwned(c, s, files, acc + r.value, qs[1..]);
      }
    }
  }

  // ------------------------------------------------------------ exactness

  /** No conjunction of the plan has a list the evaluator skips. */
  ghost predicate Unskipped(s: Segment, q: P.Q)
    decreases q
  {
    match q
    case All => true
    case Nothing => true
    case Gram(_) => true
    case And(qs) =>
      && (AllPresent(s, qs) ==>
            var lists := SortRanked(RankedGrams(s, qs)); Kept(lists, 0, Total(s)) == lists)
      && (forall x | x in qs :: Unskipped(s, x))
    case Or(qs) => forall x | x in qs :: Unskipped(s, x)
  }

  lemma {:induction false} MeetListsExact(c: Codec, s: Segment, files: seq<FileFacts>, acc: Option<set<nat>>,
                                         kept: seq<Ranked>, i: nat)
    requires Describes(c, s, files) && Undamaged(c, s) && i < |files|
    requires forall x | x in kept :: x.1 in s.grams.keys
    ensures Leaves(MeetLists(c, s, acc, kept), s.firstId + i) <==>
            Leaves(acc, s.firstId + i) && forall x | x in kept :: x.1 in files[i].grams
    decreases |kept|
  {
    if kept != [] {
      assert kept == [kept[0]] + kept[1..];
      MeetListsExact(c, s, files, Meet(acc, Some(PostingOf(c, s, kept[0].1).value.1)), kept[1..], i);
    }
  }

  lemma {:induction false} RankedHolds(s: Segment, qs: seq<P.Q>, key: nat)
    requires AllPresent(s, qs) && P.Gram(key) in qs
    ensures exists x | x in RankedGrams(s, qs) :: x.1 == key
  {
    if qs[0] == P.Gram(key) {
      assert RankedGrams(s, qs)[0].1 == key;
    } else {
      assert qs == [qs[0]] + qs[1..];
      RankedHolds(s, qs[1..], key);
      var x :| x in RankedGrams(s, qs[1..]) && x.1 == key;
      assert x in RankedGrams(s, qs);
    }
  }

  /** When nothing is skipped and nothing is damaged the evaluator is exact: it
      leaves precisely the files that satisfy the query. */
  lemma {:induction false} EvalExact(c: Codec, s: Segment, files: seq<FileFacts>, q: P.Q, i: nat)
    requires Describes(c, s, files) && Undamaged(c, s) && Unskipped(s, q) && i < |files|
    ensures Leaves(EvalSpec(c, s, q), s.firstId + i) <==> P.Sat(q, files[i].grams)
    decreases q, 1
  {
    match q {
      case All =>
      case Nothing =>
      case Gram(key) =>
        if key in files[i].grams {
          PostingHolds(c, s, files, key, i);
        }
      case And(qs) =>
        ConjunctionExact(c, s, files, qs, q, i);
      case Or(qs) =>
        JoinExact(c, s, files, {}, qs, i);
    }
  }

  lemma {:induction false} ConjunctionExact(c: Codec, s: Segment, files: seq<FileFacts>, qs: seq<P.Q>, q: P.Q, i: nat)
    requires q == P.And(qs)
    requires Describes(c, s, files) && Undamaged(c, s) && Unskipped(s, q) && i < |files|
    ensures Leaves(EvalSpec(c, s, q), s.firstId + i) <==> P.Sat(q, files[i].grams)
    decreases q, 0
  {
    var g := files[i].grams;
    if P.Sat(q, g) {
      EvalKeeps(c, s, files, q, i);
    }
    if AllPresent(s, qs) && Leaves(EvalSpec(c, s, q), s.firstId + i) {
      KeptPresent(s, qs);
      var lists := SortRanked(RankedGrams(s, qs));
      var met := MeetLists(c, s, None, lists);
      SubsExact(c, s, files, met, qs, i);
      MeetListsExact(c, s, files, None, lists, i);
      forall x | x in qs ensures P.Sat(x, g) {
        if x.Gram? {
          RankedHolds(s, qs, x.key);
          var y :| y in RankedGrams(s, qs) && y.1 == x.key;
          assert y in multiset(lists);
        }
      }
    }
  }

  lemma {:induction false} SubsExact(c: Codec, s: Segment, files: seq<FileFacts>, acc: Option<set<nat>>,
                                    qs: seq<P.Q>, i: nat)
    requires Describes(c, s, files) && Undamaged(c, s) && i < |files|
    requires forall x | x in qs :: Unskipped(s, x)
    ensures Leaves(MeetSubs(c, s, acc, qs), s.firstId + i) <==>
            Leaves(acc, s.firstId + i) && forall x | x in qs && !x.Gram? :: P.Sat(x, files[i].grams)
    decreases qs, 0
  {
    if qs != [] {
      assert qs == [qs[0]] + qs[1..];
      if qs[0].Gram? {
        SubsExact(c, s, files, acc, qs[1..], i);
      } else {
        EvalExact(c, s, files, qs[0], i);
        SubsExact(c, s, files, Meet(acc, EvalSpec(c, s, qs[0])), qs[1..], i);
      }
    }
  }

  lemma {:induction false} JoinExact(c: Codec, s: Segment, files: seq<FileFacts>, acc: set<nat>,
                                    qs: seq<P.Q>, i: nat)
    requires Describes(c, s, files) && Undamaged(c, s) && i < |files|
    requires forall x | x in qs :: Unskipped(s, x)
    ensures Leaves(Join(c, s, acc, qs), s.firstId + i) <==>
            s.firstId + i in acc || exists x | x in qs :: P.Sat(x, files[i].grams)
    decreases qs, 0
  {
    if qs != [] {
      assert qs == [qs[0]] + qs[1..];
      EvalExact(c, s, files, qs[0], i);
      var r := EvalSpec(c, s, qs[0]);
      if r.None? {
        assert qs[0] in qs && P.Sat(qs[0], files[i].grams);
      } else {
        JoinExact(c, s, files, acc + r.value, qs[1..], i);
      }
    }
  }

  // ------------------------------------------------------------ the index

  datatype Index = Index(base: Segment, deltas: seq<Segment>, tomb: set<nat>)

  function SegmentCandidates(c: Codec, s: Segment, q: P.Q): set<nat> {
    (match EvalSpec(c, s, q)
     case Some(ids) => ids
     case None => All(s)) + s.huge
  }

  function DeltaCandidates(c: Codec, ds: seq<Segment>, q: P.Q): (r: set<nat>) {
    if ds == [] then {} else DeltaCandidates(c, ds[..|ds| - 1], q) + SegmentCandidates(c, ds[|ds| - 1], q)
  }

  /** `candidates_with` for the trigram plan: base and deltas, less the
      superseded ids. */
  function CandidatesOf(c: Codec, ix: Index, q: P.Q): set<nat> {
    SegmentCandidates(c, ix.base, q) + DeltaCandidates(c, ix.deltas, q) - ix.tomb
  }

  method FromOne(c: Codec, s: Segment, q: P.Q) returns (r: set<nat>)
    requires StrictlyAscending(s.grams.keys)
    ensures r == SegmentCandidates(c, s, q)
  {
    var ids := Eval(c, s, q);
    r := (if ids.Some? then ids.value else All(s)) + s.huge;
  }

  lemma {:induction false} DeltaSnoc(c: Codec, ds: seq<Segment>, q: P.Q, k: nat)
    requires k < |ds|
    ensures DeltaCandidates(c, ds[..k + 1], q) == DeltaCandidates(c, ds[..k], q) + SegmentCandidates(c, ds[k], q)
  {
    assert ds[..k + 1][..k] == ds[..k];
  }

  lemma UnionStep(acc: set<nat>, deltas: set<nat>, more: set<nat>)
    ensures acc + deltas + more == acc + (deltas + more)
  {
  }

  method AddDeltas(c: Codec, ds: seq<Segment>, q: P.Q, first: set<nat>) returns (acc: set<nat>)
    requires forall d | d in ds :: StrictlyAscending(d.grams.keys)
    ensures acc == first + DeltaCandidates(c, ds, q)
  {
    acc := first;
    for k := 0 to |ds|
      invariant acc == first + DeltaCandidates(c, ds[..k], q)
    {
      var more := FromOne(c, ds[k], q);
      DeltaSnoc(c, ds, q, k);
      UnionStep(first, DeltaCandidates(c, ds[..k], q), more);
      acc := acc + more;
    }
    assert ds[..|ds|] == ds;
  }

  method FindCandidates(c: Codec, ix: Index, q: P.Q) returns (acc: set<nat>)
    requires StrictlyAscending(ix.base.grams.keys)
    requires forall d | d in ix.deltas :: StrictlyAscending(d.grams.keys)
    ensures acc == CandidatesOf(c, ix, q)
  {
    acc := FromOne(c, ix.base, q);
    acc := AddDeltas(c, ix.deltas, q, acc);
    acc := acc - ix.tomb;
  }

  function SegmentAt(ix: Index, n: nat): Segment
    requires n <= |ix.deltas|
  {
    if n == 0 then ix.base else ix.deltas[n - 1]
  }

  lemma {:induction false} FromDelta(c: Codec, ds: seq<Segment>, q: P.Q, n: nat, id: nat)
    requires n < |ds| && id in SegmentCandidates(c, ds[n], q)
    ensures id in DeltaCandidates(c, ds, q)
  {
    if n < |ds| - 1 {
      FromDelta(c, ds[..|ds| - 1], q, n, id);
    }
  }

  lemma FromSegment(c: Codec, ix: Index, q: P.Q, n: nat, id: nat)
    requires n <= |ix.deltas| && id in SegmentCandidates(c, SegmentAt(ix, n), q)
    ensures id in CandidatesOf(c, ix, q) <==> id !in ix.tomb
  {
    if n > 0 {
      FromDelta(c, ix.deltas, q, n - 1, id);
    }
  }

  /** A file that a query must not miss. */
  ghost predicate Asked(q: P.Q, f: FileFacts) {
    f.huge || (P.Sat(q, f.grams) && !f.hidden)
  }

  lemma SegmentKeeps(c: Codec, s: Segment, files: seq<FileFacts>, q: P.Q, i: nat)
    requires Describes(c, s, files) && i < |files| && Asked(q, files[i])
    ensures s.firstId + i in SegmentCandidates(c, s, q)
  {
    if !files[i].huge {
      EvalKeeps(c, s, files, q, i);
    }
  }

  lemma {:induction false} DeltasOwned(c: Codec, ds: seq<Segment>, q: P.Q, facts: seq<seq<FileFacts>>, id: nat)
    returns (n: nat)
    requires |facts| == |ds| && forall k | 0 <= k < |ds| :: Describes(c, ds[k], facts[k])
    requires id in DeltaCandidates(c, ds, q)
    ensures n < |ds| && Owns(ds[n], id)
  {
    var k := |ds| - 1;
    if id in SegmentCandidates(c, ds[k], q) {
      EvalOwned(c, ds[k], facts[k], q);
      n := k;
    } else {
      n := DeltasOwned(c, ds[..k], q, facts[..k], id);
    }
  }

  /** A candidate is a file of some segment, and not superseded. */
  lemma CandidatesOwned(c: Codec, ix: Index, q: P.Q, facts: seq<seq<FileFacts>>, id: nat) returns (n: nat)
    requires |facts| == |ix.deltas| + 1
    requires forall k | 0 <= k < |facts| :: Describes(c, SegmentAt(ix, k), facts[k])
    requires id in CandidatesOf(c, ix, q)
    ensures n <= |ix.deltas| && Owns(SegmentAt(ix, n), id) && id !in ix.tomb
  {
    if id in SegmentCandidates(c, ix.base, q) {
      assert SegmentAt(ix, 0) == ix.base;
      EvalOwned(c, ix.base, facts[0], q);
      n := 0;
    } else {
      forall k | 0 <= k < |ix.deltas| ensures Describes(c, ix.deltas[k], facts[1..][k]) {
        assert SegmentAt(ix, k + 1) == ix.deltas[k];
      }
      n := DeltasOwned(c, ix.deltas, q, facts[1..], id);
      n := n + 1;
    }
  }

  /** A plan's candidates hold every live searchable file whose trigrams satisfy
      it and every live file above the size cap, and nothing superseded. */
  lemma CandidatesComplete(c: Codec, ix: Index, q: P.Q, n: nat, files: seq<FileFacts>, i: nat)
    requires n <= |ix.deltas| && Describes(c, SegmentAt(ix, n), files) && i < |files| && Asked(q, files[i])
    ensures var id := SegmentAt(ix, n).firstId + i;
      id in CandidatesOf(c, ix, q) <==> id !in ix.tomb
  {
    var s := SegmentAt(ix, n);
    SegmentKeeps(c, s, files, q, i);
    FromSegment(c, ix, q, n, s.firstId + i);
  }

  /** The whole path, from pattern to candidates: a live searchable file whose
      text holds a match is a candidate of the pattern's plan, and a candidate is a
      live file. */
  method Search(c: Codec, ix: Index, h: H.Node, ghost facts: seq<seq<FileFacts>>) returns (found: set<nat>)
    requires |facts| == |ix.deltas| + 1
    requires forall n | 0 <= n < |facts| :: Describes(c, SegmentAt(ix, n), facts[n])
    ensures forall id | id in found :: id !in ix.tomb && exists n: nat :: n <= |ix.deltas| && Owns(SegmentAt(ix, n), id)
    ensures forall n, i, text | 0 <= n < |facts| && 0 <= i < |facts[n]| && !facts[n][i].hidden
              && facts[n][i].grams == Grams(text) && PS.Found(h, text) && SegmentAt(ix, n).firstId + i !in ix.tomb ::
              SegmentAt(ix, n).firstId + i in found
    ensures forall n, i | 0 <= n < |facts| && 0 <= i < |facts[n]| && facts[n][i].huge
              && SegmentAt(ix, n).firstId + i !in ix.tomb ::
              SegmentAt(ix, n).firstId + i in found
  {
    var q := PS.MakePlan(h);
    assert Describes(c, SegmentAt(ix, 0), facts[0]);
    forall d | d in ix.deltas ensures StrictlyAscending(d.grams.keys) {
      var k :| 0 <= k < |ix.deltas| && ix.deltas[k] == d;
      assert Describes(c, SegmentAt(ix, k + 1), facts[k + 1]);
    }
    found := FindCandidates(c, ix, q);
    forall id | id in found
      ensures id !in ix.tomb && exists n: nat :: n <= |ix.deltas| && Owns(SegmentAt(ix, n), id)
    {
      var n := CandidatesOwned(c, ix, q, facts, id);
    }
    forall n, i, text | 0 <= n < |facts| && 0 <= i < |facts[n]| && !facts[n][i].hidden
        && facts[n][i].grams == Grams(text) && PS.Found(h, text) && SegmentAt(ix, n).firstId + i !in ix.tomb
      ensures SegmentAt(ix, n).firstId + i in found
    {
      CandidatesComplete(c, ix, q, n, facts[n], i);
    }
    forall n, i | 0 <= n < |facts| && 0 <= i < |facts[n]| && facts[n][i].huge
        && SegmentAt(ix, n).firstId + i !in ix.tomb
      ensures SegmentAt(ix, n).firstId + i in found
    {
      CandidatesComplete(c, ix, q, n, facts[n], i);
    }
  }
}
