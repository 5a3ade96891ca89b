// The k-way merge of spilled segments and the two ways a build collects its
// postings (crates/greeg-index/src/external.rs, `entries_of` in build.rs): the
// result depends only on what was pushed, not on how it was split or spilled.

module Merge {
  import opened Bytes
  import opened Trigrams
  import opened Spill
  import opened Sink

  // ------------------------------------------------------------ the heap

  /** A reader's current key and the reader's index. */
  type Head = (Bytes, nat)

  predicate HeadBefore(a: Head, b: Head) {
    Less(a.0, b.0) || (a.0 == b.0 && a.1 < b.1)
  }

  lemma HeadTransitive(a: Head, b: Head, c: Head)
    requires HeadBefore(a, b) && HeadBefore(b, c)
    ensures HeadBefore(a, c)
  {
    if Less(a.0, b.0) && Less(b.0, c.0) {
      LessTransitive(a.0, b.0, c.0);
    }
  }

  ghost predicate Heaped(h: seq<Head>) {
    forall i, j | 0 <= i < j < |h| :: HeadBefore(h[i], h[j])
  }

  /** The binary heap of `Reverse` heads, as the order it pops them in. */
  function PushHead(h: seq<Head>, x: Head): (r: seq<Head>)
    requires Heaped(h) && x !in h
    ensures Heaped(r)
    ensures forall y :: y in r <==> y == x || y in h
  {
    if h == [] then [x]
    else if HeadBefore(x, h[0]) then
      forall j | 0 <= j < |h| ensures HeadBefore(x, h[j]) {
        if 0 < j {
          HeadTransitive(x, h[0], h[j]);
        }
      }
      [x] + h
    else
      assert h == [h[0]] + h[1..];
      var rest := PushHead(h[1..], x);
      assert HeadBefore(h[0], x) by {
        LessTotal(x.0, h[0].0);
      }
      assert forall y | y in h[1..] :: HeadBefore(h[0], y);
      [h[0]] + rest
  }

  // ------------------------------------------------------------ the merger

  ghost predicate RestHas(rest: seq<seq<Record>>, key: Bytes, f: nat) {
    exists i :: 0 <= i < |rest| && HasPair(rest[i], key, f)
  }

  ghost function Remaining(rest: seq<seq<Record>>): nat {
    if rest == [] then 0 else |rest[0]| + Remaining(rest[1..])
  }

  lemma {:induction false} RemainingAfter(rest: seq<seq<Record>>, i: nat, rs: seq<Record>)
    requires i < |rest|
    ensures Remaining(rest[i := rs]) == Remaining(rest) - |rest[i]| + |rs|
  {
    if i == 0 {
      assert rest[0 := rs][1..] == rest[1..];
    } else {
      assert rest[i := rs][1..] == rest[1..][i - 1 := rs];
      RemainingAfter(rest[1..], i - 1, rs);
    }
  }

  /** The heap holds the current key of every reader that has records left. */
  ghost predicate HeapMatches(heap: seq<Head>, rest: seq<seq<Record>>) {
    && Heaped(heap)
    && (forall x | x in heap :: x.1 < |rest| && rest[x.1] != [] && rest[x.1][0].key == x.0)
    && (forall i | 0 <= i < |rest| && rest[i] != [] :: (rest[i][0].key, i) in heap)
  }

  lemma {:induction false} HeapAdd(heap: seq<Head>, rest: seq<seq<Record>>, rs: seq<Record>)
    requires HeapMatches(heap, rest) && rs != []
    ensures (rs[0].key, |rest|) !in heap
    ensures HeapMatches(PushHead(heap, (rs[0].key, |rest|)), rest + [rs])
  {
  }

  lemma TailDrops(heap: seq<Head>, x: Head)
    requires Heaped(heap) && heap != []
    ensures x in heap[1..] <==> x in heap && x != heap[0]
  {
    assert heap == [heap[0]] + heap[1..];
    LessIrreflexive(heap[0].0);
  }

  function AfterStep(heap: seq<Head>, i: nat, rs: seq<Record>): seq<Head>
    requires Heaped(heap) && heap != [] && (rs != [] ==> (rs[0].key, i) !in heap[1..])
  {
    if rs == [] then heap[1..] else PushHead(heap[1..], (rs[0].key, i))
  }

  lemma HeapStep(heap: seq<Head>, rest: seq<seq<Record>>, i: nat)
    requires HeapMatches(heap, rest) && heap != [] && heap[0].1 == i
    ensures i < |rest| && rest[i] != [] && rest[i][0].key == heap[0].0
    ensures forall x | x in heap[1..] :: x.1 != i
    ensures HeapMatches(AfterStep(heap, i, rest[i][1..]), rest[i := rest[i][1..]])
  {
    TailHeads(heap, rest, i);
    MovedHeads(heap[1..], rest, i, rest[i][1..]);
  }

  /** Putting a reader back at its next record. */
  lemma {:induction false} MovedHeads(others: seq<Head>, rest: seq<seq<Record>>, i: nat, rs: seq<Record>)
    requires Heaped(others) && i < |rest|
    requires forall x | x in others :: x.1 != i && x.1 < |rest| && rest[x.1] != [] && rest[x.1][0].key == x.0
    requires forall j: nat | j < |rest| && rest[j] != [] && j != i :: (rest[j][0].key, j) in others
    requires rs != [] ==> (rs[0].key, i) !in others
    ensures HeapMatches(if rs == [] then others else PushHead(others, (rs[0].key, i)), rest[i := rs])
  {
    var now: seq<seq<Record>> := rest[i := rs];
    var heap := if rs == [] then others else PushHead(others, (rs[0].key, i));
    forall j: nat | j < |now| && now[j] != [] ensures (now[j][0].key, j) in heap {
      assert j != i ==> (rest[j][0].key, j) in others;
    }
  }

  /** Below the top the heap holds the other readers' keys. */
  lemma TailHeads(heap: seq<Head>, rest: seq<seq<Record>>, i: nat)
    requires HeapMatches(heap, rest) && heap != [] && heap[0].1 == i
    ensures i < |rest| && rest[i] != [] && rest[i][0].key == heap[0].0 && Heaped(heap[1..])
    ensures forall x | x in heap[1..] :: x.1 != i && x.1 < |rest| && rest[x.1] != [] && rest[x.1][0].key == x.0
    ensures forall j: nat | j < |rest| && rest[j] != [] && j != i :: (rest[j][0].key, j) in heap[1..]
  {
    assert heap[0] in heap;
    forall x ensures x in heap[1..] <==> x in heap && x != heap[0] {
      TailDrops(heap, x);
    }
  }

  /** What `next` gives: no more keys, a damaged segment, or the least key. */
  datatype Taken = Drained | Broken | Key(key: Bytes, files: FileIds)

  class Merger {
    var readers: seq<Reader>
    var heap: seq<Head>
    /** What each reader has still to give, its current record first, and how its
        segment ends. */
    ghost var rest: seq<seq<Record>>
    ghost var ends: seq<Ending>

    ghost predicate Valid()
      reads this, readers
    {
      && |rest| == |readers| == |ends| && HeapMatches(heap, rest)
      && (forall i, j | 0 <= i < j < |readers| :: readers[i] != readers[j])
      && (forall i {:trigger Gives(readers[i], rest[i], ends[i])} | 0 <= i < |rest| ::
            Gives(readers[i], rest[i], ends[i]))
    }

    constructor ()
      ensures Valid() && rest == [] && readers == []
    {
      readers, heap, rest, ends := [], [], [], [];
    }

    lemma InOrder()
      requires Valid()
      ensures forall i | 0 <= i < |ends| :: !ends[i].OutOfOrder?
    {
      assert forall i | 0 <= i < |rest| :: Gives(readers[i], rest[i], ends[i]);
    }

    /** Open one segment: an empty one is dropped, and one damaged from the start
        is an error. */
    method Add(segment: Bytes, capacity: nat) returns (ok: bool)
      requires Valid() && Readable(segment) && capacity > 0
      modifies this
      ensures Valid()
      ensures readers == old(readers) || exists r :: fresh(r) && readers == old(readers) + [r]
      ensures ok <==> RecordsOf(segment) != [] || EndOf(segment).Clean?
      ensures rest == old(rest) + if RecordsOf(segment) == [] then [] else [RecordsOf(segment)]
      ensures ends == old(ends) + if RecordsOf(segment) == [] then [] else [EndOf(segment)]
    {
      ghost var rs := RecordsOf(segment);
      var r, step := OpenReader(segment, capacity);
      if step.Advanced? {
        HeapAdd(heap, rest, rs);
        heap := PushHead(heap, (r.key, |readers|));
        readers := readers + [r];
        rest := rest + [rs];
        ends := ends + [EndOf(segment)];
      }
      ok := !step.Failed?;
    }

    /** Reader `i`, at the top of the heap, gave its current record: move it on. */
    method Step(i: nat) returns (ok: bool)
      requires Valid() && heap != [] && heap[0].1 == i < |readers|
      modifies this`heap, this`rest, readers[i]
      ensures Valid() && |rest| == |old(rest)|
      ensures rest == old(rest)[i := old(rest)[i][1..]]
      ensures old(rest)[i] != [] && old(rest)[i][0].key == old(heap[0].0)
      ensures ok <==> rest[i] != [] || !ends[i].Damaged?
    {
      ghost var rs := rest[i];
      HeapStep(heap, rest, i);
      var r := readers[i];
      assert Gives(r, rs, ends[i]);
      var step := Move(r, rs, ends[i]);
      heap := if step.Advanced? then PushHead(heap[1..], (r.key, i)) else heap[1..];
      rest := rest[i := rs[1..]];
      ok := !step.Failed?;
    }

    /** `next`: the least key of all segments and every id stored under it; an
        error exactly when a segment that holds that key is damaged behind it. */
    method NextKey() returns (r: Taken)
      requires Valid()
      modifies this, readers
      ensures Valid() && readers == old(readers) && ends == old(ends) && |rest| == |old(rest)|
      ensures r.Drained? ==> rest == old(rest) && NothingLeft(rest)
      ensures r.Broken? <==> exists i :: BreaksFirst(old(rest), ends, i)
      ensures r.Key? ==> Remaining(rest) < Remaining(old(rest))
      ensures r.Key? ==> r.files != [] && Takes(old(rest), rest, r.key, r.files)
      ensures r.Key? ==> AllPast(old(rest), rest, r.key)
    {
      if heap == [] {
        return Drained;
      }
      var key := heap[0].0;
      ghost var was := rest;
      assert GoodRest(was) by {
        assert forall i | 0 <= i < |rest| :: Gives(readers[i], rest[i], ends[i]);
      }
      HeapLeast(heap, rest);
      BreaksAtLeast(rest, ends, heap[0].1);
      var ok, files := TakeAll(key);
      if !ok {
        return Broken;
      }
      r := Key(key, SortDedup(files));
      TakesFromMoves(was, rest, key, SortDedup(files));
    }

    /** Take the record of the reader on top. */
    method TakeTop(key: Bytes, files: seq<nat>, ghost was: seq<seq<Record>>) returns (ok: bool, now: seq<nat>)
      requires Valid() && heap != [] && heap[0].0 == key && |was| == |rest|
      requires TakenSome(was, rest, ends, key) && FilesTaken(files, was, rest)
      modifies this`heap, this`rest, readers
      ensures Valid() && readers == old(readers) && |rest| == |was|
      ensures ok ==> TakenSome(was, rest, ends, key) && FilesTaken(now, was, rest)
      ensures ok ==> Remaining(rest) < Remaining(old(rest)) && now != []
      ensures !ok ==> exists i :: 0 <= i < |was| && BreaksAt(was[i], ends[i], key)
    {
      var i := heap[0].1;
      HeapLeast(heap, rest);
      ghost var before := rest;
      assert Gives(readers[i], rest[i], ends[i]);
      now := files + readers[i].files;
      ok := Step(i);
      TakeStep(was, before, ends, i, key, files);
    }

    /** Take the record of every reader that is at `key`. */
    method TakeAll(key: Bytes) returns (ok: bool, files: seq<nat>)
      requires Valid() && heap != [] && heap[0].0 == key
      modifies this`heap, this`rest, readers
      ensures Valid() && readers == old(readers) && |rest| == |old(rest)|
      ensures ok <==> forall i | 0 <= i < |rest| :: !BreaksAt(old(rest)[i], ends[i], key)
      ensures ok ==> files != [] && Remaining(rest) < Remaining(old(rest))
      ensures ok ==> AllPast(old(rest), rest, key)
      ensures ok ==> FilesTaken(files, old(rest), rest)
    {
      files := [];
      ghost var was := rest;
      HeapLeast(heap, rest);
      while heap != [] && heap[0].0 == key
        invariant Valid() && readers == old(readers) && |rest| == |was|
        invariant TakenSome(was, rest, ends, key) && FilesTaken(files, was, rest)
        invariant (rest == was && files == [] && heap != [] && heap[0].0 == key)
          || (Remaining(rest) < Remaining(was) && files != [])
        decreases Remaining(rest)
      {
        var stepped: bool;
        stepped, files := TakeTop(key, files, was);
        if !stepped {
          return false, files;
        }
      }
      HeapAbove(heap, rest, key);
      NoneBreak(was, rest, ends, key);
      ok := true;
    }
  }

  /** `files` are the ids of the records taken between `was` and `now`. */
  ghost predicate FilesTaken(files: seq<nat>, was: seq<seq<Record>>, now: seq<seq<Record>>)
    requires |was| == |now|
  {
    forall f :: f in files <==> InTaken(was, now, f)
  }

  /** The last record before the damage of a segment is at `key`. */
  ghost predicate BreaksAt(rs: seq<Record>, end: Ending, key: Bytes) {
    |rs| == 1 && rs[0].key == key && end.Damaged?
  }

  /** Reader `i` is at the least key of all, and damaged behind it. */
  ghost predicate BreaksFirst(rest: seq<seq<Record>>, ends: seq<Ending>, i: nat) {
    && i < |rest| == |ends| && rest[i] != [] && BreaksAt(rest[i], ends[i], rest[i][0].key)
    && forall j | 0 <= j < |rest| :: NotBefore(rest[j], rest[i][0].key)
  }

  ghost predicate GoodRest(rest: seq<seq<Record>>) {
    forall i | 0 <= i < |rest| :: GoodRecords(rest[i])
  }

  ghost predicate NothingLeft(rest: seq<seq<Record>>) {
    forall i | 0 <= i < |rest| :: rest[i] == []
  }

  /** Every reader at `key` has moved past it, and none is before it. */
  ghost predicate AllPast(was: seq<seq<Record>>, now: seq<seq<Record>>, key: Bytes) {
    |was| == |now| && forall i | 0 <= i < |was| ::
      Moved(was[i], now[i], key) && (now[i] != [] ==> Less(key, now[i][0].key))
  }

  /** Some readers at `key` have moved past it. */
  ghost predicate TakenSome(was: seq<seq<Record>>, now: seq<seq<Record>>, ends: seq<Ending>, key: Bytes)
    requires |was| == |now| == |ends|
  {
    && (forall i | 0 <= i < |now| :: Moved(was[i], now[i], key) && NotBefore(now[i], key))
    && (forall i | 0 <= i < |now| && now[i] != was[i] ::
          (now[i] != [] ==> Less(key, now[i][0].key)) && !BreaksAt(was[i], ends[i], key))
  }

  /** What a reader has still to give. */
  ghost predicate Gives(r: Reader, rs: seq<Record>, end: Ending)
    reads r
  {
    GoodRecords(rs) && !end.OutOfOrder? && (rs != [] ==> At(r, rs, end))
  }

  /** The reader holds the first of `rs`; the others are still in its file. */
  ghost predicate At(r: Reader, rs: seq<Record>, end: Ending)
    reads r
    requires rs != []
  {
    && r.Valid() && r.key == rs[0].key && r.files == rs[0].files
    && RecordsOf(r.Stream()) == rs[1..] && EndOf(r.Stream()) == end
  }

  /** A new reader at the first record, if there is one. */
  method OpenReader(segment: Bytes, capacity: nat) returns (r: Reader, step: Step)
    requires Readable(segment) && capacity > 0
    ensures fresh(r) && Gives(r, RecordsOf(segment), EndOf(segment))
    ensures step.Advanced? <==> RecordsOf(segment) != []
    ensures step.Failed? <==> RecordsOf(segment) == [] && EndOf(segment).Damaged?
  {
    r := new Reader(segment, capacity);
    step := r.Advance();
    ReadsFirst(segment);
  }

  /** A reader moves past its current record. */
  method Move(r: Reader, ghost rs: seq<Record>, ghost end: Ending) returns (step: Step)
    requires rs != [] && Gives(r, rs, end)
    modifies r
    ensures Gives(r, rs[1..], end)
    ensures step.Advanced? <==> rs[1..] != []
    ensures step.Failed? <==> rs[1..] == [] && end.Damaged?
  {
    ReadsFirst(r.Stream());
    TailGood(rs);
    step := r.Advance();
  }

  lemma {:induction false} ReadsFirst(s: Bytes)
    requires EndOf(s) != OutOfOrder
    ensures match ReadRecord(s)
      case NoRecord => RecordsOf(s) == [] && EndOf(s) == Clean
      case Corrupt => RecordsOf(s) == [] && EndOf(s) == Damaged
      case Next(k, ids, tail) =>
        && RecordsOf(s) != [] && RecordsOf(s)[0].key == k && RecordsOf(s)[0].files == ids
        && RecordsOf(s)[1..] == RecordsOf(tail) && EndOf(s) == EndOf(tail)
  {
  }

  /** `f` was in a record taken between `was` and `now`. */
  ghost predicate InTaken(was: seq<seq<Record>>, now: seq<seq<Record>>, f: nat)
    requires |was| == |now|
  {
    exists i :: 0 <= i < |was| && now[i] != was[i] && was[i] != [] && f in was[i][0].files
  }

  ghost predicate NotBefore(rs: seq<Record>, key: Bytes) {
    rs != [] ==> rs[0].key == key || Less(key, rs[0].key)
  }

  /** A reader's records before and after the record of `key` was taken. */
  ghost predicate Moved(was: seq<Record>, now: seq<Record>, key: Bytes) {
    now == was || (was != [] && was[0].key == key && now == was[1..])
  }

  /** `files` are all the ids stored under `key`, which is the least key; what
      is left is everything stored under other keys. */
  ghost predicate Takes(was: seq<seq<Record>>, now: seq<seq<Record>>, key: Bytes, files: seq<nat>) {
    && (forall f: nat :: f in files <==> RestHas(was, key, f))
    && (forall k: Bytes, f: nat :: RestHas(now, k, f) <==> RestHas(was, k, f) && k != key)
    && (forall k: Bytes, f: nat | RestHas(now, k, f) :: Less(key, k))
  }

  /** Every key of a reader comes after a bound its current key comes after. */
  lemma {:induction false} KeysAfter(rs: seq<Record>, key: Bytes, k: Bytes, f: nat)
    requires GoodRecords(rs) && HasPair(rs, k, f) && rs != [] && Less(key, rs[0].key)
    ensures Less(key, k) && k != key
  {
    var j :| 0 <= j < |rs| && rs[j].key == k && f in rs[j].files;
    if 0 < j {
      LessTransitive(key, rs[0].key, rs[j].key);
    }
    LessAsymmetric(key, k);
  }

  /** Taking the first record takes the pairs of its key, and no others. */
  lemma {:induction false} FirstTaken(rs: seq<Record>, k: Bytes, f: nat)
    requires GoodRecords(rs) && rs != []
    ensures HasPair(rs[1..], k, f) <==> HasPair(rs, k, f) && k != rs[0].key
    ensures HasPair(rs, rs[0].key, f) <==> f in rs[0].files
    ensures HasPair(rs[1..], k, f) ==> Less(rs[0].key, k)
  {
    if HasPair(rs[1..], k, f) {
      var j :| 0 <= j < |rs[1..]| && rs[1..][j].key == k && f in rs[1..][j].files;
      assert rs[j + 1].key == k;
      LessAsymmetric(rs[0].key, k);
    }
    if HasPair(rs, k, f) && k != rs[0].key {
      var j :| 0 <= j < |rs| && rs[j].key == k && f in rs[j].files;
      assert rs[1..][j - 1] == rs[j];
    }
    if HasPair(rs, rs[0].key, f) {
      var j :| 0 <= j < |rs| && rs[j].key == rs[0].key && f in rs[j].files;
      if 0 < j {
        LessAsymmetric(rs[0].key, rs[j].key);
      }
    }
  }

  lemma {:induction false} MovedPairs(was: seq<Record>, now: seq<Record>, key: Bytes, k: Bytes, f: nat)
    requires GoodRecords(was) && Moved(was, now, key) && (now != [] ==> Less(key, now[0].key))
    ensures HasPair(now, k, f) <==> HasPair(was, k, f) && k != key
    ensures HasPair(now, k, f) ==> Less(key, k)
    ensures HasPair(was, key, f) <==> now != was && f in was[0].files
  {
    if now == was {
      if HasPair(was, k, f) {
        KeysAfter(was, key, k, f);
      }
      if HasPair(was, key, f) {
        KeysAfter(was, key, key, f);
      }
    } else {
      FirstTaken(was, k, f);
      assert |now| < |was|;
    }
  }

  lemma TakesFromMoves(was: seq<seq<Record>>, now: seq<seq<Record>>, key: Bytes, files: seq<nat>)
    requires GoodRest(was) && AllPast(was, now, key)
    requires FilesTaken(files, was, now)
    ensures Takes(was, now, key, files)
  {
    forall k: Bytes, f: nat, i | 0 <= i < |was|
      ensures HasPair(now[i], k, f) <==> HasPair(was[i], k, f) && k != key
      ensures HasPair(now[i], k, f) ==> Less(key, k)
      ensures HasPair(was[i], key, f) <==> now[i] != was[i] && f in was[i][0].files
    {
      MovedPairs(was[i], now[i], key, k, f);
    }
  }

  lemma RestSnoc(rest: seq<seq<Record>>, rs: seq<Record>)
    ensures forall key: Bytes, f: nat :: RestHas(rest + [rs], key, f) <==> RestHas(rest, key, f) || HasPair(rs, key, f)
  {
    var all := rest + [rs];
    forall key: Bytes, f: nat ensures RestHas(all, key, f) <==> RestHas(rest, key, f) || HasPair(rs, key, f) {
      if RestHas(rest, key, f) {
        var i :| 0 <= i < |rest| && HasPair(rest[i], key, f);
        assert all[i] == rest[i];
      }
      if HasPair(rs, key, f) {
        assert all[|rest|] == rs;
      }
    }
  }

  lemma TailGood(rs: seq<Record>)
    requires GoodRecords(rs) && rs != []
    ensures GoodRecords(rs[1..])
  {
  }

  lemma HeadAfter(rs: seq<Record>)
    requires GoodRecords(rs) && rs != []
    ensures |rs| > 1 ==> Less(rs[0].key, rs[1].key)
  {
  }

  /** One more reader moves past `key`, unless it is damaged there. */
  lemma TakeStep(was: seq<seq<Record>>, before: seq<seq<Record>>, ends: seq<Ending>, i: nat, key: Bytes,
                 files: seq<nat>)
    requires |was| == |before| == |ends| && i < |was|
    requires GoodRecords(before[i]) && before[i] != [] && before[i][0].key == key
    requires TakenSome(was, before, ends, key) && FilesTaken(files, was, before)
    ensures var now := before[i := before[i][1..]];
      && was[i] == before[i]
      && Remaining(now) < Remaining(before)
      && (now[i] == [] && ends[i].Damaged? <==> BreaksAt(was[i], ends[i], key))
      && (!BreaksAt(was[i], ends[i], key) ==> TakenSome(was, now, ends, key))
      && FilesTaken(files + before[i][0].files, was, now)
      && before[i][0].files != []
  {
    var now := before[i := before[i][1..]];
    LessIrreflexive(key);
    assert was[i] == before[i];
    RemainingAfter(before, i, before[i][1..]);
    HeadAfter(before[i]);
    assert |now[i]| < |was[i]|;
    TakenIds(was, before, i, files);
  }

  lemma TakenIds(was: seq<seq<Record>>, before: seq<seq<Record>>, i: nat, files: seq<nat>)
    requires |was| == |before| && i < |was| && before[i] != [] && was[i] == before[i]
    requires FilesTaken(files, was, before)
    ensures FilesTaken(files + before[i][0].files, was, before[i := before[i][1..]])
  {
    var now := before[i := before[i][1..]];
    assert |now[i]| < |was[i]|;
    forall f ensures f in files + before[i][0].files <==> InTaken(was, now, f) {
      if f in before[i][0].files {
        assert now[i] != was[i] && f in was[i][0].files;
      }
      if InTaken(was, before, f) {
        var j :| 0 <= j < |was| && before[j] != was[j] && was[j] != [] && f in was[j][0].files;
        assert now[j] != was[j];
      }
    }
  }

  /** Once every reader is past `key`, none was damaged there. */
  lemma {:induction false} NoneBreak(was: seq<seq<Record>>, now: seq<seq<Record>>, ends: seq<Ending>, key: Bytes)
    requires |was| == |now| == |ends| && TakenSome(was, now, ends, key)
    requires forall i | 0 <= i < |now| && now[i] != [] :: Less(key, now[i][0].key)
    ensures forall i | 0 <= i < |was| :: !BreaksAt(was[i], ends[i], key)
  {
    LessIrreflexive(key);
  }

  /** The top of the heap is the least key of all. */
  lemma HeapLeast(heap: seq<Head>, rest: seq<seq<Record>>)
    requires HeapMatches(heap, rest) && heap != []
    ensures heap[0].1 < |rest| && rest[heap[0].1] != [] && rest[heap[0].1][0].key == heap[0].0
    ensures forall i | 0 <= i < |rest| :: NotBefore(rest[i], heap[0].0)
  {
    assert heap[0] in heap;
    forall i | 0 <= i < |rest| && rest[i] != [] ensures NotBefore(rest[i], heap[0].0) {
      var x := (rest[i][0].key, i);
      assert x in heap;
      var j :| 0 <= j < |heap| && heap[j] == x;
      assert 0 < j ==> HeadBefore(heap[0], heap[j]);
    }
  }

  /** There is one least key, so a reader that breaks first breaks at it. */
  lemma BreaksAtLeast(rest: seq<seq<Record>>, ends: seq<Ending>, top: nat)
    requires |rest| == |ends| && top < |rest| && rest[top] != []
    requires forall i | 0 <= i < |rest| :: NotBefore(rest[i], rest[top][0].key)
    ensures (exists i :: BreaksFirst(rest, ends, i)) <==>
      exists i :: 0 <= i < |rest| && BreaksAt(rest[i], ends[i], rest[top][0].key)
  {
    if i: nat :| BreaksFirst(rest, ends, i) {
      SameLeast(rest[i][0].key, rest[top][0].key);
      assert BreaksAt(rest[i], ends[i], rest[top][0].key);
    }
    if i :| 0 <= i < |rest| && BreaksAt(rest[i], ends[i], rest[top][0].key) {
      assert BreaksFirst(rest, ends, i);
    }
  }

  lemma {:induction false} SameLeast(a: Bytes, b: Bytes)
    requires (a == b || Less(a, b)) && (b == a || Less(b, a))
    ensures a == b
  {
    if a != b {
      LessAsymmetric(a, b);
    }
  }

  /** Once the top of the heap is past `key`, every reader is. */
  lemma HeapAbove(heap: seq<Head>, rest: seq<seq<Record>>, key: Bytes)
    requires HeapMatches(heap, rest)
    requires forall i | 0 <= i < |rest| :: NotBefore(rest[i], key)
    requires heap != [] ==> heap[0].0 != key
    ensures forall i | 0 <= i < |rest| && rest[i] != [] :: Less(key, rest[i][0].key)
  {
    forall i | 0 <= i < |rest| && rest[i] != [] ensures Less(key, rest[i][0].key) {
      var x := (rest[i][0].key, i);
      assert x in heap && heap[0] in heap && NotBefore(rest[heap[0].1], key);
      var j :| 0 <= j < |heap| && heap[j] == x;
      if 0 < j && Less(heap[0].0, x.0) {
        LessTransitive(key, heap[0].0, x.0);
      }
    }
  }
}
