// The record of skipped entries (crates/greeg-index/src/skipped.rs, rel.rs):
// what the walk left out of each directory. Reading a written record gives it
// back exactly when no child's name holds a slash.

module Skipped {
  import opened Bytes
  import opened Format

  // ------------------------------------------------------------ relative paths

  predicate SlashFree(s: Bytes) {
    SLASH !in s
  }

  /** One past the last slash, or 0. */
  function NameStart(rel: Bytes): (i: nat)
    ensures i <= |rel|
    ensures SlashFree(rel[i..])
    ensures i > 0 ==> rel[i - 1] == SLASH
  {
    if rel == [] then 0
    else
      var n := |rel| - 1;
      if rel[n] == SLASH then |rel|
      else
        var i := NameStart(rel[..n]);
        assert rel[i..] == rel[..n][i..] + [rel[n]];
        i
  }

  function Parent(rel: Bytes): Bytes {
    if NameStart(rel) == 0 then [] else rel[..NameStart(rel) - 1]
  }

  function FileName(rel: Bytes): Bytes {
    rel[NameStart(rel)..]
  }

  function Join(dir: Bytes, name: Bytes): Bytes {
    if dir == [] then name else dir + [SLASH] + name
  }

  lemma SlashBefore(rel: Bytes, i: nat, k: nat)
    requires i <= |rel| && k <= |rel| && SlashFree(rel[i..]) && (k > 0 ==> rel[k - 1] == SLASH)
    ensures k <= i
  {
    forall j | i <= j < |rel| ensures rel[j] != SLASH {
      assert rel[i..][j - i] == rel[j];
    }
  }

  lemma {:induction false} NameStartIs(rel: Bytes, i: nat)
    requires i <= |rel| && SlashFree(rel[i..]) && (i > 0 ==> rel[i - 1] == SLASH)
    ensures NameStart(rel) == i
  {
    var k := NameStart(rel);
    SlashBefore(rel, i, k);
    SlashBefore(rel, k, i);
  }

  /** A slash-free name comes back from its path, whatever the directory. */
  lemma JoinParts(dir: Bytes, name: Bytes)
    requires SlashFree(name)
    ensures Parent(Join(dir, name)) == dir && FileName(Join(dir, name)) == name
  {
    var rel := Join(dir, name);
    var i := if dir == [] then 0 else |dir| + 1;
    assert rel[i..] == name;
    NameStartIs(rel, i);
    assert dir != [] ==> rel[..|dir|] == dir;
  }

  // ------------------------------------------------------------ the record

  datatype Kid = Kid(name: Bytes, bits: Byte)

  /** A walked directory and its skipped children. */
  datatype DirKids = DirKids(dir: Bytes, kids: seq<Kid>)

  /** A `BTreeMap` from directories, as the list its iterator yields. */
  type Record = seq<DirKids>

  predicate KidBefore(a: Kid, b: Kid) {
    Less(a.name, b.name) || (a.name == b.name && a.bits < b.bits)
  }

  predicate KidsSorted(kids: seq<Kid>) {
    forall i, j | 0 <= i < j < |kids| :: !KidBefore(kids[j], kids[i])
  }

  predicate DirsAscend(r: Record) {
    forall i, j | 0 <= i < j < |r| :: Less(r[i].dir, r[j].dir)
  }

  predicate WellFormed(r: Record) {
    DirsAscend(r) && forall i | 0 <= i < |r| :: r[i].kids != [] && KidsSorted(r[i].kids)
  }

  predicate NamesSlashFree(r: Record) {
    forall i, k | 0 <= i < |r| && 0 <= k < |r[i].kids| :: SlashFree(r[i].kids[k].name)
  }

  /** The children recorded for a directory. */
  function KidsOf(r: Record, dir: Bytes): seq<Kid> {
    if r == [] then [] else if r[0].dir == dir then r[0].kids else KidsOf(r[1..], dir)
  }

  lemma KidTotal(a: Kid, b: Kid)
    ensures KidBefore(a, b) || a == b || KidBefore(b, a)
    ensures KidBefore(a, b) ==> !KidBefore(b, a)
  {
    LessTotal(a.name, b.name);
    LessIrreflexive(a.name);
    if Less(a.name, b.name) {
      LessAsymmetric(a.name, b.name);
    }
  }

  lemma KidTransitive(a: Kid, b: Kid, c: Kid)
    requires !KidBefore(b, a) && !KidBefore(c, b)
    ensures !KidBefore(c, a)
  {
    KidTotal(a, b);
    KidTotal(b, c);
    KidTotal(a, c);
    if Less(a.name, b.name) && Less(b.name, c.name) {
      LessTransitive(a.name, b.name, c.name);
    }
  }

  function InsertKid(kids: seq<Kid>, x: Kid): (r: seq<Kid>)
    requires KidsSorted(kids)
    ensures KidsSorted(r) && multiset(r) == multiset(kids) + multiset{x}
  {
    if kids == [] || !KidBefore(kids[0], x) then
      ConsKid(x, kids);
      assert multiset([x] + kids) == multiset{x} + multiset(kids);
      [x] + kids
    else
      var rest := InsertKid(kids[1..], x);
      assert kids == [kids[0]] + kids[1..];
      assert forall y | y in rest :: y in multiset(rest);
      assert forall y | y in rest :: y == x || y in multiset(kids[1..]);
      ConsKids(kids[0], kids, x, rest);
      [kids[0]] + rest
  }

  lemma ConsKid(x: Kid, kids: seq<Kid>)
    requires KidsSorted(kids) && (kids != [] ==> !KidBefore(kids[0], x))
    ensures KidsSorted([x] + kids)
  {
    forall j | 0 <= j < |kids| ensures !KidBefore(kids[j], x) {
      if j > 0 {
        KidTransitive(x, kids[0], kids[j]);
      }
    }
  }

  lemma ConsKids(first: Kid, kids: seq<Kid>, x: Kid, rest: seq<Kid>)
    requires KidsSorted(kids) && kids != [] && kids[0] == first && KidBefore(first, x) && KidsSorted(rest)
    requires forall y | y in rest :: y == x || y in multiset(kids[1..])
    ensures KidsSorted([first] + rest)
  {
    KidTotal(first, x);
    forall j | 0 <= j < |rest| ensures !KidBefore(rest[j], first) {
      if rest[j] != x {
        assert rest[j] in multiset(kids[1..]);
        var i :| 0 <= i < |kids[1..]| && kids[1..][i] == rest[j];
        assert kids[i + 1] == rest[j];
      }
    }
  }

  /** `kids.sort()`. */
  function SortKids(kids: seq<Kid>): (r: seq<Kid>)
    ensures KidsSorted(r) && multiset(r) == multiset(kids) && |r| == |kids|
  {
    if kids == [] then []
    else
      assert kids == [kids[0]] + kids[1..];
      var r := InsertKid(SortKids(kids[1..]), kids[0]);
      assert |r| == |multiset(r)| && |kids| == |multiset(kids)|;
      r
  }

  // ------------------------------------------------------------ setting

  function Removed(r: Record, dir: Bytes): Record {
    if r == [] then [] else if r[0].dir == dir then r[1..] else [r[0]] + Removed(r[1..], dir)
  }

  function Inserted(r: Record, d: DirKids): Record {
    if r == [] then [d]
    else if r[0].dir == d.dir then [d] + r[1..]
    else if Less(d.dir, r[0].dir) then [d] + r
    else [r[0]] + Inserted(r[1..], d)
  }

  function SetKids(r: Record, dir: Bytes, kids: seq<Kid>): Record {
    if kids == [] then Removed(r, dir) else Inserted(r, DirKids(dir, SortKids(kids)))
  }

  /** No directory of the record is `dir`, and `dir` comes before them all. */
  predicate AllAfter(r: Record, dir: Bytes) {
    forall i | 0 <= i < |r| :: Less(dir, r[i].dir)
  }

  lemma ConsRecord(d: DirKids, r: Record)
    requires WellFormed(r) && AllAfter(r, d.dir) && d.kids != [] && KidsSorted(d.kids)
    ensures WellFormed([d] + r)
  {
  }

  lemma {:induction false} HeadBefore(r: Record, dir: Bytes)
    requires r != [] && DirsAscend(r) && Less(dir, r[0].dir)
    ensures AllAfter(r, dir)
  {
    forall i | 0 < i < |r| ensures Less(dir, r[i].dir) {
      LessTransitive(dir, r[0].dir, r[i].dir);
    }
  }

  lemma TailAfter(r: Record)
    requires r != [] && WellFormed(r)
    ensures WellFormed(r[1..]) && AllAfter(r[1..], r[0].dir)
  {
  }

  lemma {:induction false} NoKids(r: Record, dir: Bytes)
    requires AllAfter(r, dir)
    ensures KidsOf(r, dir) == []
  {
    if r != [] {
      LessIrreflexive(dir);
      NoKids(r[1..], dir);
    }
  }

  /** At its place in the order: the directory itself, or where it would go. */
  lemma {:induction false} SetHere(r: Record, dir: Bytes, kids: seq<Kid>, d: Bytes)
    requires WellFormed(r) && r != [] && (r[0].dir == dir || (Less(dir, r[0].dir) && kids != []))
    ensures WellFormed(SetKids(r, dir, kids))
    ensures KidsOf(SetKids(r, dir, kids), d) == if d == dir then SortKids(kids) else KidsOf(r, d)
  {
    TailAfter(r);
    if r[0].dir == dir {
      NoKids(r[1..], dir);
      if kids != [] {
        ConsRecord(DirKids(dir, SortKids(kids)), r[1..]);
      }
    } else {
      LessIrreflexive(dir);
      HeadBefore(r, dir);
      ConsRecord(DirKids(dir, SortKids(kids)), r);
      NoKids(r, dir);
    }
  }

  lemma {:induction false} SetAfter(r: Record, dir: Bytes, kids: seq<Kid>, p: Bytes)
    requires AllAfter(r, p) && Less(p, dir)
    ensures AllAfter(SetKids(r, dir, kids), p)
  {
    if r != [] {
      SetAfter(r[1..], dir, kids, p);
    }
  }

  /** Past the head: the tail is set, and the head stays. */
  lemma {:induction false} SetPast(r: Record, dir: Bytes, kids: seq<Kid>, d: Bytes)
    requires WellFormed(r) && r != [] && Less(r[0].dir, dir)
    requires WellFormed(SetKids(r[1..], dir, kids))
    requires KidsOf(SetKids(r[1..], dir, kids), d) == if d == dir then SortKids(kids) else KidsOf(r[1..], d)
    ensures WellFormed(SetKids(r, dir, kids))
    ensures KidsOf(SetKids(r, dir, kids), d) == if d == dir then SortKids(kids) else KidsOf(r, d)
  {
    TailAfter(r);
    LessAsymmetric(r[0].dir, dir);
    SetTail(r, dir, kids);
    SetAfter(r[1..], dir, kids, r[0].dir);
    ConsRecord(r[0], SetKids(r[1..], dir, kids));
  }

  /** Setting a directory's children replaces exactly those. */
  lemma {:induction false} SetMeans(r: Record, dir: Bytes, kids: seq<Kid>, d: Bytes)
    requires WellFormed(r)
    ensures WellFormed(SetKids(r, dir, kids))
    ensures KidsOf(SetKids(r, dir, kids), d) == if d == dir then SortKids(kids) else KidsOf(r, d)
  {
    if r != [] {
      LessTotal(dir, r[0].dir);
      if r[0].dir == dir || (Less(dir, r[0].dir) && kids != []) {
        SetHere(r, dir, kids, d);
      } else if Less(r[0].dir, dir) {
        TailAfter(r);
        SetMeans(r[1..], dir, kids, d);
        SetPast(r, dir, kids, d);
      } else {
        HeadBefore(r, dir);
        NoKids(r, dir);
        RemoveNothing(r, dir);
      }
    }
  }

  lemma {:induction false} SetTail(r: Record, dir: Bytes, kids: seq<Kid>)
    requires r != [] && r[0].dir != dir && (kids != [] ==> !Less(dir, r[0].dir))
    ensures SetKids(r, dir, kids) == [r[0]] + SetKids(r[1..], dir, kids)
  {
  }

  lemma {:induction false} RemoveNothing(r: Record, dir: Bytes)
    requires AllAfter(r, dir)
    ensures Removed(r, dir) == r
  {
    if r != [] {
      LessIrreflexive(dir);
      RemoveNothing(r[1..], dir);
      assert r == [r[0]] + r[1..];
    }
  }

  // ------------------------------------------------------------ entries

  /** A skipped entry as it is written: its path, and its bits. */
  datatype Rec = Rec(rel: Bytes, bits: Byte)

  function RecsOf(dir: Bytes, kids: seq<Kid>): seq<Rec> {
    seq(|kids|, i requires 0 <= i < |kids| => Rec(Join(dir, kids[i].name), kids[i].bits))
  }

  function Listed(r: Record): seq<Rec> {
    if r == [] then [] else Listed(r[..|r| - 1]) + RecsOf(r[|r| - 1].dir, r[|r| - 1].kids)
  }

  /** `entry(dir).or_default().push(kid)`. */
  function Push(r: Record, dir: Bytes, kid: Kid): Record {
    if r == [] then [DirKids(dir, [kid])]
    else if r[0].dir == dir then [DirKids(dir, r[0].kids + [kid])] + r[1..]
    else if Less(dir, r[0].dir) then [DirKids(dir, [kid])] + r
    else [r[0]] + Push(r[1..], dir, kid)
  }

  function Gathered(es: seq<Rec>): Record {
    if es == [] then []
    else
      var e := es[|es| - 1];
      Push(Gathered(es[..|es| - 1]), Parent(e.rel), Kid(FileName(e.rel), e.bits))
  }

  lemma {:induction false} GatherSnoc(es: seq<Rec>, e: Rec)
    ensures Gathered(es + [e]) == Push(Gathered(es), Parent(e.rel), Kid(FileName(e.rel), e.bits))
  {
    assert (es + [e])[..|es|] == es;
  }

  /** A directory after all the others goes to the end. */
  lemma {:induction false} PushNew(r: Record, dir: Bytes, kid: Kid)
    requires forall i | 0 <= i < |r| :: Less(r[i].dir, dir)
    ensures Push(r, dir, kid) == r + [DirKids(dir, [kid])]
  {
    if r != [] {
      LessAsymmetric(r[0].dir, dir);
      PushNew(r[1..], dir, kid);
      assert r == [r[0]] + r[1..];
    }
  }

  lemma {:induction false} PushMore(r: Record, dir: Bytes, kids: seq<Kid>, kid: Kid)
    requires forall i | 0 <= i < |r| :: Less(r[i].dir, dir)
    ensures Push(r + [DirKids(dir, kids)], dir, kid) == r + [DirKids(dir, kids + [kid])]
  {
    var all := r + [DirKids(dir, kids)];
    if r != [] {
      LessAsymmetric(r[0].dir, dir);
      assert all[0] == r[0] && all[1..] == r[1..] + [DirKids(dir, kids)];
      PushMore(r[1..], dir, kids, kid);
      assert r == [r[0]] + r[1..];
    }
  }

  /** The record so far with the directory at its end, once it has children. */
  function WithLast(r: Record, dir: Bytes, kids: seq<Kid>): Record {
    if kids == [] then r else r + [DirKids(dir, kids)]
  }

  predicate AllBefore(r: Record, dir: Bytes) {
    forall i | 0 <= i < |r| :: Less(r[i].dir, dir)
  }

  lemma {:induction false} GatherKid(es: seq<Rec>, r: Record, dir: Bytes, kids: seq<Kid>, kid: Kid)
    requires Gathered(es) == WithLast(r, dir, kids) && AllBefore(r, dir) && SlashFree(kid.name)
    ensures Gathered(es + [Rec(Join(dir, kid.name), kid.bits)]) == WithLast(r, dir, kids + [kid])
  {
    GatherSnoc(es, Rec(Join(dir, kid.name), kid.bits));
    JoinParts(dir, kid.name);
    if kids == [] {
      PushNew(r, dir, kid);
      assert kids + [kid] == [kid];
    } else {
      PushMore(r, dir, kids, kid);
    }
  }

  lemma RecsSnoc(es: seq<Rec>, dir: Bytes, kids: seq<Kid>, kid: Kid)
    ensures es + RecsOf(dir, kids + [kid]) == es + RecsOf(dir, kids) + [Rec(Join(dir, kid.name), kid.bits)]
  {
  }

  lemma {:induction false} GatherDir(es: seq<Rec>, r: Record, dir: Bytes, kids: seq<Kid>)
    requires Gathered(es) == r && AllBefore(r, dir) && forall k | 0 <= k < |kids| :: SlashFree(kids[k].name)
    ensures Gathered(es + RecsOf(dir, kids)) == WithLast(r, dir, kids)
    decreases |kids|
  {
    if kids == [] {
      assert es + RecsOf(dir, kids) == es;
    } else {
      var front, kid := kids[..|kids| - 1], kids[|kids| - 1];
      assert kids == front + [kid];
      GatherDir(es, r, dir, front);
      RecsSnoc(es, dir, front, kid);
      GatherKid(es + RecsOf(dir, front), r, dir, front, kid);
    }
  }

  lemma FrontOk(r: Record)
    requires r != [] && WellFormed(r) && NamesSlashFree(r)
    ensures WellFormed(r[..|r| - 1]) && NamesSlashFree(r[..|r| - 1]) && AllBefore(r[..|r| - 1], r[|r| - 1].dir)
  {
  }

  lemma {:induction false} ListedSnoc(front: Record, last: DirKids)
    ensures Listed(front + [last]) == Listed(front) + RecsOf(last.dir, last.kids)
  {
    assert (front + [last])[..|front|] == front;
  }

  lemma {:induction false} GatherLast(front: Record, last: DirKids)
    requires Gathered(Listed(front)) == front && AllBefore(front, last.dir) && last.kids != []
    requires KidsSlashFree(last.kids)
    ensures Gathered(Listed(front + [last])) == front + [last]
  {
    ListedSnoc(front, last);
    GatherDir(Listed(front), front, last.dir, last.kids);
  }

  predicate KidsSlashFree(kids: seq<Kid>) {
    forall k | 0 <= k < |kids| :: SlashFree(kids[k].name)
  }

  lemma LastNames(r: Record, last: DirKids)
    requires r != [] && NamesSlashFree(r) && last == r[|r| - 1]
    ensures KidsSlashFree(last.kids)
  {
  }

  /** Gathering the entries of a record gives the record. */
  lemma {:induction false} GatherListed(r: Record)
    requires WellFormed(r) && NamesSlashFree(r)
    ensures Gathered(Listed(r)) == r
  {
    if r != [] {
      var n := |r| - 1;
      assert r == r[..n] + [r[n]];
      FrontOk(r);
      LastNames(r, r[n]);
      GatherListed(r[..n]);
      GatherLast(r[..n], r[n]);
    }
  }

  lemma {:induction false} PushSlashFree(r: Record, dir: Bytes, kid: Kid)
    requires NamesSlashFree(r) && SlashFree(kid.name)
    ensures NamesSlashFree(Push(r, dir, kid))
  {
    if r != [] && r[0].dir != dir && !Less(dir, r[0].dir) {
      assert NamesSlashFree(r[1..]) by {
        forall i, k | 0 <= i < |r[1..]| && 0 <= k < |r[1..][i].kids| ensures SlashFree(r[1..][i].kids[k].name) {
          assert r[1..][i] == r[i + 1];
        }
      }
      PushSlashFree(r[1..], dir, kid);
    }
  }

  /** Whatever was read, the names it gives hold no slash. */
  lemma {:induction false} GatheredSlashFree(es: seq<Rec>)
    ensures NamesSlashFree(Gathered(es))
  {
    if es != [] {
      var e := es[|es| - 1];
      GatheredSlashFree(es[..|es| - 1]);
      PushSlashFree(Gathered(es[..|es| - 1]), Parent(e.rel), Kid(FileName(e.rel), e.bits));
    }
  }

  // ------------------------------------------------------------ bytes

  function Encode(e: Rec): (b: Bytes)
    ensures |b| == 5 + |e.rel|
  {
    [e.bits] + Le(|e.rel|, 4) + e.rel
  }

  function EncodeRecs(es: seq<Rec>): Bytes {
    if es == [] then [] else Encode(es[0]) + EncodeRecs(es[1..])
  }

  function Serialized(r: Record): Bytes {
    Le(|Listed(r)|, 4) + EncodeRecs(Listed(r))
  }

  /** The entry at `at` fits in the body. */
  predicate Whole(body: Bytes, at: nat) {
    at + 5 <= |body| && at + 5 + LeValue(body[at + 1..at + 5]) <= |body|
  }

  function RecAt(body: Bytes, at: nat): Rec
    requires Whole(body, at)
  {
    Rec(body[at + 5..at + 5 + LeValue(body[at + 1..at + 5])], body[at])
  }

  datatype Parsed = Parsed(recs: seq<Rec>, end: nat)

  /** `n` more entries from `at` on after those seen, and where they end. */
  function ParseFrom(body: Bytes, at: nat, n: nat, seen: seq<Rec>): Option<Parsed>
    decreases n
  {
    if n == 0 then Some(Parsed(seen, at))
    else if !Whole(body, at) then None
    else ParseFrom(body, at + 5 + |RecAt(body, at).rel|, n - 1, seen + [RecAt(body, at)])
  }

  function ParseRecord(body: Bytes): Option<Record> {
    if |body| < 4 then None
    else
      var p := ParseFrom(body, 4, LeValue(body[..4]), []);
      if p.Some? && p.value.end == |body| then Some(Gathered(p.value.recs)) else None
  }

  /** What a record file can hold: counts and lengths of 32 bits. */
  predicate Fits(es: seq<Rec>) {
    |es| < U32 && forall i | 0 <= i < |es| :: |es[i].rel| < U32
  }

  lemma SliceWithin(pre: Bytes, mid: Bytes, post: Bytes, i: nat, j: nat)
    requires i <= j <= |mid|
    ensures (pre + mid + post)[|pre| + i..|pre| + j] == mid[i..j]
  {
  }

  lemma EncodeParts(e: Rec)
    ensures Encode(e)[0] == e.bits && Encode(e)[1..5] == Le(|e.rel|, 4) && Encode(e)[5..5 + |e.rel|] == e.rel
  {
  }

  lemma ReadOne(pre: Bytes, e: Rec, post: Bytes)
    requires |e.rel| < U32
    ensures var body := pre + Encode(e) + post; Whole(body, |pre|) && RecAt(body, |pre|) == e
  {
    Widths();
    LeRoundTrip(|e.rel|, 4);
    EncodeParts(e);
    SliceWithin(pre, Encode(e), post, 1, 5);
    SliceWithin(pre, Encode(e), post, 5, 5 + |e.rel|);
    assert (pre + Encode(e) + post)[|pre|] == Encode(e)[0];
  }

  lemma {:induction false} ReadFirst(pre: Bytes, e: Rec, post: Bytes, n: nat, seen: seq<Rec>)
    requires |e.rel| < U32 && n > 0
    ensures var body := pre + Encode(e) + post;
      ParseFrom(body, |pre|, n, seen) == ParseFrom(body, |pre + Encode(e)|, n - 1, seen + [e])
  {
    ReadOne(pre, e, post);
  }

  lemma {:induction false} EncodeCons(pre: Bytes, e: Rec, rest: seq<Rec>)
    ensures EncodeRecs([e] + rest) == Encode(e) + EncodeRecs(rest)
    ensures pre + EncodeRecs([e] + rest) == pre + Encode(e) + EncodeRecs(rest)
  {
    assert ([e] + rest)[0] == e && ([e] + rest)[1..] == rest;
    Regroup(pre, Encode(e), EncodeRecs(rest));
  }

  lemma {:induction false} ReadStep(pre: Bytes, e: Rec, rest: seq<Rec>, seen: seq<Rec>)
    requires |e.rel| < U32
    requires ParseFrom(pre + Encode(e) + EncodeRecs(rest), |pre + Encode(e)|, |rest|, seen + [e])
      == Some(Parsed(seen + [e] + rest, |pre + Encode(e)| + |EncodeRecs(rest)|))
    ensures ParseFrom(pre + EncodeRecs([e] + rest), |pre|, |rest| + 1, seen)
      == Some(Parsed(seen + ([e] + rest), |pre| + |EncodeRecs([e] + rest)|))
  {
    EncodeCons(pre, e, rest);
    ReadFirst(pre, e, EncodeRecs(rest), |rest| + 1, seen);
    assert seen + [e] + rest == seen + ([e] + rest);
  }

  /** Reading on through written entries gives them. */
  lemma {:induction false} ReadBack(pre: Bytes, es: seq<Rec>, seen: seq<Rec>)
    requires forall i | 0 <= i < |es| :: |es[i].rel| < U32
    ensures ParseFrom(pre + EncodeRecs(es), |pre|, |es|, seen) == Some(Parsed(seen + es, |pre| + |EncodeRecs(es)|))
    decreases |es|
  {
    if es == [] {
      assert seen + es == seen;
    } else {
      ReadBack(pre + Encode(es[0]), es[1..], seen + [es[0]]);
      ReadStep(pre, es[0], es[1..], seen);
      assert es == [es[0]] + es[1..];
    }
  }

  /** A written record reads back as itself exactly when no child's name holds a
      slash, whatever its directories are; an entry without a name, the mark of a
      directory that could not be listed, included. */
  lemma {:induction false} RoundTrip(r: Record)
    requires WellFormed(r) && Fits(Listed(r))
    ensures ParseRecord(Serialized(r)) == Some(r) <==> NamesSlashFree(r)
    ensures ParseRecord(Serialized(r)) == Some(Gathered(Listed(r)))
  {
    var es := Listed(r);
    var head := Le(|es|, 4);
    Widths();
    LeRoundTrip(|es|, 4);
    assert Serialized(r)[..4] == head;
    ReadBack(head, es, []);
    assert [] + es == es;
    GatheredSlashFree(es);
    if NamesSlashFree(r) {
      GatherListed(r);
    }
  }

  // ------------------------------------------------------------ the object

  class SkippedSet {
    var byDir: Record

    ghost predicate Valid()
      reads this
    {
      WellFormed(byDir)
    }

    constructor ()
      ensures Valid() && byDir == []
    {
      byDir := [];
    }

    method Set(dir: Bytes, kids: seq<Kid>)
      requires Valid()
      modifies this
      ensures Valid() && byDir == SetKids(old(byDir), dir, kids)
      ensures forall d :: KidsOf(byDir, d) == if d == dir then SortKids(kids) else KidsOf(old(byDir), d)
    {
      forall d ensures WellFormed(SetKids(byDir, dir, kids))
          && KidsOf(SetKids(byDir, dir, kids), d) == if d == dir then SortKids(kids) else KidsOf(byDir, d) {
        SetMeans(byDir, dir, kids, d);
      }
      SetMeans(byDir, dir, kids, dir);
      var sorted := SortKids(kids);
      if sorted == [] {
        byDir := Removed(byDir, dir);
      } else {
        byDir := Inserted(byDir, DirKids(dir, sorted));
      }
    }

    /** Every directory given ends with the last children given for it. */
    method Update(dirs: seq<DirKids>)
      requires Valid()
      modifies this
      ensures Valid()
      ensures forall d :: KidsOf(byDir, d) == Latest(old(byDir), dirs, d)
    {
      for i := 0 to |dirs|
        invariant Valid() && forall d :: KidsOf(byDir, d) == Latest(old(byDir), dirs[..i], d)
      {
        assert dirs[..i + 1][..i] == dirs[..i];
        Set(dirs[i].dir, dirs[i].kids);
      }
      assert dirs[..|dirs|] == dirs;
    }

    method Serialize() returns (out: Bytes)
      requires Valid()
      ensures out == Serialized(byDir)
    {
      var n := 0;
      for i := 0 to |byDir|
        invariant n == |Listed(byDir[..i])|
      {
        assert byDir[..i + 1][..i] == byDir[..i];
        n := n + |byDir[i].kids|;
      }
      assert byDir[..|byDir|] == byDir;
      out := Le(n, 4);
      for i := 0 to |byDir|
        invariant out == Le(n, 4) + EncodeRecs(Listed(byDir[..i]))
      {
        assert byDir[..i + 1][..i] == byDir[..i];
        out := AppendKids(out, Le(n, 4), Listed(byDir[..i]), byDir[i]);
      }
      assert byDir[..|byDir|] == byDir;
    }
  }

  method AppendKids(before: Bytes, ghost head: Bytes, ghost seen: seq<Rec>, d: DirKids) returns (out: Bytes)
    requires before == head + EncodeRecs(seen)
    ensures out == head + EncodeRecs(seen + RecsOf(d.dir, d.kids))
  {
    out := before;
    assert seen + RecsOf(d.dir, d.kids[..0]) == seen;
    for k := 0 to |d.kids|
      invariant out == head + EncodeRecs(seen + RecsOf(d.dir, d.kids[..k]))
    {
      var e := Rec(Join(d.dir, d.kids[k].name), d.kids[k].bits);
      assert d.kids[..k + 1] == d.kids[..k] + [d.kids[k]];
      RecsSnoc(seen, d.dir, d.kids[..k], d.kids[k]);
      EncodeSnoc(seen + RecsOf(d.dir, d.kids[..k]), e);
      Regroup(head, EncodeRecs(seen + RecsOf(d.dir, d.kids[..k])), Encode(e));
      out := out + ([e.bits] + Le(|e.rel|, 4) + e.rel);
    }
    assert d.kids[..|d.kids|] == d.kids;
  }

  function Latest(r: Record, dirs: seq<DirKids>, d: Bytes): seq<Kid> {
    if dirs == [] then KidsOf(r, d)
    else if dirs[|dirs| - 1].dir == d then SortKids(dirs[|dirs| - 1].kids)
    else Latest(r, dirs[..|dirs| - 1], d)
  }

  lemma {:induction false} EncodeSnoc(es: seq<Rec>, e: Rec)
    ensures EncodeRecs(es + [e]) == EncodeRecs(es) + Encode(e)
  {
    if es == [] {
      assert [e][1..] == [] && [] + [e] == [e];
    } else {
      assert (es + [e])[1..] == es[1..] + [e];
      EncodeSnoc(es[1..], e);
    }
  }

  /** The entry at `at`, or nothing when the body is cut short. */
  method ReadRec(body: Bytes, at: nat) returns (r: Option<Rec>)
    ensures r == if Whole(body, at) then Some(RecAt(body, at)) else None
  {
    if at + 5 > |body| {
      return None;
    }
    var len := LeValue(body[at + 1..at + 5]);
    if at + 5 + len > |body| {
      return None;
    }
    r := Some(Rec(body[at + 5..at + 5 + len], body[at]));
  }

  /** `Skipped::parse`. */
  method Parse(body: Bytes) returns (r: Option<Record>)
    ensures r == ParseRecord(body)
  {
    if |body| < 4 {
      return None;
    }
    var n := LeValue(body[..4]);
    var at: nat, byDir: Record := 4, [];
    ghost var seen: seq<Rec> := [];
    for i := 0 to n
      invariant byDir == Gathered(seen)
      invariant ParseFrom(body, 4, n, []) == ParseFrom(body, at, n - i, seen)
    {
      var e := ReadRec(body, at);
      if e.None? {
        return None;
      }
      GatherSnoc(seen, e.value);
      seen := seen + [e.value];
      byDir := Push(byDir, Parent(e.value.rel), Kid(FileName(e.value.rel), e.value.bits));
      at := at + 5 + |e.value.rel|;
    }
    if at != |body| {
      return None;
    }
    r := Some(byDir);
  }
}
