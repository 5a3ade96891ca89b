// Whole runs of the shared directory: no named file is ever rewritten or
// removed, one snapshot is one set of files, and a reader that opens its files
// within the grace period finds every one of them.

module Readers {
  import opened Bytes
  import opened Publish
  import opened Layout

  // ------------------------------------------------------------ one step

  predicate Steps(s: State, e: Event, r: State) {
    Enabled(s, e) && r == Do(s, e)
  }

  /** A published snapshot stays recorded, with the files it names. */
  ghost predicate Grows(s: State, r: State) {
    forall t | t in s.published :: t in r.published && r.published[t] == s.published[t]
  }

  /** Nothing published is ever written again: a file of a published snapshot
      stays as it was, or goes and never comes back. */
  ghost predicate KeepsPublished(s: State, r: State) {
    forall t, n {:trigger n in s.published[t]} | t in s.published && n in s.published[t] && n in r.disk ::
      n in s.disk && r.disk[n] == s.disk[n]
  }

  /** What the manifest names stays on disk, whatever comes next. */
  ghost predicate KeepsNamed(s: State, r: State) {
    s.manifest.Some? ==> forall n | Names(s.manifest.value, n) :: n in s.disk && n in r.disk && r.disk[n] == s.disk[n]
  }

  lemma Step(s: State, e: Event, r: State)
    requires Inv(s) && Steps(s, e, r)
    ensures Inv(r) && Grows(s, r) && KeepsPublished(s, r) && KeepsNamed(s, r)
  {
    match e {
      case Write(name) => WriteStep(s, name);
      case Take(job) => TakeStep(s, job);
      case Remove(name) => RemoveStep(s, name);
      case Publish => PublishReady(s); PublishStep(s);
      case _ => OtherStep(s, e);
    }
    if s.manifest.Some? {
      assert SnapshotOf(s.manifest.value) in s.published;
    }
  }

  lemma PublishReady(s: State)
    requires Inv(s) && Enabled(s, Event.Publish)
    ensures Ready(s)
  {
  }

  /** The current manifest names only files on disk that carry its epoch and
      their own sequence, and its digests are of exactly those files. */
  lemma NamedFilesExist(s: State, n: Name)
    requires Inv(s) && s.manifest.Some?
    ensures var m := s.manifest.value;
      && (n in m.roots <==> Names(m, n))
      && (Names(m, n) ==>
            && n in s.disk && s.disk[n] == m.roots[n]
            && s.disk[n].epoch == m.epoch && s.disk[n].seqNo == SeqOf(n))
  {
    if n in s.manifest.value.roots {
      RootsOfBuild(s, n);
    }
  }

  /** Delta `k` was computed on a snapshot of the same build with `k - 1` deltas,
      and those are the deltas the manifest names before it. */
  lemma DeltaBasis(s: State, k: nat)
    requires Inv(s) && s.manifest.Some? && 1 <= k <= s.manifest.value.deltas
    ensures var m := s.manifest.value;
      var d := DeltaFile(m.epoch, k);
      && d in m.roots && m.roots[d].basis.Some?
      && var b := m.roots[d].basis.value;
      && b in s.published && b.epoch == m.epoch && b.deltas == k - 1
      && forall i: nat | 1 <= i < k :: SameDelta(m.roots, s.published[b], m.epoch, i)
  {
    var m := s.manifest.value;
    var d := DeltaFile(m.epoch, k);
    assert Names(m, d);
    assert SnapshotOk(s, SnapshotOf(m));
    assert Based(s.published, d, m.roots[d]);
    var b := m.roots[d].basis.value;
    assert SnapshotOk(s, b);
    forall i: nat | 1 <= i < k ensures SameDelta(m.roots, s.published[b], m.epoch, i) {
      assert Names(m, DeltaFile(m.epoch, i));
      assert DeltaFile(b.epoch, i) in s.published[b];
    }
  }

  /** Both name delta `i`, and it is one file. */
  ghost predicate SameDelta(a: map<Name, File>, b: map<Name, File>, epoch: nat, i: nat) {
    var f := DeltaFile(epoch, i);
    f in a && f in b && a[f] == b[f]
  }

  // ------------------------------------------------------------ runs

  /** A run: its states, and the event between each two. */
  predicate IsRun(ss: seq<State>, es: seq<Event>) {
    |ss| == |es| + 1 && forall i {:trigger es[i]} | 0 <= i < |es| :: Steps(ss[i], es[i], ss[i + 1])
  }

  lemma {:induction false} RunKeeps(ss: seq<State>, es: seq<Event>, i: nat, j: nat)
    requires IsRun(ss, es) && i <= j < |ss| && Inv(ss[i])
    ensures Inv(ss[j]) && Grows(ss[i], ss[j]) && KeepsPublished(ss[i], ss[j])
  {
    if i < j {
      RunKeeps(ss, es, i, j - 1);
      Step(ss[j - 1], es[j - 1], ss[j]);
    }
  }

  /** Every state of every run from an empty directory. */
  lemma AlwaysSafe(ss: seq<State>, es: seq<Event>, i: nat)
    requires IsRun(ss, es) && ss[0] == Empty() && i < |ss|
    ensures Inv(ss[i])
  {
    EmptyInv();
    RunKeeps(ss, es, 0, i);
  }

  /** An index opened from one manifest and checked against a later one of the
      same epoch, sequence and delta count: both name the same files. */
  lemma SameSnapshotSameFiles(ss: seq<State>, es: seq<Event>, i: nat, j: nat)
    requires IsRun(ss, es) && i <= j < |ss| && Inv(ss[i])
    requires ss[i].manifest.Some? && ss[j].manifest.Some?
    requires SnapshotOf(ss[i].manifest.value) == SnapshotOf(ss[j].manifest.value)
    ensures ss[j].manifest.value.roots == ss[i].manifest.value.roots
  {
    RunKeeps(ss, es, i, j);
  }

  /** However late a reader opens a file its manifest named, it finds the one
      published, or none. */
  lemma PublishedOrGone(ss: seq<State>, es: seq<Event>, i: nat, j: nat, n: Name)
    requires IsRun(ss, es) && i <= j < |ss| && Inv(ss[i])
    requires ss[i].manifest.Some? && Names(ss[i].manifest.value, n) && n in ss[j].disk
    ensures ss[j].disk[n] == ss[i].manifest.value.roots[n]
  {
    RunKeeps(ss, es, i, j);
    assert SnapshotOk(ss[j], SnapshotOf(ss[i].manifest.value));
  }

  lemma RunCons(s: State, e: Event, ss: seq<State>, es: seq<Event>)
    requires IsRun(ss, es) && Steps(s, e, ss[0])
    ensures IsRun([s] + ss, [e] + es)
  {
    var all, events := [s] + ss, [e] + es;
    forall i | 0 <= i < |events| ensures Steps(all[i], events[i], all[i + 1]) {
      if i > 0 {
        assert es[i - 1] == events[i];
      }
    }
  }

  /** The last state of a run has published the job's snapshot. */
  ghost predicate EndsPublished(ss: seq<State>, t: Snapshot) {
    ss != [] && ss[|ss| - 1].lock.Cleaning? && ss[|ss| - 1].manifest.Some?
    && SnapshotOf(ss[|ss| - 1].manifest.value) == t
  }

  /** One step before a run that ends in a publication. */
  lemma PublishedCons(s: State, e: Event, ss: seq<State>, es: seq<Event>, t: Snapshot)
    requires IsRun(ss, es) && EndsPublished(ss, t) && Steps(s, e, ss[0])
    ensures IsRun([s] + ss, [e] + es) && EndsPublished([s] + ss, t)
  {
    RunCons(s, e, ss, es);
  }

  lemma NothingLeft(keys: set<Name>, done: set<Name>)
    requires done <= keys && keys - done == {}
    ensures done == keys
  {
    forall n | n in keys ensures n in done {
      assert n !in keys - done;
    }
  }

  lemma PublishLast(s: State, cur: Snapshot)
    requires s.lock.Writing? && s.lock.done == Writes(s.lock.job).Keys
    requires (!s.lock.job.Build? ==> s.manifest.Some?) && (s.manifest.Some? ==> cur == SnapshotOf(s.manifest.value))
    ensures Steps(s, Event.Publish, Published(s)) && EndsPublished([Published(s)], SnapshotAfter(cur, s.lock.job))
  {
    NextSnapshot(s, cur);
  }

  lemma {:induction false} WriterFinishes(s: State, cur: Snapshot, left: set<Name>)
    returns (ss: seq<State>, es: seq<Event>)
    requires s.lock.Writing? && s.lock.done <= Writes(s.lock.job).Keys && left == Writes(s.lock.job).Keys - s.lock.done
    requires (!s.lock.job.Build? ==> s.manifest.Some?) && (s.manifest.Some? ==> cur == SnapshotOf(s.manifest.value))
    ensures IsRun(ss, es) && ss[0] == s && EndsPublished(ss, SnapshotAfter(cur, s.lock.job))
    decreases |left|
  {
    if left == {} {
      NothingLeft(Writes(s.lock.job).Keys, s.lock.done);
      PublishLast(s, cur);
      ss, es := [Published(s)], [];
      PublishedCons(s, Event.Publish, ss, es, SnapshotAfter(cur, s.lock.job));
      ss, es := [s] + ss, [Event.Publish] + es;
    } else {
      var name :| name in left;
      ss, es := WriterFinishes(Wrote(s, name), cur, left - {name});
      PublishedCons(s, Write(name), ss, es, SnapshotAfter(cur, s.lock.job));
      ss, es := [s] + ss, [Write(name)] + es;
    }
  }

  /** A writer that finds its manifest current can publish: a new build at any
      time, a second phase or a delta on the snapshot it started from. */
  lemma CurrentCanPublish(s: State, job: Job, cur: Snapshot) returns (ss: seq<State>, es: seq<Event>)
    requires s.lock == Free && Current(s, job) && (s.manifest.Some? ==> cur == SnapshotOf(s.manifest.value))
    ensures IsRun(ss, es) && ss[0] == s && EndsPublished(ss, SnapshotAfter(cur, job))
  {
    var r := Taken(s, job);
    ss, es := WriterFinishes(r, cur, Writes(job).Keys);
    PublishedCons(s, Take(job), ss, es, SnapshotAfter(cur, job));
    ss, es := [s] + ss, [Take(job)] + es;
  }

  // ------------------------------------------------------------ the newest retired builds

  /** `epoch` is retired once, among the newest `k` builds of the list. */
  ghost predicate Recent(rs: seq<Retired>, epoch: nat, k: nat) {
    rs != [] && k > 0 &&
    var n := |rs| - 1;
    if rs[n].entry == Whole(epoch) then epoch !in Builds(rs[..n])
    else Recent(rs[..n], epoch, if rs[n].entry.Whole? then k - 1 else k)
  }

  lemma {:induction false} RecentMore(rs: seq<Retired>, epoch: nat, k: nat)
    requires Recent(rs, epoch, k)
    ensures Recent(rs, epoch, k + 1)
  {
    var n := |rs| - 1;
    if rs[n].entry != Whole(epoch) {
      RecentMore(rs[..n], epoch, if rs[n].entry.Whole? then k - 1 else k);
    }
  }

  lemma {:induction false} RecentLists(rs: seq<Retired>, epoch: nat, k: nat)
    requires Recent(rs, epoch, k)
    ensures Lists(rs, Whole(epoch)) && epoch in Builds(rs)
  {
    var n := |rs| - 1;
    if rs[n].entry == Whole(epoch) {
      assert rs[n] in rs;
    } else {
      RecentLists(rs[..n], epoch, if rs[n].entry.Whole? then k - 1 else k);
      var r :| r in rs[..n] && r.entry == Whole(epoch);
      assert r in rs;
    }
  }

  lemma RecentSnoc(rs: seq<Retired>, r: Retired, epoch: nat, k: nat)
    requires Recent(rs, epoch, k) && r.entry != Whole(epoch)
    ensures Recent(rs + [r], epoch, if r.entry.Whole? then k + 1 else k)
  {
    assert (rs + [r])[..|rs|] == rs;
  }

  lemma {:induction false} NotInBuilds(rs: seq<Retired>, epoch: nat, r: Retired)
    requires epoch !in Builds(rs) && r in rs
    ensures r.entry != Whole(epoch)
  {
  }

  /** What is kept keeps its order, so a kept build loses no rank. */
  lemma {:induction false} RecentKept(rs: seq<Retired>, epoch: nat, k: nat, p: Retired -> bool)
    requires Recent(rs, epoch, k) && forall r | r in rs && r.entry == Whole(epoch) :: p(r)
    ensures Recent(Keep(rs, p), epoch, k)
  {
    var n := |rs| - 1;
    var w, last := Keep(rs[..n], p), rs[n];
    assert last in rs;
    if last.entry == Whole(epoch) {
      assert p(last) && Keep(rs, p) == w + [last];
      assert (w + [last])[..|w|] == w;
      forall i | 0 <= i < |w| ensures w[i].entry != Whole(epoch) {
        NotInBuilds(rs[..n], epoch, w[i]);
      }
    } else {
      var j := if last.entry.Whole? then k - 1 else k;
      RecentKept(rs[..n], epoch, j, p);
      KeptStep(w, last, epoch, j, p);
    }
  }

  lemma KeptStep(w: seq<Retired>, last: Retired, epoch: nat, j: nat, p: Retired -> bool)
    requires Recent(w, epoch, j) && last.entry != Whole(epoch)
    ensures Recent(w + if p(last) then [last] else [], epoch, if last.entry.Whole? then j + 1 else j)
  {
    if p(last) {
      RecentSnoc(w, last, epoch, j);
    } else {
      assert w + [] == w;
      RecentMore(w, epoch, j);
    }
  }

  lemma {:induction false} RecentIndex(rs: seq<Retired>, epoch: nat, k: nat)
    requires Recent(rs, epoch, k)
    ensures forall i | 0 <= i < |Builds(rs)| - k :: Builds(rs)[i] != epoch
  {
    var n := |rs| - 1;
    if rs[n].entry != Whole(epoch) {
      RecentIndex(rs[..n], epoch, if rs[n].entry.Whole? then k - 1 else k);
    }
  }

  /** A build among the newest two is not beyond those kept. */
  lemma {:induction false} RecentIsKept(rs: seq<Retired>, epoch: nat, k: nat)
    requires Recent(rs, epoch, k) && k <= RETIRED_BUILDS
    ensures epoch !in Excess(rs)
  {
    RecentIndex(rs, epoch, k);
  }

  /** The bound is sharp: with three builds waiting the oldest is handed over. */
  lemma OldestGoes(previous: seq<Retired>, superseded: seq<Entry>, now: nat)
    requires |Builds(Candidates(previous, superseded, now))| > RETIRED_BUILDS
    ensures Whole(Builds(Candidates(previous, superseded, now))[0]) in Retire(previous, superseded, now).due
  {
    var keep := Candidates(previous, superseded, now);
    var e := Builds(keep)[0];
    var i :| 0 <= i < |keep| && keep[i].entry == Whole(e);
    assert Excess(keep)[0] == e;
  }

  // ------------------------------------------------------------ the grace period

  ghost predicate Touches(e: Entry, m: Manifest) {
    match e case Whole(b) => b == m.epoch case Within(n) => n in m.roots
  }

  /** What a reader relies on that read `m` at `since`, `builds` builds ago. */
  ghost predicate Graced(s: State, m: Manifest, since: nat, builds: nat) {
    && Inv(s) && s.manifest.Some? && since <= s.clock
    && SnapshotOf(m) in s.published && s.published[SnapshotOf(m)] == m.roots
    && (forall n | n in m.roots :: n in s.disk)
    && (forall r | r in s.manifest.value.retired && Touches(r.entry, m) :: r.since >= since)
    && (s.lock.Cleaning? ==> forall i | 0 <= i < |s.lock.due| :: !Touches(s.lock.due[i], m))
    && (if s.manifest.value.epoch == m.epoch then builds == 0 else Recent(s.manifest.value.retired, m.epoch, builds))
  }

  lemma ReadIsGraced(s: State)
    requires Inv(s) && s.manifest.Some?
    ensures Graced(s, s.manifest.value, s.clock, 0)
  {
    var m := s.manifest.value;
    forall r | r in m.retired ensures !Touches(r.entry, m) {
      var i :| 0 <= i < |m.retired| && m.retired[i] == r;
      assert RetiredOk(m, s.used, m.retired[i].entry);
    }
  }

  function Counted(s: State, e: Event): nat {
    if e.Publish? && s.lock.Writing? && s.lock.job.Build? then 1 else 0
  }

  function WholeCount(es: seq<Entry>): nat {
    if es != [] && es[0].Whole? then 1 else 0
  }

  lemma RecentAfter(previous: seq<Retired>, sup: seq<Entry>, now: nat, epoch: nat, k: nat)
    requires Recent(previous, epoch, k) && forall r | r in previous && r.entry == Whole(epoch) :: !Over(r, now)
    requires |sup| <= 1 && Whole(epoch) !in sup
    ensures Recent(Candidates(previous, sup, now), epoch, k + WholeCount(sup))
  {
    var w := Waiting(previous, now);
    RecentKept(previous, epoch, k, r => !Over(r, now));
    if sup == [] {
      assert w + Stamped(sup, now) == w;
    } else {
      assert sup[0] in sup && Stamped(sup, now) == [Retired(sup[0], now)];
      RecentSnoc(w, Retired(sup[0], now), epoch, k);
    }
  }

  lemma {:induction false} RecentNew(previous: seq<Retired>, now: nat, epoch: nat)
    requires !Lists(previous, Whole(epoch))
    ensures Recent(Candidates(previous, [Whole(epoch)], now), epoch, 1)
  {
    var w := Waiting(previous, now);
    assert Stamped([Whole(epoch)], now) == [Retired(Whole(epoch), now)];
    assert (w + [Retired(Whole(epoch), now)])[..|w|] == w;
    forall i | 0 <= i < |w| ensures w[i].entry != Whole(epoch) {
      assert w[i] in previous;
    }
  }

  lemma CurrentNotListed(s: State)
    requires Inv(s) && s.manifest.Some?
    ensures !Lists(s.manifest.value.retired, Whole(s.manifest.value.epoch))
  {
    var cur := s.manifest.value;
    forall r | r in cur.retired ensures r.entry != Whole(cur.epoch) {
      var j :| 0 <= j < |cur.retired| && cur.retired[j] == r;
      assert RetiredOk(cur, s.used, cur.retired[j].entry);
    }
  }

  /** After a publication the reader's build is among the newest retired. */
  lemma RecentNext(previous: seq<Retired>, sup: seq<Entry>, now: nat, m: Manifest, since: nat, cur: nat, builds: nat)
    requires forall r | r in previous && Touches(r.entry, m) :: r.since >= since
    requires now < since + RETIRE_MS && |sup| <= 1
    requires if cur == m.epoch then builds == 0 && !Lists(previous, Whole(m.epoch)) && sup == [Whole(m.epoch)]
             else Recent(previous, m.epoch, builds) && Whole(m.epoch) !in sup
    ensures Recent(Candidates(previous, sup, now), m.epoch, builds + WholeCount(sup))
  {
    if cur == m.epoch {
      RecentNew(previous, now, m.epoch);
    } else {
      forall r | r in previous && r.entry == Whole(m.epoch) ensures !Over(r, now) {
        assert Touches(r.entry, m);
      }
      RecentAfter(previous, sup, now, m.epoch, builds);
    }
  }

  lemma SupersededShape(s: State, e: Event)
    requires Ready(s) && e.Publish? && s.manifest.Some?
    ensures var sup := Superseded(s.manifest, s.lock.job);
      && |sup| <= 1 && WholeCount(sup) == Counted(s, e)
      && (s.lock.job.Build? ==> sup == [Whole(s.manifest.value.epoch)])
      && (forall x | x in sup && x.Whole? :: x.epoch == s.manifest.value.epoch)
  {
  }

  lemma DueSpared(previous: seq<Retired>, sup: seq<Entry>, now: nat, m: Manifest, since: nat)
    requires forall r | r in previous && Touches(r.entry, m) :: r.since >= since
    requires now < since + RETIRE_MS && m.epoch !in Excess(Candidates(previous, sup, now))
    requires forall n | n in m.roots :: n.epoch == m.epoch
    ensures forall e | e in Retire(previous, sup, now).due :: !Touches(e, m)
  {
    RetireOnly(previous, sup, now);
    forall i | 0 <= i < |previous| && Over(previous[i], now) ensures !Touches(previous[i].entry, m) {
      assert previous[i] in previous;
    }
  }

  lemma KeptSince(previous: seq<Retired>, sup: seq<Entry>, now: nat, m: Manifest, since: nat)
    requires forall r | r in previous && Touches(r.entry, m) :: r.since >= since
    requires since <= now
    ensures forall r | r in Retire(previous, sup, now).kept && Touches(r.entry, m) :: r.since >= since
  {
    RetireOnly(previous, sup, now);
  }

  /** The manifest's own build is not in its retired list. */
  lemma NotExcess(s: State, m: Manifest)
    requires Ready(s) && Next(s).epoch == m.epoch
    ensures m.epoch !in Excess(Candidates(OldRetired(s), Superseded(s.manifest, s.lock.job), s.clock))
  {
    var keep := Candidates(OldRetired(s), Superseded(s.manifest, s.lock.job), s.clock);
    NextShape(s);
    forall i | 0 <= i < |keep| ensures keep[i].entry != Whole(m.epoch) {
      CandidateListed(OldRetired(s), Superseded(s.manifest, s.lock.job), s.clock, keep[i]);
      RetiredStaysOk(s, keep[i].entry);
    }
  }

  lemma SupersededFacts(s: State, e: Event, m: Manifest)
    requires Ready(s) && e.Publish? && s.manifest.Some? && Next(s).epoch != m.epoch
    ensures var sup, cur := Superseded(s.manifest, s.lock.job), s.manifest.value;
      && |sup| <= 1 && WholeCount(sup) == Counted(s, e)
      && if cur.epoch == m.epoch then !Lists(cur.retired, Whole(m.epoch)) && sup == [Whole(m.epoch)]
         else Whole(m.epoch) !in sup
  {
    SupersededShape(s, e);
    SameBuildLater(s);
    CurrentNotListed(s);
  }

  /** The reader's build after a publication, on the lists alone. */
  lemma {:induction false} RecentPublished(previous: seq<Retired>, sup: seq<Entry>, now: nat, m: Manifest,
                                           since: nat, cur: nat, builds: nat, after: nat)
    requires forall r | r in previous && Touches(r.entry, m) :: r.since >= since
    requires now < since + RETIRE_MS && |sup| <= 1 && after == builds + WholeCount(sup) && after <= RETIRED_BUILDS
    requires if cur == m.epoch then builds == 0 && !Lists(previous, Whole(m.epoch)) && sup == [Whole(m.epoch)]
             else Recent(previous, m.epoch, builds) && Whole(m.epoch) !in sup
    ensures m.epoch !in Excess(Candidates(previous, sup, now))
    ensures Recent(Retire(previous, sup, now).kept, m.epoch, after)
  {
    var keep := Candidates(previous, sup, now);
    RecentNext(previous, sup, now, m, since, cur, builds);
    RecentIsKept(keep, m.epoch, after);
    RecentKept(keep, m.epoch, after, (r: Retired) => EpochOf(r.entry) !in Excess(keep));
  }

  /** The lists after a publication still spare the reader's files. */
  lemma {:induction false} PublishedLists(s: State, e: Event, m: Manifest, since: nat, builds: nat, after: nat)
    requires Graced(s, m, since, builds) && Ready(s) && e.Publish? && s.clock < since + RETIRE_MS
    requires after == builds + Counted(s, e) && after <= RETIRED_BUILDS
    ensures m.epoch !in Excess(Candidates(OldRetired(s), Superseded(s.manifest, s.lock.job), s.clock))
    ensures if Next(s).epoch == m.epoch then after == 0
            else Recent(Retire(OldRetired(s), Superseded(s.manifest, s.lock.job), s.clock).kept, m.epoch, after)
  {
    if Next(s).epoch != m.epoch {
      SupersededFacts(s, e, m);
      RecentPublished(OldRetired(s), Superseded(s.manifest, s.lock.job), s.clock, m, since,
                      s.manifest.value.epoch, builds, after);
    } else {
      NotExcess(s, m);
      BuildMovesOn(s, m);
    }
  }

  lemma PublishGraced(s: State, e: Event, m: Manifest, since: nat, builds: nat, after: nat)
    requires Graced(s, m, since, builds) && Ready(s) && e.Publish? && s.clock < since + RETIRE_MS
    requires after == builds + Counted(s, e) && after <= RETIRED_BUILDS
    ensures Graced(Published(s), m, since, after)
  {
    PublishStep(s);
    PublishedLists(s, e, m, since, builds, after);
    OwnNames(s, m);
    DueSpared(OldRetired(s), Superseded(s.manifest, s.lock.job), s.clock, m, since);
    KeptSince(OldRetired(s), Superseded(s.manifest, s.lock.job), s.clock, m, since);
    PublishParts(s);
  }

  lemma OwnNames(s: State, m: Manifest)
    requires Inv(s) && SnapshotOf(m) in s.published && s.published[SnapshotOf(m)] == m.roots
    ensures forall n | n in m.roots :: n.epoch == m.epoch
  {
    assert SnapshotOk(s, SnapshotOf(m));
  }

  lemma NextRetired(cur: Option<Manifest>, job: Job, retired: seq<Retired>)
    requires !job.Build? ==> cur.Some?
    ensures NextManifest(cur, job, retired).retired == retired
  {
  }

  lemma OldRetirement(s: State)
    requires Ready(s)
    ensures RetirementOf(s.manifest, s.lock.job, s.clock) ==
      Retire(OldRetired(s), Superseded(s.manifest, s.lock.job), s.clock)
  {
  }

  /** What a publication changes. */
  lemma PublishParts(s: State)
    requires Ready(s)
    ensures var r, t := Published(s), Retire(OldRetired(s), Superseded(s.manifest, s.lock.job), s.clock);
      && r.disk == s.disk && r.clock == s.clock
      && r.manifest == Some(Next(s)) && Next(s).retired == t.kept
      && r.lock.Cleaning? && r.lock.due == t.due
  {
    OldRetirement(s);
    NextRetired(s.manifest, s.lock.job, RetirementOf(s.manifest, s.lock.job, s.clock).kept);
  }

  /** A step that does not publish leaves the manifest, and what is due. */
  lemma OtherKeeps(s: State, e: Event, r: State)
    requires Steps(s, e, r) && !e.Publish? && !e.Discard? && s.manifest.Some?
    ensures r.manifest.Some? && r.manifest.value.epoch == s.manifest.value.epoch
    ensures r.manifest.value.retired == s.manifest.value.retired
    ensures r.published == s.published && s.clock <= r.clock
    ensures r.lock.Cleaning? ==> s.lock.Cleaning? && r.lock.due == s.lock.due
    ensures forall n | n in s.disk && n !in r.disk :: e == Remove(n)
  {
  }

  lemma OtherGraced(s: State, e: Event, r: State, m: Manifest, since: nat, builds: nat)
    requires Graced(s, m, since, builds) && Steps(s, e, r) && !e.Publish? && !e.Discard?
    ensures Graced(r, m, since, builds)
  {
    OtherKeeps(s, e, r);
    if e.Remove? {
      RemoveGraced(s, e.name, m, since, builds);
    }
    Step(s, e, r);
  }

  lemma RemoveGraced(s: State, name: Name, m: Manifest, since: nat, builds: nat)
    requires Graced(s, m, since, builds) && Enabled(s, Remove(name))
    ensures name !in m.roots
  {
    var cur := s.manifest.value;
    assert SnapshotOk(s, SnapshotOf(m));
    assert name in m.roots ==> forall i | 0 <= i < |s.lock.due| :: !Covers(s.lock.due[i], name);
    if cur.epoch != m.epoch {
      RecentLists(cur.retired, m.epoch, builds);
      assert !Orphan(cur, m.epoch);
    }
  }

  /** The builds published between state `i` and state `j`. */
  function BuildsIn(ss: seq<State>, es: seq<Event>, i: nat, j: nat): nat
    requires IsRun(ss, es) && i <= j < |ss|
  {
    if i == j then 0 else BuildsIn(ss, es, i, j - 1) + Counted(ss[j - 1], es[j - 1])
  }

  /** The manifest stays readable. */
  predicate Readable(es: seq<Event>, i: nat, j: nat)
    requires i <= j <= |es|
  {
    forall k | i <= k < j :: !es[k].Discard?
  }

  lemma ClockStep(s: State, e: Event, r: State)
    requires Steps(s, e, r)
    ensures s.clock <= r.clock && (e.Publish? ==> s.lock.Writing? && r == Published(s))
  {
    match e {
      case Tick(ms) => assert r == s.(clock := s.clock + ms);
      case Take(job) => assert r == Taken(s, job);
      case Publish => assert r == Published(s);
      case _ =>
    }
  }

  lemma GracedStep(s: State, e: Event, r: State, m: Manifest, since: nat, builds: nat, after: nat)
    requires Graced(s, m, since, builds) && Steps(s, e, r) && !e.Discard? && r.clock < since + RETIRE_MS
    requires after == builds + Counted(s, e) && after <= RETIRED_BUILDS
    ensures Graced(r, m, since, after)
  {
    ClockStep(s, e, r);
    if e.Publish? {
      PublishReady(s);
      PublishGraced(s, e, m, since, builds, after);
    } else {
      OtherGraced(s, e, r, m, since, builds);
    }
  }

  lemma {:induction false} RunGraced(ss: seq<State>, es: seq<Event>, i: nat, j: nat)
    requires IsRun(ss, es) && i <= j < |ss| && Inv(ss[i]) && ss[i].manifest.Some? && Readable(es, i, j)
    requires ss[j].clock < ss[i].clock + RETIRE_MS && BuildsIn(ss, es, i, j) <= RETIRED_BUILDS
    ensures Graced(ss[j], ss[i].manifest.value, ss[i].clock, BuildsIn(ss, es, i, j))
  {
    if i == j {
      ReadIsGraced(ss[i]);
    } else {
      var builds := BuildsIn(ss, es, i, j - 1);
      assert BuildsIn(ss, es, i, j) == builds + Counted(ss[j - 1], es[j - 1]);
      ClockStep(ss[j - 1], es[j - 1], ss[j]);
      RunGraced(ss, es, i, j - 1);
      GracedStep(ss[j - 1], es[j - 1], ss[j], ss[i].manifest.value, ss[i].clock, builds,
                 BuildsIn(ss, es, i, j));
    }
  }

  lemma BuildMovesOn(s: State, m: Manifest)
    requires Ready(s) && s.manifest.Some? && SnapshotOf(m) in s.published
    ensures s.lock.job.Build? ==> Next(s).epoch != m.epoch
    ensures !s.lock.job.Build? ==> Next(s).epoch == s.manifest.value.epoch
  {
    SameBuildLater(s);
  }

  /** A reader that read a manifest and opens its files within the grace period,
      at most two builds being published meanwhile, finds every file it names,
      as published; in every run of writers, cleanups and crashes. */
  lemma {:induction false} ReaderFindsAll(ss: seq<State>, es: seq<Event>, i: nat, j: nat, n: Name)
    requires IsRun(ss, es) && i <= j < |ss| && Inv(ss[i]) && ss[i].manifest.Some? && Readable(es, i, j)
    requires ss[j].clock < ss[i].clock + RETIRE_MS && BuildsIn(ss, es, i, j) <= RETIRED_BUILDS
    requires Names(ss[i].manifest.value, n)
    ensures n in ss[j].disk && ss[j].disk[n] == ss[i].manifest.value.roots[n]
  {
    RunGraced(ss, es, i, j);
    PublishedOrGone(ss, es, i, j, n);
  }
}
