// The shared index directory as a state machine: steps of builders, refreshers
// and cleanups in any order, with writers dying between any two of them.

module Layout {
  import opened Bytes
  import opened Publish

  /** What a lock holder came to publish. */
  datatype Job =
    | Build(epoch: nat, payload: nat)
    | Parse(epoch: nat, payload: nat)
    | Apply(basis: Snapshot, payload: nat, record: bool)
    | Idle(basis: Snapshot)

  /** The writer lock: free, or held by a process that has written some of its files, or
      by one that published and removes what is due (and, after a build, what
      no manifest names). */
  datatype Lock =
    | Free
    | Writing(job: Job, done: set<Name>)
    | Cleaning(due: seq<Entry>, orphans: bool)

  /** The directory, the epochs ever used, the builds whose second phase is still
      to come, and every snapshot ever published with the files it names. */
  datatype State = State(
    clock: nat, disk: map<Name, File>, manifest: Option<Manifest>, lock: Lock, used: set<nat>, parsing: set<nat>,
    published: map<Snapshot, map<Name, File>>)

  datatype Event =
    | Tick(ms: nat)
    | Take(job: Job)
    | Write(name: Name)
    | Release
    | Publish
    | Remove(name: Name)
    | GiveUp(epoch: nat)
    | Abandon
    | Discard

  // ------------------------------------------------------------ what a job writes

  /** The files of a job, by name. */
  function Writes(job: Job): map<Name, File> {
    match job
    case Build(e, p) =>
      var f := File(e, SEQ_PHASE1, None, p);
      map[Comp(e, Grams, SEQ_PHASE1) := f, Comp(e, Words, SEQ_PHASE1) := f, Comp(e, Files, SEQ_PHASE1) := f,
          Comp(e, Skipped, SEQ_PHASE1) := f]
    case Parse(e, p) =>
      var f := File(e, SEQ_PHASE2, None, p);
      map[Comp(e, Symbols, SEQ_PHASE2) := f, Comp(e, Spans, SEQ_PHASE2) := f, Comp(e, Graph, SEQ_PHASE2) := f,
          Comp(e, Files, SEQ_PHASE2) := f]
    case Apply(b, p, record) =>
      var f := File(b.epoch, b.deltas + 1, Some(b), p);
      if record then map[DeltaFile(b.epoch, b.deltas + 1) := f, DeltaSkipped(b.epoch, b.deltas + 1) := f]
      else map[DeltaFile(b.epoch, b.deltas + 1) := f]
    case Idle(_) => map[]
  }

  /** Whether the lock holder finds the manifest it came for. */
  predicate Current(s: State, job: Job) {
    match job
    case Build(e, _) => e !in s.used
    case Parse(e, _) => e in s.parsing && s.manifest.Some? && s.manifest.value.phase1 && s.manifest.value.epoch == e
    case Apply(b, _, _) => s.manifest.Some? && SnapshotOf(s.manifest.value) == b
    case Idle(b) => s.manifest.Some? && SnapshotOf(s.manifest.value) == b
  }

  /** What the job's manifest supersedes. */
  function Superseded(cur: Option<Manifest>, job: Job): seq<Entry>
    requires !job.Build? ==> cur.Some?
  {
    match job
    case Build(_, _) => if cur.Some? then [Whole(cur.value.epoch)] else []
    case Parse(_, _) =>
      var files := Component(cur.value, Files);
      if files.Some? then [Within(files.value)] else []
    case Apply(_, _, record) => if record then [Within(cur.value.skipped)] else []
    case Idle(_) => []
  }

  function Dropped(cur: Manifest, job: Job): set<Name> {
    match job
    case Build(_, _) => {}
    case Parse(_, _) =>
      var files := Component(cur, Files);
      if files.Some? then {files.value} else {}
    case Apply(_, _, record) => if record then {cur.skipped} else {}
    case Idle(_) => {}
  }

  function RetirementOf(cur: Option<Manifest>, job: Job, now: nat): Retirement
    requires !job.Build? ==> cur.Some?
  {
    Retire(if cur.Some? then cur.value.retired else [], Superseded(cur, job), now)
  }

  /** The manifest the job publishes. */
  function NextManifest(cur: Option<Manifest>, job: Job, retired: seq<Retired>): Manifest
    requires !job.Build? ==> cur.Some?
  {
    match job
    case Build(e, _) =>
      Manifest(e, SEQ_PHASE1, Components(SEQ_PHASE1, SEQ_PHASE1, SEQ_PHASE1, 0, 0, 0), 0, Comp(e, Skipped, SEQ_PHASE1),
        Writes(job), retired, true, false)
    case Parse(e, _) =>
      var m := cur.value;
      m.(seqNo := SEQ_PHASE2,
         comps := m.comps.(files := SEQ_PHASE2, symbols := SEQ_PHASE2, spans := SEQ_PHASE2, graph := SEQ_PHASE2),
         roots := m.roots + Writes(job) - Dropped(m, job),
         retired := retired, phase2 := true)
    case Apply(b, _, record) =>
      var m := cur.value;
      m.(deltas := b.deltas + 1,
         skipped := if record then DeltaSkipped(b.epoch, b.deltas + 1) else m.skipped,
         roots := m.roots + Writes(job) - Dropped(m, job),
         retired := retired)
    case Idle(_) => cur.value.(retired := retired)
  }

  // ------------------------------------------------------------ steps

  predicate Orphan(m: Manifest, epoch: nat) {
    epoch != m.epoch && forall i | 0 <= i < |m.retired| :: m.retired[i].entry != Whole(epoch)
  }

  predicate Enabled(s: State, e: Event) {
    match e
    case Tick(_) => true
    case Take(job) => s.lock == Free && Current(s, job)
    case Write(name) => s.lock.Writing? && name in Writes(s.lock.job) && name !in s.lock.done
    case Publish => s.lock.Writing? && s.lock.done == Writes(s.lock.job).Keys && (!s.lock.job.Build? ==> s.manifest.Some?)
    case Remove(name) =>
      s.lock.Cleaning? && s.manifest.Some?
      && ((exists i :: 0 <= i < |s.lock.due| && Covers(s.lock.due[i], name))
          || (s.lock.orphans && Orphan(s.manifest.value, name.epoch)))
    case Release => s.lock != Free
    case GiveUp(_) => true
    case Abandon => s.lock == Free && s.manifest.Some?
    case Discard => s.lock == Free
  }

  function Taken(s: State, job: Job): State {
    var t := s.(lock := Writing(job, {}));
    match job
    case Build(e, _) => t.(used := s.used + {e})
    case Parse(e, _) => t.(parsing := s.parsing - {e})
    case _ => t
  }

  function Wrote(s: State, name: Name): State
    requires s.lock.Writing? && name in Writes(s.lock.job)
  {
    s.(disk := s.disk[name := Writes(s.lock.job)[name]], lock := s.lock.(done := s.lock.done + {name}))
  }

  function Published(s: State): State
    requires s.lock.Writing? && (!s.lock.job.Build? ==> s.manifest.Some?)
  {
    var job := s.lock.job;
    var r := RetirementOf(s.manifest, job, s.clock);
    var m := NextManifest(s.manifest, job, r.kept);
    s.(manifest := Some(m),
       lock := Cleaning(r.due, job.Build?),
       parsing := if job.Build? then s.parsing + {job.epoch} else s.parsing,
       published := s.published[SnapshotOf(m) := m.roots])
  }

  /** One step. `Release` is both the end of a locked section and the death of
      its holder, wherever it got to. */
  function Do(s: State, e: Event): State
    requires Enabled(s, e)
  {
    match e
    case Tick(ms) => s.(clock := s.clock + ms)
    case Take(job) => Taken(s, job)
    case Write(name) => Wrote(s, name)
    case Publish => Published(s)
    case Remove(name) => s.(disk := s.disk - {name})
    case Release => s.(lock := Free)
    case GiveUp(epoch) => s.(parsing := s.parsing - {epoch})
    case Abandon => s.(manifest := Some(s.manifest.value.(phase1 := false, phase2 := false)))
    case Discard => s.(manifest := None)
  }

  function Empty(): State {
    State(0, map[], None, Free, {}, {}, map[])
  }

  // ------------------------------------------------------------ invariant

  /** A name a snapshot may hold: of its build, and published no later. */
  predicate UpTo(t: Snapshot, name: Name) {
    && name.epoch == t.epoch
    && if name.Comp? then name.seqNo <= t.seqNo else name.n <= t.deltas
  }

  ghost predicate Identified(disk: map<Name, File>) {
    forall n | n in disk :: disk[n].epoch == n.epoch && disk[n].seqNo == SeqOf(n)
  }

  ghost predicate OnDisk(disk: map<Name, File>, roots: map<Name, File>) {
    forall n {:trigger n in roots} | n in roots :: n in disk && disk[n] == roots[n]
  }

  /** Where a file still exists, it is the one that was published. */
  ghost predicate Unchanged(disk: map<Name, File>, roots: map<Name, File>) {
    forall n {:trigger n in roots} | n in roots && n in disk :: disk[n] == roots[n]
  }

  ghost predicate Spares(e: Entry, m: Manifest) {
    match e case Whole(b) => b != m.epoch case Within(n) => n !in m.roots
  }

  ghost predicate PhaseOf(m: Manifest) {
    || (m.seqNo == SEQ_PHASE1 && m.comps == Components(SEQ_PHASE1, SEQ_PHASE1, SEQ_PHASE1, 0, 0, 0))
    || (m.seqNo == SEQ_PHASE2
        && m.comps == Components(SEQ_PHASE2, SEQ_PHASE1, SEQ_PHASE1, SEQ_PHASE2, SEQ_PHASE2, SEQ_PHASE2))
  }

  ghost predicate SkippedName(m: Manifest) {
    || m.skipped == Comp(m.epoch, Skipped, SEQ_PHASE1)
    || (m.skipped.DeltaSkipped? && m.skipped.epoch == m.epoch && 1 <= m.skipped.n <= m.deltas)
  }

  /** Delta `n` was computed on a published snapshot of the same build with
      `n - 1` deltas. */
  ghost predicate Based(published: map<Snapshot, map<Name, File>>, n: Name, f: File) {
    n.DeltaFile? ==>
      && f.basis.Some? && f.basis.value in published
      && f.basis.value.epoch == n.epoch && f.basis.value.deltas + 1 == n.n
  }

  /** The manifest's digests are of exactly the files it names. */
  ghost predicate RootsAreNamed(m: Manifest) {
    forall n :: n in m.roots <==> Names(m, n)
  }

  /** A retired entry covers nothing the manifest names, and no file published
      after it. */
  ghost predicate RetiredOk(m: Manifest, used: set<nat>, e: Entry) {
    && Spares(e, m) && EpochOf(e) in used
    && (e.Within? && e.name.epoch == m.epoch ==> UpTo(SnapshotOf(m), e.name))
  }

  ghost predicate Shape(m: Manifest, used: set<nat>) {
    && PhaseOf(m) && SkippedName(m) && RootsAreNamed(m)
    && m.epoch in used
    && (forall i | 0 <= i < |m.retired| :: RetiredOk(m, used, m.retired[i].entry))
  }

  ghost predicate ManifestOk(s: State) {
    s.manifest.Some? ==>
      var m := s.manifest.value;
      && Shape(m, s.used) && OnDisk(s.disk, m.roots)
      && SnapshotOf(m) in s.published && s.published[SnapshotOf(m)] == m.roots
  }

  /** A snapshot names every one of its deltas. */
  ghost predicate HasDeltas(t: Snapshot, roots: map<Name, File>) {
    forall i: nat | 1 <= i <= t.deltas :: DeltaFile(t.epoch, i) in roots
  }

  /** A published snapshot: its names are its own, its files unchanged while they
      exist, and the current manifest of the same build came no earlier. */
  ghost predicate SnapshotOk(s: State, t: Snapshot)
    requires t in s.published
  {
    && t.epoch in s.used && Unchanged(s.disk, s.published[t]) && HasDeltas(t, s.published[t])
    && (forall n {:trigger n in s.published[t]} | n in s.published[t] ::
          UpTo(t, n) && Based(s.published, n, s.published[t][n]))
    && (t.epoch in s.parsing ==> t.seqNo == SEQ_PHASE1)
    && (s.manifest.Some? && t.epoch == s.manifest.value.epoch ==>
          t.seqNo <= s.manifest.value.seqNo && t.deltas <= s.manifest.value.deltas)
  }

  ghost predicate BuildOk(s: State, epoch: nat) {
    && epoch in s.used && epoch !in s.parsing
    && (forall t | t in s.published :: t.epoch != epoch)
    && (s.manifest.Some? ==>
          && s.manifest.value.epoch != epoch
          && forall i | 0 <= i < |s.manifest.value.retired| :: EpochOf(s.manifest.value.retired[i].entry) != epoch)
  }

  ghost predicate JobOk(s: State, job: Job) {
    match job
    case Build(e, _) => BuildOk(s, e)
    case Parse(e, _) =>
      && s.manifest.Some? && s.manifest.value.epoch == e && e !in s.parsing
      && forall t | t in s.published && t.epoch == e :: t.seqNo == SEQ_PHASE1
    case Apply(b, _, _) => s.manifest.Some? && SnapshotOf(s.manifest.value) == b
    case Idle(b) => s.manifest.Some? && SnapshotOf(s.manifest.value) == b
  }

  /** What was written so far is on disk. */
  ghost predicate Written(disk: map<Name, File>, ws: map<Name, File>, done: set<Name>) {
    done <= ws.Keys && forall n | n in done :: n in disk && disk[n] == ws[n]
  }

  ghost predicate LockOk(s: State) {
    match s.lock
    case Free => true
    case Writing(job, done) => JobOk(s, job) && Written(s.disk, Writes(job), done)
    case Cleaning(due, _) => s.manifest.Some? && forall i | 0 <= i < |due| :: Spares(due[i], s.manifest.value)
  }

  ghost predicate Inv(s: State) {
    && Identified(s.disk) && ManifestOk(s) && LockOk(s)
    && (forall t | t in s.published :: SnapshotOk(s, t))
    && s.parsing <= s.used
  }

  lemma EmptyInv()
    ensures Inv(Empty())
  {
  }

  // ------------------------------------------------------------ names are never written twice

  lemma RootsOfBuild(s: State, n: Name)
    requires Inv(s) && s.manifest.Some? && n in s.manifest.value.roots
    ensures UpTo(SnapshotOf(s.manifest.value), n)
  {
    assert SnapshotOk(s, SnapshotOf(s.manifest.value));
  }

  /** Whatever a job writes, no snapshot ever published has a file of that name. */
  lemma WritesAreNew(s: State, job: Job, name: Name, t: Snapshot)
    requires Inv(s) && JobOk(s, job) && name in Writes(job) && t in s.published
    ensures name !in s.published[t]
  {
    assert SnapshotOk(s, t);
    assert !UpTo(t, name) by {
      match job
      case Build(e, _) =>
      case Parse(e, _) =>
      case Apply(b, _, _) =>
      case Idle(_) =>
    }
  }

  lemma WriteStep(s: State, name: Name)
    requires Inv(s) && s.lock.Writing? && name in Writes(s.lock.job)
    ensures Inv(Wrote(s, name))
    ensures forall t | t in s.published :: name !in s.published[t]
  {
    var job, r := s.lock.job, Wrote(s, name);
    forall t | t in s.published ensures name !in s.published[t] && SnapshotOk(r, t) {
      WritesAreNew(s, job, name, t);
      assert SnapshotOk(s, t);
    }
    WritesIdentified(job, name);
    assert JobOk(r, job);
  }

  lemma WritesIdentified(job: Job, name: Name)
    requires name in Writes(job)
    ensures Writes(job)[name].epoch == name.epoch && Writes(job)[name].seqNo == SeqOf(name)
  {
  }

  lemma TakeStep(s: State, job: Job)
    requires Inv(s) && s.lock == Free && Current(s, job)
    ensures Inv(Taken(s, job))
  {
    var r := Taken(s, job);
    forall t | t in s.published ensures SnapshotOk(r, t) {
      assert SnapshotOk(s, t);
    }
  }

  lemma RemoveStep(s: State, name: Name)
    requires Inv(s) && Enabled(s, Remove(name))
    ensures Inv(Do(s, Remove(name))) && name !in s.manifest.value.roots
  {
    var r, m := Do(s, Remove(name)), s.manifest.value;
    if name in m.roots {
      RootsOfBuild(s, name);
    }
    forall t | t in s.published ensures SnapshotOk(r, t) {
      assert SnapshotOk(s, t);
    }
  }

  lemma OtherStep(s: State, e: Event)
    requires Inv(s) && Enabled(s, e)
    requires e.Tick? || e.Release? || e.GiveUp? || e.Abandon? || e.Discard?
    ensures Inv(Do(s, e))
  {
    var r := Do(s, e);
    forall t | t in s.published ensures SnapshotOk(r, t) {
      assert SnapshotOk(s, t);
    }
    if e.Abandon? {
      var m, n := s.manifest.value, r.manifest.value;
      assert forall name :: Names(m, name) <==> Names(n, name);
      assert forall i | 0 <= i < |n.retired| :: RetiredOk(m, s.used, m.retired[i].entry);
    }
  }

  // ------------------------------------------------------------ publishing

  /** The state a publishing writer is in: its job still current, and every file
      of it on disk. */
  ghost predicate Ready(s: State) {
    && Inv(s) && s.lock.Writing? && s.lock.done == Writes(s.lock.job).Keys && JobOk(s, s.lock.job)
    && (!s.lock.job.Build? ==> s.manifest.Some?)
  }

  function Next(s: State): Manifest
    requires s.lock.Writing? && (!s.lock.job.Build? ==> s.manifest.Some?)
  {
    NextManifest(s.manifest, s.lock.job, RetirementOf(s.manifest, s.lock.job, s.clock).kept)
  }

  function OldRoots(s: State): map<Name, File> {
    if s.lock.Writing? && !s.lock.job.Build? && s.manifest.Some? then s.manifest.value.roots else map[]
  }

  /** The new digests: the old ones and the job's, without what it supersedes. */
  lemma NextRoots(s: State)
    requires Ready(s)
    ensures forall n :: n in Next(s).roots <==>
      && (n in OldRoots(s) || n in Writes(s.lock.job))
      && (s.lock.job.Parse? || s.lock.job.Apply? ==> n !in Dropped(s.manifest.value, s.lock.job))
    ensures forall n | n in Next(s).roots && n in Writes(s.lock.job) :: Next(s).roots[n] == Writes(s.lock.job)[n]
    ensures forall n | n in Next(s).roots && n in OldRoots(s) ::
      n !in Writes(s.lock.job) && Next(s).roots[n] == OldRoots(s)[n]
  {
    forall n | n in OldRoots(s) ensures n !in Writes(s.lock.job) {
      if n in Writes(s.lock.job) {
        WritesAreNew(s, s.lock.job, n, SnapshotOf(s.manifest.value));
      }
    }
  }

  lemma NextOnDisk(s: State)
    requires Ready(s)
    ensures OnDisk(s.disk, Next(s).roots)
  {
    NextRoots(s);
  }

  lemma BuildNames(m: Manifest, job: Job)
    requires job.Build? && m.epoch == job.epoch && m.roots == Writes(job) && m.deltas == 0
    requires PhaseOf(m) && m.seqNo == SEQ_PHASE1 && m.skipped == Comp(m.epoch, Skipped, SEQ_PHASE1)
    ensures RootsAreNamed(m)
  {
  }

  lemma ParseNamed(cur: Manifest, m: Manifest, n: Name)
    requires PhaseOf(cur) && cur.seqNo == SEQ_PHASE1 && SkippedName(cur) && PhaseOf(m) && m.seqNo == SEQ_PHASE2
    requires m.epoch == cur.epoch && m.deltas == cur.deltas && m.skipped == cur.skipped
    ensures Names(m, n) <==>
      && n != Comp(cur.epoch, Files, SEQ_PHASE1)
      && (Names(cur, n) || (n.Comp? && n.epoch == cur.epoch && n.seqNo == SEQ_PHASE2
            && (n.kind.Symbols? || n.kind.Spans? || n.kind.Graph? || n.kind.Files?)))
  {
  }

  lemma ParsePhase(s: State)
    requires Ready(s) && s.lock.job.Parse?
    ensures var cur, m := s.manifest.value, Next(s);
      && cur.seqNo == SEQ_PHASE1 && PhaseOf(cur) && SkippedName(cur) && PhaseOf(m) && m.seqNo == SEQ_PHASE2
      && Component(cur, Files) == Some(Comp(cur.epoch, Files, SEQ_PHASE1))
  {
    assert SnapshotOk(s, SnapshotOf(s.manifest.value));
  }

  /** A job's digests: the old ones and its own, without what it supersedes. */
  ghost predicate Replaces(m: Manifest, cur: Manifest, job: Job) {
    forall n :: n in m.roots <==>
      (n in cur.roots || n in Writes(job)) && n !in Dropped(cur, job)
  }

  lemma ParseNames(cur: Manifest, m: Manifest, job: Job)
    requires job.Parse? && job.epoch == cur.epoch && Replaces(m, cur, job) && RootsAreNamed(cur)
    requires PhaseOf(cur) && cur.seqNo == SEQ_PHASE1 && SkippedName(cur) && PhaseOf(m) && m.seqNo == SEQ_PHASE2
    requires m.epoch == cur.epoch && m.deltas == cur.deltas && m.skipped == cur.skipped
    ensures RootsAreNamed(m)
  {
    forall n ensures n in m.roots <==> Names(m, n) {
      ParseNamed(cur, m, n);
      assert n in cur.roots <==> Names(cur, n);
    }
  }

  lemma ApplyNamed(cur: Manifest, m: Manifest, record: bool, n: Name)
    requires SkippedName(cur) && m.epoch == cur.epoch && m.comps == cur.comps && m.deltas == cur.deltas + 1
    requires m.skipped == if record then DeltaSkipped(cur.epoch, m.deltas) else cur.skipped
    ensures Names(m, n) <==>
      && (record ==> n != cur.skipped)
      && (Names(cur, n) || n == DeltaFile(cur.epoch, m.deltas) || (record && n == DeltaSkipped(cur.epoch, m.deltas)))
  {
  }

  lemma ApplyNames(cur: Manifest, m: Manifest, job: Job)
    requires job.Apply? && job.basis == SnapshotOf(cur) && Replaces(m, cur, job) && RootsAreNamed(cur)
    requires SkippedName(cur) && m.epoch == cur.epoch && m.comps == cur.comps && m.deltas == cur.deltas + 1
    requires m.skipped == if job.record then DeltaSkipped(cur.epoch, m.deltas) else cur.skipped
    ensures RootsAreNamed(m)
  {
    forall n ensures n in m.roots <==> Names(m, n) {
      ApplyNamed(cur, m, job.record, n);
      assert n in cur.roots <==> Names(cur, n);
    }
  }

  lemma NextReplaces(s: State)
    requires Ready(s) && (s.lock.job.Parse? || s.lock.job.Apply?)
    ensures Replaces(Next(s), s.manifest.value, s.lock.job)
  {
    NextRoots(s);
  }

  lemma IdleNames(s: State)
    requires Ready(s) && s.lock.job.Idle?
    ensures RootsAreNamed(Next(s))
  {
    var m, cur := Next(s), s.manifest.value;
    forall n ensures n in m.roots <==> Names(m, n) {
      assert n in cur.roots <==> Names(cur, n);
    }
  }

  function OldRetired(s: State): seq<Retired> {
    if s.manifest.Some? then s.manifest.value.retired else []
  }

  lemma SameBuildLater(s: State)
    requires Ready(s) && s.manifest.Some?
    ensures var cur, m := s.manifest.value, Next(s);
      if s.lock.job.Build? then m.epoch == s.lock.job.epoch
      else m.epoch == cur.epoch && cur.seqNo <= m.seqNo && cur.deltas <= m.deltas
  {
    assert SnapshotOk(s, SnapshotOf(s.manifest.value));
    NextSnapshot(s, SnapshotOf(s.manifest.value));
  }

  lemma OldUpTo(s: State, n: Name)
    requires Ready(s) && n in OldRoots(s)
    ensures UpTo(SnapshotOf(Next(s)), n) && Based(s.published, n, OldRoots(s)[n])
  {
    assert SnapshotOk(s, SnapshotOf(s.manifest.value));
    SameBuildLater(s);
  }

  /** The snapshot a job publishes over `cur`. */
  function SnapshotAfter(cur: Snapshot, job: Job): Snapshot {
    match job
    case Build(e, _) => Snapshot(e, SEQ_PHASE1, 0)
    case Parse(_, _) => Snapshot(cur.epoch, SEQ_PHASE2, cur.deltas)
    case Apply(b, _, _) => Snapshot(cur.epoch, cur.seqNo, b.deltas + 1)
    case Idle(_) => cur
  }

  lemma SnapshotNext(cur: Option<Manifest>, job: Job, retired: seq<Retired>, t: Snapshot)
    requires (!job.Build? ==> cur.Some?) && (cur.Some? ==> t == SnapshotOf(cur.value))
    ensures SnapshotOf(NextManifest(cur, job, retired)) == SnapshotAfter(t, job)
  {
  }

  lemma NextSnapshot(s: State, cur: Snapshot)
    requires s.lock.Writing? && (!s.lock.job.Build? ==> s.manifest.Some?)
    requires s.manifest.Some? ==> cur == SnapshotOf(s.manifest.value)
    ensures SnapshotOf(Next(s)) == SnapshotAfter(cur, s.lock.job)
  {
    SnapshotNext(s.manifest, s.lock.job, RetirementOf(s.manifest, s.lock.job, s.clock).kept, cur);
  }

  lemma WritesUpTo(job: Job, cur: Snapshot, n: Name, published: map<Snapshot, map<Name, File>>)
    requires n in Writes(job)
    requires job.Parse? ==> job.epoch == cur.epoch
    requires job.Apply? ==> job.basis == cur && cur in published
    ensures UpTo(SnapshotAfter(cur, job), n) && Based(published, n, Writes(job)[n])
  {
  }

  lemma NewUpTo(s: State, n: Name)
    requires Ready(s) && n in Writes(s.lock.job)
    ensures UpTo(SnapshotOf(Next(s)), n) && Based(s.published, n, Writes(s.lock.job)[n])
  {
    var cur := if s.manifest.Some? then SnapshotOf(s.manifest.value) else Snapshot(0, 0, 0);
    NextSnapshot(s, cur);
    WritesUpTo(s.lock.job, cur, n, s.published);
  }

  lemma NextUpTo(s: State)
    requires Ready(s)
    ensures forall n | n in Next(s).roots ::
      UpTo(SnapshotOf(Next(s)), n) && Based(s.published, n, Next(s).roots[n])
  {
    NextRoots(s);
    forall n | n in Next(s).roots
      ensures UpTo(SnapshotOf(Next(s)), n) && Based(s.published, n, Next(s).roots[n])
    {
      if n in OldRoots(s) {
        OldUpTo(s, n);
      } else {
        NewUpTo(s, n);
      }
    }
  }

  /** An entry of the old list, under the new manifest. */
  lemma OldStaysOk(s: State, e: Entry)
    requires Ready(s) && s.manifest.Some? && RetiredOk(s.manifest.value, s.used, e)
    requires s.lock.job.Build? ==> EpochOf(e) != s.lock.job.epoch
    ensures RetiredOk(Next(s), s.used, e)
  {
    SameBuildLater(s);
    NextRoots(s);
    if e.Within? && e.name in Writes(s.lock.job) {
      WritesLater(s, s.lock.job, e.name);
    }
  }

  /** What a job writes is of its build, and later than the snapshot it is for. */
  lemma WritesLater(s: State, job: Job, name: Name)
    requires Ready(s) && s.manifest.Some? && job == s.lock.job && name in Writes(job)
    ensures job.Build? ==> name.epoch == job.epoch
    ensures !job.Build? ==> name.epoch == s.manifest.value.epoch && !UpTo(SnapshotOf(s.manifest.value), name)
  {
    assert SnapshotOk(s, SnapshotOf(s.manifest.value));
  }

  /** A file superseded now is dropped from the manifest, and was of it before. */
  lemma SupersededFile(s: State)
    requires Ready(s) && !s.lock.job.Build? && Superseded(s.manifest, s.lock.job) != []
    ensures var e := Superseded(s.manifest, s.lock.job)[0];
      e.Within? && e.name in Dropped(s.manifest.value, s.lock.job) && UpTo(SnapshotOf(s.manifest.value), e.name)
  {
    if s.lock.job.Parse? {
      ParsePhase(s);
    }
  }

  lemma DroppedGone(s: State, n: Name)
    requires s.lock.Writing? && s.manifest.Some? && n in Dropped(s.manifest.value, s.lock.job)
    ensures n !in Next(s).roots
  {
  }

  /** An entry superseded now, under the new manifest. */
  lemma SupersededOk(s: State, e: Entry)
    requires Ready(s) && e in Superseded(s.manifest, s.lock.job)
    ensures RetiredOk(Next(s), s.used, e)
  {
    SameBuildLater(s);
    assert e == Superseded(s.manifest, s.lock.job)[0];
    if !s.lock.job.Build? {
      SupersededFile(s);
      DroppedGone(s, e.name);
    }
  }

  /** What was retired, or is superseded now, covers nothing the new manifest
      names. */
  lemma RetiredStaysOk(s: State, e: Entry)
    requires Ready(s) && Listed(OldRetired(s), Superseded(s.manifest, s.lock.job), e)
    ensures RetiredOk(Next(s), s.used, e)
  {
    if e in Superseded(s.manifest, s.lock.job) {
      SupersededOk(s, e);
    } else {
      var r :| r in OldRetired(s) && r.entry == e;
      var i :| 0 <= i < |OldRetired(s)| && OldRetired(s)[i] == r;
      assert RetiredOk(s.manifest.value, s.used, s.manifest.value.retired[i].entry);
      OldStaysOk(s, e);
    }
  }

  lemma NextEpoch(s: State)
    requires Ready(s)
    ensures Next(s).epoch in s.used
    ensures s.lock.job.Build? ==> Next(s).seqNo == SEQ_PHASE1 && Next(s).epoch == s.lock.job.epoch
    ensures !s.lock.job.Build? && Next(s).epoch in s.parsing ==> Next(s).seqNo == SEQ_PHASE1
  {
    if s.manifest.Some? {
      assert SnapshotOk(s, SnapshotOf(s.manifest.value));
    }
  }

  lemma NextNames(s: State)
    requires Ready(s)
    ensures RootsAreNamed(Next(s)) && PhaseOf(Next(s)) && SkippedName(Next(s))
  {
    var job, m := s.lock.job, Next(s);
    match job {
      case Build(_, _) => BuildNames(m, job);
      case Parse(_, _) =>
        NextReplaces(s);
        ParsePhase(s);
        ParseNames(s.manifest.value, m, job);
      case Apply(_, _, _) =>
        NextReplaces(s);
        ApplyNames(s.manifest.value, m, job);
      case Idle(_) => IdleNames(s);
    }
  }

  lemma NextShape(s: State)
    requires Ready(s)
    ensures Shape(Next(s), s.used)
    ensures forall e | e in RetirementOf(s.manifest, s.lock.job, s.clock).due :: Spares(e, Next(s))
  {
    NextNames(s);
    NextEpoch(s);
    RetireOnly(OldRetired(s), Superseded(s.manifest, s.lock.job), s.clock);
    var r := RetirementOf(s.manifest, s.lock.job, s.clock);
    forall e | e in r.due ensures Spares(e, Next(s)) {
      RetiredStaysOk(s, e);
    }
    forall k | k in r.kept ensures RetiredOk(Next(s), s.used, k.entry) {
      RetiredStaysOk(s, k.entry);
    }
    assert Next(s).retired == r.kept;
  }

  /** A snapshot is published once; publishing it again names the same files. */
  lemma NextIsNew(s: State)
    requires Ready(s)
    ensures var t := SnapshotOf(Next(s)); t in s.published ==> s.published[t] == Next(s).roots
  {
    var t := SnapshotOf(Next(s));
    if t in s.published {
      assert SnapshotOk(s, t);
    }
  }

  /** A snapshot already published stays well formed in a state that has it with
      the same files. */
  lemma SnapshotStays(s: State, r: State, t: Snapshot)
    requires t in s.published && SnapshotOk(s, t)
    requires r.disk == s.disk && r.used == s.used && forall u | u in s.published :: u in r.published
    requires t in r.published && r.published[t] == s.published[t]
    requires t.epoch in r.parsing ==> t.epoch in s.parsing
    requires r.manifest.Some? && t.epoch == r.manifest.value.epoch ==>
      t.seqNo <= r.manifest.value.seqNo && t.deltas <= r.manifest.value.deltas
    ensures SnapshotOk(r, t)
  {
  }

  lemma PublishedOk(s: State, t: Snapshot)
    requires Ready(s) && t in s.published && t != SnapshotOf(Next(s))
    ensures SnapshotOk(Published(s), t)
  {
    assert SnapshotOk(s, t);
    NewestLater(s, t);
    SnapshotStays(s, Published(s), t);
  }

  /** A publication is of another build, or comes no earlier. */
  lemma NewestLater(s: State, t: Snapshot)
    requires Ready(s) && t in s.published
    ensures t.epoch in Published(s).parsing ==> t.epoch in s.parsing
    ensures t.epoch == Next(s).epoch ==> t.seqNo <= Next(s).seqNo && t.deltas <= Next(s).deltas
  {
    assert SnapshotOk(s, t);
    if s.manifest.Some? {
      SameBuildLater(s);
    }
    assert s.lock.job.Build? ==> BuildOk(s, s.lock.job.epoch) && t.epoch != Next(s).epoch;
  }

  lemma NextDeltas(s: State)
    requires Ready(s)
    ensures HasDeltas(SnapshotOf(Next(s)), Next(s).roots)
  {
    NextNames(s);
    forall i: nat | 1 <= i <= Next(s).deltas ensures DeltaFile(Next(s).epoch, i) in Next(s).roots {
      assert Names(Next(s), DeltaFile(Next(s).epoch, i));
    }
  }

  lemma NewestOk(s: State)
    requires Ready(s)
    ensures SnapshotOk(Published(s), SnapshotOf(Next(s)))
  {
    NextUpTo(s);
    NextOnDisk(s);
    NextEpoch(s);
    NextDeltas(s);
  }

  lemma NewestManifestOk(s: State)
    requires Ready(s)
    ensures ManifestOk(Published(s)) && LockOk(Published(s))
  {
    NextShape(s);
    NextOnDisk(s);
  }

  lemma SnapshotsStayOk(s: State)
    requires Ready(s)
    ensures forall t | t in Published(s).published :: SnapshotOk(Published(s), t)
  {
    forall t | t in Published(s).published ensures SnapshotOk(Published(s), t) {
      if t == SnapshotOf(Next(s)) {
        NewestOk(s);
      } else {
        PublishedOk(s, t);
      }
    }
  }

  lemma PublishStep(s: State)
    requires Ready(s)
    ensures Inv(Published(s))
    ensures forall t | t in s.published :: t in Published(s).published && Published(s).published[t] == s.published[t]
  {
    NewestManifestOk(s);
    SnapshotsStayOk(s);
    RecordStays(s);
    ParsingKnown(s);
  }

  lemma RecordStays(s: State)
    requires Ready(s)
    ensures forall t | t in s.published :: t in Published(s).published && Published(s).published[t] == s.published[t]
  {
    NextIsNew(s);
  }

  lemma ParsingKnown(s: State)
    requires Ready(s)
    ensures Published(s).parsing <= Published(s).used && Published(s).disk == s.disk
  {
    NextEpoch(s);
  }

  /** Waiting in the new manifest, or handed to cleanup. */
  ghost predicate Accounted(s: State, e: Entry)
    requires s.lock.Writing? && (!s.lock.job.Build? ==> s.manifest.Some?)
  {
    e in RetirementOf(s.manifest, s.lock.job, s.clock).due || Lists(Next(s).retired, e)
  }

  /** No file leaks: one the new manifest no longer names is retired, on its own
      or with its build, and waits there or goes to cleanup. */
  lemma DroppedIsRetired(s: State, n: Name)
    requires Ready(s) && s.manifest.Some? && n in s.manifest.value.roots && n !in Next(s).roots
    ensures exists e :: Covers(e, n) && Accounted(s, e)
  {
    RootsOfBuild(s, n);
    NextRoots(s);
    DroppedCovered(s, n);
    var e :| e in Superseded(s.manifest, s.lock.job) && Covers(e, n);
    RetireAll(OldRetired(s), Superseded(s.manifest, s.lock.job), s.clock, e);
    assert Accounted(s, e);
  }

  lemma DroppedCovered(s: State, n: Name)
    requires Ready(s) && s.manifest.Some? && n.epoch == s.manifest.value.epoch
    requires s.lock.job.Build? || n in Dropped(s.manifest.value, s.lock.job)
    ensures exists e :: e in Superseded(s.manifest, s.lock.job) && Covers(e, n)
  {
    assert Superseded(s.manifest, s.lock.job) != [];
    assert Superseded(s.manifest, s.lock.job)[0] in Superseded(s.manifest, s.lock.job);
  }
}
