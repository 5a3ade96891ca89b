// Work markers (crates/greeg-index/src/lock.rs): an exclusive flock on a named
// file, a re-check that the name still means that file, and an unlink on drop.
// Every system call is a step; processes interleave freely and die anywhere.

module Marker {
  import opened Bytes

  /** Tries for the lock before the marker counts as held. */
  const TRIES := 5

  /** How far a process is, and the files it has open. */
  datatype Pc =
    | Idle
    | Opened(ino: nat, tries: nat)
    | Locked(ino: nat)
    | Looked(ino: nat, seen: Option<nat>)
    | Holding(ino: nat)
    | DropLooked(ino: nat, seen: Option<nat>)
    | Unlinking(ino: nat)
    | Closing(ino: nat)
    | ProbeOpened(ino: nat)
    | ProbeLocked(ino: nat)

  /** The marker's directory entry, the flocks, the processes, and the files an
      older program marked, without a lock, too recently to be taken over. An inode
      number is free for reuse once no entry and no open file refers to it. */
  datatype State = State(name: Option<nat>, locks: map<nat, nat>, procs: map<nat, Pc>, legacy: set<nat>)

  /** System calls of processes; at `Age` an older program's mark stops counting,
      whichever process is given. */
  datatype Event =
    | Open(pid: nat, created: nat)
    | TryLock(pid: nat)
    | Look(pid: nat)
    | Compare(pid: nat)
    | Drop(pid: nat)
    | Unlink(pid: nat)
    | Close(pid: nat)
    | Probe(pid: nat)
    | Die(pid: nat)
    | Age(pid: nat, ino: nat)

  function At(s: State, pid: nat): Pc {
    if pid in s.procs then s.procs[pid] else Idle
  }

  predicate Refers(pc: Pc, ino: nat) {
    match pc
    case Idle => false
    case Looked(i, seen) => i == ino || seen == Some(ino)
    case DropLooked(i, seen) => i == ino || seen == Some(ino)
    case _ => pc.ino == ino
  }

  predicate InUse(s: State, ino: nat) {
    s.name == Some(ino) || exists p | p in s.procs :: Refers(s.procs[p], ino)
  }

  /** The file the process has locked. */
  function Owned(pc: Pc): Option<nat> {
    if pc.Idle? || pc.Opened? || pc.ProbeOpened? then None else Some(pc.ino)
  }

  /** The marker the process holds: from the re-check that passed until its drop
      removed the name. */
  function Held(pc: Pc): (ino: Option<nat>)
    ensures ino.Some? ==> Owned(pc) == ino
  {
    if pc.Holding? || pc.DropLooked? || pc.Unlinking? then Some(pc.ino) else None
  }

  predicate Enabled(s: State, e: Event) {
    var pc := At(s, e.pid);
    match e
    case Open(_, created) => pc == Idle && (s.name == None ==> !InUse(s, created))
    case TryLock(_) => pc.Opened? || pc.ProbeOpened?
    case Look(_) => pc.Locked?
    case Compare(_) => pc.Looked? || pc.DropLooked?
    case Drop(_) => pc.Holding?
    case Unlink(_) => pc.Unlinking?
    case Close(_) => pc.Closing? || pc.ProbeLocked?
    case Probe(_) => pc == Idle && s.name.Some?
    case Die(_) => true
    case Age(_, _) => true
  }

  function Go(s: State, pid: nat, pc: Pc): State {
    s.(procs := s.procs[pid := pc])
  }

  /** The process closes all it has open, and its lock goes with that. */
  function Gone(s: State, pid: nat): State {
    Go(s, pid, Idle).(locks := map i | i in s.locks && s.locks[i] != pid :: s.locks[i])
  }

  function Tried(s: State, pid: nat): State
    requires At(s, pid).Opened? || At(s, pid).ProbeOpened?
  {
    var pc := At(s, pid);
    if pc.ino !in s.locks then
      Go(s, pid, if pc.Opened? then Locked(pc.ino) else ProbeLocked(pc.ino)).(locks := s.locks[pc.ino := pid])
    else if pc.Opened? && pc.tries + 1 < TRIES then Go(s, pid, Opened(pc.ino, pc.tries + 1))
    else Gone(s, pid)
  }

  function Compared(s: State, pid: nat): State
    requires At(s, pid).Looked? || At(s, pid).DropLooked?
  {
    var pc := At(s, pid);
    if pc.Looked? then
      // the owner before may have removed this file after it was opened: again
      if pc.seen == Some(pc.ino) && pc.ino !in s.legacy then Go(s, pid, Holding(pc.ino)) else Gone(s, pid)
    else if pc.seen == Some(pc.ino) then Go(s, pid, Unlinking(pc.ino))
    else Go(s, pid, Closing(pc.ino))
  }

  function Do(s: State, e: Event): State
    requires Enabled(s, e)
  {
    var pc := At(s, e.pid);
    match e
    case Open(pid, created) =>
      if s.name.Some? then Go(s, pid, Opened(s.name.value, 0))
      else Go(s, pid, Opened(created, 0)).(name := Some(created), legacy := s.legacy - {created})
    case TryLock(pid) => Tried(s, pid)
    case Look(pid) => Go(s, pid, Looked(pc.ino, s.name))
    case Compare(pid) => Compared(s, pid)
    case Drop(pid) => Go(s, pid, DropLooked(pc.ino, s.name))
    case Unlink(pid) => Go(s, pid, Closing(pc.ino)).(name := None)
    case Close(pid) => Gone(s, pid)
    case Probe(pid) => Go(s, pid, ProbeOpened(s.name.value))
    case Die(pid) => Gone(s, pid)
    case Age(_, ino) => s.(legacy := s.legacy - {ino})
  }

  // ------------------------------------------------------------ invariant

  /** Locks and their owners agree, and the name means the file of whoever holds
      the marker, or is about to. */
  ghost predicate ProcOk(s: State, pid: nat) {
    var pc := At(s, pid);
    && (forall i | i in s.locks && s.locks[i] == pid :: Owned(pc) == Some(i))
    && (Owned(pc).Some? ==> Owned(pc).value in s.locks && s.locks[Owned(pc).value] == pid)
    && (Held(pc).Some? ==> s.name == Held(pc))
    && (pc.Looked? && pc.seen == Some(pc.ino) ==> s.name == Some(pc.ino))
    && (pc.DropLooked? ==> pc.seen == Some(pc.ino))
  }

  ghost predicate Inv(s: State) {
    forall pid: nat :: ProcOk(s, pid)
  }

  lemma EmptyInv(s: State)
    requires s.locks == map[] && s.procs == map[]
    ensures Inv(s)
  {
  }

  lemma GoneInv(s: State, p: nat)
    requires Inv(s)
    ensures Inv(Gone(s, p))
  {
    forall pid: nat ensures ProcOk(Gone(s, p), pid) {
      assert ProcOk(s, pid);
    }
  }

  lemma TriedInv(s: State, p: nat)
    requires Inv(s) && (At(s, p).Opened? || At(s, p).ProbeOpened?)
    ensures Inv(Tried(s, p))
  {
    GoneInv(s, p);
    forall pid: nat ensures ProcOk(Tried(s, p), pid) {
      assert ProcOk(s, pid) && ProcOk(s, p) && ProcOk(Gone(s, p), pid);
    }
  }

  lemma ComparedInv(s: State, p: nat)
    requires Inv(s) && (At(s, p).Looked? || At(s, p).DropLooked?)
    ensures Inv(Compared(s, p))
  {
    GoneInv(s, p);
    forall pid: nat ensures ProcOk(Compared(s, p), pid) {
      assert ProcOk(s, pid) && ProcOk(s, p) && ProcOk(Gone(s, p), pid);
    }
  }

  lemma StepInv(s: State, e: Event)
    requires Inv(s) && Enabled(s, e)
    ensures Inv(Do(s, e))
  {
    if e.TryLock? {
      TriedInv(s, e.pid);
    } else if e.Compare? {
      ComparedInv(s, e.pid);
    } else if e.Close? || e.Die? {
      GoneInv(s, e.pid);
    } else {
      forall pid: nat ensures ProcOk(Do(s, e), pid) {
        assert ProcOk(s, pid) && ProcOk(s, e.pid);
      }
    }
  }

  /** No two live processes hold the marker, and its name means the file held. */
  lemma OneHolder(s: State, p: nat, q: nat)
    requires Inv(s) && Held(At(s, p)).Some? && Held(At(s, q)).Some?
    ensures p == q && s.name == Held(At(s, p))
  {
    assert ProcOk(s, p) && ProcOk(s, q);
  }

  /** An unlink removes only the file of the process that unlinks: no other
      process holds the marker then, nor is about to. */
  lemma UnlinksItsOwn(s: State, p: nat, q: nat)
    requires Inv(s) && At(s, p).Unlinking? && q != p
    ensures s.name == Some(At(s, p).ino)
    ensures Held(At(s, q)) == None
    ensures At(s, q).Looked? ==> At(s, q).seen != Some(At(s, q).ino)
  {
    assert ProcOk(s, p) && ProcOk(s, q);
  }

  /** Only its own drop or death takes a marker from the process that holds it. */
  lemma StaysHeld(s: State, e: Event, p: nat, i: nat)
    requires Inv(s) && Enabled(s, e) && Held(At(s, p)) == Some(i)
    requires e != Unlink(p) && e != Die(p)
    ensures Held(At(Do(s, e), p)) == Some(i) && Do(s, e).name == Some(i)
  {
    StepInv(s, e);
    assert ProcOk(s, p) && ProcOk(Do(s, e), p);
  }

  /** A probe opens the very file a holder has locked, so it finds it locked. */
  lemma ProbeSeesHolder(s: State, p: nat, i: nat, q: nat)
    requires Inv(s) && At(s, p) == Holding(i) && At(s, q) == Idle
    ensures Enabled(s, Probe(q)) && At(Do(s, Probe(q)), q) == ProbeOpened(i)
    ensures i in s.locks && s.locks[i] == p
  {
    assert ProcOk(s, p);
  }

  // ------------------------------------------------------------ runs

  function Runs(s: State, es: seq<Event>): Option<State> {
    if es == [] then Some(s)
    else
      var r := Runs(s, es[..|es| - 1]);
      if r.Some? && Enabled(r.value, es[|es| - 1]) then Some(Do(r.value, es[|es| - 1])) else None
  }

  /** At most one process holds the marker in every state of every run, whatever
      file an earlier process left behind. */
  lemma {:induction false} AlwaysOneHolder(s: State, es: seq<Event>)
    requires s.locks == map[] && s.procs == map[] && Runs(s, es).Some?
    ensures Inv(Runs(s, es).value)
    ensures forall p: nat, q: nat ::
      Held(At(Runs(s, es).value, p)).Some? && Held(At(Runs(s, es).value, q)).Some? ==> p == q
  {
    if es == [] {
      EmptyInv(s);
    } else {
      AlwaysOneHolder(s, es[..|es| - 1]);
      StepInv(Runs(s, es[..|es| - 1]).value, es[|es| - 1]);
    }
    var r := Runs(s, es).value;
    forall p: nat, q: nat | Held(At(r, p)).Some? && Held(At(r, q)).Some? ensures p == q {
      OneHolder(r, p, q);
    }
  }

  /** One attempt on an unlocked file takes it over, unless an older program marked
      it too recently. */
  lemma {:induction false} LeftMarkerIsTaken(s: State, p: nat, i: nat)
    requires Inv(s) && At(s, p) == Idle && s.name == Some(i) && i !in s.locks
    ensures var r := Runs(s, [Open(p, 0), TryLock(p), Look(p), Compare(p)]);
      && r.Some? && r.value.name == Some(i)
      && (At(r.value, p) == if i in s.legacy then Idle else Holding(i))
      && (i in s.legacy ==> i !in r.value.locks)
  {
    var a := Do(s, Open(p, 0));
    var b := Do(a, TryLock(p));
    var c := Do(b, Look(p));
    var es := [Open(p, 0), TryLock(p), Look(p), Compare(p)];
    assert es[..3] == [Open(p, 0), TryLock(p), Look(p)] && es[..3][..2] == [Open(p, 0), TryLock(p)];
    assert [Open(p, 0), TryLock(p)][..1] == [Open(p, 0)] && [Open(p, 0)][..0] == [];
    assert Runs(s, []) == Some(s);
    assert Runs(s, [Open(p, 0)]) == Some(a);
    assert Runs(s, [Open(p, 0), TryLock(p)]) == Some(b);
    assert Runs(s, es[..3]) == Some(c);
  }

  lemma {:induction false} RunsSnoc(s: State, es: seq<Event>, e: Event)
    requires Runs(s, es).Some? && Enabled(Runs(s, es).value, e)
    ensures Runs(s, es + [e]) == Some(Do(Runs(s, es).value, e))
  {
    assert (es + [e])[..|es|] == es;
  }

  /** The file removed by its holder, locked by one that opened it before. */
  function Removed(i: nat, p: nat, q: nat): seq<Event> {
    [Unlink(p)] + [Close(p)] + [TryLock(q)]
  }

  /** Another process making and taking the marker anew. */
  function Anew(r: nat, j: nat): seq<Event> {
    [Open(r, j)] + [TryLock(r)] + [Look(r)] + [Compare(r)]
  }

  /** Without the second look two processes would hold the marker: `q` has the lock
      of a removed file when `r` takes the new one. The look then turns `q` away. */
  lemma {:induction false} LookIsNeeded(s: State, p: nat, q: nat, r: nat, i: nat, j: nat)
    requires Inv(s) && p != q && p != r && q != r
    requires At(s, p) == Unlinking(i) && At(s, q) == Opened(i, 0) && At(s, r) == Idle && !InUse(s, j)
    ensures var t := Runs(s, Removed(i, p, q) + Anew(r, j));
      && t.Some? && At(t.value, q) == Locked(i) && At(t.value, r) == Holding(j) && i != j
      && Enabled(t.value, Look(q)) && Enabled(Do(t.value, Look(q)), Compare(q))
      && var u := Do(Do(t.value, Look(q)), Compare(q)); At(u, q) == Idle && At(u, r) == Holding(j)
  {
    assert ProcOk(s, p);
    var a := AfterRemoval(s, p, q, i);
    FreeStays(s, a, p, q, i, j);
    var b := TakenAnew(s, Removed(i, p, q), a, r, j);
  }

  /** The holder removes the marker and goes; another gets the lock of what it removed. */
  lemma ThreeSteps(s: State, p: nat, q: nat, i: nat) returns (s1: State, s2: State, a: State)
    requires p != q && At(s, p) == Unlinking(i) && At(s, q) == Opened(i, 0)
    requires i in s.locks ==> s.locks[i] == p
    ensures Enabled(s, Unlink(p)) && s1 == Do(s, Unlink(p))
    ensures Enabled(s1, Close(p)) && s2 == Do(s1, Close(p))
    ensures Enabled(s2, TryLock(q)) && a == Do(s2, TryLock(q))
    ensures a == State(None, (map x | x in s.locks && s.locks[x] != p :: s.locks[x])[i := q],
                       s.procs[p := Closing(i)][p := Idle][q := Locked(i)], s.legacy)
  {
    s1 := Do(s, Unlink(p));
    s2 := Do(s1, Close(p));
    a := Do(s2, TryLock(q));
  }

  lemma AfterRemoval(s: State, p: nat, q: nat, i: nat) returns (a: State)
    requires Inv(s) && p != q && At(s, p) == Unlinking(i) && At(s, q) == Opened(i, 0)
    ensures Runs(s, Removed(i, p, q)) == Some(a)
    ensures a == State(None, (map x | x in s.locks && s.locks[x] != p :: s.locks[x])[i := q],
                       s.procs[p := Closing(i)][p := Idle][q := Locked(i)], s.legacy)
  {
    assert ProcOk(s, p);
    var s1, s2, last := ThreeSteps(s, p, q, i);
    a := last;
    RunsSnoc(s, [], Unlink(p));
    assert [] + [Unlink(p)] == [Unlink(p)];
    RunsSnoc(s, [Unlink(p)], Close(p));
    RunsSnoc(s, [Unlink(p)] + [Close(p)], TryLock(q));
  }

  lemma LockedInUse(s: State, i: nat)
    requires Inv(s)
    ensures i in s.locks ==> InUse(s, i)
  {
    if i in s.locks {
      assert ProcOk(s, s.locks[i]);
    }
  }

  lemma FreeStays(s: State, a: State, p: nat, q: nat, i: nat, j: nat)
    requires Inv(s) && !InUse(s, j) && At(s, q) == Opened(i, 0)
    requires a.locks == (map x | x in s.locks && s.locks[x] != p :: s.locks[x])[i := q]
    requires a.procs == s.procs[p := Closing(i)][p := Idle][q := Locked(i)] && a.name == None
    ensures j != i && j !in a.locks && !InUse(a, j)
  {
    assert Refers(s.procs[q], i);
    LockedInUse(s, j);
  }

  /** An idle process takes a marker that is not there. */
  lemma FourSteps(a: State, r: nat, j: nat) returns (a1: State, a2: State, a3: State, b: State)
    requires a.name == None && At(a, r) == Idle && !InUse(a, j) && j !in a.locks
    ensures Enabled(a, Open(r, j)) && a1 == Do(a, Open(r, j))
    ensures Enabled(a1, TryLock(r)) && a2 == Do(a1, TryLock(r))
    ensures Enabled(a2, Look(r)) && a3 == Do(a2, Look(r))
    ensures Enabled(a3, Compare(r)) && b == Do(a3, Compare(r))
    ensures At(b, r) == Holding(j) && b.name == Some(j)
    ensures forall x: nat | x != r :: At(b, x) == At(a, x)
  {
    a1 := Do(a, Open(r, j));
    a2 := Do(a1, TryLock(r));
    a3 := Do(a2, Look(r));
    b := Do(a3, Compare(r));
  }

  lemma TakenAnew(s: State, es: seq<Event>, a: State, r: nat, j: nat) returns (b: State)
    requires Runs(s, es) == Some(a) && a.name == None && At(a, r) == Idle && !InUse(a, j) && j !in a.locks
    ensures Runs(s, es + Anew(r, j)) == Some(b)
    ensures At(b, r) == Holding(j) && b.name == Some(j)
    ensures forall x: nat | x != r :: At(b, x) == At(a, x)
  {
    var a1, a2, a3, last := FourSteps(a, r, j);
    b := last;
    RunsSnoc(s, es, Open(r, j));
    RunsSnoc(s, es + [Open(r, j)], TryLock(r));
    RunsSnoc(s, es + [Open(r, j)] + [TryLock(r)], Look(r));
    RunsSnoc(s, es + [Open(r, j)] + [TryLock(r)] + [Look(r)], Compare(r));
    assert es + [Open(r, j)] + [TryLock(r)] + [Look(r)] + [Compare(r)] == es + Anew(r, j);
  }
}
