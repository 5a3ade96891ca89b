// Publication (crates/greeg-index/src/snapshot.rs, build.rs, fresh.rs): builders,
// refreshers and lock-free readers share one directory. Writers compute outside
// the lock, publish only on the snapshot they started from, and superseded files
// wait out a grace period. Every file write, manifest rename and removal is a
// step of its own, and any writer may die between two of them.

module Publish {
  import opened Bytes

  const SEQ_PHASE1 := 1
  const SEQ_PHASE2 := 2
  const RETIRE_MS := 30_000
  const RETIRED_BUILDS := 2

  // ------------------------------------------------------------ names and manifests

  datatype Kind = Files | Grams | Words | Symbols | Spans | Graph | Skipped

  /** A file of a build's directory. */
  datatype Name =
    | Comp(epoch: nat, kind: Kind, seqNo: nat)
    | DeltaFile(epoch: nat, n: nat)
    | DeltaSkipped(epoch: nat, n: nat)

  function SeqOf(name: Name): nat {
    if name.Comp? then name.seqNo else name.n
  }

  datatype Snapshot = Snapshot(epoch: nat, seqNo: nat, deltas: nat)

  /** A file's identity, the snapshot its writer had opened, and its bytes. */
  datatype File = File(epoch: nat, seqNo: nat, basis: Option<Snapshot>, payload: nat)

  /** What retirement names: a whole build directory, or one file. */
  datatype Entry = Whole(epoch: nat) | Within(name: Name)

  function EpochOf(e: Entry): nat {
    match e case Whole(b) => b case Within(n) => n.epoch
  }

  predicate Covers(e: Entry, name: Name) {
    match e case Whole(b) => name.epoch == b case Within(n) => n == name
  }

  datatype Retired = Retired(entry: Entry, since: nat)

  datatype Components = Components(files: nat, grams: nat, words: nat, symbols: nat, spans: nat, graph: nat)

  datatype Manifest = Manifest(
    epoch: nat, seqNo: nat, comps: Components, deltas: nat, skipped: Name,
    roots: map<Name, File>, retired: seq<Retired>, phase1: bool, phase2: bool)

  function SnapshotOf(m: Manifest): Snapshot {
    Snapshot(m.epoch, m.seqNo, m.deltas)
  }

  function SeqIn(c: Components, k: Kind): nat {
    match k
    case Files => c.files
    case Grams => c.grams
    case Words => c.words
    case Symbols => c.symbols
    case Spans => c.spans
    case Graph => c.graph
    case Skipped => 0
  }

  /** The base component a reader opens for `k`, when it is published. */
  function Component(m: Manifest, k: Kind): Option<Name> {
    if SeqIn(m.comps, k) != 0 then Some(Comp(m.epoch, k, SeqIn(m.comps, k))) else None
  }

  /** The files a reader of the manifest opens. */
  ghost predicate Names(m: Manifest, name: Name) {
    || (name.Comp? && Component(m, name.kind) == Some(name))
    || (name.DeltaFile? && name.epoch == m.epoch && 1 <= name.n <= m.deltas)
    || name == m.skipped
  }

  // ------------------------------------------------------------ retirement

  predicate Over(r: Retired, now: nat) {
    now >= r.since && now - r.since >= RETIRE_MS
  }

  function Due(rs: seq<Retired>, now: nat): (d: seq<Entry>)
    ensures forall e :: e in d <==> exists i :: 0 <= i < |rs| && rs[i].entry == e && Over(rs[i], now)
  {
    if rs == [] then []
    else
      var n := |rs| - 1;
      assert forall i | 0 <= i < n :: rs[..n][i] == rs[i];
      Due(rs[..n], now) + if Over(rs[n], now) then [rs[n].entry] else []
  }

  /** The entries `p` holds of, in order. */
  function Keep(rs: seq<Retired>, p: Retired -> bool): (k: seq<Retired>)
    ensures forall r :: r in k <==> r in rs && p(r)
  {
    if rs == [] then []
    else
      var n := |rs| - 1;
      assert rs == rs[..n] + [rs[n]];
      Keep(rs[..n], p) + if p(rs[n]) then [rs[n]] else []
  }

  function Waiting(rs: seq<Retired>, now: nat): seq<Retired> {
    Keep(rs, r => !Over(r, now))
  }

  /** The retired builds, oldest first. */
  function Builds(rs: seq<Retired>): (b: seq<nat>)
    ensures forall e :: e in b <==> exists i :: 0 <= i < |rs| && rs[i].entry == Whole(e)
  {
    if rs == [] then []
    else
      var n := |rs| - 1;
      assert forall i | 0 <= i < n :: rs[..n][i] == rs[i];
      Builds(rs[..n]) + if rs[n].entry.Whole? then [rs[n].entry.epoch] else []
  }

  function Excess(rs: seq<Retired>): (x: seq<nat>)
    ensures forall e | e in x :: e in Builds(rs)
  {
    var b := Builds(rs);
    if |b| <= RETIRED_BUILDS then [] else b[..|b| - RETIRED_BUILDS]
  }

  /** Entries of the given builds, directories and files inside alike. */
  function Inside(rs: seq<Retired>, xs: seq<nat>): (d: seq<Entry>)
    ensures forall e :: e in d <==> exists i :: 0 <= i < |rs| && rs[i].entry == e && EpochOf(e) in xs
  {
    if rs == [] then []
    else
      var n := |rs| - 1;
      assert forall i | 0 <= i < n :: rs[..n][i] == rs[i];
      Inside(rs[..n], xs) + if EpochOf(rs[n].entry) in xs then [rs[n].entry] else []
  }

  function Outside(rs: seq<Retired>, xs: seq<nat>): seq<Retired> {
    Keep(rs, (r: Retired) => EpochOf(r.entry) !in xs)
  }

  function Stamped(es: seq<Entry>, now: nat): seq<Retired> {
    seq(|es|, i requires 0 <= i < |es| => Retired(es[i], now))
  }

  datatype Retirement = Retirement(kept: seq<Retired>, due: seq<Entry>)

  function Candidates(previous: seq<Retired>, superseded: seq<Entry>, now: nat): seq<Retired> {
    Waiting(previous, now) + Stamped(superseded, now)
  }

  /** `retire`: the list to publish, and what to remove after that. */
  function Retire(previous: seq<Retired>, superseded: seq<Entry>, now: nat): Retirement {
    var keep := Candidates(previous, superseded, now);
    var xs := Excess(keep);
    Retirement(Outside(keep, xs), Due(previous, now) + Inside(keep, xs))
  }

  ghost predicate Lists(rs: seq<Retired>, e: Entry) {
    exists r :: r in rs && r.entry == e
  }

  ghost predicate Listed(previous: seq<Retired>, superseded: seq<Entry>, e: Entry) {
    Lists(previous, e) || e in superseded
  }

  lemma CandidateListed(previous: seq<Retired>, superseded: seq<Entry>, now: nat, k: Retired)
    requires k in Candidates(previous, superseded, now)
    ensures !Over(k, now) && (k in previous || (k.since == now && k.entry in superseded))
    ensures Listed(previous, superseded, k.entry)
  {
    if k !in Waiting(previous, now) {
      var i :| 0 <= i < |superseded| && Stamped(superseded, now)[i] == k;
    }
  }

  /** An entry is handed to cleanup only past its grace period, or inside a
      build beyond those kept; the others wait on, with the time they had. */
  lemma {:induction false} RetireOnly(previous: seq<Retired>, superseded: seq<Entry>, now: nat)
    ensures var r := Retire(previous, superseded, now);
      && (forall e | e in r.due :: Listed(previous, superseded, e)
            && (e in Due(previous, now) || EpochOf(e) in Excess(Candidates(previous, superseded, now))))
      && (forall k | k in r.kept :: !Over(k, now) && (k in previous || (k.since == now && k.entry in superseded)))
  {
    var keep := Candidates(previous, superseded, now);
    var r := Retire(previous, superseded, now);
    forall e | e in r.due
      ensures Listed(previous, superseded, e) && (e in Due(previous, now) || EpochOf(e) in Excess(keep))
    {
      if e in Due(previous, now) {
        var i :| 0 <= i < |previous| && previous[i].entry == e && Over(previous[i], now);
        assert previous[i] in previous;
      } else {
        var i :| 0 <= i < |keep| && keep[i].entry == e && EpochOf(e) in Excess(keep);
        CandidateListed(previous, superseded, now, keep[i]);
      }
    }
    forall k | k in r.kept ensures !Over(k, now) && (k in previous || (k.since == now && k.entry in superseded)) {
      CandidateListed(previous, superseded, now, k);
    }
  }

  /** No entry is lost: each is handed to cleanup or still waits. */
  lemma RetireAll(previous: seq<Retired>, superseded: seq<Entry>, now: nat, e: Entry)
    requires Listed(previous, superseded, e)
    ensures var r := Retire(previous, superseded, now); e in r.due || Lists(r.kept, e)
  {
    var keep := Candidates(previous, superseded, now);
    if e in superseded {
      var i :| 0 <= i < |superseded| && superseded[i] == e;
      assert Stamped(superseded, now)[i] in keep;
      StillListed(keep, Stamped(superseded, now)[i]);
    } else {
      var p :| p in previous && p.entry == e;
      if Over(p, now) {
        var i :| 0 <= i < |previous| && previous[i] == p;
      } else {
        StillListed(keep, p);
      }
    }
  }

  lemma {:induction false} StillListed(keep: seq<Retired>, k: Retired)
    requires k in keep
    ensures k.entry in Inside(keep, Excess(keep)) || k in Outside(keep, Excess(keep))
  {
    var i :| 0 <= i < |keep| && keep[i] == k;
  }
}
