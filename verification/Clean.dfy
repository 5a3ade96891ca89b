// Import edges over a whole history (crates/greeg-index/src/fresh.rs, build.rs,
// resolve.rs): every delta resolves the imports of its own files, a check adds
// the files whose imports a changed file moves, and after any number of rounds
// the stored targets lead where a clean build over the live files would point.

module Clean {
  import opened Bytes
  import opened Versions
  import E = Edges
  import R = Reach

  /** The target id of each import of a file. */
  type Targets = seq<Option<nat>>

  /** The text of a path, the imports extraction finds in a file, and the search
      roots of Python. */
  datatype Setting = Setting(name: Bytes -> string, imports: Row -> seq<R.Import>, roots: seq<string>)

  ghost predicate GoodSetting(s: Setting) {
    && (forall a, b | s.name(a) == s.name(b) :: a == b)
    && (forall row, k | 0 <= k < |s.imports(row)| :: R.Modelled(s.imports(row)[k]))
  }

  /** The live files, as a resolver sees them. */
  ghost function FilesOf(s: Setting, base: seq<Row>, ds: seq<Delta>): R.Paths {
    set id | 0 <= id < |Rows(base, ds)| && LiveBefore(base, ds, id) :: s.name(Rows(base, ds)[id].path)
  }

  // ------------------------------------------------------------ the live version of an id

  /** The file of a delta that supersedes `id`. */
  function Replacing(prev: seq<Option<nat>>, id: nat): (i: Option<nat>)
    ensures i.Some? ==> i.value < |prev| && prev[i.value] == Some(id)
    ensures i.None? ==> forall k | 0 <= k < |prev| :: prev[k] != Some(id)
  {
    if prev == [] then None
    else if prev[|prev| - 1] == Some(id) then Some(|prev| - 1)
    else Replacing(prev[..|prev| - 1], id)
  }

  /** A live id after a delta: itself, its new version, or nothing. */
  function AfterDelta(d: Delta, l: nat): Option<nat> {
    if l !in d.tomb then Some(l)
    else
      var i := Replacing(d.prev, l);
      if i.Some? then Some(d.firstId + i.value) else None
  }

  /** The live version of an id, if its file is still there. */
  ghost function LiveOf(base: seq<Row>, ds: seq<Delta>, t: nat): Option<nat>
    decreases |ds|
  {
    if ds == [] then if t < |base| then Some(t) else None
    else
      var d := ds[|ds| - 1];
      if d.firstId <= t then if t < d.firstId + |d.rows| then Some(t) else None
      else
        var l := LiveOf(base, ds[..|ds| - 1], t);
        if l.Some? then AfterDelta(d, l.value) else None
  }

  /** What a delta makes of a live id. */
  lemma {:induction false} AfterDeltaLive(base: seq<Row>, ds: seq<Delta>, d: Delta, l: nat)
    requires GoodDeltas(base, ds) && Follows(base, ds, d) && LiveBefore(base, ds, l)
    ensures AfterDelta(d, l).Some? ==>
      && LiveBefore(base, ds + [d], AfterDelta(d, l).value)
      && Rows(base, ds + [d])[AfterDelta(d, l).value].path == Rows(base, ds)[l].path
  {
    var r := AfterDelta(d, l);
    if r.Some? {
      LiveAfter(base, ds, d, r.value);
      if l in d.tomb {
        assert SupersedesOwn(base, ds, d, r.value - d.firstId);
      }
    }
  }

  /** The live version is live, and at the same path. */
  lemma {:induction false} LiveOfIsLive(base: seq<Row>, ds: seq<Delta>, t: nat)
    requires GoodDeltas(base, ds) && LiveOf(base, ds, t).Some?
    ensures t < |Rows(base, ds)| && LiveBefore(base, ds, LiveOf(base, ds, t).value)
    ensures Rows(base, ds)[LiveOf(base, ds, t).value].path == Rows(base, ds)[t].path
    decreases |ds|
  {
    if ds != [] {
      var d, front := ds[|ds| - 1], ds[..|ds| - 1];
      LastFollows(base, ds);
      assert ds == front + [d];
      if d.firstId <= t {
        LiveAfter(base, front, d, t);
      } else {
        LiveOfIsLive(base, front, t);
        AfterDeltaLive(base, front, d, LiveOf(base, front, t).value);
      }
    }
  }

  lemma {:induction false} LiveSelf(base: seq<Row>, ds: seq<Delta>, id: nat)
    requires GoodDeltas(base, ds) && LiveBefore(base, ds, id)
    ensures LiveOf(base, ds, id) == Some(id)
    decreases |ds|
  {
    if ds != [] {
      var d, front := ds[|ds| - 1], ds[..|ds| - 1];
      LastFollows(base, ds);
      assert ds == front + [d];
      LiveAfter(base, front, d, id);
      if id < d.firstId {
        LiveSelf(base, front, id);
      }
    }
  }

  // ------------------------------------------------------------ the live version is the newest

  ghost function RootOf(ds: seq<Delta>, id: nat): nat {
    E.Chase(PrevAll(ds), id, |ds|)
  }

  lemma RootBelow(base: seq<Row>, ds: seq<Delta>, id: nat)
    requires GoodDeltas(base, ds) && ds != [] && id < ds[|ds| - 1].firstId
    ensures RootOf(ds, id) == RootOf(ds[..|ds| - 1], id) < ds[|ds| - 1].firstId
  {
    var front := ds[..|ds| - 1];
    LastFollows(base, ds);
    E.ChaseBelow(base, ds, id, |ds|);
    E.ChainShort(base, front, id);
    E.ChaseSettles(PrevAll(front), id, |front|, |ds|);
  }

  /** The version of a live id before the last delta. */
  ghost function Origin(d: Delta, l: nat): Option<nat> {
    if l < d.firstId then Some(l)
    else if l < d.firstId + |d.prev| then d.prev[l - d.firstId]
    else None
  }

  lemma {:induction false} RootOfLive(base: seq<Row>, ds: seq<Delta>, l: nat)
    requires GoodDeltas(base, ds) && ds != [] && l < |Rows(base, ds)|
    ensures var d, o := ds[|ds| - 1], Origin(ds[|ds| - 1], l);
      if o.None? then RootOf(ds, l) == l >= d.firstId
      else o.value < d.firstId && RootOf(ds, l) == RootOf(ds[..|ds| - 1], o.value) < d.firstId
  {
    var d, front := ds[|ds| - 1], ds[..|ds| - 1];
    LastFollows(base, ds);
    if l < d.firstId {
      RootBelow(base, ds, l);
    } else {
      PrevUpToMeans(d, |d.prev|, l);
      if l in PrevAll(front) {
        PrevMeans(base, front, l);
      }
      if l in PrevOf(d) {
        PrevOfMeans(base, front, d, l);
        E.ChaseBelow(base, ds, PrevOf(d)[l], |front|);
        RootBelow(base, ds, PrevOf(d)[l]);
      }
    }
  }

  /** A live id comes from one live id, or is new. */
  lemma OriginLive(base: seq<Row>, ds: seq<Delta>, d: Delta, l: nat, x: nat)
    requires GoodDeltas(base, ds) && Follows(base, ds, d) && LiveBefore(base, ds + [d], l)
    ensures Origin(d, l) == Some(x) <==> LiveBefore(base, ds, x) && AfterDelta(d, x) == Some(l)
  {
    LiveAfter(base, ds, d, l);
    if l >= d.firstId {
      var i := l - d.firstId;
      assert SupersedesOwn(base, ds, d, i);
      assert AfterDelta(d, x) == Some(l) && x in d.tomb ==> d.prev[i] == Some(x);
      if d.prev[i] == Some(x) {
        assert Replacing(d.prev, x) == Some(i);
      }
    }
  }

  /** The live version of an id is the live id of the same oldest version. */
  lemma {:induction false} LiveRoot(base: seq<Row>, ds: seq<Delta>, t: nat, l: nat)
    requires GoodDeltas(base, ds) && t < |Rows(base, ds)| && LiveBefore(base, ds, l)
    ensures RootOf(ds, t) == RootOf(ds, l) <==> LiveOf(base, ds, t) == Some(l)
    decreases |ds|
  {
    if ds != [] {
      var d, front := ds[|ds| - 1], ds[..|ds| - 1];
      LastFollows(base, ds);
      assert ds == front + [d];
      RootOfLive(base, ds, l);
      var o := Origin(d, l);
      if t < d.firstId {
        RootBelow(base, ds, t);
        OlderRoot(base, front, d, t, l);
        if o.Some? {
          OriginLive(base, front, d, l, o.value);
          LiveRoot(base, front, t, o.value);
        }
      } else if t != l {
        RootOfLive(base, ds, t);
        LiveAfter(base, front, d, t);
        var q := Origin(d, t);
        if o.Some? && q.Some? {
          OriginLive(base, front, d, l, o.value);
          OriginLive(base, front, d, t, q.value);
          LiveRoot(base, front, q.value, o.value);
          LiveSelf(base, front, q.value);
        }
      }
    }
  }

  lemma {:induction false} OlderRoot(base: seq<Row>, ds: seq<Delta>, d: Delta, t: nat, l: nat)
    requires GoodDeltas(base, ds) && Follows(base, ds, d) && LiveBefore(base, ds + [d], l) && t < d.firstId
    ensures LiveOf(base, ds + [d], t) == Some(l) <==> Origin(d, l).Some? && LiveOf(base, ds, t) == Origin(d, l)
  {
    assert (ds + [d])[..|ds|] == ds;
    var was := LiveOf(base, ds, t);
    if was.Some? {
      LiveOfIsLive(base, ds, t);
      OriginLive(base, ds, d, l, was.value);
    }
    if Origin(d, l).Some? {
      OriginLive(base, ds, d, l, Origin(d, l).value);
    }
  }

  /** What `latest` and `is_live` say of a target. */
  lemma {:induction false} LatestIsLive(ix: Index, t: nat)
    requires Valid(ix) && t < |AllRows(ix)|
    ensures LiveOf(ix.base, ix.deltas, t) == if IsLive(ix, E.Top(ix, t)) then Some(E.Top(ix, t)) else None
  {
    var l, top := LiveOf(ix.base, ix.deltas, t), E.Top(ix, t);
    if l.Some? {
      LiveOfIsLive(ix.base, ix.deltas, t);
      LiveRoot(ix.base, ix.deltas, t, l.value);
      E.SameFile(ix, t, l.value);
    }
    if IsLive(ix, top) {
      LiveRoot(ix.base, ix.deltas, t, top);
      E.SameFile(ix, t, top);
    }
  }

  // ------------------------------------------------------------ stored targets

  /** The path a stored target leads to. */
  ghost function TargetPath(s: Setting, base: seq<Row>, ds: seq<Delta>, t: Option<nat>): Option<string> {
    if t.None? then None
    else
      var l := LiveOf(base, ds, t.value);
      if l.Some? && l.value < |Rows(base, ds)| then Some(s.name(Rows(base, ds)[l.value].path)) else None
  }

  ghost function Resolved(s: Setting, base: seq<Row>, ds: seq<Delta>, row: Row, k: nat): Option<string>
    requires GoodSetting(s) && k < |s.imports(row)|
  {
    R.ResolveModule(FilesOf(s, base, ds), s.roots, s.name(row.path), s.imports(row)[k])
  }

  /** An import whose probes the filter looks up leads where a clean build over the
      live files would point it. */
  ghost predicate CleanAt(s: Setting, base: seq<Row>, ds: seq<Delta>, row: Row, ts: Targets, k: nat)
    requires GoodSetting(s) && k < |s.imports(row)| == |ts|
  {
    R.Looked(s.roots, s.name(row.path), s.imports(row)[k]) ==>
      TargetPath(s, base, ds, ts[k]) == Resolved(s, base, ds, row, k)
  }

  ghost predicate CleanFile(s: Setting, base: seq<Row>, ds: seq<Delta>, row: Row, ts: Targets)
    requires GoodSetting(s)
  {
    && |ts| == |s.imports(row)|
    && (forall k: nat | k < |ts| && ts[k].Some? :: ts[k].value < |Rows(base, ds)|)
    && forall k: nat {:trigger CleanAt(s, base, ds, row, ts, k)} | k < |ts| :: CleanAt(s, base, ds, row, ts, k)
  }

  ghost predicate AllClean(s: Setting, base: seq<Row>, ds: seq<Delta>, targets: seq<Targets>)
    requires GoodSetting(s)
  {
    |targets| == |Rows(base, ds)| && forall a: nat {:trigger LiveBefore(base, ds, a)} | LiveBefore(base, ds, a) ::
      CleanFile(s, base, ds, Rows(base, ds)[a], targets[a])
  }

  /** What resolution records: no target, or the live file of that path. */
  ghost predicate TargetIs(s: Setting, base: seq<Row>, ds: seq<Delta>, t: Option<nat>, r: Option<string>) {
    match r
    case None => t.None?
    case Some(p) => t.Some? && LiveBefore(base, ds, t.value) && s.name(Rows(base, ds)[t.value].path) == p
  }

  /** The targets of a file just extracted. */
  ghost predicate JustResolved(s: Setting, base: seq<Row>, ds: seq<Delta>, row: Row, ts: Targets)
    requires GoodSetting(s)
  {
    |ts| == |s.imports(row)| && forall k: nat | k < |ts| :: TargetIs(s, base, ds, ts[k], Resolved(s, base, ds, row, k))
  }

  lemma ResolvedIsClean(s: Setting, base: seq<Row>, ds: seq<Delta>, row: Row, ts: Targets)
    requires GoodSetting(s) && GoodDeltas(base, ds) && JustResolved(s, base, ds, row, ts)
    ensures CleanFile(s, base, ds, row, ts)
  {
    forall k: nat | k < |ts| ensures CleanAt(s, base, ds, row, ts, k) {
      assert TargetIs(s, base, ds, ts[k], Resolved(s, base, ds, row, k));
      if ts[k].Some? {
        LiveSelf(base, ds, ts[k].value);
      }
    }
  }

  // ------------------------------------------------------------ one round

  ghost function NameAt(s: Setting, base: seq<Row>, ds: seq<Delta>, id: nat): string {
    if id < |Rows(base, ds)| then s.name(Rows(base, ds)[id].path) else ""
  }

  /** The paths added and deleted. */
  ghost function ChangedPaths(s: Setting, base: seq<Row>, ds: seq<Delta>, ch: Changes): seq<string> {
    seq(|ch.added|, i requires 0 <= i < |ch.added| => s.name(ch.added[i].path))
    + seq(|ch.deleted|, i requires 0 <= i < |ch.deleted| => NameAt(s, base, ds, ch.deleted[i]))
  }

  /** The path a stored target leads to once some files are deleted. */
  ghost function WasPath(s: Setting, base: seq<Row>, ds: seq<Delta>, ch: Changes, t: Option<nat>): Option<string> {
    if t.None? then None
    else
      var l := LiveOf(base, ds, t.value);
      if l.Some? && l.value !in ch.deleted then Some(NameAt(s, base, ds, l.value)) else None
  }

  /** `reresolve`: some import the changes may move is answered by another file. */
  ghost predicate Moved(s: Setting, base: seq<Row>, ds: seq<Delta>, after: seq<Delta>, ch: Changes, row: Row,
                       ts: Targets)
    requires GoodSetting(s) && |ts| == |s.imports(row)|
  {
    exists k: nat :: k < |ts|
      && R.MayMove(R.ReachOf(ChangedPaths(s, base, ds, ch)), s.name(row.path), s.imports(row)[k])
      && Resolved(s, base, after, row, k) != WasPath(s, base, ds, ch, ts[k])
  }

  /** The delta of some changes, whatever its edges. */
  ghost predicate DeltaFor(base: seq<Row>, ds: seq<Delta>, ch: Changes, d: Delta) {
    && GoodDeltas(base, ds) && GoodChanges(base, ds, ch) && Follows(base, ds, d)
    && d.rows == ModifiedRows(ch) + ch.added && d.prev == PrevIds(ch) && d.tomb == Retired(ch)
  }

  lemma ChangedHolds(s: Setting, base: seq<Row>, ds: seq<Delta>, ch: Changes, id: nat, row: Row)
    ensures id in ch.deleted ==> NameAt(s, base, ds, id) in ChangedPaths(s, base, ds, ch)
    ensures row in ch.added ==> s.name(row.path) in ChangedPaths(s, base, ds, ch)
  {
    var changed := ChangedPaths(s, base, ds, ch);
    if id in ch.deleted {
      var i :| 0 <= i < |ch.deleted| && ch.deleted[i] == id;
      assert changed[|ch.added| + i] == NameAt(s, base, ds, id);
    }
    if row in ch.added {
      var i :| 0 <= i < |ch.added| && ch.added[i] == row;
      assert changed[i] == s.name(row.path);
    }
  }

  /** A file gone from the resolver's view was deleted. */
  lemma GoneIsChanged(s: Setting, base: seq<Row>, ds: seq<Delta>, ch: Changes, d: Delta, id: nat)
    requires DeltaFor(base, ds, ch, d) && LiveBefore(base, ds, id)
    ensures NameAt(s, base, ds, id) in FilesOf(s, base, ds + [d])
      || NameAt(s, base, ds, id) in ChangedPaths(s, base, ds, ch)
  {
    var l := AfterDelta(d, id);
    ReplacedIfModified(base, ds, ch, d, id);
    if l.Some? {
      AfterDeltaLive(base, ds, d, id);
    } else {
      ChangedHolds(s, base, ds, ch, id, Row([], []));
    }
  }

  /** A file new to the resolver's view was added. */
  lemma NewIsChanged(s: Setting, base: seq<Row>, ds: seq<Delta>, ch: Changes, d: Delta, id: nat)
    requires DeltaFor(base, ds, ch, d) && LiveBefore(base, ds + [d], id)
    ensures NameAt(s, base, ds + [d], id) in FilesOf(s, base, ds)
      || NameAt(s, base, ds + [d], id) in ChangedPaths(s, base, ds, ch)
  {
    LiveAfter(base, ds, d, id);
    if id >= d.firstId {
      var i := id - d.firstId;
      if i < |ch.modified| {
        assert SamePath(base, ds, ch.modified[i]) && ModifiedIds(ch)[i] in Retired(ch);
      } else {
        ChangedHolds(s, base, ds, ch, id, ch.added[i - |ch.modified|]);
      }
    }
  }

  lemma FilesDiffer(s: Setting, base: seq<Row>, ds: seq<Delta>, ch: Changes, d: Delta)
    requires DeltaFor(base, ds, ch, d)
    ensures R.Covers(ChangedPaths(s, base, ds, ch), FilesOf(s, base, ds), FilesOf(s, base, ds + [d]))
  {
    var before, after := FilesOf(s, base, ds), FilesOf(s, base, ds + [d]);
    forall p | (p in before) != (p in after) ensures p in ChangedPaths(s, base, ds, ch) {
      if p in before {
        var id: nat :| LiveBefore(base, ds, id) && s.name(Rows(base, ds)[id].path) == p;
        GoneIsChanged(s, base, ds, ch, d, id);
      } else {
        var id: nat :| LiveBefore(base, ds + [d], id) && s.name(Rows(base, ds + [d])[id].path) == p;
        NewIsChanged(s, base, ds, ch, d, id);
      }
    }
  }

  /** A stored target afterwards: where it led, unless its file was deleted. */
  lemma {:induction false} PathAfter(s: Setting, base: seq<Row>, ds: seq<Delta>, ch: Changes, d: Delta, t: Option<nat>)
    requires DeltaFor(base, ds, ch, d) && (t.Some? ==> t.value < |Rows(base, ds)|)
    ensures TargetPath(s, base, ds + [d], t) == WasPath(s, base, ds, ch, t)
  {
    assert (ds + [d])[..|ds|] == ds;
    if t.Some? && LiveOf(base, ds, t.value).Some? {
      var l := LiveOf(base, ds, t.value).value;
      LiveOfIsLive(base, ds, t.value);
      AfterDeltaLive(base, ds, d, l);
      ReplacedIfModified(base, ds, ch, d, l);
    }
  }

  lemma ReplacedIfModified(base: seq<Row>, ds: seq<Delta>, ch: Changes, d: Delta, l: nat)
    requires DeltaFor(base, ds, ch, d)
    ensures AfterDelta(d, l).None? <==> l in ch.deleted
  {
    if l in ch.deleted {
      forall k | 0 <= k < |d.prev| ensures d.prev[k] != Some(l) {
        assert k < |ch.modified| ==> ch.modified[k].0 !in ch.deleted;
      }
    } else if l in d.tomb {
      var i :| 0 <= i < |ModifiedIds(ch)| && ModifiedIds(ch)[i] == l;
      assert d.prev[i] == Some(l);
    }
  }

  /** An import of a file left alone stays clean. */
  lemma {:induction false} ImportStaysClean(s: Setting, base: seq<Row>, ds: seq<Delta>, ch: Changes, d: Delta, row: Row,
                                            ts: Targets, k: nat)
    requires GoodSetting(s) && DeltaFor(base, ds, ch, d) && k < |ts| == |s.imports(row)|
    requires CleanAt(s, base, ds, row, ts, k) && (ts[k].Some? ==> ts[k].value < |Rows(base, ds)|)
    requires !Moved(s, base, ds, ds + [d], ch, row, ts)
    requires s.name(row.path) in FilesOf(s, base, ds) && s.name(row.path) in FilesOf(s, base, ds + [d])
    ensures CleanAt(s, base, ds + [d], row, ts, k)
  {
    var from, im, changed := s.name(row.path), s.imports(row)[k], ChangedPaths(s, base, ds, ch);
    PathAfter(s, base, ds, ch, d, ts[k]);
    if R.Looked(s.roots, from, im) && !R.MayMove(R.ReachOf(changed), from, im) {
      FilesDiffer(s, base, ds, ch, d);
      R.ImportStays(changed, FilesOf(s, base, ds), FilesOf(s, base, ds + [d]), s.roots, from, im);
      KeptTarget(s, base, ds, ch, row, ts, k);
    }
  }

  /** The target of an import the filter rejects was not deleted. */
  lemma KeptTarget(s: Setting, base: seq<Row>, ds: seq<Delta>, ch: Changes, row: Row, ts: Targets, k: nat)
    requires GoodSetting(s) && GoodDeltas(base, ds) && k < |ts| == |s.imports(row)|
    requires CleanAt(s, base, ds, row, ts, k) && R.Looked(s.roots, s.name(row.path), s.imports(row)[k])
    requires s.name(row.path) in FilesOf(s, base, ds)
    requires !R.MayMove(R.ReachOf(ChangedPaths(s, base, ds, ch)), s.name(row.path), s.imports(row)[k])
    ensures WasPath(s, base, ds, ch, ts[k]) == Resolved(s, base, ds, row, k)
  {
    if ts[k].Some? && LiveOf(base, ds, ts[k].value).Some? {
      var l := LiveOf(base, ds, ts[k].value).value;
      LiveOfIsLive(base, ds, ts[k].value);
      ChangedHolds(s, base, ds, ch, l, row);
      R.TargetUnchanged(ChangedPaths(s, base, ds, ch), FilesOf(s, base, ds), s.roots, s.name(row.path),
                        s.imports(row)[k]);
    }
  }

  lemma LiveIsFile(s: Setting, base: seq<Row>, ds: seq<Delta>, a: nat)
    requires LiveBefore(base, ds, a)
    ensures s.name(Rows(base, ds)[a].path) in FilesOf(s, base, ds)
  {
  }

  lemma FileStaysClean(s: Setting, base: seq<Row>, ds: seq<Delta>, ch: Changes, d: Delta, row: Row, ts: Targets)
    requires GoodSetting(s) && DeltaFor(base, ds, ch, d) && CleanFile(s, base, ds, row, ts)
    requires !Moved(s, base, ds, ds + [d], ch, row, ts)
    requires s.name(row.path) in FilesOf(s, base, ds) && s.name(row.path) in FilesOf(s, base, ds + [d])
    ensures CleanFile(s, base, ds + [d], row, ts)
  {
    LiveAfter(base, ds, d, 0);
    forall k: nat | k < |ts| ensures CleanAt(s, base, ds + [d], row, ts, k) {
      assert CleanAt(s, base, ds, row, ts, k);
      ImportStaysClean(s, base, ds, ch, d, row, ts, k);
    }
  }

  /** The targets of a delta's own files. */
  ghost predicate OwnResolved(s: Setting, base: seq<Row>, ds: seq<Delta>, rows: seq<Row>, own: seq<Targets>)
    requires GoodSetting(s)
  {
    |own| == |rows| && forall i: nat {:trigger JustResolved(s, base, ds, rows[i], own[i])} | i < |own| ::
      JustResolved(s, base, ds, rows[i], own[i])
  }

  /** Every file whose imports moved is among the changes. */
  ghost predicate MovedAgain(s: Setting, base: seq<Row>, ds: seq<Delta>, after: seq<Delta>, ch: Changes,
                            targets: seq<Targets>)
    requires GoodSetting(s) && |targets| == |Rows(base, ds)|
  {
    forall a: nat {:trigger LiveBefore(base, ds, a)} | LiveBefore(base, ds, a) && a !in Retired(ch) ::
      |targets[a]| == |s.imports(Rows(base, ds)[a])| ==> !Moved(s, base, ds, after, ch, Rows(base, ds)[a], targets[a])
  }

  /** One round keeps every stored target clean. */
  lemma RoundStaysClean(s: Setting, base: seq<Row>, ds: seq<Delta>, targets: seq<Targets>, ch: Changes,
                        own: seq<Targets>, d: Delta)
    requires GoodSetting(s) && AllClean(s, base, ds, targets) && DeltaFor(base, ds, ch, d)
    requires OwnResolved(s, base, ds + [d], d.rows, own) && MovedAgain(s, base, ds, ds + [d], ch, targets)
    ensures AllClean(s, base, ds + [d], targets + own)
  {
    var after := ds + [d];
    LiveAfter(base, ds, d, 0);
    GoodSnoc(base, ds, d);
    forall a: nat | LiveBefore(base, after, a)
      ensures CleanFile(s, base, after, Rows(base, after)[a], (targets + own)[a])
    {
      LiveAfter(base, ds, d, a);
      if a < d.firstId {
        LiveIsFile(s, base, ds, a);
        LiveIsFile(s, base, after, a);
        FileStaysClean(s, base, ds, ch, d, Rows(base, ds)[a], targets[a]);
      } else {
        assert JustResolved(s, base, after, d.rows[a - d.firstId], own[a - d.firstId]);
        ResolvedIsClean(s, base, after, d.rows[a - d.firstId], own[a - d.firstId]);
      }
    }
  }

  // ------------------------------------------------------------ histories

  /** One refresh: what changed, files to extract again included, and the targets
      of the delta's files. */
  datatype Refresh = Refresh(ch: Changes, own: seq<Targets>)

  /** The ids a file's imports lead to, its edges in the delta's graph. */
  function EdgesOf(ts: Targets): seq<nat> {
    if ts == [] then []
    else EdgesOf(ts[..|ts| - 1]) + if ts[|ts| - 1].Some? then [ts[|ts| - 1].value] else []
  }

  function AsRound(r: Refresh): Round {
    Round(r.ch, seq(|r.own|, i requires 0 <= i < |r.own| => EdgesOf(r.own[i])))
  }

  function AsRounds(rs: seq<Refresh>): seq<Round> {
    seq(|rs|, i requires 0 <= i < |rs| => AsRound(rs[i]))
  }

  /** The targets of every file the index has. */
  function TargetsOf(first: seq<Targets>, rs: seq<Refresh>): seq<Targets> {
    if rs == [] then first else TargetsOf(first, rs[..|rs| - 1]) + rs[|rs| - 1].own
  }

  ghost function DeltasOf(base: seq<Row>, rs: seq<Refresh>): seq<Delta> {
    History(base, AsRounds(rs))
  }

  ghost function DeltaOfRefresh(base: seq<Row>, ds: seq<Delta>, r: Refresh): Delta {
    DeltaOf(|Rows(base, ds)|, r.ch, AsRound(r).outs)
  }

  /** A refresh of files that changed, and of those whose imports moved, each
      resolved against the files there are after it. */
  ghost predicate GoodRefresh(s: Setting, base: seq<Row>, ds: seq<Delta>, targets: seq<Targets>, r: Refresh)
    requires GoodSetting(s) && |targets| == |Rows(base, ds)|
  {
    var d := DeltaOfRefresh(base, ds, r);
    GoodChanges(base, ds, r.ch) && OwnResolved(s, base, ds + [d], d.rows, r.own)
    && MovedAgain(s, base, ds, ds + [d], r.ch, targets)
  }

  /** A build that resolved every import, then good refreshes. */
  ghost predicate Resolving(s: Setting, base: seq<Row>, first: seq<Targets>, rs: seq<Refresh>)
    requires GoodSetting(s)
    decreases |rs|
  {
    if rs == [] then OnePerPath(base, []) && OwnResolved(s, base, [], base, first)
    else
      var n := |rs| - 1;
      var ds, targets := DeltasOf(base, rs[..n]), TargetsOf(first, rs[..n]);
      && Resolving(s, base, first, rs[..n])
      && |targets| == |Rows(base, ds)| && GoodRefresh(s, base, ds, targets, rs[n])
  }

  lemma {:induction false} EdgesKnown(ts: Targets, n: nat, e: nat)
    requires forall k: nat | k < |ts| && ts[k].Some? :: ts[k].value < n
    requires e in EdgesOf(ts)
    ensures e < n
  {
    if e in EdgesOf(ts[..|ts| - 1]) {
      EdgesKnown(ts[..|ts| - 1], n, e);
    }
  }

  lemma OutsKnown(s: Setting, base: seq<Row>, ds: seq<Delta>, r: Refresh)
    requires GoodSetting(s)
    requires var d := DeltaOfRefresh(base, ds, r); OwnResolved(s, base, ds + [d], d.rows, r.own)
    ensures GoodOuts(base, ds, r.ch, AsRound(r).outs)
  {
    var d, outs := DeltaOfRefresh(base, ds, r), AsRound(r).outs;
    assert (ds + [d])[..|ds|] == ds;
    var n := |Rows(base, ds)| + |d.rows|;
    forall i, k | 0 <= i < |outs| && 0 <= k < |outs[i]| ensures outs[i][k] < n {
      var ts := r.own[i];
      assert JustResolved(s, base, ds + [d], d.rows[i], ts);
      assert forall j: nat | j < |ts| && ts[j].Some? :: ts[j].value < n by {
        forall j: nat | j < |ts| && ts[j].Some? ensures ts[j].value < n {
          assert TargetIs(s, base, ds + [d], ts[j], Resolved(s, base, ds + [d], d.rows[i], j));
        }
      }
      assert outs[i][k] in EdgesOf(ts);
      EdgesKnown(ts, n, outs[i][k]);
    }
  }

  lemma RoundsSnoc(base: seq<Row>, rs: seq<Refresh>)
    requires rs != []
    ensures var n := |rs| - 1;
      var ds := DeltasOf(base, rs[..n]);
      DeltasOf(base, rs) == ds + [DeltaOfRefresh(base, ds, rs[n])]
  {
    assert AsRounds(rs)[..|rs| - 1] == AsRounds(rs[..|rs| - 1]);
  }

  /** The rounds of such a history are well formed, edges included. */
  lemma {:induction false} ResolvingIsGood(s: Setting, base: seq<Row>, first: seq<Targets>, rs: seq<Refresh>)
    requires GoodSetting(s) && Resolving(s, base, first, rs)
    ensures GoodHistory(base, AsRounds(rs)) && OnePerPath(base, [])
    decreases |rs|
  {
    if rs != [] {
      var n := |rs| - 1;
      ResolvingIsGood(s, base, first, rs[..n]);
      assert AsRounds(rs)[..n] == AsRounds(rs[..n]);
      OutsKnown(s, base, DeltasOf(base, rs[..n]), rs[n]);
    }
  }

  /** Over every history each import of a live file whose probes the filter looks up
      leads where resolution over the live files points it. */
  lemma {:induction false} HistoryIsClean(s: Setting, base: seq<Row>, first: seq<Targets>, rs: seq<Refresh>)
    requires GoodSetting(s) && Resolving(s, base, first, rs)
    ensures GoodDeltas(base, DeltasOf(base, rs))
    ensures AllClean(s, base, DeltasOf(base, rs), TargetsOf(first, rs))
    decreases |rs|
  {
    ResolvingIsGood(s, base, first, rs);
    HistoryGood(base, AsRounds(rs));
    if rs == [] {
      forall a: nat | LiveBefore(base, [], a) ensures CleanFile(s, base, [], base[a], first[a]) {
        assert JustResolved(s, base, [], base[a], first[a]);
        ResolvedIsClean(s, base, [], base[a], first[a]);
      }
    } else {
      var n := |rs| - 1;
      var ds := DeltasOf(base, rs[..n]);
      HistoryIsClean(s, base, first, rs[..n]);
      RoundsSnoc(base, rs);
      LastFollows(base, DeltasOf(base, rs));
      RoundStaysClean(s, base, ds, TargetsOf(first, rs[..n]), rs[n].ch, rs[n].own, DeltaOfRefresh(base, ds, rs[n]));
    }
  }

  // ------------------------------------------------------------ the same as building again

  /** `rows` are the files of the view. */
  ghost predicate AreView(base: seq<Row>, ds: seq<Delta>, rows: seq<Row>) {
    OnePerPath(rows, []) && forall row :: row in rows <==> InView(base, ds, row)
  }

  lemma SameFiles(s: Setting, base: seq<Row>, ds: seq<Delta>, rows: seq<Row>)
    requires AreView(base, ds, rows)
    ensures FilesOf(s, base, ds) == FilesOf(s, rows, [])
  {
    forall p ensures p in FilesOf(s, base, ds) <==> p in FilesOf(s, rows, []) {
      if p in FilesOf(s, base, ds) {
        var id: nat :| LiveBefore(base, ds, id) && s.name(Rows(base, ds)[id].path) == p;
        assert LiveBefore(base, ds, id) && id < |Rows(base, ds)|;
        assert InView(base, ds, Rows(base, ds)[id]);
        var i :| 0 <= i < |rows| && rows[i] == Rows(base, ds)[id];
        assert LiveBefore(rows, [], i);
      }
      if p in FilesOf(s, rows, []) {
        var i: nat :| LiveBefore(rows, [], i) && s.name(rows[i].path) == p;
        assert rows[i] in rows && InView(base, ds, rows[i]);
      }
    }
  }

  /** After any history those imports lead to the paths they would lead to had the
      index been built again from the live files. */
  lemma {:induction false} SameAsRebuilt(s: Setting, base: seq<Row>, first: seq<Targets>, rs: seq<Refresh>,
                      rows: seq<Row>, rebuilt: seq<Targets>, a: nat, b: nat, k: nat)
    requires GoodSetting(s) && Resolving(s, base, first, rs)
    requires AreView(base, DeltasOf(base, rs), rows) && OwnResolved(s, rows, [], rows, rebuilt)
    requires LiveBefore(base, DeltasOf(base, rs), a) && b < |rows| && rows[b] == Rows(base, DeltasOf(base, rs))[a]
    requires k < |s.imports(rows[b])| && R.Looked(s.roots, s.name(rows[b].path), s.imports(rows[b])[k])
    ensures a < |TargetsOf(first, rs)| && k < |TargetsOf(first, rs)[a]| && b < |rebuilt| && k < |rebuilt[b]|
    ensures TargetPath(s, base, DeltasOf(base, rs), TargetsOf(first, rs)[a][k]) == TargetPath(s, rows, [], rebuilt[b][k])
  {
    var ds := DeltasOf(base, rs);
    HistoryIsClean(s, base, first, rs);
    assert CleanAt(s, base, ds, rows[b], TargetsOf(first, rs)[a], k);
    assert JustResolved(s, rows, [], rows[b], rebuilt[b]);
    ResolvedIsClean(s, rows, [], rows[b], rebuilt[b]);
    assert CleanAt(s, rows, [], rows[b], rebuilt[b], k);
    SameFiles(s, base, ds, rows);
  }
}
