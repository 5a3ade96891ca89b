// Racy timestamps (crates/greeg-index/src/build.rs, fresh.rs): a record with no
// recheck mark whose stamp still equals the file's present stat describes the
// bytes on disk, whatever was written, and whenever, around the reads.

module Stamp {
  import opened Bytes

  /** Files above this size are not read whole. */
  const MAX_FILE := 0x40_0000
  const SECOND := 1_000_000_000
  const FINE_WINDOW := 20_000_000
  const COARSE_WINDOW := 2_000_000_000

  datatype Stamp = Stamp(size: nat, mtime: int, ctime: int, ino: nat, dev: nat)

  predicate Same(a: Stamp, b: Stamp, noIno: bool) {
    && a.size == b.size && a.mtime == b.mtime && a.ctime == b.ctime
    && (noIno || (a.ino == b.ino && a.dev == b.dev))
  }

  predicate WholeSeconds(s: Stamp) {
    s.mtime % SECOND == 0 && s.ctime % SECOND == 0
  }

  function Window(s: Stamp): int {
    if WholeSeconds(s) then COARSE_WINDOW else FINE_WINDOW
  }

  /** From when a write can no longer keep these timestamps. */
  function TrustedFrom(s: Stamp): int {
    (if s.mtime > s.ctime then s.mtime else s.ctime) + Window(s)
  }

  predicate Racy(s: Stamp, readAt: int) {
    readAt < TrustedFrom(s)
  }

  /** What a read saw; the digest kept for a racy one is taken as injective, so
      it is the bytes themselves. */
  datatype Capture = Capture(stamp: Stamp, changed: bool, racy: Option<Bytes>)

  function Captured(walk: Stamp, started: int, before: Stamp, buf: Bytes, after: Stamp): Capture {
    var changed := !Same(before, after, false) || !Same(before, walk, true);
    Capture(before, changed, if !changed && Racy(before, started) then Some(buf) else None)
  }

  /** The stamp to record, and whether the next check must read the file again. */
  function Recorded(walk: Stamp, read: Option<Capture>, walkedAt: int): (Stamp, bool) {
    match read
    case Some(c) => (c.stamp, c.changed || c.racy.Some?)
    case None => (walk, Racy(walk, walkedAt))
  }

  /** `settle_racy`: after the wait, a second stat and read clear the doubt or
      leave the capture changed. `now` is when it is called. */
  function Settled(c: Capture, now: int, maxWait: int, again: Stamp, buf: Bytes): Capture {
    if c.racy.None? || TrustedFrom(c.stamp) - now > maxWait then c
    else
      var same := Same(again, c.stamp, true) && buf == c.racy.value;
      Capture(c.stamp, c.changed || !same, None)
  }

  /** `classify` leaves the record alone. */
  predicate Unmodified(present: Stamp, recorded: (Stamp, bool), noIno: bool) {
    Same(present, recorded.0, noIno) && !recorded.1
  }

  // ------------------------------------------------------------ the file system

  datatype File = File(stamp: Stamp, bytes: Bytes)

  /** The clock, the file the path names, and every file by inode number. */
  datatype World = World(clock: int, path: Option<nat>, files: map<nat, File>)

  /** Change times lag the clock by less than `Lag`; with whole seconds every
      stamp is whole. */
  function Lag(coarse: bool): int {
    if coarse then COARSE_WINDOW else FINE_WINDOW
  }

  ghost predicate Stamped(w: World, coarse: bool) {
    && (forall i | i in w.files :: w.files[i].stamp.ino == i && (coarse ==> WholeSeconds(w.files[i].stamp)))
    && (w.path.Some? ==> w.path.value in w.files)
  }

  /** The file was written, created or renamed at this clock. */
  predicate Touched(clock: int, coarse: bool, f: File) {
    clock - Lag(coarse) < f.stamp.ctime <= clock
  }

  /** Anything may happen to any files; what changes has its change time set. */
  ghost predicate Moves(a: World, b: World, coarse: bool) {
    && a.clock <= b.clock && Stamped(b, coarse)
    && (forall i | i in b.files :: (i in a.files && a.files[i] == b.files[i]) || Touched(b.clock, coarse, b.files[i]))
    && (b.path.Some? ==> b.path == a.path || Touched(b.clock, coarse, b.files[b.path.value]))
  }

  ghost predicate Timeline(ws: seq<World>, coarse: bool) {
    && ws != [] && Stamped(ws[0], coarse)
    && forall k | 0 <= k < |ws| - 1 :: MovesAt(ws, k, coarse)
  }

  ghost predicate MovesAt(ws: seq<World>, k: nat, coarse: bool) {
    k + 1 < |ws| && Moves(ws[k], ws[k + 1], coarse)
  }

  lemma {:induction false} ClockRuns(ws: seq<World>, coarse: bool, a: nat, b: nat)
    requires Timeline(ws, coarse) && a <= b < |ws|
    ensures ws[a].clock <= ws[b].clock && Stamped(ws[b], coarse)
  {
    if a < b {
      ClockRuns(ws, coarse, a, b - 1);
      assert MovesAt(ws, b - 1, coarse);
    } else if b > 0 {
      assert MovesAt(ws, b - 1, coarse);
    }
  }

  /** A stamp is trusted once the clock is past the lag of its change time. */
  lemma TrustIsEnough(s: Stamp, coarse: bool, t: int)
    requires (coarse ==> WholeSeconds(s)) && !Racy(s, t)
    ensures t >= s.ctime + Lag(coarse)
  {
  }

  /** A file whose change time was already trusted at `a` was not touched from
      then on, nor was the path made to name it. */
  lemma {:induction false} NotTouched(ws: seq<World>, coarse: bool, a: nat, f: nat, j: nat)
    requires Timeline(ws, coarse) && a <= f < |ws| && j in ws[f].files
    requires ws[a].clock >= ws[f].files[j].stamp.ctime + Lag(coarse)
    ensures forall k | a <= k <= f :: j in ws[k].files && ws[k].files[j] == ws[f].files[j]
    ensures ws[f].path == Some(j) ==> forall k | a <= k <= f :: ws[k].path == Some(j)
    decreases f
  {
    if a < f {
      assert MovesAt(ws, f - 1, coarse);
      ClockRuns(ws, coarse, a, f);
      NotTouched(ws, coarse, a, f - 1, j);
    }
  }

  function Cut(bytes: Bytes): Bytes {
    if |bytes| > MAX_FILE + 1 then bytes[..MAX_FILE + 1] else bytes
  }

  /** A read from `c` to `d` of a file nothing changes meanwhile gives its bytes;
      of one that changes, anything. */
  ghost predicate Reads(ws: seq<World>, ino: nat, c: nat, d: nat, buf: Bytes)
    requires c <= d < |ws|
  {
    ino in ws[d].files && (forall k | c <= k <= d :: ino in ws[k].files && ws[k].files[ino].bytes == ws[d].files[ino].bytes) ==>
      buf == Cut(ws[d].files[ino].bytes)
  }

  ghost predicate Stats(ws: seq<World>, k: nat, ino: nat, s: Stamp) {
    k < |ws| && ino in ws[k].files && ws[k].files[ino].stamp == s
  }

  /** The first read: opened at `o`, the clock read at `b`, one stat at `c`,
      another at `d`. */
  ghost predicate FirstRead(ws: seq<World>, ino: nat, o: nat, b: nat, c: nat, d: nat,
                            started: int, before: Stamp, buf: Bytes, after: Stamp) {
    && o <= b <= c <= d < |ws|
    && ws[o].path == Some(ino) && started == ws[b].clock
    && Stats(ws, c, ino, before) && Stats(ws, d, ino, after) && Reads(ws, ino, c, d, buf)
  }

  // ------------------------------------------------------------ what a record promises

  /** A record of a read that was neither changed nor racy, with inode numbers
      compared: the bytes on disk. */
  lemma FreshRecordHolds(ws: seq<World>, coarse: bool, ino: nat, o: nat, b: nat, c: nat, d: nat, f: nat,
                         walk: Stamp, before: Stamp, buf: Bytes, after: Stamp, walkedAt: int)
    requires o <= b <= c <= d <= f < |ws| && Timeline(ws, coarse)
    requires FirstRead(ws, ino, o, b, c, d, ws[b].clock, before, buf, after)
    requires ws[f].path.Some?
    requires ws[f].path.value in ws[f].files && Unmodified(ws[f].files[ws[f].path.value].stamp,
               Recorded(walk, Some(Captured(walk, ws[b].clock, before, buf, after)), walkedAt), false)
    ensures buf == Cut(ws[f].files[ws[f].path.value].bytes)
  {
    var j := ws[f].path.value;
    ClockRuns(ws, coarse, c, c);
    TrustIsEnough(before, coarse, ws[b].clock);
    NotTouched(ws, coarse, b, f, j);
    ClockRuns(ws, coarse, c, f);
    assert j == ino;
  }

  /** Without inode numbers the record holds the bytes on disk exactly when, as
      the clock is read, the file opened and the file the path names have the same
      bytes: always, unless the file was replaced between the two. */
  lemma PathRecordHolds(ws: seq<World>, coarse: bool, ino: nat, o: nat, b: nat, c: nat, d: nat, f: nat,
                        walk: Stamp, before: Stamp, buf: Bytes, after: Stamp, walkedAt: int)
    requires o <= b <= c <= d <= f < |ws| && Timeline(ws, coarse)
    requires FirstRead(ws, ino, o, b, c, d, ws[b].clock, before, buf, after)
    requires ws[f].path.Some?
    requires ws[f].path.value in ws[f].files && Unmodified(ws[f].files[ws[f].path.value].stamp,
               Recorded(walk, Some(Captured(walk, ws[b].clock, before, buf, after)), walkedAt), true)
    ensures ws[b].path.Some? && ino in ws[b].files && ws[b].path.value in ws[b].files
    ensures buf == Cut(ws[f].files[ws[f].path.value].bytes)
      <==> Cut(ws[b].files[ino].bytes) == Cut(ws[b].files[ws[b].path.value].bytes)
    ensures ws[b].path == Some(ino) ==> buf == Cut(ws[f].files[ws[f].path.value].bytes)
  {
    var j := ws[f].path.value;
    ClockRuns(ws, coarse, c, c);
    ClockRuns(ws, coarse, c, d);
    TrustIsEnough(before, coarse, ws[b].clock);
    NotTouched(ws, coarse, b, f, j);
    NotTouched(ws, coarse, b, d, ino);
  }

  /** A racy read settled later: the clock past the wait at `e`, the path opened
      again at `g`, stat at `h` and read until `k`. */
  lemma SettledRecordHolds(ws: seq<World>, coarse: bool, first: Capture, ino: nat, e: nat, g: nat, h: nat, k: nat, f: nat,
                           walk: Stamp, now: int, maxWait: int, again: Stamp, buf: Bytes, noIno: bool, walkedAt: int)
    requires Timeline(ws, coarse) && e <= g <= h <= k <= f < |ws|
    requires first.racy.Some? && (coarse ==> WholeSeconds(first.stamp))
    requires TrustedFrom(first.stamp) - now <= maxWait
    requires ws[e].clock >= now && ws[e].clock >= TrustedFrom(first.stamp)
    requires ws[g].path == Some(ino) && Stats(ws, h, ino, again) && Reads(ws, ino, h, k, buf)
    requires ws[f].path.Some?
    requires ws[f].path.value in ws[f].files && Unmodified(ws[f].files[ws[f].path.value].stamp,
               Recorded(walk, Some(Settled(first, now, maxWait, again, buf)), walkedAt), noIno)
    ensures first.racy.value == Cut(ws[f].files[ws[f].path.value].bytes)
  {
    var j := ws[f].path.value;
    TrustIsEnough(first.stamp, coarse, ws[e].clock);
    NotTouched(ws, coarse, e, f, j);
    assert j == ino;
  }

  /** A file that was not read keeps the walk's stamp: unmarked and unmodified,
      it has not changed since a time before the walk's stat. */
  lemma UnreadRecordHolds(ws: seq<World>, coarse: bool, a: nat, s: nat, f: nat, ino: nat, walk: Stamp, noIno: bool)
    requires Timeline(ws, coarse) && a <= s <= f < |ws|
    requires ws[s].path == Some(ino) && Stats(ws, s, ino, walk)
    requires ws[f].path.Some?
    requires ws[f].path.value in ws[f].files
      && Unmodified(ws[f].files[ws[f].path.value].stamp, Recorded(walk, None, ws[a].clock), noIno)
    ensures ws[f].files[ws[f].path.value] == ws[s].files[ino]
  {
    var j := ws[f].path.value;
    ClockRuns(ws, coarse, s, s);
    TrustIsEnough(walk, coarse, ws[a].clock);
    NotTouched(ws, coarse, a, f, j);
    assert j == ino;
  }

  // ------------------------------------------------------------ no needless rechecks

  /** The path names one file that nothing touches from `a` to `f`. */
  ghost predicate Quiet(ws: seq<World>, ino: nat, a: nat, f: nat) {
    && f < |ws| && ino in ws[f].files
    && forall k {:trigger ws[k]} | a <= k <= f ::
         ws[k].path == Some(ino) && ino in ws[k].files && ws[k].files[ino] == ws[f].files[ino]
  }

  /** A file left alone since the walk, and long enough before the read, is
      recorded unmarked and found unmodified. */
  lemma QuietFileIsTrusted(ws: seq<World>, ino: nat, w: nat, o: nat, b: nat, c: nat, d: nat, f: nat,
                           walk: Stamp, before: Stamp, buf: Bytes, after: Stamp, noIno: bool, walkedAt: int)
    requires w <= o <= b <= c <= d <= f < |ws| && Quiet(ws, ino, w, f)
    requires Stats(ws, w, ino, walk) && FirstRead(ws, ino, o, b, c, d, ws[b].clock, before, buf, after)
    requires ws[b].clock >= TrustedFrom(walk)
    ensures ino in ws[f].files && Unmodified(ws[f].files[ino].stamp,
              Recorded(walk, Some(Captured(walk, ws[b].clock, before, buf, after)), walkedAt), noIno)
  {
    assert ws[w].files[ino] == ws[c].files[ino] == ws[d].files[ino] == ws[f].files[ino];
  }

  /** A racy read of a file left alone is cleared by the settle re-read. */
  lemma QuietFileSettles(ws: seq<World>, ino: nat, c: nat, g: nat, h: nat, k: nat, f: nat, walk: Stamp, first: Capture,
                         now: int, maxWait: int, again: Stamp, buf: Bytes, noIno: bool, walkedAt: int)
    requires c <= g <= h <= k <= f < |ws| && Quiet(ws, ino, c, f)
    requires Stats(ws, c, ino, first.stamp) && !first.changed
    requires first.racy == Some(Cut(ws[c].files[ino].bytes))
    requires TrustedFrom(first.stamp) - now <= maxWait
    requires Stats(ws, h, ino, again) && Reads(ws, ino, h, k, buf)
    ensures ino in ws[f].files && Unmodified(ws[f].files[ino].stamp,
              Recorded(walk, Some(Settled(first, now, maxWait, again, buf)), walkedAt), noIno)
  {
    assert ws[c].files[ino] == ws[h].files[ino] == ws[k].files[ino] == ws[f].files[ino];
  }

  // ------------------------------------------------------------ where it ends

  /** Without inode numbers a file replaced after its opening and before the
      clock is read can pass unnoticed: the record is unmarked, the path's stamp
      equals it, and the bytes differ. */
  lemma ReplacedUnnoticed(x: Byte, y: Byte)
    requires x != y
    ensures var first := Stamp(1, 1, 1, 1, 7);
      var second := Stamp(1, 1, 1, 2, 7);
      var ws := [World(1, Some(1), map[1 := File(first, [x])]),
                 World(2, Some(2), map[1 := File(first, [x]), 2 := File(second, [y])]),
                 World(1 + FINE_WINDOW, Some(2), map[1 := File(first, [x]), 2 := File(second, [y])])];
      var record := Recorded(first, Some(Captured(first, ws[2].clock, first, [x], first)), 0);
      && Timeline(ws, false) && FirstRead(ws, 1, 0, 2, 2, 2, ws[2].clock, first, [x], first)
      && Unmodified(ws[2].files[2].stamp, record, true) && [x] != Cut(ws[2].files[2].bytes)
      && !Unmodified(ws[2].files[2].stamp, record, false)
  {
    assert 1 % SECOND == 1;
  }

  /** `Moves` on a file system whose change times lag by at most the window. */
  ghost predicate MovesLate(a: World, b: World, coarse: bool) {
    && a.clock <= b.clock && Stamped(b, coarse)
    && (forall i | i in b.files :: (i in a.files && a.files[i] == b.files[i]) || TouchedLate(b.clock, coarse, b.files[i]))
    && (b.path.Some? ==> b.path == a.path || TouchedLate(b.clock, coarse, b.files[b.path.value]))
  }

  predicate TouchedLate(clock: int, coarse: bool, f: File) {
    clock - Lag(coarse) <= f.stamp.ctime <= clock
  }

  /** A lag of the whole window is too much: a file is read at the first trusted
      time and recorded unmarked, a write at that time leaves the very same stamp,
      and the next check finds it unmodified with other bytes. */
  lemma LagMustStayBelow(x: Byte, y: Byte, coarse: bool)
    requires x != y
    ensures var start := if coarse then SECOND else 1;
      var stamp := Stamp(1, start, start, 1, 7);
      var clock := start + Lag(coarse);
      var ws := [World(clock, Some(1), map[1 := File(stamp, [x])]), World(clock, Some(1), map[1 := File(stamp, [y])])];
      var record := Recorded(stamp, Some(Captured(stamp, clock, stamp, [x], stamp)), 0);
      && Stamped(ws[0], coarse) && MovesLate(ws[0], ws[1], coarse) && !Moves(ws[0], ws[1], coarse)
      && FirstRead(ws, 1, 0, 0, 0, 0, clock, stamp, [x], stamp)
      && Unmodified(ws[1].files[1].stamp, record, false) && [x] != Cut(ws[1].files[1].bytes)
  {
    assert 1 % SECOND == 1;
    var start := if coarse then SECOND else 1;
    var stamp := Stamp(1, start, start, 1, 7);
    var clock := start + Lag(coarse);
    assert map[1 := File(stamp, [y])][1].bytes == [y];
  }
}
