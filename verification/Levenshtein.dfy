// Bounded edit distance (crates/greeg-index/src/index.rs): two rolling rows, a
// length check before and an early exit on the row minimum. The distance itself
// is the length of a shortest script of single-byte edits.

module Levenshtein {
  import opened Bytes

  // ------------------------------------------------------------ edit scripts

  datatype Edit = Ins(pos: nat, x: Byte) | Del(pos: nat) | Rep(pos: nat, x: Byte)

  function Apply(s: Bytes, e: Edit): Option<Bytes> {
    match e
    case Ins(p, x) => if p <= |s| then Some(s[..p] + [x] + s[p..]) else None
    case Del(p) => if p < |s| then Some(s[..p] + s[p + 1..]) else None
    case Rep(p, x) => if p < |s| then Some(s[..p] + [x] + s[p + 1..]) else None
  }

  function Run(s: Bytes, es: seq<Edit>): Option<Bytes>
    decreases |es|
  {
    if es == [] then Some(s)
    else
      var r := Apply(s, es[0]);
      if r.Some? then Run(r.value, es[1..]) else None
  }

  /** `d` edits turn `a` into `b`, and no fewer do. */
  ghost predicate Distance(a: Bytes, b: Bytes, d: nat) {
    && (exists es :: |es| == d && Run(a, es) == Some(b))
    && (forall es | Run(a, es) == Some(b) :: |es| >= d)
  }

  // ------------------------------------------------------------ the recurrence

  function Min3(a: nat, b: nat, c: nat): nat {
    if a <= b && a <= c then a else if b <= c then b else c
  }

  function Cost(x: Byte, y: Byte): nat {
    if x == y then 0 else 1
  }

  function Front(s: Bytes): Bytes
    requires s != []
  {
    s[..|s| - 1]
  }

  function Last(s: Bytes): Byte
    requires s != []
  {
    s[|s| - 1]
  }

  function Lev(a: Bytes, b: Bytes): nat
    decreases |a| + |b|
  {
    if a == [] then |b|
    else if b == [] then |a|
    else Min3(Lev(Front(a), b) + 1, Lev(a, Front(b)) + 1, Lev(Front(a), Front(b)) + Cost(Last(a), Last(b)))
  }

  lemma {:induction false} SelfIsZero(a: Bytes)
    ensures Lev(a, a) == 0
  {
    if a != [] {
      SelfIsZero(Front(a));
    }
  }

  /** One more byte on either side costs at most one edit. */
  lemma {:induction false} LevSnoc(a: Bytes, b: Bytes)
    ensures b != [] ==> Lev(a, b) <= Lev(a, Front(b)) + 1
    ensures a != [] ==> Lev(a, b) <= Lev(Front(a), b) + 1
  {
  }

  /** Dropping the last byte costs at most one edit. */
  lemma {:induction false} LevDrop(a: Bytes, b: Bytes)
    requires a != []
    ensures Lev(Front(a), b) <= Lev(a, b) + 1
    decreases |b|
  {
    if b != [] {
      LevDrop(a, Front(b));
      LevSnoc(Front(a), b);
    }
  }

  /** So does changing it. */
  lemma {:induction false} LevChange(a: Bytes, c: Bytes, b: Bytes)
    requires a != [] && c != [] && Front(a) == Front(c)
    ensures Lev(a, b) <= Lev(c, b) + 1
    decreases |b|
  {
    if b != [] {
      LevChange(a, c, Front(b));
      LevSnoc(a, b);
    }
  }

  /** Two strings that share all but the last byte of a common front. */
  ghost predicate OneApart(a: Bytes, c: Bytes) {
    || (a != [] && Front(a) == c)
    || (c != [] && Front(c) == a)
    || (a != [] && c != [] && Front(a) == Front(c))
  }

  /** One edit anywhere changes the distance by at most one. */
  lemma {:induction false} LevEdit(u: Bytes, v: Bytes, w: Bytes, b: Bytes)
    requires OneApart(u, v)
    ensures Lev(u + w, b) <= Lev(v + w, b) + 1
    decreases |w| + |b|
  {
    var a, c := u + w, v + w;
    if w == [] {
      assert a == u && c == v;
      if u != [] && Front(u) == v {
        LevSnoc(u, b);
      } else if v != [] && Front(v) == u {
        LevDrop(v, b);
      } else {
        LevChange(u, v, b);
      }
    } else if b != [] {
      assert Front(a) == u + Front(w) && Front(c) == v + Front(w) && Last(a) == Last(c);
      LevEdit(u, v, Front(w), b);
      LevEdit(u, v, w, Front(b));
      LevEdit(u, v, Front(w), Front(b));
    }
  }

  lemma {:induction false} LevApply(a: Bytes, e: Edit, b: Bytes)
    requires Apply(a, e).Some?
    ensures Lev(a, b) <= Lev(Apply(a, e).value, b) + 1
  {
    var c := Apply(a, e).value;
    match e
    case Ins(p, x) =>
      assert a == a[..p] + a[p..] && Front(a[..p] + [x]) == a[..p];
      LevEdit(a[..p], a[..p] + [x], a[p..], b);
    case Del(p) =>
      assert a == a[..p + 1] + a[p + 1..] && Front(a[..p + 1]) == a[..p];
      LevEdit(a[..p + 1], a[..p], a[p + 1..], b);
    case Rep(p, x) =>
      assert a == a[..p + 1] + a[p + 1..] && Front(a[..p + 1]) == a[..p] && Front(a[..p] + [x]) == a[..p];
      LevEdit(a[..p + 1], a[..p] + [x], a[p + 1..], b);
  }

  /** No script is shorter. */
  lemma {:induction false} NoShorter(a: Bytes, es: seq<Edit>, b: Bytes)
    requires Run(a, es) == Some(b)
    ensures |es| >= Lev(a, b)
    decreases |es|
  {
    if es == [] {
      SelfIsZero(a);
    } else {
      LevApply(a, es[0], b);
      NoShorter(Apply(a, es[0]).value, es[1..], b);
    }
  }

  // ------------------------------------------------------------ a script that short

  lemma ApplyUnder(s: Bytes, e: Edit, x: Byte)
    requires Apply(s, e).Some?
    ensures Apply(s + [x], e) == Some(Apply(s, e).value + [x])
  {
    var p, t := e.pos, s + [x];
    assert t[..p] == s[..p] && t[p..] == s[p..] + [x];
    match e
    case Ins(_, y) =>
      assert t[..p] + [y] + t[p..] == (s[..p] + [y] + s[p..]) + [x];
    case Del(_) =>
      assert t[..p] + t[p + 1..] == (s[..p] + s[p + 1..]) + [x];
    case Rep(_, y) =>
      assert t[..p] + [y] + t[p + 1..] == (s[..p] + [y] + s[p + 1..]) + [x];
  }

  /** Edits before a last byte leave it alone. */
  lemma {:induction false} RunUnder(s: Bytes, es: seq<Edit>, x: Byte)
    requires Run(s, es).Some?
    ensures Run(s + [x], es) == Some(Run(s, es).value + [x])
    decreases |es|
  {
    if es != [] {
      ApplyUnder(s, es[0], x);
      RunUnder(Apply(s, es[0]).value, es[1..], x);
    }
  }

  lemma {:induction false} RunSnoc(s: Bytes, es: seq<Edit>, e: Edit)
    requires Run(s, es).Some?
    ensures Run(s, es + [e]) == Apply(Run(s, es).value, e)
    decreases |es|
  {
    if es == [] {
      assert [e][1..] == [];
    } else {
      assert (es + [e])[1..] == es[1..] + [e];
      RunSnoc(Apply(s, es[0]).value, es[1..], e);
    }
  }

  /** A script of exactly the distance. */
  function Script(a: Bytes, b: Bytes): (es: seq<Edit>)
    ensures |es| == Lev(a, b)
    decreases |a| + |b|
  {
    if a == [] then
      if b == [] then [] else Script(a, Front(b)) + [Ins(|b| - 1, Last(b))]
    else if b == [] then [Del(|a| - 1)] + Script(Front(a), b)
    else if Lev(a, b) == Lev(Front(a), b) + 1 then [Del(|a| - 1)] + Script(Front(a), b)
    else if Lev(a, b) == Lev(a, Front(b)) + 1 then Script(a, Front(b)) + [Ins(|b| - 1, Last(b))]
    else if Last(a) == Last(b) then Script(Front(a), Front(b))
    else Script(Front(a), Front(b)) + [Rep(|b| - 1, Last(b))]
  }

  lemma LastByte(s: Bytes, x: Byte)
    requires s != []
    ensures Apply(Front(s), Ins(|s| - 1, Last(s))) == Some(s)
    ensures Apply(s, Del(|s| - 1)) == Some(Front(s))
    ensures Apply(Front(s) + [x], Rep(|s| - 1, Last(s))) == Some(s)
    ensures Front(s) + [Last(s)] == s
  {
    var f, n := Front(s), |s| - 1;
    assert f[..n] == f && f[n..] == [] && f + [Last(s)] + [] == s;
    assert s[..n] == f && s[n + 1..] == [] && f + [] == f;
    assert (f + [x])[..n] == f && (f + [x])[n + 1..] == [];
  }

  lemma {:induction false} ScriptAfterDelete(a: Bytes, b: Bytes)
    requires a != [] && Run(Front(a), Script(Front(a), b)) == Some(b)
    ensures Run(a, [Del(|a| - 1)] + Script(Front(a), b)) == Some(b)
  {
    LastByte(a, 0);
    var es := [Del(|a| - 1)] + Script(Front(a), b);
    assert es[0] == Del(|a| - 1) && es[1..] == Script(Front(a), b);
  }

  lemma {:induction false} ScriptBeforeInsert(a: Bytes, b: Bytes)
    requires b != [] && Run(a, Script(a, Front(b))) == Some(Front(b))
    ensures Run(a, Script(a, Front(b)) + [Ins(|b| - 1, Last(b))]) == Some(b)
  {
    LastByte(b, 0);
    RunSnoc(a, Script(a, Front(b)), Ins(|b| - 1, Last(b)));
  }

  lemma {:induction false} ScriptUnderLast(a: Bytes, b: Bytes, es: seq<Edit>)
    requires a != [] && b != [] && Run(Front(a), es) == Some(Front(b))
    ensures if Last(a) == Last(b) then Run(a, es) == Some(b) else Run(a, es + [Rep(|b| - 1, Last(b))]) == Some(b)
  {
    LastByte(a, 0);
    LastByte(b, Last(a));
    RunUnder(Front(a), es, Last(a));
    RunSnoc(a, es, Rep(|b| - 1, Last(b)));
  }

  lemma {:induction false} ScriptWorks(a: Bytes, b: Bytes)
    ensures Run(a, Script(a, b)) == Some(b)
    decreases |a| + |b|
  {
    if a == [] && b == [] {
    } else if b == [] || (a != [] && Lev(a, b) == Lev(Front(a), b) + 1) {
      ScriptWorks(Front(a), b);
      ScriptAfterDelete(a, b);
    } else if a == [] || Lev(a, b) == Lev(a, Front(b)) + 1 {
      ScriptWorks(a, Front(b));
      ScriptBeforeInsert(a, b);
    } else {
      ScriptWorks(Front(a), Front(b));
      ScriptUnderLast(a, b, Script(Front(a), Front(b)));
    }
  }

  /** The recurrence computes the length of a shortest edit script. */
  lemma {:induction false} LevIsDistance(a: Bytes, b: Bytes, d: nat)
    ensures Distance(a, b, d) <==> d == Lev(a, b)
  {
    ScriptWorks(a, b);
    assert |Script(a, b)| == Lev(a, b) && Run(a, Script(a, b)) == Some(b);
    forall es | Run(a, es) == Some(b) ensures |es| >= Lev(a, b) {
      NoShorter(a, es, b);
    }
  }

  // ------------------------------------------------------------ cutting off

  lemma {:induction false} LevAtLeastLength(a: Bytes, b: Bytes)
    ensures |a| - |b| <= Lev(a, b) && |b| - |a| <= Lev(a, b)
    decreases |a| + |b|
  {
    if a != [] && b != [] {
      LevAtLeastLength(Front(a), b);
      LevAtLeastLength(a, Front(b));
      LevAtLeastLength(Front(a), Front(b));
    }
  }

  ghost predicate RowAbove(a: Bytes, b: Bytes, i: nat, max: nat) {
    i <= |a| && forall j | 0 <= j <= |b| :: Lev(a[..i], b[..j]) > max
  }

  /** Once a whole row is above the bound, so is every later one. */
  lemma {:induction false} RowStaysAbove(a: Bytes, b: Bytes, i: nat, max: nat)
    requires RowAbove(a, b, i, max) && i < |a|
    ensures RowAbove(a, b, i + 1, max)
  {
    var up := a[..i + 1];
    assert Front(up) == a[..i];
    for j := 0 to |b| + 1
      invariant forall k | 0 <= k < j :: Lev(up, b[..k]) > max
    {
      assert Lev(a[..i], b[..j]) > max;
      if j == 0 {
        assert Lev(a[..i], b[..0]) == i;
      } else {
        assert Front(b[..j]) == b[..j - 1];
        assert Lev(a[..i], b[..j - 1]) > max && Lev(up, b[..j - 1]) > max;
      }
    }
  }

  lemma {:induction false} EndAbove(a: Bytes, b: Bytes, i: nat, max: nat)
    requires RowAbove(a, b, i, max)
    ensures Lev(a, b) > max
    decreases |a| - i
  {
    if i < |a| {
      RowStaysAbove(a, b, i, max);
      EndAbove(a, b, i + 1, max);
    } else {
      assert a[..i] == a && b[..|b|] == b;
    }
  }

  /** `row` holds the distances from `a` to every front of `b`, up to `n`. */
  ghost predicate IsRow(row: seq<nat>, a: Bytes, b: Bytes, n: nat) {
    n <= |b| + 1 == |row| && forall k | 0 <= k < n :: row[k] == Lev(a, b[..k])
  }

  lemma {:induction false} RowEntry(up: Bytes, b: Bytes, j: nat, above: nat, left: nat, corner: nat)
    requires up != [] && 1 <= j <= |b|
    requires above == Lev(Front(up), b[..j]) && left == Lev(up, b[..j - 1]) && corner == Lev(Front(up), b[..j - 1])
    ensures Min(Min(above + 1, left + 1), corner + Cost(Last(up), b[j - 1])) == Lev(up, b[..j])
  {
    assert Front(b[..j]) == b[..j - 1];
  }

  /** One row from the row before, and its least entry. */
  method FillRow(up: Bytes, b: Bytes, prev: array<nat>, cur: array<nat>) returns (rowMin: nat)
    requires up != [] && prev != cur && prev.Length == cur.Length == |b| + 1
    requires IsRow(prev[..], Front(up), b, |b| + 1)
    modifies cur
    ensures IsRow(cur[..], up, b, |b| + 1) && prev[..] == old(prev[..])
    ensures rowMin in cur[..] && forall k | 0 <= k <= |b| :: rowMin <= cur[k]
  {
    cur[0] := |up|;
    rowMin := cur[0];
    for j := 1 to |b| + 1
      invariant prev[..] == old(prev[..]) && IsRow(cur[..], up, b, j)
      invariant exists k :: 0 <= k < j && cur[k] == rowMin
      invariant forall k | 0 <= k < j :: rowMin <= cur[k]
    {
      assert prev[..][j] == Lev(Front(up), b[..j]) && prev[..][j - 1] == Lev(Front(up), b[..j - 1]);
      assert cur[..][j - 1] == Lev(up, b[..j - 1]);
      RowEntry(up, b, j, prev[j], cur[j - 1], prev[j - 1]);
      var cost := if up[|up| - 1] == b[j - 1] then 0 else 1;
      ghost var before := cur[..];
      cur[j] := Min(Min(prev[j] + 1, cur[j - 1] + 1), prev[j - 1] + cost);
      assert forall k | 0 <= k < j :: cur[..][k] == before[k];
      rowMin := Min(rowMin, cur[j]);
    }
    var k :| 0 <= k <= |b| && cur[k] == rowMin;
    assert cur[..][k] == rowMin;
  }

  /** The distance when it is at most `max`, and nothing when it is more. */
  ghost predicate Answers(a: Bytes, b: Bytes, max: nat, r: Option<nat>) {
    exists d: nat :: Distance(a, b, d) && r == if d <= max then Some(d) else None
  }

  lemma {:induction false} AnswerIs(a: Bytes, b: Bytes, max: nat, r: Option<nat>)
    ensures Answers(a, b, max, r) <==> r == if Lev(a, b) <= max then Some(Lev(a, b)) else None
  {
    LevIsDistance(a, b, Lev(a, b));
    forall d: nat | Distance(a, b, d) ensures d == Lev(a, b) {
      LevIsDistance(a, b, d);
    }
  }

  lemma FirstRow(row: seq<nat>, a: Bytes, b: Bytes)
    requires |row| == |b| + 1 && forall j | 0 <= j <= |b| :: row[j] == j
    ensures IsRow(row, a[..0], b, |b| + 1)
  {
  }

  lemma TooFar(a: Bytes, b: Bytes, max: nat, row: seq<nat>, i: nat)
    requires i <= |a| && IsRow(row, a[..i], b, |b| + 1) && forall k | 0 <= k < |row| :: row[k] > max
    ensures Answers(a, b, max, None)
  {
    EndAbove(a, b, i, max);
    AnswerIs(a, b, max, None);
  }

  lemma TooLong(a: Bytes, b: Bytes, max: nat)
    requires |a| - |b| > max || |b| - |a| > max
    ensures Answers(a, b, max, None)
  {
    LevAtLeastLength(a, b);
    AnswerIs(a, b, max, None);
  }

  lemma LastRow(row: seq<nat>, a: Bytes, b: Bytes, max: nat)
    requires IsRow(row, a[..|a|], b, |b| + 1)
    ensures Answers(a, b, max, if row[|b|] <= max then Some(row[|b|]) else None)
  {
    assert a[..|a|] == a && b[..|b|] == b;
    AnswerIs(a, b, max, if row[|b|] <= max then Some(row[|b|]) else None);
  }

  /** `levenshtein_bounded`. */
  method Bounded(a: Bytes, b: Bytes, max: nat) returns (r: Option<nat>)
    ensures Answers(a, b, max, r)
  {
    if |a| - |b| > max || |b| - |a| > max {
      TooLong(a, b, max);
      return None;
    }
    var prev := new nat[|b| + 1](j => j);
    var cur := new nat[|b| + 1](_ => 0);
    FirstRow(prev[..], a, b);
    for i := 0 to |a|
      invariant prev.Length == cur.Length == |b| + 1 && prev != cur
      invariant fresh(prev) && fresh(cur)
      invariant IsRow(prev[..], a[..i], b, |b| + 1)
    {
      assert Front(a[..i + 1]) == a[..i];
      var rowMin := FillRow(a[..i + 1], b, prev, cur);
      if rowMin > max {
        TooFar(a, b, max, cur[..], i + 1);
        return None;
      }
      prev, cur := cur, prev;
    }
    LastRow(prev[..], a, b, max);
    r := if prev[|b|] <= max then Some(prev[|b|]) else None;
  }
}
